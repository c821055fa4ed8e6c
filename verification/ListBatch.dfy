/** One query for a whole page of projects instead of one per project. */
module ListBatch {
  import opened Options
  import opened Bytes
  import opened OwnedRows

  function Members(ids: seq<int>): set<int> { set i | 0 <= i < |ids| :: ids[i] }

  // ----- phone contacts -----

  /** A contact can be null. */
  type PhoneRow = Row<Option<Text>>

  function ContactsOf(rows: seq<PhoneRow>): seq<Text> {
    if rows == [] then []
    else match rows[0].value
      case None => ContactsOf(rows[1..])
      case Some(contact) => [contact] + ContactsOf(rows[1..])
  }

  /** One user's contacts in id order, by a query of its own. */
  function UserPhones(table: seq<PhoneRow>, user: int): seq<Text> {
    ContactsOf(OrderById(OwnedBy(table, user)))
  }

  lemma {:induction false} ContactsOfAppend(rows: seq<PhoneRow>, row: PhoneRow)
    ensures ContactsOf(rows + [row]) ==
            ContactsOf(rows) + match row.value case None => [] case Some(contact) => [contact]
  {
    if rows == [] {
      assert rows + [row] == [row] && [row][1..] == [];
    } else {
      assert (rows + [row])[1..] == rows[1..] + [row];
      ContactsOfAppend(rows[1..], row);
    }
  }

  lemma NextContact(rows: seq<PhoneRow>, row: PhoneRow, user: int)
    ensures ContactsOf(OwnedBy(rows + [row], user)) ==
            ContactsOf(OwnedBy(rows, user)) +
            (if row.owner == user && row.value.Some? then [row.value.value] else [])
  {
    OwnedByAppend(rows, row, user);
    ContactsOfAppend(OwnedBy(rows, user), row);
  }

  method PhonesBatch(table: seq<PhoneRow>, users: seq<int>) returns (out: map<int, seq<Text>>)
    ensures forall u :: Of(out, u) == if u in Members(users) then UserPhones(table, u) else []
  {
    out := map[];
    var rows := OrderByOwner(OwnedByAny(table, Members(users)));
    for i := 0 to |rows|
      invariant forall u :: Of(out, u) == ContactsOf(OwnedBy(rows[..i], u))
    {
      var row := rows[i];
      assert rows[..i + 1] == rows[..i] + [row];
      forall u ensures ContactsOf(OwnedBy(rows[..i + 1], u)) ==
                       Of(out, u) + (if row.owner == u && row.value.Some? then [row.value.value] else [])
      {
        NextContact(rows[..i], row, u);
      }
      match row.value
      case None =>
      case Some(contact) =>
        out := out[row.owner := Of(out, row.owner) + [contact]];
    }
    assert rows[..|rows|] == rows;
    forall u ensures Of(out, u) == if u in Members(users) then UserPhones(table, u) else [] {
      BatchHoldsEach(table, Members(users), u);
    }
  }

  // ----- bids -----

  /** The columns that name the bidder's profile, and everything else. */
  datatype Bid = Bid(role: Text, profiles: map<Text, int>, rest: Text)

  type BidRow = Row<Bid>

  const PROFILE_COLUMNS: map<Text, Text> := map[
    "arsitek" := "arsitek_id", "kontraktor" := "kontraktor_id", "notaris" := "notaris_id",
    "interior" := "interior_id", "project_manager" := "pm_id", "structural" := "structural_id", "mep" := "mep_id"]

  predicate Wanted(bid: Bid, role: Text, profile: Option<int>)
    requires role in PROFILE_COLUMNS
  {
    bid.role == role &&
    match profile
    case None => true
    case Some(id) =>
      var column := PROFILE_COLUMNS[role];
      column in bid.profiles && bid.profiles[column] == id
  }

  function WantedRows(table: seq<BidRow>, role: Text, profile: Option<int>): seq<BidRow>
    requires role in PROFILE_COLUMNS
  {
    if table == [] then []
    else if Wanted(table[0].value, role, profile) then [table[0]] + WantedRows(table[1..], role, profile)
    else WantedRows(table[1..], role, profile)
  }

  /** One project's bids in id order, by a query of its own. */
  function BidRows(table: seq<BidRow>, project: int, role: Text, profile: Option<int>): seq<BidRow> {
    if role !in PROFILE_COLUMNS then []
    else OrderById(WantedRows(OwnedBy(table, project), role, profile))
  }

  lemma {:induction false} WantedOfOwner(table: seq<BidRow>, project: int, role: Text, profile: Option<int>)
    requires role in PROFILE_COLUMNS
    ensures OwnedBy(WantedRows(table, role, profile), project) == WantedRows(OwnedBy(table, project), role, profile)
  {
    if table != [] {
      WantedOfOwner(table[1..], project, role, profile);
      var row, rest := table[0], table[1..];
      if row.owner == project {
        assert ([row] + OwnedBy(rest, project))[1..] == OwnedBy(rest, project);
      }
      if Wanted(row.value, role, profile) {
        assert ([row] + WantedRows(rest, role, profile))[1..] == WantedRows(rest, role, profile);
      }
    }
  }

  method BidRowsBatch(table: seq<BidRow>, projects: seq<int>, role: Text, profile: Option<int>)
    returns (out: map<int, seq<BidRow>>)
    ensures forall p :: Of(out, p) == if p in Members(projects) then BidRows(table, p, role, profile) else []
  {
    out := map[];
    if role !in PROFILE_COLUMNS {
      return;
    }
    var wanted := WantedRows(table, role, profile);
    var rows := OrderByOwner(OwnedByAny(wanted, Members(projects)));
    for i := 0 to |rows|
      invariant forall p :: Of(out, p) == OwnedBy(rows[..i], p)
    {
      var row := rows[i];
      assert rows[..i + 1] == rows[..i] + [row];
      var next := out[row.owner := Of(out, row.owner) + [row]];
      forall p ensures Of(next, p) == OwnedBy(rows[..i + 1], p) {
        OwnedByAppend(rows[..i], row, p);
      }
      out := next;
    }
    assert rows[..|rows|] == rows;
    forall p ensures Of(out, p) == if p in Members(projects) then BidRows(table, p, role, profile) else [] {
      BatchHoldsEach(wanted, Members(projects), p);
      WantedOfOwner(table, p, role, profile);
    }
  }

  // ----- bid counts -----

  function CountOf(rows: seq<BidRow>, role: Text): nat {
    if rows == [] then 0 else (if rows[0].value.role == role then 1 else 0) + CountOf(rows[1..], role)
  }

  function RolesOf(rows: seq<BidRow>): set<Text> { set i | 0 <= i < |rows| :: rows[i].value.role }

  /** One project's bids per role, by a query of its own. */
  function BidCounts(table: seq<BidRow>, project: int): map<Text, nat> {
    var rows := OwnedBy(table, project);
    map role | role in RolesOf(rows) :: CountOf(rows, role)
  }

  function CountsOf(counts: map<int, map<Text, nat>>, project: int): map<Text, nat> {
    if project in counts then counts[project] else map[]
  }

  /** GROUP BY project and role: one key for each group that has a row. */
  function Groups(table: seq<BidRow>, projects: set<int>): set<(int, Text)> {
    set i | 0 <= i < |table| && table[i].owner in projects :: (table[i].owner, table[i].value.role)
  }

  lemma {:induction false} RolesOfOwned(table: seq<BidRow>, project: int, role: Text)
    ensures role in RolesOf(OwnedBy(table, project)) <==>
            exists i :: 0 <= i < |table| && table[i].owner == project && table[i].value.role == role
  {
    if table != [] {
      var rest := table[1..];
      RolesOfOwned(rest, project, role);
      var tail := OwnedBy(rest, project);
      if table[0].owner == project {
        assert OwnedBy(table, project) == [table[0]] + tail;
        assert RolesOf([table[0]] + tail) == {table[0].value.role} + RolesOf(tail) by {
          forall i | 0 <= i < |tail| ensures tail[i].value.role in RolesOf([table[0]] + tail) {
            assert ([table[0]] + tail)[i + 1] == tail[i];
          }
          assert ([table[0]] + tail)[0] == table[0];
        }
      }
      if i :| 0 <= i < |rest| && rest[i].owner == project && rest[i].value.role == role {
        assert table[i + 1] == rest[i];
      }
      if i :| 0 <= i < |table| && table[i].owner == project && table[i].value.role == role {
        if i > 0 { assert rest[i - 1] == table[i]; }
      }
    }
  }

  /** The counts hold one entry for each group, and it is that group's. */
  ghost predicate Counted(counts: map<int, map<Text, nat>>, table: seq<BidRow>, groups: set<(int, Text)>) {
    forall p, role ::
      && (role in CountsOf(counts, p) <==> (p, role) in groups)
      && ((p, role) in groups ==> CountsOf(counts, p)[role] == CountOf(OwnedBy(table, p), role))
  }

  lemma CountedIsBidCounts(counts: map<int, map<Text, nat>>, table: seq<BidRow>, projects: set<int>, p: int)
    requires Counted(counts, table, Groups(table, projects))
    ensures CountsOf(counts, p) == if p in projects then BidCounts(table, p) else map[]
  {
    forall role ensures role in CountsOf(counts, p) <==> p in projects && role in BidCounts(table, p) {
      assert role in CountsOf(counts, p) <==> (p, role) in Groups(table, projects);
      RolesOfOwned(table, p, role);
    }
  }

  method ProjectBidCountsBatch(table: seq<BidRow>, projects: seq<int>) returns (out: map<int, map<Text, nat>>)
    ensures forall p :: CountsOf(out, p) == if p in Members(projects) then BidCounts(table, p) else map[]
  {
    out := map[];
    var left := Groups(table, Members(projects));
    ghost var done: set<(int, Text)> := {};
    while left != {}
      invariant done + left == Groups(table, Members(projects))
      invariant Counted(out, table, done)
      decreases left
    {
      var group :| group in left;
      var (project, role) := group;
      var counts := CountsOf(out, project);
      out := out[project := counts[role := CountOf(OwnedBy(table, project), role)]];
      left := left - {group};
      done := done + {group};
    }
    forall p ensures CountsOf(out, p) == if p in Members(projects) then BidCounts(table, p) else map[] {
      CountedIsBidCounts(out, table, Members(projects), p);
    }
  }
}
