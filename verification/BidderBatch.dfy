/** Loading the bidders of a whole page at once, and one by one. */
module BidderBatch {
  import opened Options
  import opened Bytes
  import opened OwnedRows
  import opened KeyedRows
  import ListBatch

  // ----- the tables -----

  /** A profile's user can be null; the other columns are carried along. */
  datatype Profile = Profile(user: Option<int>, columns: map<Text, Text>)

  datatype User = User(name: Text, email: Option<Text>, pic: Option<Text>)

  datatype Rating = Rating(profile: int, stars: int)

  datatype Database = Database(profiles: Text -> seq<Entry<Profile>>, users: seq<Entry<User>>,
                               ratings: Text -> seq<Rating>, phones: seq<ListBatch.PhoneRow>)

  /** Ids are primary keys. */
  ghost predicate Keyed(db: Database) {
    && UniqueIds(db.users)
    && forall table: Text :: UniqueIds(db.profiles(table))
  }

  /** Profile tables whose ratings are kept, and where. */
  const RATING_TABLES: map<Text, Text> := map[
    "arsiteks" := "arsitek_ratings", "kontraktors" := "kontraktor_ratings", "notaris_profiles" := "notaris_ratings",
    "interior_profiles" := "interior_ratings", "project_managers" := "p_m_ratings"]

  // ----- one bidder -----

  datatype Need = Need(role: Text, table: Text, profileId: int)

  datatype Score = Unrated | Rated(average: real, count: nat)

  datatype Datum = Datum(profile: Entry<Profile>, user: Option<Entry<User>>, score: Score, phones: seq<Text>)

  function CountOf(rows: seq<Rating>, profile: int): nat {
    if rows == [] then 0 else (if rows[0].profile == profile then 1 else 0) + CountOf(rows[1..], profile)
  }

  function StarsOf(rows: seq<Rating>, profile: int): int {
    if rows == [] then 0 else (if rows[0].profile == profile then rows[0].stars else 0) + StarsOf(rows[1..], profile)
  }

  /** The average and the count over one profile's rows; no rows average to 0. */
  function ScoreOf(rows: seq<Rating>, profile: int): Score {
    var count := CountOf(rows, profile);
    if count == 0 then Rated(0.0, 0) else Rated(StarsOf(rows, profile) as real / count as real, count)
  }

  function ProfileRating(db: Database, table: Text, profile: int): Score {
    if table !in RATING_TABLES || profile == 0 then Unrated else ScoreOf(db.ratings(RATING_TABLES[table]), profile)
  }

  /** A null user reads as 0, and user 0 is nobody. */
  function UserOf(profile: Profile): int {
    match profile.user case None => 0 case Some(id) => id
  }

  function UserMini(db: Database, user: int): Option<Entry<User>> {
    if user == 0 then None else First(db.users, user)
  }

  /** The queries for one bidder. */
  function Lookup(db: Database, need: Need): Option<Datum> {
    if need.profileId == 0 then None
    else
      match First(db.profiles(need.table), need.profileId)
      case None => None
      case Some(profile) =>
        var user := UserOf(profile.value);
        Some(Datum(profile, UserMini(db, user), ProfileRating(db, need.table, need.profileId),
                   ListBatch.UserPhones(db.phones, user)))
  }

  // ----- many bidders -----

  type Trees = map<Need, Datum>

  /** What the batch serves for one bid. */
  function Served(trees: Trees, need: Need): Option<Datum> {
    if need.profileId == 0 || need !in trees then None else Some(trees[need])
  }

  /** The batch holds a tree for each needed profile that exists, made of that
      profile, its user, its ratings and that user's contacts. */
  ghost predicate HoldsTrees(trees: Trees, db: Database, needs: seq<Need>) {
    forall need ::
      && (need in trees <==> need in needs && First(db.profiles(need.table), need.profileId).Some?)
      && (need in trees ==> IsTree(trees[need], db, need))
  }

  ghost predicate IsTree(tree: Datum, db: Database, need: Need) {
    && Some(tree.profile) == First(db.profiles(need.table), need.profileId)
    && var user := UserOf(tree.profile.value);
    && tree.user == UserMini(db, user)
    && tree.phones == (if user == 0 then [] else ListBatch.UserPhones(db.phones, user))
    && tree.score == if need.table in RATING_TABLES then ScoreOf(db.ratings(RATING_TABLES[need.table]), need.profileId)
                     else Unrated
  }

  /** The batch serves what the single queries serve, except that for a profile
      without a user it serves no contacts where they serve those of user 0. What
      was not asked for is not served. */
  lemma ServedIsLookup(trees: Trees, db: Database, needs: seq<Need>, need: Need)
    requires HoldsTrees(trees, db, needs)
    ensures need !in needs ==> Served(trees, need) == None
    ensures need in needs ==>
            (Served(trees, need) == Lookup(db, need) <==>
             || Lookup(db, need).None?
             || UserOf(Lookup(db, need).value.profile.value) != 0
             || ListBatch.UserPhones(db.phones, 0) == [])
  {
    assert need in trees <==> need in needs && First(db.profiles(need.table), need.profileId).Some?;
    if need.profileId != 0 && need in trees {
      assert IsTree(trees[need], db, need);
    }
  }

  /** Every contact belongs to a user there is. */
  ghost predicate OwnedContacts(db: Database) {
    forall i :: 0 <= i < |db.phones| ==> First(db.users, db.phones[i].owner).Some?
  }

  lemma {:induction false} NoneOwned(rows: seq<ListBatch.PhoneRow>, owner: int)
    requires forall i :: 0 <= i < |rows| ==> rows[i].owner != owner
    ensures OwnedBy(rows, owner) == []
  {
    if rows != [] {
      NoneOwned(rows[1..], owner);
    }
  }

  /** While the schema ties each contact to its user and no user has id 0, the
      batch serves what the single queries serve, always. */
  lemma ServedAlways(trees: Trees, db: Database, needs: seq<Need>, need: Need)
    requires HoldsTrees(trees, db, needs) && need in needs && OwnedContacts(db) && First(db.users, 0).None?
    ensures Served(trees, need) == Lookup(db, need)
  {
    NoneOwned(db.phones, 0);
    assert ListBatch.UserPhones(db.phones, 0) == [];
    ServedIsLookup(trees, db, needs, need);
  }

  /** User 0 with a contact, and a profile without a user: the single queries
      serve that contact, the batch does not. */
  lemma UserZeroServed(trees: Trees, db: Database, need: Need)
    requires need == Need("arsitek", "arsiteks", 7) && HoldsTrees(trees, db, [need])
    requires db == Database(table => if table == "arsiteks" then [Entry(7, Profile(None, map[]))] else [],
                            [Entry(0, User("Nol", None, None))], _ => [], [Row(1, 0, Some("0812"))])
    ensures Keyed(db) && OwnedContacts(db)
    ensures Served(trees, need).Some? && Served(trees, need).value.phones == []
    ensures Lookup(db, need).Some? && Lookup(db, need).value.phones == ["0812"]
  {
    var row := Row(1, 0, Some("0812"));
    assert OwnedBy([row], 0) == [row] + OwnedBy([], 0);
    assert OrderById([row]) == [row];
    assert ListBatch.ContactsOf([row]) == ["0812"] + ListBatch.ContactsOf([]);
    assert need in trees <==> need in [need] && First(db.profiles(need.table), need.profileId).Some?;
    assert IsTree(trees[need], db, need);
  }

  // ----- the batch -----

  method Unique(needs: seq<Need>) returns (uniq: seq<Need>)
    ensures forall n :: n in uniq <==> n in needs
    ensures forall i, j :: 0 <= i < j < |uniq| ==> uniq[i] != uniq[j]
  {
    uniq := [];
    var seen: set<Need> := {};
    for i := 0 to |needs|
      invariant forall n :: n in seen <==> n in uniq
      invariant forall n :: n in uniq <==> n in needs[..i]
      invariant forall j, k :: 0 <= j < k < |uniq| ==> uniq[j] != uniq[k]
    {
      if needs[i] !in seen {
        seen := seen + {needs[i]};
        uniq := uniq + [needs[i]];
      }
    }
  }

  /** The ids wanted from each table. */
  ghost predicate Groups(byTable: map<Text, seq<int>>, needs: seq<Need>) {
    && (forall n :: n in needs ==> n.table in byTable && n.profileId in byTable[n.table])
    && (forall table :: table in byTable ==> byTable[table] != [])
  }

  method IdsByTable(needs: seq<Need>) returns (byTable: map<Text, seq<int>>)
    ensures Groups(byTable, needs)
  {
    byTable := map[];
    for i := 0 to |needs|
      invariant Groups(byTable, needs[..i])
    {
      var n := needs[i];
      var ids := if n.table in byTable then byTable[n.table] else [];
      byTable := byTable[n.table := ids + [n.profileId]];
    }
    assert needs[..|needs|] == needs;
  }

  type Found = map<Need, Entry<Profile>>

  predicate Matches(need: Need, table: Text, id: int) { need.table == table && need.profileId == id }

  method StoreRow(profiles: Found, uniq: seq<Need>, table: Text, row: Entry<Profile>) returns (out: Found)
    ensures forall n :: n in out <==> n in profiles || (n in uniq && Matches(n, table, row.id))
    ensures forall n :: n in out ==> out[n] == if n in uniq && Matches(n, table, row.id) then row else profiles[n]
  {
    out := profiles;
    for i := 0 to |uniq|
      invariant forall n :: n in out <==> n in profiles || (n in uniq[..i] && Matches(n, table, row.id))
      invariant forall n :: n in out ==>
                  out[n] == if n in uniq[..i] && Matches(n, table, row.id) then row else profiles[n]
    {
      if uniq[i].table == table && uniq[i].profileId == row.id {
        out := out[uniq[i] := row];
      }
    }
  }

  function Held(profiles: Found, need: Need): Option<Entry<Profile>> {
    if need in profiles then Some(profiles[need]) else None
  }

  method StoreTable(profiles: Found, uniq: seq<Need>, table: Text, rows: seq<Entry<Profile>>) returns (out: Found)
    requires forall n :: n in profiles ==> n in uniq && n.table != table
    ensures forall n ::
        Held(out, n) == if n in uniq && n.table == table then Last(rows, n.profileId) else Held(profiles, n)
  {
    out := profiles;
    for i := 0 to |rows|
      invariant forall n ::
          Held(out, n) == if n in uniq && n.table == table then Last(rows[..i], n.profileId) else Held(profiles, n)
    {
      assert rows[..i + 1] == rows[..i] + [rows[i]];
      forall n: Need ensures Last(rows[..i + 1], n.profileId) ==
                             if rows[i].id == n.profileId then Some(rows[i]) else Last(rows[..i], n.profileId)
      {
        LastAppend(rows[..i], rows[i], n.profileId);
      }
      var next := StoreRow(out, uniq, table, rows[i]);
      forall n
        ensures Held(next, n) == if n in uniq && Matches(n, table, rows[i].id) then Some(rows[i]) else Held(out, n)
      {
      }
      out := next;
    }
    assert rows[..|rows|] == rows;
  }

  /** A need's profile, once its table has been read. */
  function FoundIn(db: Database, uniq: seq<Need>, need: Need, unread: set<Text>): Option<Entry<Profile>> {
    if need in uniq && need.table !in unread then First(db.profiles(need.table), need.profileId) else None
  }

  method LoadProfiles(db: Database, uniq: seq<Need>) returns (profiles: Found)
    requires Keyed(db)
    ensures forall n :: Held(profiles, n) == if n in uniq then First(db.profiles(n.table), n.profileId) else None
  {
    var byTable := IdsByTable(uniq);
    profiles := map[];
    var tables := byTable.Keys;
    while tables != {}
      invariant tables <= byTable.Keys
      invariant forall n :: Held(profiles, n) == FoundIn(db, uniq, n, tables)
      decreases tables
    {
      var table :| table in tables;
      var ids := ListBatch.Members(byTable[table]);
      var rows := Pick(db.profiles(table), ids);
      forall n | n in profiles ensures n in uniq && n.table != table {
        assert Held(profiles, n).Some?;
      }
      forall n | n in uniq && n.table == table
        ensures Last(rows, n.profileId) == First(db.profiles(table), n.profileId)
      {
        PickHoldsEach(db.profiles(table), ids, n.profileId);
      }
      profiles := StoreTable(profiles, uniq, table, rows);
      tables := tables - {table};
    }
  }

  method UserIds(profiles: Found) returns (ids: seq<int>)
    ensures forall id :: id in ids <==> id != 0 && exists n :: n in profiles && UserOf(profiles[n].value) == id
  {
    ids := [];
    var seen: set<int> := {};
    var left := profiles.Keys;
    while left != {}
      invariant left <= profiles.Keys
      invariant forall id :: id in seen <==> id in ids
      invariant forall id :: id in ids <==>
                id != 0 && exists n :: n in profiles && n !in left && UserOf(profiles[n].value) == id
      decreases left
    {
      var n :| n in left;
      var id := UserOf(profiles[n].value);
      if id != 0 && id !in seen {
        seen := seen + {id};
        ids := ids + [id];
      }
      left := left - {n};
    }
  }

  method LoadUsers(table: seq<Entry<User>>, ids: seq<int>) returns (users: map<int, Entry<User>>)
    requires UniqueIds(table)
    ensures forall id :: (id in users <==> id in ids && First(table, id).Some?)
    ensures forall id :: id in users ==> Some(users[id]) == First(table, id)
  {
    users := map[];
    var rows := Pick(table, ListBatch.Members(ids));
    for i := 0 to |rows|
      invariant forall id :: (if id in users then Some(users[id]) else None) == Last(rows[..i], id)
    {
      assert rows[..i + 1] == rows[..i] + [rows[i]];
      forall id ensures Last(rows[..i + 1], id) == if rows[i].id == id then Some(rows[i]) else Last(rows[..i], id) {
        LastAppend(rows[..i], rows[i], id);
      }
      users := users[rows[i].id := rows[i]];
    }
    assert rows[..|rows|] == rows;
    forall id ensures Last(rows, id) == if id in ids then First(table, id) else None {
      PickHoldsEach(table, ListBatch.Members(ids), id);
    }
  }

  type Scores = map<(Text, int), Score>

  /** Each score held is that of its profile in its table. */
  ghost predicate TrueScores(scores: Scores, db: Database) {
    forall key :: key in scores ==>
      CountOf(db.ratings(key.0), key.1) > 0 && scores[key] == ScoreOf(db.ratings(key.0), key.1)
  }

  ghost predicate HasScores(scores: Scores, db: Database, table: Text, ids: seq<int>) {
    forall id :: id in ids && CountOf(db.ratings(table), id) > 0 ==> (table, id) in scores
  }

  /** GROUP BY the profile: one row for each wanted profile that is rated. */
  method StoreScores(scores: Scores, db: Database, table: Text, ids: seq<int>) returns (out: Scores)
    requires TrueScores(scores, db)
    ensures TrueScores(out, db) && HasScores(out, db, table, ids)
    ensures forall key :: key in scores ==> key in out
  {
    out := scores;
    var rows := db.ratings(table);
    var groups := set i | 0 <= i < |ids| && CountOf(rows, ids[i]) > 0 :: ids[i];
    var left := groups;
    while left != {}
      invariant left <= groups && TrueScores(out, db)
      invariant forall id :: id in groups - left ==> (table, id) in out
      invariant forall key :: key in scores ==> key in out
      decreases left
    {
      var id :| id in left;
      out := out[(table, id) := Rated(StarsOf(rows, id) as real / CountOf(rows, id) as real, CountOf(rows, id))];
      left := left - {id};
    }
  }

  /** The profiles whose ratings are kept, by ratings table. */
  method RatedByTable(profiles: Found) returns (byTable: map<Text, seq<int>>)
    ensures forall n :: n in profiles && n.table in RATING_TABLES ==>
              RATING_TABLES[n.table] in byTable && n.profileId in byTable[RATING_TABLES[n.table]]
  {
    byTable := map[];
    var left := profiles.Keys;
    while left != {}
      invariant left <= profiles.Keys
      invariant forall n :: n in profiles && n !in left && n.table in RATING_TABLES ==>
                  RATING_TABLES[n.table] in byTable && n.profileId in byTable[RATING_TABLES[n.table]]
      decreases left
    {
      var n :| n in left;
      if n.table in RATING_TABLES {
        var table := RATING_TABLES[n.table];
        var ids := if table in byTable then byTable[table] else [];
        byTable := byTable[table := ids + [n.profileId]];
      }
      left := left - {n};
    }
  }

  method LoadRatings(db: Database, profiles: Found) returns (scores: Scores)
    ensures TrueScores(scores, db)
    ensures forall n :: n in profiles && n.table in RATING_TABLES &&
                        CountOf(db.ratings(RATING_TABLES[n.table]), n.profileId) > 0 ==>
              (RATING_TABLES[n.table], n.profileId) in scores
  {
    var byTable := RatedByTable(profiles);
    scores := map[];
    var left := byTable.Keys;
    while left != {}
      invariant left <= byTable.Keys && TrueScores(scores, db)
      invariant forall table :: table in byTable && table !in left ==> HasScores(scores, db, table, byTable[table])
      decreases left
    {
      var table :| table in left;
      scores := StoreScores(scores, db, table, byTable[table]);
      left := left - {table};
    }
    assert forall table :: table in byTable ==> HasScores(scores, db, table, byTable[table]);
  }

  method LoadBidderBatch(db: Database, needs: seq<Need>) returns (trees: Trees)
    requires Keyed(db)
    ensures HoldsTrees(trees, db, needs)
  {
    trees := map[];
    if needs == [] {
      return;
    }
    var uniq := Unique(needs);
    var profiles := LoadProfiles(db, uniq);
    var userIds := UserIds(profiles);
    var users := LoadUsers(db.users, userIds);
    var scores := LoadRatings(db, profiles);
    var phones := ListBatch.PhonesBatch(db.phones, userIds);
    for i := 0 to |uniq|
      invariant forall n :: n in trees <==> n in uniq[..i] && n in profiles
      invariant forall n :: n in trees ==> IsTree(trees[n], db, n)
    {
      var n := uniq[i];
      if n !in profiles {
        continue;
      }
      var profile := profiles[n];
      assert Held(profiles, n) == Some(profile);
      var user: Option<Entry<User>> := None;
      var contacts := [];
      var id := UserOf(profile.value);
      if id != 0 {
        assert id in userIds;
        user := if id in users then Some(users[id]) else None;
        contacts := Of(phones, id);
        assert id in ListBatch.Members(userIds);
      }
      var score := Unrated;
      if n.table in RATING_TABLES {
        var key := (RATING_TABLES[n.table], n.profileId);
        score := if key in scores then scores[key] else Rated(0.0, 0);
      }
      var tree := Datum(profile, user, score, contacts);
      assert IsTree(tree, db, n);
      trees := trees[n := tree];
    }
    forall n ensures n in trees <==> n in needs && First(db.profiles(n.table), n.profileId).Some? {
      assert n in profiles <==> Held(profiles, n).Some?;
    }
  }
}
