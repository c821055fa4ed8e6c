/** The truncate-and-copy loop of cmd/etl, run over the dependency order. */
module TableLoad {
  import opened ForeignKeys
  import DependencyOrder

  type Row = string
  type Rows = seq<Row>

  const BIDS: Table := "bids"

  // ----- TRUNCATE ... CASCADE -----

  function Referencers(fks: Edges, ts: set<Table>): set<Table> {
    set e | e in fks && e.1 in ts :: e.0
  }

  /** The tables a cascading TRUNCATE of `ts` empties: `ts` and all that
      reference them, directly or not. */
  function Cascade(fks: Edges, ts: set<Table>): set<Table>
    decreases (set e | e in fks :: e.0) - ts
  {
    if Referencers(fks, ts) <= ts then ts
    else Cascade(fks, ts + Referencers(fks, ts))
  }

  lemma {:induction false} CascadeGrows(fks: Edges, ts: set<Table>)
    ensures ts <= Cascade(fks, ts)
    ensures Referencers(fks, Cascade(fks, ts)) <= Cascade(fks, ts)
    decreases (set e | e in fks :: e.0) - ts
  {
    if !(Referencers(fks, ts) <= ts) {
      CascadeGrows(fks, ts + Referencers(fks, ts));
    }
  }

  lemma {:induction false} CascadeOnlyReferencers(fks: Edges, ts: set<Table>, u: Table)
    requires u in Cascade(fks, ts)
    ensures exists t :: t in ts && Reaches(fks, u, t)
    decreases (set e | e in fks :: e.0) - ts
  {
    if Referencers(fks, ts) <= ts {
      ReachesSelf(fks, u);
    } else {
      var more := ts + Referencers(fks, ts);
      CascadeOnlyReferencers(fks, more, u);
      var m :| m in more && Reaches(fks, u, m);
      if m !in ts {
        var e :| e in fks && e.1 in ts && e.0 == m;
        ReachesThen(fks, u, m, e.1);
      }
    }
  }

  lemma {:induction false} ClosedHoldsPathStart(fks: Edges, ts: set<Table>, path: seq<Table>)
    requires IsPath(fks, path) && path[|path| - 1] in ts && Referencers(fks, ts) <= ts
    ensures path[0] in ts
    decreases |path|
  {
    if |path| > 1 {
      ClosedHoldsPathStart(fks, ts, path[1..]);
      assert (path[0], path[1]) in fks;
      assert path[0] in Referencers(fks, ts);
    }
  }

  /** A cascading TRUNCATE empties exactly the transitive referencers. */
  lemma CascadeIsReachability(fks: Edges, t: Table, u: Table)
    ensures u in Cascade(fks, {t}) <==> Reaches(fks, u, t)
  {
    CascadeGrows(fks, {t});
    if Reaches(fks, u, t) {
      var path :| IsPathFromTo(fks, path, u, t);
      ClosedHoldsPathStart(fks, Cascade(fks, {t}), path);
    }
    if u in Cascade(fks, {t}) {
      CascadeOnlyReferencers(fks, {t}, u);
    }
  }

  // ----- the loop -----

  function EdgeSet(rows: seq<(Table, Table)>): Edges { set e | e in rows }

  /** Only tables MySQL holds are loaded; `bids` is folded from other tables
      and loaded in every case. */
  predicate IsLoaded(sourceTables: set<Table>, t: Table) {
    t == BIDS || t in sourceTables
  }

  function Truncated(fks: Edges, rows: map<Table, Rows>, t: Table): map<Table, Rows> {
    map u | u in rows :: if u in Cascade(fks, {t}) then [] else rows[u]
  }

  function Copied(rows: map<Table, Rows>, t: Table, source: map<Table, Rows>): map<Table, Rows> {
    map u | u in rows :: if u == t && t in source then rows[u] + source[t] else rows[u]
  }

  /** The PostgreSQL side: one list of rows for each table. */
  class Target {
    const fks: Edges
    var rows: map<Table, Rows>

    constructor (fks: Edges, rows: map<Table, Rows>)
      ensures this.fks == fks && this.rows == rows
    {
      this.fks := fks;
      this.rows := rows;
    }

    /** run, after the order is known. */
    method Load(ordered: seq<Table>, sourceTables: set<Table>, source: map<Table, Rows>, truncate: bool)
      requires DependencyOrder.Distinct(ordered)
      modifies this
      ensures rows.Keys == old(rows).Keys
      ensures forall t :: t in rows ==>
        rows[t] == FinalRows(fks, old(rows), ordered, sourceTables, source, truncate, t)
    {
      for i := 0 to |ordered|
        invariant rows.Keys == old(rows).Keys
        invariant forall t :: t in rows ==>
          rows[t] == FinalRows(fks, old(rows), ordered[..i], sourceTables, source, truncate, t)
      {
        var table := ordered[i];
        assert ordered[..i + 1][..i] == ordered[..i];
        if !IsLoaded(sourceTables, table) {
          continue;
        }
        if truncate {
          rows := Truncated(fks, rows, table);
        }
        rows := Copied(rows, table, source);
      }
      assert ordered[..|ordered|] == ordered;
    }
  }

  ghost function SourceRows(source: map<Table, Rows>, t: Table): Rows {
    if t in source then source[t] else []
  }

  /** Table `t` after the loop has run over `done`, last table first. */
  ghost function FinalRows(fks: Edges, before: map<Table, Rows>, done: seq<Table>,
                           sourceTables: set<Table>, source: map<Table, Rows>, truncate: bool, t: Table): Rows
    requires t in before
  {
    if done == [] then
      before[t]
    else
      var last := done[|done| - 1];
      var kept := FinalRows(fks, before, done[..|done| - 1], sourceTables, source, truncate, t);
      if IsLoaded(sourceTables, last) then
        (if truncate && t in Cascade(fks, {last}) then [] else kept)
        + (if t == last then SourceRows(source, t) else [])
      else
        kept
  }

  /** A loaded table later in the list whose TRUNCATE reaches back to `t`. */
  ghost predicate WipedAfter(fks: Edges, ordered: seq<Table>, sourceTables: set<Table>, i: nat) {
    exists j :: i < j < |ordered| && IsLoaded(sourceTables, ordered[j]) && Reaches(fks, ordered[i], ordered[j])
  }

  /** What the whole loop leaves in a loaded table, for any graph, selection and
      order: its source rows, or nothing when a later TRUNCATE reached it. */
  lemma {:induction false} LoadedOrWiped(fks: Edges, before: map<Table, Rows>, ordered: seq<Table>,
                      sourceTables: set<Table>, source: map<Table, Rows>, i: nat)
    requires DependencyOrder.Distinct(ordered) && i < |ordered|
    requires IsLoaded(sourceTables, ordered[i]) && ordered[i] in before
    ensures FinalRows(fks, before, ordered, sourceTables, source, true, ordered[i])
         == if WipedAfter(fks, ordered, sourceTables, i) then [] else SourceRows(source, ordered[i])
    decreases |ordered|
  {
    var t, n := ordered[i], |ordered| - 1;
    var earlier, last := ordered[..n], ordered[n];
    CascadeIsReachability(fks, last, t);
    if i == n {
      ReachesSelf(fks, t);
    } else {
      LoadedOrWiped(fks, before, earlier, sourceTables, source, i);
      assert earlier[i] == t;
      if WipedAfter(fks, earlier, sourceTables, i) {
        var j :| i < j < n && IsLoaded(sourceTables, earlier[j]) && Reaches(fks, t, earlier[j]);
        assert ordered[j] == earlier[j];
      }
      if WipedAfter(fks, ordered, sourceTables, i) {
        var j :| i < j < |ordered| && IsLoaded(sourceTables, ordered[j]) && Reaches(fks, t, ordered[j]);
        if j < n { assert ordered[j] == earlier[j]; }
      }
    }
  }

  /** Exactly when a loaded table ends up holding its source rows. */
  lemma LoadSucceedsIff(fks: Edges, before: map<Table, Rows>, ordered: seq<Table>,
                        sourceTables: set<Table>, source: map<Table, Rows>, i: nat)
    requires DependencyOrder.Distinct(ordered) && i < |ordered|
    requires IsLoaded(sourceTables, ordered[i]) && ordered[i] in before
    ensures FinalRows(fks, before, ordered, sourceTables, source, true, ordered[i]) == SourceRows(source, ordered[i])
       <==> !WipedAfter(fks, ordered, sourceTables, i) || SourceRows(source, ordered[i]) == []
  {
    LoadedOrWiped(fks, before, ordered, sourceTables, source, i);
  }

  /** Along a path no table moves later in a topological order. */
  lemma {:induction false} PathGoesEarlier(fks: Edges, edges: Edges, ordered: seq<Table>, path: seq<Table>, i: nat)
    requires IsPath(fks, path) && i < |ordered| && ordered[i] == path[0]
    requires DependencyOrder.Topological(edges, ordered)
    requires forall e :: e in fks && e.0 != e.1 ==> e in edges
    ensures path[|path| - 1] in ordered[..i + 1]
    decreases |path|
  {
    if |path| > 1 {
      assert (path[0], path[1]) in fks;
      if path[1] == path[0] {
        PathGoesEarlier(fks, edges, ordered, path[1..], i);
      } else {
        assert path[1] in ordered[..i];
        var k :| 0 <= k < i && ordered[k] == path[1];
        PathGoesEarlier(fks, edges, ordered, path[1..], k);
        assert ordered[..k + 1] <= ordered[..i + 1];
      }
    }
  }

  /** With every table selected, an acyclic graph and -truncate, the loop never
      empties a table it has loaded. */
  lemma AllSelectedLoadsEverything(rows: seq<(Table, Table)>, sorted: seq<Table>, ordered: seq<Table>,
                                   before: map<Table, Rows>, sourceTables: set<Table>, source: map<Table, Rows>, i: nat)
    requires forall e :: e in rows ==> e.0 in sorted && e.1 in sorted
    requires Acyclic(EdgeSet(rows))
    requires DependencyOrder.Distinct(ordered)
    requires DependencyOrder.ParentsFirst(
               DependencyOrder.Followed(DependencyOrder.Elements(sorted), rows), ordered)
    requires i < |ordered| && IsLoaded(sourceTables, ordered[i]) && ordered[i] in before
    ensures FinalRows(EdgeSet(rows), before, ordered, sourceTables, source, true, ordered[i])
         == SourceRows(source, ordered[i])
  {
    var fks := EdgeSet(rows);
    var edges := DependencyOrder.Followed(DependencyOrder.Elements(sorted), rows);
    forall a, b | a != b && Reaches(edges, a, b)
      ensures !Reaches(edges, b, a)
    {
      ReachesMonotone(edges, fks, a, b);
      if Reaches(edges, b, a) {
        ReachesMonotone(edges, fks, b, a);
      }
    }
    DependencyOrder.AcyclicIsTopological(edges, ordered);
    if WipedAfter(fks, ordered, sourceTables, i) {
      var j :| i < j < |ordered| && IsLoaded(sourceTables, ordered[j]) && Reaches(fks, ordered[i], ordered[j]);
      var path :| IsPathFromTo(fks, path, ordered[i], ordered[j]);
      PathGoesEarlier(fks, edges, ordered, path, i);
      assert false;
    }
    LoadedOrWiped(fks, before, ordered, sourceTables, source, i);
  }

  /** run: order the tables, then load them. With every table selected,
      -truncate on and an acyclic graph, each loaded table ends up holding its
      source rows, whatever it held before. */
  method Run(target: Target, sorted: seq<Table>, rows: seq<(Table, Table)>,
             sourceTables: set<Table>, source: map<Table, Rows>, truncate: bool)
    requires target.fks == EdgeSet(rows)
    requires forall t :: t in sorted ==> t in target.rows
    modifies target
    ensures truncate && Acyclic(target.fks) && (forall e :: e in rows ==> e.0 in sorted && e.1 in sorted) ==>
      forall t :: t in sorted && IsLoaded(sourceTables, t) ==>
        t in target.rows && target.rows[t] == SourceRows(source, t)
  {
    ghost var before := target.rows;
    var ordered := DependencyOrder.Order(sorted, rows);
    target.Load(ordered, sourceTables, source, truncate);
    if truncate && Acyclic(target.fks) && forall e :: e in rows ==> e.0 in sorted && e.1 in sorted {
      forall t | t in sorted && IsLoaded(sourceTables, t)
        ensures t in target.rows && target.rows[t] == SourceRows(source, t)
      {
        assert t in DependencyOrder.Elements(ordered);
        var i :| 0 <= i < |ordered| && ordered[i] == t;
        AllSelectedLoadsEverything(rows, sorted, ordered, before, sourceTables, source, i);
      }
    }
  }

  /** With some tables left out it can: `a` references `b` only through the
      unselected `m`, so the order does not see it, and truncating `b` empties
      the freshly loaded `a`. */
  lemma PartialSelectionCanWipe(before: map<Table, Rows>)
    requires before.Keys == {"a", "b", "m"}
    ensures var fks := {("a", "m"), ("m", "b")};
      && Acyclic(fks)
      && DependencyOrder.ParentsFirst(DependencyOrder.Followed({"a", "b"}, [("a", "m"), ("m", "b")]), ["a", "b"])
      && FinalRows(fks, before, ["a", "b"], {"a", "b"}, map["a" := ["row"], "b" := []], true, "a") == []
  {
    var fks := {("a", "m"), ("m", "b")};
    ReachesSelf(fks, "b");
    ReachesStep(fks, "m", "b", "b");
    ReachesStep(fks, "a", "m", "b");
    var ordered := ["a", "b"];
    assert ordered[0] == "a" && ordered[1] == "b";
    assert WipedAfter(fks, ordered, {"a", "b"}, 0);
    LoadedOrWiped(fks, before, ordered, {"a", "b"}, map["a" := ["row"], "b" := []], 0);
    forall x, y | x != y && Reaches(fks, x, y)
      ensures !Reaches(fks, y, x)
    {
      Climbs(fks, x, y);
      if Reaches(fks, y, x) { Climbs(fks, y, x); }
    }
  }

  function Height(t: Table): int { if t == "b" then 2 else if t == "m" then 1 else 0 }

  lemma Climbs(fks: Edges, x: Table, y: Table)
    requires fks == {("a", "m"), ("m", "b")} && x != y && Reaches(fks, x, y)
    ensures Height(x) < Height(y)
  {
    var path :| IsPathFromTo(fks, path, x, y);
    PathClimbs(fks, path);
  }

  lemma {:induction false} PathClimbs(fks: Edges, path: seq<Table>)
    requires fks == {("a", "m"), ("m", "b")} && IsPath(fks, path)
    ensures |path| > 1 ==> Height(path[0]) < Height(path[|path| - 1])
  {
    if |path| > 1 {
      assert (path[0], path[1]) in fks;
      PathClimbs(fks, path[1..]);
    }
  }
}
