/** The load order of cmd/etl: a depth-first walk over the foreign keys that
    lists parents before children and tolerates cycles. */
module DependencyOrder {
  import opened ForeignKeys

  const VISITING := 1
  const DONE := 2

  /** The edges the walk follows: between two selected tables, self-references dropped. */
  function Followed(selected: set<Table>, rows: seq<(Table, Table)>): Edges {
    set e | e in rows && e.0 != e.1 && e.0 in selected && e.1 in selected
  }

  function ParentsOf(dependencies: map<Table, seq<Table>>, child: Table): seq<Table> {
    if child in dependencies then dependencies[child] else []
  }

  ghost predicate Lists(dependencies: map<Table, seq<Table>>, edges: Edges) {
    forall c, p :: p in ParentsOf(dependencies, c) <==> (c, p) in edges
  }

  predicate Distinct(ts: seq<Table>) {
    forall i, j :: 0 <= i < j < |ts| ==> ts[i] != ts[j]
  }

  /** At every position the parents come earlier, except a parent that itself
      leads back to the child. */
  ghost predicate ParentsFirst(edges: Edges, ts: seq<Table>) {
    forall j, p :: 0 <= j < |ts| && (ts[j], p) in edges ==> p in ts[..j] || Reaches(edges, p, ts[j])
  }

  ghost function Elements(ts: seq<Table>): set<Table> { set t | t in ts }

  lemma ParentsFirstAppend(edges: Edges, ts: seq<Table>, t: Table)
    requires ParentsFirst(edges, ts)
    requires forall p :: (t, p) in edges ==> p in ts || Reaches(edges, p, t)
    ensures ParentsFirst(edges, ts + [t])
  {
    var longer := ts + [t];
    forall j, p | 0 <= j < |longer| && (longer[j], p) in edges
      ensures p in longer[..j] || Reaches(edges, p, longer[j])
    {
      assert longer[..j] == ts[..j];
    }
  }

  /** Each of these parents is listed already, or leads back to `table`. */
  ghost predicate Settled(edges: Edges, ordered: seq<Table>, table: Table, parents: seq<Table>, n: nat)
    requires n <= |parents|
  {
    forall k :: 0 <= k < n ==> parents[k] in ordered || Reaches(edges, parents[k], table)
  }

  /** What the walk keeps. `stack` holds the tables being visited, outermost
      first: a path of the graph. */
  ghost predicate Consistent(edges: Edges, universe: set<Table>, state: map<Table, int>,
                             ordered: seq<Table>, stack: seq<Table>)
  {
    && state.Keys <= universe
    && (forall t :: t in state ==> state[t] == VISITING || state[t] == DONE)
    && (forall t :: t in stack <==> t in state && state[t] == VISITING)
    && (forall t :: t in ordered <==> t in state && state[t] == DONE)
    && Distinct(ordered)
    && ParentsFirst(edges, ordered)
    && (stack != [] ==> IsPath(edges, stack))
  }

  lemma Enter(edges: Edges, universe: set<Table>, state: map<Table, int>,
              ordered: seq<Table>, stack: seq<Table>, table: Table)
    requires Consistent(edges, universe, state, ordered, stack)
    requires table in universe && table !in state
    requires stack != [] ==> (stack[|stack| - 1], table) in edges
    ensures Consistent(edges, universe, state[table := VISITING], ordered, stack + [table])
  {
    assert IsPath(edges, stack + [table]);
  }

  lemma Leave(edges: Edges, universe: set<Table>, state: map<Table, int>,
              ordered: seq<Table>, stack: seq<Table>, table: Table, parents: seq<Table>)
    requires Consistent(edges, universe, state, ordered, stack + [table]) && table !in stack
    requires Settled(edges, ordered, table, parents, |parents|) && forall p :: (table, p) in edges ==> p in parents
    ensures Consistent(edges, universe, state[table := DONE], ordered + [table], stack)
  {
    ParentsFirstAppend(edges, ordered, table);
    assert table in stack + [table];
    if stack != [] {
      assert forall i :: 0 <= i < |stack| ==> (stack + [table])[i] == stack[i];
    }
    forall t
      ensures t in stack <==> t in stack + [table] && t != table
    {
    }
  }

  /** The walk's two variables, `state` and `ordered`, and the map it reads. */
  class Walk {
    const dependencies: map<Table, seq<Table>>
    ghost const edges: Edges
    ghost const universe: set<Table>
    var state: map<Table, int>
    var ordered: seq<Table>

    constructor (dependencies: map<Table, seq<Table>>, ghost edges: Edges, ghost universe: set<Table>)
      requires Lists(dependencies, edges)
      requires forall e :: e in edges ==> e.0 in universe && e.1 in universe
      ensures this.edges == edges && this.universe == universe
      ensures Valid([]) && ordered == []
    {
      this.dependencies := dependencies;
      this.edges := edges;
      this.universe := universe;
      state := map[];
      ordered := [];
    }

    ghost predicate Valid(stack: seq<Table>)
      reads this
    {
      && Lists(dependencies, edges)
      && (forall e :: e in edges ==> e.0 in universe && e.1 in universe)
      && Consistent(edges, universe, state, ordered, stack)
    }

    method Visit(table: Table, ghost stack: seq<Table>)
      requires Valid(stack) && table in universe
      requires stack != [] ==> (stack[|stack| - 1], table) in edges
      modifies this
      ensures Valid(stack)
      ensures table in state && old(state).Keys <= state.Keys
      ensures old(ordered) <= ordered
      decreases universe - state.Keys
    {
      if table in state {
        return;
      }
      assert table !in stack;
      Enter(edges, universe, state, ordered, stack, table);
      state := state[table := VISITING];
      ghost var inner := stack + [table];
      var parents := ParentsOf(dependencies, table);
      for i := 0 to |parents|
        invariant Valid(inner)
        invariant old(state).Keys + {table} <= state.Keys
        invariant old(ordered) <= ordered
        invariant Settled(edges, ordered, table, parents, i)
      {
        assert (table, parents[i]) in edges;
        ghost var before := ordered;
        Visit(parents[i], inner);
        SettledAfterVisit(edges, universe, state, ordered, stack, table, parents[i]);
        SettledGrows(edges, before, ordered, table, parents, i);
      }
      Leave(edges, universe, state, ordered, stack, table, parents);
      state := state[table := DONE];
      ordered := ordered + [table];
    }
  }

  /** After its visit a parent is listed, or is still open and leads to `table`. */
  lemma SettledAfterVisit(edges: Edges, universe: set<Table>, state: map<Table, int>,
                          ordered: seq<Table>, stack: seq<Table>, table: Table, parent: Table)
    requires Consistent(edges, universe, state, ordered, stack + [table]) && parent in state
    ensures parent in ordered || Reaches(edges, parent, table)
  {
    var inner := stack + [table];
    assert inner[|inner| - 1] == table;
    if parent !in ordered {
      StackReachesTop(edges, inner, parent);
    }
  }

  lemma SettledGrows(edges: Edges, before: seq<Table>, after: seq<Table>, table: Table,
                     parents: seq<Table>, n: nat)
    requires n < |parents| && Settled(edges, before, table, parents, n) && before <= after
    requires parents[n] in after || Reaches(edges, parents[n], table)
    ensures Settled(edges, after, table, parents, n + 1)
  {
    forall t | t in before
      ensures t in after
    {
      var i :| 0 <= i < |before| && before[i] == t;
      assert after[i] == t;
    }
  }

  /** A table still being visited leads to the top of the stack. */
  lemma StackReachesTop(edges: Edges, stack: seq<Table>, t: Table)
    requires IsPath(edges, stack) && t in stack
    ensures Reaches(edges, t, stack[|stack| - 1])
  {
    var i :| 0 <= i < |stack| && stack[i] == t;
    assert IsPathFromTo(edges, stack[i..], t, stack[|stack| - 1]);
  }

  /** The foreign-key rows folded into the child-to-parents map. */
  method CollectDependencies(selected: set<Table>, rows: seq<(Table, Table)>)
    returns (dependencies: map<Table, seq<Table>>)
    ensures Lists(dependencies, Followed(selected, rows))
  {
    dependencies := map[];
    for i := 0 to |rows|
      invariant Lists(dependencies, Followed(selected, rows[..i]))
    {
      var (child, parent) := rows[i];
      assert rows[..i + 1] == rows[..i] + [rows[i]];
      if !(child == parent || child !in selected || parent !in selected) {
        dependencies := dependencies[child := ParentsOf(dependencies, child) + [parent]];
      }
    }
    assert rows[..|rows|] == rows;
  }

  /** dependencyOrder. `sorted` is the alphabetical list of the selected tables;
      the result holds for the tables listed in any order. */
  method Order(sorted: seq<Table>, rows: seq<(Table, Table)>) returns (ordered: seq<Table>)
    ensures Distinct(ordered) && Elements(ordered) == Elements(sorted)
    ensures ParentsFirst(Followed(Elements(sorted), rows), ordered)
  {
    var selected := set t | t in sorted;
    var dependencies := CollectDependencies(selected, rows);
    var walk := new Walk(dependencies, Followed(selected, rows), selected);
    for i := 0 to |sorted|
      invariant walk.Valid([])
      invariant forall k :: 0 <= k < i ==> sorted[k] in walk.state
      invariant walk.edges == Followed(selected, rows) && walk.universe == selected
    {
      walk.Visit(sorted[i], []);
    }
    ordered := walk.ordered;
  }

  /** On an acyclic graph the exception never applies: the order is topological. */
  ghost predicate Topological(edges: Edges, ts: seq<Table>) {
    forall j, p :: 0 <= j < |ts| && (ts[j], p) in edges && p != ts[j] ==> p in ts[..j]
  }

  lemma AcyclicIsTopological(edges: Edges, ts: seq<Table>)
    requires Acyclic(edges) && ParentsFirst(edges, ts)
    ensures Topological(edges, ts)
  {
    forall j, p | 0 <= j < |ts| && (ts[j], p) in edges && p != ts[j]
      ensures p in ts[..j]
    {
      ReachesSelf(edges, p);
      ReachesStep(edges, ts[j], p, p);
    }
  }
}
