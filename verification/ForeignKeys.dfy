/** Foreign-key graphs between tables: an edge (child, parent) says that `child`
    holds a column referencing `parent`. */
module ForeignKeys {

  type Table = string
  type Edges = set<(Table, Table)>

  /** A chain of tables, each one referencing the next. */
  ghost predicate IsPath(edges: Edges, path: seq<Table>) {
    && |path| > 0
    && forall i :: 0 <= i < |path| - 1 ==> (path[i], path[i + 1]) in edges
  }

  ghost predicate IsPathFromTo(edges: Edges, path: seq<Table>, from: Table, to: Table) {
    IsPath(edges, path) && path[0] == from && path[|path| - 1] == to
  }

  /** `from` references `to`, directly or through other tables. Reflexive. */
  ghost predicate Reaches(edges: Edges, from: Table, to: Table) {
    exists path :: IsPathFromTo(edges, path, from, to)
  }

  /** No two distinct tables reference each other, however indirectly. A table
      may still reference itself, as `users.manager_id` does. */
  ghost predicate Acyclic(edges: Edges) {
    forall a, b :: a != b && Reaches(edges, a, b) ==> !Reaches(edges, b, a)
  }

  lemma ReachesSelf(edges: Edges, t: Table)
    ensures Reaches(edges, t, t)
  {
    assert IsPathFromTo(edges, [t], t, t);
  }

  lemma ReachesStep(edges: Edges, a: Table, b: Table, c: Table)
    requires (a, b) in edges && Reaches(edges, b, c)
    ensures Reaches(edges, a, c)
  {
    var path :| IsPathFromTo(edges, path, b, c);
    var longer := [a] + path;
    assert longer[|longer| - 1] == c;
    assert IsPathFromTo(edges, longer, a, c);
  }

  lemma ReachesThen(edges: Edges, a: Table, b: Table, c: Table)
    requires Reaches(edges, a, b) && (b, c) in edges
    ensures Reaches(edges, a, c)
  {
    var path :| IsPathFromTo(edges, path, a, b);
    assert IsPathFromTo(edges, path + [c], a, c);
  }

  /** The graph only grows: what was reachable stays reachable. */
  lemma ReachesMonotone(small: Edges, large: Edges, a: Table, b: Table)
    requires small <= large && Reaches(small, a, b)
    ensures Reaches(large, a, b)
  {
    var path :| IsPathFromTo(small, path, a, b);
    assert IsPathFromTo(large, path, a, b);
  }
}
