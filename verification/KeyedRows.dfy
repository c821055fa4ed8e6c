/** Rows with a primary key. */
module KeyedRows {
  import opened Options

  datatype Entry<T> = Entry(id: int, value: T)

  /** WHERE id = $1, its first row. */
  function First<T>(rows: seq<Entry<T>>, id: int): Option<Entry<T>> {
    if rows == [] then None else if rows[0].id == id then Some(rows[0]) else First(rows[1..], id)
  }

  /** What a map filled row by row ends up holding for an id. */
  function Last<T>(rows: seq<Entry<T>>, id: int): Option<Entry<T>> {
    if rows == [] then None
    else if rows[|rows| - 1].id == id then Some(rows[|rows| - 1])
    else Last(rows[..|rows| - 1], id)
  }

  /** WHERE id = ANY($1). */
  function Pick<T>(rows: seq<Entry<T>>, ids: set<int>): seq<Entry<T>> {
    if rows == [] then []
    else
      var before := Pick(rows[..|rows| - 1], ids);
      var row := rows[|rows| - 1];
      if row.id in ids then before + [row] else before
  }

  ghost predicate UniqueIds<T>(rows: seq<Entry<T>>) {
    forall i, j :: 0 <= i < j < |rows| ==> rows[i].id != rows[j].id
  }

  lemma {:induction false} FirstAt<T>(rows: seq<Entry<T>>, id: int, i: nat)
    requires UniqueIds(rows) && i < |rows| && rows[i].id == id
    ensures First(rows, id) == Some(rows[i])
  {
    if i > 0 {
      FirstAt(rows[1..], id, i - 1);
    }
  }

  lemma {:induction false} FirstNowhere<T>(rows: seq<Entry<T>>, id: int)
    requires forall i :: 0 <= i < |rows| ==> rows[i].id != id
    ensures First(rows, id) == None
  {
    if rows != [] {
      FirstNowhere(rows[1..], id);
    }
  }

  lemma {:induction false} LastIsOne<T>(rows: seq<Entry<T>>, id: int) returns (i: int)
    ensures if Last(rows, id).Some? then 0 <= i < |rows| && rows[i].id == id && Last(rows, id) == Some(rows[i])
            else forall k :: 0 <= k < |rows| ==> rows[k].id != id
  {
    i := |rows| - 1;
    if rows != [] && rows[|rows| - 1].id != id {
      i := LastIsOne(rows[..|rows| - 1], id);
    }
  }

  lemma {:induction false} LastOfPick<T>(rows: seq<Entry<T>>, ids: set<int>, id: int)
    ensures Last(Pick(rows, ids), id) == if id in ids then Last(rows, id) else None
  {
    if rows != [] {
      LastOfPick(rows[..|rows| - 1], ids, id);
      var before := Pick(rows[..|rows| - 1], ids);
      var row := rows[|rows| - 1];
      assert (before + [row])[..|before|] == before;
    }
  }

  /** A map filled from the one query for many ids holds, id by id, what a query
      for that id answers. */
  lemma PickHoldsEach<T>(rows: seq<Entry<T>>, ids: set<int>, id: int)
    requires UniqueIds(rows)
    ensures Last(Pick(rows, ids), id) == if id in ids then First(rows, id) else None
  {
    LastOfPick(rows, ids, id);
    var i := LastIsOne(rows, id);
    if Last(rows, id).Some? {
      FirstAt(rows, id, i);
    } else {
      FirstNowhere(rows, id);
    }
  }

  lemma LastAppend<T>(rows: seq<Entry<T>>, row: Entry<T>, id: int)
    ensures Last(rows + [row], id) == if row.id == id then Some(row) else Last(rows, id)
  {
    assert (rows + [row])[..|rows|] == rows;
  }
}
