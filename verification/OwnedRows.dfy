/** Rows that belong to an owner: filtering, ordering and grouping them. */
module OwnedRows {

  datatype Row<T> = Row(id: int, owner: int, value: T)

  function OwnedBy<T>(rows: seq<Row<T>>, owner: int): seq<Row<T>> {
    if rows == [] then []
    else if rows[0].owner == owner then [rows[0]] + OwnedBy(rows[1..], owner)
    else OwnedBy(rows[1..], owner)
  }

  function OwnedByAny<T>(rows: seq<Row<T>>, owners: set<int>): seq<Row<T>> {
    if rows == [] then []
    else if rows[0].owner in owners then [rows[0]] + OwnedByAny(rows[1..], owners)
    else OwnedByAny(rows[1..], owners)
  }

  // ----- ORDER BY id, and ORDER BY owner, id -----

  function InsertById<T>(row: Row<T>, rows: seq<Row<T>>): seq<Row<T>> {
    if rows == [] || row.id <= rows[0].id then [row] + rows else [rows[0]] + InsertById(row, rows[1..])
  }

  function OrderById<T>(rows: seq<Row<T>>): seq<Row<T>> {
    if rows == [] then [] else InsertById(rows[0], OrderById(rows[1..]))
  }

  predicate Before<T>(a: Row<T>, b: Row<T>) {
    a.owner < b.owner || (a.owner == b.owner && a.id <= b.id)
  }

  function Insert<T>(row: Row<T>, rows: seq<Row<T>>): seq<Row<T>> {
    if rows == [] || Before(row, rows[0]) then [row] + rows else [rows[0]] + Insert(row, rows[1..])
  }

  function OrderByOwner<T>(rows: seq<Row<T>>): seq<Row<T>> {
    if rows == [] then [] else Insert(rows[0], OrderByOwner(rows[1..]))
  }

  ghost predicate Ordered<T>(rows: seq<Row<T>>) {
    forall i :: 0 < i < |rows| ==> Before(rows[i - 1], rows[i])
  }

  lemma {:induction false} InsertOrdered<T>(row: Row<T>, rows: seq<Row<T>>)
    requires Ordered(rows)
    ensures Ordered(Insert(row, rows))
    ensures Insert(row, rows)[0] == row || (rows != [] && Insert(row, rows)[0] == rows[0])
  {
    if rows != [] && !Before(row, rows[0]) {
      assert forall i :: 0 < i < |rows[1..]| ==> rows[1..][i - 1] == rows[i];
      InsertOrdered(row, rows[1..]);
    }
  }

  lemma {:induction false} OrderByOwnerOrdered<T>(rows: seq<Row<T>>)
    ensures Ordered(OrderByOwner(rows))
  {
    if rows != [] {
      OrderByOwnerOrdered(rows[1..]);
      InsertOrdered(rows[0], OrderByOwner(rows[1..]));
    }
  }

  /** In an ordered list, a row that comes before the head comes before the first
      row of any owner. */
  lemma {:induction false} BeforeFirstOwned<T>(row: Row<T>, rows: seq<Row<T>>, owner: int)
    requires Ordered(rows) && (rows != [] ==> Before(row, rows[0]))
    ensures OwnedBy(rows, owner) != [] ==> Before(row, OwnedBy(rows, owner)[0])
  {
    if rows != [] && rows[0].owner != owner {
      assert forall i :: 0 < i < |rows[1..]| ==> rows[1..][i - 1] == rows[i];
      BeforeFirstOwned(row, rows[1..], owner);
    }
  }

  lemma {:induction false} InsertOwned<T>(row: Row<T>, rows: seq<Row<T>>, owner: int)
    requires Ordered(rows)
    ensures OwnedBy(Insert(row, rows), owner) ==
            if row.owner == owner then InsertById(row, OwnedBy(rows, owner)) else OwnedBy(rows, owner)
  {
    if rows == [] || Before(row, rows[0]) {
      BeforeFirstOwned(row, rows, owner);
      OwnedHead(rows, owner);
      assert ([row] + rows)[1..] == rows;
    } else {
      var rest := rows[1..];
      assert forall i :: 0 < i < |rest| ==> rest[i - 1] == rows[i];
      InsertOwned(row, rest, owner);
      assert ([rows[0]] + Insert(row, rest))[1..] == Insert(row, rest);
      if rows[0].owner == owner {
        assert OwnedBy(rows, owner)[1..] == OwnedBy(rest, owner);
      }
    }
  }

  lemma {:induction false} OwnedHead<T>(rows: seq<Row<T>>, owner: int)
    ensures OwnedBy(rows, owner) != [] ==> OwnedBy(rows, owner)[0].owner == owner
  {
    if rows != [] {
      OwnedHead(rows[1..], owner);
    }
  }

  /** Ordered by owner and then id, each owner's rows are in id order. */
  lemma {:induction false} OwnersInIdOrder<T>(rows: seq<Row<T>>, owner: int)
    ensures OwnedBy(OrderByOwner(rows), owner) == OrderById(OwnedBy(rows, owner))
  {
    if rows != [] {
      OwnersInIdOrder(rows[1..], owner);
      OrderByOwnerOrdered(rows[1..]);
      InsertOwned(rows[0], OrderByOwner(rows[1..]), owner);
      if rows[0].owner == owner {
        assert ([rows[0]] + OwnedBy(rows[1..], owner))[1..] == OwnedBy(rows[1..], owner);
      }
    }
  }

  lemma {:induction false} OwnedOfAny<T>(rows: seq<Row<T>>, owners: set<int>, owner: int)
    ensures OwnedBy(OwnedByAny(rows, owners), owner) == if owner in owners then OwnedBy(rows, owner) else []
  {
    if rows != [] {
      OwnedOfAny(rows[1..], owners, owner);
      if rows[0].owner in owners {
        assert ([rows[0]] + OwnedByAny(rows[1..], owners))[1..] == OwnedByAny(rows[1..], owners);
      }
    }
  }

  /** One query for many owners holds, owner by owner, what a query for that owner holds. */
  lemma BatchHoldsEach<T>(rows: seq<Row<T>>, owners: set<int>, owner: int)
    ensures OwnedBy(OrderByOwner(OwnedByAny(rows, owners)), owner) ==
            if owner in owners then OrderById(OwnedBy(rows, owner)) else []
  {
    OwnersInIdOrder(OwnedByAny(rows, owners), owner);
    OwnedOfAny(rows, owners, owner);
  }

  lemma {:induction false} OwnedByAppend<T>(rows: seq<Row<T>>, row: Row<T>, owner: int)
    ensures OwnedBy(rows + [row], owner) ==
            if row.owner == owner then OwnedBy(rows, owner) + [row] else OwnedBy(rows, owner)
  {
    if rows == [] {
      assert rows + [row] == [row] && [row][1..] == [];
    } else {
      assert (rows + [row])[1..] == rows[1..] + [row];
      OwnedByAppend(rows[1..], row, owner);
    }
  }

  /** What a map of lists holds for an owner; a missing owner has nothing. */
  function Of<T>(lists: map<int, seq<T>>, owner: int): seq<T> {
    if owner in lists then lists[owner] else []
  }
}
