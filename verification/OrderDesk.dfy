/** The order handlers as they run: statement by statement over the rows. */
module OrderDesk {
  import opened Options
  import opened Sums
  import opened StockLines
  import opened OrderStatus

  lemma SameMove(stock: Stock, lines: seq<Line>, restore: bool, after: Stock)
    requires IsMoved(stock, lines, restore, after)
    ensures after == StockMoved(stock, lines, restore)
  {
  }

  lemma NamingAppend(r: nat, items: seq<Item>, item: Item)
    ensures Sum(Naming(r), items + [item]) == Sum(Naming(r), items) + Naming(r)(item)
  {
    SumAppend(Naming(r), items, item);
  }

  class Desk {
    var orders: seq<Order>
    var stock: Stock
    var requirements: map<nat, Requirement>

    ghost function Rows(): Tables
      reads this
    {
      Tables(orders, stock, requirements)
    }

    constructor (orders: seq<Order>, stock: Stock, requirements: map<nat, Requirement>)
      ensures Rows() == Tables(orders, stock, requirements)
    {
      this.orders := orders;
      this.stock := stock;
      this.requirements := requirements;
    }

    /** One UPDATE with the old flag in its WHERE clause. */
    method ClaimOrderStock(o: nat, target: bool) returns (claimed: bool)
      modifies this`orders
      ensures claimed == (o < |old(orders)| && old(orders)[o].decremented != target)
      ensures orders == if claimed then old(orders)[o := old(orders)[o].(decremented := target)] else old(orders)
    {
      claimed := o < |orders| && orders[o].decremented == !target;
      if claimed {
        orders := orders[o := orders[o].(decremented := target)];
      }
    }

    method MoveOrderStock(o: nat, restore: bool) returns (claimed: bool)
      requires o < |orders|
      modifies this`orders, this`stock
      ensures claimed == (old(orders)[o].decremented == restore)
      ensures Rows() == Move(old(Rows()), o, restore)
    {
      claimed := ClaimOrderStock(o, !restore);
      if !claimed {
        return;
      }
      var lines := LinesOf(orders[o].items);
      for i := 0 to |lines|
        invariant IsMoved(old(stock), lines[..i], restore, stock)
        invariant orders == old(orders)[o := old(orders)[o].(decremented := !restore)]
      {
        MoveOneMore(old(stock), lines[..i], lines[i], restore, stock);
        assert lines[..i + 1] == lines[..i] + [lines[i]];
        stock := Adjusted(stock, lines[i], restore);
      }
      assert lines[..|lines|] == lines;
      SameMove(old(stock), lines, restore, stock);
    }

    /** The site inventory part of the update handler. */
    method SyncSite(project: Option<nat>, items: seq<Item>)
      modifies this`requirements
      ensures requirements == SiteAfter(old(requirements), project, items)
    {
      for i := 0 to |items|
        invariant requirements == SiteAfter(old(requirements), project, items[..i])
      {
        var item := items[i];
        assert items[..i + 1] == items[..i] + [item];
        forall r ensures Sum(Naming(r), items[..i + 1]) == Sum(Naming(r), items[..i]) + Naming(r)(item) {
          NamingAppend(r, items[..i], item);
        }
        if item.requirement.Some? && item.requirement.value in requirements
           && project == Some(requirements[item.requirement.value].project) {
          var r := item.requirement.value;
          requirements := requirements[r := requirements[r].(onSite := requirements[r].onSite + item.quantity)];
        }
      }
      assert items[..|items|] == items;
    }

    method VerifyOrderPayment(viewer: Viewer, o: nat, ledger: bool) returns (reply: Reply)
      modifies this
      ensures Rows() == Verify(old(Rows()), viewer, o, ledger)
      ensures reply == Accepted <==>
        o < |old(orders)| && IsSeller(viewer, old(orders)[o]) && old(orders)[o].hasProof
        && !AlreadySettled(old(orders)[o].status) && ledger
      ensures reply == NotFound <==> o >= |old(orders)|
      ensures reply == Forbidden <==> o < |old(orders)| && !IsSeller(viewer, old(orders)[o])
    {
      if o >= |orders| {
        return NotFound;
      }
      if !IsSeller(viewer, orders[o]) {
        return Forbidden;
      }
      if !orders[o].hasProof || AlreadySettled(orders[o].status) || !ledger {
        return Unprocessable;
      }
      orders := orders[o := orders[o].(status := Paid)];
      var _ := MoveOrderStock(o, false);
      return Accepted;
    }

    method UpdateMaterialOrder(viewer: Viewer, o: nat, status: Status, ledger: bool) returns (reply: Reply)
      modifies this
      ensures Rows() == Update(old(Rows()), viewer, o, status, ledger)
      ensures reply == NotFound <==> o >= |old(orders)|
      ensures reply == Forbidden <==> o < |old(orders)| && !MayUpdate(viewer, old(orders)[o], status)
    {
      if o >= |orders| {
        return NotFound;
      }
      var seen := orders[o];
      if !MayUpdate(viewer, seen, status) {
        return Forbidden;
      }
      if status == Paid && seen.status != Paid {
        reply := VerifyOrderPayment(viewer, o, ledger);
        return;
      }
      orders := orders[o := seen.(status := status)];
      if status == Delivered && seen.status != Delivered {
        SyncSite(seen.project, seen.items);
      }
      if HoldsStock(status) {
        var _ := MoveOrderStock(o, false);
      } else if status == Cancelled {
        var _ := MoveOrderStock(o, true);
      }
      return Accepted;
    }

    method ConfirmOrderReceipt(viewer: Viewer, o: nat) returns (reply: Reply)
      modifies this`orders
      ensures Rows() == Confirm(old(Rows()), viewer, o)
      ensures reply == Accepted <==>
        o < |old(orders)| && MayConfirm(viewer, old(orders)[o]) && Arrived(old(orders)[o].status)
    {
      if o >= |orders| {
        return NotFound;
      }
      if !MayConfirm(viewer, orders[o]) {
        return Forbidden;
      }
      if orders[o].status == Completed {
        return Accepted;
      }
      if orders[o].status != Delivered {
        return Unprocessable;
      }
      orders := orders[o := orders[o].(status := Completed)];
      return Accepted;
    }

    /** The project route that takes a transfer receipt; the status is asked for
        before it is overwritten, the stock flag not at all. */
    method UploadTransfer(o: nat, project: nat, permitted: bool, frozen: bool) returns (reply: Reply)
      modifies this`orders
      ensures Rows() == ProjectProof(old(Rows()), o, project, permitted && !frozen)
      ensures reply == Accepted <==> TakesProof(old(Rows()), o, project, permitted && !frozen)
      ensures reply != Accepted ==> orders == old(orders)
    {
      if !permitted {
        return Forbidden;
      }
      if frozen {
        return Unprocessable;
      }
      if o >= |orders| || orders[o].project != Some(project) {
        return NotFound;
      }
      if orders[o].status in {Paid, Refunded, Cancelled} {
        return Unprocessable;
      }
      orders := orders[o := orders[o].(hasProof := true)];
      orders := orders[o := orders[o].(status := Verifying)];
      return Accepted;
    }

    /** The project route that confirms or refuses the receipt. */
    method VerifyTransfer(o: nat, project: nat, permitted: bool, frozen: bool, accept: bool, ledger: bool)
      returns (reply: Reply)
      modifies this`orders
      ensures Rows() == Verdict(old(Rows()), o, project, permitted && !frozen, accept, ledger)
      ensures reply == Accepted <==>
        TakesVerdict(old(Rows()), o, project, permitted && !frozen) && (accept ==> ledger)
      ensures reply != Accepted ==> orders == old(orders)
    {
      if frozen {
        return Unprocessable;
      }
      if o >= |orders| || orders[o].project != Some(project) {
        return NotFound;
      }
      if !permitted {
        return Forbidden;
      }
      if orders[o].status in {Paid, Refunded, Cancelled} || !orders[o].hasProof || orders[o].status != Verifying {
        return Unprocessable;
      }
      if !accept {
        orders := orders[o := orders[o].(status := Pending)];
        return Accepted;
      }
      if !ledger {
        return Unprocessable;
      }
      orders := orders[o := orders[o].(status := Paid)];
      return Accepted;
    }
  }
}
