/** What holds of the material orders over every run: the stock flag, the stock,
    the site inventory and the closed statuses, and exactly which steps upset them. */
module OrderLaws {
  import opened Options
  import opened Sums
  import opened StockLines
  import opened OrderStatus

  // ----- the three laws -----

  ghost predicate FlagsAgree(t: Tables) {
    forall o :: 0 <= o < |t.orders| ==> t.orders[o].decremented == HoldsStock(t.orders[o].status)
  }

  ghost function Held(m: MaterialId): Order -> int {
    (order: Order) => if order.decremented then QuantityOf(LinesOf(order.items), m) else 0
  }

  ghost predicate StockAgrees(start: Stock, t: Tables) {
    && t.stock.Keys == start.Keys
    && forall m :: m in start ==> t.stock[m] == start[m] - Sum(Held(m), t.orders)
  }

  /** What an order has put on site under requirement `r` of `project`. */
  ghost function OnSite(r: nat, project: nat): Order -> int {
    (order: Order) => if order.project == Some(project) && Arrived(order.status) then Sum(Naming(r), order.items) else 0
  }

  ghost predicate SiteAgrees(start: map<nat, Requirement>, t: Tables) {
    && t.requirements.Keys == start.Keys
    && forall r :: r in start ==>
         && t.requirements[r].project == start[r].project
         && t.requirements[r].onSite == start[r].onSite + Sum(OnSite(r, start[r].project), t.orders)
  }

  lemma ChangedOrderStock(start: Stock, t: Tables, o: nat, order: Order)
    requires StockAgrees(start, t) && o < |t.orders|
    requires order.items == t.orders[o].items && order.decremented == t.orders[o].decremented
    ensures StockAgrees(start, t.(orders := t.orders[o := order]))
  {
    forall m | m in start
      ensures Sum(Held(m), t.orders[o := order]) == Sum(Held(m), t.orders)
    {
      SumUpdate(Held(m), t.orders, o, order);
    }
  }

  lemma MoveKeepsStock(start: Stock, t: Tables, o: nat, restore: bool)
    requires StockAgrees(start, t) && o < |t.orders|
    ensures StockAgrees(start, Move(t, o, restore))
  {
    if t.orders[o].decremented == restore {
      var order := t.orders[o].(decremented := !restore);
      forall m | m in start
        ensures Move(t, o, restore).stock[m] == start[m] - Sum(Held(m), t.orders[o := order])
      {
        SumUpdate(Held(m), t.orders, o, order);
      }
    }
  }

  /** An order whose arrival does not change leaves the site inventory right. */
  lemma ChangedOrderSite(start: map<nat, Requirement>, t: Tables, o: nat, order: Order)
    requires SiteAgrees(start, t) && o < |t.orders|
    requires order.items == t.orders[o].items && order.project == t.orders[o].project
    requires Arrived(order.status) == Arrived(t.orders[o].status)
    ensures SiteAgrees(start, t.(orders := t.orders[o := order]))
  {
    forall r | r in start
      ensures Sum(OnSite(r, start[r].project), t.orders[o := order]) == Sum(OnSite(r, start[r].project), t.orders)
    {
      SumUpdate(OnSite(r, start[r].project), t.orders, o, order);
    }
  }

  lemma DeliveryKeepsSite(start: map<nat, Requirement>, t: Tables, o: nat)
    requires SiteAgrees(start, t) && o < |t.orders| && !Arrived(t.orders[o].status)
    ensures SiteAgrees(start,
      t.(orders := t.orders[o := t.orders[o].(status := Delivered)],
         requirements := SiteAfter(t.requirements, t.orders[o].project, t.orders[o].items)))
  {
    var order := t.orders[o].(status := Delivered);
    forall r | r in start
      ensures Sum(OnSite(r, start[r].project), t.orders[o := order])
           == Sum(OnSite(r, start[r].project), t.orders)
            + (if order.project == Some(start[r].project) then Sum(Naming(r), order.items) else 0)
    {
      SumUpdate(OnSite(r, start[r].project), t.orders, o, order);
    }
  }

  /** What the laws need of a status change. */
  predicate Lawful(from: Status, to: Status) {
    && (HoldsStock(to) || to == Cancelled)
    && (Arrived(to) <==> Arrived(from) || to == Delivered)
    && (to == Delivered ==> !Arrived(from))
  }

  /** Every change the permissions let through is lawful: nothing is delivered
      twice and nothing leaves delivered but to be completed. */
  lemma PermittedIsLawful(viewer: Viewer, order: Order, status: Status)
    requires MayUpdate(viewer, order, status) && (status == Paid ==> order.status == Paid)
    ensures Lawful(order.status, status)
  {
  }

  lemma WriteKeepsFlags(t: Tables, o: nat, status: Status)
    requires o < |t.orders| && Lawful(t.orders[o].status, status) && FlagsAgree(t)
    ensures FlagsAgree(Write(t, o, t.orders[o], status))
  {
  }

  lemma MoveKeepsSite(start: map<nat, Requirement>, t: Tables, o: nat, restore: bool)
    requires SiteAgrees(start, t) && o < |t.orders|
    ensures SiteAgrees(start, Move(t, o, restore))
  {
    if t.orders[o].decremented == restore {
      ChangedOrderSite(start, t, o, t.orders[o].(decremented := !restore));
    }
  }

  lemma WriteKeepsStock(start: Stock, t: Tables, o: nat, status: Status)
    requires o < |t.orders| && StockAgrees(start, t)
    ensures StockAgrees(start, Write(t, o, t.orders[o], status))
  {
    var order := t.orders[o].(status := status);
    var written := t.(orders := t.orders[o := order]);
    ChangedOrderStock(start, t, o, order);
    var synced := if status == Delivered && t.orders[o].status != Delivered then
        written.(requirements := SiteAfter(t.requirements, order.project, order.items)) else written;
    assert StockAgrees(start, synced);
    MoveKeepsStock(start, synced, o, false);
    MoveKeepsStock(start, synced, o, true);
  }

  lemma WriteKeepsSite(start: map<nat, Requirement>, t: Tables, o: nat, status: Status)
    requires o < |t.orders| && Lawful(t.orders[o].status, status) && SiteAgrees(start, t)
    ensures SiteAgrees(start, Write(t, o, t.orders[o], status))
  {
    var order := t.orders[o].(status := status);
    var written := t.(orders := t.orders[o := order]);
    if status == Delivered {
      DeliveryKeepsSite(start, t, o);
      MoveKeepsSite(start, written.(requirements := SiteAfter(t.requirements, order.project, order.items)), o, false);
    } else {
      ChangedOrderSite(start, t, o, order);
      MoveKeepsSite(start, written, o, !HoldsStock(status));
    }
  }

  lemma VerifyKeepsLaws(start: Tables, t: Tables, viewer: Viewer, o: nat, ledger: bool)
    ensures StockAgrees(start.stock, t) ==> StockAgrees(start.stock, Verify(t, viewer, o, ledger))
    ensures SiteAgrees(start.requirements, t) ==> SiteAgrees(start.requirements, Verify(t, viewer, o, ledger))
    ensures FlagsAgree(t) ==> FlagsAgree(Verify(t, viewer, o, ledger))
  {
    if Verify(t, viewer, o, ledger) != t {
      var paid := t.orders[o].(status := Paid);
      var written := t.(orders := t.orders[o := paid]);
      if StockAgrees(start.stock, t) {
        ChangedOrderStock(start.stock, t, o, paid);
        MoveKeepsStock(start.stock, written, o, false);
      }
      if SiteAgrees(start.requirements, t) {
        ChangedOrderSite(start.requirements, t, o, paid);
        MoveKeepsSite(start.requirements, written, o, false);
      }
    }
  }

  lemma UpdateKeepsLaws(start: Tables, t: Tables, viewer: Viewer, o: nat, status: Status, ledger: bool)
    ensures StockAgrees(start.stock, t) ==> StockAgrees(start.stock, Update(t, viewer, o, status, ledger))
    ensures SiteAgrees(start.requirements, t) ==> SiteAgrees(start.requirements, Update(t, viewer, o, status, ledger))
    ensures FlagsAgree(t) ==> FlagsAgree(Update(t, viewer, o, status, ledger))
  {
    if o < |t.orders| && MayUpdate(viewer, t.orders[o], status) {
      if status == Paid && t.orders[o].status != Paid {
        VerifyKeepsLaws(start, t, viewer, o, ledger);
      } else {
        PermittedIsLawful(viewer, t.orders[o], status);
        if FlagsAgree(t) { WriteKeepsFlags(t, o, status); }
        if StockAgrees(start.stock, t) { WriteKeepsStock(start.stock, t, o, status); }
        if SiteAgrees(start.requirements, t) { WriteKeepsSite(start.requirements, t, o, status); }
      }
    }
  }

  lemma ApproveKeepsLaws(start: Tables, t: Tables, order: Order)
    requires order.status == Pending && !order.decremented
    ensures var u := t.(orders := t.orders + [order]);
      && (FlagsAgree(t) ==> FlagsAgree(u))
      && (StockAgrees(start.stock, t) ==> StockAgrees(start.stock, u))
      && (SiteAgrees(start.requirements, t) ==> SiteAgrees(start.requirements, u))
  {
    forall m | m in start.stock
      ensures Sum(Held(m), t.orders + [order]) == Sum(Held(m), t.orders)
    {
      SumAppend(Held(m), t.orders, order);
    }
    forall r | r in start.requirements
      ensures Sum(OnSite(r, start.requirements[r].project), t.orders + [order])
           == Sum(OnSite(r, start.requirements[r].project), t.orders)
    {
      SumAppend(OnSite(r, start.requirements[r].project), t.orders, order);
    }
  }

  // ----- which steps keep which law -----

  /** The step names this order and is let through by its guard. */
  predicate TakesEffect(t: Tables, request: Request) {
    match request
    case UploadTransfer(o, project, allowed) => TakesProof(t, o, project, allowed)
    case VerifyTransfer(o, project, allowed, accept, ledger) =>
      TakesVerdict(t, o, project, allowed) && (accept ==> ledger)
    case Refund(o, project, covered) => TakesRefund(t, o, project, covered)
    case Release(o, project, ledger) => TakesRelease(t, o, project, ledger)
    case Review(o, buyer, jobEnded) => TakesReview(t, o, buyer, jobEnded)
    case _ => false
  }

  /** The status such a step writes. */
  function Written(request: Request): Status
    requires request.UploadTransfer? || request.VerifyTransfer? || request.Refund? || request.Release?
             || request.Review?
  {
    match request
    case UploadTransfer(_, _, _) => Verifying
    case VerifyTransfer(_, _, _, accept, _) => if accept then Paid else Pending
    case Refund(_, _, _) => Refunded
    case Release(_, _, _) => Paid
    case Review(_, _, _) => Delivered
  }

  lemma EffectIsStatus(t: Tables, request: Request)
    requires TakesEffect(t, request)
    ensures request.order < |t.orders|
    ensures Handle(t, request) == t.(orders := t.orders[request.order :=
              t.orders[request.order].(status := Written(request),
                                       hasProof := t.orders[request.order].hasProof || request.UploadTransfer?)])
  {
  }

  /** The status, and with it the flag, says whether a step keeps the flags right:
      the payment routes never move stock, so they may only pass between statuses
      that hold stock alike. */
  predicate KeepsFlags(t: Tables, request: Request) {
    TakesEffect(t, request) && request.order < |t.orders| ==>
      match request
      case UploadTransfer(o, _, _) => !HoldsStock(t.orders[o].status)
      case VerifyTransfer(o, _, _, accept, _) => !accept
      case Refund(o, _, _) => false
      case Release(o, _, _) => HoldsStock(t.orders[o].status)
      case Review(o, _, _) => HoldsStock(t.orders[o].status)
      case _ => true
  }

  /** No requirement of the order's project is named with a quantity. */
  ghost predicate NamesNothing(start: map<nat, Requirement>, order: Order) {
    forall r :: r in start && order.project == Some(start[r].project) ==> Sum(Naming(r), order.items) == 0
  }

  /** Only a step that moves an order into or out of arrival can upset the site
      inventory, and it does unless the order names no quantity. */
  ghost predicate KeepsSite(start: map<nat, Requirement>, t: Tables, request: Request) {
    TakesEffect(t, request) && request.order < |t.orders| ==>
      match request
      case UploadTransfer(o, _, _) => !Arrived(t.orders[o].status) || NamesNothing(start, t.orders[o])
      case Release(o, _, _) => !Arrived(t.orders[o].status) || NamesNothing(start, t.orders[o])
      case Review(o, _, _) => NamesNothing(start, t.orders[o])
      case _ => true
  }

  /** A closed order is reopened by exactly these: a proof or a release on a
      completed one, a review of a cancelled one whose courier job has ended. */
  predicate KeepsClosed(t: Tables, request: Request, o: nat) {
    TakesEffect(t, request) ==>
      !((request.UploadTransfer? || request.Release? || request.Review?) && request.order == o)
  }

  predicate IsFulfilment(request: Request) {
    !(request.UploadTransfer? || request.VerifyTransfer? || request.Refund? || request.Release? || request.Review?)
  }

  /** The order handlers and the scheduler keep each law by itself. */
  lemma FulfilmentKeepsEach(start: Tables, t: Tables, request: Request)
    requires IsFulfilment(request)
    ensures FlagsAgree(t) ==> FlagsAgree(Handle(t, request))
    ensures StockAgrees(start.stock, t) ==> StockAgrees(start.stock, Handle(t, request))
    ensures SiteAgrees(start.requirements, t) ==> SiteAgrees(start.requirements, Handle(t, request))
  {
    match request
    case Approve(buyer, supplier, project, items) =>
      ApproveKeepsLaws(start, t, Order(Pending, false, false, project, buyer, supplier, items));
    case VerifyPayment(viewer, o, ledger) => VerifyKeepsLaws(start, t, viewer, o, ledger);
    case UpdateStatus(viewer, o, status, ledger) => UpdateKeepsLaws(start, t, viewer, o, status, ledger);
    case Proof(o) =>
      if o < |t.orders| { RowChangeKeepsLaws(start, t, o, t.orders[o].(hasProof := true)); }
    case ConfirmReceipt(viewer, o) =>
      if o < |t.orders| && t.orders[o].status == Delivered {
        RowChangeKeepsLaws(start, t, o, t.orders[o].(status := Completed));
      }
    case Timeout(o) =>
      if o < |t.orders| && t.orders[o].status == Delivered {
        RowChangeKeepsLaws(start, t, o, t.orders[o].(status := Completed));
      }
  }

  /** A change of an order's row that moves neither stock nor arrival. */
  lemma RowChangeKeepsLaws(start: Tables, t: Tables, o: nat, order: Order)
    requires o < |t.orders| && order.items == t.orders[o].items && order.project == t.orders[o].project
    requires order.decremented == t.orders[o].decremented
    requires HoldsStock(order.status) == HoldsStock(t.orders[o].status)
    requires Arrived(order.status) == Arrived(t.orders[o].status)
    ensures var u := t.(orders := t.orders[o := order]);
      && (FlagsAgree(t) ==> FlagsAgree(u))
      && (StockAgrees(start.stock, t) ==> StockAgrees(start.stock, u))
      && (SiteAgrees(start.requirements, t) ==> SiteAgrees(start.requirements, u))
  {
    if StockAgrees(start.stock, t) { ChangedOrderStock(start.stock, t, o, order); }
    if SiteAgrees(start.requirements, t) { ChangedOrderSite(start.requirements, t, o, order); }
  }

  /** No step upsets the stock balance, which goes by the flag alone. */
  lemma HandleKeepsStock(start: Tables, t: Tables, request: Request)
    requires StockAgrees(start.stock, t)
    ensures StockAgrees(start.stock, Handle(t, request))
  {
    if IsFulfilment(request) {
      FulfilmentKeepsEach(start, t, request);
    } else if TakesEffect(t, request) {
      EffectIsStatus(t, request);
      ChangedOrderStock(start.stock, t, request.order, Handle(t, request).orders[request.order]);
    }
  }

  lemma StatusFlagsIff(t: Tables, o: nat, order: Order)
    requires FlagsAgree(t) && o < |t.orders|
    ensures FlagsAgree(t.(orders := t.orders[o := order])) <==> order.decremented == HoldsStock(order.status)
  {
    var u := t.(orders := t.orders[o := order]);
    assert u.orders[o] == order;
  }

  lemma HandleFlagsIff(t: Tables, request: Request)
    requires FlagsAgree(t)
    ensures FlagsAgree(Handle(t, request)) <==> KeepsFlags(t, request)
  {
    if IsFulfilment(request) {
      FulfilmentKeepsEach(t, t, request);
    } else if TakesEffect(t, request) {
      EffectIsStatus(t, request);
      var o := request.order;
      assert t.orders[o].decremented == HoldsStock(t.orders[o].status);
      StatusFlagsIff(t, o, Handle(t, request).orders[o]);
    }
  }

  /** Writing a status that changes whether the order has arrived, and nothing
      on site, is right exactly when the order names nothing. */
  lemma StatusSiteIff(start: map<nat, Requirement>, t: Tables, o: nat, order: Order)
    requires SiteAgrees(start, t) && o < |t.orders|
    requires order.items == t.orders[o].items && order.project == t.orders[o].project
    ensures SiteAgrees(start, t.(orders := t.orders[o := order])) <==>
            Arrived(order.status) == Arrived(t.orders[o].status) || NamesNothing(start, order)
  {
    forall r | r in start
      ensures Sum(OnSite(r, start[r].project), t.orders[o := order])
           == Sum(OnSite(r, start[r].project), t.orders)
            - OnSite(r, start[r].project)(t.orders[o]) + OnSite(r, start[r].project)(order)
    {
      SumUpdate(OnSite(r, start[r].project), t.orders, o, order);
    }
  }

  lemma HandleSiteIff(start: Tables, t: Tables, request: Request)
    requires SiteAgrees(start.requirements, t)
    ensures SiteAgrees(start.requirements, Handle(t, request)) <==> KeepsSite(start.requirements, t, request)
  {
    if TakesEffect(t, request) {
      EffectIsStatus(t, request);
      StatusSiteIff(start.requirements, t, request.order, Handle(t, request).orders[request.order]);
    } else if IsFulfilment(request) {
      FulfilmentKeepsEach(start, t, request);
    }
  }

  ghost predicate Closed(status: Status) { status == Cancelled || status == Completed }

  lemma ClosedRefusesUpdates(viewer: Viewer, order: Order, status: Status)
    requires Closed(order.status) && (status == Paid ==> order.status == Paid)
    ensures !MayUpdate(viewer, order, status)
  {
  }

  lemma UpdateKeepsClosed(t: Tables, viewer: Viewer, p: nat, status: Status, ledger: bool, o: nat)
    requires o < |t.orders| && Closed(t.orders[o].status)
    ensures var u := Update(t, viewer, p, status, ledger);
      |u.orders| == |t.orders| && u.orders[o].status == t.orders[o].status
  {
    if p == o && status != Paid {
      ClosedRefusesUpdates(viewer, t.orders[o], status);
    }
  }

  lemma HandleClosedIff(t: Tables, request: Request, o: nat)
    requires o < |t.orders| && Closed(t.orders[o].status)
    ensures |Handle(t, request).orders| >= |t.orders|
    ensures Handle(t, request).orders[o].status == t.orders[o].status <==> KeepsClosed(t, request, o)
  {
    match request
    case UpdateStatus(viewer, p, status, ledger) => UpdateKeepsClosed(t, viewer, p, status, ledger, o);
    case _ =>
  }

  // ----- whole runs -----

  /** After any requests whatever, each material's stock is the start less what
      the flagged orders hold. */
  lemma {:induction false} StockHoldsAlways(start: Tables, requests: seq<Request>)
    requires start.orders == []
    ensures StockAgrees(start.stock, Run(start, requests))
  {
    if requests != [] {
      StockHoldsAlways(start, requests[..|requests| - 1]);
      HandleKeepsStock(start, Run(start, requests[..|requests| - 1]), requests[|requests| - 1]);
    }
  }

  /** The flags were right at every point of the run. */
  ghost predicate FlagsAllAlong(start: Tables, requests: seq<Request>) {
    FlagsAgree(Run(start, requests)) && (requests == [] || FlagsAllAlong(start, requests[..|requests| - 1]))
  }

  ghost predicate EachKeepsFlags(start: Tables, requests: seq<Request>) {
    requests == [] ||
    var front := requests[..|requests| - 1];
    EachKeepsFlags(start, front) && KeepsFlags(Run(start, front), requests[|requests| - 1])
  }

  /** Over a whole run the flag is set exactly in the statuses that hold stock,
      if and only if each step passes the test on its order's status. */
  lemma {:induction false} FlagsHoldIff(start: Tables, requests: seq<Request>)
    requires FlagsAgree(start)
    ensures FlagsAllAlong(start, requests) <==> EachKeepsFlags(start, requests)
  {
    if requests != [] {
      var front := requests[..|requests| - 1];
      FlagsHoldIff(start, front);
      if FlagsAllAlong(start, front) {
        assert FlagsAgree(Run(start, front));
        HandleFlagsIff(Run(start, front), requests[|requests| - 1]);
      }
    }
  }

  ghost predicate SiteAllAlong(start: Tables, requests: seq<Request>) {
    && SiteAgrees(start.requirements, Run(start, requests))
    && (requests == [] || SiteAllAlong(start, requests[..|requests| - 1]))
  }

  ghost predicate EachKeepsSite(start: Tables, requests: seq<Request>) {
    requests == [] ||
    var front := requests[..|requests| - 1];
    EachKeepsSite(start, front) && KeepsSite(start.requirements, Run(start, front), requests[|requests| - 1])
  }

  /** Over a whole run each requirement has on site what the arrived orders of
      its own project delivered, if and only if no step moves an order that names
      quantities into or out of arrival behind the inventory's back. */
  lemma {:induction false} SiteHoldsIff(start: Tables, requests: seq<Request>)
    requires start.orders == []
    ensures SiteAllAlong(start, requests) <==> EachKeepsSite(start, requests)
  {
    if requests != [] {
      var front := requests[..|requests| - 1];
      SiteHoldsIff(start, front);
      if SiteAllAlong(start, front) {
        assert SiteAgrees(start.requirements, Run(start, front));
        HandleSiteIff(start, Run(start, front), requests[|requests| - 1]);
      }
    }
  }

  ghost predicate ClosedAllAlong(t: Tables, requests: seq<Request>, o: nat)
    requires o < |t.orders|
  {
    && o < |Run(t, requests).orders| && Run(t, requests).orders[o].status == t.orders[o].status
    && (requests == [] || ClosedAllAlong(t, requests[..|requests| - 1], o))
  }

  ghost predicate EachKeepsClosed(t: Tables, requests: seq<Request>, o: nat) {
    requests == [] ||
    var front := requests[..|requests| - 1];
    EachKeepsClosed(t, front, o) && KeepsClosed(Run(t, front), requests[|requests| - 1], o)
  }

  /** A cancelled or completed order keeps its status all along, if and only if
      no proof, release or review reopens it. */
  lemma {:induction false} ClosedHoldsIff(t: Tables, requests: seq<Request>, o: nat)
    requires o < |t.orders| && Closed(t.orders[o].status)
    ensures ClosedAllAlong(t, requests, o) <==> EachKeepsClosed(t, requests, o)
  {
    if requests != [] {
      var front := requests[..|requests| - 1];
      ClosedHoldsIff(t, front, o);
      if ClosedAllAlong(t, front, o) {
        HandleClosedIff(Run(t, front), requests[|requests| - 1], o);
      }
    }
  }

  /** The order handlers and the scheduler by themselves keep all three laws. */
  lemma {:induction false} FulfilmentKeepsLaws(start: Tables, requests: seq<Request>)
    requires start.orders == [] && forall i :: 0 <= i < |requests| ==> IsFulfilment(requests[i])
    ensures var t := Run(start, requests);
      FlagsAgree(t) && StockAgrees(start.stock, t) && SiteAgrees(start.requirements, t)
  {
    StockHoldsAlways(start, requests);
    if requests != [] {
      var front, last := requests[..|requests| - 1], requests[|requests| - 1];
      FulfilmentKeepsLaws(start, front);
      HandleFlagsIff(Run(start, front), last);
      HandleSiteIff(start, Run(start, front), last);
    }
  }

  // ----- inputs that upset them -----

  /** A pending order, its transfer uploaded and accepted on the project's payment
      route, is paid without its stock being taken. */
  lemma AcceptedTransferLeavesStock(t: Tables, o: nat, project: nat)
    requires OnProject(t, o, project) && t.orders[o].status == Pending && !t.orders[o].decremented
    ensures var u := Handle(Handle(t, UploadTransfer(o, project, true)), VerifyTransfer(o, project, true, true, true));
      && |u.orders| == |t.orders| && u.orders[o].status == Paid && !u.orders[o].decremented
      && u.stock == t.stock && !FlagsAgree(u)
  {
  }

  /** The steps that reopen a completed order and deliver it a second time. */
  function Reopening(o: nat, project: nat, seller: Viewer): seq<Request> {
    [UploadTransfer(o, project, true), VerifyTransfer(o, project, true, false, false),
     UpdateStatus(seller, o, Processing, false), UpdateStatus(seller, o, Shipping, false),
     UpdateStatus(seller, o, Delivered, false)]
  }

  /** A completed order whose transfer is uploaded and rejected is pending again,
      and its next delivery puts its items on site a second time. */
  lemma ReopenedOrderArrivesTwice(t: Tables, o: nat, project: nat, seller: Viewer, r: nat)
    requires OnProject(t, o, project) && t.orders[o].status == Completed && t.orders[o].decremented
    requires IsSeller(seller, t.orders[o]) && r in t.requirements && t.requirements[r].project == project
    ensures var rs := Reopening(o, project, seller);
      var u := Handle(Handle(Handle(Handle(Handle(t, rs[0]), rs[1]), rs[2]), rs[3]), rs[4]);
      && |u.orders| == |t.orders| && u.orders[o].status == Delivered && u.stock == t.stock
      && r in u.requirements
      && u.requirements[r].onSite == t.requirements[r].onSite + Sum(Naming(r), t.orders[o].items)
  {
    var rs := Reopening(o, project, seller);
    var order := t.orders[o].(hasProof := true);
    var t1 := Handle(t, rs[0]);
    assert t1 == t.(orders := t.orders[o := order.(status := Verifying)]);
    var t2 := Handle(t1, rs[1]);
    assert t2 == t.(orders := t.orders[o := order.(status := Pending)]);
    var t3 := Handle(t2, rs[2]);
    assert t3 == t.(orders := t.orders[o := order.(status := Processing)]);
    var t4 := Handle(t3, rs[3]);
    assert t4 == t.(orders := t.orders[o := order.(status := Shipping)]);
  }

  /** The laws need handlers that do not overlap: the status UPDATE does not
      look at the status again. Two `delivered` requests that both loaded the
      order while it was shipping count its items twice. */
  lemma OverlappingDeliveriesCountTwice(t: Tables, o: nat, r: nat)
    requires o < |t.orders| && t.orders[o].status == Shipping && FlagsAgree(t)
    requires r in t.requirements && t.orders[o].project == Some(t.requirements[r].project)
    ensures var seen := t.orders[o];
      var u := Write(Write(t, o, seen, Delivered), o, seen, Delivered);
      r in u.requirements && u.requirements[r].onSite == t.requirements[r].onSite + 2 * Sum(Naming(r), seen.items)
  {
  }

  /** Exactly when a `delivered` request that loaded the order earlier keeps the
      site inventory right: when the order has not arrived meanwhile, or it names
      no quantity of its project's requirements. */
  lemma StaleDeliveryIff(start: map<nat, Requirement>, t: Tables, o: nat, seen: Status)
    requires SiteAgrees(start, t) && o < |t.orders| && seen != Delivered
    ensures SiteAgrees(start, Write(t, o, t.orders[o].(status := seen), Delivered)) <==>
            || !Arrived(t.orders[o].status)
            || NamesNothing(start, t.orders[o])
  {
    MoveLeavesSite(start, Redelivered(t, o), o);
    if Arrived(t.orders[o].status) {
      RedeliveredIff(start, t, o);
    } else {
      DeliveryKeepsSite(start, t, o);
    }
  }

  /** `delivered` written, and the items put on site, whatever the status was. */
  ghost function Redelivered(t: Tables, o: nat): Tables
    requires o < |t.orders|
  {
    t.(orders := t.orders[o := t.orders[o].(status := Delivered)],
       requirements := SiteAfter(t.requirements, t.orders[o].project, t.orders[o].items))
  }

  lemma RedeliveredIff(start: map<nat, Requirement>, t: Tables, o: nat)
    requires SiteAgrees(start, t) && o < |t.orders| && Arrived(t.orders[o].status)
    ensures SiteAgrees(start, Redelivered(t, o)) <==> NamesNothing(start, t.orders[o])
  {
    forall r | r in start
      ensures Sum(OnSite(r, start[r].project), Redelivered(t, o).orders)
           == Sum(OnSite(r, start[r].project), t.orders)
    {
      SumUpdate(OnSite(r, start[r].project), t.orders, o, t.orders[o].(status := Delivered));
    }
  }

  lemma MoveLeavesSite(start: map<nat, Requirement>, t: Tables, o: nat)
    requires o < |t.orders|
    ensures SiteAgrees(start, Move(t, o, false)) <==> SiteAgrees(start, t)
  {
    forall r | r in start
      ensures Sum(OnSite(r, start[r].project), Move(t, o, false).orders) == Sum(OnSite(r, start[r].project), t.orders)
    {
      SumUpdate(OnSite(r, start[r].project), t.orders, o, t.orders[o].(decremented := true));
    }
  }
}
