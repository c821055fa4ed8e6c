/** The dispute and payment handlers as they run: each one checks, writes its
    rows one after the other, and refuses before its first write. */
module ArbitrationDesk {
  import opened Options
  import opened Sums
  import opened Ledger
  import opened LedgerLaws

  class Desk {
    var disputes: seq<Dispute>
    var entries: seq<Entry>
    var payments: map<Key, Payment>
    var budgets: map<nat, int>

    function Rows(): State
      reads this
    {
      State(disputes, entries, payments, budgets)
    }

    constructor (start: State)
      ensures Rows() == start
    {
      disputes, entries := start.disputes, start.entries;
      payments, budgets := start.payments, start.budgets;
    }

    /** recordPaymentMinorInner. `refusal` is None when the payment stands. */
    method RecordPayment(project: nat, key: Key, amount: int, checkFreeze: bool) returns (refusal: Option<Reply>)
      modifies this`entries
      ensures match Record(old(Rows()), project, key, amount, checkFreeze)
        case Written(after) => refusal == None && entries == after
        case Refused(reply) => refusal == Some(reply) && entries == old(entries)
    {
      if checkFreeze && Frozen(Rows(), project) {
        return Some(Unprocessable);
      }
      if HasPaid(entries, project, key) {
        return None;
      }
      if project !in budgets {
        return Some(ServerError);
      }
      var available := budgets[project] - Sum(NetOf(project), entries);
      if available < amount {
        return Some(Unprocessable);
      }
      entries := entries + [Paid(project, key, amount)];
      return None;
    }

    /** The refund block of AdminDisputeActHandler. */
    method RecordRefund(d: nat, amount: int) returns (refusal: Option<Reply>)
      requires d < |disputes|
      modifies this`entries, this`payments
      ensures refusal == RefundRefusal(old(Rows()), disputes[d], amount)
      ensures Rows() == if refusal.None? then Refunded(old(Rows()), d, amount) else old(Rows())
    {
      var dispute := disputes[d];
      if !Resolves(Rows(), dispute.payment, dispute.project) {
        return Some(Unprocessable);
      }
      var key := dispute.payment.value;
      var (paid, refunded) := LedgerSums(entries, dispute.project, key);
      if paid <= 0 {
        return Some(Unprocessable);
      }
      var refundable := paid - refunded;
      if refundable < 0 {
        refundable := 0;
      }
      if amount > refundable || (dispute.disputed.Some? && amount > dispute.disputed.value) {
        return Some(Unprocessable);
      }
      entries := entries + [Reversal(dispute.project, key, d, -amount)];
      var mirrored := payments[key].(refunded := refunded + amount);
      if refunded + amount >= paid && Settlement(key, mirrored) == "paid" {
        mirrored := MarkedRefunded(key, mirrored);
      }
      payments := payments[key := mirrored];
      return None;
    }

    /** The release block. */
    method ReleasePayment(d: nat) returns (refusal: Option<Reply>)
      requires d < |disputes|
      modifies this`entries, this`payments
      ensures refusal == ReleaseRefusal(old(Rows()), disputes[d])
      ensures Rows() == if refusal.None? then Released(old(Rows()), d) else old(Rows())
    {
      var dispute := disputes[d];
      if dispute.payment.None? {
        return Some(Unprocessable);
      }
      if !Resolves(Rows(), dispute.payment, dispute.project) {
        return Some(NotFound);
      }
      var key := dispute.payment.value;
      var payment := payments[key];
      if Settlement(key, payment) in ["paid", "refunded"] {
        return Some(Unprocessable);
      }
      if payment.status in ["terminated", "resigned", "void", "cancelled"] {
        return Some(Unprocessable);
      }
      refusal := RecordPayment(dispute.project, key, ReleaseAmount(key, payment), false);
      if refusal.None? {
        payments := payments[key := MarkedPaid(key, payment)];
      }
    }

    method AdminDisputeAct(d: nat, action: Action, amount: Option<int>, notes: bool) returns (reply: Reply)
      modifies this
      ensures reply == ActReply(old(Rows()), d, action, amount, notes)
      ensures Rows() == Act(old(Rows()), d, action, amount, notes)
    {
      if amount.Some? && !(1 <= amount.value <= MAX_AMOUNT) {
        return Unprocessable;
      }
      if d >= |disputes| {
        return NotFound;
      }
      if disputes[d].status != Open || (action == Custom && !notes) || (action == Refund && amount.None?) {
        return Unprocessable;
      }
      var refusal := None;
      if action == Refund {
        refusal := RecordRefund(d, amount.value);
      } else if action == Release {
        refusal := ReleasePayment(d);
      }
      if refusal.Some? {
        return refusal.value;
      }
      disputes := disputes[d := disputes[d].(status := if action == Dismiss then Dismissed else Resolved)];
      return Done;
    }

    /** Either way the project is frozen afterwards, by one open dispute. */
    method StoreDispute(project: nat, opener: nat, payment: Option<Key>, disputed: Option<int>) returns (reply: Reply)
      modifies this`disputes
      ensures Rows() == OpenDispute(old(Rows()), project, opener, payment, disputed)
      ensures reply == (if Frozen(old(Rows()), project) then Conflict else Done)
      ensures Frozen(Rows(), project)
      ensures OneOpen(old(Rows())) ==> OneOpen(Rows())
      ensures Sound(old(Rows())) ==> Sound(Rows())
    {
      KeepsLaws(Rows(), OpenOne(project, opener, payment, disputed));
      if Frozen(Rows(), project) {
        return Conflict;
      }
      disputes := disputes + [Dispute(project, Open, opener, payment, disputed, [])];
      assert disputes[|disputes| - 1].status == Open;
      return Done;
    }

    /** A reply freezes and releases nothing. */
    method PostToThread(d: nat, body: Text) returns (reply: Reply)
      modifies this`disputes
      ensures Rows() == PostReply(old(Rows()), d, body)
      ensures reply == Done <==> d < |old(disputes)| && old(disputes)[d].status == Open
      ensures reply == Done ==> d < |disputes| && disputes[d].thread == old(disputes)[d].thread + [body]
      ensures forall p: nat :: Frozen(Rows(), p) <==> Frozen(old(Rows()), p)
      ensures OneOpen(old(Rows())) ==> OneOpen(Rows())
      ensures Sound(old(Rows())) ==> Sound(Rows())
    {
      KeepsLaws(Rows(), ReplyTo(d, body));
      if d >= |disputes| {
        return NotFound;
      }
      if disputes[d].status != Open {
        return Unprocessable;
      }
      ghost var before := disputes;
      disputes := disputes[d := disputes[d].(thread := disputes[d].thread + [body])];
      assert forall e :: 0 <= e < |before| ==>
          disputes[e].status == before[e].status && disputes[e].project == before[e].project;
      return Done;
    }

    /** Withdrawing the open dispute ends the freeze of its project. */
    method WithdrawDispute(d: nat, project: nat, caller: nat, admin: bool) returns (reply: Reply)
      modifies this`disputes
      ensures Rows() == Withdraw(old(Rows()), d, project, caller, admin)
      ensures reply == Done <==> MayWithdraw(old(Rows()), d, project, caller, admin)
      ensures reply == Done && OneOpen(old(Rows())) ==> !Frozen(Rows(), project)
      ensures OneOpen(old(Rows())) ==> OneOpen(Rows())
      ensures Sound(old(Rows())) ==> Sound(Rows())
    {
      KeepsLaws(Rows(), WithdrawOne(d, project, caller, admin));
      if d >= |disputes| || disputes[d].project != project {
        return NotFound;
      }
      if disputes[d].opener != caller && !admin {
        return Forbidden;
      }
      if disputes[d].status != Open {
        return Unprocessable;
      }
      disputes := disputes[d := disputes[d].(status := Withdrawn)];
      return Done;
    }

    /** The row became paid, and if it costs its project anything, the project was
        not frozen and the ledger holds the payment. */
    twostate predicate PaidProperly(key: Key, amount: nat)
      reads this
    {
      && key in old(payments) && payments == old(payments)[key := old(payments)[key].(status := "paid")]
      && (old(payments)[key].project.Some? && amount > 0 ==>
            && !Frozen(old(Rows()), old(payments)[key].project.value)
            && HasPaid(entries, old(payments)[key].project.value, key))
    }

    /** The ledger write shared by the order and the quote payment. */
    method PayForRow(key: Key, amount: nat) returns (reply: Reply)
      requires key in payments
      modifies this`entries, this`payments
      ensures Rows() == PayRow(old(Rows()), key, amount)
      ensures if reply == Done then PaidProperly(key, amount) else Rows() == old(Rows())
    {
      var project := payments[key].project;
      if project.Some? {
        if Frozen(Rows(), project.value) {
          return Unprocessable;
        }
        if amount > 0 {
          var refusal := RecordPayment(project.value, key, amount, true);
          if refusal.Some? {
            return refusal.value;
          }
          assert HasPaid(entries, project.value, key) by {
            if !HasPaid(old(entries), project.value, key) {
              assert entries[|old(entries)|] == Paid(project.value, key, amount);
            }
          }
        }
      }
      payments := payments[key := payments[key].(status := "paid")];
      return Done;
    }

    method MarkPaid(id: nat) returns (reply: Reply)
      modifies this`entries, this`payments
      ensures Rows() == MarkQuotePaid(old(Rows()), id)
      ensures if reply == Done then
          var key := Key(Quote, id);
          && key in old(payments) && old(payments)[key].hasProof
          && old(payments)[key].status !in ["paid", "refunded"]
          && PaidProperly(key, old(payments)[key].price + old(payments)[key].shipping)
        else Rows() == old(Rows())
      ensures OneOpen(old(Rows())) ==> OneOpen(Rows())
      ensures Sound(old(Rows())) ==> Sound(Rows())
    {
      KeepsLaws(Rows(), Request.MarkPaid(id));
      var key := Key(Quote, id);
      if key !in payments {
        return NotFound;
      }
      if !payments[key].hasProof || payments[key].status in ["paid", "refunded"] {
        return Unprocessable;
      }
      reply := PayForRow(key, payments[key].price + payments[key].shipping);
    }

    method VerifyOrderPayment(id: nat) returns (reply: Reply)
      modifies this`entries, this`payments
      ensures Rows() == VerifyOrder(old(Rows()), id)
      ensures if reply == Done then
          var key := Key(Material, id);
          Verifiable(old(Rows()), key) && PaidProperly(key, old(payments)[key].price)
        else Rows() == old(Rows())
      ensures OneOpen(old(Rows())) ==> OneOpen(Rows())
      ensures Sound(old(Rows())) ==> Sound(Rows())
    {
      KeepsLaws(Rows(), VerifyOne(id));
      var key := Key(Material, id);
      if key !in payments {
        return NotFound;
      }
      if !payments[key].hasProof
         || payments[key].status in ["paid", "shipping", "delivered", "completed", "refunded", "cancelled"] {
        return Unprocessable;
      }
      reply := PayForRow(key, payments[key].price);
    }

    /** upload-proof: it only ever makes a row wait for its verdict. */
    method UploadTransfer(key: Key, project: nat, allowed: bool) returns (reply: Reply)
      modifies this`payments
      ensures Rows() == Ledger.UploadTransfer(old(Rows()), key, project, allowed)
      ensures reply == Done ==> AwaitsVerdict(Rows(), key, project, true)
      ensures OneOpen(old(Rows())) ==> OneOpen(Rows())
      ensures Sound(old(Rows())) ==> Sound(Rows())
    {
      KeepsLaws(Rows(), Upload(key, project, allowed));
      if !allowed {
        return Forbidden;
      }
      if Frozen(Rows(), project) {
        return Unprocessable;
      }
      if !OnRoute(Rows(), key, project) {
        return NotFound;
      }
      var payment := payments[key];
      if TakesNoPayment(UploadState(key, payment), payment.status) {
        return Unprocessable;
      }
      if key.kind == Bid && payment.settlement.Some? {
        payment := payment.(settlement := Some("verifying"));
      } else {
        payment := payment.(status := "verifying");
      }
      payments := payments[key := payment.(hasProof := true)];
      return Done;
    }

    method AcceptRow(key: Key, project: nat) returns (refusal: Option<Reply>)
      requires AwaitsVerdict(Rows(), key, project, true)
      modifies this`entries, this`payments
      ensures Rows() == AcceptTransfer(old(Rows()), key, project, true)
      ensures if refusal.None? then HasPaid(entries, project, key)
              else Rows() == old(Rows()) && refusal.value != Done
    {
      var payment := payments[key];
      refusal := RecordPayment(project, key, ReleaseAmount(key, payment), true);
      if refusal.None? {
        if !HasPaid(old(entries), project, key) {
          assert entries[|old(entries)|] == Paid(project, key, ReleaseAmount(key, payment));
        }
        payments := payments[key := MarkedPaid(key, payment)];
      }
    }

    /** verify-proof: accepted only behind the freeze and with the ledger row. */
    method VerifyTransfer(key: Key, project: nat, allowed: bool, accept: bool) returns (reply: Reply)
      modifies this`entries, this`payments
      ensures Rows() == if accept then AcceptTransfer(old(Rows()), key, project, allowed)
                        else RejectTransfer(old(Rows()), key, project, allowed)
      ensures reply == Done ==> AwaitsVerdict(old(Rows()), key, project, allowed)
      ensures reply == Done ==> if accept then HasPaid(entries, project, key) else entries == old(entries)
      ensures reply != Done ==> Rows() == old(Rows())
    {
      if Frozen(Rows(), project) {
        return Unprocessable;
      }
      if !OnRoute(Rows(), key, project) {
        return NotFound;
      }
      if !allowed {
        return Forbidden;
      }
      var payment := payments[key];
      if TakesNoPayment(Settlement(key, payment), payment.status) || !payment.hasProof
         || Settlement(key, payment) != "verifying" {
        return Unprocessable;
      }
      if !accept {
        payments := payments[key := MarkedRejected(key, payment)];
        return Done;
      }
      var refusal := AcceptRow(key, project);
      return if refusal.Some? then refusal.value else Done;
    }
  }

  /** Each request keeps the laws of the ledger and the freeze. */
  lemma KeepsLaws(s: State, r: Request)
    ensures OneOpen(s) ==> OneOpen(Next(s, r))
    ensures Sound(s) ==> Sound(Next(s, r))
  {
    if OneOpen(s) { NextKeepsOneOpen(s, r); }
    if Sound(s) { NextSound(s, r); }
  }
}
