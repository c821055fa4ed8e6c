/** The escrow ledger and dispute arbitration, as state and steps. One step is
    one handler; its transaction either commits whole or leaves no trace. */
module Ledger {
  import opened Options
  import opened Sums

  type Text = string

  datatype Kind = Termin | Addendum | Material | Bid | Quote

  /** What a ledger row is about: the payment's registry type and id. */
  datatype Key = Key(kind: Kind, id: nat)

  /** A payable row. Bids keep their settlement apart from their status. All
      amounts are minor units; `refunded` mirrors the ledger's reversals. */
  datatype Payment = Payment(project: Option<nat>, status: Text, settlement: Option<Text>,
                             price: nat, shipping: nat, refunded: int, hasProof: bool)

  /** Only bids have a settlement column of their own. */
  function Settlement(key: Key, payment: Payment): Text {
    if key.kind == Bid && payment.settlement.Some? && payment.settlement.value != "" then payment.settlement.value
    else payment.status
  }

  datatype DisputeStatus = Open | Resolved | Dismissed | Withdrawn

  datatype Dispute = Dispute(project: nat, status: DisputeStatus, opener: nat,
                             payment: Option<Key>, disputed: Option<int>, thread: seq<Text>)

  /** Append-only rows: payments, reversals that name the dispute behind them, and
      retentions paid out after the warranty. */
  datatype Entry =
    | Paid(project: nat, key: Key, amount: int)
    | Reversal(project: nat, key: Key, dispute: nat, amount: int)
    | Retention(project: nat, key: Key, amount: int)

  datatype State = State(disputes: seq<Dispute>, entries: seq<Entry>,
                         payments: map<Key, Payment>, budgets: map<nat, int>)

  datatype Reply = Done | NotFound | Forbidden | BadRequest | Conflict | Unprocessable | ServerError

  const MAX_AMOUNT := 99999999999999900

  // ----- ledger sums -----

  function PaidOn(project: nat, key: Key): Entry -> int {
    (e: Entry) => if e.Paid? && e.project == project && e.key == key then e.amount else 0
  }

  /** Reversals carry negative amounts; this is their size. */
  function ReversedOn(project: nat, key: Key): Entry -> int {
    (e: Entry) => if e.Reversal? && e.project == project && e.key == key then -e.amount else 0
  }

  function NetOf(project: nat): Entry -> int {
    (e: Entry) => if e.project == project then e.amount else 0
  }

  function RefundedBy(dispute: nat): Entry -> int {
    (e: Entry) => if e.Reversal? && e.dispute == dispute then -e.amount else 0
  }

  /** Gross paid and gross refunded against one payment. */
  function LedgerSums(entries: seq<Entry>, project: nat, key: Key): (int, int) {
    var refunded := Sum(ReversedOn(project, key), entries);
    (Sum(PaidOn(project, key), entries), if refunded < 0 then -refunded else refunded)
  }

  predicate HasPaid(entries: seq<Entry>, project: nat, key: Key) {
    exists i :: 0 <= i < |entries| && entries[i].Paid? && entries[i].project == project && entries[i].key == key
  }

  predicate Frozen(s: State, project: nat) {
    exists d :: 0 <= d < |s.disputes| && s.disputes[d].project == project && s.disputes[d].status == Open
  }

  // ----- recording a payment -----

  datatype Recorded = Written(entries: seq<Entry>) | Refused(reply: Reply)

  /** recordPaymentMinorInner: refuse under a freeze, keep an existing row, or
      append one row when the escrow covers it. */
  function Record(s: State, project: nat, key: Key, amount: int, checkFreeze: bool): Recorded {
    if checkFreeze && Frozen(s, project) then Refused(Unprocessable)
    else if HasPaid(s.entries, project, key) then Written(s.entries)
    else if project !in s.budgets then Refused(ServerError)
    else if s.budgets[project] - Sum(NetOf(project), s.entries) < amount then Refused(Unprocessable)
    else Written(s.entries + [Paid(project, key, amount)])
  }

  // ----- dispute arbitration -----

  datatype Action = Dismiss | Release | Refund | Terminate | Custom

  /** resolvePaymentTarget: the row must exist on the dispute's own project;
      quotes are no payment type of a dispute. */
  predicate Resolves(s: State, link: Option<Key>, project: nat) {
    && link.Some?
    && link.value.kind != Quote
    && link.value in s.payments
    && s.payments[link.value].project == Some(project)
  }

  /** What a release pays. For a material order the row's total already holds
      the shipping, and it is added once more. */
  function ReleaseAmount(key: Key, payment: Payment): nat {
    if key.kind == Material then payment.price + payment.shipping else payment.price
  }

  function MarkedRefunded(key: Key, payment: Payment): Payment {
    if key.kind == Bid then payment.(settlement := Some("refunded")) else payment.(status := "refunded")
  }

  function MarkedPaid(key: Key, payment: Payment): Payment {
    if key.kind == Bid then payment.(settlement := Some("paid"), status := "active") else payment.(status := "paid")
  }

  function CloseDispute(s: State, d: nat, status: DisputeStatus): State
    requires d < |s.disputes|
  {
    s.(disputes := s.disputes[d := s.disputes[d].(status := status)])
  }

  /** Why a refund of `amount` is refused, if it is. */
  function RefundRefusal(s: State, dispute: Dispute, amount: int): Option<Reply> {
    if !Resolves(s, dispute.payment, dispute.project) then Some(Unprocessable)
    else
      var (paid, refunded) := LedgerSums(s.entries, dispute.project, dispute.payment.value);
      if paid <= 0 then Some(Unprocessable)
      else if amount > (if paid - refunded < 0 then 0 else paid - refunded) then Some(Unprocessable)
      else if dispute.disputed.Some? && amount > dispute.disputed.value then Some(Unprocessable)
      else None
  }

  function Refunded(s: State, d: nat, amount: int): State
    requires d < |s.disputes| && RefundRefusal(s, s.disputes[d], amount).None?
  {
    var key, project := s.disputes[d].payment.value, s.disputes[d].project;
    var (paid, refunded) := LedgerSums(s.entries, project, key);
    var payment := s.payments[key].(refunded := refunded + amount);
    var wholly := refunded + amount >= paid && Settlement(key, payment) == "paid";
    s.(entries := s.entries + [Reversal(project, key, d, -amount)],
       payments := s.payments[key := if wholly then MarkedRefunded(key, payment) else payment])
  }

  /** Why a release is refused, if it is. */
  function ReleaseRefusal(s: State, dispute: Dispute): Option<Reply> {
    if dispute.payment.None? then Some(Unprocessable)
    else if !Resolves(s, dispute.payment, dispute.project) then Some(NotFound)
    else
      var key := dispute.payment.value;
      var payment := s.payments[key];
      if Settlement(key, payment) in ["paid", "refunded"] then Some(Unprocessable)
      else if payment.status in ["terminated", "resigned", "void", "cancelled"] then Some(Unprocessable)
      else
        match Record(s, dispute.project, key, ReleaseAmount(key, payment), false)
        case Refused(reply) => Some(reply)
        case Written(_) => None
  }

  function Released(s: State, d: nat): State
    requires d < |s.disputes| && ReleaseRefusal(s, s.disputes[d]).None?
  {
    var key, project := s.disputes[d].payment.value, s.disputes[d].project;
    s.(entries := Record(s, project, key, ReleaseAmount(key, s.payments[key]), false).entries,
       payments := s.payments[key := MarkedPaid(key, s.payments[key])])
  }

  function ActReply(s: State, d: nat, action: Action, amount: Option<int>, notes: bool): Reply {
    if amount.Some? && !(1 <= amount.value <= MAX_AMOUNT) then Unprocessable
    else if d >= |s.disputes| then NotFound
    else if s.disputes[d].status != Open then Unprocessable
    else if action == Custom && !notes then Unprocessable
    else if action == Refund && amount.None? then Unprocessable
    else
      var refusal :=
        if action == Refund then RefundRefusal(s, s.disputes[d], amount.value)
        else if action == Release then ReleaseRefusal(s, s.disputes[d])
        else None;
      if refusal.Some? then refusal.value else Done
  }

  /** AdminDisputeActHandler. */
  function Act(s: State, d: nat, action: Action, amount: Option<int>, notes: bool): State {
    if ActReply(s, d, action, amount, notes) != Done || d >= |s.disputes| then s
    else
      var moved :=
        if action == Refund && amount.Some? && RefundRefusal(s, s.disputes[d], amount.value).None? then
          Refunded(s, d, amount.value)
        else if action == Release && ReleaseRefusal(s, s.disputes[d]).None? then Released(s, d)
        else s;
      CloseDispute(moved, d, if action == Dismiss then Dismissed else Resolved)
  }

  // ----- opening, replying, withdrawing -----

  function OpenDispute(s: State, project: nat, opener: nat, payment: Option<Key>, disputed: Option<int>): State {
    if Frozen(s, project) then s
    else s.(disputes := s.disputes + [Dispute(project, Open, opener, payment, disputed, [])])
  }

  function PostReply(s: State, d: nat, body: Text): State {
    if d < |s.disputes| && s.disputes[d].status == Open then
      s.(disputes := s.disputes[d := s.disputes[d].(thread := s.disputes[d].thread + [body])])
    else s
  }

  /** Only the opener or an admin, and only on the project the dispute belongs to. */
  predicate MayWithdraw(s: State, d: nat, project: nat, caller: nat, admin: bool) {
    && d < |s.disputes|
    && s.disputes[d].project == project
    && (s.disputes[d].opener == caller || admin)
    && s.disputes[d].status == Open
  }

  function Withdraw(s: State, d: nat, project: nat, caller: nat, admin: bool): State {
    if MayWithdraw(s, d, project, caller, admin) then CloseDispute(s, d, Withdrawn) else s
  }

  // ----- payments outside arbitration -----

  /** The ledger half of verifyOrderPayment: an order moves exactly its total. */
  function VerifyOrder(s: State, id: nat): State {
    var key := Key(Material, id);
    if key !in s.payments || !s.payments[key].hasProof
       || s.payments[key].status in ["paid", "shipping", "delivered", "completed", "refunded", "cancelled"] then s
    else PayRow(s, key, s.payments[key].price)
  }

  /** MarkQuotePaidHandler: goods plus shipping. */
  function MarkQuotePaid(s: State, id: nat): State {
    var key := Key(Quote, id);
    if key !in s.payments || !s.payments[key].hasProof || s.payments[key].status in ["paid", "refunded"] then s
    else PayRow(s, key, s.payments[key].price + s.payments[key].shipping)
  }

  /** Refuse while frozen, record a positive amount, then mark the row paid. */
  function PayRow(s: State, key: Key, amount: nat): State
    requires key in s.payments
  {
    var payment := s.payments[key];
    var paidRow := s.payments[key := payment.(status := "paid")];
    if payment.project.None? then s.(payments := paidRow)
    else if Frozen(s, payment.project.value) then s
    else if amount == 0 then s.(payments := paidRow)
    else
      match Record(s, payment.project.value, key, amount, true)
      case Refused(_) => s
      case Written(entries) => s.(entries := entries, payments := paidRow)
  }

  /** Any other caller of recordPaymentMinor: a positive amount for a known row. */
  function RecordFor(s: State, key: Key, amount: nat): State {
    if key !in s.payments || s.payments[key].project.None? || amount == 0 then s
    else
      match Record(s, s.payments[key].project.value, key, amount, true)
      case Refused(_) => s
      case Written(entries) => s.(entries := entries)
  }

  // ----- transfer receipts: the project's payment routes -----

  /** Payable rows of the project routes; quotes are none. */
  predicate OnRoute(s: State, key: Key, project: nat) {
    key.kind != Quote && key in s.payments && s.payments[key].project == Some(project)
  }

  /** proofSettled: a settlement state, or a lifecycle, that takes no payment. */
  predicate TakesNoPayment(state: Text, lifecycle: Text) {
    state in ["paid", "refunded", "void"] || lifecycle in ["terminated", "resigned", "void", "cancelled"]
  }

  /** Here a settlement that is set at all hides the status, even an empty one. */
  function UploadState(key: Key, payment: Payment): Text {
    if key.kind == Bid && payment.settlement.Some? then payment.settlement.value else payment.status
  }

  /** upload-proof. `allowed` holds the caller's right and the order of stages. */
  function UploadTransfer(s: State, key: Key, project: nat, allowed: bool): State {
    if !allowed || Frozen(s, project) || !OnRoute(s, key, project) then s
    else
      var payment := s.payments[key];
      if TakesNoPayment(UploadState(key, payment), payment.status) then s
      else
        var verifying :=
          if key.kind == Bid && payment.settlement.Some? then payment.(settlement := Some("verifying"))
          else payment.(status := "verifying");
        s.(payments := s.payments[key := verifying.(hasProof := true)])
  }

  /** verify-proof takes a row whose receipt waits. */
  predicate AwaitsVerdict(s: State, key: Key, project: nat, allowed: bool) {
    && allowed && !Frozen(s, project) && OnRoute(s, key, project)
    && s.payments[key].hasProof
    && Settlement(key, s.payments[key]) == "verifying"
    && !TakesNoPayment("verifying", s.payments[key].status)
  }

  /** Accepting charges what a release charges, behind the freeze. */
  function AcceptTransfer(s: State, key: Key, project: nat, allowed: bool): State {
    if !AwaitsVerdict(s, key, project, allowed) then s
    else
      match Record(s, project, key, ReleaseAmount(key, s.payments[key]), true)
      case Refused(_) => s
      case Written(entries) =>
        s.(entries := entries, payments := s.payments[key := MarkedPaid(key, s.payments[key])])
  }

  function MarkedRejected(key: Key, payment: Payment): Payment {
    match key.kind
    case Bid => payment.(settlement := Some("pending"))
    case Addendum => payment.(status := "approved_unpaid")
    case _ => payment.(status := "pending")
  }

  function RejectTransfer(s: State, key: Key, project: nat, allowed: bool): State {
    if !AwaitsVerdict(s, key, project, allowed) then s
    else s.(payments := s.payments[key := MarkedRejected(key, s.payments[key])])
  }

  /** The sweep pays a stage's retention once, outside a dispute and within the escrow. */
  function ReleaseRetention(s: State, key: Key, amount: nat): State {
    if key !in s.payments || key.kind != Termin || s.payments[key].project.None? then s
    else
      var project := s.payments[key].project.value;
      if Frozen(s, project) || amount == 0 || project !in s.budgets
         || (exists i :: 0 <= i < |s.entries| && s.entries[i].Retention? && s.entries[i].project == project
                         && s.entries[i].key == key)
         || s.budgets[project] - Sum(NetOf(project), s.entries) < amount then s
      else s.(entries := s.entries + [Retention(project, key, amount)])
  }

  /** A budget deposit, or a reduction that the unspent escrow must cover and a
      dispute blocks. */
  function Deposit(s: State, project: nat, amount: nat): State {
    if project in s.budgets then s.(budgets := s.budgets[project := s.budgets[project] + amount]) else s
  }

  function Reduce(s: State, project: nat, amount: nat): State {
    if project !in s.budgets || Frozen(s, project)
       || s.budgets[project] - Sum(NetOf(project), s.entries) < amount then s
    else s.(budgets := s.budgets[project := s.budgets[project] - amount])
  }

  // ----- runs -----

  datatype Request =
    | OpenOne(project: nat, opener: nat, payment: Option<Key>, disputed: Option<int>)
    | Escalate(project: nat, opener: nat)
    | ReplyTo(dispute: nat, body: Text)
    | WithdrawOne(dispute: nat, project: nat, caller: nat, admin: bool)
    | ActOn(dispute: nat, action: Action, refund: Option<int>, notes: bool)
    | VerifyOne(order: nat)
    | MarkPaid(quote: nat)
    | RecordOne(key: Key, amount: nat)
    | Add(project: nat, amount: nat)
    | Remove(project: nat, amount: nat)
    | Upload(key: Key, project: nat, allowed: bool)
    | Accept(key: Key, project: nat, allowed: bool)
    | Reject(key: Key, project: nat, allowed: bool)
    | Retain(key: Key, amount: nat)

  function Next(s: State, r: Request): State {
    match r
    case OpenOne(project, opener, payment, disputed) => OpenDispute(s, project, opener, payment, disputed)
    case Escalate(project, opener) => OpenDispute(s, project, opener, None, None)
    case ReplyTo(d, body) => PostReply(s, d, body)
    case WithdrawOne(d, project, caller, admin) => Withdraw(s, d, project, caller, admin)
    case ActOn(d, action, amount, notes) => Act(s, d, action, amount, notes)
    case VerifyOne(id) => VerifyOrder(s, id)
    case MarkPaid(id) => MarkQuotePaid(s, id)
    case RecordOne(key, amount) => RecordFor(s, key, amount)
    case Add(project, amount) => Deposit(s, project, amount)
    case Remove(project, amount) => Reduce(s, project, amount)
    case Upload(key, project, allowed) => UploadTransfer(s, key, project, allowed)
    case Accept(key, project, allowed) => AcceptTransfer(s, key, project, allowed)
    case Reject(key, project, allowed) => RejectTransfer(s, key, project, allowed)
    case Retain(key, amount) => ReleaseRetention(s, key, amount)
  }

  function Run(s: State, requests: seq<Request>): State {
    if requests == [] then s else Next(Run(s, requests[..|requests| - 1]), requests[|requests| - 1])
  }

  /** Before the first request: rows to pay, budgets, and nothing paid or disputed. */
  ghost predicate Fresh(s: State) {
    && s.disputes == [] && s.entries == []
    && (forall key :: key in s.payments ==> s.payments[key].refunded == 0)
    && (forall p :: p in s.budgets ==> s.budgets[p] >= 0)
  }
}
