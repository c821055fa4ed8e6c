/** Material orders: every handler that writes an order's status, its stock flag
    or the site inventory, each run to its end before the next one starts. */
module OrderStatus {
  import opened Options
  import opened Sums
  import opened StockLines

  datatype Status =
    | Pending | AwaitingPayment | Verifying | Paid | Processing | ReadyForPickup
    | Shipping | Delivered | Completed | Cancelled | Refunded

  datatype Item = Item(material: MaterialId, requirement: Option<nat>, quantity: int)

  datatype Order = Order(status: Status, decremented: bool, hasProof: bool, project: Option<nat>,
                         buyer: nat, supplier: Option<nat>, items: seq<Item>)

  datatype Requirement = Requirement(project: nat, onSite: int)

  datatype Viewer = Viewer(id: nat, supplier: Option<nat>, admin: bool, owned: set<nat>)

  datatype Reply = NotFound | Forbidden | Unprocessable | Accepted

  /** The rows the order handlers write; an order's id is its position. */
  datatype Tables = Tables(orders: seq<Order>, stock: Stock, requirements: map<nat, Requirement>)

  // ----- who may do what -----

  const SUPPLIER_TRANSITIONS: map<Status, seq<Status>> := map[
    Pending := [Processing, Cancelled],
    AwaitingPayment := [Processing, Cancelled],
    Processing := [ReadyForPickup, Shipping, Cancelled],
    ReadyForPickup := [Shipping, Delivered],
    Shipping := [Delivered],
    Paid := [Processing, Shipping]]

  predicate SupplierMayMove(from: Status, to: Status) {
    from in SUPPLIER_TRANSITIONS && to in SUPPLIER_TRANSITIONS[from]
  }

  predicate IsSeller(viewer: Viewer, order: Order) {
    viewer.supplier.Some? && viewer.supplier == order.supplier
  }

  predicate MayUpdate(viewer: Viewer, order: Order, status: Status) {
    || (viewer.id == order.buyer && status == Completed && order.status == Delivered)
    || (viewer.id == order.buyer && status == Cancelled && (order.status == Pending || order.status == AwaitingPayment))
    || (IsSeller(viewer, order) && status == Paid && order.hasProof)
    || (IsSeller(viewer, order) && SupplierMayMove(order.status, status))
  }

  predicate MayConfirm(viewer: Viewer, order: Order) {
    || viewer.id == order.buyer
    || (order.project.Some? && order.project.value in viewer.owned)
    || viewer.admin
  }

  predicate AlreadySettled(status: Status) {
    status in {Paid, Shipping, Delivered, Completed, Refunded, Cancelled}
  }

  /** The statuses an order holds stock in. */
  predicate HoldsStock(status: Status) {
    status in {Paid, Processing, ReadyForPickup, Shipping, Delivered, Completed}
  }

  predicate Arrived(status: Status) { status == Delivered || status == Completed }

  // ----- what a handler does to the rows -----

  function LinesOf(items: seq<Item>): (lines: seq<Line>)
    ensures |lines| == |items|
    ensures forall i :: 0 <= i < |items| ==> lines[i] == Line(items[i].material, items[i].quantity)
  {
    seq(|items|, i requires 0 <= i < |items| => Line(items[i].material, items[i].quantity))
  }

  ghost function StockMoved(stock: Stock, lines: seq<Line>, restore: bool): (after: Stock)
    ensures IsMoved(stock, lines, restore, after)
  {
    map m | m in stock :: stock[m] + if restore then QuantityOf(lines, m) else -QuantityOf(lines, m)
  }

  /** moveOrderStock: nothing unless the flag still has the other value. */
  ghost function Move(t: Tables, o: nat, restore: bool): Tables
    requires o < |t.orders|
  {
    if t.orders[o].decremented == restore then
      t.(orders := t.orders[o := t.orders[o].(decremented := !restore)],
         stock := StockMoved(t.stock, LinesOf(t.orders[o].items), restore))
    else
      t
  }

  ghost function Naming(r: nat): Item -> int {
    (item: Item) => if item.requirement == Some(r) then item.quantity else 0
  }

  /** `delivered` adds each item to the requirement it names, in the order's own project only. */
  ghost function SiteAfter(requirements: map<nat, Requirement>, project: Option<nat>, items: seq<Item>)
    : map<nat, Requirement>
  {
    map r | r in requirements ::
      if project == Some(requirements[r].project) then
        requirements[r].(onSite := requirements[r].onSite + Sum(Naming(r), items))
      else
        requirements[r]
  }

  /** The writes of UpdateMaterialOrderHandler, decided on the order as `seen`
      when the handler loaded it. */
  ghost function Write(t: Tables, o: nat, seen: Order, status: Status): Tables
    requires o < |t.orders|
  {
    var written := t.(orders := t.orders[o := t.orders[o].(status := status)]);
    var synced :=
      if status == Delivered && seen.status != Delivered then
        written.(requirements := SiteAfter(t.requirements, seen.project, t.orders[o].items))
      else
        written;
    if HoldsStock(status) then Move(synced, o, false)
    else if status == Cancelled then Move(synced, o, true)
    else synced
  }

  /** verifyOrderPayment. `ledger` says whether the project's escrow took the
      payment, or none was needed. */
  ghost function Verify(t: Tables, viewer: Viewer, o: nat, ledger: bool): Tables {
    if o < |t.orders| && IsSeller(viewer, t.orders[o]) && t.orders[o].hasProof
       && !AlreadySettled(t.orders[o].status) && ledger then
      Move(t.(orders := t.orders[o := t.orders[o].(status := Paid)]), o, false)
    else
      t
  }

  ghost function Update(t: Tables, viewer: Viewer, o: nat, status: Status, ledger: bool): Tables {
    if o >= |t.orders| || !MayUpdate(viewer, t.orders[o], status) then t
    else if status == Paid && t.orders[o].status != Paid then Verify(t, viewer, o, ledger)
    else Write(t, o, t.orders[o], status)
  }

  ghost function Confirm(t: Tables, viewer: Viewer, o: nat): Tables {
    if o < |t.orders| && MayConfirm(viewer, t.orders[o]) && t.orders[o].status == Delivered then
      t.(orders := t.orders[o := t.orders[o].(status := Completed)])
    else
      t
  }

  ghost function UploadProof(t: Tables, o: nat): Tables {
    if o < |t.orders| && (t.orders[o].status == Pending || t.orders[o].status == AwaitingPayment) then
      t.(orders := t.orders[o := t.orders[o].(hasProof := true)])
    else
      t
  }

  /** The scheduler completes a delivered order left alone for three days. */
  ghost function AutoComplete(t: Tables, o: nat): Tables {
    if o < |t.orders| && t.orders[o].status == Delivered then
      t.(orders := t.orders[o := t.orders[o].(status := Completed)])
    else
      t
  }

  // ----- the other writers of an order's status -----

  /** The payment routes select the order together with its project. */
  predicate OnProject(t: Tables, o: nat, project: nat) {
    o < |t.orders| && t.orders[o].project == Some(project)
  }

  function WithStatus(t: Tables, o: nat, status: Status): Tables
    requires o < |t.orders|
  {
    t.(orders := t.orders[o := t.orders[o].(status := status)])
  }

  /** upload-proof takes any order whose payment is not settled. */
  predicate TakesProof(t: Tables, o: nat, project: nat, allowed: bool) {
    allowed && OnProject(t, o, project) && t.orders[o].status !in {Paid, Refunded, Cancelled}
  }

  /** verify-proof takes an order whose proof waits. */
  predicate TakesVerdict(t: Tables, o: nat, project: nat, allowed: bool) {
    allowed && OnProject(t, o, project) && t.orders[o].status == Verifying && t.orders[o].hasProof
  }

  /** The refund of a dispute marks a paid order once all that was paid is returned. */
  predicate TakesRefund(t: Tables, o: nat, project: nat, covered: bool) {
    covered && OnProject(t, o, project) && t.orders[o].status == Paid
  }

  /** The release of a dispute pays any order that is not settled. */
  predicate TakesRelease(t: Tables, o: nat, project: nat, ledger: bool) {
    ledger && OnProject(t, o, project) && t.orders[o].status !in {Paid, Refunded, Cancelled}
  }

  /** A review delivers an order whose courier job has ended. */
  predicate TakesReview(t: Tables, o: nat, buyer: nat, jobEnded: bool) {
    jobEnded && o < |t.orders| && t.orders[o].buyer == buyer && !Arrived(t.orders[o].status)
  }

  function ProjectProof(t: Tables, o: nat, project: nat, allowed: bool): Tables {
    if TakesProof(t, o, project, allowed) then
      t.(orders := t.orders[o := t.orders[o].(status := Verifying, hasProof := true)])
    else t
  }

  function Verdict(t: Tables, o: nat, project: nat, allowed: bool, accept: bool, ledger: bool): Tables {
    if !TakesVerdict(t, o, project, allowed) then t
    else if !accept then WithStatus(t, o, Pending)
    else if ledger then WithStatus(t, o, Paid)
    else t
  }

  function RefundOrder(t: Tables, o: nat, project: nat, covered: bool): Tables {
    if TakesRefund(t, o, project, covered) then WithStatus(t, o, Refunded) else t
  }

  function ReleaseOrder(t: Tables, o: nat, project: nat, ledger: bool): Tables {
    if TakesRelease(t, o, project, ledger) then WithStatus(t, o, Paid) else t
  }

  function ReviewOrder(t: Tables, o: nat, buyer: nat, jobEnded: bool): Tables {
    if TakesReview(t, o, buyer, jobEnded) then WithStatus(t, o, Delivered) else t
  }

  /** `allowed` says that the caller may and no dispute is open, `ledger` that
      the escrow took the payment, `covered` that reversals cover what was paid. */
  datatype Request =
    | Approve(buyer: nat, supplier: Option<nat>, site: Option<nat>, items: seq<Item>)
    | Proof(order: nat)
    | VerifyPayment(viewer: Viewer, order: nat, ledger: bool)
    | UpdateStatus(viewer: Viewer, order: nat, status: Status, ledger: bool)
    | ConfirmReceipt(viewer: Viewer, order: nat)
    | Timeout(order: nat)
    | UploadTransfer(order: nat, project: nat, allowed: bool)
    | VerifyTransfer(order: nat, project: nat, allowed: bool, accept: bool, ledger: bool)
    | Refund(order: nat, project: nat, covered: bool)
    | Release(order: nat, project: nat, ledger: bool)
    | Review(order: nat, buyer: nat, jobEnded: bool)

  ghost function Handle(t: Tables, request: Request): Tables {
    match request
    case Approve(buyer, supplier, project, items) =>
      t.(orders := t.orders + [Order(Pending, false, false, project, buyer, supplier, items)])
    case Proof(o) => UploadProof(t, o)
    case VerifyPayment(viewer, o, ledger) => Verify(t, viewer, o, ledger)
    case UpdateStatus(viewer, o, status, ledger) => Update(t, viewer, o, status, ledger)
    case ConfirmReceipt(viewer, o) => Confirm(t, viewer, o)
    case Timeout(o) => AutoComplete(t, o)
    case UploadTransfer(o, project, allowed) => ProjectProof(t, o, project, allowed)
    case VerifyTransfer(o, project, allowed, accept, ledger) => Verdict(t, o, project, allowed, accept, ledger)
    case Refund(o, project, covered) => RefundOrder(t, o, project, covered)
    case Release(o, project, ledger) => ReleaseOrder(t, o, project, ledger)
    case Review(o, buyer, jobEnded) => ReviewOrder(t, o, buyer, jobEnded)
  }

  ghost function Run(t: Tables, requests: seq<Request>): Tables {
    if requests == [] then t
    else Handle(Run(t, requests[..|requests| - 1]), requests[|requests| - 1])
  }
}
