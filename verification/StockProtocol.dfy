/** Stock moves under every interleaving of their statements.

    moveOrderStock runs outside any transaction: one UPDATE claims the order's
    `is_stock_decremented` flag, one SELECT reads the lines, and one UPDATE for
    each line moves a material's stock. Any number of handlers run these
    statements in any interleaving. */
module StockProtocol {
  import opened Sums
  import opened StockLines

  datatype Order = Order(decremented: bool, lines: seq<Line>)

  /** Where one call of moveOrderStock stands. */
  datatype Call =
    | Claiming(order: nat, restore: bool)
    | Reading(order: nat, restore: bool)
    | Moving(order: nat, restore: bool, left: seq<Line>)
    | Returned

  /** `claims` logs the successful claims, for the alternation property. */
  datatype Claim = Claim(order: nat, restore: bool)

  datatype State = State(stock: Stock, orders: seq<Order>, calls: seq<Call>, claims: seq<Claim>)

  datatype Event =
    | NewOrder(lines: seq<Line>)
    | Start(order: nat, restore: bool)
    | Statement(call: nat)

  function Initial(stock: Stock): State { State(stock, [], [], []) }

  /** claimOrderStock: the UPDATE matches when the flag still has the other value. */
  function AfterClaim(s: State, c: nat): State
    requires c < |s.calls| && s.calls[c].Claiming?
  {
    var Claiming(o, restore) := s.calls[c];
    if o < |s.orders| && s.orders[o].decremented == restore then
      s.(orders := s.orders[o := s.orders[o].(decremented := !restore)],
         calls := s.calls[c := Reading(o, restore)],
         claims := s.claims + [Claim(o, restore)])
    else
      s.(calls := s.calls[c := Returned])
  }

  function AfterStatement(s: State, c: nat): State
    requires c < |s.calls|
  {
    match s.calls[c]
    case Claiming(_, _) => AfterClaim(s, c)
    case Reading(o, restore) =>
      var lines := if o < |s.orders| then s.orders[o].lines else [];
      s.(calls := s.calls[c := Moving(o, restore, lines)])
    case Moving(o, restore, left) =>
      if left == [] then s.(calls := s.calls[c := Returned])
      else s.(stock := Adjusted(s.stock, left[0], restore),
              calls := s.calls[c := Moving(o, restore, left[1..])])
    case Returned => s
  }

  function Next(s: State, e: Event): State {
    match e
    case NewOrder(lines) => s.(orders := s.orders + [Order(false, lines)])
    case Start(o, restore) => s.(calls := s.calls + [Claiming(o, restore)])
    case Statement(c) => if c < |s.calls| then AfterStatement(s, c) else s
  }

  function Run(s: State, events: seq<Event>): State {
    if events == [] then s else Next(Run(s, events[..|events| - 1]), events[|events| - 1])
  }

  // ----- conservation -----

  ghost function Taken(m: MaterialId): Order -> int {
    (o: Order) => if o.decremented then QuantityOf(o.lines, m) else 0
  }

  /** What a call still owes the stock of `m`: positive for a decrement under
      way, negative for a restore under way. */
  ghost function Owed(orders: seq<Order>, m: MaterialId): Call -> int {
    (c: Call) =>
      match c
      case Claiming(_, _) => 0
      case Reading(o, restore) =>
        if o >= |orders| then 0
        else if restore then -QuantityOf(orders[o].lines, m) else QuantityOf(orders[o].lines, m)
      case Moving(_, restore, left) => if restore then -QuantityOf(left, m) else QuantityOf(left, m)
      case Returned => 0
  }

  ghost predicate Conserved(start: Stock, s: State) {
    && s.stock.Keys == start.Keys
    && forall m :: m in start ==>
         s.stock[m] == start[m] - Sum(Taken(m), s.orders) + Sum(Owed(s.orders, m), s.calls)
  }

  ghost predicate OrdersKnown(s: State) {
    forall c :: 0 <= c < |s.calls| && (s.calls[c].Reading? || s.calls[c].Moving?) ==> s.calls[c].order < |s.orders|
  }

  lemma QuantityHead(lines: seq<Line>, m: MaterialId)
    requires lines != []
    ensures QuantityOf(lines, m) == OfMaterial(m)(lines[0]) + QuantityOf(lines[1..], m)
  {
  }

  lemma ClaimConserves(start: Stock, s: State, c: nat, m: MaterialId)
    requires c < |s.calls| && s.calls[c].Claiming? && m in start
    requires Conserved(start, s) && OrdersKnown(s)
    ensures var t := AfterClaim(s, c);
      t.stock[m] == start[m] - Sum(Taken(m), t.orders) + Sum(Owed(t.orders, m), t.calls)
  {
    var t := AfterClaim(s, c);
    SumUpdate(Owed(s.orders, m), s.calls, c, t.calls[c]);
    if t.orders != s.orders {
      var o := s.calls[c].order;
      SumUpdate(Taken(m), s.orders, o, t.orders[o]);
      SumSame(Owed(s.orders, m), Owed(t.orders, m), t.calls);
    }
  }

  lemma StatementConserves(start: Stock, s: State, c: nat, m: MaterialId)
    requires c < |s.calls| && m in start
    requires Conserved(start, s) && OrdersKnown(s)
    ensures var t := AfterStatement(s, c);
      t.stock[m] == start[m] - Sum(Taken(m), t.orders) + Sum(Owed(t.orders, m), t.calls)
  {
    if s.calls[c].Claiming? {
      ClaimConserves(start, s, c, m);
    } else {
      SumUpdate(Owed(s.orders, m), s.calls, c, AfterStatement(s, c).calls[c]);
      if s.calls[c].Moving? && s.calls[c].left != [] {
        QuantityHead(s.calls[c].left, m);
      }
    }
  }

  lemma NextConserves(start: Stock, s: State, e: Event)
    requires Conserved(start, s) && OrdersKnown(s)
    ensures Conserved(start, Next(s, e)) && OrdersKnown(Next(s, e))
  {
    forall m | m in start
      ensures var t := Next(s, e);
        m in t.stock && t.stock[m] == start[m] - Sum(Taken(m), t.orders) + Sum(Owed(t.orders, m), t.calls)
    {
      NextConservesOne(start, s, e, m);
    }
  }

  lemma NextConservesOne(start: Stock, s: State, e: Event, m: MaterialId)
    requires Conserved(start, s) && OrdersKnown(s) && m in start
    ensures var t := Next(s, e);
      m in t.stock && t.stock[m] == start[m] - Sum(Taken(m), t.orders) + Sum(Owed(t.orders, m), t.calls)
  {
    match e
    case NewOrder(lines) => NewOrderConserves(s, lines, m);
    case Start(o, restore) => SumAppend(Owed(s.orders, m), s.calls, Claiming(o, restore));
    case Statement(c) =>
      if c < |s.calls| { StatementConserves(start, s, c, m); }
  }

  /** An order just placed holds no stock and no call is at it yet. */
  lemma NewOrderConserves(s: State, lines: seq<Line>, m: MaterialId)
    requires OrdersKnown(s)
    ensures Sum(Taken(m), s.orders + [Order(false, lines)]) == Sum(Taken(m), s.orders)
    ensures Sum(Owed(s.orders + [Order(false, lines)], m), s.calls) == Sum(Owed(s.orders, m), s.calls)
  {
    SumAppend(Taken(m), s.orders, Order(false, lines));
    SumSame(Owed(s.orders, m), Owed(s.orders + [Order(false, lines)], m), s.calls);
  }

  /** Stock conservation: at every point of every interleaving, the stock of a
      material is the starting stock, less the lines of the orders whose flag is
      set, plus what decrements under way have still to take, less what restores
      under way have still to put back. */
  lemma {:induction false} StockConservation(start: Stock, events: seq<Event>)
    ensures Conserved(start, Run(Initial(start), events)) && OrdersKnown(Run(Initial(start), events))
  {
    if events != [] {
      StockConservation(start, events[..|events| - 1]);
      NextConserves(start, Run(Initial(start), events[..|events| - 1]), events[|events| - 1]);
    }
  }

  /** With no call under way the flags alone account for the stock. */
  lemma QuietStock(start: Stock, events: seq<Event>, m: MaterialId)
    requires m in start
    requires forall c :: c in Run(Initial(start), events).calls ==> c.Claiming? || c.Returned?
    ensures var s := Run(Initial(start), events);
      m in s.stock && s.stock[m] == start[m] - Sum(Taken(m), s.orders)
  {
    StockConservation(start, events);
    var s := Run(Initial(start), events);
    SumOfZeros(Owed(s.orders, m), s.calls);
  }

  // ----- alternation -----

  function ClaimsOn(claims: seq<Claim>, o: nat): seq<bool> {
    if claims == [] then []
    else
      var last := claims[|claims| - 1];
      ClaimsOn(claims[..|claims| - 1], o) + if last.order == o then [last.restore] else []
  }

  /** Decrement, restore, decrement, ... and the flag tells whose turn is next. */
  ghost predicate AlternatesOn(s: State, o: nat) {
    var cs := ClaimsOn(s.claims, o);
    && (forall i :: 0 <= i < |cs| ==> cs[i] == (i % 2 == 1))
    && (if o < |s.orders| then s.orders[o].decremented == (|cs| % 2 == 1) else cs == [])
  }

  lemma ClaimAlternates(s: State, c: nat, o: nat)
    requires c < |s.calls| && s.calls[c].Claiming? && AlternatesOn(s, o)
    ensures AlternatesOn(AfterClaim(s, c), o)
  {
    var t := AfterClaim(s, c);
    if t.claims != s.claims {
      assert t.claims[..|t.claims| - 1] == s.claims;
    }
  }

  lemma NextAlternates(s: State, e: Event, o: nat)
    requires AlternatesOn(s, o)
    ensures AlternatesOn(Next(s, e), o)
  {
    if e.Statement? && e.call < |s.calls| && s.calls[e.call].Claiming? {
      ClaimAlternates(s, e.call, o);
    }
  }

  /** On one order, successful decrements and restores strictly alternate,
      starting with a decrement, whatever the interleaving. */
  lemma {:induction false} ClaimsAlternate(start: Stock, events: seq<Event>, o: nat)
    ensures AlternatesOn(Run(Initial(start), events), o)
  {
    if events != [] {
      ClaimsAlternate(start, events[..|events| - 1], o);
      NextAlternates(Run(Initial(start), events[..|events| - 1]), events[|events| - 1], o);
    }
  }

  // ----- a call that is left alone -----

  /** `n` statements of call `c` with nothing in between. */
  function Alone(s: State, c: nat, n: nat): State {
    if n == 0 then s else Next(Alone(s, c, n - 1), Statement(c))
  }

  /** The first `k` lines of call `c` are moved, the rest are left. */
  ghost predicate MovedSome(s: State, t: State, c: nat, k: nat)
    requires c < |s.calls| && s.calls[c].Reading? && s.calls[c].order < |s.orders|
    requires k <= |s.orders[s.calls[c].order].lines|
  {
    var Reading(o, restore) := s.calls[c];
    && IsMoved(s.stock, s.orders[o].lines[..k], restore, t.stock)
    && t.orders == s.orders
    && t.calls == s.calls[c := Moving(o, restore, s.orders[o].lines[k..])]
  }

  lemma MoveNextLine(s: State, t: State, c: nat, k: nat)
    requires c < |s.calls| && s.calls[c].Reading? && s.calls[c].order < |s.orders|
    requires k < |s.orders[s.calls[c].order].lines| && MovedSome(s, t, c, k)
    ensures MovedSome(s, Next(t, Statement(c)), c, k + 1)
  {
    var lines := s.orders[s.calls[c].order].lines;
    MoveOneMore(s.stock, lines[..k], lines[k], s.calls[c].restore, t.stock);
    assert lines[..k] + [lines[k]] == lines[..k + 1];
    assert lines[k..][1..] == lines[k + 1..];
  }

  /** Run without interruption from its SELECT on, a call moves each of its
      order's lines exactly once. */
  lemma {:induction false} UninterruptedMove(s: State, c: nat, k: nat)
    requires c < |s.calls| && s.calls[c].Reading? && s.calls[c].order < |s.orders|
    requires k <= |s.orders[s.calls[c].order].lines|
    ensures MovedSome(s, Alone(s, c, k + 1), c, k)
  {
    if k == 0 {
      var lines := s.orders[s.calls[c].order].lines;
      assert Alone(s, c, 0) == s && lines[0..] == lines;
    } else {
      UninterruptedMove(s, c, k - 1);
      MoveNextLine(s, Alone(s, c, k), c, k - 1);
    }
  }
}
