/** The sliding-window rule of the rate limiter, over the hit times of one key.
    Times and windows are whole nanoseconds. */
module SlidingWindow {

  type Time = int

  /** A limit lets at least one call through; the routes declare 5 and up. */
  type Limit = n: nat | n >= 1 witness 1

  /** The hits strictly after `cutoff`, in order. */
  function Live(hits: seq<Time>, cutoff: Time): seq<Time> {
    if hits == [] then []
    else
      var rest := Live(hits[..|hits| - 1], cutoff);
      var last := hits[|hits| - 1];
      if last > cutoff then rest + [last] else rest
  }

  datatype Verdict = Verdict(allowed: bool, retryAfter: Time, hits: seq<Time>)

  /** Allow: what is answered, and which hits the key keeps. */
  function Decide(hits: seq<Time>, now: Time, limit: Limit, window: Time): Verdict {
    DecideOn(Live(hits, now - window), now, limit, window)
  }

  function DecideOn(kept: seq<Time>, now: Time, limit: Limit, window: Time): Verdict {
    if |kept| >= limit then
      var wait := kept[0] + window - now;
      Verdict(false, if wait < 0 then 0 else wait, kept)
    else
      Verdict(true, 0, kept + [now])
  }

  function Remaining(hits: seq<Time>, now: Time, limit: Limit, window: Time): nat {
    var count := |Live(hits, now - window)|;
    if limit >= count then limit - count else 0
  }

  // ----- the filter -----

  /** Oldest first. */
  ghost predicate Ordered(hits: seq<Time>) {
    |hits| <= 1 || (hits[|hits| - 2] <= hits[|hits| - 1] && Ordered(hits[..|hits| - 1]))
  }

  lemma {:induction false} LiveTwice(hits: seq<Time>, early: Time, late: Time)
    requires early <= late
    ensures Live(Live(hits, early), late) == Live(hits, late)
  {
    if hits != [] {
      LiveTwice(hits[..|hits| - 1], early, late);
      var rest, last := Live(hits[..|hits| - 1], early), hits[|hits| - 1];
      assert (rest + [last])[..|rest|] == rest;
    }
  }

  lemma {:induction false} OrderedEnds(hits: seq<Time>)
    requires Ordered(hits) && hits != []
    ensures hits[0] <= hits[|hits| - 1]
  {
    if |hits| > 1 {
      OrderedEnds(hits[..|hits| - 1]);
    }
  }

  /** What is live lies after the cutoff and not after the last hit. */
  lemma {:induction false} LiveBounds(hits: seq<Time>, cutoff: Time)
    requires Ordered(hits) && hits != []
    ensures var live := Live(hits, cutoff);
      live != [] ==> cutoff < live[0] && live[|live| - 1] <= hits[|hits| - 1]
  {
    if |hits| > 1 {
      LiveBounds(hits[..|hits| - 1], cutoff);
    }
  }

  lemma {:induction false} LiveOrdered(hits: seq<Time>, cutoff: Time)
    requires Ordered(hits)
    ensures Ordered(Live(hits, cutoff))
  {
    if |hits| > 1 {
      var front, last := hits[..|hits| - 1], hits[|hits| - 1];
      LiveOrdered(front, cutoff);
      LiveBounds(front, cutoff);
      var rest := Live(front, cutoff);
      assert (rest + [last])[..|rest|] == rest;
    }
  }

  /** After an early cutoff everything is live; past the first hit it is not. */
  lemma {:induction false} LiveAll(hits: seq<Time>, cutoff: Time)
    requires Ordered(hits) && hits != []
    ensures if cutoff < hits[0] then Live(hits, cutoff) == hits else |Live(hits, cutoff)| < |hits|
  {
    var front, last := hits[..|hits| - 1], hits[|hits| - 1];
    OrderedEnds(hits);
    if front == [] {
      assert Live(front, cutoff) == [];
    } else {
      LiveAll(front, cutoff);
    }
    assert hits == front + [last];
  }

  lemma AppendHit(hits: seq<Time>, t: Time, cutoff: Time)
    ensures Live(hits + [t], cutoff) == Live(hits, cutoff) + if t > cutoff then [t] else []
    ensures Ordered(hits) && (hits != [] ==> hits[|hits| - 1] <= t) ==> Ordered(hits + [t])
  {
    assert (hits + [t])[..|hits|] == hits;
  }

  // ----- runs of calls for one key -----

  datatype Call = Call(now: Time, limit: Limit)

  /** The hits stored for the key, and the times of every admission so far. */
  datatype State = State(hits: seq<Time>, admitted: seq<Time>)

  function Step(s: State, call: Call, window: Time): State {
    var v := Decide(s.hits, call.now, call.limit, window);
    State(v.hits, if v.allowed then s.admitted + [call.now] else s.admitted)
  }

  ghost predicate InClockOrder(calls: seq<Call>) {
    |calls| <= 1 || (calls[|calls| - 2].now <= calls[|calls| - 1].now && InClockOrder(calls[..|calls| - 1]))
  }

  function Run(calls: seq<Call>, window: Time): State {
    if calls == [] then State([], [])
    else Step(Run(calls[..|calls| - 1], window), calls[|calls| - 1], window)
  }

  /** The stored hits are exactly the admissions of the window before `now`. */
  ghost predicate RecentOnly(s: State, now: Time, window: Time) {
    && Ordered(s.admitted)
    && s.hits == Live(s.admitted, now - window)
    && (s.admitted != [] ==> s.admitted[|s.admitted| - 1] <= now)
  }

  lemma StepKeepsRecent(s: State, before: Time, call: Call, window: Time)
    requires RecentOnly(s, before, window) && before <= call.now && window > 0
    ensures RecentOnly(Step(s, call, window), call.now, window)
    ensures Live(s.hits, call.now - window) == Live(s.admitted, call.now - window)
  {
    var cutoff := call.now - window;
    LiveTwice(s.admitted, before - window, cutoff);
    StepFrom(s, call, window, Live(s.admitted, cutoff));
    AdmitKeepsRecent(s.admitted, call.now, window);
  }

  lemma StepFrom(s: State, call: Call, window: Time, kept: seq<Time>)
    requires Live(s.hits, call.now - window) == kept
    ensures Step(s, call, window) == if |kept| >= call.limit then State(kept, s.admitted)
                                     else State(kept + [call.now], s.admitted + [call.now])
  {
  }

  lemma AdmitKeepsRecent(admitted: seq<Time>, now: Time, window: Time)
    requires Ordered(admitted) && (admitted != [] ==> admitted[|admitted| - 1] <= now) && window > 0
    ensures RecentOnly(State(Live(admitted, now - window) + [now], admitted + [now]), now, window)
  {
    AppendHit(admitted, now, now - window);
  }

  lemma {:induction false} HitsAreRecentAdmissions(calls: seq<Call>, window: Time)
    requires InClockOrder(calls) && calls != [] && window > 0
    ensures RecentOnly(Run(calls, window), calls[|calls| - 1].now, window)
  {
    var front, call := calls[..|calls| - 1], calls[|calls| - 1];
    if front == [] {
      assert Run(front, window) == State([], []);
      StepKeepsRecent(State([], []), call.now, call, window);
    } else {
      HitsAreRecentAdmissions(front, window);
      StepKeepsRecent(Run(front, window), front[|front| - 1].now, call, window);
    }
  }

  /** What the next call finds: the live hits are the admissions within its window. */
  lemma NextCallSees(calls: seq<Call>, call: Call, window: Time)
    requires InClockOrder(calls + [call]) && window > 0
    ensures var s := Run(calls, window);
      && Live(s.hits, call.now - window) == Live(s.admitted, call.now - window)
      && RecentOnly(Step(s, call, window), call.now, window)
      && Ordered(s.admitted) && (s.admitted != [] ==> s.admitted[|s.admitted| - 1] <= call.now)
  {
    assert (calls + [call])[..|calls|] == calls;
    if calls == [] {
      StepKeepsRecent(State([], []), call.now, call, window);
    } else {
      HitsAreRecentAdmissions(calls, window);
      assert (calls + [call])[|calls| - 1] == calls[|calls| - 1];
      StepKeepsRecent(Run(calls, window), calls[|calls| - 1].now, call, window);
    }
  }

  /** Which calls are let through, over any run with one window and any mix of
      limits: a call is admitted exactly when fewer than its limit were admitted
      within the window before it, and so it is among at most `limit`. */
  lemma WindowLimit(calls: seq<Call>, call: Call, window: Time)
    requires InClockOrder(calls + [call]) && window > 0
    ensures var s := Run(calls, window);
      && (Decide(s.hits, call.now, call.limit, window).allowed <==> |Live(s.admitted, call.now - window)| < call.limit)
      && (Decide(s.hits, call.now, call.limit, window).allowed ==>
            |Live(Step(s, call, window).admitted, call.now - window)| <= call.limit)
  {
    NextCallSees(calls, call, window);
    StepWithinLimit(Run(calls, window), call, window);
  }

  lemma StepWithinLimit(s: State, call: Call, window: Time)
    requires Live(s.hits, call.now - window) == Live(s.admitted, call.now - window) && window > 0
    ensures Decide(s.hits, call.now, call.limit, window).allowed <==> |Live(s.admitted, call.now - window)| < call.limit
    ensures Decide(s.hits, call.now, call.limit, window).allowed ==>
              |Live(Step(s, call, window).admitted, call.now - window)| <= call.limit
  {
    AppendHit(s.admitted, call.now, call.now - window);
  }

  // ----- retryAfter -----

  /** What is kept starts within the window. */
  ghost predicate WithinWindow(kept: seq<Time>, now: Time, window: Time) {
    kept != [] ==> Ordered(kept) && now - window < kept[0] <= now
  }

  lemma LiveWithinWindow(admitted: seq<Time>, live: seq<Time>, now: Time, window: Time)
    requires Ordered(admitted) && (admitted != [] ==> admitted[|admitted| - 1] <= now)
    requires live == Live(admitted, now - window)
    ensures WithinWindow(live, now, window)
  {
    if admitted != [] && live != [] {
      LiveBounds(admitted, now - window);
      LiveOrdered(admitted, now - window);
      OrderedEnds(live);
    }
  }

  lemma RefusalWaits(hits: seq<Time>, kept: seq<Time>, now: Time, limit: Limit, window: Time)
    requires kept == Live(hits, now - window) && WithinWindow(kept, now, window)
    ensures var v := Decide(hits, now, limit, window);
      !v.allowed ==> 0 < v.retryAfter <= window && Ordered(v.hits) && v.hits != []
  {
    assert Decide(hits, now, limit, window) == DecideOn(kept, now, limit, window);
  }

  lemma RecentRefusalWaits(s: State, now: Time, limit: Limit, window: Time)
    requires Live(s.hits, now - window) == Live(s.admitted, now - window)
    requires Ordered(s.admitted) && (s.admitted != [] ==> s.admitted[|s.admitted| - 1] <= now)
    ensures var v := Decide(s.hits, now, limit, window);
      !v.allowed ==> 0 < v.retryAfter <= window && Ordered(v.hits) && v.hits != []
  {
    var live := Live(s.admitted, now - window);
    LiveWithinWindow(s.admitted, live, now, window);
    RefusalWaits(s.hits, live, now, limit, window);
  }

  /** A refusal asks for a wait within the window. */
  lemma RetryAfterInWindow(calls: seq<Call>, call: Call, window: Time)
    requires InClockOrder(calls + [call]) && window > 0
    ensures var v := Decide(Run(calls, window).hits, call.now, call.limit, window);
      !v.allowed ==> 0 < v.retryAfter <= window && Ordered(v.hits) && v.hits != []
  {
    NextCallSees(calls, call, window);
    RecentRefusalWaits(Run(calls, window), call.now, call.limit, window);
  }

  /** After a refusal, and while nothing is admitted, every call with the same
      limit before now + retryAfter is refused too. At now + retryAfter a call
      is admitted exactly when fewer than `limit` of the kept hits are later
      than the oldest one. */
  lemma RetryAfterExact(hits: seq<Time>, now: Time, limit: Limit, window: Time, t: Time)
    requires var v := Decide(hits, now, limit, window); !v.allowed && v.retryAfter > 0 && Ordered(v.hits)
    ensures var v := Decide(hits, now, limit, window);
      && (now <= t < now + v.retryAfter ==>
            !Decide(v.hits, t, limit, window).allowed && Decide(v.hits, t, limit, window).hits == v.hits)
      && (Decide(v.hits, now + v.retryAfter, limit, window).allowed <==> |Live(v.hits, v.hits[0])| < limit)
  {
    var v := Decide(hits, now, limit, window);
    if t < now + v.retryAfter {
      RefusedWhileLive(v.hits, t, limit, window);
    }
    assert now + v.retryAfter - window == v.hits[0];
  }

  lemma RefusedWhileLive(kept: seq<Time>, t: Time, limit: Limit, window: Time)
    requires Ordered(kept) && |kept| >= limit && t - window < kept[0]
    ensures !Decide(kept, t, limit, window).allowed && Decide(kept, t, limit, window).hits == kept
  {
    LiveAll(kept, t - window);
    AllKept(kept, t, limit, window);
  }

  lemma AllKept(kept: seq<Time>, t: Time, limit: Limit, window: Time)
    requires |kept| >= limit && Live(kept, t - window) == kept
    ensures !Decide(kept, t, limit, window).allowed && Decide(kept, t, limit, window).hits == kept
  {
  }

  /** With one limit for all calls a key never holds more than `limit` hits. */
  lemma {:induction false} OneLimitHolds(calls: seq<Call>, limit: Limit, window: Time)
    requires forall i :: 0 <= i < |calls| ==> calls[i].limit == limit
    ensures |Run(calls, window).hits| <= limit
  {
    if calls != [] {
      var front, call := calls[..|calls| - 1], calls[|calls| - 1];
      OneLimitHolds(front, limit, window);
      LiveShrinks(Run(front, window).hits, call.now - window);
    }
  }

  lemma {:induction false} LiveShrinks(hits: seq<Time>, cutoff: Time)
    ensures |Live(hits, cutoff)| <= |hits|
  {
    if hits != [] {
      LiveShrinks(hits[..|hits| - 1], cutoff);
    }
  }

  /** After a refusal, every call before now + retryAfter is refused and the call
      at now + retryAfter is admitted. */
  ghost predicate RetryIsExact(hits: seq<Time>, now: Time, limit: Limit, window: Time) {
    var v := Decide(hits, now, limit, window);
    !v.allowed ==>
      && Decide(v.hits, now + v.retryAfter, limit, window).allowed
      && forall t :: now <= t < now + v.retryAfter ==> !Decide(v.hits, t, limit, window).allowed
  }

  /** With one limit for all calls retryAfter is exact. */
  lemma RetryAfterOneLimit(calls: seq<Call>, now: Time, limit: Limit, window: Time)
    requires InClockOrder(calls + [Call(now, limit)]) && window > 0
    requires forall i :: 0 <= i < |calls| ==> calls[i].limit == limit
    ensures RetryIsExact(Run(calls, window).hits, now, limit, window)
  {
    var hits := Run(calls, window).hits;
    assert |hits| <= limit by {
      OneLimitHolds(calls, limit, window);
    }
    assert var v := Decide(hits, now, limit, window); !v.allowed ==> v.retryAfter > 0 && Ordered(v.hits) by {
      RetryAfterInWindow(calls, Call(now, limit), window);
    }
    OneLimitExact(hits, now, limit, window);
  }

  lemma OneLimitExact(hits: seq<Time>, now: Time, limit: Limit, window: Time)
    requires |hits| <= limit
    requires var v := Decide(hits, now, limit, window); !v.allowed ==> v.retryAfter > 0 && Ordered(v.hits)
    ensures RetryIsExact(hits, now, limit, window)
  {
    var v := Decide(hits, now, limit, window);
    LiveShrinks(hits, now - window);
    if !v.allowed {
      forall t | now <= t < now + v.retryAfter ensures !Decide(v.hits, t, limit, window).allowed {
        RetryAfterExact(hits, now, limit, window, t);
      }
      RetryAfterExact(hits, now, limit, window, now);
      LiveAll(v.hits, v.hits[0]);
    }
  }

  /** Remaining is positive exactly when Allow would let the call through. */
  lemma RemainingAgrees(hits: seq<Time>, now: Time, limit: Limit, window: Time)
    ensures Remaining(hits, now, limit, window) > 0 <==> Decide(hits, now, limit, window).allowed
  {
  }
}
