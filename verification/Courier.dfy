/** Courier jobs: many couriers accepting and updating the same jobs.

    Accepting is one UPDATE that tests the status. Updating is a SELECT that
    checks the caller and the transition, then an UPDATE that checks nothing,
    so another request may run between the two. */
module Courier {
  import opened Options

  datatype Status = Pending | Accepted | PickedUp | Delivered

  function NextStatuses(current: Status): seq<Status> {
    match current
    case Pending => [Accepted]
    case Accepted => [PickedUp, Delivered]
    case PickedUp => [Delivered]
    case Delivered => []
  }

  datatype Job = Job(status: Status, courier: Option<nat>)

  /** A status request that has passed its checks and is about to write. */
  datatype Request = Request(job: nat, viewer: nat, status: Status)

  /** What happened to a job, oldest first. */
  datatype Event = Claimed(job: nat, courier: nat) | Moved(job: nat, mover: nat, before: Status, after: Status)

  datatype State = State(jobs: seq<Job>, pending: seq<Request>, log: seq<Event>)

  datatype Statement =
    | PostJob
    | Accept(job: nat, viewer: nat)
    | Check(job: nat, viewer: nat, status: Status)
    | Write(request: nat)

  predicate Claimable(s: State, j: nat) {
    j < |s.jobs| && s.jobs[j].status == Pending
  }

  predicate Permitted(s: State, j: nat, viewer: nat, status: Status) {
    && j < |s.jobs|
    && s.jobs[j].courier == Some(viewer)
    && status != Pending
    && status in NextStatuses(s.jobs[j].status)
  }

  function AfterWrite(s: State, r: nat): State
    requires r < |s.pending|
  {
    var Request(j, viewer, status) := s.pending[r];
    var rest := s.pending[..r] + s.pending[r + 1..];
    if j < |s.jobs| then
      State(s.jobs[j := s.jobs[j].(status := status)], rest,
            s.log + [Moved(j, viewer, s.jobs[j].status, status)])
    else
      s.(pending := rest)
  }

  function Step(s: State, e: Statement): State {
    match e
    case PostJob => s.(jobs := s.jobs + [Job(Pending, None)])
    case Accept(j, viewer) =>
      if Claimable(s, j) then
        s.(jobs := s.jobs[j := Job(Accepted, Some(viewer))], log := s.log + [Claimed(j, viewer)])
      else s
    case Check(j, viewer, status) =>
      if Permitted(s, j, viewer, status) then s.(pending := s.pending + [Request(j, viewer, status)]) else s
    case Write(r) => if r < |s.pending| then AfterWrite(s, r) else s
  }

  function Run(s: State, es: seq<Statement>): State {
    if es == [] then s else Step(Run(s, es[..|es| - 1]), es[|es| - 1])
  }

  const EMPTY := State([], [], [])

  // ----- every interleaving -----

  /** The couriers a job was claimed by. */
  function Claims(log: seq<Event>, j: nat): seq<nat> {
    if log == [] then []
    else
      var last := log[|log| - 1];
      Claims(log[..|log| - 1], j) + if last.Claimed? && last.job == j then [last.courier] else []
  }

  /** A job is pending and unclaimed, or was claimed once, by its courier. */
  ghost predicate JobOwned(s: State, j: nat) {
    if j < |s.jobs| && s.jobs[j].courier.Some? then
      s.jobs[j].status != Pending && Claims(s.log, j) == [s.jobs[j].courier.value]
    else
      (j < |s.jobs| ==> s.jobs[j].status == Pending) && Claims(s.log, j) == []
  }

  /** Requests on their way to write belong to the job's courier. */
  ghost predicate RequestsOwned(s: State) {
    forall r :: 0 <= r < |s.pending| ==>
      var Request(j, viewer, status) := s.pending[r];
      j < |s.jobs| && s.jobs[j].courier == Some(viewer) && status != Pending
  }

  /** Only the job's courier has moved it. */
  ghost predicate MovesOwned(s: State) {
    forall i :: 0 <= i < |s.log| && s.log[i].Moved? ==>
      s.log[i].job < |s.jobs| && s.jobs[s.log[i].job].courier == Some(s.log[i].mover)
  }

  ghost predicate Owned(s: State) {
    RequestsOwned(s) && MovesOwned(s) && forall j: nat :: JobOwned(s, j)
  }

  lemma StepKeepsJobOwned(s: State, e: Statement, j: nat)
    requires RequestsOwned(s) && JobOwned(s, j)
    ensures JobOwned(Step(s, e), j)
  {
    var t := Step(s, e);
    if |t.log| > |s.log| {
      assert t.log[..|t.log| - 1] == s.log;
    }
  }

  /** Nobody's job changes hands. */
  lemma StepKeepsCourier(s: State, e: Statement, j: nat)
    requires Owned(s) && j < |s.jobs| && s.jobs[j].courier.Some?
    ensures j < |Step(s, e).jobs| && Step(s, e).jobs[j].courier == s.jobs[j].courier
  {
    assert JobOwned(s, j);
    match e
    case PostJob =>
    case Accept(i, viewer) =>
    case Check(i, viewer, status) =>
    case Write(r) =>
      if r < |s.pending| {
        assert 0 <= s.pending[r].job;
      }
  }

  lemma StepKeepsRequests(s: State, e: Statement)
    requires Owned(s)
    ensures RequestsOwned(Step(s, e)) && MovesOwned(Step(s, e))
  {
    var t := Step(s, e);
    forall r | 0 <= r < |t.pending| && t.pending[r] in s.pending
      ensures t.pending[r].job < |t.jobs| && t.jobs[t.pending[r].job].courier == Some(t.pending[r].viewer)
    {
      StepKeepsCourier(s, e, t.pending[r].job);
    }
    forall i | 0 <= i < |s.log| && s.log[i].Moved?
      ensures s.log[i].job < |t.jobs| && t.jobs[s.log[i].job].courier == Some(s.log[i].mover)
    {
      StepKeepsCourier(s, e, s.log[i].job);
    }
  }

  lemma {:induction false} OwnershipHolds(es: seq<Statement>)
    ensures Owned(Run(EMPTY, es))
  {
    if es != [] {
      var s := Run(EMPTY, es[..|es| - 1]);
      OwnershipHolds(es[..|es| - 1]);
      var e := es[|es| - 1];
      var t := Step(s, e);
      forall j: nat ensures JobOwned(t, j) {
        StepKeepsJobOwned(s, e, j);
      }
      StepKeepsRequests(s, e);
    }
  }

  /** Under every interleaving at most one accept succeeds on a job. */
  lemma OneClaimPerJob(es: seq<Statement>, j: nat)
    ensures |Claims(Run(EMPTY, es).log, j)| <= 1
  {
    OwnershipHolds(es);
    assert JobOwned(Run(EMPTY, es), j);
  }

  /** Once a job has a courier it keeps that courier, and every status change it
      ever had was made by that courier. */
  lemma {:induction false} CourierIsForGood(es: seq<Statement>, more: seq<Statement>, j: nat)
    requires var s := Run(EMPTY, es); j < |s.jobs| && s.jobs[j].courier.Some?
    ensures var s, t := Run(EMPTY, es), Run(EMPTY, es + more);
      && j < |t.jobs| && t.jobs[j].courier == s.jobs[j].courier
      && forall i :: 0 <= i < |t.log| && t.log[i].Moved? && t.log[i].job == j ==>
                       Some(t.log[i].mover) == s.jobs[j].courier
  {
    OwnershipHolds(es + more);
    if more == [] {
      assert es + more == es;
    } else {
      var shorter := more[..|more| - 1];
      assert (es + more)[..|es + more| - 1] == es + shorter;
      CourierIsForGood(es, shorter, j);
      OwnershipHolds(es + shorter);
      StepKeepsCourier(Run(EMPTY, es + shorter), more[|more| - 1], j);
    }
  }

  /** Between its check and its write another request can run, so the status
      may go back: two requests of the same courier take a job from delivered
      to picked up. */
  lemma OverlappingRequestsGoBack()
    ensures var s := Run(EMPTY, [PostJob, Accept(0, 7), Check(0, 7, Delivered), Check(0, 7, PickedUp),
                                 Write(0), Write(0)]);
      s.log == [Claimed(0, 7), Moved(0, 7, Accepted, Delivered), Moved(0, 7, Delivered, PickedUp)]
  {
    var e1, e2, e3 := [PostJob], [PostJob, Accept(0, 7)], [PostJob, Accept(0, 7), Check(0, 7, Delivered)];
    var e4 := e3 + [Check(0, 7, PickedUp)];
    var e5, e6 := e4 + [Write(0)], e4 + [Write(0)] + [Write(0)];
    assert e1[..0] == [] && e2[..1] == e1 && e3[..2] == e2 && e4[..3] == e3 && e5[..4] == e4 && e6[..5] == e5;
    assert Run(EMPTY, e2) == State([Job(Accepted, Some(7))], [], [Claimed(0, 7)]);
    assert Run(EMPTY, e4).pending == [Request(0, 7, Delivered), Request(0, 7, PickedUp)];
    assert Run(EMPTY, e5).pending == [Request(0, 7, PickedUp)];
    assert e6 == [PostJob, Accept(0, 7), Check(0, 7, Delivered), Check(0, 7, PickedUp), Write(0), Write(0)];
  }

  /** Exactly when a write moves the job forward: when its request would still
      be permitted now. */
  lemma WriteClimbsIff(s: State, r: nat)
    requires Owned(s) && r < |s.pending|
    ensures var Request(j, viewer, status) := s.pending[r];
      && 0 <= j < |s.jobs| && j < |Step(s, Write(r)).jobs|
      && (Rank(Step(s, Write(r)).jobs[j].status) > Rank(s.jobs[j].status) <==> Permitted(s, j, viewer, status))
  {
    var Request(j, viewer, status) := s.pending[r];
    assert JobOwned(s, j);
  }

  // ----- handlers that do not overlap -----

  function Rank(status: Status): nat {
    match status
    case Pending => 0
    case Accepted => 1
    case PickedUp => 2
    case Delivered => 3
  }

  datatype Handler = Post | AcceptJob(job: nat, viewer: nat) | UpdateStatus(job: nat, viewer: nat, status: Status)

  /** A whole handler: its statements with nothing in between. */
  function Whole(s: State, h: Handler): State {
    match h
    case Post => Step(s, PostJob)
    case AcceptJob(j, viewer) => Step(s, Accept(j, viewer))
    case UpdateStatus(j, viewer, status) =>
      var checked := Step(s, Check(j, viewer, status));
      if checked == s then s else Step(checked, Write(|s.pending|))
  }

  function RunWhole(s: State, hs: seq<Handler>): State {
    if hs == [] then s else Whole(RunWhole(s, hs[..|hs| - 1]), hs[|hs| - 1])
  }

  /** How often a job was written to. */
  function Updates(log: seq<Event>, j: nat): nat {
    if log == [] then 0
    else Updates(log[..|log| - 1], j) + if log[|log| - 1].job == j then 1 else 0
  }

  ghost predicate Climbing(s: State, j: nat) {
    Updates(s.log, j) <= if j < |s.jobs| then Rank(s.jobs[j].status) else 0
  }

  /** A whole handler leaves a job alone or raises its rank, and writes to it
      once exactly when it raises the rank. */
  lemma WholeClimbs(s: State, h: Handler, j: nat)
    requires j < |s.jobs|
    ensures var t := Whole(s, h);
      && j < |t.jobs|
      && (t.jobs[j] != s.jobs[j] <==> Rank(t.jobs[j].status) > Rank(s.jobs[j].status))
      && Updates(t.log, j) == Updates(s.log, j) + (if t.jobs[j] != s.jobs[j] then 1 else 0)
  {
    var t := Whole(s, h);
    if |t.log| > |s.log| {
      assert t.log[..|t.log| - 1] == s.log;
    }
  }

  lemma WholeKeepsClimbing(s: State, h: Handler, j: nat)
    requires Climbing(s, j)
    ensures Climbing(Whole(s, h), j)
  {
    if j < |s.jobs| {
      WholeClimbs(s, h, j);
    } else {
      var t := Whole(s, h);
      if |t.log| > |s.log| {
        assert t.log[..|t.log| - 1] == s.log;
      }
    }
  }

  /** With handlers that do not overlap a job takes at most three updates. */
  lemma {:induction false} AtMostThreeUpdates(hs: seq<Handler>, j: nat)
    ensures Climbing(RunWhole(EMPTY, hs), j)
    ensures Updates(RunWhole(EMPTY, hs).log, j) <= 3
  {
    if hs != [] {
      AtMostThreeUpdates(hs[..|hs| - 1], j);
      WholeKeepsClimbing(RunWhole(EMPTY, hs[..|hs| - 1]), hs[|hs| - 1], j);
    }
  }

  // ----- the handlers over the rows -----

  class Dispatch {
    var jobs: seq<Job>

    constructor (jobs: seq<Job>)
      ensures this.jobs == jobs
    {
      this.jobs := jobs;
    }

    method AcceptJob(j: nat, viewer: nat) returns (claimed: bool)
      modifies this
      ensures claimed == (j < |old(jobs)| && old(jobs)[j].status == Pending)
      ensures jobs == Whole(State(old(jobs), [], []), Handler.AcceptJob(j, viewer)).jobs
    {
      claimed := j < |jobs| && jobs[j].status == Pending;
      if claimed {
        jobs := jobs[j := Job(Accepted, Some(viewer))];
      }
    }

    method UpdateJobStatus(j: nat, viewer: nat, status: Status) returns (updated: bool)
      modifies this
      ensures updated == Permitted(State(old(jobs), [], []), j, viewer, status)
      ensures jobs == Whole(State(old(jobs), [], []), UpdateStatus(j, viewer, status)).jobs
    {
      updated := false;
      if status == Pending || j >= |jobs| || jobs[j].courier != Some(viewer) {
        return;
      }
      var candidates := NextStatuses(jobs[j].status);
      for i := 0 to |candidates|
        invariant updated == (status in candidates[..i])
      {
        if candidates[i] == status {
          updated := true;
          break;
        }
      }
      if updated {
        jobs := jobs[j := jobs[j].(status := status)];
      }
    }
  }
}
