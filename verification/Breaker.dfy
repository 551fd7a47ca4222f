/** The per-upstream circuit breaker and the HTTP client that it guards. */
module Breaker {
  import opened Prelude
  import opened Pacing

  datatype State = State(failures: nat, openedAt: Option<real>)

  const CLOSED: State := State(0, None)

  predicate Lets(cooldown: real, b: State, now: real) {
    b.openedAt.None? || now - b.openedAt.value >= cooldown
  }

  function AfterBefore(cooldown: real, b: State, now: real): (b': State) {
    if Lets(cooldown, b, now) then b.(openedAt := None) else b
  }

  function AfterFailure(threshold: int, b: State, now: real): (b': State) {
    State(b.failures + 1, if b.failures + 1 >= threshold then Some(now) else b.openedAt)
  }

  class CircuitBreaker {
    const threshold: int
    const cooldown: real
    var failures: nat
    var openedAt: Option<real>

    ghost function View(): (b: State)
      reads this
    {
      State(failures, openedAt)
    }

    constructor (failureThreshold: int, cooldownSec: real)
      requires failureThreshold > 0 && cooldownSec > 0.0
      ensures threshold == failureThreshold && cooldown == cooldownSec && View() == CLOSED
    {
      this.threshold := failureThreshold;
      this.cooldown := cooldownSec;
      this.failures := 0;
      this.openedAt := None;
    }

    /** The constructor raises on settings that are not positive. */
    static method Create(failureThreshold: int, cooldownSec: real) returns (r: Option<CircuitBreaker>)
      ensures r.None? <==> failureThreshold <= 0 || cooldownSec <= 0.0
      ensures r.Some? ==> fresh(r.value) && r.value.View() == CLOSED
      ensures r.Some? ==> r.value.threshold == failureThreshold && r.value.cooldown == cooldownSec
    {
      if failureThreshold <= 0 || cooldownSec <= 0.0 {
        return None;
      }
      var b := new CircuitBreaker(failureThreshold, cooldownSec);
      return Some(b);
    }

    /** False stands for CircuitOpenError. */
    method Before(now: real) returns (ok: bool)
      modifies this
      ensures ok == Lets(cooldown, old(View()), now)
      ensures View() == AfterBefore(cooldown, old(View()), now)
    {
      if openedAt == None {
        return true;
      }
      if now - openedAt.value < cooldown {
        return false;
      }
      openedAt := None;
      return true;
    }

    method RecordSuccess()
      modifies this
      ensures View() == CLOSED
    {
      failures := 0;
      openedAt := None;
    }

    method RecordFailure(now: real)
      modifies this
      ensures View() == AfterFailure(threshold, old(View()), now)
    {
      failures := failures + 1;
      if failures >= threshold {
        openedAt := Some(now);
      }
    }
  }

  // ---------- any interleaving of breaker steps ----------

  /** Each method runs under the lock, so overlapping requests interleave whole steps. */
  datatype Step = Asks(at: real) | Succeeds(at: real) | Fails(at: real)

  function Stepped(threshold: int, cooldown: real, b: State, s: Step): (b': State) {
    match s
    case Asks(t) => AfterBefore(cooldown, b, t)
    case Succeeds(_) => CLOSED
    case Fails(t) => AfterFailure(threshold, b, t)
  }

  function StateAfter(threshold: int, cooldown: real, steps: seq<Step>, k: nat): (b: State)
    requires k <= |steps|
    decreases k
  {
    if k == 0 then CLOSED else Stepped(threshold, cooldown, StateAfter(threshold, cooldown, steps, k - 1), steps[k - 1])
  }

  /** The failures recorded among the first k steps since the last recorded success. */
  function FailuresSinceSuccess(steps: seq<Step>, k: nat): (n: nat)
    requires k <= |steps|
    decreases k
  {
    if k == 0 || steps[k - 1].Succeeds? then 0
    else FailuresSinceSuccess(steps, k - 1) + if steps[k - 1].Fails? then 1 else 0
  }

  /** In every interleaving the counter is exact, and an open breaker has reached its threshold. */
  lemma {:induction false} CounterExact(threshold: int, cooldown: real, steps: seq<Step>, k: nat)
    requires k <= |steps|
    ensures var b := StateAfter(threshold, cooldown, steps, k);
      && b.failures == FailuresSinceSuccess(steps, k)
      && (b.openedAt.Some? ==> b.failures >= threshold)
    decreases k
  {
    if k > 0 {
      CounterExact(threshold, cooldown, steps, k - 1);
    }
  }

  ghost predicate StepsInOrder(steps: seq<Step>) {
    forall i, j :: 0 <= i <= j < |steps| ==> steps[i].at <= steps[j].at
  }

  /** After an opening failure the breaker stays open, at least as recently, until the cooldown has
      passed or a success is recorded. */
  lemma {:induction false} StaysOpen(threshold: int, cooldown: real, steps: seq<Step>, i: nat, k: nat)
    requires StepsInOrder(steps) && i < k <= |steps|
    requires steps[i].Fails? && StateAfter(threshold, cooldown, steps, i).failures + 1 >= threshold
    requires forall j :: i < j < k ==> !steps[j].Succeeds? && steps[j].at < steps[i].at + cooldown
    ensures var b := StateAfter(threshold, cooldown, steps, k);
      b.openedAt.Some? && b.openedAt.value >= steps[i].at
    decreases k
  {
    if k > i + 1 {
      StaysOpen(threshold, cooldown, steps, i, k - 1);
    }
  }

  /** So no request gets in during the cooldown, however the requests overlap, unless some success
      is recorded in between. */
  lemma NobodyPassesWhileOpen(threshold: int, cooldown: real, steps: seq<Step>, i: nat, k: nat)
    requires StepsInOrder(steps) && i < k < |steps|
    requires steps[i].Fails? && FailuresSinceSuccess(steps, i + 1) >= threshold
    requires steps[k].Asks? && steps[k].at < steps[i].at + cooldown
    requires forall j :: i < j < k ==> !steps[j].Succeeds?
    ensures !Lets(cooldown, StateAfter(threshold, cooldown, steps, k), steps[k].at)
  {
    CounterExact(threshold, cooldown, steps, i);
    assert forall j :: i < j < k ==> steps[j].at <= steps[k].at;
    StaysOpen(threshold, cooldown, steps, i, k);
  }

  ghost predicate NoSuccess(steps: seq<Step>, j: nat, k: nat)
    requires k <= |steps|
  {
    forall m :: j < m < k ==> !steps[m].Succeeds?
  }

  /** Every failure recorded strictly between the two steps has cooled down by step k. */
  ghost predicate FailuresCooled(cooldown: real, steps: seq<Step>, j: nat, k: nat)
    requires k < |steps|
  {
    forall m :: j < m < k && steps[m].Fails? ==> steps[k].at - steps[m].at >= cooldown
  }

  lemma {:induction false} CountOnlyGrows(steps: seq<Step>, j: nat, k: nat)
    requires j < k <= |steps| && !steps[j].Succeeds? && NoSuccess(steps, j, k)
    ensures FailuresSinceSuccess(steps, j) <= FailuresSinceSuccess(steps, k)
    decreases k
  {
    if j + 1 < k {
      CountOnlyGrows(steps, j, k - 1);
    }
  }

  /** After a trial has passed, an open breaker was opened by a failure recorded since. */
  lemma {:induction false} OpenedSince(threshold: int, cooldown: real, steps: seq<Step>, j: nat, k: nat)
    requires j < k <= |steps| && steps[j].Asks?
    requires Lets(cooldown, StateAfter(threshold, cooldown, steps, j), steps[j].at)
    ensures var b := StateAfter(threshold, cooldown, steps, k);
      b.openedAt.Some? ==> exists m :: j < m < k && steps[m].Fails? && b.openedAt.value == steps[m].at
    decreases k
  {
    if k > j + 1 {
      OpenedSince(threshold, cooldown, steps, j, k - 1);
    }
  }

  lemma FailureShuts(threshold: int, cooldown: real, steps: seq<Step>, j: nat, m: nat, k: nat)
    requires StepsInOrder(steps) && j < m < k < |steps| && steps[j].Asks? && steps[m].Fails? && steps[k].Asks?
    requires FailuresSinceSuccess(steps, j) >= threshold && NoSuccess(steps, j, k)
    requires steps[k].at < steps[m].at + cooldown
    ensures !Lets(cooldown, StateAfter(threshold, cooldown, steps, k), steps[k].at)
  {
    CountOnlyGrows(steps, j, m + 1);
    NobodyPassesWhileOpen(threshold, cooldown, steps, m, k);
  }

  /** How many requests the half-open breaker lets through: after a trial has passed, and until a
      success is recorded, another request passes if and only if each failure recorded since the
      trial has cooled down. */
  lemma HalfOpenExact(threshold: int, cooldown: real, steps: seq<Step>, j: nat, k: nat)
    requires StepsInOrder(steps) && j < k < |steps| && steps[j].Asks? && steps[k].Asks?
    requires FailuresSinceSuccess(steps, j) >= threshold && NoSuccess(steps, j, k)
    requires Lets(cooldown, StateAfter(threshold, cooldown, steps, j), steps[j].at)
    ensures Lets(cooldown, StateAfter(threshold, cooldown, steps, k), steps[k].at)
       <==> FailuresCooled(cooldown, steps, j, k)
  {
    if FailuresCooled(cooldown, steps, j, k) {
      OpenedSince(threshold, cooldown, steps, j, k);
    } else {
      var m :| j < m < k && steps[m].Fails? && steps[k].at - steps[m].at < cooldown;
      FailureShuts(threshold, cooldown, steps, j, m, k);
    }
  }

  /** So the trial is not a single one: of two requests that overlap, both pass. */
  lemma TwoTrials()
    ensures var steps := [Fails(0.0), Asks(30.0), Asks(30.0)];
      && StateAfter(1, 30.0, steps, 1).openedAt == Some(0.0)
      && Lets(30.0, StateAfter(1, 30.0, steps, 1), 30.0)
      && Lets(30.0, StateAfter(1, 30.0, steps, 2), 30.0)
  {
    var steps := [Fails(0.0), Asks(30.0), Asks(30.0)];
    assert StateAfter(1, 30.0, steps, 0) == CLOSED;
    assert StateAfter(1, 30.0, steps, 1) == State(1, Some(0.0));
  }

  // ---------- the client ----------

  datatype Reply = Response(status: int) | TransportError | OtherError

  datatype Result = Rejected | Raised(reply: Reply) | Returned(status: int)

  /** raise_for_status is called for a status of 500 or more. */
  predicate Failing(r: Reply) {
    !r.Response? || r.status >= 500
  }

  predicate Retried(r: Reply) {
    r.TransportError? || (r.Response? && r.status >= 500)
  }

  /** How many attempts one call makes when the transport answers with `replies` in turn. */
  function Attempts(replies: seq<Reply>): (n: nat)
    requires |replies| == 3
  {
    if !Retried(replies[0]) then 1 else if !Retried(replies[1]) then 2 else 3
  }

  /** The retried call: up to three attempts, the reply of the last one is what the caller sees. */
  method DoRequest(replies: seq<Reply>) returns (last: Reply, attempts: nat)
    requires |replies| == 3
    ensures 1 <= attempts <= 3 && last == replies[attempts - 1]
    ensures forall i :: 0 <= i < attempts - 1 ==>
      replies[i].TransportError? || (replies[i].Response? && replies[i].status >= 500)
    ensures attempts < 3 ==> last.OtherError? || (last.Response? && last.status < 500)
    ensures attempts == Attempts(replies)
  {
    attempts := 1;
    while attempts < 3 && Retried(replies[attempts - 1])
      invariant 1 <= attempts <= 3
      invariant forall i :: 0 <= i < attempts - 1 ==> Retried(replies[i])
    {
      attempts := attempts + 1;
    }
    last := replies[attempts - 1];
  }

  /** One logical request: when it asks the breaker, when its outcome is recorded, and what the
      transport answers to its attempts. */
  datatype Request = Request(asked: real, recorded: real, replies: seq<Reply>)

  function LastReply(replies: seq<Reply>): (r: Reply)
    requires |replies| == 3
  {
    replies[Attempts(replies) - 1]
  }

  function Requested(threshold: int, cooldown: real, b: State, q: Request): (b': State)
    requires |q.replies| == 3
  {
    if !Lets(cooldown, b, q.asked) then b
    else if Failing(LastReply(q.replies)) then AfterFailure(threshold, AfterBefore(cooldown, b, q.asked), q.recorded)
    else CLOSED
  }

  class SecureHTTPClient {
    const breaker: CircuitBreaker

    constructor (breaker: CircuitBreaker)
      ensures this.breaker == breaker
    {
      this.breaker := breaker;
    }

    /** Retries do not count: one request is one signal to the breaker, and a rejected one is none. */
    method Send(q: Request) returns (r: Result, attempts: nat)
      requires |q.replies| == 3
      modifies breaker
      ensures breaker.View() == Requested(breaker.threshold, breaker.cooldown, old(breaker.View()), q)
      ensures r.Rejected? <==> !Lets(breaker.cooldown, old(breaker.View()), q.asked)
      ensures r.Rejected? ==> attempts == 0
      ensures !r.Rejected? ==> attempts == Attempts(q.replies)
      ensures !r.Rejected? ==>
        var last := LastReply(q.replies);
        r == if last.Response? && last.status < 500 then Returned(last.status) else Raised(last)
    {
      var ok := breaker.Before(q.asked);
      if !ok {
        return Rejected, 0;
      }
      var last;
      last, attempts := DoRequest(q.replies);
      if Failing(last) {
        breaker.RecordFailure(q.recorded);
        return Raised(last), attempts;
      }
      breaker.RecordSuccess();
      return Returned(last.status), attempts;
    }
  }

  // ---------- requests that do not overlap ----------

  /** What a request that has passed records: a success exactly when the last reply has a status below 500. */
  function Recorded(q: Request): (s: Step)
    requires |q.replies| == 3
  {
    match LastReply(q.replies)
    case Response(status) => if status < 500 then Succeeds(q.recorded) else Fails(q.recorded)
    case _ => Fails(q.recorded)
  }

  ghost predicate ThreeReplies(qs: seq<Request>) {
    forall i :: 0 <= i < |qs| ==> |qs[i].replies| == 3
  }

  /** The breaker after the first k requests. */
  function BreakerAfter(threshold: int, cooldown: real, qs: seq<Request>, k: nat): (b: State)
    requires k <= |qs| && ThreeReplies(qs)
  {
    RunAfter(threshold, cooldown, qs, k).b
  }

  /** What these requests do to the breaker: each asks, and records if it has passed. */
  function StepsOf(threshold: int, cooldown: real, qs: seq<Request>, k: nat): (steps: seq<Step>)
    requires k <= |qs| && ThreeReplies(qs)
    decreases k
  {
    if k == 0 then []
    else
      var q, b := qs[k - 1], BreakerAfter(threshold, cooldown, qs, k - 1);
      StepsOf(threshold, cooldown, qs, k - 1) + [Asks(q.asked)]
      + if Lets(cooldown, b, q.asked) then [Recorded(q)] else []
  }

  lemma {:induction false} StatePrefix(threshold: int, cooldown: real, steps: seq<Step>, more: seq<Step>, k: nat)
    requires k <= |steps|
    ensures StateAfter(threshold, cooldown, steps + more, k) == StateAfter(threshold, cooldown, steps, k)
    decreases k
  {
    if k > 0 {
      StatePrefix(threshold, cooldown, steps, more, k - 1);
    }
  }

  lemma OneMoreStep(threshold: int, cooldown: real, steps: seq<Step>, s: Step)
    ensures StateAfter(threshold, cooldown, steps + [s], |steps| + 1)
         == Stepped(threshold, cooldown, StateAfter(threshold, cooldown, steps, |steps|), s)
  {
    StatePrefix(threshold, cooldown, steps, [s], |steps|);
  }

  lemma OneRequest(threshold: int, cooldown: real, b: State, q: Request)
    requires |q.replies| == 3
    ensures var asked := Stepped(threshold, cooldown, b, Asks(q.asked));
      Requested(threshold, cooldown, b, q)
      == if Lets(cooldown, b, q.asked) then Stepped(threshold, cooldown, asked, Recorded(q)) else asked
  {
  }

  /** The client is a run of breaker steps, so all that holds of those holds of it: in particular a
      success closes the breaker and starts the count afresh. */
  lemma {:induction false} RequestsAreSteps(threshold: int, cooldown: real, qs: seq<Request>, k: nat)
    requires k <= |qs| && ThreeReplies(qs)
    ensures var steps := StepsOf(threshold, cooldown, qs, k);
      BreakerAfter(threshold, cooldown, qs, k) == StateAfter(threshold, cooldown, steps, |steps|)
    decreases k
  {
    if k > 0 {
      RequestsAreSteps(threshold, cooldown, qs, k - 1);
      var q, b := qs[k - 1], BreakerAfter(threshold, cooldown, qs, k - 1);
      var steps := StepsOf(threshold, cooldown, qs, k - 1);
      OneMoreStep(threshold, cooldown, steps, Asks(q.asked));
      OneMoreStep(threshold, cooldown, steps + [Asks(q.asked)], Recorded(q));
      OneRequest(threshold, cooldown, b, q);
      assert StepsOf(threshold, cooldown, qs, k)
          == if Lets(cooldown, b, q.asked) then (steps + [Asks(q.asked)]) + [Recorded(q)] else steps + [Asks(q.asked)];
    }
  }

  /** How many of the first k requests have failed since the last one that succeeded. */
  function FailedSinceSuccess(threshold: int, cooldown: real, qs: seq<Request>, k: nat): (n: nat)
    requires k <= |qs| && ThreeReplies(qs)
    decreases k
  {
    if k == 0 then 0
    else if !Lets(cooldown, BreakerAfter(threshold, cooldown, qs, k - 1), qs[k - 1].asked)
    then FailedSinceSuccess(threshold, cooldown, qs, k - 1)
    else if Recorded(qs[k - 1]).Succeeds? then 0
    else FailedSinceSuccess(threshold, cooldown, qs, k - 1) + 1
  }

  /** Over any run of requests the counter is the number of requests that have passed and failed since the
      last one that succeeded; rejected requests do not count. */
  lemma {:induction false} RequestsCounted(threshold: int, cooldown: real, qs: seq<Request>, k: nat)
    requires k <= |qs| && ThreeReplies(qs)
    ensures var b := BreakerAfter(threshold, cooldown, qs, k);
      && b.failures == FailedSinceSuccess(threshold, cooldown, qs, k)
      && (k > 0 && Recorded(qs[k - 1]).Succeeds? ==>
            Lets(cooldown, BreakerAfter(threshold, cooldown, qs, k - 1), qs[k - 1].asked) ==> b == CLOSED)
    decreases k
  {
    if k > 0 {
      RequestsCounted(threshold, cooldown, qs, k - 1);
      OneRequest(threshold, cooldown, BreakerAfter(threshold, cooldown, qs, k - 1), qs[k - 1]);
    }
  }

  // ---------- an outage ----------

  ghost predicate Outage(qs: seq<Request>) {
    forall i :: 0 <= i < |qs| ==>
      |qs[i].replies| == 3 && forall j :: 0 <= j < 3 ==> Failing(qs[i].replies[j])
  }

  /** The requests do not overlap. */
  ghost predicate OneAtATime(qs: seq<Request>) {
    && (forall i :: 0 <= i < |qs| ==> qs[i].asked <= qs[i].recorded)
    && (forall i, j :: 0 <= i < j < |qs| ==> qs[i].recorded <= qs[j].asked)
  }

  /** The breaker after the first k requests; for those that passed, when they asked and when their
      outcome was recorded and how many transport attempts they made. */
  datatype Run = Run(b: State, passes: seq<real>, recorded: seq<real>, attempts: seq<nat>)

  function RunAfter(threshold: int, cooldown: real, qs: seq<Request>, k: nat): (r: Run)
    requires k <= |qs| && ThreeReplies(qs)
    decreases k
  {
    if k == 0 then Run(CLOSED, [], [], [])
    else
      var r, q := RunAfter(threshold, cooldown, qs, k - 1), qs[k - 1];
      var b' := Requested(threshold, cooldown, r.b, q);
      if Lets(cooldown, r.b, q.asked)
      then Run(b', r.passes + [q.asked], r.recorded + [q.recorded], r.attempts + [Attempts(q.replies)])
      else r.(b := b')
  }

  /** What holds throughout an outage: only requests that passed are counted, and from the
      threshold on the breaker is open since the latest recorded failure. */
  ghost predicate OutageInvariant(threshold: int, cooldown: real, r: Run, now: real) {
    && r.b.failures == |r.passes| == |r.recorded| == |r.attempts|
    && (|r.passes| < threshold ==> r.b.openedAt == None)
    && (|r.passes| >= threshold && |r.passes| > 0 ==>
          && r.b.openedAt == Some(r.recorded[|r.recorded| - 1])
          && r.passes[|r.passes| - 1] <= r.recorded[|r.recorded| - 1] <= now)
    && (forall i :: 0 <= i < |r.passes| ==> r.passes[i] <= now)
    && (forall i, j :: 0 <= i <= j < |r.passes| ==> r.passes[i] <= r.passes[j])
    && Paced(if threshold < 0 then 0 else threshold, cooldown, r.passes)
    && (forall i :: 0 <= i < |r.attempts| ==> r.attempts[i] <= 3)
  }

  lemma {:induction false} OutageHolds(threshold: int, cooldown: real, qs: seq<Request>, k: nat, now: real)
    requires threshold > 0 && cooldown > 0.0 && Outage(qs) && OneAtATime(qs) && k <= |qs|
    requires k > 0 ==> qs[k - 1].recorded <= now
    ensures OutageInvariant(threshold, cooldown, RunAfter(threshold, cooldown, qs, k), now)
    decreases k
  {
    if k > 0 {
      var q := qs[k - 1];
      OutageHolds(threshold, cooldown, qs, k - 1, q.asked);
      OutageStep(threshold, cooldown, RunAfter(threshold, cooldown, qs, k - 1), q, now);
    }
  }

  lemma OutageStep(threshold: int, cooldown: real, r: Run, q: Request, now: real)
    requires threshold > 0 && cooldown > 0.0 && OutageInvariant(threshold, cooldown, r, q.asked)
    requires |q.replies| == 3 && (forall j :: 0 <= j < 3 ==> Failing(q.replies[j]))
    requires q.asked <= q.recorded <= now
    ensures !Lets(cooldown, r.b, q.asked) ==> OutageInvariant(threshold, cooldown, r, now)
    ensures Lets(cooldown, r.b, q.asked) ==>
      OutageInvariant(threshold, cooldown,
        Run(Requested(threshold, cooldown, r.b, q), r.passes + [q.asked], r.recorded + [q.recorded],
            r.attempts + [Attempts(q.replies)]), now)
  {
    var p := r.passes + [q.asked];
    assert forall i :: 0 <= i < |r.passes| ==> p[i] == r.passes[i];
  }

  function Sum(ns: seq<nat>): (n: nat) {
    if ns == [] then 0 else ns[0] + Sum(ns[1..])
  }

  lemma {:induction false} SumAtMost(ns: seq<nat>, each: nat)
    requires forall i :: 0 <= i < |ns| ==> ns[i] <= each
    ensures Sum(ns) <= each * |ns|
  {
    if ns != [] {
      SumAtMost(ns[1..], each);
    }
  }

  /** In an outage of any length, within any T seconds at most threshold + floor(T / cooldown)
      requests pass the breaker, and they make at most three times as many transport attempts. */
  lemma OutageBound(threshold: int, cooldown: real, qs: seq<Request>, a: nat, z: nat, span: real)
    requires threshold > 0 && cooldown > 0.0 && Outage(qs) && OneAtATime(qs)
    requires var p := RunAfter(threshold, cooldown, qs, |qs|).passes;
      a <= z < |p| && p[z] - p[a] <= span
    ensures var r := RunAfter(threshold, cooldown, qs, |qs|);
      && z - a + 1 <= threshold + (span / cooldown).Floor
      && |r.attempts| == |r.passes|
      && Sum(r.attempts[a..z + 1]) <= 3 * (threshold + (span / cooldown).Floor)
  {
    var now := if qs == [] then 0.0 else qs[|qs| - 1].recorded;
    var r := RunAfter(threshold, cooldown, qs, |qs|);
    OutageHolds(threshold, cooldown, qs, |qs|, now);
    PacedWindow(threshold, cooldown, r.passes, a, z, span);
    SumAtMost(r.attempts[a..z + 1], 3);
  }

  /** A request of an outage passes exactly when the threshold is not reached or the cooldown has
      run out since the latest recorded failure. */
  lemma OutagePassIff(threshold: int, cooldown: real, qs: seq<Request>, k: nat)
    requires threshold > 0 && cooldown > 0.0 && Outage(qs) && OneAtATime(qs) && k < |qs|
    ensures var r := RunAfter(threshold, cooldown, qs, k);
      && |r.recorded| == |r.passes| == r.b.failures
      && (Lets(cooldown, r.b, qs[k].asked)
          <==> |r.passes| < threshold || qs[k].asked - r.recorded[|r.passes| - 1] >= cooldown)
  {
    OutageHolds(threshold, cooldown, qs, k, qs[k].asked);
  }
}
