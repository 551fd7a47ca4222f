/** The circuit breaker in an outage, under overlapping requests. */
module BreakerRuns {
  import opened Pacing
  import opened Breaker

  /** Step k is a request that the breaker lets pass. */
  predicate PassesAt(threshold: int, cooldown: real, steps: seq<Step>, k: nat)
    requires k < |steps|
  {
    steps[k].Asks? && Lets(cooldown, StateAfter(threshold, cooldown, steps, k), steps[k].at)
  }

  /** When the requests among the first k steps passed. */
  function PassTimes(threshold: int, cooldown: real, steps: seq<Step>, k: nat): (p: seq<real>)
    requires k <= |steps|
    decreases k
  {
    if k == 0 then []
    else if PassesAt(threshold, cooldown, steps, k - 1)
    then PassTimes(threshold, cooldown, steps, k - 1) + [steps[k - 1].at]
    else PassTimes(threshold, cooldown, steps, k - 1)
  }

  /** When the last failure among the first k steps was recorded. */
  function LatestFailure(steps: seq<Step>, k: nat): (t: real)
    requires k <= |steps|
    decreases k
  {
    if k == 0 then 0.0 else if steps[k - 1].Fails? then steps[k - 1].at else LatestFailure(steps, k - 1)
  }

  /** After k steps, every failure has been preceded by a request of its own that passed, and at most m
      requests have passed whose failure is still to be recorded. */
  ghost predicate UnderWay(threshold: int, cooldown: real, steps: seq<Step>, m: nat, k: nat)
    requires k <= |steps|
  {
    var failures := FailuresSinceSuccess(steps, k);
    failures <= |PassTimes(threshold, cooldown, steps, k)| <= failures + m
  }

  /** No request succeeds, and at most m requests are under way at once. */
  ghost predicate OutageAtOnce(threshold: int, cooldown: real, steps: seq<Step>, m: nat) {
    && m >= 1 && StepsInOrder(steps) && (forall k :: 0 <= k < |steps| ==> !steps[k].Succeeds?)
    && forall k: nat {:trigger UnderWay(threshold, cooldown, steps, m, k)} :: k <= |steps| ==>
         UnderWay(threshold, cooldown, steps, m, k)
  }

  /** The step of the last failure. */
  lemma {:induction false} LastFailure(steps: seq<Step>, k: nat) returns (i: nat)
    requires k <= |steps| && FailuresSinceSuccess(steps, k) > 0
    requires forall j :: 0 <= j < |steps| ==> !steps[j].Succeeds?
    ensures i < k && steps[i].Fails? && steps[i].at == LatestFailure(steps, k)
    ensures FailuresSinceSuccess(steps, i + 1) == FailuresSinceSuccess(steps, k)
    decreases k
  {
    if steps[k - 1].Fails? {
      i := k - 1;
    } else {
      i := LastFailure(steps, k - 1);
    }
  }

  /** A request that passes does so below the threshold, or a cooldown after the last failure. */
  lemma PassCooled(threshold: int, cooldown: real, steps: seq<Step>, k: nat)
    requires threshold > 0 && StepsInOrder(steps) && (forall j :: 0 <= j < |steps| ==> !steps[j].Succeeds?)
    requires k < |steps| && PassesAt(threshold, cooldown, steps, k)
    ensures FailuresSinceSuccess(steps, k) < threshold || steps[k].at - LatestFailure(steps, k) >= cooldown
  {
    if FailuresSinceSuccess(steps, k) >= threshold {
      var i := LastFailure(steps, k);
      if steps[k].at < steps[i].at + cooldown {
        NobodyPassesWhileOpen(threshold, cooldown, steps, i, k);
      }
    }
  }

  ghost predicate RoundsHold(threshold: int, cooldown: real, steps: seq<Step>, m: nat, k: nat, now: real)
    requires threshold >= 1 && k <= |steps|
  {
    RoundInvariant(threshold, cooldown, m, PassTimes(threshold, cooldown, steps, k),
                   FailuresSinceSuccess(steps, k), LatestFailure(steps, k), now)
  }

  lemma RoundsFirst(threshold: int, cooldown: real, steps: seq<Step>, m: nat, now: real)
    requires threshold > 0
    ensures RoundsHold(threshold, cooldown, steps, m, 0, now)
  {
  }

  /** The time by which the first k steps are over. */
  function Clock(steps: seq<Step>, k: nat): (now: real)
    requires k <= |steps|
  {
    if steps == [] then 0.0 else if k == 0 then steps[0].at else steps[k - 1].at
  }

  lemma RoundsStep(threshold: int, cooldown: real, steps: seq<Step>, m: nat, k: nat)
    requires threshold > 0 && OutageAtOnce(threshold, cooldown, steps, m) && k < |steps|
    requires RoundsHold(threshold, cooldown, steps, m, k, Clock(steps, k))
    ensures RoundsHold(threshold, cooldown, steps, m, k + 1, Clock(steps, k + 1))
  {
    var p, n, t := PassTimes(threshold, cooldown, steps, k), FailuresSinceSuccess(steps, k), LatestFailure(steps, k);
    RoundLater(threshold, cooldown, m, p, n, t, Clock(steps, k), steps[k].at);
    assert UnderWay(threshold, cooldown, steps, m, k + 1);
    if steps[k].Fails? {
      RoundFailure(threshold, cooldown, m, p, n, t, steps[k].at);
    } else if PassesAt(threshold, cooldown, steps, k) {
      PassCooled(threshold, cooldown, steps, k);
      RoundPass(threshold, cooldown, m, p, n, t, steps[k].at);
    }
  }

  lemma RoundsAlways(threshold: int, cooldown: real, steps: seq<Step>, m: nat)
    requires threshold > 0 && OutageAtOnce(threshold, cooldown, steps, m)
    ensures RoundsHold(threshold, cooldown, steps, m, |steps|, Clock(steps, |steps|))
  {
    RoundsFirst(threshold, cooldown, steps, m, Clock(steps, 0));
    for k := 0 to |steps|
      invariant RoundsHold(threshold, cooldown, steps, m, k, Clock(steps, k))
    {
      RoundsStep(threshold, cooldown, steps, m, k);
    }
  }

  /** In an outage with at most m requests under way at once, at most
      threshold - 1 + m * (1 + floor(T / cooldown)) requests pass the breaker within any T seconds. One
      request at a time makes that threshold + floor(T / cooldown). */
  lemma OverlappingOutageBound(threshold: int, cooldown: real, steps: seq<Step>, m: nat, a: nat, z: nat, span: real)
    requires threshold > 0 && cooldown > 0.0 && OutageAtOnce(threshold, cooldown, steps, m)
    requires var p := PassTimes(threshold, cooldown, steps, |steps|);
      a <= z < |p| && p[z] - p[a] <= span
    ensures z - a + 1 <= threshold - 1 + m * (1 + (span / cooldown).Floor)
  {
    RoundsAlways(threshold, cooldown, steps, m);
    RoundsWindow(threshold, cooldown, m, PassTimes(threshold, cooldown, steps, |steps|), Clock(steps, |steps|),
                 a, z, span);
  }
}
