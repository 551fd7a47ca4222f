/** The login throttle under overlapping attempts. */
module Lockout {
  import opened Pacing
  import opened Throttle

  /** Each method of the throttle runs under its lock, so overlapping attempts interleave whole steps:
      is_locked, record_failure and reset. A reading of the clock is taken before the lock. */
  datatype Step = Checks(source: string, at: real) | Records(source: string, at: real) | Forgets(source: string)

  function Stepped(maxFails: int, lockSec: real, m: Table, x: Step): (m': Table) {
    match x
    case Checks(_, _) => m
    case Records(s, t) => Failed(maxFails, lockSec, m, s, t)
    case Forgets(s) => m - {s}
  }

  function TableAfter(maxFails: int, lockSec: real, xs: seq<Step>, k: nat): (m: Table)
    requires k <= |xs|
    decreases k
  {
    if k == 0 then map[] else Stepped(maxFails, lockSec, TableAfter(maxFails, lockSec, xs, k - 1), xs[k - 1])
  }

  /** The failures of s recorded among the first k steps since s was last forgotten. */
  function FailuresOf(xs: seq<Step>, s: string, k: nat): (n: nat)
    requires k <= |xs|
    decreases k
  {
    if k == 0 || xs[k - 1] == Forgets(s) then 0
    else FailuresOf(xs, s, k - 1) + if xs[k - 1].source == s && xs[k - 1].Records? then 1 else 0
  }

  /** The reading of the failure of s that was recorded last. */
  function LatestOf(xs: seq<Step>, s: string, k: nat): (t: real)
    requires k <= |xs|
    decreases k
  {
    if k == 0 then 0.0
    else if xs[k - 1].source == s && xs[k - 1].Records? then xs[k - 1].at
    else LatestOf(xs, s, k - 1)
  }

  /** In every interleaving, the entry of a source shows its failures since it was last forgotten, and
      from the allowance on a lock that runs from the failure recorded last. */
  lemma {:induction false} EntryExact(maxFails: int, lockSec: real, xs: seq<Step>, s: string, k: nat)
    requires k <= |xs|
    ensures var e := Lookup(TableAfter(maxFails, lockSec, xs, k), s);
      && e.fails == FailuresOf(xs, s, k)
      && e.lockUntil == if e.fails >= Allowance(maxFails) then LatestOf(xs, s, k) + lockSec else 0.0
    decreases k
  {
    if k > 0 {
      EntryExact(maxFails, lockSec, xs, s, k - 1);
    }
  }

  /** Check number k is one of s, and it finds no lock. */
  predicate PassesAt(maxFails: int, lockSec: real, xs: seq<Step>, s: string, k: nat)
    requires k < |xs|
  {
    xs[k].Checks? && xs[k].source == s && !Locked(TableAfter(maxFails, lockSec, xs, k), s, xs[k].at)
  }

  /** Whatever the interleaving, a check passes exactly below the allowance or after the lock of the
      failure recorded last. */
  lemma PassExact(maxFails: int, lockSec: real, xs: seq<Step>, s: string, k: nat)
    requires k < |xs| && xs[k].Checks? && xs[k].source == s && xs[k].at >= 0.0
    ensures PassesAt(maxFails, lockSec, xs, s, k)
       <==> FailuresOf(xs, s, k) < Allowance(maxFails) || xs[k].at - LatestOf(xs, s, k) >= lockSec
  {
    EntryExact(maxFails, lockSec, xs, s, k);
  }

  // ---------- attempts that do not overlap ----------

  /** What an attempt does that is alone: it checks, and if it gets past, its failure is recorded or its
      source forgotten. */
  function StepsOfOne(m: Table, a: Attempt): (xs: seq<Step>) {
    [Checks(a.source, a.checkedAt)]
    + if Locked(m, a.source, a.checkedAt) || a.effect.Neutral? then []
      else if a.effect.Fails? then [Records(a.source, a.recordedAt)]
      else [Forgets(a.source)]
  }

  function StepsOf(maxFails: int, lockSec: real, s: string, tries: seq<Attempt>, k: nat): (xs: seq<Step>)
    requires k <= |tries|
    decreases k
  {
    if k == 0 then []
    else StepsOf(maxFails, lockSec, s, tries, k - 1)
         + StepsOfOne(RunAfter(maxFails, lockSec, s, tries, k - 1).m, tries[k - 1])
  }

  lemma {:induction false} TablePrefix(maxFails: int, lockSec: real, xs: seq<Step>, more: seq<Step>, k: nat)
    requires k <= |xs|
    ensures TableAfter(maxFails, lockSec, xs + more, k) == TableAfter(maxFails, lockSec, xs, k)
    decreases k
  {
    if k > 0 {
      TablePrefix(maxFails, lockSec, xs, more, k - 1);
    }
  }

  lemma OneMoreStep(maxFails: int, lockSec: real, xs: seq<Step>, x: Step)
    ensures TableAfter(maxFails, lockSec, xs + [x], |xs| + 1)
         == Stepped(maxFails, lockSec, TableAfter(maxFails, lockSec, xs, |xs|), x)
  {
    TablePrefix(maxFails, lockSec, xs, [x], |xs|);
  }

  lemma OneAttempt(maxFails: int, lockSec: real, xs: seq<Step>, m: Table, a: Attempt)
    requires TableAfter(maxFails, lockSec, xs, |xs|) == m
    ensures var ys := xs + StepsOfOne(m, a);
      TableAfter(maxFails, lockSec, ys, |ys|) == Tried(maxFails, lockSec, m, a)
  {
    var check := Checks(a.source, a.checkedAt);
    OneMoreStep(maxFails, lockSec, xs, check);
    if Locked(m, a.source, a.checkedAt) || a.effect.Neutral? {
      assert xs + StepsOfOne(m, a) == xs + [check];
    } else {
      var x := if a.effect.Fails? then Records(a.source, a.recordedAt) else Forgets(a.source);
      OneMoreStep(maxFails, lockSec, xs + [check], x);
      assert xs + StepsOfOne(m, a) == (xs + [check]) + [x];
    }
  }

  /** The endpoints are a run of throttle steps, so what holds of those holds of them. */
  lemma {:induction false} AttemptsAreSteps(maxFails: int, lockSec: real, s: string, tries: seq<Attempt>, k: nat)
    requires k <= |tries|
    ensures var xs := StepsOf(maxFails, lockSec, s, tries, k);
      RunAfter(maxFails, lockSec, s, tries, k).m == TableAfter(maxFails, lockSec, xs, |xs|)
    decreases k
  {
    if k > 0 {
      AttemptsAreSteps(maxFails, lockSec, s, tries, k - 1);
      OneAttempt(maxFails, lockSec, StepsOf(maxFails, lockSec, s, tries, k - 1),
                 RunAfter(maxFails, lockSec, s, tries, k - 1).m, tries[k - 1]);
    }
  }

  /** The readings of s come in the order of its steps. */
  ghost predicate InOrder(xs: seq<Step>, s: string) {
    forall i, j :: 0 <= i <= j < |xs| && TimedFor(xs[i], s) && TimedFor(xs[j], s) ==> xs[i].at <= xs[j].at
  }

  predicate TimedFor(x: Step, s: string) {
    x.source == s && !x.Forgets?
  }

  ghost predicate NotForgotten(xs: seq<Step>, s: string, i: nat, k: nat)
    requires k <= |xs|
  {
    forall j :: i <= j < k ==> xs[j] != Forgets(s)
  }

  lemma {:induction false} FailuresSince(xs: seq<Step>, s: string, i: nat, k: nat)
    requires InOrder(xs, s) && i < k <= |xs| && xs[i].Records? && xs[i].source == s && NotForgotten(xs, s, i, k)
    ensures FailuresOf(xs, s, i + 1) <= FailuresOf(xs, s, k) && xs[i].at <= LatestOf(xs, s, k)
    decreases k
  {
    if k > i + 1 {
      FailuresSince(xs, s, i, k - 1);
      assert TimedFor(xs[i], s);
    }
  }

  /** So after a failure that reaches the allowance nobody passes from that source for the lock time,
      however the attempts overlap, unless it is forgotten in between. */
  lemma NobodyPassesWhileLocked(maxFails: int, lockSec: real, xs: seq<Step>, s: string, i: nat, k: nat)
    requires InOrder(xs, s) && i < k < |xs| && xs[i].Records? && xs[i].source == s
    requires FailuresOf(xs, s, i + 1) >= Allowance(maxFails) && NotForgotten(xs, s, i, k)
    requires xs[k].Checks? && xs[k].source == s && xs[k].at < xs[i].at + lockSec
    ensures !PassesAt(maxFails, lockSec, xs, s, k)
  {
    FailuresSince(xs, s, i, k);
    EntryExact(maxFails, lockSec, xs, s, k);
  }

  /** The order of the readings is needed. The clock is read before the lock is taken, so of two
      failures the one with the earlier reading can be recorded last, and it shortens the lock. */
  lemma LateRecordShortensLock(s: string)
    ensures var xs := [Checks(s, 0.0), Checks(s, 0.0), Records(s, 2.0), Records(s, 1.0), Checks(s, 301.5)];
      && FailuresOf(xs, s, 3) >= Allowance(1)
      && xs[4].at < xs[2].at + 300.0
      && PassesAt(1, 300.0, xs, s, 4)
  {
    var xs := [Checks(s, 0.0), Checks(s, 0.0), Records(s, 2.0), Records(s, 1.0), Checks(s, 301.5)];
    assert FailuresOf(xs, s, 3) == FailuresOf(xs, s, 2) + 1;
    assert LatestOf(xs, s, 4) == 1.0;
    PassExact(1, 300.0, xs, s, 4);
  }

  // ---------- how much gets through ----------

  /** When the checks of s among the first k steps passed. */
  function PassTimes(maxFails: int, lockSec: real, xs: seq<Step>, s: string, k: nat): (p: seq<real>)
    requires k <= |xs|
    decreases k
  {
    if k == 0 then []
    else if PassesAt(maxFails, lockSec, xs, s, k - 1) then PassTimes(maxFails, lockSec, xs, s, k - 1) + [xs[k - 1].at]
    else PassTimes(maxFails, lockSec, xs, s, k - 1)
  }

  /** After k steps, every failure of s has been preceded by a pass of its own, and at most m attempts
      of s have passed whose failure is still to be recorded. */
  ghost predicate UnderWay(maxFails: int, lockSec: real, xs: seq<Step>, s: string, m: nat, k: nat)
    requires k <= |xs|
  {
    FailuresOf(xs, s, k) <= |PassTimes(maxFails, lockSec, xs, s, k)| <= FailuresOf(xs, s, k) + m
  }

  ghost predicate Overlapping(maxFails: int, lockSec: real, xs: seq<Step>, s: string, m: nat) {
    forall k: nat {:trigger UnderWay(maxFails, lockSec, xs, s, m, k)} :: k <= |xs| ==>
      UnderWay(maxFails, lockSec, xs, s, m, k)
  }

  /** All attempts of s fail, at most m of them are under way at once, and its readings are in order. */
  ghost predicate GuessingAtOnce(maxFails: int, lockSec: real, xs: seq<Step>, s: string, m: nat) {
    m >= 1 && InOrder(xs, s) && NotForgotten(xs, s, 0, |xs|) && Overlapping(maxFails, lockSec, xs, s, m)
  }

  ghost predicate RoundsHold(maxFails: int, lockSec: real, xs: seq<Step>, s: string, m: nat, k: nat, now: real)
    requires k <= |xs|
  {
    RoundInvariant(Allowance(maxFails), lockSec, m, PassTimes(maxFails, lockSec, xs, s, k),
                   FailuresOf(xs, s, k), LatestOf(xs, s, k), now)
  }

  lemma RoundStep(maxFails: int, lockSec: real, xs: seq<Step>, s: string, m: nat, k: nat)
    requires GuessingAtOnce(maxFails, lockSec, xs, s, m) && k < |xs| && TimedFor(xs[k], s)
    requires RoundsHold(maxFails, lockSec, xs, s, m, k, xs[k].at)
    ensures RoundsHold(maxFails, lockSec, xs, s, m, k + 1, xs[k].at)
  {
    var p, n, t := PassTimes(maxFails, lockSec, xs, s, k), FailuresOf(xs, s, k), LatestOf(xs, s, k);
    assert UnderWay(maxFails, lockSec, xs, s, m, k + 1);
    if xs[k].Records? {
      RoundFailure(Allowance(maxFails), lockSec, m, p, n, t, xs[k].at);
    } else if PassesAt(maxFails, lockSec, xs, s, k) {
      EntryExact(maxFails, lockSec, xs, s, k);
      RoundPass(Allowance(maxFails), lockSec, m, p, n, t, xs[k].at);
    }
  }

  lemma RoundElsewhere(maxFails: int, lockSec: real, xs: seq<Step>, s: string, m: nat, k: nat, now: real)
    requires NotForgotten(xs, s, 0, |xs|) && k < |xs| && !TimedFor(xs[k], s)
    requires RoundsHold(maxFails, lockSec, xs, s, m, k, now)
    ensures RoundsHold(maxFails, lockSec, xs, s, m, k + 1, now)
  {
    assert xs[k] != Forgets(s);
    assert FailuresOf(xs, s, k + 1) == FailuresOf(xs, s, k) && LatestOf(xs, s, k + 1) == LatestOf(xs, s, k);
    assert PassTimes(maxFails, lockSec, xs, s, k + 1) == PassTimes(maxFails, lockSec, xs, s, k);
  }

  lemma RoundsLater(maxFails: int, lockSec: real, xs: seq<Step>, s: string, m: nat, k: nat, earlier: real, now: real)
    requires k <= |xs| && RoundsHold(maxFails, lockSec, xs, s, m, k, earlier) && earlier <= now
    ensures RoundsHold(maxFails, lockSec, xs, s, m, k, now)
  {
    RoundLater(Allowance(maxFails), lockSec, m, PassTimes(maxFails, lockSec, xs, s, k),
               FailuresOf(xs, s, k), LatestOf(xs, s, k), earlier, now);
  }

  /** No reading of s from step k on is before now. */
  ghost predicate UpFrom(xs: seq<Step>, s: string, k: nat, now: real) {
    forall i :: k <= i < |xs| && TimedFor(xs[i], s) ==> now <= xs[i].at
  }

  lemma ReadingUpFrom(xs: seq<Step>, s: string, k: nat)
    requires InOrder(xs, s) && k < |xs| && TimedFor(xs[k], s)
    ensures UpFrom(xs, s, k + 1, xs[k].at)
  {
  }

  lemma RoundsNext(maxFails: int, lockSec: real, xs: seq<Step>, s: string, m: nat, k: nat, now: real)
    returns (now': real)
    requires GuessingAtOnce(maxFails, lockSec, xs, s, m) && k < |xs|
    requires RoundsHold(maxFails, lockSec, xs, s, m, k, now) && UpFrom(xs, s, k, now)
    ensures RoundsHold(maxFails, lockSec, xs, s, m, k + 1, now') && UpFrom(xs, s, k + 1, now')
  {
    if TimedFor(xs[k], s) {
      now' := xs[k].at;
      RoundsLater(maxFails, lockSec, xs, s, m, k, now, now');
      RoundStep(maxFails, lockSec, xs, s, m, k);
      ReadingUpFrom(xs, s, k);
    } else {
      now' := now;
      RoundElsewhere(maxFails, lockSec, xs, s, m, k, now);
    }
  }

  lemma RoundsAlways(maxFails: int, lockSec: real, xs: seq<Step>, s: string, m: nat) returns (now: real)
    requires GuessingAtOnce(maxFails, lockSec, xs, s, m)
    ensures RoundsHold(maxFails, lockSec, xs, s, m, |xs|, now)
  {
    now := EarliestReading(xs, s, |xs|);
    for k := 0 to |xs|
      invariant RoundsHold(maxFails, lockSec, xs, s, m, k, now) && UpFrom(xs, s, k, now)
    {
      now := RoundsNext(maxFails, lockSec, xs, s, m, k, now);
    }
  }

  lemma {:induction false} EarliestReading(xs: seq<Step>, s: string, k: nat) returns (now: real)
    requires k <= |xs|
    ensures forall i :: 0 <= i < k && TimedFor(xs[i], s) ==> now <= xs[i].at
    decreases k
  {
    if k == 0 {
      now := 0.0;
    } else {
      now := EarliestReading(xs, s, k - 1);
      if TimedFor(xs[k - 1], s) && xs[k - 1].at < now {
        now := xs[k - 1].at;
      }
    }
  }

  /** A source that keeps guessing wrong, with at most m attempts under way at once, gets past the lock
      at most max_fails - 1 + m * (1 + floor(T / lock_sec)) times within any T seconds. One attempt at
      a time makes that max_fails + floor(T / lock_sec). */
  lemma OverlappingGuessesBound(maxFails: int, lockSec: real, xs: seq<Step>, s: string, m: nat,
                                a: nat, z: nat, span: real)
    requires lockSec > 0.0 && GuessingAtOnce(maxFails, lockSec, xs, s, m)
    requires var p := PassTimes(maxFails, lockSec, xs, s, |xs|);
      a <= z < |p| && p[z] - p[a] <= span
    ensures z - a + 1 <= Allowance(maxFails) - 1 + m * (1 + (span / lockSec).Floor)
  {
    var now := RoundsAlways(maxFails, lockSec, xs, s, m);
    RoundsWindow(Allowance(maxFails), lockSec, m, PassTimes(maxFails, lockSec, xs, s, |xs|), now, a, z, span);
  }
}
