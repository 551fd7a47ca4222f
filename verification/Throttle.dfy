/** The per-source lockout of the login and enrollment endpoints. */
module Throttle {
  import opened Pacing

  datatype Entry = Entry(fails: nat, lockUntil: real)

  type Table = map<string, Entry>

  function Lookup(m: Table, key: string): (e: Entry) {
    if key in m then m[key] else Entry(0, 0.0)
  }

  predicate Locked(m: Table, key: string, now: real) {
    now < Lookup(m, key).lockUntil
  }

  function Failed(maxFails: int, lockSec: real, m: Table, key: string, now: real): (m': Table) {
    var fails := Lookup(m, key).fails + 1;
    m[key := Entry(fails, if fails >= maxFails then now + lockSec else 0.0)]
  }

  class LoginThrottle {
    const maxFails: int
    const lockSec: real
    var state: Table

    constructor (maxFails: int, lockSec: real)
      ensures this.maxFails == maxFails && this.lockSec == lockSec && state == map[]
    {
      this.maxFails := maxFails;
      this.lockSec := lockSec;
      this.state := map[];
    }

    method IsLocked(key: string, now: real) returns (locked: bool)
      ensures locked == Locked(state, key, now)
    {
      var e := if key in state then state[key] else Entry(0, 0.0);
      return now < e.lockUntil;
    }

    method RecordFailure(key: string, now: real)
      modifies this
      ensures state == Failed(maxFails, lockSec, old(state), key, now)
    {
      var e := if key in state then state[key] else Entry(0, 0.0);
      var fails := e.fails + 1;
      var lockUntil := if fails >= maxFails then now + lockSec else 0.0;
      state := state[key := Entry(fails, lockUntil)];
    }

    method Reset(key: string)
      modifies this
      ensures state == old(state) - {key}
    {
      state := state - {key};
    }

    /** One request to the login or enrollment endpoint; false stands for the answer 429. */
    method Try(a: Attempt) returns (past: bool)
      modifies this
      ensures past == !Locked(old(state), a.source, a.checkedAt)
      ensures state == Tried(maxFails, lockSec, old(state), a)
    {
      var locked := IsLocked(a.source, a.checkedAt);
      if locked {
        return false;
      }
      match a.effect {
        case Fails => RecordFailure(a.source, a.recordedAt);
        case Neutral =>
        case Resets => Reset(a.source);
      }
      return true;
    }
  }

  /** A wrong secret is recorded; a right one resets the source, unless the enrollment is refused
      for its group, which leaves the table alone. */
  datatype Effect = Fails | Neutral | Resets

  datatype Attempt = Attempt(source: string, checkedAt: real, recordedAt: real, effect: Effect)

  function Tried(maxFails: int, lockSec: real, m: Table, a: Attempt): (m': Table) {
    if Locked(m, a.source, a.checkedAt) then m
    else
      match a.effect
      case Fails => Failed(maxFails, lockSec, m, a.source, a.recordedAt)
      case Neutral => m
      case Resets => m - {a.source}
  }

  /** The table after a run of attempts; for the attempts of s that got past the lock, when they
      were checked and when they were recorded. */
  datatype Run = Run(m: Table, passes: seq<real>, recorded: seq<real>)

  function Noted(maxFails: int, lockSec: real, s: string, r: Run, a: Attempt): (r': Run) {
    var m' := Tried(maxFails, lockSec, r.m, a);
    if a.source == s && !Locked(r.m, s, a.checkedAt)
    then Run(m', r.passes + [a.checkedAt], r.recorded + [a.recordedAt])
    else r.(m := m')
  }

  function RunAfter(maxFails: int, lockSec: real, s: string, tries: seq<Attempt>, k: nat): (r: Run)
    requires k <= |tries|
    decreases k
  {
    if k == 0 then Run(map[], [], [])
    else Noted(maxFails, lockSec, s, RunAfter(maxFails, lockSec, s, tries, k - 1), tries[k - 1])
  }

  /** The attempts of one source. */
  function From(s: string, tries: seq<Attempt>): (r: seq<Attempt>)
    decreases |tries|
  {
    if tries == [] then []
    else From(s, tries[..|tries| - 1]) + if tries[|tries| - 1].source == s then [tries[|tries| - 1]] else []
  }

  lemma {:induction false} RunPrefix(maxFails: int, lockSec: real, s: string, tries: seq<Attempt>, n: nat, k: nat)
    requires k <= n <= |tries|
    ensures RunAfter(maxFails, lockSec, s, tries[..n], k) == RunAfter(maxFails, lockSec, s, tries, k)
    decreases k
  {
    if k > 0 {
      RunPrefix(maxFails, lockSec, s, tries, n, k - 1);
    }
  }

  lemma OtherSource(maxFails: int, lockSec: real, m: Table, s: string, a: Attempt)
    requires a.source != s
    ensures Lookup(Tried(maxFails, lockSec, m, a), s) == Lookup(m, s)
  {
  }

  lemma SameSource(maxFails: int, lockSec: real, m: Table, n: Table, a: Attempt)
    requires Lookup(m, a.source) == Lookup(n, a.source)
    ensures Lookup(Tried(maxFails, lockSec, m, a), a.source) == Lookup(Tried(maxFails, lockSec, n, a), a.source)
  {
  }

  /** r and r' are the same as far as s can tell. */
  ghost predicate SameFor(s: string, r: Run, r': Run) {
    Lookup(r.m, s) == Lookup(r'.m, s) && r.passes == r'.passes && r.recorded == r'.recorded
  }

  /** Other sources cannot touch s: its entry and its passes are those of its own attempts alone. */
  lemma {:induction false} SourcesIsolated(maxFails: int, lockSec: real, s: string, tries: seq<Attempt>)
    ensures SameFor(s, RunAfter(maxFails, lockSec, s, tries, |tries|),
                       RunAfter(maxFails, lockSec, s, From(s, tries), |From(s, tries)|))
    decreases |tries|
  {
    if tries != [] {
      var n := |tries| - 1;
      var a, own := tries[n], From(s, tries[..n]);
      SourcesIsolated(maxFails, lockSec, s, tries[..n]);
      RunPrefix(maxFails, lockSec, s, tries, n, n);
      var r := RunAfter(maxFails, lockSec, s, tries, n);
      if a.source == s {
        assert (own + [a])[..|own|] == own;
        RunPrefix(maxFails, lockSec, s, own + [a], |own|, |own|);
        SameSource(maxFails, lockSec, r.m, RunAfter(maxFails, lockSec, s, own, |own|).m, a);
      } else {
        assert From(s, tries) == own;
        OtherSource(maxFails, lockSec, r.m, s, a);
      }
    }
  }

  /** The attempts of s all fail, and they come one after the other. */
  ghost predicate Guessing(s: string, tries: seq<Attempt>) {
    && (forall i :: 0 <= i < |tries| && tries[i].source == s ==>
          tries[i].effect == Fails && tries[i].checkedAt <= tries[i].recordedAt)
    && (forall i, j :: 0 <= i < j < |tries| && tries[i].source == s && tries[j].source == s ==>
          tries[i].recordedAt <= tries[j].checkedAt)
  }

  /** The number of failures after which a source is locked. */
  function Allowance(maxFails: int): (n: nat)
    ensures n >= 1
  {
    if maxFails < 1 then 1 else maxFails
  }

  /** The failure count is the number of attempts that got past, for good; from the allowance on
      the lock lasts lockSec from the latest recorded failure. */
  ghost predicate GuessInvariant(maxFails: int, lockSec: real, s: string, r: Run, now: real) {
    var e := Lookup(r.m, s);
    && e.fails == |r.passes| == |r.recorded|
    && (|r.passes| < Allowance(maxFails) ==> e.lockUntil == 0.0)
    && (|r.passes| >= Allowance(maxFails) ==>
          && e.lockUntil == r.recorded[|r.recorded| - 1] + lockSec
          && r.passes[|r.passes| - 1] <= r.recorded[|r.recorded| - 1] <= now)
    && Ordered(r.passes, now)
    && Paced(Allowance(maxFails), lockSec, r.passes)
  }

  lemma GuessPast(maxFails: int, lockSec: real, s: string, r: Run, a: Attempt, now: real)
    requires GuessInvariant(maxFails, lockSec, s, r, a.checkedAt) && !Locked(r.m, s, a.checkedAt)
    requires a.source == s && a.effect == Fails && a.checkedAt <= a.recordedAt <= now
    ensures GuessInvariant(maxFails, lockSec, s,
      Run(Tried(maxFails, lockSec, r.m, a), r.passes + [a.checkedAt], r.recorded + [a.recordedAt]), now)
  {
    OrderedMore(r.passes, a.checkedAt, now);
    PacedMore(Allowance(maxFails), lockSec, r.passes, a.checkedAt);
  }

  lemma GuessLater(maxFails: int, lockSec: real, s: string, r: Run, past: real, now: real)
    requires GuessInvariant(maxFails, lockSec, s, r, past) && past <= now
    ensures GuessInvariant(maxFails, lockSec, s, r, now)
  {
  }

  lemma GuessElsewhere(maxFails: int, lockSec: real, s: string, r: Run, a: Attempt, now: real)
    requires GuessInvariant(maxFails, lockSec, s, r, now) && a.source != s
    ensures GuessInvariant(maxFails, lockSec, s, Noted(maxFails, lockSec, s, r, a), now)
  {
    OtherSource(maxFails, lockSec, r.m, s, a);
  }

  /** One more attempt of s, wrong as they all are. */
  lemma GuessStep(maxFails: int, lockSec: real, s: string, r: Run, a: Attempt, now: real)
    requires GuessInvariant(maxFails, lockSec, s, r, a.checkedAt)
    requires a.source == s && a.effect == Fails && a.checkedAt <= a.recordedAt <= now
    ensures GuessInvariant(maxFails, lockSec, s, Noted(maxFails, lockSec, s, r, a), now)
  {
    if Locked(r.m, s, a.checkedAt) {
      GuessLater(maxFails, lockSec, s, r, a.checkedAt, now);
    } else {
      GuessPast(maxFails, lockSec, s, r, a, now);
    }
  }

  lemma {:induction false} GuessingHolds(maxFails: int, lockSec: real, s: string, tries: seq<Attempt>,
                                         k: nat, now: real)
    requires Guessing(s, tries) && k <= |tries|
    requires forall i :: 0 <= i < k && tries[i].source == s ==> tries[i].recordedAt <= now
    ensures GuessInvariant(maxFails, lockSec, s, RunAfter(maxFails, lockSec, s, tries, k), now)
    decreases k
  {
    if k > 0 {
      var r, a := RunAfter(maxFails, lockSec, s, tries, k - 1), tries[k - 1];
      if a.source == s {
        GuessingHolds(maxFails, lockSec, s, tries, k - 1, a.checkedAt);
        GuessStep(maxFails, lockSec, s, r, a, now);
      } else {
        GuessingHolds(maxFails, lockSec, s, tries, k - 1, now);
        GuessElsewhere(maxFails, lockSec, s, r, a, now);
      }
    }
  }

  /** Whatever other sources do, one source that keeps guessing wrong gets past the lock at most
      max_fails + floor(T / lock_sec) times within any T seconds. */
  lemma GuessingBound(maxFails: int, lockSec: real, s: string, tries: seq<Attempt>, a: nat, z: nat, span: real)
    requires lockSec > 0.0 && Guessing(s, tries)
    requires var p := RunAfter(maxFails, lockSec, s, tries, |tries|).passes;
      a <= z < |p| && p[z] - p[a] <= span
    ensures z - a + 1 <= Allowance(maxFails) + (span / lockSec).Floor
  {
    var now := LatestRecord(s, tries, |tries|);
    GuessingHolds(maxFails, lockSec, s, tries, |tries|, now);
    PacedWindow(Allowance(maxFails), lockSec, RunAfter(maxFails, lockSec, s, tries, |tries|).passes, a, z, span);
  }

  lemma {:induction false} LatestRecord(s: string, tries: seq<Attempt>, k: nat) returns (now: real)
    requires k <= |tries|
    ensures forall i :: 0 <= i < k ==> tries[i].recordedAt <= now
    decreases k
  {
    if k == 0 {
      now := 0.0;
    } else {
      now := LatestRecord(s, tries, k - 1);
      if now < tries[k - 1].recordedAt {
        now := tries[k - 1].recordedAt;
      }
    }
  }

  /** With a clock that starts at zero or later, an attempt gets past exactly when the allowance is
      not used up or the lock of the latest failure has run out; the count never goes back. */
  lemma PastIff(maxFails: int, lockSec: real, s: string, tries: seq<Attempt>, k: nat)
    requires Guessing(s, tries) && k < |tries| && tries[k].source == s && tries[k].checkedAt >= 0.0
    ensures var r := RunAfter(maxFails, lockSec, s, tries, k);
      && Lookup(r.m, s).fails == |r.passes|
      && |r.recorded| == |r.passes|
      && (!Locked(r.m, s, tries[k].checkedAt)
          <==> |r.passes| < Allowance(maxFails) || tries[k].checkedAt - r.recorded[|r.passes| - 1] >= lockSec)
  {
    GuessingHolds(maxFails, lockSec, s, tries, k, tries[k].checkedAt);
  }
}
