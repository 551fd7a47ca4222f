/** The gate in front of every tool: authorization, then daily quota, then rate. */
module Preflight {
  import opened Prelude
  import opened Quota
  import opened RateLimit

  datatype Policy = Policy(allowed: set<string>, dailyLimit: int, perMinute: int)

  datatype Gate = Gate(quota: Budget, buckets: Buckets)

  const FRESH_GATE: Gate := Gate(Budget(None, 0), map[])

  /** One preflight: the scope asked for, the date, and the two readings of the rate limiter. */
  datatype Ask = Ask(scope: string, day: int, born: real, at: real)

  datatype Outcome = Unauthorized | QuotaExceeded | RateLimited | RateMisconfigured | Passed

  function RateCall(a: Ask): (c: Call) {
    Call(a.scope, a.born, a.at)
  }

  function AskInTokenTime(perMinute: int, a: Ask): (b: Ask) {
    a.(born := Ticks(Rate(perMinute), a.born), at := Ticks(Rate(perMinute), a.at))
  }

  function FromVerdict(v: Verdict): (o: Outcome) {
    match v
    case Admitted => Passed
    case Limited => RateLimited
    case BadConfig => RateMisconfigured
  }

  predicate ReachesRate(p: Policy, g: Gate, a: Ask) {
    a.scope in p.allowed && WithinBudget(p.dailyLimit, g.quota, a.day)
  }

  function Answer(p: Policy, g: Gate, a: Ask): (o: Outcome) {
    if a.scope !in p.allowed then Unauthorized
    else if !WithinBudget(p.dailyLimit, g.quota, a.day) then QuotaExceeded
    else FromVerdict(Decision(p.perMinute, g.buckets, RateCall(a)))
  }

  function Stepped(p: Policy, g: Gate, a: Ask): (g': Gate) {
    if a.scope !in p.allowed then g
    else if !WithinBudget(p.dailyLimit, g.quota, a.day) then g.(quota := Charged(p.dailyLimit, g.quota, a.day))
    else Gate(Charged(p.dailyLimit, g.quota, a.day), Checked(p.perMinute, g.buckets, RateCall(a)))
  }

  class ToolContext {
    const allowed: set<string>
    const quota: DailyQuota
    const rate: ScopedRateLimiter

    ghost predicate Valid()
      reads rate, rate.owned
    {
      rate.Valid()
    }

    ghost function Rules(): (p: Policy) {
      Policy(allowed, quota.limit, rate.perMinute)
    }

    ghost function State(): (g: Gate)
      requires Valid()
      reads quota, rate, rate.owned
    {
      Gate(quota.State(), rate.View())
    }

    constructor (allowed: set<string>, quota: DailyQuota, rate: ScopedRateLimiter)
      requires rate.Valid()
      ensures Valid() && this.allowed == allowed && this.quota == quota && this.rate == rate
    {
      this.allowed := allowed;
      this.quota := quota;
      this.rate := rate;
    }

    /** An outcome other than Passed stands for the exception of that name. */
    method Preflight(scope: string, today: int, born: real, now: real) returns (o: Outcome)
      requires Valid()
      modifies quota, rate, rate.owned
      ensures Valid() && fresh(rate.owned - old(rate.owned))
      ensures o == Answer(Rules(), old(State()), AskInTokenTime(rate.perMinute, Ask(scope, today, born, now)))
      ensures State() == Stepped(Rules(), old(State()), AskInTokenTime(rate.perMinute, Ask(scope, today, born, now)))
    {
      if scope !in allowed {
        return Unauthorized;
      }
      var ok := quota.Check(today);
      if !ok {
        return QuotaExceeded;
      }
      var v := rate.Check(scope, born, now);
      return FromVerdict(v);
    }
  }

  // ---------- runs of the gate, from a fresh start ----------

  function GateAfter(p: Policy, asks: seq<Ask>, k: nat): (g: Gate)
    requires k <= |asks|
    decreases k
  {
    if k == 0 then FRESH_GATE else Stepped(p, GateAfter(p, asks, k - 1), asks[k - 1])
  }

  function OutcomeAt(p: Policy, asks: seq<Ask>, k: nat): (o: Outcome)
    requires k < |asks|
  {
    Answer(p, GateAfter(p, asks, k), asks[k])
  }

  /** Without the scope or a valid rate limit the gate never opens. */
  lemma GateClosed(p: Policy, asks: seq<Ask>, k: nat)
    requires k < |asks| && (asks[k].scope !in p.allowed || p.perMinute <= 0)
    ensures OutcomeAt(p, asks, k) != Passed
  {
  }

  /** A limit that is not positive switches the quota off: nobody is refused for it, and nothing is counted. */
  lemma {:induction false} QuotaOff(p: Policy, asks: seq<Ask>, k: nat)
    requires p.dailyLimit <= 0 && k <= |asks|
    ensures GateAfter(p, asks, k).quota == Budget(None, 0)
    ensures k < |asks| ==> OutcomeAt(p, asks, k) != QuotaExceeded
    ensures RemainingOn(p.dailyLimit, GateAfter(p, asks, k).quota, if k < |asks| then asks[k].day else 0) == None
    decreases k
  {
    if k > 0 {
      QuotaOff(p, asks, k - 1);
    }
  }

  /** How many of the first k calls fell on day d and ended with outcome o. */
  function Ended(p: Policy, asks: seq<Ask>, d: int, o: Outcome, k: nat): (n: nat)
    requires k <= |asks|
    decreases k
  {
    if k == 0 then 0
    else if asks[k - 1].day == d && OutcomeAt(p, asks, k - 1) == o then Ended(p, asks, d, o, k - 1) + 1
    else Ended(p, asks, d, o, k - 1)
  }

  /** How many of the first k calls fell on day d and were authorized. */
  function Authorized(p: Policy, asks: seq<Ask>, d: int, k: nat): (n: nat)
    requires k <= |asks|
    decreases k
  {
    if k == 0 then 0
    else if asks[k - 1].day == d && asks[k - 1].scope in p.allowed then Authorized(p, asks, d, k - 1) + 1
    else Authorized(p, asks, d, k - 1)
  }

  ghost predicate DaysInOrder(asks: seq<Ask>) {
    forall i, j :: 0 <= i < j < |asks| ==> asks[i].day <= asks[j].day
  }

  /** The calls of day d that used up budget: the tokens spent over all scopes, and the calls the
      rate limiter turned away. */
  function Used(p: Policy, asks: seq<Ask>, d: int, k: nat): (n: nat)
    requires k <= |asks|
  {
    Ended(p, asks, d, Passed, k) + Ended(p, asks, d, RateLimited, k) + Ended(p, asks, d, RateMisconfigured, k)
  }

  /** The books of day d: every authorized call either used budget or was refused by a budget
      that was used up. */
  ghost predicate Balanced(p: Policy, asks: seq<Ask>, d: int, k: nat)
    requires k <= |asks|
  {
    && Authorized(p, asks, d, k) == Used(p, asks, d, k) + Ended(p, asks, d, QuotaExceeded, k)
    && Used(p, asks, d, k)
       == if Authorized(p, asks, d, k) <= p.dailyLimit then Authorized(p, asks, d, k) else p.dailyLimit
  }

  /** The counter holds what day d has used. */
  ghost predicate CounterShows(p: Policy, asks: seq<Ask>, d: int, k: nat)
    requires k <= |asks|
  {
    Rolled(GateAfter(p, asks, k).quota, d).count == Used(p, asks, d, k)
  }

  /** No call has been made on a day after d. */
  lemma {:induction false} NothingYet(p: Policy, asks: seq<Ask>, d: int, k: nat)
    requires k <= |asks| && forall i :: 0 <= i < k ==> asks[i].day < d
    ensures Used(p, asks, d, k) == 0 && Ended(p, asks, d, QuotaExceeded, k) == 0 && Authorized(p, asks, d, k) == 0
    ensures GateAfter(p, asks, k).quota.day != Some(d)
    decreases k
  {
    if k > 0 {
      NothingYet(p, asks, d, k - 1);
    }
  }

  /** Conservation: as long as day d has not ended, the quota counter is what was spent on it. */
  lemma {:induction false} Conservation(p: Policy, asks: seq<Ask>, d: int, k: nat)
    requires p.dailyLimit > 0 && DaysInOrder(asks) && k <= |asks|
    requires forall i :: 0 <= i < k ==> asks[i].day <= d
    ensures CounterShows(p, asks, d, k) && Balanced(p, asks, d, k)
    decreases k
  {
    if k > 0 {
      var a := asks[k - 1];
      if a.day < d {
        NothingYet(p, asks, d, k);
      } else {
        Conservation(p, asks, d, k - 1);
      }
    }
  }

  /** The n-th authorized call of a day passes the quota if and only if n is within the limit. */
  lemma QuotaExact(p: Policy, asks: seq<Ask>, k: nat)
    requires p.dailyLimit > 0 && DaysInOrder(asks) && k < |asks| && asks[k].scope in p.allowed
    ensures OutcomeAt(p, asks, k) != QuotaExceeded
       <==> Authorized(p, asks, asks[k].day, k) + 1 <= p.dailyLimit
  {
    Conservation(p, asks, asks[k].day, k);
  }

  /** What remaining() answers on the day of the latest call is the limit minus what was spent. */
  lemma RemainingExact(p: Policy, asks: seq<Ask>, d: int, k: nat)
    requires p.dailyLimit > 0 && DaysInOrder(asks) && k <= |asks|
    requires forall i :: 0 <= i < k ==> asks[i].day <= d
    ensures RemainingOn(p.dailyLimit, GateAfter(p, asks, k).quota, d) == Some(p.dailyLimit - Used(p, asks, d, k))
  {
    Conservation(p, asks, d, k);
  }

  /** A day that is over keeps its books. */
  lemma {:induction false} DayBudget(p: Policy, asks: seq<Ask>, d: int, k: nat)
    requires p.dailyLimit > 0 && DaysInOrder(asks) && k <= |asks|
    ensures Used(p, asks, d, k) <= p.dailyLimit && Balanced(p, asks, d, k)
    decreases k
  {
    if k > 0 && asks[k - 1].day > d {
      DayBudget(p, asks, d, k - 1);
    } else {
      Conservation(p, asks, d, k);
    }
  }

  // ---------- the rate limiter inside the gate ----------

  /** The calls among the first k that reach the rate limiter. */
  function RateCalls(p: Policy, asks: seq<Ask>, k: nat): (cs: seq<Call>)
    requires k <= |asks|
    decreases k
  {
    if k == 0 then []
    else if ReachesRate(p, GateAfter(p, asks, k - 1), asks[k - 1])
    then RateCalls(p, asks, k - 1) + [RateCall(asks[k - 1])]
    else RateCalls(p, asks, k - 1)
  }

  /** The gate's buckets are those of the limiter run on the calls that reach it. */
  lemma {:induction false} BucketsOfGate(p: Policy, asks: seq<Ask>, k: nat)
    requires k <= |asks|
    ensures GateAfter(p, asks, k).buckets == LimiterAfter(p.perMinute, RateCalls(p, asks, k), |RateCalls(p, asks, k)|)
    decreases k
  {
    if k > 0 {
      BucketsOfGate(p, asks, k - 1);
      if ReachesRate(p, GateAfter(p, asks, k - 1), asks[k - 1]) {
        var cs, c := RateCalls(p, asks, k - 1), RateCall(asks[k - 1]);
        assert (cs + [c])[..|cs|] == cs;
        PrefixSame(p.perMinute, cs + [c], |cs|, c.scope, |cs|);
      }
    }
  }

  /** How many of the calls i .. k-1 on scope s passed the gate. */
  function PassedOn(p: Policy, asks: seq<Ask>, s: string, i: nat, k: nat): (n: nat)
    requires k <= |asks|
    decreases k
  {
    if k <= i then 0
    else if asks[k - 1].scope == s && OutcomeAt(p, asks, k - 1) == Passed then PassedOn(p, asks, s, i, k - 1) + 1
    else PassedOn(p, asks, s, i, k - 1)
  }

  ghost predicate AsksTicking(asks: seq<Ask>) {
    && (forall i :: 0 <= i < |asks| ==> asks[i].born <= asks[i].at)
    && (forall i, j :: 0 <= i < j < |asks| ==> asks[i].at <= asks[j].born)
  }

  lemma {:induction false} RateCallsTicking(p: Policy, asks: seq<Ask>, k: nat)
    requires AsksTicking(asks) && k <= |asks|
    ensures var cs := RateCalls(p, asks, k); Ticking(cs) && (|cs| > 0 ==> cs[|cs| - 1].at <= asks[k - 1].at)
    decreases k
  {
    if k > 0 {
      RateCallsTicking(p, asks, k - 1);
      assert k > 1 ==> asks[k - 2].at <= asks[k - 1].born;
    }
  }

  lemma {:induction false} RateCallsPrefix(p: Policy, asks: seq<Ask>, i: nat, k: nat)
    requires AsksTicking(asks) && i <= k <= |asks|
    ensures var n, cs := |RateCalls(p, asks, i)|, RateCalls(p, asks, k);
      n <= |cs| && (n < |cs| ==> asks[i].at <= cs[n].at)
    decreases k
  {
    if i < k {
      RateCallsPrefix(p, asks, i, k - 1);
      assert asks[i].at <= asks[k - 1].at;
    }
  }

  lemma {:induction false} AdmittedPrefix(perMinute: int, cs: seq<Call>, c: Call, s: string, i: nat, k: nat)
    requires k <= |cs|
    ensures AdmittedOn(perMinute, cs + [c], s, i, k) == AdmittedOn(perMinute, cs, s, i, k)
    decreases k
  {
    if i < k {
      AdmittedPrefix(perMinute, cs, c, s, i, k - 1);
      assert (cs + [c])[..|cs|] == cs;
      PrefixSame(perMinute, cs + [c], |cs|, s, k - 1);
    }
  }

  /** A call passes the gate exactly when the limiter, run on the calls that reach it, admits it. */
  lemma {:induction false} PassesAreAdmissions(p: Policy, asks: seq<Ask>, s: string, i: nat, k: nat)
    requires AsksTicking(asks) && i <= k <= |asks|
    ensures PassedOn(p, asks, s, i, k)
         == AdmittedOn(p.perMinute, RateCalls(p, asks, k), s, |RateCalls(p, asks, i)|, |RateCalls(p, asks, k)|)
    decreases k
  {
    if i < k {
      PassesAreAdmissions(p, asks, s, i, k - 1);
      if ReachesRate(p, GateAfter(p, asks, k - 1), asks[k - 1]) {
        LastAdmission(p, asks, s, i, k);
      }
    }
  }

  lemma LastAdmission(p: Policy, asks: seq<Ask>, s: string, i: nat, k: nat)
    requires AsksTicking(asks) && i < k <= |asks| && ReachesRate(p, GateAfter(p, asks, k - 1), asks[k - 1])
    ensures var n, cs := |RateCalls(p, asks, i)|, RateCalls(p, asks, k - 1);
      AdmittedOn(p.perMinute, RateCalls(p, asks, k), s, n, |cs| + 1)
        == AdmittedOn(p.perMinute, cs, s, n, |cs|)
         + if asks[k - 1].scope == s && OutcomeAt(p, asks, k - 1) == Passed then 1 else 0
  {
    var n, cs, c := |RateCalls(p, asks, i)|, RateCalls(p, asks, k - 1), RateCall(asks[k - 1]);
    RateCallsPrefix(p, asks, i, k - 1);
    AdmittedPrefix(p.perMinute, cs, c, s, n, |cs|);
    assert (cs + [c])[..|cs|] == cs;
    PrefixSame(p.perMinute, cs + [c], |cs|, s, |cs|);
    BucketsOfGate(p, asks, k - 1);
    assert VerdictAt(p.perMinute, cs + [c], |cs|) == Decision(p.perMinute, GateAfter(p, asks, k - 1).buckets, c);
  }

  // ---------- which calls pass ----------

  /** Each kind of outcome has its own cause. */
  lemma OutcomeCause(p: Policy, asks: seq<Ask>, k: nat)
    requires k < |asks|
    ensures var o, reaches := OutcomeAt(p, asks, k), ReachesRate(p, GateAfter(p, asks, k), asks[k]);
      && (o == Unauthorized <==> asks[k].scope !in p.allowed)
      && (o == QuotaExceeded <==> asks[k].scope in p.allowed && !reaches)
      && (o == RateMisconfigured <==> reaches && p.perMinute <= 0)
      && (o == Passed || o == RateLimited <==> reaches && p.perMinute > 0)
  {
  }

  lemma {:induction false} RateCallAt(p: Policy, asks: seq<Ask>, i: nat, k: nat)
    requires i < k <= |asks| && ReachesRate(p, GateAfter(p, asks, i), asks[i])
    ensures var n, cs := |RateCalls(p, asks, i)|, RateCalls(p, asks, k);
      n < |cs| && cs[n] == RateCall(asks[i])
    decreases k
  {
    if i + 1 < k {
      RateCallAt(p, asks, i, k - 1);
    }
  }

  lemma {:induction false} AskOfCall(p: Policy, asks: seq<Ask>, n: nat, k: nat) returns (i: nat)
    requires k <= |asks| && n < |RateCalls(p, asks, k)|
    ensures i < k && ReachesRate(p, GateAfter(p, asks, i), asks[i]) && |RateCalls(p, asks, i)| == n
    decreases k
  {
    if n < |RateCalls(p, asks, k - 1)| {
      i := AskOfCall(p, asks, n, k - 1);
    } else {
      i := k - 1;
    }
  }

  /** The calls on the scope of ask k that have passed since ask i, with ask k, are at most the limit and what
      comes in meanwhile. */
  ghost predicate FitsGate(p: Policy, asks: seq<Ask>, i: nat, k: nat)
    requires i <= k < |asks|
  {
    PassedOn(p, asks, asks[k].scope, i, k) as real + 1.0 <= p.perMinute as real + (asks[k].at - asks[i].at)
  }

  /** It is so for each earlier or current ask on that scope that has reached the rate limiter. */
  ghost predicate FitsEveryWindow(p: Policy, asks: seq<Ask>, k: nat)
    requires k < |asks|
  {
    forall i: nat {:trigger FitsGate(p, asks, i, k)} ::
      i <= k && asks[i].scope == asks[k].scope && ReachesRate(p, GateAfter(p, asks, i), asks[i]) ==>
        FitsGate(p, asks, i, k)
  }

  lemma SameWindow(p: Policy, asks: seq<Ask>, i: nat, k: nat)
    requires AsksTicking(asks) && i <= k < |asks| && asks[i].scope == asks[k].scope
    requires ReachesRate(p, GateAfter(p, asks, i), asks[i]) && ReachesRate(p, GateAfter(p, asks, k), asks[k])
    ensures var cs, n, j := RateCalls(p, asks, k + 1), |RateCalls(p, asks, i)|, |RateCalls(p, asks, k)|;
      && n <= j < |cs| && cs[n] == RateCall(asks[i]) && cs[j] == RateCall(asks[k])
      && (FitsSince(p.perMinute, cs, n, j) <==> FitsGate(p, asks, i, k))
  {
    var n, j := |RateCalls(p, asks, i)|, |RateCalls(p, asks, k)|;
    RateCallAt(p, asks, i, k + 1);
    RateCallsPrefix(p, asks, i, k);
    PassesAreAdmissions(p, asks, asks[k].scope, i, k);
    AdmittedPrefix(p.perMinute, RateCalls(p, asks, k), RateCall(asks[k]), asks[k].scope, n, j);
  }

  /** What the limiter decides on the call of ask k is the outcome of the gate. */
  lemma LastVerdict(p: Policy, asks: seq<Ask>, k: nat)
    requires AsksTicking(asks) && k < |asks| && ReachesRate(p, GateAfter(p, asks, k), asks[k])
    ensures var cs, j := RateCalls(p, asks, k + 1), |RateCalls(p, asks, k)|;
      && |cs| == j + 1 && cs[j] == RateCall(asks[k]) && Ticking(cs)
      && (OutcomeAt(p, asks, k) == Passed <==> VerdictAt(p.perMinute, cs, j) == Admitted)
  {
    var cs, c := RateCalls(p, asks, k), RateCall(asks[k]);
    RateCallsTicking(p, asks, k + 1);
    BucketsOfGate(p, asks, k);
    assert (cs + [c])[..|cs|] == cs;
    PrefixSame(p.perMinute, cs + [c], |cs|, c.scope, |cs|);
    assert VerdictAt(p.perMinute, cs + [c], |cs|) == Decision(p.perMinute, GateAfter(p, asks, k).buckets, c);
  }

  /** A call that reaches the rate limiter passes if and only if it fits every window of its scope. */
  lemma PassIff(p: Policy, asks: seq<Ask>, k: nat)
    requires p.perMinute > 0 && AsksTicking(asks) && k < |asks|
    requires ReachesRate(p, GateAfter(p, asks, k), asks[k])
    ensures OutcomeAt(p, asks, k) == Passed <==> FitsEveryWindow(p, asks, k)
  {
    var cs, j := RateCalls(p, asks, k + 1), |RateCalls(p, asks, k)|;
    LastVerdict(p, asks, k);
    ScopeExact(p.perMinute, cs, j);
    if FitsEveryWindow(p, asks, k) {
      forall n: nat | n <= j && cs[n].scope == cs[j].scope ensures FitsSince(p.perMinute, cs, n, j) {
        var i := AskOfCall(p, asks, n, k + 1);
        RateCallAt(p, asks, i, k + 1);
        SameWindow(p, asks, i, k);
        assert FitsGate(p, asks, i, k);
      }
    }
    if FitsScope(p.perMinute, cs, j) {
      forall i: nat | i <= k && asks[i].scope == asks[k].scope && ReachesRate(p, GateAfter(p, asks, i), asks[i])
        ensures FitsGate(p, asks, i, k)
      {
        SameWindow(p, asks, i, k);
        assert FitsSince(p.perMinute, cs, |RateCalls(p, asks, i)|, j);
      }
    }
  }

  /** The calls i .. k-1 that pass on one scope are at most the limit and what comes in meanwhile. */
  lemma PassWindow(p: Policy, asks: seq<Ask>, s: string, i: nat, k: nat)
    requires p.perMinute > 0 && AsksTicking(asks) && i < k <= |asks|
    ensures PassedOn(p, asks, s, i, k) as real <= p.perMinute as real + (asks[k - 1].at - asks[i].at)
  {
    var n, cs := |RateCalls(p, asks, i)|, RateCalls(p, asks, k);
    RateCallsTicking(p, asks, k);
    RateCallsPrefix(p, asks, i, k);
    PassesAreAdmissions(p, asks, s, i, k);
    if n < |cs| {
      ScopeWindow(p.perMinute, cs, s, n, |cs|);
    } else {
      assert asks[i].at <= asks[k - 1].at;
    }
  }

  /** A run of the gate whose readings are in seconds, in token time. */
  function AsksInTokenTime(perMinute: int, asks: seq<Ask>): (r: seq<Ask>)
    ensures |r| == |asks| && forall i :: 0 <= i < |asks| ==> r[i] == AskInTokenTime(perMinute, asks[i])
  {
    seq(|asks|, i requires 0 <= i < |asks| => AskInTokenTime(perMinute, asks[i]))
  }

  lemma AsksTickingScaled(perMinute: int, asks: seq<Ask>)
    requires perMinute > 0 && AsksTicking(asks)
    ensures AsksTicking(AsksInTokenTime(perMinute, asks))
  {
    var r := AsksInTokenTime(perMinute, asks);
    forall i | 0 <= i < |r| ensures r[i].born <= r[i].at {
      ScaleMonotone(Rate(perMinute), asks[i].born, asks[i].at);
    }
    forall i, j | 0 <= i < j < |r| ensures r[i].at <= r[j].born {
      ScaleMonotone(Rate(perMinute), asks[i].at, asks[j].born);
    }
  }

  /** Over any run of the gate, no sixty seconds see more than twice the per-minute limit of calls
      pass on one scope. */
  lemma PassesPerMinute(p: Policy, asks: seq<Ask>, s: string, i: nat, k: nat)
    requires p.perMinute > 0 && AsksTicking(asks) && i < k <= |asks|
    requires asks[k - 1].at - asks[i].at <= 60.0
    ensures PassedOn(p, AsksInTokenTime(p.perMinute, asks), s, i, k) <= 2 * p.perMinute
  {
    var r := AsksInTokenTime(p.perMinute, asks);
    assert AsksTicking(r) by { AsksTickingScaled(p.perMinute, asks); }
    assert r[k - 1].at - r[i].at <= p.perMinute as real by {
      MinuteOfTokens(p.perMinute, asks[i].at, asks[k - 1].at);
    }
    PassWindow(p, r, s, i, k);
    Whole(PassedOn(p, r, s, i, k), p.perMinute, r[k - 1].at - r[i].at);
  }

  /** The window rule in seconds, for asks and the same asks r in token time. */
  ghost predicate FitsGateSeconds(p: Policy, asks: seq<Ask>, r: seq<Ask>, i: nat, k: nat)
    requires i <= k < |asks| == |r|
  {
    PassedOn(p, r, asks[k].scope, i, k) as real + 1.0
    <= p.perMinute as real + p.perMinute as real * (asks[k].at - asks[i].at) / 60.0
  }

  ghost predicate FitsEveryWindowSeconds(p: Policy, asks: seq<Ask>, r: seq<Ask>, k: nat)
    requires k < |asks| == |r|
  {
    forall i: nat {:trigger FitsGateSeconds(p, asks, r, i, k)} ::
      i <= k && asks[i].scope == asks[k].scope && ReachesRate(p, GateAfter(p, r, i), r[i]) ==>
        FitsGateSeconds(p, asks, r, i, k)
  }

  lemma SameGateSeconds(p: Policy, asks: seq<Ask>, r: seq<Ask>, i: nat, k: nat)
    requires i <= k < |asks| == |r|
    requires r[i] == AskInTokenTime(p.perMinute, asks[i]) && r[k] == AskInTokenTime(p.perMinute, asks[k])
    ensures FitsGate(p, r, i, k) <==> FitsGateSeconds(p, asks, r, i, k)
  {
    TokensOfSeconds(p.perMinute, asks[i].at, asks[k].at);
  }

  /** Over any run, an authorized call within the quota passes if and only if, for each earlier or current
      call on its scope that reached the limiter, the calls that have passed since then and this one are at
      most per_minute and per_minute / 60 for each second since. */
  lemma PassIffSeconds(p: Policy, asks: seq<Ask>, k: nat)
    requires p.perMinute > 0 && AsksTicking(asks) && k < |asks|
    requires var r := AsksInTokenTime(p.perMinute, asks); ReachesRate(p, GateAfter(p, r, k), r[k])
    ensures var r := AsksInTokenTime(p.perMinute, asks);
      OutcomeAt(p, r, k) == Passed <==> FitsEveryWindowSeconds(p, asks, r, k)
  {
    var r := AsksInTokenTime(p.perMinute, asks);
    AsksTickingScaled(p.perMinute, asks);
    PassIff(p, r, k);
    SameWindowsSeconds(p, asks, r, k);
  }

  lemma SameWindowsSeconds(p: Policy, asks: seq<Ask>, r: seq<Ask>, k: nat)
    requires k < |asks| == |r| && forall i :: 0 <= i < |r| ==> r[i] == AskInTokenTime(p.perMinute, asks[i])
    ensures FitsEveryWindow(p, r, k) <==> FitsEveryWindowSeconds(p, asks, r, k)
  {
    forall i: nat | i <= k ensures FitsGate(p, r, i, k) <==> FitsGateSeconds(p, asks, r, i, k) {
      SameGateSeconds(p, asks, r, i, k);
    }
    assert forall i: nat :: i <= k ==> r[i].scope == asks[i].scope;
  }
}
