/** The token bucket and the per-scope rate limiter, in seconds.
    Time and tokens are reals; a clock reading is a parameter of each call. */
module RateLimit {
  import opened Prelude
  import opened TokenTime

  /** A time in seconds, in token time. */
  function Ticks(refill: real, t: real): (x: real) {
    t * refill
  }

  // ---------- one bucket ----------

  class TokenBucket {
    const capacity: int
    const refill: real
    var tokens: real
    var last: real

    /** The bucket in token time, where `refill` seconds' worth of tokens is one unit. */
    ghost function State(): (b: Bucket)
      reads this
    {
      Bucket(tokens, Ticks(refill, last))
    }

    constructor (capacity: int, refill: real, now: real)
      requires capacity > 0 && refill > 0.0
      ensures this.capacity == capacity && this.refill == refill
      ensures State() == Bucket(capacity as real, Ticks(refill, now))
    {
      this.capacity := capacity;
      this.refill := refill;
      this.tokens := capacity as real;
      this.last := now;
    }

    /** The constructor raises on a capacity or rate that is not positive. */
    static method Create(capacity: int, refill: real, now: real) returns (r: Option<TokenBucket>)
      ensures r.None? <==> capacity <= 0 || refill <= 0.0
      ensures r.Some? ==> fresh(r.value) && r.value.capacity == capacity && r.value.refill == refill
      ensures r.Some? ==> r.value.State() == Bucket(capacity as real, Ticks(refill, now))
    {
      if capacity <= 0 || refill <= 0.0 {
        return None;
      }
      var b := new TokenBucket(capacity, refill, now);
      return Some(b);
    }

    method Consume(n: int, now: real) returns (ok: bool)
      modifies this
      ensures ok == Enough(capacity, old(State()), Request(Ticks(refill, now), n))
      ensures State() == Consumed(capacity, old(State()), Request(Ticks(refill, now), n))
    {
      RefillIsLevel(capacity, refill, tokens, last, now);
      tokens := Min(capacity as real, tokens + (now - last) * refill);
      last := now;
      if tokens < n as real {
        return false;
      }
      tokens := tokens - n as real;
      return true;
    }
  }

  lemma LazyRefill(refill: real, now: real, last: real)
    ensures (now - last) * refill == Ticks(refill, now) - Ticks(refill, last)
  {
  }

  /** The refill of a bucket in seconds is its level in token time. */
  lemma RefillIsLevel(capacity: int, refill: real, tokens: real, last: real, now: real)
    ensures Min(capacity as real, tokens + (now - last) * refill)
         == Level(capacity, Bucket(tokens, Ticks(refill, last)), Ticks(refill, now))
  {
    LazyRefill(refill, now, last);
  }

  lemma ScaleMonotone(refill: real, a: real, b: real)
    requires refill > 0.0 && a <= b
    ensures Ticks(refill, a) <= Ticks(refill, b)
  {
  }

  /** A history in seconds, in token time. */
  function Scaled(refill: real, h: seq<Request>): (g: seq<Request>)
    ensures |g| == |h| && forall i :: 0 <= i < |h| ==> g[i] == Request(Ticks(refill, h[i].at), h[i].n)
  {
    seq(|h|, i requires 0 <= i < |h| => Request(Ticks(refill, h[i].at), h[i].n))
  }

  /** Which calls of a history in seconds a bucket created at `born` admits. */
  function Admissions(capacity: int, refill: real, born: real, h: seq<Request>): (o: seq<bool>)
    ensures |o| == |h|
  {
    Outcomes(capacity, Ticks(refill, born), Scaled(refill, h))
  }

  lemma ScaledMonotone(refill: real, born: real, h: seq<Request>)
    requires refill > 0.0 && Monotone(born, h)
    ensures Monotone(Ticks(refill, born), Scaled(refill, h))
  {
    forall i | 0 <= i < |h| ensures Ticks(refill, born) <= Ticks(refill, h[i].at) {
      ScaleMonotone(refill, born, h[i].at);
    }
    forall i, j | 0 <= i <= j < |h| ensures Ticks(refill, h[i].at) <= Ticks(refill, h[j].at) {
      ScaleMonotone(refill, h[i].at, h[j].at);
    }
  }

  lemma {:induction false} TakenScaled(refill: real, h: seq<Request>, o: seq<bool>, i: nat, k: nat)
    requires |o| == |h| && k <= |h|
    ensures Taken(Scaled(refill, h), o, i, k) == Taken(h, o, i, k)
    decreases k
  {
    if i < k {
      TakenScaled(refill, h, o, i, k - 1);
    }
  }

  /** For each earlier or current call i: what was taken since i, with call k, is at most the
      capacity plus the refill over the seconds since i. */
  ghost predicate FitsSeconds(capacity: int, refill: real, h: seq<Request>, o: seq<bool>, k: nat)
    requires |o| == |h| && k < |h|
  {
    forall i :: 0 <= i <= k ==>
      Taken(h, o, i, k) + h[k].n as real <= capacity as real + (h[k].at - h[i].at) * refill
  }

  lemma FitsScaled(capacity: int, refill: real, h: seq<Request>, o: seq<bool>, k: nat)
    requires |o| == |h| && k < |h|
    ensures FitsSeconds(capacity, refill, h, o, k) <==> Fits(capacity, Scaled(refill, h), o, k)
  {
    var g := Scaled(refill, h);
    forall i | 0 <= i <= k
      ensures Taken(g, o, i, k) == Taken(h, o, i, k)
      ensures (h[k].at - h[i].at) * refill == g[k].at - g[i].at
    {
      TakenScaled(refill, h, o, i, k);
      LazyRefill(refill, h[k].at, h[i].at);
    }
  }

  /** The lazy bucket is exact: over any run of calls, each call is admitted if and only if it
      fits every window that ends with it. */
  lemma BucketExact(capacity: int, refill: real, born: real, h: seq<Request>, k: nat)
    requires refill > 0.0 && Monotone(born, h) && k < |h|
    ensures var o := Admissions(capacity, refill, born, h);
      o[k] <==> FitsSeconds(capacity, refill, h, o, k)
  {
    ScaledMonotone(refill, born, h);
    AdmittedIffFits(capacity, Ticks(refill, born), Scaled(refill, h), k);
    FitsScaled(capacity, refill, h, Admissions(capacity, refill, born, h), k);
  }

  /** It refuses nothing it could allow: any other set of admissions that keeps every window is,
      at every moment, no larger. */
  lemma BucketMaximal(capacity: int, refill: real, born: real, h: seq<Request>, o: seq<bool>, k: nat)
    requires refill > 0.0 && Monotone(born, h) && UnitCalls(h) && |o| == |h| && k <= |h|
    requires forall j :: 0 <= j < |h| && o[j] ==> FitsSeconds(capacity, refill, h, o, j)
    ensures Count(o, 0, k) <= Count(Admissions(capacity, refill, born, h), 0, k)
  {
    var g := Scaled(refill, h);
    ScaledMonotone(refill, born, h);
    OutcomesExact(capacity, Ticks(refill, born), g);
    forall j | 0 <= j < |g| && o[j] ensures Fits(capacity, g, o, j) {
      FitsScaled(capacity, refill, h, o, j);
    }
    ExactIsMaximal(capacity, g, Admissions(capacity, refill, born, h), o, k);
  }

  /** Deleting refused calls from a run does not change any other outcome. */
  lemma RefusalsNeutral(capacity: int, refill: real, born: real, h: seq<Request>, drop: seq<bool>)
    requires refill > 0.0 && Monotone(born, h) && |drop| == |h|
    requires forall i :: 0 <= i < |h| ==> h[i].n >= 0
    requires forall k :: 0 <= k < |h| && drop[k] ==> !Admissions(capacity, refill, born, h)[k]
    ensures Admissions(capacity, refill, born, Select(h, drop, |h|))
         == Select(Admissions(capacity, refill, born, h), drop, |h|)
  {
    ScaledMonotone(refill, born, h);
    RefusedCallsNeutral(capacity, Ticks(refill, born), Scaled(refill, h), drop);
    SelectScaled(refill, h, drop, |h|);
  }

  lemma {:induction false} SelectScaled(refill: real, h: seq<Request>, drop: seq<bool>, k: nat)
    requires |drop| == |h| && k <= |h|
    ensures Select(Scaled(refill, h), drop, k) == Scaled(refill, Select(h, drop, k))
    decreases k
  {
    if k > 0 {
      SelectScaled(refill, h, drop, k - 1);
      var g := Select(h, drop, k - 1);
      if drop[k - 1] {
        assert Select(h, drop, k) == g;
      } else {
        ScaledAppend(refill, g, h[k - 1]);
        assert Select(h, drop, k) == g + [h[k - 1]];
      }
    }
  }

  lemma ScaledAppend(refill: real, g: seq<Request>, e: Request)
    ensures Scaled(refill, g + [e]) == Scaled(refill, g) + [Request(Ticks(refill, e.at), e.n)]
  {
    forall i | 0 <= i <= |g|
      ensures Scaled(refill, g + [e])[i] == (Scaled(refill, g) + [Request(Ticks(refill, e.at), e.n)])[i]
    {
      assert (g + [e])[i] == if i < |g| then g[i] else e;
    }
  }

  // ---------- one bucket per scope ----------

  /** One check of a scope. The default bucket is built before the lookup, so every call reads the clock once to
      build a bucket (born) and once more to consume (at). */
  datatype Call = Call(scope: string, born: real, at: real)

  datatype Verdict = Admitted | Limited | BadConfig

  type Buckets = map<string, Bucket>

  function Rate(perMinute: int): (r: real) {
    perMinute as real / 60.0
  }

  /** A call whose clock readings are in seconds, in token time. */
  function InTokenTime(perMinute: int, c: Call): (d: Call) {
    Call(c.scope, Ticks(Rate(perMinute), c.born), Ticks(Rate(perMinute), c.at))
  }

  // From here on the readings of a call are in token time, but for the methods and MinuteBound.

  function Asked(c: Call): (q: Request) {
    Request(c.at, 1)
  }

  /** The bucket that serves the call. */
  function Serving(perMinute: int, m: Buckets, c: Call): (b: Bucket) {
    if c.scope in m then m[c.scope] else Bucket(perMinute as real, c.born)
  }

  function Decision(perMinute: int, m: Buckets, c: Call): (v: Verdict) {
    if perMinute <= 0 then BadConfig
    else if Enough(perMinute, Serving(perMinute, m, c), Asked(c)) then Admitted
    else Limited
  }

  function Checked(perMinute: int, m: Buckets, c: Call): (m': Buckets) {
    if perMinute <= 0 then m
    else m[c.scope := Consumed(perMinute, Serving(perMinute, m, c), Asked(c))]
  }

  class ScopedRateLimiter {
    const perMinute: int
    const refillPerSec: real
    var buckets: map<string, TokenBucket>
    ghost var owned: set<TokenBucket>  // the buckets of the map

    ghost predicate Valid()
      reads this, owned
    {
      && (forall s :: s in buckets ==> buckets[s] in owned)
      && refillPerSec == Rate(perMinute)
      && (forall s :: s in buckets ==> buckets[s].capacity == perMinute && buckets[s].refill == refillPerSec)
      && (forall s, t :: s in buckets && t in buckets && s != t ==> buckets[s] != buckets[t])
    }

    ghost function View(): (m: Buckets)
      requires forall s :: s in buckets ==> buckets[s] in owned
      reads this, owned
    {
      map s | s in buckets :: buckets[s].State()
    }

    constructor (perMinute: int)
      ensures this.perMinute == perMinute && Valid() && View() == map[] && owned == {}
    {
      this.perMinute := perMinute;
      this.refillPerSec := perMinute as real / 60.0;
      this.buckets := map[];
      this.owned := {};
    }

    method Check(scope: string, born: real, now: real) returns (v: Verdict)
      requires Valid()
      modifies this, owned
      ensures Valid() && fresh(owned - old(owned))
      ensures v == Decision(perMinute, old(View()), InTokenTime(perMinute, Call(scope, born, now)))
      ensures View() == Checked(perMinute, old(View()), InTokenTime(perMinute, Call(scope, born, now)))
    {
      var made := TokenBucket.Create(perMinute, refillPerSec, born);
      if made.None? {
        return BadConfig;
      }
      var ok := SetDefaultConsume(scope, made.value, now);
      return if ok then Admitted else Limited;
    }

    /** Consumes one token from the bucket of the scope; `made` is that bucket if there was none. */
    method SetDefaultConsume(scope: string, made: TokenBucket, now: real) returns (ok: bool)
      requires Valid() && made !in owned
      requires made.capacity == perMinute && made.refill == refillPerSec
      modifies this, owned, made
      ensures Valid() && owned <= old(owned) + {made}
      ensures var b := if scope in old(View()) then old(View())[scope] else old(made.State());
        var q := Request(Ticks(refillPerSec, now), 1);
        && ok == Enough(perMinute, b, q)
        && View() == old(View())[scope := Consumed(perMinute, b, q)]
    {
      SetDefault(scope, made);
      ok := ConsumeFrom(scope, now);
    }

    /** Puts `made` under a scope that has no bucket yet. */
    method SetDefault(scope: string, made: TokenBucket)
      requires Valid() && made !in owned
      requires made.capacity == perMinute && made.refill == refillPerSec
      modifies this
      ensures Valid() && scope in buckets && owned <= old(owned) + {made}
      ensures View() == if scope in old(buckets) then old(View()) else old(View())[scope := made.State()]
    {
      if scope !in buckets {
        buckets := buckets[scope := made];
        owned := owned + {made};
      }
    }

    /** Consumes one token from the bucket of the scope, and leaves the other buckets alone. */
    method ConsumeFrom(scope: string, now: real) returns (ok: bool)
      requires Valid() && scope in buckets
      modifies buckets[scope]
      ensures Valid()
      ensures var b, q := old(View())[scope], Request(Ticks(refillPerSec, now), 1);
        && ok == Enough(perMinute, b, q)
        && View() == old(View())[scope := Consumed(perMinute, b, q)]
    {
      ghost var m := View();
      ok := buckets[scope].Consume(1, now);
      assert forall t :: t in m && t != scope ==> View()[t] == m[t];
    }
  }

  /** The buckets after the first k calls. */
  function LimiterAfter(perMinute: int, cs: seq<Call>, k: nat): (m: Buckets)
    requires k <= |cs|
    decreases k
  {
    if k == 0 then map[] else Checked(perMinute, LimiterAfter(perMinute, cs, k - 1), cs[k - 1])
  }

  function VerdictAt(perMinute: int, cs: seq<Call>, k: nat): (v: Verdict)
    requires k < |cs|
  {
    Decision(perMinute, LimiterAfter(perMinute, cs, k), cs[k])
  }

  /** What one scope alone sees: its calls, their outcomes, and when its bucket was made. */
  datatype ScopeView = ScopeView(born: real, h: seq<Request>, o: seq<bool>)

  function Noted(r: ScopeView, c: Call, b: bool): (r': ScopeView) {
    ScopeView(if r.h == [] then c.born else r.born, r.h + [Asked(c)], r.o + [b])
  }

  function SeenBy(perMinute: int, cs: seq<Call>, s: string, k: nat): (r: ScopeView)
    requires k <= |cs|
    ensures |r.h| == |r.o|
    decreases k
  {
    if k == 0 then ScopeView(0.0, [], [])
    else if cs[k - 1].scope != s then SeenBy(perMinute, cs, s, k - 1)
    else Noted(SeenBy(perMinute, cs, s, k - 1), cs[k - 1], VerdictAt(perMinute, cs, k - 1) == Admitted)
  }

  /** The single bucket that runs through the calls of r is in state b. */
  ghost predicate RunsTo(perMinute: int, r: ScopeView, b: Bucket) {
    && |r.h| == |r.o|
    && Decides(perMinute, r.born, r.h, r.o, |r.h|)
    && b == After(perMinute, r.born, r.h, |r.h|)
  }

  lemma RunsOn(perMinute: int, r: ScopeView, b: Bucket, c: Call)
    requires |r.h| == |r.o| && if r.h == [] then b == Bucket(perMinute as real, c.born) else RunsTo(perMinute, r, b)
    ensures RunsTo(perMinute, Noted(r, c, Enough(perMinute, b, Asked(c))), Consumed(perMinute, b, Asked(c)))
  {
    var born := if r.h == [] then c.born else r.born;
    var q, e := Asked(c), Enough(perMinute, b, Asked(c));
    Extend(perMinute, born, r.h, r.o, q, e, |r.h|);
    assert (r.h + [q])[|r.h|] == q && (r.o + [e])[|r.h|] == e;
  }

  /** Each scope behaves as a bucket of its own: its outcomes and its state are those of a single
      bucket fed with the calls on that scope alone. */
  lemma {:induction false} ScopesIsolated(perMinute: int, cs: seq<Call>, s: string, k: nat)
    requires perMinute > 0 && k <= |cs|
    ensures var m, r := LimiterAfter(perMinute, cs, k), SeenBy(perMinute, cs, s, k);
      && (s in m <==> r.h != [])
      && (s in m ==> RunsTo(perMinute, r, m[s]))
    decreases k
  {
    if k > 0 {
      ScopesIsolated(perMinute, cs, s, k - 1);
      var c, m := cs[k - 1], LimiterAfter(perMinute, cs, k - 1);
      if c.scope == s {
        RunsOn(perMinute, SeenBy(perMinute, cs, s, k - 1), Serving(perMinute, m, c), c);
      }
    }
  }

  /** The calls of cs that come in on s. */
  function On(cs: seq<Call>, s: string): (r: seq<Call>)
    decreases |cs|
  {
    if cs == [] then []
    else On(cs[..|cs| - 1], s) + if cs[|cs| - 1].scope == s then [cs[|cs| - 1]] else []
  }

  /** Calls on other scopes can be left out of a run without changing any outcome on s. */
  lemma {:induction false} OtherScopesIrrelevant(perMinute: int, cs: seq<Call>, s: string)
    requires perMinute > 0
    ensures SeenBy(perMinute, On(cs, s), s, |On(cs, s)|) == SeenBy(perMinute, cs, s, |cs|)
    decreases |cs|
  {
    if cs == [] {
    } else {
      var n := |cs| - 1;
      var c, p := cs[n], On(cs[..n], s);
      OtherScopesIrrelevant(perMinute, cs[..n], s);
      PrefixSame(perMinute, cs, n, s, n);
      if c.scope == s {
        assert (p + [c])[..|p|] == p;
        PrefixSame(perMinute, p + [c], |p|, s, |p|);
        SameServing(perMinute, cs, n, p + [c], |p|);
      } else {
        assert On(cs, s) == p;
      }
    }
  }

  /** Two runs that look the same to a scope decide its next call alike. */
  lemma SameServing(perMinute: int, cs: seq<Call>, k: nat, ds: seq<Call>, l: nat)
    requires perMinute > 0 && k < |cs| && l < |ds| && cs[k] == ds[l]
    requires SeenBy(perMinute, cs, cs[k].scope, k) == SeenBy(perMinute, ds, cs[k].scope, l)
    ensures VerdictAt(perMinute, cs, k) == VerdictAt(perMinute, ds, l)
  {
    ScopesIsolated(perMinute, cs, cs[k].scope, k);
    ScopesIsolated(perMinute, ds, cs[k].scope, l);
  }

  lemma {:induction false} PrefixSame(perMinute: int, cs: seq<Call>, n: nat, s: string, k: nat)
    requires k <= n <= |cs|
    ensures LimiterAfter(perMinute, cs, k) == LimiterAfter(perMinute, cs[..n], k)
    ensures SeenBy(perMinute, cs, s, k) == SeenBy(perMinute, cs[..n], s, k)
    decreases k
  {
    if k > 0 {
      PrefixSame(perMinute, cs, n, s, k - 1);
    }
  }

  // ---------- the bound on one scope ----------

  /** The clock of a run of the limiter never goes back. */
  ghost predicate Ticking(cs: seq<Call>) {
    && (forall i :: 0 <= i < |cs| ==> cs[i].born <= cs[i].at)
    && (forall i, j :: 0 <= i < j < |cs| ==> cs[i].at <= cs[j].born)
  }

  /** How many of the calls i .. k-1 on scope s are admitted. */
  function AdmittedOn(perMinute: int, cs: seq<Call>, s: string, i: nat, k: nat): (n: nat)
    requires k <= |cs|
    decreases k
  {
    if k <= i then 0
    else if cs[k - 1].scope == s && VerdictAt(perMinute, cs, k - 1) == Admitted
    then AdmittedOn(perMinute, cs, s, i, k - 1) + 1
    else AdmittedOn(perMinute, cs, s, i, k - 1)
  }

  /** The calls of r are unit calls in the order of the clock, all of them at or before t. */
  ghost predicate InOrder(r: ScopeView, t: real) {
    && Monotone(r.born, r.h) && UnitCalls(r.h)
    && (forall j :: 0 <= j < |r.h| ==> r.h[j].at <= t)
  }

  lemma {:induction false} SeenInOrder(perMinute: int, cs: seq<Call>, s: string, k: nat)
    requires Ticking(cs) && 0 < k <= |cs|
    ensures InOrder(SeenBy(perMinute, cs, s, k), cs[k - 1].at)
    decreases k
  {
    var c := cs[k - 1];
    if k > 1 {
      SeenInOrder(perMinute, cs, s, k - 1);
      NotedInOrder(SeenBy(perMinute, cs, s, k - 1), cs[k - 2].at, c, VerdictAt(perMinute, cs, k - 1) == Admitted);
    }
  }

  lemma NotedInOrder(r: ScopeView, t: real, c: Call, b: bool)
    requires InOrder(r, t) && t <= c.born <= c.at
    ensures InOrder(r, c.at) && InOrder(Noted(r, c, b), c.at)
  {
    var h := r.h + [Asked(c)];
    assert forall i :: 0 <= i < |r.h| ==> h[i] == r.h[i];
    assert r.h != [] ==> r.born <= r.h[0].at;
    assert Monotone(Noted(r, c, b).born, h);
  }

  /** Since call i, the scope has seen only calls at or after it, and as many outcomes of true as
      AdmittedOn counts. */
  lemma {:induction false} SeenSince(perMinute: int, cs: seq<Call>, s: string, i: nat, k: nat)
    requires Ticking(cs) && i <= k <= |cs|
    ensures var n, r := |SeenBy(perMinute, cs, s, i).h|, SeenBy(perMinute, cs, s, k);
      && n <= |r.h|
      && (forall j :: n <= j < |r.h| ==> cs[i].at <= r.h[j].at)
      && Count(r.o, n, |r.h|) == AdmittedOn(perMinute, cs, s, i, k)
    decreases k
  {
    if i < k {
      SeenSince(perMinute, cs, s, i, k - 1);
      var n, r, c := |SeenBy(perMinute, cs, s, i).h|, SeenBy(perMinute, cs, s, k - 1), cs[k - 1];
      if c.scope == s {
        var b := VerdictAt(perMinute, cs, k - 1) == Admitted;
        CountAppend(r.o, b, n);
        var h := r.h + [Asked(c)];
        assert forall j :: 0 <= j < |r.h| ==> h[j] == r.h[j];
        assert cs[i].at <= c.at;
      }
    }
  }

  lemma {:induction false} CountLocal(o: seq<bool>, b: seq<bool>, i: nat, k: nat)
    requires k <= |o| && k <= |b| && Agree(o, b, k)
    ensures Count(o, i, k) == Count(b, i, k)
    decreases k
  {
    if i < k {
      CountLocal(o, b, i, k - 1);
    }
  }

  lemma CountAppend(o: seq<bool>, b: bool, i: nat)
    requires i <= |o|
    ensures Count(o + [b], i, |o| + 1) == Count(o, i, |o|) + if b then 1 else 0
  {
    CountLocal(o + [b], o, i, |o|);
  }

  /** On one scope, no stretch of the run admits more than the capacity and what comes in during it. */
  lemma ScopeWindow(perMinute: int, cs: seq<Call>, s: string, i: nat, k: nat)
    requires perMinute > 0 && Ticking(cs) && i < k <= |cs|
    ensures AdmittedOn(perMinute, cs, s, i, k) as real <= perMinute as real + (cs[k - 1].at - cs[i].at)
  {
    var r, n := SeenBy(perMinute, cs, s, k), |SeenBy(perMinute, cs, s, i).h|;
    SeenSince(perMinute, cs, s, i, k);
    SeenInOrder(perMinute, cs, s, k);
    if n < |r.h| {
      ScopesIsolated(perMinute, cs, s, k);
      DecidesWhole(perMinute, r.born, r.h, r.o);
      ExactWindow(perMinute, r, n);
    } else {
      assert cs[i].at <= cs[k - 1].at;
    }
  }

  lemma ExactWindow(perMinute: int, r: ScopeView, n: nat)
    requires perMinute > 0 && Monotone(r.born, r.h) && UnitCalls(r.h) && n < |r.h|
    requires r.o == Outcomes(perMinute, r.born, r.h)
    ensures Count(r.o, n, |r.h|) as real <= perMinute as real + (r.h[|r.h| - 1].at - r.h[n].at)
  {
    OutcomesExact(perMinute, r.born, r.h);
    WindowBound(perMinute, r.h, r.o, n, |r.h|);
    TakenIsCount(r.h, r.o, n, |r.h|);
  }

  // ---------- each scope is exact ----------

  /** A call of the scope is where the scope has seen as many calls as before it. */
  lemma {:induction false} SeenAt(perMinute: int, cs: seq<Call>, s: string, i: nat, k: nat)
    requires i < k <= |cs| && cs[i].scope == s
    ensures var n, r := |SeenBy(perMinute, cs, s, i).h|, SeenBy(perMinute, cs, s, k);
      n < |r.h| && r.h[n] == Asked(cs[i])
    decreases k
  {
    if i + 1 < k {
      SeenAt(perMinute, cs, s, i, k - 1);
    }
  }

  lemma {:induction false} CallSeen(perMinute: int, cs: seq<Call>, s: string, n: nat, k: nat) returns (i: nat)
    requires k <= |cs| && n < |SeenBy(perMinute, cs, s, k).h|
    ensures i < k && cs[i].scope == s && |SeenBy(perMinute, cs, s, i).h| == n
    decreases k
  {
    if n < |SeenBy(perMinute, cs, s, k - 1).h| {
      i := CallSeen(perMinute, cs, s, n, k - 1);
    } else {
      i := k - 1;
    }
  }

  /** What the scope of call k has been admitted since call i, with call k, is at most the limit and what
      comes in meanwhile. */
  ghost predicate FitsSince(perMinute: int, cs: seq<Call>, i: nat, k: nat)
    requires i <= k < |cs|
  {
    AdmittedOn(perMinute, cs, cs[k].scope, i, k) as real + 1.0 <= perMinute as real + (cs[k].at - cs[i].at)
  }

  /** It is so for each earlier or current call on that scope. */
  ghost predicate FitsScope(perMinute: int, cs: seq<Call>, k: nat)
    requires k < |cs|
  {
    forall i: nat {:trigger FitsSince(perMinute, cs, i, k)} ::
      i <= k && cs[i].scope == cs[k].scope ==> FitsSince(perMinute, cs, i, k)
  }

  /** What the scope has taken from its n-th call on is what it has been admitted since that call. */
  lemma TakenOnScope(perMinute: int, cs: seq<Call>, i: nat, k: nat)
    requires Ticking(cs) && i <= k < |cs| && cs[i].scope == cs[k].scope
    ensures var s := cs[k].scope;
      var n, r, j := |SeenBy(perMinute, cs, s, i).h|, SeenBy(perMinute, cs, s, k + 1), |SeenBy(perMinute, cs, s, k).h|;
      && n <= j == |r.h| - 1 && r.h[n] == Asked(cs[i]) && r.h[j] == Asked(cs[k])
      && Taken(r.h, r.o, n, j) == AdmittedOn(perMinute, cs, s, i, k) as real
  {
    var s := cs[k].scope;
    var n, q, r := |SeenBy(perMinute, cs, s, i).h|, SeenBy(perMinute, cs, s, k), SeenBy(perMinute, cs, s, k + 1);
    SeenSince(perMinute, cs, s, i, k);
    SeenAt(perMinute, cs, s, i, k + 1);
    SeenInOrder(perMinute, cs, s, k + 1);
    CountLocal(r.o, q.o, n, |q.h|);
    TakenIsCount(r.h, r.o, n, |q.h|);
  }

  /** Call k fits the window that opens with call n. */
  ghost predicate FitsFrom(capacity: int, h: seq<Request>, o: seq<bool>, n: nat, k: nat)
    requires |o| == |h| && n <= k < |h|
  {
    Taken(h, o, n, k) + h[k].n as real <= capacity as real + (h[k].at - h[n].at)
  }

  lemma FitsFromEach(capacity: int, h: seq<Request>, o: seq<bool>, k: nat)
    requires |o| == |h| && k < |h|
    ensures Fits(capacity, h, o, k) <==> forall n: nat :: n <= k ==> FitsFrom(capacity, h, o, n, k)
  {
    if Fits(capacity, h, o, k) {
      forall n: nat | n <= k ensures FitsFrom(capacity, h, o, n, k) {
        assert Taken(h, o, n, k) + h[k].n as real <= capacity as real + (h[k].at - h[n].at);
      }
    }
    if forall n: nat :: n <= k ==> FitsFrom(capacity, h, o, n, k) {
      forall n | 0 <= n <= k ensures Taken(h, o, n, k) + h[k].n as real <= capacity as real + (h[k].at - h[n].at) {
        assert FitsFrom(capacity, h, o, n, k);
      }
    }
  }

  /** The verdict on call k is the exact outcome of the last call that its scope has seen. */
  lemma LastDecision(perMinute: int, cs: seq<Call>, k: nat)
    requires perMinute > 0 && Ticking(cs) && k < |cs|
    ensures var r, j := SeenBy(perMinute, cs, cs[k].scope, k + 1), |SeenBy(perMinute, cs, cs[k].scope, k).h|;
      |r.h| == j + 1 && (VerdictAt(perMinute, cs, k) == Admitted <==> Fits(perMinute, r.h, r.o, j))
  {
    var s := cs[k].scope;
    var r, j := SeenBy(perMinute, cs, s, k + 1), |SeenBy(perMinute, cs, s, k).h|;
    assert |r.h| == j + 1 && (r.o[j] <==> VerdictAt(perMinute, cs, k) == Admitted);
    ScopeOutcomes(perMinute, cs, s, k + 1);
    AdmittedIffFits(perMinute, r.born, r.h, j);
  }

  lemma ScopeOutcomes(perMinute: int, cs: seq<Call>, s: string, k: nat)
    requires perMinute > 0 && Ticking(cs) && 0 < k <= |cs| && SeenBy(perMinute, cs, s, k).h != []
    ensures var r := SeenBy(perMinute, cs, s, k);
      Monotone(r.born, r.h) && r.o == Outcomes(perMinute, r.born, r.h)
  {
    var r := SeenBy(perMinute, cs, s, k);
    SeenInOrder(perMinute, cs, s, k);
    ScopesIsolated(perMinute, cs, s, k);
    DecidesWhole(perMinute, r.born, r.h, r.o);
  }

  /** Each scope is exact: a call is admitted if and only if it fits every window of its scope. */
  lemma ScopeExact(perMinute: int, cs: seq<Call>, k: nat)
    requires perMinute > 0 && Ticking(cs) && k < |cs|
    ensures VerdictAt(perMinute, cs, k) == Admitted <==> FitsScope(perMinute, cs, k)
  {
    var s := cs[k].scope;
    var r, j := SeenBy(perMinute, cs, s, k + 1), |SeenBy(perMinute, cs, s, k).h|;
    LastDecision(perMinute, cs, k);
    FitsFromEach(perMinute, r.h, r.o, j);
    if FitsScope(perMinute, cs, k) {
      forall n: nat | n <= j ensures FitsFrom(perMinute, r.h, r.o, n, j) {
        var i := CallSeen(perMinute, cs, s, n, k + 1);
        SameWindow(perMinute, cs, i, k);
        assert FitsSince(perMinute, cs, i, k);
      }
    }
    if forall n: nat :: n <= j ==> FitsFrom(perMinute, r.h, r.o, n, j) {
      forall i: nat | i <= k && cs[i].scope == s ensures FitsSince(perMinute, cs, i, k) {
        SameWindow(perMinute, cs, i, k);
      }
    }
  }

  lemma SameWindow(perMinute: int, cs: seq<Call>, i: nat, k: nat)
    requires Ticking(cs) && i <= k < |cs| && cs[i].scope == cs[k].scope
    ensures var s := cs[k].scope;
      var n, r, j := |SeenBy(perMinute, cs, s, i).h|, SeenBy(perMinute, cs, s, k + 1), |SeenBy(perMinute, cs, s, k).h|;
      && n <= j < |r.h|
      && (FitsFrom(perMinute, r.h, r.o, n, j) <==> FitsSince(perMinute, cs, i, k))
  {
    TakenOnScope(perMinute, cs, i, k);
  }

  /** A run of the limiter whose readings are in seconds, in token time. */
  function RunInTokenTime(perMinute: int, cs: seq<Call>): (ds: seq<Call>)
    ensures |ds| == |cs| && forall i :: 0 <= i < |cs| ==> ds[i] == InTokenTime(perMinute, cs[i])
  {
    seq(|cs|, i requires 0 <= i < |cs| => InTokenTime(perMinute, cs[i]))
  }

  lemma TickingScaled(perMinute: int, cs: seq<Call>)
    requires perMinute > 0 && Ticking(cs)
    ensures Ticking(RunInTokenTime(perMinute, cs))
  {
    var ds := RunInTokenTime(perMinute, cs);
    forall i | 0 <= i < |ds| ensures ds[i].born <= ds[i].at {
      ScaleMonotone(Rate(perMinute), cs[i].born, cs[i].at);
    }
    forall i, j | 0 <= i < j < |ds| ensures ds[i].at <= ds[j].born {
      ScaleMonotone(Rate(perMinute), cs[i].at, cs[j].born);
    }
  }

  /** The same in seconds, where per_minute tokens come in every sixty seconds. */
  ghost predicate FitsSinceSeconds(perMinute: int, cs: seq<Call>, ds: seq<Call>, i: nat, k: nat)
    requires i <= k < |cs| == |ds|
  {
    AdmittedOn(perMinute, ds, cs[k].scope, i, k) as real + 1.0
    <= perMinute as real + perMinute as real * (cs[k].at - cs[i].at) / 60.0
  }

  ghost predicate FitsScopeSeconds(perMinute: int, cs: seq<Call>, ds: seq<Call>, k: nat)
    requires k < |cs| == |ds|
  {
    forall i: nat {:trigger FitsSinceSeconds(perMinute, cs, ds, i, k)} ::
      i <= k && cs[i].scope == cs[k].scope ==> FitsSinceSeconds(perMinute, cs, ds, i, k)
  }

  /** Over any run, a call is admitted if and only if, for each earlier or current call on its scope, the
      calls admitted on the scope since then and this one are at most per_minute and per_minute / 60 for
      each second since. */
  lemma ScopeExactSeconds(perMinute: int, cs: seq<Call>, k: nat)
    requires perMinute > 0 && Ticking(cs) && k < |cs|
    ensures var ds := RunInTokenTime(perMinute, cs);
      VerdictAt(perMinute, ds, k) == Admitted <==> FitsScopeSeconds(perMinute, cs, ds, k)
  {
    var ds := RunInTokenTime(perMinute, cs);
    TickingScaled(perMinute, cs);
    ScopeExact(perMinute, ds, k);
    SameInSeconds(perMinute, cs, ds, k);
  }

  lemma SameInSeconds(perMinute: int, cs: seq<Call>, ds: seq<Call>, k: nat)
    requires k < |cs| == |ds| && forall i :: 0 <= i < |cs| ==> ds[i] == InTokenTime(perMinute, cs[i])
    ensures FitsScope(perMinute, ds, k) <==> FitsScopeSeconds(perMinute, cs, ds, k)
  {
    forall i: nat | i <= k
      ensures FitsSince(perMinute, ds, i, k) <==> FitsSinceSeconds(perMinute, cs, ds, i, k)
    {
      SameSinceSeconds(perMinute, cs, ds, i, k);
    }
    assert forall i: nat :: i <= k ==> ds[i].scope == cs[i].scope;
  }

  lemma SameSinceSeconds(perMinute: int, cs: seq<Call>, ds: seq<Call>, i: nat, k: nat)
    requires i <= k < |cs| == |ds| && ds[i] == InTokenTime(perMinute, cs[i]) && ds[k] == InTokenTime(perMinute, cs[k])
    ensures FitsSince(perMinute, ds, i, k) <==> FitsSinceSeconds(perMinute, cs, ds, i, k)
  {
    TokensOfSeconds(perMinute, cs[i].at, cs[k].at);
  }

  lemma TokensOfSeconds(perMinute: int, a: real, b: real)
    ensures Ticks(Rate(perMinute), b) - Ticks(Rate(perMinute), a) == perMinute as real * (b - a) / 60.0
  {
  }

  /** Whatever the other scopes do, no sixty seconds see more than twice the per-minute limit of
      admitted calls on one scope. */
  lemma MinuteBound(perMinute: int, cs: seq<Call>, s: string, i: nat, k: nat)
    requires perMinute > 0 && Ticking(cs) && i < k <= |cs|
    requires cs[k - 1].at - cs[i].at <= 60.0
    ensures AdmittedOn(perMinute, RunInTokenTime(perMinute, cs), s, i, k) <= 2 * perMinute
  {
    var ds := RunInTokenTime(perMinute, cs);
    assert Ticking(ds) by { TickingScaled(perMinute, cs); }
    assert ds[k - 1].at - ds[i].at <= perMinute as real by { MinuteOfTokens(perMinute, cs[i].at, cs[k - 1].at); }
    ScopeWindow(perMinute, ds, s, i, k);
    Whole(AdmittedOn(perMinute, ds, s, i, k), perMinute, ds[k - 1].at - ds[i].at);
  }

  lemma Whole(n: int, m: int, d: real)
    requires n as real <= m as real + d && d <= m as real
    ensures n <= 2 * m
  {
  }

  lemma MinuteOfTokens(perMinute: int, a: real, b: real)
    requires perMinute > 0 && b - a <= 60.0
    ensures Ticks(Rate(perMinute), b) - Ticks(Rate(perMinute), a) <= perMinute as real
  {
    LazyRefill(Rate(perMinute), b, a);
    ScaleMonotone(Rate(perMinute), b - a, 60.0);
  }
}
