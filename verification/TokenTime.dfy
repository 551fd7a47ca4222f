/** A token bucket that gains one token per unit of time: the theory of the rate limiter in
    token time, where a span of time is measured by the tokens it brings in. */
module TokenTime {
  import opened Prelude

  // ---------- one bucket ----------

  datatype Bucket = Bucket(tokens: real, last: real)

  /** A call consume(n) made at time `at`. */
  datatype Request = Request(at: real, n: int)

  /** The lazy refill. */
  function Level(capacity: int, b: Bucket, now: real): (x: real) {
    Min(capacity as real, b.tokens + (now - b.last))
  }

  predicate Enough(capacity: int, b: Bucket, q: Request) {
    Level(capacity, b, q.at) >= q.n as real
  }

  /** The bucket after one call; a refused call still stores the refill. */
  function Consumed(capacity: int, b: Bucket, q: Request): (b': Bucket) {
    var x := Level(capacity, b, q.at);
    Bucket(if Enough(capacity, b, q) then x - q.n as real else x, q.at)
  }

  /** The bucket, created full at time `born`, after the first k calls of h. */
  function After(capacity: int, born: real, h: seq<Request>, k: nat): (b: Bucket)
    requires k <= |h|
    decreases k
  {
    if k == 0 then Bucket(capacity as real, born)
    else Consumed(capacity, After(capacity, born, h, k - 1), h[k - 1])
  }

  /** Which calls of h are admitted. */
  function Outcomes(capacity: int, born: real, h: seq<Request>): (o: seq<bool>)
    ensures |o| == |h|
  {
    seq(|h|, k requires 0 <= k < |h| =>
      Enough(capacity, After(capacity, born, h, k), h[k]))
  }

  /** o says of each of the first k calls whether the bucket admits it. */
  ghost predicate Decides(capacity: int, born: real, h: seq<Request>, o: seq<bool>, k: nat)
    requires |o| == |h| && k <= |h|
    decreases k
  {
    k == 0 || (Decides(capacity, born, h, o, k - 1)
               && o[k - 1] == Enough(capacity, After(capacity, born, h, k - 1), h[k - 1]))
  }

  lemma {:induction false} DecidesEach(capacity: int, born: real, h: seq<Request>, o: seq<bool>, k: nat)
    requires |o| == |h| && k <= |h|
    requires forall i :: 0 <= i < |h| ==> o[i] == Enough(capacity, After(capacity, born, h, i), h[i])
    ensures Decides(capacity, born, h, o, k)
    decreases k
  {
    if k > 0 {
      DecidesEach(capacity, born, h, o, k - 1);
    }
  }

  lemma OutcomesDecide(capacity: int, born: real, h: seq<Request>, k: nat)
    requires k <= |h|
    ensures Decides(capacity, born, h, Outcomes(capacity, born, h), k)
  {
    DecidesEach(capacity, born, h, Outcomes(capacity, born, h), k);
  }

  lemma DecidesWhole(capacity: int, born: real, h: seq<Request>, o: seq<bool>)
    requires |o| == |h| && Decides(capacity, born, h, o, |h|)
    ensures o == Outcomes(capacity, born, h)
  {
    var b := Outcomes(capacity, born, h);
    OutcomesDecide(capacity, born, h, |h|);
    DecidesUnique(capacity, born, h, o, b, |h|);
    assert o[..|h|] == o && b[..|h|] == b;
  }

  lemma {:induction false} DecidesUnique(capacity: int, born: real, h: seq<Request>, o: seq<bool>, b: seq<bool>, k: nat)
    requires |o| == |b| == |h| && k <= |h|
    requires Decides(capacity, born, h, o, k) && Decides(capacity, born, h, b, k)
    ensures o[..k] == b[..k]
    decreases k
  {
    if k > 0 {
      DecidesUnique(capacity, born, h, o, b, k - 1);
      assert o[..k] == o[..k - 1] + [o[k - 1]] && b[..k] == b[..k - 1] + [b[k - 1]];
    }
  }

  /** What the calls i .. k-1 took under the outcomes o. */
  function Taken(h: seq<Request>, o: seq<bool>, i: nat, k: nat): (n: real)
    requires |o| == |h| && k <= |h|
    decreases k
  {
    if k <= i then 0.0 else Taken(h, o, i, k - 1) + Cost(h, o, k - 1)
  }

  /** What call k took. */
  function Cost(h: seq<Request>, o: seq<bool>, k: nat): (n: real)
    requires |o| == |h| && k < |h|
  {
    if o[k] then h[k].n as real else 0.0
  }

  /** Call k fits every window that ends with it: for each earlier or current call i, what was
      taken since i, with call k, is at most the capacity plus the refill since i. */
  ghost predicate Fits(capacity: int, h: seq<Request>, o: seq<bool>, k: nat)
    requires |o| == |h| && k < |h|
  {
    forall i :: 0 <= i <= k ==>
      Taken(h, o, i, k) + h[k].n as real <= capacity as real + (h[k].at - h[i].at)
  }

  /** The clock never goes back. */
  ghost predicate Monotone(born: real, h: seq<Request>) {
    && (forall i :: 0 <= i < |h| ==> born <= h[i].at)
    && (forall i, j :: 0 <= i <= j < |h| ==> h[i].at <= h[j].at)
  }

  /** What is left at time t of a window opened at call i. */
  ghost function Headroom(capacity: int, h: seq<Request>, o: seq<bool>, i: nat, k: nat, t: real): (x: real)
    requires |o| == |h| && i < |h| && k <= |h|
  {
    capacity as real + (t - h[i].at) - Taken(h, o, i, k)
  }

  lemma HeadroomStep(capacity: int, h: seq<Request>, o: seq<bool>, i: nat, k: nat, t: real)
    requires |o| == |h| && i < k <= |h|
    ensures Headroom(capacity, h, o, i, k, t)
         == Headroom(capacity, h, o, i, k - 1, h[k - 1].at)
          + (t - h[k - 1].at) - Cost(h, o, k - 1)
  {
  }

  /** v is within the capacity, within what is left since the creation, and within what is left
      of every window opened by one of the first k calls. */
  ghost predicate Available(capacity: int, born: real, h: seq<Request>, o: seq<bool>, k: nat, t: real, v: real)
    requires |o| == |h| && k <= |h|
  {
    && v <= capacity as real
    && v <= capacity as real + (t - born) - Taken(h, o, 0, k)
    && (forall i :: 0 <= i < k ==> v <= Headroom(capacity, h, o, i, k, t))
  }

  lemma AvailableStep(capacity: int, born: real, h: seq<Request>, o: seq<bool>, k: nat, t: real, v: real)
    requires |o| == |h| && 0 < k <= |h|
    ensures Available(capacity, born, h, o, k, t, v)
       <==> && v <= capacity as real
            && Available(capacity, born, h, o, k - 1, h[k - 1].at, v + Cost(h, o, k - 1) - (t - h[k - 1].at))
  {
    var m, e, v' := k - 1, h[k - 1], v + Cost(h, o, k - 1) - (t - h[k - 1].at);
    forall i | 0 <= i < m
      ensures v <= Headroom(capacity, h, o, i, k, t) <==> v' <= Headroom(capacity, h, o, i, m, e.at)
    {
      HeadroomStep(capacity, h, o, i, k, t);
    }
    assert Taken(h, o, m, m) == 0.0;
    if Available(capacity, born, h, o, m, e.at, v') && v <= capacity as real {
      forall i | 0 <= i < k ensures v <= Headroom(capacity, h, o, i, k, t) {
        assert i == m || v' <= Headroom(capacity, h, o, i, m, e.at);
      }
    }
    if Available(capacity, born, h, o, k, t, v) {
      assert v <= Headroom(capacity, h, o, m, k, t);
      forall i | 0 <= i < m ensures v' <= Headroom(capacity, h, o, i, m, e.at) {
        assert v <= Headroom(capacity, h, o, i, k, t);
      }
    }
  }

  lemma LevelStep(capacity: int, b: Bucket, q: Request, t: real, v: real)
    ensures v <= Level(capacity, Consumed(capacity, b, q), t)
       <==> && v <= capacity as real
            && v + (if Enough(capacity, b, q) then q.n as real else 0.0) - (t - q.at) <= Level(capacity, b, q.at)
  {
  }

  /** The level at time t reaches v exactly when v is available. */
  lemma {:induction false} LevelExact(capacity: int, born: real, h: seq<Request>, o: seq<bool>,
                                      k: nat, t: real, v: real)
    requires |o| == |h| && k <= |h| && Decides(capacity, born, h, o, k)
    ensures v <= Level(capacity, After(capacity, born, h, k), t) <==> Available(capacity, born, h, o, k, t, v)
    decreases k
  {
    if k == 0 {
      assert Taken(h, o, 0, 0) == 0.0;
    } else {
      var e := h[k - 1];
      LevelExact(capacity, born, h, o, k - 1, e.at, v + Cost(h, o, k - 1) - (t - e.at));
      AvailableStep(capacity, born, h, o, k, t, v);
      LevelStep(capacity, After(capacity, born, h, k - 1), e, t, v);
    }
  }

  lemma FitsUnfold(capacity: int, h: seq<Request>, o: seq<bool>, k: nat)
    requires |o| == |h| && k < |h|
    ensures Fits(capacity, h, o, k)
       <==> && h[k].n as real <= capacity as real
            && (forall i :: 0 <= i < k ==> h[k].n as real <= Headroom(capacity, h, o, i, k, h[k].at))
  {
    var n, t := h[k].n as real, h[k].at;
    assert Taken(h, o, k, k) == 0.0;
    if Fits(capacity, h, o, k) {
      assert Taken(h, o, k, k) + n <= capacity as real + (t - h[k].at);
    } else {
      var i :| 0 <= i <= k && Taken(h, o, i, k) + n > capacity as real + (t - h[i].at);
      assert i < k ==> n > Headroom(capacity, h, o, i, k, t);
    }
  }

  /** The bucket is exact: a call is admitted if and only if it fits every window ending with it. */
  lemma AdmittedIffFits(capacity: int, born: real, h: seq<Request>, k: nat)
    requires Monotone(born, h) && k < |h|
    ensures var o := Outcomes(capacity, born, h); o[k] <==> Fits(capacity, h, o, k)
  {
    var o := Outcomes(capacity, born, h);
    OutcomesDecide(capacity, born, h, k);
    LevelExact(capacity, born, h, o, k, h[k].at, h[k].n as real);
    FitsUnfold(capacity, h, o, k);
    // The window opened at the creation is never tighter than the one opened at the first call.
    if k > 0 {
      assert Headroom(capacity, h, o, 0, k, h[k].at) <= capacity as real + (h[k].at - born) - Taken(h, o, 0, k);
    }
  }

  /** A schedule that never exceeds a window. */
  ghost predicate Conforming(capacity: int, h: seq<Request>, o: seq<bool>) {
    |o| == |h| && forall k :: 0 <= k < |h| && o[k] ==> Fits(capacity, h, o, k)
  }

  /** A schedule that never exceeds a window and never refuses a call that fits. */
  ghost predicate Exact(capacity: int, h: seq<Request>, o: seq<bool>) {
    |o| == |h| && forall k :: 0 <= k < |h| ==> (o[k] <==> Fits(capacity, h, o, k))
  }

  lemma OutcomesExact(capacity: int, born: real, h: seq<Request>)
    requires Monotone(born, h)
    ensures Exact(capacity, h, Outcomes(capacity, born, h))
  {
    forall k | 0 <= k < |h|
      ensures var o := Outcomes(capacity, born, h); o[k] <==> Fits(capacity, h, o, k)
    {
      AdmittedIffFits(capacity, born, h, k);
    }
  }

  /** The two schedules agree on the first k calls. */
  ghost predicate Agree(o: seq<bool>, b: seq<bool>, k: nat)
    requires k <= |o| && k <= |b|
  {
    forall i :: 0 <= i < k ==> o[i] == b[i]
  }

  lemma {:induction false} TakenLocal(h: seq<Request>, o: seq<bool>, b: seq<bool>, i: nat, k: nat)
    requires |o| == |b| == |h| && k <= |h| && Agree(o, b, k)
    ensures Taken(h, o, i, k) == Taken(h, b, i, k)
    decreases k
  {
    if i < k {
      TakenLocal(h, o, b, i, k - 1);
    }
  }

  lemma FitsLocal(capacity: int, h: seq<Request>, o: seq<bool>, b: seq<bool>, k: nat)
    requires |o| == |b| == |h| && k < |h| && Agree(o, b, k)
    ensures Fits(capacity, h, o, k) <==> Fits(capacity, h, b, k)
  {
    forall i | 0 <= i <= k ensures Taken(h, o, i, k) == Taken(h, b, i, k) {
      TakenLocal(h, o, b, i, k);
    }
  }

  /** There is only one exact schedule, so the window rule is a complete specification. */
  lemma {:induction false} ExactUnique(capacity: int, h: seq<Request>, o: seq<bool>, b: seq<bool>, k: nat)
    requires Exact(capacity, h, o) && Exact(capacity, h, b) && k <= |h|
    ensures Agree(o, b, k)
    decreases k
  {
    if k > 0 {
      ExactUnique(capacity, h, o, b, k - 1);
      ExactNext(capacity, h, o, b, k - 1);
    }
  }

  lemma ExactNext(capacity: int, h: seq<Request>, o: seq<bool>, b: seq<bool>, k: nat)
    requires |o| == |b| == |h| && k < |h| && Agree(o, b, k)
    requires (o[k] <==> Fits(capacity, h, o, k)) && (b[k] <==> Fits(capacity, h, b, k))
    ensures Agree(o, b, k + 1)
  {
    FitsLocal(capacity, h, o, b, k);
  }

  /** The calls i .. k-1 took at most the capacity plus what came in between the first and the last. */
  lemma {:induction false} WindowBound(capacity: int, h: seq<Request>, o: seq<bool>, i: nat, k: nat)
    requires capacity >= 0 && Conforming(capacity, h, o) && i < k <= |h|
    requires forall j, m :: 0 <= j <= m < |h| ==> h[j].at <= h[m].at
    ensures Taken(h, o, i, k) <= capacity as real + (h[k - 1].at - h[i].at)
    decreases k
  {
    assert i == k - 1 ==> Taken(h, o, i, k - 1) == 0.0;
    if o[k - 1] {
      assert Fits(capacity, h, o, k - 1);
    } else if i < k - 1 {
      WindowBound(capacity, h, o, i, k - 1);
    }
  }

  ghost predicate UnitCalls(h: seq<Request>) {
    forall i :: 0 <= i < |h| ==> h[i].n == 1
  }

  /** How many of the calls i .. k-1 are admitted. */
  function Count(o: seq<bool>, i: nat, k: nat): (n: nat)
    requires k <= |o|
    decreases k
  {
    if k <= i then 0 else Count(o, i, k - 1) + if o[k - 1] then 1 else 0
  }

  lemma {:induction false} TakenIsCount(h: seq<Request>, o: seq<bool>, i: nat, k: nat)
    requires |o| == |h| && k <= |h| && UnitCalls(h)
    ensures Taken(h, o, i, k) == Count(o, i, k) as real
    decreases k
  {
    if i < k {
      TakenIsCount(h, o, i, k - 1);
    }
  }

  lemma {:induction false} CountSplit(o: seq<bool>, i: nat, k: nat)
    requires i <= k <= |o|
    ensures Count(o, 0, k) == Count(o, 0, i) + Count(o, i, k)
    decreases k
  {
    if i < k {
      CountSplit(o, i, k - 1);
    }
  }

  /** An exact schedule refuses nothing that the windows allow: no schedule of unit calls that
      keeps every window has admitted more of them at any moment. */
  lemma {:induction false} ExactIsMaximal(capacity: int, h: seq<Request>, b: seq<bool>, o: seq<bool>, k: nat)
    requires UnitCalls(h) && Exact(capacity, h, b) && Conforming(capacity, h, o) && k <= |h|
    ensures Count(o, 0, k) <= Count(b, 0, k)
    decreases k
  {
    if k == 0 {
    } else {
      ExactIsMaximal(capacity, h, b, o, k - 1);
      if o[k - 1] && !b[k - 1] {
        var i := TighterWindow(capacity, h, o, b, k - 1);
        CountSplit(o, i, k - 1);
        CountSplit(b, i, k - 1);
        ExactIsMaximal(capacity, h, b, o, i);
      }
    }
  }

  /** Where o fits a unit call that b does not, b has admitted more since some earlier call. */
  lemma TighterWindow(capacity: int, h: seq<Request>, o: seq<bool>, b: seq<bool>, k: nat) returns (i: nat)
    requires |o| == |b| == |h| && k < |h| && UnitCalls(h)
    requires Fits(capacity, h, o, k) && !Fits(capacity, h, b, k)
    ensures i <= k && Count(o, i, k) < Count(b, i, k)
  {
    i :| 0 <= i <= k && Taken(h, b, i, k) + h[k].n as real > capacity as real + (h[k].at - h[i].at);
    assert Taken(h, o, i, k) + h[k].n as real <= capacity as real + (h[k].at - h[i].at);
    TakenIsCount(h, o, i, k);
    TakenIsCount(h, b, i, k);
  }

  // ---------- refused calls are neutral ----------

  /** The first k elements of xs without the dropped ones. */
  function Select<T>(xs: seq<T>, drop: seq<bool>, k: nat): (r: seq<T>)
    requires k <= |xs| && |drop| == |xs|
    decreases k
  {
    if k == 0 then [] else Select(xs, drop, k - 1) + if drop[k - 1] then [] else [xs[k - 1]]
  }

  /** What happens after the first k calls does not reach back to them. */
  lemma {:induction false} Extend(capacity: int, born: real, h: seq<Request>, o: seq<bool>, e: Request, b: bool, k: nat)
    requires |o| == |h| && k <= |h| && Decides(capacity, born, h, o, k)
    ensures Decides(capacity, born, h + [e], o + [b], k)
    ensures After(capacity, born, h + [e], k) == After(capacity, born, h, k)
    decreases k
  {
    if k > 0 {
      Extend(capacity, born, h, o, e, b, k - 1);
      assert (h + [e])[k - 1] == h[k - 1] && (o + [b])[k - 1] == o[k - 1];
    }
  }

  /** a is what b becomes when it is refilled at a's last update. */
  ghost predicate Caught(capacity: int, a: Bucket, b: Bucket) {
    b.last <= a.last && a.tokens == Level(capacity, b, a.last)
  }

  /** Refills compose. */
  lemma RefillsCompose(capacity: int, a: Bucket, b: Bucket, now: real)
    requires Caught(capacity, a, b) && a.last <= now
    ensures Level(capacity, a, now) == Level(capacity, b, now)
  {
  }

  lemma {:induction false} TokensWithinCapacity(capacity: int, born: real, h: seq<Request>, k: nat)
    requires k <= |h| && forall i :: 0 <= i < |h| ==> h[i].n >= 0
    ensures After(capacity, born, h, k).tokens <= capacity as real
    ensures After(capacity, born, h, k).last == if k == 0 then born else h[k - 1].at
    decreases k
  {
  }

  lemma {:induction false} NeutralRun(capacity: int, born: real, h: seq<Request>, o: seq<bool>, drop: seq<bool>, k: nat)
    requires Monotone(born, h) && |drop| == |o| == |h| && k <= |h| && Decides(capacity, born, h, o, k)
    requires forall i :: 0 <= i < |h| ==> h[i].n >= 0
    requires forall i :: 0 <= i < k && drop[i] ==> !o[i]
    ensures var h', o' := Select(h, drop, k), Select(o, drop, k);
      && |h'| == |o'|
      && Decides(capacity, born, h', o', |h'|)
      && Caught(capacity, After(capacity, born, h, k), After(capacity, born, h', |h'|))
    decreases k
  {
    if k == 0 {
    } else {
      var e, b := h[k - 1], o[k - 1];
      NeutralRun(capacity, born, h, o, drop, k - 1);
      TokensWithinCapacity(capacity, born, h, k - 1);
      var h', o' := Select(h, drop, k - 1), Select(o, drop, k - 1);
      var x, y := After(capacity, born, h, k - 1), After(capacity, born, h', |h'|);
      RefillsCompose(capacity, x, y, e.at);
      SameLevelSameStep(capacity, x, y, e);
      if drop[k - 1] {
        assert Select(h, drop, k) == h' && Select(o, drop, k) == o';
      } else {
        Extend(capacity, born, h', o', e, b, |h'|);
        assert (h' + [e])[|h'|] == e && (o' + [b])[|h'|] == b;
      }
    }
  }

  /** Deleting any set of refused calls from a run leaves the outcomes of all other calls alone. */
  lemma RefusedCallsNeutral(capacity: int, born: real, h: seq<Request>, drop: seq<bool>)
    requires Monotone(born, h) && |drop| == |h|
    requires forall i :: 0 <= i < |h| ==> h[i].n >= 0
    requires forall k :: 0 <= k < |h| && drop[k] ==> !Outcomes(capacity, born, h)[k]
    ensures Outcomes(capacity, born, Select(h, drop, |h|)) == Select(Outcomes(capacity, born, h), drop, |h|)
  {
    var o := Outcomes(capacity, born, h);
    OutcomesDecide(capacity, born, h, |h|);
    NeutralRun(capacity, born, h, o, drop, |h|);
    DecidesWhole(capacity, born, Select(h, drop, |h|), Select(o, drop, |h|));
  }

  lemma SameLevelSameStep(capacity: int, a: Bucket, b: Bucket, q: Request)
    requires Level(capacity, a, q.at) == Level(capacity, b, q.at) && q.n >= 0
    ensures Enough(capacity, a, q) == Enough(capacity, b, q)
    ensures Consumed(capacity, a, q) == Consumed(capacity, b, q)
    ensures Consumed(capacity, a, q).tokens <= capacity as real
    ensures Caught(capacity, Consumed(capacity, a, q), Consumed(capacity, b, q))
    ensures b.last <= q.at && !Enough(capacity, a, q) ==> Caught(capacity, Consumed(capacity, a, q), b)
  {
  }
}
