/** How many events fit into a stretch of time when, after the first few, they keep a distance. */
module Pacing {

  /** From the n-th on, each event comes at least `gap` after the one before. */
  ghost predicate Paced(n: nat, gap: real, times: seq<real>) {
    forall i :: 1 <= i < |times| && n <= i ==> times[i] - times[i - 1] >= gap
  }

  /** The times are in order, and none is after now. */
  ghost predicate Ordered(times: seq<real>, now: real) {
    && (forall i :: 0 <= i < |times| ==> times[i] <= now)
    && (forall i, j :: 0 <= i <= j < |times| ==> times[i] <= times[j])
  }

  lemma OrderedMore(times: seq<real>, x: real, now: real)
    requires Ordered(times, x) && x <= now
    ensures Ordered(times + [x], now)
  {
  }

  lemma PacedMore(n: nat, gap: real, times: seq<real>, x: real)
    requires Paced(n, gap, times) && (|times| > 0 && n <= |times| ==> x - times[|times| - 1] >= gap)
    ensures Paced(n, gap, times + [x])
  {
    var p := times + [x];
    forall i | 1 <= i < |p| && n <= i ensures p[i] - p[i - 1] >= gap {
      assert i < |times| ==> times[i] - times[i - 1] >= gap;
    }
  }

  lemma {:induction false} PacedDistance(n: nat, gap: real, times: seq<real>, a: nat, z: nat)
    requires Paced(n, gap, times) && n <= a + 1 && a <= z < |times|
    ensures times[z] - times[a] >= (z - a) as real * gap
    decreases z
  {
    if a < z {
      PacedDistance(n, gap, times, a, z - 1);
      assert (z - a) as real * gap == (z - 1 - a) as real * gap + gap;
    }
  }

  lemma Quotient(m: int, gap: real, span: real)
    requires gap > 0.0 && m as real * gap <= span
    ensures m <= (span / gap).Floor
  {
    var excess := m as real - span / gap;
    assert excess * gap == m as real * gap - (span / gap) * gap;
    assert (span / gap) * gap == span;
    NotPositive(excess, gap);
  }

  lemma NotPositive(x: real, gap: real)
    requires gap > 0.0 && x * gap <= 0.0
    ensures x <= 0.0
  {
  }

  /** At most n + floor(span / gap) paced events lie within a span of time. */
  lemma PacedWindow(n: nat, gap: real, times: seq<real>, a: nat, z: nat, span: real)
    requires n >= 1 && gap > 0.0 && Paced(n, gap, times)
    requires forall i, j :: 0 <= i <= j < |times| ==> times[i] <= times[j]
    requires a <= z < |times| && times[z] - times[a] <= span
    ensures z - a + 1 <= n + (span / gap).Floor
  {
    var m := if a < n - 1 then n - 1 else a;
    if m <= z {
      PacedDistance(n, gap, times, m, z);
      Quotient(z - m, gap, span);
    } else {
      Quotient(0, gap, span);
    }
  }

  // ---------- several events under way at once ----------

  /** From the n-th on, each event comes at least `gap` after the m-th one before it. */
  ghost predicate Strided(n: nat, m: nat, gap: real, times: seq<real>) {
    forall i {:trigger times[i]} :: m <= i < |times| && n <= i ==> times[i] - times[i - m] >= gap
  }

  lemma StridedMore(n: nat, m: nat, gap: real, times: seq<real>, x: real)
    requires m >= 1 && Strided(n, m, gap, times)
    requires m <= |times| && n <= |times| ==> x - times[|times| - m] >= gap
    ensures Strided(n, m, gap, times + [x])
  {
    var p := times + [x];
    forall i | m <= i < |p| && n <= i ensures p[i] - p[i - m] >= gap {
      assert i < |times| ==> p[i] == times[i];
      assert p[i - m] == times[i - m];
    }
  }

  lemma {:induction false} StridedDistance(n: nat, m: nat, gap: real, times: seq<real>, b: nat, q: nat)
    requires m >= 1 && Strided(n, m, gap, times) && n <= b + m && b + q * m < |times|
    ensures times[b + q * m] - times[b] >= q as real * gap
    decreases q
  {
    if q > 0 {
      var c := b + (q - 1) * m;
      assert c + m == b + q * m && c >= b;
      StridedDistance(n, m, gap, times, b, q - 1);
      assert times[c + m] - times[c] >= gap;
      assert q as real * gap == (q - 1) as real * gap + gap;
    }
  }

  /** At most n + m * floor(span / gap) such events lie within a span of time. */
  lemma StridedWindow(n: nat, m: nat, gap: real, times: seq<real>, a: nat, z: nat, span: real)
    requires 1 <= m <= n && gap > 0.0 && Strided(n, m, gap, times)
    requires forall i, j :: 0 <= i <= j < |times| ==> times[i] <= times[j]
    requires a <= z < |times| && times[z] - times[a] <= span
    ensures z - a + 1 <= n + m * (span / gap).Floor
  {
    var b := if a < n - m then n - m else a;
    if b <= z {
      var q := Rounds(b, m, z);
      StridedDistance(n, m, gap, times, b, q);
      assert times[a] <= times[b] && times[b + q * m] <= times[z];
      Quotient(q, gap, span);
      NoMoreRounds(m, q, (span / gap).Floor);
    } else {
      Quotient(0, gap, span);
      NoMoreRounds(m, 0, (span / gap).Floor);
    }
  }

  /** The last event at a whole number of strides from b on. */
  lemma Rounds(b: nat, m: nat, z: nat) returns (q: nat)
    requires m >= 1 && b <= z
    ensures b + q * m <= z < b + q * m + m
  {
    q := (z - b) / m;
    assert z - b == m * q + (z - b) % m;
    assert m * q == q * m;
  }

  lemma NoMoreRounds(m: nat, q: nat, r: int)
    requires q <= r
    ensures q * m <= m * r
  {
  }

  // ---------- attempts that fail, and lock for a while ----------

  /** p are the passes so far, of which n have failed, the last one at t, and at most m are under way; from
      `allowance` failures on a failure locks for `gap`; the clock shows now. */
  ghost predicate RoundInvariant(allowance: nat, gap: real, m: nat, p: seq<real>, n: nat, t: real, now: real)
    requires allowance >= 1
  {
    && n <= |p| <= n + m
    && Ordered(p, now)
    && (forall j :: 0 <= j < n ==> p[j] <= t)
    && Strided(allowance + m - 1, m, gap, p)
  }

  lemma RoundPass(allowance: nat, gap: real, m: nat, p: seq<real>, n: nat, t: real, now: real)
    requires m >= 1 && allowance >= 1 && RoundInvariant(allowance, gap, m, p, n, t, now)
    requires |p| + 1 <= n + m && (n < allowance || now - t >= gap)
    ensures RoundInvariant(allowance, gap, m, p + [now], n, t, now)
  {
    OrderedMore(p, now, now);
    if allowance + m - 1 <= |p| {
      assert p[|p| - m] <= t;
    }
    StridedMore(allowance + m - 1, m, gap, p, now);
  }

  lemma RoundLater(allowance: nat, gap: real, m: nat, p: seq<real>, n: nat, t: real, earlier: real, now: real)
    requires allowance >= 1 && RoundInvariant(allowance, gap, m, p, n, t, earlier) && earlier <= now
    ensures RoundInvariant(allowance, gap, m, p, n, t, now)
  {
  }

  lemma RoundFailure(allowance: nat, gap: real, m: nat, p: seq<real>, n: nat, t: real, now: real)
    requires allowance >= 1 && RoundInvariant(allowance, gap, m, p, n, t, now) && n < |p|
    ensures RoundInvariant(allowance, gap, m, p, n + 1, now, now)
  {
  }

  /** At most allowance - 1 + m * (1 + floor(span / gap)) passes lie within a span of time. */
  lemma RoundsWindow(allowance: nat, gap: real, m: nat, p: seq<real>, now: real, a: nat, z: nat, span: real)
    requires m >= 1 && allowance >= 1 && gap > 0.0 && Ordered(p, now) && Strided(allowance + m - 1, m, gap, p)
    requires a <= z < |p| && p[z] - p[a] <= span
    ensures z - a + 1 <= allowance - 1 + m * (1 + (span / gap).Floor)
  {
    StridedWindow(allowance + m - 1, m, gap, p, a, z, span);
    Distribute(m, (span / gap).Floor);
  }

  lemma Distribute(m: nat, r: int)
    ensures m * (1 + r) == m + m * r
  {
  }
}
