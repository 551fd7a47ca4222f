/** Overlap resolution of the DLP filter: the greedy selection over the sorted candidate spans. */
module Spans {
  import opened Sorting

  datatype Span = Span(start: nat, end: nat, kind: string)

  /** A regular-expression match of the filter: non-empty and inside a text of n characters. */
  predicate Within(n: nat, c: Span) {
    c.start < c.end <= n
  }

  predicate AllWithin(n: nat, spans: seq<Span>) {
    forall c :: c in spans ==> Within(n, c)
  }

  /** The sort key (start, -(end - start)): earlier first, then longer first. */
  predicate Before(a: Span, b: Span) {
    a.start < b.start || (a.start == b.start && -(a.end - a.start) <= -(b.end - b.start))
  }

  predicate SameInterval(a: Span, b: Span) {
    a.start == b.start && a.end == b.end
  }

  /** The scan over a sorted list that keeps a span when it starts at or after lastEnd. */
  function Greedy(sorted: seq<Span>, lastEnd: int): (r: seq<Span>)
    decreases |sorted|
  {
    if sorted == [] then []
    else if sorted[0].start >= lastEnd then [sorted[0]] + Greedy(sorted[1..], sorted[0].end)
    else Greedy(sorted[1..], lastEnd)
  }

  function Chosen(spans: seq<Span>): (r: seq<Span>) {
    Greedy(Sort(Before, spans), -1)
  }

  ghost predicate Chain(chosen: seq<Span>) {
    forall i, j :: 0 <= i < j < |chosen| ==> chosen[i].end <= chosen[j].start
  }

  /** c is why d need not be kept: d starts inside c, and if both start together, c is as long as d. */
  ghost predicate Covers(c: Span, d: Span) {
    c.start <= d.start < c.end && (c.start == d.start ==> d.end <= c.end)
  }

  ghost predicate Covered(chosen: seq<Span>, d: Span) {
    exists i :: 0 <= i < |chosen| && Covers(chosen[i], d)
  }

  /** Leftmost-longest selection: drawn from spans, pairwise disjoint in increasing order, and every span
      starts inside a chosen one, which is at least as long if it starts at the same place. */
  ghost predicate Selection(spans: seq<Span>, chosen: seq<Span>) {
    && (forall c :: c in chosen ==> c in spans)
    && Chain(chosen)
    && (forall d :: d in spans ==> Covered(chosen, d))
  }

  method DedupeOverlaps(spans: seq<Span>) returns (chosen: seq<Span>)
    ensures chosen == Chosen(spans)
  {
    var sorted := Sort(Before, spans);
    chosen := [];
    var lastEnd: int := -1;
    for i := 0 to |sorted|
      invariant Chosen(spans) == chosen + Greedy(sorted[i..], lastEnd)
    {
      assert sorted[i..][1..] == sorted[i + 1..];
      var c := sorted[i];
      if c.start >= lastEnd {
        chosen := chosen + [c];
        lastEnd := c.end;
      }
    }
  }

  lemma BeforeIsTotalPreorder()
    ensures TotalPreorder(Before)
  {
  }

  lemma {:induction false} GreedyMembers(xs: seq<Span>, lastEnd: int)
    ensures forall c :: c in Greedy(xs, lastEnd) ==> c in xs
    ensures (forall c :: c in xs ==> c.start < c.end) ==> forall c :: c in Greedy(xs, lastEnd) ==> c.start >= lastEnd
    decreases |xs|
  {
    if xs == [] {
    } else {
      GreedyMembers(xs[1..], xs[0].end);
      GreedyMembers(xs[1..], lastEnd);
    }
  }

  lemma {:induction false} GreedyChain(n: nat, xs: seq<Span>, lastEnd: int)
    requires AllWithin(n, xs)
    ensures Chain(Greedy(xs, lastEnd))
    decreases |xs|
  {
    if xs == [] {
    } else {
      GreedyMembers(xs[1..], xs[0].end);
      GreedyChain(n, xs[1..], xs[0].end);
      GreedyChain(n, xs[1..], lastEnd);
    }
  }

  lemma {:induction false} GreedyCovers(xs: seq<Span>, lastEnd: int, d: Span)
    requires Sorted(Before, xs) && d in xs && d.start >= lastEnd
    requires forall c :: c in xs ==> c.start < c.end
    ensures Covered(Greedy(xs, lastEnd), d)
    decreases |xs|
  {
    var r := Greedy(xs, lastEnd);
    if xs[0].start < lastEnd {
      GreedyCovers(xs[1..], lastEnd, d);
    } else if d.start < xs[0].end {
      assert Covers(r[0], d);
    } else {
      GreedyCovers(xs[1..], xs[0].end, d);
      var rest := Greedy(xs[1..], xs[0].end);
      var i :| 0 <= i < |rest| && Covers(rest[i], d);
      assert r[i + 1] == rest[i];
    }
  }

  /** The greedy scan computes a leftmost-longest selection ... */
  lemma ChosenIsSelection(n: nat, spans: seq<Span>)
    requires AllWithin(n, spans)
    ensures Selection(spans, Chosen(spans))
    ensures AllWithin(n, Chosen(spans))
  {
    var sorted := Sort(Before, spans);
    BeforeIsTotalPreorder();
    SortSorted(Before, spans);
    SameElements(sorted, spans);
    GreedyMembers(sorted, -1);
    GreedyChain(n, sorted, -1);
    forall d | d in spans ensures Covered(Chosen(spans), d) {
      GreedyCovers(sorted, -1, d);
    }
  }

  /** ... and there is only one, up to the labels of spans with the same interval. */
  lemma SelectionUnique(n: nat, spans: seq<Span>, a: seq<Span>, b: seq<Span>)
    requires AllWithin(n, spans) && Selection(spans, a) && Selection(spans, b)
    ensures |a| == |b| && forall i :: 0 <= i < |a| ==> SameInterval(a[i], b[i])
  {
    SelectionsAgree(n, spans, a, b, |a|);
    SelectionsAgree(n, spans, b, a, |b|);
  }

  lemma {:induction false} SelectionsAgree(n: nat, spans: seq<Span>, a: seq<Span>, b: seq<Span>, i: nat)
    requires AllWithin(n, spans) && Selection(spans, a) && Selection(spans, b) && i <= |a|
    ensures i <= |b| && forall j :: 0 <= j < i ==> SameInterval(a[j], b[j])
  {
    if i == 0 {
    } else {
      var m := i - 1;
      SelectionsAgree(n, spans, a, b, m);
      var k := CoveredFrom(n, spans, a, b, m);
      var l := CoveredFrom(n, spans, b, a, m);
      assert b[m].start <= b[k].start <= a[m].start <= a[l].start <= b[m].start;
      assert k == m && l == m;
    }
  }

  /** Where two selections agree below m, the m-th span of a is covered by b at m or later. */
  lemma CoveredFrom(n: nat, spans: seq<Span>, a: seq<Span>, b: seq<Span>, m: nat) returns (k: nat)
    requires AllWithin(n, spans) && Selection(spans, a) && Selection(spans, b)
    requires m < |a| && m <= |b| && forall j :: 0 <= j < m ==> SameInterval(a[j], b[j])
    ensures m <= k < |b| && Covers(b[k], a[m])
    ensures forall j :: m <= j < |b| && j != k ==> b[j].start != b[k].start
    ensures b[m].start <= b[k].start
  {
    assert a[m] in spans;
    assert Covered(b, a[m]);
    assert forall j :: 0 <= j < m ==> b[j].end <= a[m].start;
    k :| 0 <= k < |b| && Covers(b[k], a[m]);
    assert forall c :: c in b ==> Within(n, c);
    assert Within(n, b[k]) && (m < k ==> b[m].end <= b[k].start && Within(n, b[m]));
    forall j | m <= j < |b| && j != k ensures b[j].start != b[k].start {
      assert Within(n, b[j]);
    }
  }

  /** The order in which the patterns report their matches never changes the chosen intervals. */
  lemma OrderIrrelevant(n: nat, spans: seq<Span>, spans': seq<Span>)
    requires AllWithin(n, spans) && multiset(spans) == multiset(spans')
    ensures var a, b := Chosen(spans), Chosen(spans');
      |a| == |b| && forall i :: 0 <= i < |a| ==> SameInterval(a[i], b[i])
  {
    SameElements(spans, spans');
    ChosenIsSelection(n, spans);
    ChosenIsSelection(n, spans');
    SelectionUnique(n, spans, Chosen(spans), Chosen(spans'));
  }

  lemma {:induction false} GreedyTakesFirstTie(n: nat, xs: seq<Span>, lastEnd: int, c: Span)
    requires AllWithin(n, xs) && Sorted(Before, xs) && c in Greedy(xs, lastEnd)
    ensures Ties(Before, c, xs) != [] && Ties(Before, c, xs)[0] == c
    decreases |xs|
  {
    GreedyMembers(xs[1..], xs[0].end);
    if xs[0].start >= lastEnd && c == xs[0] {
    } else if xs[0].start >= lastEnd {
      assert c in Greedy(xs[1..], xs[0].end);
      GreedyTakesFirstTie(n, xs[1..], xs[0].end, c);
      assert Within(n, xs[0]);
    } else {
      GreedyMembers(xs[1..], lastEnd);
      GreedyTakesFirstTie(n, xs[1..], lastEnd, c);
    }
  }

  /** Among candidates with the very same interval, the label of the first one reported is used. */
  lemma FirstLabelWins(n: nat, spans: seq<Span>, c: Span)
    requires AllWithin(n, spans) && c in Chosen(spans)
    ensures exists i ::
      && 0 <= i < |spans| && spans[i] == c
      && forall j :: 0 <= j < i ==> !SameInterval(spans[j], c)
  {
    var sorted := Sort(Before, spans);
    BeforeIsTotalPreorder();
    SortSorted(Before, spans);
    SameElements(sorted, spans);
    GreedyTakesFirstTie(n, sorted, -1, c);
    SortTies(Before, spans, c);
    FirstTieIndex(spans, c);
  }

  lemma {:induction false} FirstTieIndex(xs: seq<Span>, c: Span)
    requires Ties(Before, c, xs) != [] && Ties(Before, c, xs)[0] == c
    ensures exists i ::
      && 0 <= i < |xs| && xs[i] == c
      && forall j :: 0 <= j < i ==> !SameInterval(xs[j], c)
  {
    if xs[0] == c {
      assert 0 <= 0 < |xs|;
    } else {
      FirstTieIndex(xs[1..], c);
      var i :| 0 <= i < |xs[1..]| && xs[1..][i] == c
        && forall j :: 0 <= j < i ==> !SameInterval(xs[1..][j], c);
      assert xs[i + 1] == c;
      forall j | 0 <= j < i + 1 ensures !SameInterval(xs[j], c) {
        if j > 0 {
          assert xs[1..][j - 1] == xs[j];
        }
      }
    }
  }
}
