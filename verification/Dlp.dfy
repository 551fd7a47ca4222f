/** The DLP egress filter: scan, sanitize and the policy modes. */
module Dlp {
  import opened Sorting
  import opened Spans
  import opened Splicing
  import opened Strings

  function NoMatches(text: string): seq<Span> {
    []
  }

  /** All regular-expression matches of a text, in reporting order: every match is
      non-empty and lies inside the text. */
  type Finder = f: string -> seq<Span> | forall text :: AllWithin(|text|, f(text)) witness NoMatches

  datatype Finding = Finding(kind: string, count: nat)

  // ---------- tags ----------

  function Tag(kind: string): (tag: string)
    ensures |tag| == 11 + |kind|
  {
    "[REDACTED:" + kind + "]"
  }

  /** A tag is the label between an opening of ten characters and a closing bracket. */
  lemma TagText(kind: string)
    ensures var tag := Tag(kind);
      |tag| == |kind| + 11 && tag[..10] == "[REDACTED:" && tag[10..|tag| - 1] == kind && tag[|tag| - 1..] == "]"
  {
  }

  /** What is cut out of the text for the chosen matches. */
  function Cuts(chosen: seq<Span>): (cuts: seq<Cut>)
    ensures |cuts| == |chosen|
    ensures forall i {:trigger cuts[i]} :: 0 <= i < |cuts| ==>
      cuts[i] == Cut(chosen[i].start, chosen[i].end, Tag(chosen[i].kind))
  {
    if chosen == [] then []
    else [Cut(chosen[0].start, chosen[0].end, Tag(chosen[0].kind))] + Cuts(chosen[1..])
  }

  lemma {:induction false} ChainReady(n: nat, from: nat, chosen: seq<Span>)
    requires from <= n && AllWithin(n, chosen) && Chain(chosen)
    requires chosen != [] ==> from <= chosen[0].start
    ensures Ready(n, from, Cuts(chosen))
    decreases |chosen|
  {
    if chosen != [] {
      assert Within(n, chosen[0]);
      assert |chosen| > 1 ==> chosen[0].end <= chosen[1].start;
      ChainReady(n, chosen[0].end, chosen[1..]);
      assert Cuts(chosen)[1..] == Cuts(chosen[1..]);
    }
  }

  /** The chosen matches of a text, which are what both entry points act on. */
  function ChosenIn(find: Finder, text: string): (chosen: seq<Span>)
    ensures AllWithin(|text|, chosen) && Chain(chosen)
  {
    ChosenIsSelection(|text|, find(text));
    Chosen(find(text))
  }

  predicate StartsLater(a: Span, b: Span) {
    a.start >= b.start
  }

  /** Sorting disjoint matches by descending start reverses them. */
  lemma {:induction false} DescendingIsReverse(n: nat, chosen: seq<Span>)
    requires AllWithin(n, chosen) && Chain(chosen)
    ensures Sort(StartsLater, chosen) == Reverse(chosen)
    decreases |chosen|
  {
    if chosen != [] {
      TailStarts(n, chosen);
      DescendingIsReverse(n, chosen[1..]);
      ReverseStep(chosen);
      InsertAtEnd(chosen[0], Reverse(chosen[1..]));
    }
  }

  lemma TailStarts(n: nat, chosen: seq<Span>)
    requires AllWithin(n, chosen) && Chain(chosen) && chosen != []
    ensures AllWithin(n, chosen[1..]) && Chain(chosen[1..])
    ensures forall i :: 0 <= i < |chosen| - 1 ==> Reverse(chosen[1..])[i].start > chosen[0].start
  {
    assert Within(n, chosen[0]);
    forall i | 0 <= i < |chosen| - 1 ensures Reverse(chosen[1..])[i].start > chosen[0].start {
      assert Reverse(chosen[1..])[i] == chosen[|chosen| - 1 - i];
    }
  }

  lemma {:induction false} InsertAtEnd(c: Span, ys: seq<Span>)
    requires forall i :: 0 <= i < |ys| ==> ys[i].start > c.start
    ensures Insert(StartsLater, c, ys) == ys + [c]
  {
    if ys != [] {
      InsertAtEnd(c, ys[1..]);
    }
  }

  // ---------- the histogram of findings ----------

  function Kinds(chosen: seq<Span>): (kinds: seq<string>)
    ensures |kinds| == |chosen| && forall i :: 0 <= i < |chosen| ==> kinds[i] == chosen[i].kind
  {
    seq(|chosen|, i requires 0 <= i < |chosen| => chosen[i].kind)
  }

  predicate ByKind(a: Finding, b: Finding) {
    StrLe(a.kind, b.kind)
  }

  /** One more of a kind, on a dictionary of counts in insertion order. */
  function Bump(counts: seq<Finding>, kind: string): (r: seq<Finding>) {
    if counts == [] then [Finding(kind, 1)]
    else if counts[0].kind == kind then [Finding(kind, counts[0].count + 1)] + counts[1..]
    else [counts[0]] + Bump(counts[1..], kind)
  }

  function Counted(kinds: seq<string>): (counts: seq<Finding>) {
    if kinds == [] then [] else Bump(Counted(kinds[..|kinds| - 1]), kinds[|kinds| - 1])
  }

  ghost predicate DistinctKinds(counts: seq<Finding>) {
    forall i, j :: 0 <= i < j < |counts| ==> counts[i].kind != counts[j].kind
  }

  /** counts says of each kind in m how often it occurs there, and lists no other kind. */
  ghost predicate Counts(counts: seq<Finding>, m: multiset<string>) {
    && (forall f :: f in counts ==> f.count == m[f.kind] > 0)
    && (forall k :: k in m ==> Finding(k, m[k]) in counts)
  }

  /** The histogram of m: one finding for each kind, sorted by kind. */
  ghost predicate Histogram(findings: seq<Finding>, m: multiset<string>) {
    Strict(ByKind, findings) && Counts(findings, m)
  }

  lemma ByKindIsTotalPreorder()
    ensures TotalPreorder(ByKind)
  {
    forall a: Finding, b: Finding ensures ByKind(a, b) || ByKind(b, a) {
      StrLeTotal(a.kind, b.kind);
    }
    forall a: Finding, b: Finding, c: Finding | ByKind(a, b) && ByKind(b, c) ensures ByKind(a, c) {
      StrLeTransitive(a.kind, b.kind, c.kind);
    }
  }

  lemma {:induction false} BumpOthers(counts: seq<Finding>, kind: string)
    ensures forall f: Finding :: f.kind != kind ==> (f in Bump(counts, kind) <==> f in counts)
  {
    if counts != [] && counts[0].kind != kind {
      BumpOthers(counts[1..], kind);
    }
    assert counts != [] ==> counts == [counts[0]] + counts[1..];
  }

  lemma {:induction false} BumpDistinct(counts: seq<Finding>, kind: string)
    requires DistinctKinds(counts)
    ensures DistinctKinds(Bump(counts, kind))
  {
    if counts != [] && counts[0].kind != kind {
      var rest := Bump(counts[1..], kind);
      BumpDistinct(counts[1..], kind);
      BumpOthers(counts[1..], kind);
      forall f | f in rest ensures f.kind != counts[0].kind {
        if f.kind != kind {
          assert f in counts[1..];
        }
      }
    }
  }

  lemma {:induction false} BumpKind(counts: seq<Finding>, kind: string)
    requires DistinctKinds(counts)
    ensures forall f: Finding :: f.kind == kind && f in Bump(counts, kind) ==>
      || (f.count == 1 && forall g :: g in counts ==> g.kind != kind)
      || (f.count > 0 && Finding(kind, f.count - 1) in counts)
    ensures exists f :: f in Bump(counts, kind) && f.kind == kind
  {
    if counts == [] || counts[0].kind == kind {
      assert Bump(counts, kind)[0].kind == kind;
    } else {
      BumpKind(counts[1..], kind);
    }
    assert counts != [] ==> counts == [counts[0]] + counts[1..];
  }

  /** One more of a kind in the bag is one more in the counts. */
  lemma BumpCounts(counts: seq<Finding>, m: multiset<string>, kind: string)
    requires DistinctKinds(counts) && Counts(counts, m)
    ensures DistinctKinds(Bump(counts, kind)) && Counts(Bump(counts, kind), m + multiset{kind})
  {
    BumpOthers(counts, kind);
    BumpDistinct(counts, kind);
    BumpKind(counts, kind);
    var m', r := m + multiset{kind}, Bump(counts, kind);
    forall f | f in r ensures f.count == m'[f.kind] > 0 {
      if f.kind == kind && kind in m {
        assert Finding(kind, m[kind]) in counts;
      }
    }
    forall k | k in m' ensures Finding(k, m'[k]) in r {
      if k == kind {
        var f :| f in r && f.kind == kind;
        assert f == Finding(k, m'[k]);
      } else {
        assert k in m;
      }
    }
  }

  lemma {:induction false} CountedCounts(kinds: seq<string>)
    ensures DistinctKinds(Counted(kinds)) && Counts(Counted(kinds), multiset(kinds))
  {
    if kinds != [] {
      var n := |kinds| - 1;
      CountedCounts(kinds[..n]);
      BumpCounts(Counted(kinds[..n]), multiset(kinds[..n]), kinds[n]);
      assert kinds == kinds[..n] + [kinds[n]];
    }
  }

  lemma CountedStep(kinds: seq<string>, i: nat)
    requires i < |kinds|
    ensures Counted(kinds[..i + 1]) == Bump(Counted(kinds[..i]), kinds[i])
  {
    assert kinds[..i + 1][..i] == kinds[..i];
  }

  function Findings(kinds: seq<string>): (fs: seq<Finding>) {
    Sort(ByKind, Counted(kinds))
  }

  lemma FindingsHistogram(kinds: seq<string>)
    ensures Histogram(Findings(kinds), multiset(kinds))
  {
    var counts := Counted(kinds);
    CountedCounts(kinds);
    ByKindIsTotalPreorder();
    forall i, j | 0 <= i < j < |counts| ensures !(ByKind(counts[i], counts[j]) && ByKind(counts[j], counts[i])) {
      StrLeTotal(counts[i].kind, counts[j].kind);
    }
    SortStrict(ByKind, counts);
    SameElements(Sort(ByKind, counts), counts);
  }

  lemma HistogramUnique(fs: seq<Finding>, gs: seq<Finding>, m: multiset<string>)
    requires Histogram(fs, m) && Histogram(gs, m)
    ensures fs == gs
  {
    forall f ensures f in fs <==> f in gs {
      assert f in fs ==> f.kind in m && f == Finding(f.kind, m[f.kind]);
      assert f in gs ==> f.kind in m && f == Finding(f.kind, m[f.kind]);
    }
    StrictUnique(ByKind, fs, gs);
  }

  function SumCounts(fs: seq<Finding>): (n: nat) {
    if fs == [] then 0 else fs[0].count + SumCounts(fs[1..])
  }

  lemma {:induction false} SumBump(counts: seq<Finding>, kind: string)
    ensures SumCounts(Bump(counts, kind)) == SumCounts(counts) + 1
  {
    if counts != [] && counts[0].kind != kind {
      SumBump(counts[1..], kind);
    }
  }

  lemma {:induction false} SumInsert(f: Finding, fs: seq<Finding>)
    ensures SumCounts(Insert(ByKind, f, fs)) == f.count + SumCounts(fs)
  {
    if fs == [] || ByKind(f, fs[0]) {
      assert ([f] + fs)[1..] == fs;
    } else {
      SumInsert(f, fs[1..]);
      var rest := Insert(ByKind, f, fs[1..]);
      assert ([fs[0]] + rest)[1..] == rest;
    }
  }

  lemma {:induction false} SumSort(fs: seq<Finding>)
    ensures SumCounts(Sort(ByKind, fs)) == SumCounts(fs)
  {
    if fs != [] {
      SumSort(fs[1..]);
      SumInsert(fs[0], Sort(ByKind, fs[1..]));
    }
  }

  /** The counts of the findings add up to the number of matches counted. */
  lemma {:induction false} FindingsSum(kinds: seq<string>)
    ensures SumCounts(Counted(kinds)) == |kinds|
    ensures SumCounts(Findings(kinds)) == |kinds|
  {
    if kinds != [] {
      FindingsSum(kinds[..|kinds| - 1]);
      SumBump(Counted(kinds[..|kinds| - 1]), kinds[|kinds| - 1]);
    }
    SumSort(Counted(kinds));
  }

  // ---------- the entry points ----------

  method Scan(find: Finder, text: string) returns (findings: seq<Finding>)
    ensures findings == Findings(Kinds(ChosenIn(find, text)))
  {
    var chosen := DedupeOverlaps(find(text));
    ghost var kinds := Kinds(ChosenIn(find, text));
    var counts: seq<Finding> := [];
    for i := 0 to |chosen|
      invariant counts == Counted(kinds[..i])
    {
      CountedStep(kinds, i);
      counts := Bump(counts, chosen[i].kind);
    }
    assert kinds[..|chosen|] == kinds;
    findings := Sort(ByKind, counts);
  }

  function Sanitized(find: Finder, text: string): (out: string) {
    ChainReady(|text|, 0, ChosenIn(find, text));
    Rewrite(text, 0, Cuts(ChosenIn(find, text)))
  }

  function SanitizeFindings(find: Finder, text: string): (fs: seq<Finding>) {
    Findings(Reverse(Kinds(ChosenIn(find, text))))
  }

  /** Splices the tags into the text from right to left; the result is the left-to-right rewrite. */
  method Sanitize(find: Finder, text: string) returns (out: string, findings: seq<Finding>)
    ensures out == Sanitized(find, text)
    ensures findings == SanitizeFindings(find, text)
  {
    var chosen := DedupeOverlaps(find(text));
    var order := Sort(StartsLater, chosen);
    var counts: seq<Finding> := [];
    out := text;
    ghost var all := ChosenIn(find, text);
    SpliceBegins(text, all);
    for i := 0 to |order|
      invariant SpliceProgress(text, all, i, out, counts)
    {
      var c := order[i];
      SpliceStep(text, all, i, out, counts);
      out := out[..c.start] + Tag(c.kind) + out[c.end..];
      counts := Bump(counts, c.kind);
    }
    SpliceEnds(text, all, out, counts);
    findings := Sort(ByKind, counts);
  }

  /** The state of the splicing loop after its first i rounds. */
  ghost predicate SpliceProgress(text: string, chosen: seq<Span>, i: nat, out: string, counts: seq<Finding>) {
    && Ready(|text|, 0, Cuts(chosen)) && i <= |chosen|
    && out == Pending(text, Cuts(chosen), |chosen| - i)
    && counts == Counted(Reverse(Kinds(chosen))[..i])
  }

  lemma SpliceBegins(text: string, chosen: seq<Span>)
    requires AllWithin(|text|, chosen) && Chain(chosen)
    ensures |Sort(StartsLater, chosen)| == |chosen|
    ensures SpliceProgress(text, chosen, 0, text, [])
  {
    ChainReady(|text|, 0, chosen);
    DescendingIsReverse(|text|, chosen);
    PendingEnds(text, Cuts(chosen));
  }

  lemma SpliceStep(text: string, chosen: seq<Span>, i: nat, out: string, counts: seq<Finding>)
    requires AllWithin(|text|, chosen) && Chain(chosen) && i < |chosen|
    requires SpliceProgress(text, chosen, i, out, counts)
    ensures |Sort(StartsLater, chosen)| == |chosen|
    ensures var c := Sort(StartsLater, chosen)[i];
      && c.start < c.end <= |out|
      && SpliceProgress(text, chosen, i + 1, out[..c.start] + Tag(c.kind) + out[c.end..], Bump(counts, c.kind))
  {
    SpliceRound(text, chosen, i);
  }

  /** Round i of the splicing deals with the match that is the i-th from the end. */
  lemma SpliceRound(text: string, chosen: seq<Span>, i: nat)
    requires AllWithin(|text|, chosen) && Chain(chosen) && Ready(|text|, 0, Cuts(chosen)) && i < |chosen|
    ensures |Sort(StartsLater, chosen)| == |chosen|
    ensures var c, out := Sort(StartsLater, chosen)[i], Pending(text, Cuts(chosen), |chosen| - i);
      && c.start < c.end <= |out|
      && Pending(text, Cuts(chosen), |chosen| - (i + 1)) == out[..c.start] + Tag(c.kind) + out[c.end..]
      && Counted(Reverse(Kinds(chosen))[..i + 1]) == Bump(Counted(Reverse(Kinds(chosen))[..i]), c.kind)
  {
    DescendingIsReverse(|text|, chosen);
    assert Sort(StartsLater, chosen)[i] == chosen[|chosen| - 1 - i];
    PendingStep(text, Cuts(chosen), |chosen| - 1 - i);
    KindAt(chosen, i);
    CountedStep(Reverse(Kinds(chosen)), i);
  }

  lemma KindAt(chosen: seq<Span>, i: nat)
    requires i < |chosen|
    ensures Reverse(Kinds(chosen))[i] == chosen[|chosen| - 1 - i].kind
  {
  }

  lemma SpliceEnds(text: string, chosen: seq<Span>, out: string, counts: seq<Finding>)
    requires SpliceProgress(text, chosen, |chosen|, out, counts)
    ensures out == Rewrite(text, 0, Cuts(chosen))
    ensures Sort(ByKind, counts) == Findings(Reverse(Kinds(chosen)))
  {
    PendingEnds(text, Cuts(chosen));
    assert Reverse(Kinds(chosen))[..|chosen|] == Reverse(Kinds(chosen));
  }

  /** scan and sanitize count in opposite orders and still report the same findings:
      the sorted histogram of the chosen matches. */
  lemma ScanAgreesWithSanitize(find: Finder, text: string)
    ensures var kinds := Kinds(ChosenIn(find, text));
      && SanitizeFindings(find, text) == Findings(kinds)
      && Histogram(Findings(kinds), multiset(kinds))
      && SumCounts(Findings(kinds)) == |ChosenIn(find, text)|
  {
    var kinds := Kinds(ChosenIn(find, text));
    FindingsHistogram(kinds);
    FindingsHistogram(Reverse(kinds));
    ReverseElements(kinds);
    HistogramUnique(Findings(kinds), Findings(Reverse(kinds)), multiset(kinds));
    FindingsSum(kinds);
  }

  lemma NoFindings(kinds: seq<string>)
    ensures Findings(kinds) == [] <==> kinds == []
  {
    FindingsSum(kinds);
  }

  /** Without findings the text has no match at all, and sanitize leaves it alone. */
  lemma CleanText(find: Finder, text: string)
    ensures SanitizeFindings(find, text) == [] <==> find(text) == []
    ensures find(text) == [] ==> Sanitized(find, text) == text
  {
    var chosen := ChosenIn(find, text);
    ChosenIsSelection(|text|, find(text));
    NoFindings(Reverse(Kinds(chosen)));
    if find(text) != [] {
      assert find(text)[0] in find(text);
      assert Covered(chosen, find(text)[0]);
    }
  }

  /** What sanitize does to a text, for the chosen matches: it replaces each of them by its tag, and
      every other character survives in order. A tag has 11 characters more than its label. */
  lemma SanitizeMeaning(find: Finder, text: string)
    ensures var chosen := ChosenIn(find, text);
      && Replaces(text, Cuts(chosen), Sanitized(find, text))
      && Removed(Cuts(chosen)) == SpanTotal(chosen)
      && Added(Cuts(chosen)) == TagTotal(chosen)
  {
    var chosen := ChosenIn(find, text);
    ChainReady(|text|, 0, chosen);
    RewriteReplaces(text, Cuts(chosen));
    CutTotals(chosen);
  }

  function SpanTotal(chosen: seq<Span>): (n: int) {
    if chosen == [] then 0 else chosen[0].end - chosen[0].start + SpanTotal(chosen[1..])
  }

  function TagTotal(chosen: seq<Span>): (n: nat) {
    if chosen == [] then 0 else 11 + |chosen[0].kind| + TagTotal(chosen[1..])
  }

  lemma {:induction false} CutTotals(chosen: seq<Span>)
    ensures Removed(Cuts(chosen)) == SpanTotal(chosen) && Added(Cuts(chosen)) == TagTotal(chosen)
  {
    if chosen != [] {
      CutTotals(chosen[1..]);
      assert Cuts(chosen)[1..] == Cuts(chosen[1..]);
    }
  }

  // ---------- the policy modes ----------

  datatype Mode = Block | Redact | Flag

  datatype Applied = Passed(text: string, findings: seq<Finding>) | Violation(summary: seq<Finding>)

  /** DLPScanner.apply: raises in block mode exactly when there is a match; without a match the
      text passes unchanged in every mode. */
  method Apply(find: Finder, mode: Mode, text: string) returns (r: Applied)
    ensures r.Violation? <==> mode == Block && find(text) != []
    ensures find(text) == [] ==> r == Passed(text, [])
    ensures r.Violation? ==> r.summary == SanitizeFindings(find, text)
    ensures r.Passed? ==> r.findings == SanitizeFindings(find, text)
    ensures r.Passed? ==> r.text == if mode == Redact then Sanitized(find, text) else text
  {
    var findings := Scan(find, text);
    ScanAgreesWithSanitize(find, text);
    CleanText(find, text);
    if findings == [] {
      return Passed(text, []);
    }
    if mode == Block {
      return Violation(findings);
    }
    if mode == Redact {
      var out, fs := Sanitize(find, text);
      return Passed(out, fs);
    }
    return Passed(text, findings);
  }
}
