/** Replacing disjoint pieces of a text. */
module Splicing {

  /** The piece from start to end, and what is put in its place. */
  datatype Cut = Cut(start: nat, end: nat, put: string)

  /** The cuts lie one after the other in a text of n characters, from position `from` on. */
  predicate Ready(n: nat, from: nat, cuts: seq<Cut>)
    decreases |cuts|
  {
    && from <= n
    && (cuts == [] || (from <= cuts[0].start < cuts[0].end <= n && Ready(n, cuts[0].end, cuts[1..])))
  }

  lemma {:induction false} ReadyStarts(n: nat, from: nat, cuts: seq<Cut>, i: nat)
    requires Ready(n, from, cuts) && i < |cuts|
    ensures from <= cuts[i].start < cuts[i].end <= n
    decreases |cuts|
  {
    if i > 0 {
      ReadyStarts(n, cuts[0].end, cuts[1..], i - 1);
    }
  }

  lemma {:induction false} ReadySuffix(n: nat, from: nat, cuts: seq<Cut>, i: nat)
    requires Ready(n, from, cuts) && i <= |cuts|
    ensures Ready(n, if i == 0 then from else cuts[i - 1].end, cuts[i..])
    ensures i < |cuts| ==> cuts[i..][0] == cuts[i] && cuts[i..][1..] == cuts[i + 1..]
    decreases |cuts|
  {
    if i == 0 {
      assert cuts[0..] == cuts;
    } else {
      ReadySuffix(n, cuts[0].end, cuts[1..], i - 1);
      assert cuts[1..][i - 1..] == cuts[i..];
      assert i > 1 ==> cuts[1..][i - 2] == cuts[i - 1];
    }
  }

  /** The text from position `from` on, read left to right: gap, put, gap, and so on. */
  function Rewrite(text: string, from: nat, cuts: seq<Cut>): (out: string)
    requires Ready(|text|, from, cuts)
    decreases |cuts|
  {
    if cuts == [] then text[from..]
    else text[from..cuts[0].start] + cuts[0].put + Rewrite(text, cuts[0].end, cuts[1..])
  }

  // ---------- the length ----------

  /** Total length of the pieces that go, and of what comes in their place. */
  function Removed(cuts: seq<Cut>): (n: int) {
    if cuts == [] then 0 else cuts[0].end - cuts[0].start + Removed(cuts[1..])
  }

  function Added(cuts: seq<Cut>): (n: nat) {
    if cuts == [] then 0 else |cuts[0].put| + Added(cuts[1..])
  }

  lemma {:induction false} RewriteLength(text: string, from: nat, cuts: seq<Cut>)
    requires Ready(|text|, from, cuts)
    ensures |Rewrite(text, from, cuts)| == |text| - from - Removed(cuts) + Added(cuts)
    decreases |cuts|
  {
    if cuts != [] {
      RewriteLength(text, cuts[0].end, cuts[1..]);
    }
  }

  // ---------- where things end up ----------

  /** Where position p of the text ends up: it moves with each cut that ends at or before it. */
  function Shifted(cuts: seq<Cut>, p: nat): (q: int) {
    if cuts == [] then p
    else Shifted(cuts[1..], p) + if cuts[0].end <= p then |cuts[0].put| - (cuts[0].end - cuts[0].start) else 0
  }

  ghost predicate Outside(cuts: seq<Cut>, p: nat) {
    forall i :: 0 <= i < |cuts| ==> !(cuts[i].start <= p < cuts[i].end)
  }

  /** Before the end of the first cut nothing is shifted. */
  lemma {:induction false} NotShifted(n: nat, from: nat, cuts: seq<Cut>, p: nat)
    requires Ready(n, from, cuts) && (cuts != [] ==> p < cuts[0].end)
    ensures Shifted(cuts, p) == p
    decreases |cuts|
  {
    if cuts != [] {
      NotShifted(n, cuts[0].end, cuts[1..], p);
    }
  }

  /** `piece` stands in out at position q. */
  ghost predicate StandsAt(out: string, q: int, piece: string) {
    0 <= q <= |out| && piece <= out[q..]
  }

  lemma LaterStands(head: string, rest: string, q: int, piece: string)
    requires StandsAt(rest, q, piece)
    ensures StandsAt(head + rest, |head| + q, piece)
  {
    assert (head + rest)[|head| + q..] == rest[q..];
  }

  /** What stands somewhere in the rest of the rewritten text. */
  lemma RestStands(text: string, from: nat, cuts: seq<Cut>, q: int, piece: string)
    requires Ready(|text|, from, cuts) && cuts != []
    requires StandsAt(Rewrite(text, cuts[0].end, cuts[1..]), q, piece)
    ensures StandsAt(Rewrite(text, from, cuts), cuts[0].start - from + |cuts[0].put| + q, piece)
  {
    LaterStands(text[from..cuts[0].start] + cuts[0].put, Rewrite(text, cuts[0].end, cuts[1..]), q, piece);
  }

  lemma FirstStands(text: string, from: nat, cuts: seq<Cut>)
    requires Ready(|text|, from, cuts) && cuts != []
    ensures StandsAt(Rewrite(text, from, cuts), cuts[0].start - from, cuts[0].put)
  {
    var gap, rest := text[from..cuts[0].start], Rewrite(text, cuts[0].end, cuts[1..]);
    assert (gap + cuts[0].put + rest)[|gap|..] == cuts[0].put + rest;
  }

  /** Each cut has been replaced, at the shifted place of its start. */
  lemma {:induction false} PutInPlace(text: string, from: nat, cuts: seq<Cut>, i: nat)
    requires Ready(|text|, from, cuts) && i < |cuts|
    ensures StandsAt(Rewrite(text, from, cuts), Shifted(cuts, cuts[i].start) - from, cuts[i].put)
    decreases |cuts|
  {
    var rest := cuts[1..];
    if i == 0 {
      NotShifted(|text|, from, cuts, cuts[0].start);
      FirstStands(text, from, cuts);
    } else {
      assert rest[i - 1] == cuts[i];
      ReadyStarts(|text|, cuts[0].end, rest, i - 1);
      PutInPlace(text, cuts[0].end, rest, i - 1);
      RestStands(text, from, cuts, Shifted(rest, cuts[i].start) - cuts[0].end, cuts[i].put);
    }
  }

  /** A character outside every cut is still there, at its shifted place. */
  lemma {:induction false} OutsideSurvives(text: string, from: nat, cuts: seq<Cut>, p: nat)
    requires Ready(|text|, from, cuts) && from <= p < |text| && Outside(cuts, p)
    ensures StandsAt(Rewrite(text, from, cuts), Shifted(cuts, p) - from, [text[p]])
    decreases |cuts|
  {
    if cuts == [] || p < cuts[0].end {
      NotShifted(|text|, from, cuts, p);
      GapSurvives(text, from, cuts, p);
    } else {
      OutsideRest(cuts, p);
      OutsideSurvives(text, cuts[0].end, cuts[1..], p);
      RestStands(text, from, cuts, Shifted(cuts[1..], p) - cuts[0].end, [text[p]]);
    }
  }

  lemma OutsideRest(cuts: seq<Cut>, p: nat)
    requires cuts != [] && Outside(cuts, p)
    ensures Outside(cuts[1..], p)
  {
    assert forall i :: 0 <= i < |cuts| - 1 ==> cuts[1..][i] == cuts[i + 1];
  }

  lemma GapSurvives(text: string, from: nat, cuts: seq<Cut>, p: nat)
    requires Ready(|text|, from, cuts) && from <= p < |text| && Outside(cuts, p)
    requires cuts != [] ==> p < cuts[0].end
    ensures StandsAt(Rewrite(text, from, cuts), p - from, [text[p]])
  {
    var out, end := Rewrite(text, from, cuts), if cuts == [] then |text| else cuts[0].start;
    assert out[..end - from] == text[from..end];
    assert out[p - from] == out[..end - from][p - from];
  }

  /** The surviving characters keep their order. */
  lemma {:induction false} OrderKept(n: nat, from: nat, cuts: seq<Cut>, p: nat, q: nat)
    requires Ready(n, from, cuts) && p < q && Outside(cuts, p)
    ensures Shifted(cuts, p) < Shifted(cuts, q)
    decreases |cuts|
  {
    if cuts == [] || p < cuts[0].end {
      NotShifted(n, from, cuts, p);
      ShiftedAtLeast(n, p + 1, cuts, q);
    } else {
      OutsideRest(cuts, p);
      OrderKept(n, cuts[0].end, cuts[1..], p, q);
    }
  }

  lemma {:induction false} ShiftedAtLeast(n: nat, from: nat, cuts: seq<Cut>, q: nat)
    requires (cuts == [] || Ready(n, from, cuts)) && from <= q
    ensures from <= Shifted(cuts, q)
    decreases |cuts|
  {
    if cuts == [] || q < cuts[0].end {
      if cuts != [] {
        NotShifted(n, from, cuts, q);
      }
    } else {
      ShiftedAtLeast(n, cuts[0].end, cuts[1..], q);
    }
  }

  /** Every character outside the cuts is in out, at its shifted place, and their order is kept. */
  ghost predicate SurvivorsInOrder(text: string, cuts: seq<Cut>, out: string) {
    && (forall p :: 0 <= p < |text| && Outside(cuts, p) ==> StandsAt(out, Shifted(cuts, p), [text[p]]))
    && (forall p, q :: 0 <= p < q < |text| && Outside(cuts, p) && Outside(cuts, q) ==>
          Shifted(cuts, p) < Shifted(cuts, q))
  }

  /** What the rewriting does to a text, stated without the rewriting itself: its length, where the
      characters outside the cuts go, and where the replacements are. */
  ghost predicate Replaces(text: string, cuts: seq<Cut>, out: string) {
    && |out| == |text| - Removed(cuts) + Added(cuts)
    && SurvivorsInOrder(text, cuts, out)
    && (forall i :: 0 <= i < |cuts| ==> StandsAt(out, Shifted(cuts, cuts[i].start), cuts[i].put))
  }

  lemma Survivors(text: string, cuts: seq<Cut>)
    requires Ready(|text|, 0, cuts)
    ensures SurvivorsInOrder(text, cuts, Rewrite(text, 0, cuts))
  {
    forall p | 0 <= p < |text| && Outside(cuts, p)
      ensures StandsAt(Rewrite(text, 0, cuts), Shifted(cuts, p), [text[p]])
    {
      OutsideSurvives(text, 0, cuts, p);
    }
    forall p, q | 0 <= p < q < |text| && Outside(cuts, p) && Outside(cuts, q)
      ensures Shifted(cuts, p) < Shifted(cuts, q)
    {
      OrderKept(|text|, 0, cuts, p, q);
    }
  }

  lemma RewriteReplaces(text: string, cuts: seq<Cut>)
    requires Ready(|text|, 0, cuts)
    ensures Replaces(text, cuts, Rewrite(text, 0, cuts))
  {
    RewriteLength(text, 0, cuts);
    Survivors(text, cuts);
    forall i | 0 <= i < |cuts|
      ensures StandsAt(Rewrite(text, 0, cuts), Shifted(cuts, cuts[i].start), cuts[i].put)
    {
      PutInPlace(text, 0, cuts, i);
    }
  }

  // ---------- from right to left ----------

  /** The text with only the cuts from index i on replaced. */
  ghost function Pending(text: string, cuts: seq<Cut>, i: nat): (out: string)
    requires Ready(|text|, 0, cuts) && i <= |cuts|
  {
    var p := if i == 0 then 0 else cuts[i - 1].end;
    ReadySuffix(|text|, 0, cuts, i);
    text[..p] + Rewrite(text, p, cuts[i..])
  }

  /** Replacing cut i in a text whose later cuts are replaced already. */
  lemma PendingStep(text: string, cuts: seq<Cut>, i: nat)
    requires Ready(|text|, 0, cuts) && i < |cuts|
    ensures var c, out := cuts[i], Pending(text, cuts, i + 1);
      && c.start < c.end <= |out|
      && Pending(text, cuts, i) == out[..c.start] + c.put + out[c.end..]
  {
    var c := cuts[i];
    var q := if i == 0 then 0 else cuts[i - 1].end;
    ReadySuffix(|text|, 0, cuts, i);
    Slices(text, q, c.start, c.end, c.put, Rewrite(text, c.end, cuts[i + 1..]));
  }

  lemma Slices(text: string, q: nat, s: nat, e: nat, put: string, tail: string)
    requires q <= s < e <= |text|
    ensures text[..q] + (text[q..s] + put + tail) == (text[..e] + tail)[..s] + put + (text[..e] + tail)[e..]
  {
    assert (text[..e] + tail)[..s] == text[..q] + text[q..s];
    assert (text[..e] + tail)[e..] == tail;
  }

  lemma PendingEnds(text: string, cuts: seq<Cut>)
    requires Ready(|text|, 0, cuts)
    ensures Pending(text, cuts, |cuts|) == text
    ensures Pending(text, cuts, 0) == Rewrite(text, 0, cuts)
  {
    assert cuts[0..] == cuts;
    ReadySuffix(|text|, 0, cuts, |cuts|);
    var p := if cuts == [] then 0 else cuts[|cuts| - 1].end;
    assert text[..p] + text[p..] == text;
  }
}
