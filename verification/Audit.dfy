/** The hash-chained audit log: record, recovery across restarts, and verification.
    A log file is the sequence of its lines, as json.loads reads them. */
module Audit {
  import opened Prelude
  import opened Json
  import opened Canonical

  /** hexdigest of the keyed or plain hash of a message: any function into 64 characters. No
      injectivity is assumed; the theorems exhibit a collision instead. */
  type Digest = f: Hashed -> string | forall m :: |f(m)| == 64 witness ZeroDigest

  /** A message to be hashed. */
  datatype Hashed = Hashed(text: string)

  function Zeros(n: nat): (s: string)
    ensures |s| == n
  {
    seq(n, _ => '0')
  }

  function ZeroDigest(m: Hashed): string {
    Zeros(64)
  }

  const GENESIS: string := Zeros(64)

  /** A dictionary read from a log line. */
  type Entry = fs: seq<Field> | PrintableFields(fs) witness []

  datatype Line = Blank | Record(e: Entry) | Unreadable

  // ---------- the chain ----------

  /** The entry without its hash. */
  function Body(fs: seq<Field>): (b: seq<Field>) {
    if fs == [] then []
    else if fs[0].key == "hash" then Body(fs[1..])
    else [fs[0]] + Body(fs[1..])
  }

  /** What compute_digest hashes. */
  function Message(prev: string, fs: seq<Field>): (m: Hashed) {
    Hashed(prev + CanonicalText(Obj(Body(fs))))
  }

  function HashOf(fs: seq<Field>): (h: string) {
    match Get(fs, "hash")
    case Some(Str(s)) => s
    case _ => ""
  }

  function PrevOf(es: seq<Entry>, i: nat): (h: string)
    requires i <= |es|
  {
    if i == 0 then GENESIS else HashOf(es[i - 1])
  }

  predicate SeqOk(fs: seq<Field>, i: nat) {
    IntegerOf(Get(fs, "seq")) == Some(i)
  }

  predicate PrevOk(fs: seq<Field>, prev: string) {
    Get(fs, "prev_hash") == Some(Str(prev))
  }

  predicate HashOk(dig: Digest, fs: seq<Field>, prev: string) {
    Get(fs, "hash") == Some(Str(dig(Message(prev, fs))))
  }

  ghost predicate Linked(dig: Digest, es: seq<Entry>, i: nat)
    requires i < |es|
  {
    SeqOk(es[i], i) && PrevOk(es[i], PrevOf(es, i)) && HashOk(dig, es[i], PrevOf(es, i))
  }

  /** An intact chain: each entry carries its index, the hash of its predecessor and its own. */
  ghost predicate Intact(dig: Digest, es: seq<Entry>) {
    forall i :: 0 <= i < |es| ==> Linked(dig, es, i)
  }

  function Entries(lines: seq<Line>): (es: seq<Entry>) {
    if lines == [] then []
    else Entries(lines[..|lines| - 1]) + if lines[|lines| - 1].Record? then [lines[|lines| - 1].e] else []
  }

  /** All lines can be read and their entries form an intact chain. */
  ghost predicate Good(dig: Digest, lines: seq<Line>) {
    (forall i :: 0 <= i < |lines| ==> !lines[i].Unreadable?) && Intact(dig, Entries(lines))
  }

  /** The first entry of a good log has number 0 and follows 64 zeros. */
  lemma GoodStarts(dig: Digest, lines: seq<Line>)
    requires Good(dig, lines) && Entries(lines) != []
    ensures IntegerOf(Get(Entries(lines)[0], "seq")) == Some(0)
    ensures var prev := Get(Entries(lines)[0], "prev_hash");
      prev.Some? && prev.value.Str? && |prev.value.s| == 64 && forall i :: 0 <= i < 64 ==> prev.value.s[i] == '0'
  {
    assert Linked(dig, Entries(lines), 0);
  }

  // ---------- verification ----------

  datatype Reason = WrongSeq | WrongPrev | WrongHash

  datatype Verdict = Ok | Tampered(line: nat, reason: Reason) | Raises(line: nat)

  lemma {:induction false} EntriesSplit(lines: seq<Line>, k: nat)
    requires k < |lines|
    ensures Entries(lines[..k + 1])
         == Entries(lines[..k]) + if lines[k].Record? then [lines[k].e] else []
  {
    assert lines[..k + 1][..k] == lines[..k];
  }

  /** One more line keeps the log good exactly when it is blank, or an entry that continues the chain. */
  lemma GoodStep(dig: Digest, lines: seq<Line>, k: nat)
    requires k < |lines| && Good(dig, lines[..k])
    ensures var es := Entries(lines[..k]);
      Good(dig, lines[..k + 1])
      <==> !lines[k].Unreadable?
           && (lines[k].Record? ==>
                 var prev := PrevOf(es, |es|);
                 SeqOk(lines[k].e, |es|) && PrevOk(lines[k].e, prev) && HashOk(dig, lines[k].e, prev))
  {
    var es := Entries(lines[..k]);
    EntriesSplit(lines, k);
    assert lines[..k + 1] == lines[..k] + [lines[k]];
    assert (lines[..k + 1])[k] == lines[k];
    if lines[k].Record? {
      IntactStep(dig, es, lines[k].e);
    } else {
      assert Entries(lines[..k + 1]) == es;
    }
  }

  lemma LinkedPrefix(dig: Digest, es: seq<Entry>, more: seq<Entry>, i: nat)
    requires i < |es|
    ensures Linked(dig, es + more, i) <==> Linked(dig, es, i)
  {
    assert (es + more)[i] == es[i];
    assert PrevOf(es + more, i) == PrevOf(es, i);
  }

  lemma IntactStep(dig: Digest, es: seq<Entry>, e: Entry)
    requires Intact(dig, es)
    ensures var prev := PrevOf(es, |es|);
      Intact(dig, es + [e]) <==> SeqOk(e, |es|) && PrevOk(e, prev) && HashOk(dig, e, prev)
  {
    var fs := es + [e];
    forall i | 0 <= i < |es| ensures Linked(dig, fs, i) {
      LinkedPrefix(dig, es, [e], i);
    }
    assert fs[|es|] == e && PrevOf(fs, |es|) == PrevOf(es, |es|);
    assert Intact(dig, fs) <==> Linked(dig, fs, |es|);
  }

  /** Every prefix of a good log is good. */
  lemma {:induction false} PrefixGood(dig: Digest, lines: seq<Line>, k: nat)
    requires Good(dig, lines) && k <= |lines|
    ensures Good(dig, lines[..k])
    decreases |lines|
  {
    if k == |lines| {
      assert lines[..k] == lines;
    } else {
      var n := |lines| - 1;
      ShorterGood(dig, lines);
      PrefixGood(dig, lines[..n], k);
      assert lines[..n][..k] == lines[..k];
    }
  }

  lemma ShorterGood(dig: Digest, lines: seq<Line>)
    requires Good(dig, lines) && lines != []
    ensures Good(dig, lines[..|lines| - 1])
  {
    var n := |lines| - 1;
    var es := Entries(lines[..n]);
    forall i | 0 <= i < |es| ensures Linked(dig, es, i) {
      assert Linked(dig, Entries(lines), i);
      LinkedPrefix(dig, es, if lines[n].Record? then [lines[n].e] else [], i);
    }
  }

  /** The reported line is the least one whose prefix fails. */
  ghost predicate FirstBad(dig: Digest, lines: seq<Line>, line: nat) {
    && 1 <= line <= |lines|
    && (forall m :: 0 <= m < line ==> Good(dig, lines[..m]))
    && (forall m :: line <= m <= |lines| ==> !Good(dig, lines[..m]))
  }

  lemma FirstBadAt(dig: Digest, lines: seq<Line>, k: nat)
    requires k < |lines| && Good(dig, lines[..k]) && !Good(dig, lines[..k + 1])
    ensures FirstBad(dig, lines, k + 1)
  {
    forall m | 0 <= m < k + 1 ensures Good(dig, lines[..m]) {
      PrefixGood(dig, lines[..k], m);
      assert lines[..k][..m] == lines[..m];
    }
    forall m | k + 1 <= m <= |lines| ensures !Good(dig, lines[..m]) {
      assert lines[..m][..k + 1] == lines[..k + 1];
      if Good(dig, lines[..m]) {
        PrefixGood(dig, lines[..m], k + 1);
      }
    }
  }

  /** Which check the entry at 1-based line number `line` fails. */
  ghost predicate FailsWith(dig: Digest, lines: seq<Line>, line: nat, reason: Reason) {
    && 1 <= line <= |lines| && lines[line - 1].Record?
    && var es, e := Entries(lines[..line - 1]), lines[line - 1].e;
    && var prev := PrevOf(es, |es|);
    match reason
    case WrongSeq => !SeqOk(e, |es|)
    case WrongPrev => SeqOk(e, |es|) && !PrevOk(e, prev)
    case WrongHash => SeqOk(e, |es|) && PrevOk(e, prev) && !HashOk(dig, e, prev)
  }

  /** What reading line i (from 0) of a log that is good so far leads to. */
  lemma ReadLine(dig: Digest, lines: seq<Line>, i: nat)
    requires i < |lines| && Good(dig, lines[..i])
    ensures Good(dig, lines[..i + 1]) || (FirstBad(dig, lines, i + 1) && !Good(dig, lines))
    ensures lines[i].Blank? ==> Good(dig, lines[..i + 1]) && Entries(lines[..i + 1]) == Entries(lines[..i])
    ensures lines[i].Unreadable? ==> !Good(dig, lines[..i + 1])
    ensures lines[i].Record? ==>
      var es, e := Entries(lines[..i]), lines[i].e;
      var prev := PrevOf(es, |es|);
      && Entries(lines[..i + 1]) == es + [e]
      && (Good(dig, lines[..i + 1]) <==> SeqOk(e, |es|) && PrevOk(e, prev) && HashOk(dig, e, prev))
  {
    GoodStep(dig, lines, i);
    EntriesSplit(lines, i);
    if !Good(dig, lines[..i + 1]) {
      FirstBadAt(dig, lines, i);
      assert !Good(dig, lines[..|lines|]) && lines[..|lines|] == lines;
    }
  }

  method VerifyChain(dig: Digest, lines: seq<Line>) returns (v: Verdict)
    ensures v.Ok? <==> Good(dig, lines)
    ensures v.Tampered? ==> FirstBad(dig, lines, v.line) && FailsWith(dig, lines, v.line, v.reason)
    ensures v.Raises? ==> FirstBad(dig, lines, v.line) && lines[v.line - 1].Unreadable?
  {
    var prev := GENESIS;
    var expectedSeq := 0;
    for i := 0 to |lines|
      invariant Good(dig, lines[..i])
      invariant expectedSeq == |Entries(lines[..i])|
      invariant prev == PrevOf(Entries(lines[..i]), expectedSeq)
    {
      ReadLine(dig, lines, i);
      match lines[i]
      case Blank =>
      case Unreadable =>
        return Raises(i + 1);
      case Record(e) =>
        if IntegerOf(Get(e, "seq")) != Some(expectedSeq) {
          return Tampered(i + 1, WrongSeq);
        }
        if Get(e, "prev_hash") != Some(Str(prev)) {
          return Tampered(i + 1, WrongPrev);
        }
        var recomputed := dig(Message(prev, e));
        if Some(Str(recomputed)) != Get(e, "hash") {
          return Tampered(i + 1, WrongHash);
        }
        prev := recomputed;
        expectedSeq := expectedSeq + 1;
    }
    assert lines[..|lines|] == lines;
    return Ok;
  }

  /** Verification accepts every prefix of a log that it accepts: a lost tail is never noticed. */
  method TruncationUnnoticed(dig: Digest, lines: seq<Line>, k: nat) returns (v: Verdict)
    requires Good(dig, lines) && k <= |lines|
    ensures v == Ok
  {
    PrefixGood(dig, lines, k);
    v := VerifyChain(dig, lines[..k]);
  }

  // ---------- tamper evidence ----------

  /** Two entries are the same dictionary. */
  ghost predicate SameEntry(a: Entry, b: Entry) {
    Norm(Obj(Body(a))) == Norm(Obj(Body(b))) && Get(a, "hash") == Get(b, "hash")
  }

  /** Entry i of a and entry j of b were hashed from different messages to the same digest. */
  ghost predicate Collide(dig: Digest, a: seq<Entry>, i: nat, b: seq<Entry>, j: nat)
    requires i < |a| && j < |b|
  {
    var m, m' := Message(PrevOf(a, i), a[i]), Message(PrevOf(b, j), b[j]);
    m != m' && dig(m) == dig(m')
  }

  ghost predicate Collision(dig: Digest, a: seq<Entry>, b: seq<Entry>) {
    exists i, j :: 0 <= i < |a| && 0 <= j < |b| && Collide(dig, a, i, b, j)
  }

  lemma {:induction false} BodyPrintable(fs: seq<Field>)
    requires PrintableFields(fs)
    ensures PrintableFields(Body(fs))
  {
    if fs != [] {
      BodyPrintable(fs[1..]);
      assert fs[0].key != "hash" ==> Body(fs)[1..] == Body(fs[1..]);
    }
  }

  lemma {:induction false} BodyKeeps(fs: seq<Field>, key: string)
    requires key != "hash"
    ensures Get(Body(fs), key) == Get(fs, key)
  {
    if fs != [] {
      BodyKeeps(fs[1..], key);
      assert fs[0].key != "hash" ==> Body(fs)[1..] == Body(fs[1..]);
    }
  }

  /** The previous hash has a fixed width, so a message splits in one way only. */
  lemma MessageInjective(prev: string, a: Entry, prev': string, b: Entry)
    requires |prev| == |prev'| && Message(prev, a) == Message(prev', b)
    ensures prev == prev' && Norm(Obj(Body(a))) == Norm(Obj(Body(b)))
  {
    SplitEqual(prev, prev', CanonicalText(Obj(Body(a))), CanonicalText(Obj(Body(b))));
    BodyPrintable(a);
    BodyPrintable(b);
    CanonicalInjective(Obj(Body(a)), Obj(Body(b)));
  }

  lemma SameSeq(a: Entry, b: Entry)
    requires Norm(Obj(Body(a))) == Norm(Obj(Body(b)))
    ensures IntegerOf(Get(a, "seq")) == IntegerOf(Get(b, "seq"))
  {
    BodyKeeps(a, "seq");
    BodyKeeps(b, "seq");
    SameLookups(Body(a), Body(b), "seq");
    NormInteger(Get(a, "seq"));
    NormInteger(Get(b, "seq"));
  }

  lemma NormInteger(v: Option<Json>)
    ensures IntegerOf(NormOption(v)) == IntegerOf(v)
  {
  }

  lemma PrevWidth(dig: Digest, es: seq<Entry>, i: nat)
    requires Intact(dig, es) && i <= |es|
    ensures |PrevOf(es, i)| == 64
  {
    if i > 0 {
      assert Linked(dig, es, i - 1);
    }
  }

  /** Entries of two intact chains with the same hash have the same place, the same content and
      the same predecessor hash, unless they are a collision. */
  lemma SameHash(dig: Digest, a: seq<Entry>, i: nat, b: seq<Entry>, j: nat)
    requires Intact(dig, a) && Intact(dig, b) && i < |a| && j < |b|
    requires HashOf(a[i]) == HashOf(b[j]) && !Collision(dig, a, b)
    ensures i == j && SameEntry(a[i], b[j]) && PrevOf(a, i) == PrevOf(b, j)
  {
    assert Linked(dig, a, i) && Linked(dig, b, j);
    PrevWidth(dig, a, i);
    PrevWidth(dig, b, j);
    assert !Collide(dig, a, i, b, j);
    MessageInjective(PrevOf(a, i), a[i], PrevOf(b, j), b[j]);
    SameSeq(a[i], b[j]);
  }

  /** The first n entries of the two chains are the same dictionaries. */
  ghost predicate SamePrefix(a: seq<Entry>, b: seq<Entry>, n: nat)
    requires n <= |a| && n <= |b|
  {
    forall k :: 0 <= k < n ==> SameEntry(a[k], b[k])
  }

  lemma {:induction false} SameDown(dig: Digest, a: seq<Entry>, b: seq<Entry>, n: nat)
    requires Intact(dig, a) && Intact(dig, b) && n <= |a| && n <= |b|
    requires PrevOf(a, n) == PrevOf(b, n) && !Collision(dig, a, b)
    ensures SamePrefix(a, b, n)
    decreases n
  {
    if n > 0 {
      assert SameEntry(a[n - 1], b[n - 1]) && PrevOf(a, n - 1) == PrevOf(b, n - 1) by {
        SameHash(dig, a, n - 1, b, n - 1);
      }
      SameDown(dig, a, b, n - 1);
      SamePrefixStep(a, b, n - 1);
    }
  }

  lemma SamePrefixStep(a: seq<Entry>, b: seq<Entry>, n: nat)
    requires n < |a| && n < |b| && SamePrefix(a, b, n) && SameEntry(a[n], b[n])
    ensures SamePrefix(a, b, n + 1)
  {
  }

  /** One hash pins the whole log up to it: when two accepted logs share a hash anywhere, it stands
      at the same place and everything up to it is the same, or the digest has a collision that can
      be read off the two logs. */
  lemma HashPinsPrefix(dig: Digest, log: seq<Line>, log': seq<Line>, i: nat, j: nat)
    requires Good(dig, log) && Good(dig, log')
    requires i < |Entries(log)| && j < |Entries(log')|
    requires HashOf(Entries(log)[i]) == HashOf(Entries(log')[j])
    ensures Collision(dig, Entries(log), Entries(log'))
         || (i == j && SamePrefix(Entries(log), Entries(log'), i + 1))
  {
    ChainPins(dig, Entries(log), i, Entries(log'), j);
  }

  lemma SamePlace(dig: Digest, a: seq<Entry>, i: nat, b: seq<Entry>, j: nat)
    requires Intact(dig, a) && Intact(dig, b) && i < |a| && j < |b|
    requires HashOf(a[i]) == HashOf(b[j]) && !Collision(dig, a, b)
    ensures i == j && PrevOf(a, i + 1) == PrevOf(b, i + 1)
  {
    SameHash(dig, a, i, b, j);
  }

  lemma ChainPins(dig: Digest, a: seq<Entry>, i: nat, b: seq<Entry>, j: nat)
    requires Intact(dig, a) && Intact(dig, b) && i < |a| && j < |b| && HashOf(a[i]) == HashOf(b[j])
    ensures Collision(dig, a, b) || (i == j && SamePrefix(a, b, i + 1))
  {
    if !Collision(dig, a, b) {
      SamePlace(dig, a, i, b, j);
      SameDown(dig, a, b, i + 1);
    }
  }

  function LastHash(es: seq<Entry>): (h: string)
    requires es != []
  {
    HashOf(es[|es| - 1])
  }

  lemma ChainEnds(dig: Digest, a: seq<Entry>, b: seq<Entry>)
    requires Intact(dig, a) && Intact(dig, b) && a != [] && b != [] && LastHash(a) == LastHash(b)
    ensures Collision(dig, a, b) || (|a| == |b| && SamePrefix(a, b, |a|))
  {
    ChainPins(dig, a, |a| - 1, b, |b| - 1);
  }

  /** Two accepted logs that end in the same hash are identical entry for entry, so no edit,
      insertion, reordering or inner deletion that keeps the last hash is accepted. */
  lemma SameLastHashSameLog(dig: Digest, log: seq<Line>, log': seq<Line>, a: seq<Entry>, b: seq<Entry>)
    requires Good(dig, log) && Good(dig, log') && a == Entries(log) && b == Entries(log')
    requires a != [] && b != [] && LastHash(a) == LastHash(b)
    ensures Collision(dig, a, b) || (|a| == |b| && SamePrefix(a, b, |a|))
  {
    ChainEnds(dig, a, b);
  }
}
