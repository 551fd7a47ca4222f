/** Texts of JSON, and their floats. */
module Sources {
  import opened Prelude
  import opened Sorting
  import opened Base64
  import opened Json
  import opened Canonical
  import opened Redaction

  /** What json.loads is given: a text, or its bytes. */
  datatype Source = Text(chars: string) | Bytes(bytes: seq<Byte>)

  predicate Ascii(s: string) {
    forall i :: 0 <= i < |s| ==> s[i] < 128 as char
  }

  function AsciiBytes(s: string): (b: seq<Byte>)
    ensures |b| == |s|
  {
    seq(|s|, i requires 0 <= i < |s| => if s[i] < 128 as char then s[i] as int else 0)
  }

  function Chars(b: seq<Byte>): (s: string)
    ensures |s| == |b|
  {
    seq(|b|, i requires 0 <= i < |b| => b[i] as char)
  }

  lemma AsciiBytesInjective(s: string, t: string)
    requires Ascii(s) && Ascii(t) && AsciiBytes(s) == AsciiBytes(t)
    ensures s == t
  {
    forall i | 0 <= i < |s| ensures s[i] == t[i] {
      assert AsciiBytes(s)[i] == AsciiBytes(t)[i];
    }
  }

  // ---------- floats ----------

  /** The reader takes this token for the float that is written like it. */
  predicate Kept(f: Source -> Option<Json>, repr: string) {
    f(Text(repr)) == Some(Float(repr))
  }

  /** It does so for each float in x. */
  predicate FloatsKept(f: Source -> Option<Json>, x: Json)
    decreases x
  {
    match x
    case Float(repr) => Kept(f, repr)
    case Arr(elems) => ElemsKept(f, elems)
    case Obj(fields) => FieldsKept(f, fields)
    case _ => true
  }

  predicate ElemsKept(f: Source -> Option<Json>, xs: seq<Json>)
    decreases xs
  {
    xs == [] || (FloatsKept(f, xs[0]) && ElemsKept(f, xs[1..]))
  }

  predicate FieldsKept(f: Source -> Option<Json>, fs: seq<Field>)
    decreases fs
  {
    fs == [] || (FloatsKept(f, fs[0].value) && FieldsKept(f, fs[1..]))
  }

  lemma {:induction false} AllKept(f: Source -> Option<Json>, fs: seq<Field>)
    requires forall i :: 0 <= i < |fs| ==> FloatsKept(f, fs[i].value)
    ensures FieldsKept(f, fs)
  {
    if fs != [] {
      AllKept(f, fs[1..]);
    }
  }

  lemma {:induction false} KeptAppend(f: Source -> Option<Json>, fs: seq<Field>, g: Field)
    requires FieldsKept(f, fs) && FloatsKept(f, g.value)
    ensures FieldsKept(f, fs + [g])
  {
    if fs != [] {
      KeptAppend(f, fs[1..], g);
      assert (fs + [g])[1..] == fs[1..] + [g];
    }
  }

  lemma {:induction false} InsertKept(f: Source -> Option<Json>, g: Field, fs: seq<Field>)
    requires FieldsKept(f, fs) && FloatsKept(f, g.value)
    ensures FieldsKept(f, Insert(ByKey, g, fs))
  {
    if fs == [] || ByKey(g, fs[0]) {
      assert ([g] + fs)[1..] == fs;
    } else {
      var rest := Insert(ByKey, g, fs[1..]);
      InsertKept(f, g, fs[1..]);
      assert ([fs[0]] + rest)[1..] == rest;
    }
  }

  lemma {:induction false} SortKept(f: Source -> Option<Json>, fs: seq<Field>)
    requires FieldsKept(f, fs)
    ensures FieldsKept(f, Sort(ByKey, fs))
  {
    if fs != [] {
      SortKept(f, fs[1..]);
      InsertKept(f, fs[0], Sort(ByKey, fs[1..]));
    }
  }

  /** The canonical form has the same floats. */
  lemma {:induction false} NormKept(f: Source -> Option<Json>, x: Json)
    requires FloatsKept(f, x)
    ensures FloatsKept(f, Norm(x))
    decreases x, 1
  {
    match x
    case Arr(elems) => NormElemsKept(f, elems);
    case Obj(fields) =>
      NormFieldsKept(f, fields);
      SortKept(f, NormFields(fields));
    case _ =>
  }

  lemma {:induction false} NormElemsKept(f: Source -> Option<Json>, xs: seq<Json>)
    requires ElemsKept(f, xs)
    ensures ElemsKept(f, NormElems(xs))
    decreases xs, 0
  {
    if xs != [] {
      NormKept(f, xs[0]);
      NormElemsKept(f, xs[1..]);
      assert NormElems(xs)[1..] == NormElems(xs[1..]);
    }
  }

  lemma {:induction false} NormFieldsKept(f: Source -> Option<Json>, fs: seq<Field>)
    requires FieldsKept(f, fs)
    ensures FieldsKept(f, NormFields(fs))
    decreases fs, 0
  {
    if fs != [] {
      NormKept(f, fs[0].value);
      NormFieldsKept(f, fs[1..]);
      assert NormFields(fs)[1..] == NormFields(fs[1..]);
    }
  }

  /** Redaction leaves floats alone, or removes them. */
  lemma {:induction false} RedactKept(f: Source -> Option<Json>, x: Json)
    requires FloatsKept(f, x)
    ensures FloatsKept(f, Redact(x))
    decreases x, 1
  {
    match x
    case Arr(elems) => RedactElemsKept(f, elems);
    case Obj(fields) => RedactFieldsKept(f, fields);
    case _ =>
  }

  lemma {:induction false} RedactElemsKept(f: Source -> Option<Json>, xs: seq<Json>)
    requires ElemsKept(f, xs)
    ensures ElemsKept(f, RedactElems(xs))
    decreases xs, 0
  {
    if xs != [] {
      RedactKept(f, xs[0]);
      RedactElemsKept(f, xs[1..]);
      assert RedactElems(xs)[1..] == RedactElems(xs[1..]);
    }
  }

  lemma {:induction false} RedactFieldsKept(f: Source -> Option<Json>, fs: seq<Field>)
    requires FieldsKept(f, fs)
    ensures FieldsKept(f, RedactFields(fs))
    decreases fs, 0
  {
    if fs != [] {
      RedactKept(f, fs[0].value);
      RedactFieldsKept(f, fs[1..]);
      assert RedactFields(fs)[1..] == RedactFields(fs[1..]);
    }
  }
}
