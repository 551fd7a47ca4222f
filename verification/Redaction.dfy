/** Redaction of secret-named values in audit details. */
module Redaction {
  import opened Json

  /** str.lower(), as far as it leads to ASCII: the capital letters, and the Kelvin sign, which is the only
      other character whose lower case is a single ASCII character. */
  function Lower(s: string): (r: string)
    ensures |r| == |s|
  {
    seq(|s|, i requires 0 <= i < |s| => LowerChar(s[i]))
  }

  function LowerChar(c: char): (d: char) {
    if 'A' <= c <= 'Z' then c - 'A' + 'a' else if c == '\U{212A}' then 'k' else c
  }

  predicate SecretKey(k: string) {
    var l := Lower(k);
    l == "api_key" || l == "authorization" || l == "token" || l == "secret" || l == "password" || l == "cookie"
  }

  /** c is the small letter d, or one that is lowered to it; or d has no case. */
  predicate LowersTo(c: char, d: char) {
    c == d || ('a' <= d <= 'z' && c as int == d as int - 32) || (d == 'k' && c == '\U{212A}')
  }

  predicate SpelledLike(k: string, name: string) {
    |k| == |name| && forall i :: 0 <= i < |k| ==> LowersTo(k[i], name[i])
  }

  lemma LowerExact(k: string, name: string)
    requires forall i :: 0 <= i < |name| ==> !('A' <= name[i] <= 'Z') && name[i] != '\U{212A}'
    ensures Lower(k) == name <==> SpelledLike(k, name)
  {
    if SpelledLike(k, name) {
      forall i | 0 <= i < |k| ensures Lower(k)[i] == name[i] {
      }
    } else if |k| == |name| {
      var i :| 0 <= i < |k| && !LowersTo(k[i], name[i]);
      assert Lower(k)[i] != name[i];
    }
  }

  /** A name is secret exactly if it spells one of six words, whatever the case of its letters. */
  lemma SecretUpToCase(k: string)
    ensures SecretKey(k) <==>
      || SpelledLike(k, "api_key") || SpelledLike(k, "authorization") || SpelledLike(k, "token")
      || SpelledLike(k, "secret") || SpelledLike(k, "password") || SpelledLike(k, "cookie")
  {
    LowerExact(k, "api_key");
    LowerExact(k, "authorization");
    LowerExact(k, "token");
    LowerExact(k, "secret");
    LowerExact(k, "password");
    LowerExact(k, "cookie");
  }

  const MARKER: Json := Str("[REDACTED]")

  function Redact(x: Json): (y: Json)
    decreases x
  {
    match x
    case Obj(fields) => Obj(RedactFields(fields))
    case Arr(elems) => Arr(RedactElems(elems))
    case _ => x
  }

  function RedactFields(fs: seq<Field>): (gs: seq<Field>)
    ensures |gs| == |fs|
    decreases fs
  {
    if fs == [] then []
    else
      [Field(fs[0].key, if SecretKey(fs[0].key) then MARKER else Redact(fs[0].value))] + RedactFields(fs[1..])
  }

  function RedactElems(xs: seq<Json>): (ys: seq<Json>)
    ensures |ys| == |xs|
    decreases xs
  {
    if xs == [] then [] else [Redact(xs[0])] + RedactElems(xs[1..])
  }

  /** No value under a secret name, at any depth, other than the marker. */
  predicate Clean(x: Json)
    decreases x
  {
    match x
    case Obj(fields) => CleanFields(fields)
    case Arr(elems) => CleanElems(elems)
    case _ => true
  }

  predicate CleanFields(fs: seq<Field>)
    decreases fs
  {
    fs == [] || ((if SecretKey(fs[0].key) then fs[0].value == MARKER else Clean(fs[0].value)) && CleanFields(fs[1..]))
  }

  predicate CleanElems(xs: seq<Json>)
    decreases xs
  {
    xs == [] || (Clean(xs[0]) && CleanElems(xs[1..]))
  }

  /** Redaction leaves no secret, and leaves alone what has none; so redacting twice is redacting once. */
  lemma {:induction false} RedactClean(x: Json)
    ensures Clean(Redact(x))
    ensures Clean(x) ==> Redact(x) == x
    ensures Printable(x) ==> Printable(Redact(x))
    decreases x, 1
  {
    match x
    case Obj(fields) => RedactFieldsClean(fields);
    case Arr(elems) => RedactElemsClean(elems);
    case _ =>
  }

  lemma {:induction false} RedactFieldsClean(fs: seq<Field>)
    ensures CleanFields(RedactFields(fs))
    ensures CleanFields(fs) ==> RedactFields(fs) == fs
    ensures PrintableFields(fs) ==> PrintableFields(RedactFields(fs))
    decreases fs, 0
  {
    if fs != [] {
      RedactClean(fs[0].value);
      RedactFieldsClean(fs[1..]);
      assert RedactFields(fs)[1..] == RedactFields(fs[1..]);
    }
  }

  lemma {:induction false} RedactElemsClean(xs: seq<Json>)
    ensures CleanElems(RedactElems(xs))
    ensures CleanElems(xs) ==> RedactElems(xs) == xs
    ensures PrintableElems(xs) ==> PrintableElems(RedactElems(xs))
    decreases xs, 0
  {
    if xs != [] {
      RedactClean(xs[0]);
      RedactElemsClean(xs[1..]);
      assert RedactElems(xs)[1..] == RedactElems(xs[1..]);
    }
  }

  lemma {:induction false} FieldsRedacted(fs: seq<Field>)
    ensures forall i :: 0 <= i < |fs| ==>
      RedactFields(fs)[i]
      == Field(fs[i].key, if SecretKey(fs[i].key) then Str("[REDACTED]") else Redact(fs[i].value))
  {
    if fs != [] {
      FieldsRedacted(fs[1..]);
    }
  }

  lemma {:induction false} ElemsRedacted(xs: seq<Json>)
    ensures forall i :: 0 <= i < |xs| ==> RedactElems(xs)[i] == Redact(xs[i])
  {
    if xs != [] {
      ElemsRedacted(xs[1..]);
    }
  }

  /** y is x with the value under each secret name replaced, and every other value redacted itself. */
  ghost predicate RedactedOnce(x: Json, y: Json) {
    match x
    case Obj(fs) =>
      && y.Obj? && |y.fields| == |fs|
      && forall i :: 0 <= i < |fs| ==>
           y.fields[i] == Field(fs[i].key, if SecretKey(fs[i].key) then Str("[REDACTED]") else Redact(fs[i].value))
    case Arr(xs) => y.Arr? && |y.elems| == |xs| && forall i :: 0 <= i < |xs| ==> y.elems[i] == Redact(xs[i])
    case _ => y == x
  }

  /** Redaction replaces what is under a secret name, and nothing else, at every depth. */
  lemma RedactExact(x: Json)
    ensures RedactedOnce(x, Redact(x))
  {
    match x
    case Obj(fs) => FieldsRedacted(fs);
    case Arr(xs) => ElemsRedacted(xs);
    case _ =>
  }
}
