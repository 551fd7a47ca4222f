/** The printer writes as little as JSON and ASCII allow: nothing between the tokens, and short escapes. */
module Compact {
  import opened Json
  import opened JsonReader
  import opened JsonReading

  // ---------- no blanks ----------

  predicate Unspaced(s: string) {
    forall i :: 0 <= i < |s| ==> s[i] != ' '
  }

  /** No string and no name in x holds a blank. */
  predicate Bare(x: Json)
    decreases x
  {
    match x
    case Str(s) => Unspaced(s)
    case Arr(elems) => BareElems(elems)
    case Obj(fields) => BareFields(fields)
    case _ => true
  }

  predicate BareElems(xs: seq<Json>)
    decreases xs
  {
    xs == [] || (Bare(xs[0]) && BareElems(xs[1..]))
  }

  predicate BareFields(fs: seq<Field>)
    decreases fs
  {
    fs == [] || (Unspaced(fs[0].key) && Bare(fs[0].value) && BareFields(fs[1..]))
  }

  lemma EscapeUnspaced(c: char)
    requires c != ' '
    ensures Unspaced(Escape(c))
  {
  }

  lemma {:induction false} EscapesUnspaced(s: string)
    requires Unspaced(s)
    ensures Unspaced(EscapeAll(s))
  {
    if s != [] {
      EscapesUnspaced(s[1..]);
      EscapeUnspaced(s[0]);
    }
  }

  lemma QuoteUnspaced(s: string)
    requires Unspaced(s)
    ensures Unspaced(Quote(s))
  {
    EscapesUnspaced(s);
  }

  /** The printer adds no blanks: a printed text holds one only inside a string that does. */
  lemma {:induction false} PrintUnspaced(x: Json)
    requires Printable(x) && Bare(x)
    ensures Unspaced(Print(x))
    decreases x, 1
  {
    match x
    case Int(n) => DecimalIsNumber(n);
    case Str(s) => QuoteUnspaced(s);
    case Arr(elems) => ElemsUnspaced(elems);
    case Obj(fields) => FieldsUnspaced(fields);
    case _ =>
  }

  lemma {:induction false} ElemsUnspaced(xs: seq<Json>)
    requires PrintableElems(xs) && BareElems(xs)
    ensures Unspaced(PrintElems(xs))
    decreases xs, 0
  {
    if xs != [] {
      PrintUnspaced(xs[0]);
      ElemsUnspaced(xs[1..]);
    }
  }

  lemma {:induction false} FieldsUnspaced(fs: seq<Field>)
    requires PrintableFields(fs) && BareFields(fs)
    ensures Unspaced(PrintFields(fs))
    decreases fs, 0
  {
    if fs != [] {
      QuoteUnspaced(fs[0].key);
      PrintUnspaced(fs[0].value);
      FieldsUnspaced(fs[1..]);
    }
  }

  // ---------- short escapes ----------

  /** The characters with an escape of two characters. */
  predicate Lettered(c: char) {
    c == '"' || c == '\\' || c == '\n' || c == '\r' || c == '\t' || c == 8 as char || c == 12 as char
  }

  /** The digits of a unit are small letters and digits. */
  predicate SmallHex(c: char) {
    '0' <= c <= '9' || 'a' <= c <= 'f'
  }

  lemma DigitsSmall(n: nat)
    requires n < 0x10000
    ensures var s := UnicodeEscape(n); SmallHex(s[2]) && SmallHex(s[3]) && SmallHex(s[4]) && SmallHex(s[5])
  {
  }

  /** A character of a string is read back from what is written for it, which is as short as ASCII allows, and
      in small hexadecimal digits. */
  lemma EscapeExact(c: char)
    ensures var e := Escape(c);
      && |e| == (if Lettered(c) then 2 else if ' ' <= c <= '~' then 1 else if c as int < 0x10000 then 6 else 12)
      && ReadChar(e) == Good(c, [])
      && (|e| >= 6 ==> SmallHex(e[2]) && SmallHex(e[3]) && SmallHex(e[4]) && SmallHex(e[5]))
      && (|e| == 12 ==> SmallHex(e[8]) && SmallHex(e[9]) && SmallHex(e[10]) && SmallHex(e[11]))
  {
    CharBack(c, []);
    assert Escape(c) + [] == Escape(c);
    if c as int >= 0x10000 {
      var n := c as int - 0x10000;
      DigitsSmall(0xD800 + n / 0x400);
      DigitsSmall(0xDC00 + n % 0x400);
    } else {
      DigitsSmall(c as int);
    }
  }
}
