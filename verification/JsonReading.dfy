/** The reader of JSON reads back what the printer writes. */
module JsonReading {
  import opened Prelude
  import opened Strings
  import opened Json
  import opened JsonReader
  import opened Sources

  // ---------- strings ----------

  lemma HexBack(d: nat)
    requires d < 16
    ensures HexOf(HexDigit(d)) == Some(d)
  {
  }

  lemma HexFourBack(n: nat, t: string)
    requires n < 0x10000
    ensures HexFour(UnicodeEscape(n)[2..] + t) == Some(n) && (UnicodeEscape(n)[2..] + t)[4..] == t
  {
    HexParts(n);
    HexBack(n / 4096);
    HexBack(n / 256 % 16);
    HexBack(n / 16 % 16);
    HexBack(n % 16);
  }

  lemma UnitBack(n: nat, t: string)
    requires n < 0xD800 || 0xDFFF < n < 0x10000
    ensures ReadUnits(UnicodeEscape(n)[2..] + t) == Good(n as char, t)
  {
    HexFourBack(n, t);
  }

  lemma PairBack(n: nat, m: nat, t: string)
    requires 0xD800 <= n < 0xDC00 <= m <= 0xDFFF
    ensures ReadUnits(UnicodeEscape(n)[2..] + (UnicodeEscape(m) + t))
         == Good((0x10000 + (n - 0xD800) * 0x400 + (m - 0xDC00)) as char, t)
  {
    var s := UnicodeEscape(n)[2..] + (UnicodeEscape(m) + t);
    HexFourBack(n, UnicodeEscape(m) + t);
    HexFourBack(m, t);
    assert s[4] == '\\' && s[5] == 'u' && s[6..] == UnicodeEscape(m)[2..] + t;
    assert s[10..] == t;
  }

  lemma OneUnitBack(c: char, t: string)
    requires Wide(c) && c as int < 0x10000
    ensures ReadChar(Escape(c) + t) == Good(c, t)
  {
    var n := c as int;
    var s := Escape(c) + t;
    assert s == UnicodeEscape(n) + t && s[0] == '\\' && s[1..][0] == 'u';
    assert s[1..][1..] == UnicodeEscape(n)[2..] + t;
    UnitBack(n, t);
  }

  lemma EscapeU(s: string, t: string)
    requires s == ['\\', 'u'] + t
    ensures s != [] && ReadChar(s) == ReadUnits(t)
  {
    assert s[1..][1..] == t;
  }

  lemma PairSplits(h: string, l: string, t: string)
    requires |h| == 6
    ensures (h + l) + t == h[..2] + (h[2..] + (l + t))
  {
  }

  lemma TwoUnitsBack(c: char, t: string)
    requires c as int >= 0x10000
    ensures ReadChar(Escape(c) + t) == Good(c, t)
  {
    var n := c as int - 0x10000;
    var h, l := 0xD800 + n / 0x400, 0xDC00 + n % 0x400;
    var units := UnicodeEscape(h)[2..] + (UnicodeEscape(l) + t);
    PairSplits(UnicodeEscape(h), UnicodeEscape(l), t);
    EscapeU(Escape(c) + t, units);
    PairBack(h, l, t);
    PairExact(n);
  }

  lemma PairExact(n: nat)
    ensures n / 0x400 * 0x400 + n % 0x400 == n
  {
  }

  lemma CharBack(c: char, t: string)
    ensures ReadChar(Escape(c) + t) == Good(c, t)
  {
    if Wide(c) && c as int < 0x10000 {
      OneUnitBack(c, t);
    } else if Wide(c) {
      TwoUnitsBack(c, t);
    } else if ShortEscape(c).Some? {
      assert (Escape(c) + t)[1..] == [ShortEscape(c).value] + t;
    }
  }

  lemma StringNext(s: string, c: char, t: string, u: string, r: string)
    requires s != [] && s[0] != '"' && ReadChar(s) == Good(c, t) && ReadString(t) == Good(u, r)
    ensures ReadString(s) == Good([c] + u, r)
  {
  }

  lemma StringEnds(r: string)
    ensures ReadString(['"'] + r) == Good([], r)
  {
    assert (['"'] + r)[1..] == r;
  }

  lemma StringHead(a: string, r: string)
    requires a != []
    ensures var s := EscapeAll(a) + (['"'] + r);
      s != [] && s[0] != '"' && ReadChar(s) == Good(a[0], EscapeAll(a[1..]) + (['"'] + r))
  {
    EscapeAllUnfold(a, r);
    CharBack(a[0], EscapeAll(a[1..]) + (['"'] + r));
  }

  lemma {:induction false} StringBack(a: string, r: string)
    ensures ReadString(EscapeAll(a) + (['"'] + r)) == Good(a, r)
  {
    if a == [] {
      StringEnds(r);
      assert EscapeAll(a) + (['"'] + r) == ['"'] + r;
    } else {
      StringHead(a, r);
      StringBack(a[1..], r);
      StringNext(EscapeAll(a) + (['"'] + r), a[0], EscapeAll(a[1..]) + (['"'] + r), a[1..], r);
      assert [a[0]] + a[1..] == a;
    }
  }

  lemma QuoteSplits(a: string, r: string)
    ensures Quote(a) + r == ['"'] + (EscapeAll(a) + (['"'] + r))
  {
  }

  /** A quoted string in front of a text is read off. */
  lemma QuoteBack(a: string, r: string)
    ensures var s := Quote(a) + r;
      s != [] && s[0] == '"' && ReadString(s[1..]) == Good(a, r)
  {
    var t := EscapeAll(a) + (['"'] + r);
    QuoteSplits(a, r);
    StringBack(a, r);
    assert (['"'] + t)[1..] == t;
  }

  // ---------- numbers ----------

  lemma TokenStops(r: string)
    requires Follows(r)
    ensures Token(r) == []
  {
  }

  lemma TokenNext(c: char, t: string)
    requires NumberChar(c)
    ensures Token([c] + t) == [c] + Token(t)
  {
    assert ([c] + t)[1..] == t;
  }

  lemma {:induction false} TokenBack(s: string, r: string)
    requires NumberToken(s) && Follows(r)
    ensures Token(s + r) == s
  {
    if s == [] {
      TokenStops(r);
      assert s + r == r;
    } else {
      TokenBack(s[1..], r);
      TokenNext(s[0], s[1..] + r);
      assert s + r == [s[0]] + (s[1..] + r);
    }
  }

  lemma {:induction false} AllAreDigits(s: string)
    requires AllDigits(s)
    ensures DigitCount(s) == |s|
  {
    if s != [] {
      AllAreDigits(s[1..]);
    }
  }

  lemma {:induction false} NoLeadingZero(n: nat)
    ensures |Numeral(n)| > 1 ==> Numeral(n)[0] != '0'
    ensures n > 0 ==> Numeral(n)[0] != '0'
  {
    if n >= 10 {
      NoLeadingZero(n / 10);
    }
  }

  lemma IntBack(n: int, r: string)
    requires Follows(r)
    ensures ReadNumber(Decimal(n) + r) == Good(Int(n), r)
  {
    var s := Decimal(n);
    var m := if n < 0 then -n else n;
    DecimalIsNumber(n);
    TokenBack(s, r);
    assert Unsigned(s) == Numeral(m) by {
      if n < 0 {
        assert s[1..] == Numeral(m);
      }
    }
    AllAreDigits(Numeral(m));
    NoLeadingZero(m);
    DecimalParses(n);
    assert (s + r)[|s|..] == r;
  }

  lemma AloneIsNumber(s: string)
    requires FloatRepr(s) && ReadText(s) == Some(Float(s))
    ensures ReadNumber(s) == Good(Float(s), [])
  {
    TokenBack(s, []);
    NumberStart(s);
    assert s + [] == s;
  }

  lemma SameToken(s: string, r: string)
    requires Token(s) == s && Token(s + r) == s && ReadNumber(s) == Good(Float(s), [])
    ensures ReadNumber(s + r) == Good(Float(s), r)
  {
    assert (s + r)[|s|..] == r;
  }

  /** A float that is read back alone is read back in front of a text. */
  lemma FloatBack(s: string, r: string)
    requires FloatRepr(s) && ReadText(s) == Some(Float(s)) && Follows(r)
    ensures ReadNumber(s + r) == Good(Float(s), r)
  {
    TokenBack(s, []);
    TokenBack(s, r);
    AloneIsNumber(s);
    assert s + [] == s;
    SameToken(s, r);
  }

  // ---------- values ----------

  /** The reader as a function of a text or of ASCII bytes. */
  function TheReader(src: Source): (r: Option<Json>)
    ensures r.Some? ==> Printable(r.value)
  {
    match src
    case Text(t) => ReadText(t)
    case Bytes(b) => if (forall i :: 0 <= i < |b| ==> b[i] < 128) then ReadText(Chars(b)) else None
  }

  lemma WordBack(word: string, x: Json, r: string)
    requires word != [] && Printable(x)
    ensures ReadWord(word + r, word, x) == Good(x, r)
  {
    assert (word + r)[|word|..] == r;
  }

  lemma ScalarBack(x: Json, r: string)
    requires x.Null? || x.Bool? || x.Str?
    ensures ReadValue(Print(x) + r) == Good(x, r)
  {
    if x.Str? {
      QuoteBack(x.s, r);
      StringStart(Print(x) + r, x.s, r);
    } else {
      WordBack(Print(x), x, r);
      assert (Print(x) + r)[0] == Print(x)[0];
    }
  }

  // One step of the reader, for texts given by their parts.

  lemma NumberStart(s: string)
    requires s != [] && (IsDigitChar(s[0]) || s[0] == '-' || s[0] == 'N' || s[0] == 'I')
    ensures ReadValue(s) == ReadNumber(s)
  {
    assert Skip(s) == s;
    assert s[0] != '"' && s[0] != '[' && s[0] != '{' && s[0] != 'n' && s[0] != 't' && s[0] != 'f';
  }

  lemma StringStart(s: string, a: string, r: string)
    requires s != [] && s[0] == '"' && ReadString(s[1..]) == Good(a, r)
    ensures ReadValue(s) == Good(Str(a), r)
  {
  }

  lemma ListStart(s: string, t: string)
    requires s == ['['] + t
    ensures ReadValue(s) == ReadList(t)
  {
    assert s[1..] == t;
  }

  lemma ListEmpty(r: string)
    ensures ReadList([']'] + r) == Good(Arr([]), r)
  {
    assert ([']'] + r)[1..] == r;
  }

  lemma ListFull(t: string, xs: seq<Json>, r: string)
    requires t != [] && !Blank(t[0]) && t[0] != ']' && ReadElems(t) == Good(xs, r)
    ensures ReadList(t) == Good(Arr(xs), r)
  {
  }

  lemma ElemsLast(s: string, x: Json, r: string)
    requires ReadValue(s) == Good(x, [']'] + r)
    ensures ReadElems(s) == Good([x], r)
  {
  }

  lemma ElemsNext(s: string, x: Json, t: string, xs: seq<Json>, r: string)
    requires ReadValue(s) == Good(x, [','] + t) && ReadElems(t) == Good(xs, r)
    ensures ReadElems(s) == Good([x] + xs, r)
  {
    assert ([','] + t)[1..] == t;
  }

  lemma DictStart(s: string, t: string)
    requires s == ['{'] + t
    ensures ReadValue(s) == ReadDict(t)
  {
    assert s[1..] == t;
  }

  lemma DictEmpty(r: string)
    ensures ReadDict(['}'] + r) == Good(Obj([]), r)
  {
    assert (['}'] + r)[1..] == r;
  }

  lemma DictFull(t: string, fs: seq<Field>, r: string)
    requires t != [] && t[0] == '"' && ReadFields(t) == Good(fs, r)
    ensures ReadDict(t) == Good(Obj(fs), r)
  {
  }

  lemma FieldsLast(s: string, f: Field, r: string)
    requires ReadField(s) == Good(f, ['}'] + r)
    ensures ReadFields(s) == Good([f], r)
  {
  }

  lemma FieldsNext(s: string, f: Field, t: string, fs: seq<Field>, r: string)
    requires ReadField(s) == Good(f, [','] + t) && ReadFields(t) == Good(fs, r)
    ensures ReadFields(s) == Good([f] + fs, r)
  {
    assert ([','] + t)[1..] == t;
  }

  lemma FieldParts(s: string, key: string, t: string, x: Json, r: string)
    requires s != [] && s[0] == '"' && ReadString(s[1..]) == Good(key, [':'] + t) && ReadValue(t) == Good(x, r)
    ensures ReadField(s) == Good(Field(key, x), r)
  {
    assert ([':'] + t)[1..] == t;
  }

  // The printer's parts.

  lemma NumberBack(x: Json, r: string)
    requires Printable(x) && IsNumber(x) && FloatsKept(TheReader, x) && Follows(r)
    ensures ReadValue(Print(x) + r) == Good(x, r)
  {
    PrintLead(x);
    assert (Print(x) + r)[0] == Print(x)[0];
    NumberStart(Print(x) + r);
    if x.Int? {
      IntBack(x.n, r);
    } else {
      FloatBack(x.repr, r);
    }
  }

  /** What the printer writes for a value is read as that value, whatever follows. */
  lemma {:induction false} ValueBack(x: Json, r: string)
    requires Printable(x) && FloatsKept(TheReader, x) && Follows(r)
    ensures ReadValue(Print(x) + r) == Good(x, r)
    decreases x, 2
  {
    if IsNumber(x) {
      NumberBack(x, r);
    } else if x.Arr? {
      ListBack(x.elems, r);
    } else if x.Obj? {
      DictBack(x.fields, r);
    } else {
      ScalarBack(x, r);
    }
  }

  lemma {:induction false} ListBack(xs: seq<Json>, r: string)
    requires PrintableElems(xs) && ElemsKept(TheReader, xs)
    ensures ReadValue(Print(Arr(xs)) + r) == Good(Arr(xs), r)
    decreases xs, 1
  {
    var t := PrintElems(xs) + ([']'] + r);
    assert Print(Arr(xs)) + r == ['['] + t;
    ListStart(Print(Arr(xs)) + r, t);
    if xs == [] {
      ListEmpty(r);
      assert t == [']'] + r;
    } else {
      ElemsBack(xs, r);
      ElemsLead(xs, r);
      ListFull(t, xs, r);
    }
  }

  lemma ElemsLead(xs: seq<Json>, r: string)
    requires xs != [] && PrintableElems(xs)
    ensures var s := PrintElems(xs) + ([']'] + r);
      s != [] && !Blank(s[0]) && s[0] != ']'
  {
    ElemsUnfold(xs, r);
    PrintLead(xs[0]);
    assert (Print(xs[0]) + ElemsRest(xs, r))[0] == Print(xs[0])[0];
  }

  lemma ElemsRestIs(xs: seq<Json>, r: string)
    requires xs != []
    ensures ElemsRest(xs, r) == if |xs| == 1 then [']'] + r else [','] + (PrintElems(xs[1..]) + ([']'] + r))
  {
    assert |xs| > 1 ==> ElemsRest(xs, r) == [','] + (PrintElems(xs[1..]) + ([']'] + r));
  }

  lemma FirstElemBack(xs: seq<Json>, r: string)
    requires xs != [] && ReadValue(Print(xs[0]) + ElemsRest(xs, r)) == Good(xs[0], ElemsRest(xs, r))
    ensures ReadValue(PrintElems(xs) + ([']'] + r)) == Good(xs[0], ElemsRest(xs, r))
  {
    ElemsUnfold(xs, r);
  }

  lemma ElemsOneBack(xs: seq<Json>, s: string, r: string)
    requires |xs| == 1 && ReadValue(s) == Good(xs[0], ElemsRest(xs, r))
    ensures ReadElems(s) == Good(xs, r)
  {
    ElemsRestIs(xs, r);
    ElemsLast(s, xs[0], r);
    assert [xs[0]] == xs;
  }

  lemma ElemsMoreBack(xs: seq<Json>, s: string, r: string)
    requires |xs| > 1 && ReadValue(s) == Good(xs[0], ElemsRest(xs, r))
    requires ReadElems(PrintElems(xs[1..]) + ([']'] + r)) == Good(xs[1..], r)
    ensures ReadElems(s) == Good(xs, r)
  {
    ElemsRestIs(xs, r);
    ElemsNext(s, xs[0], PrintElems(xs[1..]) + ([']'] + r), xs[1..], r);
    assert [xs[0]] + xs[1..] == xs;
  }

  lemma {:induction false} ElemsBack(xs: seq<Json>, r: string)
    requires xs != [] && PrintableElems(xs) && ElemsKept(TheReader, xs)
    ensures ReadElems(PrintElems(xs) + ([']'] + r)) == Good(xs, r)
    decreases xs, 0
  {
    var s := PrintElems(xs) + ([']'] + r);
    ValueBack(xs[0], ElemsRest(xs, r));
    FirstElemBack(xs, r);
    if |xs| == 1 {
      ElemsOneBack(xs, s, r);
    } else {
      ElemsBack(xs[1..], r);
      ElemsMoreBack(xs, s, r);
    }
  }

  lemma DictText(fs: seq<Field>, r: string)
    ensures Print(Obj(fs)) + r == ['{'] + (PrintFields(fs) + (['}'] + r))
  {
  }

  lemma FieldsLead(fs: seq<Field>, r: string)
    requires fs != []
    ensures var s := PrintFields(fs) + (['}'] + r);
      s != [] && s[0] == '"'
  {
    FieldsUnfold(fs, r);
  }

  lemma {:induction false} DictBack(fs: seq<Field>, r: string)
    requires PrintableFields(fs) && FieldsKept(TheReader, fs)
    ensures ReadValue(Print(Obj(fs)) + r) == Good(Obj(fs), r)
    decreases fs, 1
  {
    var t := PrintFields(fs) + (['}'] + r);
    DictText(fs, r);
    DictStart(Print(Obj(fs)) + r, t);
    if fs == [] {
      DictEmpty(r);
      assert t == ['}'] + r;
    } else {
      FieldsBack(fs, r);
      FieldsLead(fs, r);
      DictFull(t, fs, r);
    }
  }

  lemma FieldBack(key: string, x: Json, r: string)
    requires ReadValue(Print(x) + r) == Good(x, r)
    ensures ReadField(Quote(key) + ([':'] + (Print(x) + r))) == Good(Field(key, x), r)
  {
    QuoteBack(key, [':'] + (Print(x) + r));
    FieldParts(Quote(key) + ([':'] + (Print(x) + r)), key, Print(x) + r, x, r);
  }

  lemma FieldsRestIs(fs: seq<Field>, r: string)
    requires fs != []
    ensures FieldsRest(fs, r) == if |fs| == 1 then ['}'] + r else [','] + (PrintFields(fs[1..]) + (['}'] + r))
  {
    assert |fs| > 1 ==> FieldsRest(fs, r) == [','] + (PrintFields(fs[1..]) + (['}'] + r));
  }

  lemma FirstFieldBack(fs: seq<Field>, r: string)
    requires fs != [] && ReadValue(Print(fs[0].value) + FieldsRest(fs, r)) == Good(fs[0].value, FieldsRest(fs, r))
    ensures ReadField(PrintFields(fs) + (['}'] + r)) == Good(fs[0], FieldsRest(fs, r))
  {
    FieldsUnfold(fs, r);
    FieldBack(fs[0].key, fs[0].value, FieldsRest(fs, r));
  }

  lemma FieldsOneBack(fs: seq<Field>, s: string, r: string)
    requires |fs| == 1 && ReadField(s) == Good(fs[0], FieldsRest(fs, r))
    ensures ReadFields(s) == Good(fs, r)
  {
    FieldsRestIs(fs, r);
    FieldsLast(s, fs[0], r);
    assert [fs[0]] == fs;
  }

  lemma FieldsMoreBack(fs: seq<Field>, s: string, r: string)
    requires |fs| > 1 && ReadField(s) == Good(fs[0], FieldsRest(fs, r))
    requires ReadFields(PrintFields(fs[1..]) + (['}'] + r)) == Good(fs[1..], r)
    ensures ReadFields(s) == Good(fs, r)
  {
    FieldsRestIs(fs, r);
    FieldsNext(s, fs[0], PrintFields(fs[1..]) + (['}'] + r), fs[1..], r);
    assert [fs[0]] + fs[1..] == fs;
  }

  lemma {:induction false} FieldsBack(fs: seq<Field>, r: string)
    requires fs != [] && PrintableFields(fs) && FieldsKept(TheReader, fs)
    ensures ReadFields(PrintFields(fs) + (['}'] + r)) == Good(fs, r)
    decreases fs, 0
  {
    var s := PrintFields(fs) + (['}'] + r);
    ValueBack(fs[0].value, FieldsRest(fs, r));
    FirstFieldBack(fs, r);
    if |fs| == 1 {
      FieldsOneBack(fs, s, r);
    } else {
      FieldsBack(fs[1..], r);
      FieldsMoreBack(fs, s, r);
    }
  }

  /** The text of a value is read back as the value. */
  lemma TextReadBack(x: Json)
    requires Printable(x) && FloatsKept(TheReader, x)
    ensures ReadText(Print(x)) == Some(x)
  {
    ValueBack(x, []);
    assert Print(x) + [] == Print(x);
  }

  lemma CharsOfBytes(t: string)
    requires Ascii(t)
    ensures TheReader(Bytes(AsciiBytes(t))) == TheReader(Text(t))
  {
    assert Chars(AsciiBytes(t)) == t;
  }
}
