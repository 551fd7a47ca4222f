/** JSON values as Python's json module reads and writes them. */
module Json {
  import opened Prelude
  import opened Strings

  /** A dictionary is the list of its items in insertion order. A float is given by its repr. */
  datatype Json =
    | Null
    | Bool(b: bool)
    | Int(n: int)
    | Float(repr: string)
    | Str(s: string)
    | Arr(elems: seq<Json>)
    | Obj(fields: seq<Field>)

  datatype Field = Field(key: string, value: Json)

  /** The value under a key, if there is one. */
  function Get(fields: seq<Field>, key: string): (r: Option<Json>) {
    if fields == [] then None
    else if fields[0].key == key then Some(fields[0].value)
    else Get(fields[1..], key)
  }

  function ParseNat(s: string): (r: Option<int>) {
    if s == [] || !IsDigitChar(s[|s| - 1]) then None
    else
      var d := (s[|s| - 1] - '0') as int;
      if |s| == 1 then Some(d)
      else
        match ParseNat(s[..|s| - 1])
        case None => None
        case Some(n) => Some(10 * n + d)
  }

  function ParseInt(s: string): (r: Option<int>) {
    if s == [] || s[0] != '-' then ParseNat(s)
    else
      match ParseNat(s[1..])
      case None => None
      case Some(n) => Some(-n)
  }

  /** The integer that a JSON value is equal to in Python: 1 == True == 1.0. */
  function IntegerOf(v: Option<Json>): (r: Option<int>) {
    match v
    case Some(Int(n)) => Some(n)
    case Some(Bool(b)) => Some(if b then 1 else 0)
    case Some(Float(s)) => if |s| > 2 && s[|s| - 2..] == ".0" then ParseInt(s[..|s| - 2]) else None
    case _ => None
  }

  lemma {:induction false} NumeralParses(n: nat)
    ensures ParseNat(Numeral(n)) == Some(n)
  {
    if n >= 10 {
      var s := Numeral(n);
      NumeralParses(n / 10);
      assert s[..|s| - 1] == Numeral(n / 10);
    }
  }

  /** What is written for an integer is read as it. */
  lemma DecimalParses(n: int)
    ensures ParseInt(Decimal(n)) == Some(n)
  {
    if n < 0 {
      NumeralParses(-n);
      assert Decimal(n)[1..] == Numeral(-n);
    } else {
      NumeralParses(n);
    }
  }

  /** An integer equals the float that is written with ".0" behind it, and true and false are 1 and 0. */
  lemma IntegersEqual(n: int)
    ensures IntegerOf(Some(Int(n))) == Some(n) == IntegerOf(Some(Float(Decimal(n) + ".0")))
    ensures IntegerOf(Some(Bool(true))) == Some(1) && IntegerOf(Some(Bool(false))) == Some(0)
  {
    var s := Decimal(n) + ".0";
    assert s[..|s| - 2] == Decimal(n) && s[|s| - 2..] == ".0";
    DecimalParses(n);
  }

  // ---------- printing with separators (",", ":") and ensure_ascii ----------

  function HexDigit(d: nat): (c: char)
    requires d < 16
  {
    if d < 10 then '0' + d as char else 'a' + (d - 10) as char
  }

  function HexValue(c: char): (d: int) {
    if c <= '9' then (c as int) - ('0' as int) else (c as int) - ('a' as int) + 10
  }

  /** \uXXXX for one 16-bit unit. */
  function UnicodeEscape(n: nat): (s: string)
    requires n < 0x10000
    ensures |s| == 6
  {
    ['\\', 'u', HexDigit(n / 4096), HexDigit(n / 256 % 16), HexDigit(n / 16 % 16), HexDigit(n % 16)]
  }

  /** The letter of a two-character escape, if c has one. */
  function ShortEscape(c: char): (r: Option<char>) {
    if c == '"' then Some('"')
    else if c == '\\' then Some('\\')
    else if c == '\n' then Some('n')
    else if c == '\r' then Some('r')
    else if c == '\t' then Some('t')
    else if c as int == 8 then Some('b')
    else if c as int == 12 then Some('f')
    else None
  }

  function Escape(c: char): (s: string)
    ensures s != [] && s[0] != '"'
  {
    if ShortEscape(c).Some? then ['\\', ShortEscape(c).value]
    else if ' ' <= c <= '~' then [c]
    else if c as int < 0x10000 then UnicodeEscape(c as int)
    else
      var n := c as int - 0x10000;
      UnicodeEscape(0xD800 + n / 0x400) + UnicodeEscape(0xDC00 + n % 0x400)
  }

  function EscapeAll(s: string): (r: string) {
    if s == [] then [] else Escape(s[0]) + EscapeAll(s[1..])
  }

  function Quote(s: string): (r: string) {
    ['"'] + EscapeAll(s) + ['"']
  }

  function Print(x: Json): (r: string)
    decreases x
  {
    match x
    case Null => "null"
    case Bool(b) => if b then "true" else "false"
    case Int(n) => Decimal(n)
    case Float(repr) => repr
    case Str(s) => Quote(s)
    case Arr(elems) => ['['] + PrintElems(elems) + [']']
    case Obj(fields) => ['{'] + PrintFields(fields) + ['}']
  }

  function PrintElems(xs: seq<Json>): (r: string)
    decreases xs
  {
    if xs == [] then []
    else Print(xs[0]) + (if |xs| == 1 then [] else [','] + PrintElems(xs[1..]))
  }

  function PrintFields(fs: seq<Field>): (r: string)
    decreases fs
  {
    if fs == [] then []
    else
      Quote(fs[0].key) + [':'] + Print(fs[0].value)
      + (if |fs| == 1 then [] else [','] + PrintFields(fs[1..]))
  }

  // ---------- which values are printable ----------

  predicate NumberChar(c: char) {
    IsDigitChar(c) || c == '-' || c == '+' || c == '.' || c == 'e'
    || c == 'N' || c == 'a' || c == 'I' || c == 'n' || c == 'f' || c == 'i' || c == 't' || c == 'y'
  }

  predicate NumberToken(s: string) {
    forall i :: 0 <= i < |s| ==> NumberChar(s[i])
  }

  /** What json.dumps writes for a float is such a token (0.25, 1e-05, NaN, -Infinity), though not every
      such token is written for a float; none is an integer numeral. */
  predicate FloatRepr(s: string) {
    && s != [] && NumberToken(s)
    && (IsDigitChar(s[0]) || s[0] == '-' || s[0] == 'N' || s[0] == 'I')
    && (exists i :: 0 <= i < |s| && (s[i] == '.' || s[i] == 'e' || s[i] == 'n' || s[i] == 'N'))
  }

  predicate Printable(x: Json)
    decreases x
  {
    match x
    case Float(repr) => FloatRepr(repr)
    case Arr(elems) => PrintableElems(elems)
    case Obj(fields) => PrintableFields(fields)
    case _ => true
  }

  predicate PrintableElems(xs: seq<Json>)
    decreases xs
  {
    xs == [] || (Printable(xs[0]) && PrintableElems(xs[1..]))
  }

  predicate PrintableFields(fs: seq<Field>)
    decreases fs
  {
    fs == [] || (Printable(fs[0].value) && PrintableFields(fs[1..]))
  }

  // ---------- building dictionaries ----------

  lemma {:induction false} AllPrintable(fs: seq<Field>)
    requires forall i :: 0 <= i < |fs| ==> Printable(fs[i].value)
    ensures PrintableFields(fs)
  {
    if fs != [] {
      AllPrintable(fs[1..]);
    }
  }

  lemma {:induction false} PrintableAppend(fs: seq<Field>, f: Field)
    requires PrintableFields(fs) && Printable(f.value)
    ensures PrintableFields(fs + [f])
  {
    if fs == [] {
    } else {
      PrintableAppend(fs[1..], f);
      assert (fs + [f])[1..] == fs[1..] + [f];
    }
  }

  lemma {:induction false} GetAppend(fs: seq<Field>, f: Field, key: string)
    ensures Get(fs + [f], key)
         == if Get(fs, key).Some? then Get(fs, key) else if f.key == key then Some(f.value) else None
  {
    if fs == [] {
    } else {
      GetAppend(fs[1..], f, key);
      assert (fs + [f])[1..] == fs[1..] + [f];
    }
  }

  lemma {:induction false} GetAbsent(fs: seq<Field>, key: string)
    requires forall i :: 0 <= i < |fs| ==> fs[i].key != key
    ensures Get(fs, key) == None
  {
    if fs != [] {
      GetAbsent(fs[1..], key);
    }
  }

  // ---------- the printed form determines the value ----------

  /** Concatenations that start with pieces of equal length agree piecewise. */
  lemma SplitEqual(a: string, b: string, r: string, s: string)
    requires a + r == b + s && |a| == |b|
    ensures a == b && r == s
  {
    assert a == (a + r)[..|a|] && b == (b + s)[..|b|];
    assert r == (a + r)[|a|..] && s == (b + s)[|b|..];
  }

  lemma SameDigit(a: string, b: string, i: nat, d: nat, e: nat)
    requires a == b && i < |a| && d < 16 && e < 16
    requires a[i] == HexDigit(d) && b[i] == HexDigit(e)
    ensures d == e
  {
    assert HexValue(HexDigit(d)) == d && HexValue(HexDigit(e)) == e;
  }

  lemma HexParts(n: nat)
    requires n < 0x10000
    ensures n == 4096 * (n / 4096) + 256 * (n / 256 % 16) + 16 * (n / 16 % 16) + n % 16
  {
    NextHexPart(n, 16);
    NextHexPart(n, 256);
  }

  lemma NextHexPart(n: nat, m: nat)
    requires m == 16 || m == 256
    ensures n / m == 16 * (n / (16 * m)) + n / m % 16
  {
    var q := n / (16 * m);
    assert n == 16 * m * q + n % (16 * m);
  }

  /** Equal hexadecimal digits make equal numbers. */
  lemma SameHexParts(m: nat, n: nat)
    requires m < 0x10000 && n < 0x10000
    requires m / 4096 == n / 4096 && m / 256 % 16 == n / 256 % 16
    requires m / 16 % 16 == n / 16 % 16 && m % 16 == n % 16
    ensures m == n
  {
    HexParts(m);
    HexParts(n);
  }

  lemma UnicodeEscapeInjective(m: nat, n: nat)
    requires m < 0x10000 && n < 0x10000 && UnicodeEscape(m) == UnicodeEscape(n)
    ensures m == n
  {
    var a, b := UnicodeEscape(m), UnicodeEscape(n);
    assert m / 4096 == n / 4096 by { SameDigit(a, b, 2, m / 4096, n / 4096); }
    assert m / 256 % 16 == n / 256 % 16 by { SameDigit(a, b, 3, m / 256 % 16, n / 256 % 16); }
    assert m / 16 % 16 == n / 16 % 16 by { SameDigit(a, b, 4, m / 16 % 16, n / 16 % 16); }
    assert m % 16 == n % 16 by { SameDigit(a, b, 5, m % 16, n % 16); }
    SameHexParts(m, n);
  }

  /** The escapes that are written as one or two 16-bit units. */
  predicate Wide(c: char) {
    ShortEscape(c).None? && !(' ' <= c <= '~')
  }

  lemma EscapeHead(c: char)
    ensures Wide(c) <==> |Escape(c)| >= 6 && Escape(c)[0] == '\\' && Escape(c)[1] == 'u'
    ensures !Wide(c) ==> |Escape(c)| == if ShortEscape(c).Some? then 2 else 1
    ensures Escape(c)[0] == '\\' <==> Wide(c) || ShortEscape(c).Some?
    ensures ShortEscape(c).Some? ==> Escape(c)[1] == ShortEscape(c).value != 'u'
  {
  }

  /** Neither escape is a proper prefix of another. */
  lemma EscapePrefix(c: char, d: char, r: string, s: string)
    requires Escape(c) + r == Escape(d) + s
    ensures c == d && r == s
  {
    EscapeHead(c);
    EscapeHead(d);
    var x, y := Escape(c) + r, Escape(d) + s;
    assert x[0] == Escape(c)[0] && y[0] == Escape(d)[0];
    assert |Escape(c)| > 1 ==> x[1] == Escape(c)[1];
    assert |Escape(d)| > 1 ==> y[1] == Escape(d)[1];
    if Wide(c) {
      assert Wide(d);
      WidePrefix(c, d, r, s);
    } else {
      assert !Wide(d);
      assert |Escape(c)| == |Escape(d)|;
      SplitEqual(Escape(c), Escape(d), r, s);
    }
  }

  /** The first 16-bit unit of a wide character. */
  function Unit(c: char): (n: nat)
    ensures n < 0x10000
    ensures c as int >= 0x10000 <==> 0xD800 <= n < 0xDC00
  {
    if c as int < 0x10000 then c as int else 0xD800 + (c as int - 0x10000) / 0x400
  }

  /** The second unit of a surrogate pair, if there is one. */
  function Tail(c: char): (t: string)
    ensures Wide(c) ==> Escape(c) == UnicodeEscape(Unit(c)) + t
    ensures |t| == if c as int < 0x10000 then 0 else 6
  {
    if c as int < 0x10000 then [] else UnicodeEscape(0xDC00 + (c as int - 0x10000) % 0x400)
  }

  lemma UnitsDetermine(c: char, d: char)
    requires Unit(c) == Unit(d) && Tail(c) == Tail(d)
    ensures c == d
  {
    if c as int >= 0x10000 {
      var m, n := c as int - 0x10000, d as int - 0x10000;
      UnicodeEscapeInjective(0xDC00 + m % 0x400, 0xDC00 + n % 0x400);
      assert m == 0x400 * (m / 0x400) + m % 0x400 && n == 0x400 * (n / 0x400) + n % 0x400;
    }
  }

  lemma SplitThree(u: string, t: string, r: string, v: string, w: string, s: string)
    requires (u + t) + r == (v + w) + s && |u| == |v|
    ensures u == v && t + r == w + s
  {
    assert (u + t) + r == u + (t + r) && (v + w) + s == v + (w + s);
    SplitEqual(u, v, t + r, w + s);
  }

  lemma WidePrefix(c: char, d: char, r: string, s: string)
    requires Wide(c) && Wide(d) && Escape(c) + r == Escape(d) + s
    ensures c == d && r == s
  {
    SplitThree(UnicodeEscape(Unit(c)), Tail(c), r, UnicodeEscape(Unit(d)), Tail(d), s);
    SameUnits(c, d);
    SplitEqual(Tail(c), Tail(d), r, s);
    UnitsDetermine(c, d);
  }

  lemma SameUnits(c: char, d: char)
    requires UnicodeEscape(Unit(c)) == UnicodeEscape(Unit(d))
    ensures Unit(c) == Unit(d) && |Tail(c)| == |Tail(d)|
  {
    UnicodeEscapeInjective(Unit(c), Unit(d));
  }

  lemma EscapeAllUnfold(a: string, r: string)
    requires a != []
    ensures EscapeAll(a) + (['"'] + r) == Escape(a[0]) + (EscapeAll(a[1..]) + (['"'] + r))
    ensures (EscapeAll(a) + (['"'] + r))[0] != '"'
  {
    assert EscapeAll(a) + (['"'] + r) == Escape(a[0]) + (EscapeAll(a[1..]) + (['"'] + r));
  }

  lemma {:induction false} EscapeAllPrefix(a: string, b: string, r: string, s: string)
    requires EscapeAll(a) + (['"'] + r) == EscapeAll(b) + (['"'] + s)
    ensures a == b && r == s
  {
    if a != [] {
      EscapeAllUnfold(a, r);
    }
    if b != [] {
      EscapeAllUnfold(b, s);
    }
    assert a == [] ==> EscapeAll(a) + (['"'] + r) == ['"'] + r;
    assert b == [] ==> EscapeAll(b) + (['"'] + s) == ['"'] + s;
    if a == [] || b == [] {
      SplitEqual(['"'], ['"'], r, s);
    } else {
      EscapePrefix(a[0], b[0], EscapeAll(a[1..]) + (['"'] + r), EscapeAll(b[1..]) + (['"'] + s));
      EscapeAllPrefix(a[1..], b[1..], r, s);
      assert a == [a[0]] + a[1..] && b == [b[0]] + b[1..];
    }
  }

  lemma QuotePrefix(a: string, b: string, r: string, s: string)
    requires Quote(a) + r == Quote(b) + s
    ensures a == b && r == s
  {
    OpenBracket('"', '"', EscapeAll(a), EscapeAll(b), r, s);
    EscapeAllPrefix(a, b, r, s);
  }

  /** What can follow a value inside a larger text. */
  predicate Follows(r: string) {
    r == [] || r[0] == ',' || r[0] == ']' || r[0] == '}'
  }

  lemma {:induction false} NumberPrefix(a: string, b: string, r: string, s: string)
    requires NumberToken(a) && NumberToken(b) && Follows(r) && Follows(s)
    requires a + r == b + s
    ensures a == b && r == s
  {
    var c := a + r;
    assert forall i :: 0 <= i < |a| ==> NumberChar(c[i]);
    assert forall i :: 0 <= i < |b| ==> c[i] == (b + s)[i] == b[i];
    assert r != [] ==> c[|a|] == r[0];
    assert s != [] ==> c[|b|] == s[0];
    assert |a| == |b|;
    SplitEqual(a, b, r, s);
  }

  lemma DecimalIsNumber(n: int)
    ensures NumberToken(Decimal(n)) && !FloatRepr(Decimal(n))
    ensures IsDigitChar(Decimal(n)[0]) || Decimal(n)[0] == '-'
  {
    var s := Decimal(n);
    forall i | 0 <= i < |s| ensures IsDigitChar(s[i]) || s[i] == '-' {
      if n < 0 && i > 0 {
        assert s[i] == s[1..][i - 1];
      }
    }
  }

  predicate IsNumber(x: Json) {
    x.Int? || x.Float?
  }

  /** The first character of a printed value tells its kind. */
  function Lead(x: Json): (c: char) {
    match x
    case Null => 'n'
    case Bool(b) => if b then 't' else 'f'
    case Int(_) => '0'
    case Float(_) => '0'
    case Str(_) => '"'
    case Arr(_) => '['
    case Obj(_) => '{'
  }

  lemma PrintLead(x: Json)
    requires Printable(x)
    ensures Print(x) != []
    ensures var c := Print(x)[0];
      if IsNumber(x) then IsDigitChar(c) || c == '-' || c == 'N' || c == 'I' else c == Lead(x)
  {
    if x.Int? {
      DecimalIsNumber(x.n);
    }
  }

  lemma NumberValuePrefix(x: Json, y: Json, r: string, s: string)
    requires Printable(x) && Printable(y) && IsNumber(x) && IsNumber(y)
    requires Follows(r) && Follows(s) && Print(x) + r == Print(y) + s
    ensures x == y && r == s
  {
    if x.Int? {
      DecimalIsNumber(x.n);
    }
    if y.Int? {
      DecimalIsNumber(y.n);
    }
    NumberPrefix(Print(x), Print(y), r, s);
    if x.Int? && y.Int? {
      DecimalInjective(x.n, y.n);
    }
  }

  /** A printed value followed by a separator or bracket can be read back in one way only. */
  lemma {:induction false} PrintPrefix(x: Json, y: Json, r: string, s: string)
    requires Printable(x) && Printable(y) && Follows(r) && Follows(s)
    requires Print(x) + r == Print(y) + s
    ensures x == y && r == s
    decreases x, 1
  {
    PrintLead(x);
    PrintLead(y);
    assert (Print(x) + r)[0] == Print(x)[0] && (Print(y) + s)[0] == Print(y)[0];
    if IsNumber(x) {
      assert IsNumber(y);
      NumberValuePrefix(x, y, r, s);
    } else {
      assert !IsNumber(y) && Lead(x) == Lead(y);
      match x
      case Arr(xs) =>
        OpenBracket('[', ']', PrintElems(xs), PrintElems(y.elems), r, s);
        ElemsPrefix(xs, y.elems, r, s);
      case Obj(fs) =>
        OpenBracket('{', '}', PrintFields(fs), PrintFields(y.fields), r, s);
        FieldsPrefix(fs, y.fields, r, s);
      case _ =>
        ScalarPrefix(x, y, r, s);
    }
  }

  lemma OpenBracket(open: char, close: char, a: string, b: string, r: string, s: string)
    requires [open] + a + [close] + r == [open] + b + [close] + s
    ensures a + ([close] + r) == b + ([close] + s)
  {
    assert [open] + a + [close] + r == [open] + (a + ([close] + r));
    assert [open] + b + [close] + s == [open] + (b + ([close] + s));
    SplitEqual([open], [open], a + ([close] + r), b + ([close] + s));
  }

  lemma ScalarPrefix(x: Json, y: Json, r: string, s: string)
    requires x.Null? || x.Bool? || x.Str?
    requires !IsNumber(y) && Lead(x) == Lead(y) && Print(x) + r == Print(y) + s
    ensures x == y && r == s
  {
    if x.Str? {
      QuotePrefix(x.s, y.s, r, s);
    } else {
      assert x == y;
      SplitEqual(Print(x), Print(y), r, s);
    }
  }

  /** The text after the first element of a list. */
  function ElemsRest(xs: seq<Json>, r: string): (t: string)
    requires xs != []
    ensures Follows(t)
  {
    (if |xs| == 1 then [] else [','] + PrintElems(xs[1..])) + ([']'] + r)
  }

  lemma ElemsUnfold(xs: seq<Json>, r: string)
    requires xs != []
    ensures PrintElems(xs) + ([']'] + r) == Print(xs[0]) + ElemsRest(xs, r)
    ensures Printable(xs[0]) ==> (PrintElems(xs) + ([']'] + r))[0] != ']'
  {
    assert PrintElems(xs) + ([']'] + r) == Print(xs[0]) + ElemsRest(xs, r);
    if Printable(xs[0]) {
      PrintLead(xs[0]);
    }
  }

  lemma ElemsRestSplit(xs: seq<Json>, ys: seq<Json>, r: string, s: string)
    requires xs != [] && ys != [] && ElemsRest(xs, r) == ElemsRest(ys, s)
    ensures |xs| == 1 <==> |ys| == 1
    ensures |xs| == 1 ==> r == s
    ensures |xs| > 1 ==> PrintElems(xs[1..]) + ([']'] + r) == PrintElems(ys[1..]) + ([']'] + s)
  {
    assert ElemsRest(xs, r)[0] == if |xs| == 1 then ']' else ',';
    assert ElemsRest(ys, s)[0] == if |ys| == 1 then ']' else ',';
    if |xs| == 1 {
      assert ElemsRest(xs, r) == [']'] + r && ElemsRest(ys, s) == [']'] + s;
      SplitEqual([']'], [']'], r, s);
    } else {
      var a, b := PrintElems(xs[1..]) + ([']'] + r), PrintElems(ys[1..]) + ([']'] + s);
      assert ElemsRest(xs, r) == [','] + a && ElemsRest(ys, s) == [','] + b;
      SplitEqual([','], [','], a, b);
    }
  }

  lemma {:induction false} ElemsPrefix(xs: seq<Json>, ys: seq<Json>, r: string, s: string)
    requires PrintableElems(xs) && PrintableElems(ys)
    requires PrintElems(xs) + ([']'] + r) == PrintElems(ys) + ([']'] + s)
    ensures xs == ys && r == s
    decreases xs, 0
  {
    if xs != [] {
      ElemsUnfold(xs, r);
    }
    if ys != [] {
      ElemsUnfold(ys, s);
    }
    assert xs == [] ==> PrintElems(xs) + ([']'] + r) == [']'] + r;
    assert ys == [] ==> PrintElems(ys) + ([']'] + s) == [']'] + s;
    if xs == [] || ys == [] {
      SplitEqual([']'], [']'], r, s);
    } else {
      PrintPrefix(xs[0], ys[0], ElemsRest(xs, r), ElemsRest(ys, s));
      ElemsRestSplit(xs, ys, r, s);
      if |xs| > 1 {
        ElemsPrefix(xs[1..], ys[1..], r, s);
      }
      assert xs == [xs[0]] + xs[1..] && ys == [ys[0]] + ys[1..];
    }
  }

  function FieldsRest(fs: seq<Field>, r: string): (t: string)
    requires fs != []
    ensures Follows(t)
  {
    (if |fs| == 1 then [] else [','] + PrintFields(fs[1..])) + (['}'] + r)
  }

  lemma FieldsUnfold(fs: seq<Field>, r: string)
    requires fs != []
    ensures PrintFields(fs) + (['}'] + r)
         == Quote(fs[0].key) + ([':'] + (Print(fs[0].value) + FieldsRest(fs, r)))
    ensures (PrintFields(fs) + (['}'] + r))[0] == '"'
  {
    var more := if |fs| == 1 then [] else [','] + PrintFields(fs[1..]);
    Regroup(Quote(fs[0].key), Print(fs[0].value), more, ['}'] + r);
  }

  lemma Regroup(q: string, v: string, more: string, end: string)
    requires q != []
    ensures (q + [':'] + v + more) + end == q + ([':'] + (v + (more + end)))
    ensures ((q + [':'] + v + more) + end)[0] == q[0]
  {
  }

  lemma FieldsRestSplit(fs: seq<Field>, gs: seq<Field>, r: string, s: string)
    requires fs != [] && gs != [] && FieldsRest(fs, r) == FieldsRest(gs, s)
    ensures |fs| == 1 <==> |gs| == 1
    ensures |fs| == 1 ==> r == s
    ensures |fs| > 1 ==> PrintFields(fs[1..]) + (['}'] + r) == PrintFields(gs[1..]) + (['}'] + s)
  {
    assert FieldsRest(fs, r)[0] == if |fs| == 1 then '}' else ',';
    assert FieldsRest(gs, s)[0] == if |gs| == 1 then '}' else ',';
    if |fs| == 1 {
      assert FieldsRest(fs, r) == ['}'] + r && FieldsRest(gs, s) == ['}'] + s;
      SplitEqual(['}'], ['}'], r, s);
    } else {
      var a, b := PrintFields(fs[1..]) + (['}'] + r), PrintFields(gs[1..]) + (['}'] + s);
      assert FieldsRest(fs, r) == [','] + a && FieldsRest(gs, s) == [','] + b;
      SplitEqual([','], [','], a, b);
    }
  }

  lemma {:induction false} FieldsPrefix(fs: seq<Field>, gs: seq<Field>, r: string, s: string)
    requires PrintableFields(fs) && PrintableFields(gs)
    requires PrintFields(fs) + (['}'] + r) == PrintFields(gs) + (['}'] + s)
    ensures fs == gs && r == s
    decreases fs, 0
  {
    if fs != [] {
      FieldsUnfold(fs, r);
    }
    if gs != [] {
      FieldsUnfold(gs, s);
    }
    assert fs == [] ==> PrintFields(fs) + (['}'] + r) == ['}'] + r;
    assert gs == [] ==> PrintFields(gs) + (['}'] + s) == ['}'] + s;
    if fs == [] || gs == [] {
      SplitEqual(['}'], ['}'], r, s);
    } else {
      var v, w := Print(fs[0].value) + FieldsRest(fs, r), Print(gs[0].value) + FieldsRest(gs, s);
      QuotePrefix(fs[0].key, gs[0].key, [':'] + v, [':'] + w);
      SplitEqual([':'], [':'], v, w);
      PrintPrefix(fs[0].value, gs[0].value, FieldsRest(fs, r), FieldsRest(gs, s));
      FieldsRestSplit(fs, gs, r, s);
      if |fs| > 1 {
        FieldsPrefix(fs[1..], gs[1..], r, s);
      }
      assert fs == [fs[0]] + fs[1..] && gs == [gs[0]] + gs[1..];
    }
  }

  lemma PrintInjective(x: Json, y: Json)
    requires Printable(x) && Printable(y) && Print(x) == Print(y)
    ensures x == y
  {
    assert Print(x) + [] == Print(x) && Print(y) + [] == Print(y);
    PrintPrefix(x, y, [], []);
  }
}
