/** A reader of JSON: the grammar of RFC 8259, with the tokens NaN, Infinity and -Infinity of Python. Floats
    are kept as they are written, and an escape for half a character is refused. */
module JsonReader {
  import opened Prelude
  import opened Strings
  import opened Json

  /** What has been read, and what is left of the text. */
  datatype Parsed<T> = Bad | Good(value: T, rest: string)

  // ---------- white space ----------

  predicate Blank(c: char) {
    c == ' ' || c == '\t' || c == '\n' || c == '\r'
  }

  function Skip(s: string): (t: string)
    ensures |t| <= |s|
  {
    if s != [] && Blank(s[0]) then Skip(s[1..]) else s
  }

  // ---------- strings: section 7 ----------

  function HexOf(c: char): (d: Option<nat>)
    ensures d.Some? ==> d.value < 16
  {
    if '0' <= c <= '9' then Some(c as int - '0' as int)
    else if 'a' <= c <= 'f' then Some(c as int - 'a' as int + 10)
    else if 'A' <= c <= 'F' then Some(c as int - 'A' as int + 10)
    else None
  }

  /** The number that four hexadecimal digits stand for. */
  function HexFour(s: string): (n: Option<nat>)
    ensures n.Some? ==> n.value < 0x10000 && |s| >= 4
  {
    if |s| < 4 then None
    else
      match (HexOf(s[0]), HexOf(s[1]), HexOf(s[2]), HexOf(s[3]))
      case (Some(a), Some(b), Some(c), Some(d)) => Some(((a * 16 + b) * 16 + c) * 16 + d)
      case _ => None
  }

  /** What follows "\u": one 16-bit unit, or the two units of a surrogate pair. */
  function ReadUnits(s: string): (r: Parsed<char>)
    ensures r.Good? ==> |r.rest| < |s|
  {
    match HexFour(s)
    case None => Bad
    case Some(n) =>
      if n < 0xD800 || n > 0xDFFF then Good(n as char, s[4..])
      else if n > 0xDBFF || |s| < 6 || s[4] != '\\' || s[5] != 'u' then Bad
      else
        match HexFour(s[6..])
        case None => Bad
        case Some(m) =>
          if 0xDC00 <= m <= 0xDFFF then Good((0x10000 + (n - 0xD800) * 0x400 + (m - 0xDC00)) as char, s[10..]) else Bad
  }

  function ReadEscape(s: string): (r: Parsed<char>)
    ensures r.Good? ==> |r.rest| < |s|
  {
    if s == [] then Bad
    else if s[0] == '"' || s[0] == '\\' || s[0] == '/' then Good(s[0], s[1..])
    else if s[0] == 'b' then Good(8 as char, s[1..])
    else if s[0] == 'f' then Good(12 as char, s[1..])
    else if s[0] == 'n' then Good('\n', s[1..])
    else if s[0] == 'r' then Good('\r', s[1..])
    else if s[0] == 't' then Good('\t', s[1..])
    else if s[0] == 'u' then ReadUnits(s[1..])
    else Bad
  }

  function ReadChar(s: string): (r: Parsed<char>)
    requires s != []
    ensures r.Good? ==> |r.rest| < |s|
  {
    if s[0] == '\\' then ReadEscape(s[1..])
    else if s[0] < ' ' then Bad
    else Good(s[0], s[1..])
  }

  /** The rest of a string behind its opening quotation mark. */
  function ReadString(s: string): (r: Parsed<string>)
    ensures r.Good? ==> |r.rest| < |s|
    decreases |s|
  {
    if s == [] then Bad
    else if s[0] == '"' then Good([], s[1..])
    else
      match ReadChar(s)
      case Bad => Bad
      case Good(c, rest) =>
        match ReadString(rest)
        case Bad => Bad
        case Good(t, rest') => Good([c] + t, rest')
  }

  // ---------- numbers: section 6 ----------

  predicate TokenChar(c: char) {
    NumberChar(c) || c == 'E'
  }

  /** How many digits s starts with. */
  function DigitCount(s: string): (n: nat)
    ensures n <= |s|
  {
    if s == [] || !IsDigitChar(s[0]) then 0 else 1 + DigitCount(s[1..])
  }

  /** An exponent, or nothing. */
  predicate Exponent(s: string) {
    s == []
    || ((s[0] == 'e' || s[0] == 'E')
        && var t := if |s| > 1 && (s[1] == '+' || s[1] == '-') then s[2..] else s[1..];
           t != [] && DigitCount(t) == |t|)
  }

  /** A fraction or an exponent or both, or nothing. */
  predicate Fraction(s: string) {
    if s != [] && s[0] == '.' then
      var n := DigitCount(s[1..]);
      n > 0 && Exponent(s[1 + n..])
    else Exponent(s)
  }

  /** The digits in front of the point, without a leading zero. */
  function Whole(s: string): (n: nat)
    ensures n <= |s|
  {
    var n := DigitCount(s);
    if n > 1 && s[0] == '0' then 0 else n
  }

  function Unsigned(s: string): (t: string) {
    if s != [] && s[0] == '-' then s[1..] else s
  }

  predicate IntToken(s: string) {
    var t := Unsigned(s);
    t != [] && Whole(t) == |t|
  }

  predicate FloatToken(s: string) {
    || s == "NaN" || s == "Infinity" || s == "-Infinity"
    || (var t := Unsigned(s); 0 < Whole(t) < |t| && Fraction(t[Whole(t)..]))
  }

  /** The longest run of characters that can stand in a number. */
  function Token(s: string): (t: string)
    ensures t <= s
  {
    if s == [] || !TokenChar(s[0]) then [] else [s[0]] + Token(s[1..])
  }

  function ReadNumber(s: string): (r: Parsed<Json>)
    ensures r.Good? ==> |r.rest| < |s| && Printable(r.value)
  {
    var t := Token(s);
    if IntToken(t) && ParseInt(t).Some? then Good(Int(ParseInt(t).value), s[|t|..])
    else if FloatToken(t) && FloatRepr(t) then Good(Float(t), s[|t|..])
    else Bad
  }

  // ---------- values: sections 3 to 5 ----------

  /** One of the three literal names. */
  function ReadWord(s: string, word: string, x: Json): (r: Parsed<Json>)
    requires word != [] && Printable(x)
    ensures r.Good? ==> |r.rest| < |s| && Printable(r.value)
  {
    if word <= s then Good(x, s[|word|..]) else Bad
  }

  function ReadValue(s: string): (r: Parsed<Json>)
    ensures r.Good? ==> |r.rest| < |s| && Printable(r.value)
    decreases |s|, 1
  {
    var t := Skip(s);
    if t == [] then Bad
    else if t[0] == '"' then
      (match ReadString(t[1..])
       case Bad => Bad
       case Good(u, rest) => Good(Str(u), rest))
    else if t[0] == '[' then ReadList(t[1..])
    else if t[0] == '{' then ReadDict(t[1..])
    else if t[0] == 'n' then ReadWord(t, "null", Null)
    else if t[0] == 't' then ReadWord(t, "true", Bool(true))
    else if t[0] == 'f' then ReadWord(t, "false", Bool(false))
    else ReadNumber(t)
  }

  /** A list behind its opening bracket. */
  function ReadList(s: string): (r: Parsed<Json>)
    ensures r.Good? ==> |r.rest| < |s| && Printable(r.value)
    decreases |s|, 3
  {
    var t := Skip(s);
    if t != [] && t[0] == ']' then Good(Arr([]), t[1..])
    else
      match ReadElems(s)
      case Bad => Bad
      case Good(xs, rest) => Good(Arr(xs), rest)
  }

  /** A dictionary behind its opening brace. */
  function ReadDict(s: string): (r: Parsed<Json>)
    ensures r.Good? ==> |r.rest| < |s| && Printable(r.value)
    decreases |s|, 3
  {
    var t := Skip(s);
    if t != [] && t[0] == '}' then Good(Obj([]), t[1..])
    else
      match ReadFields(s)
      case Bad => Bad
      case Good(fs, rest) => Good(Obj(fs), rest)
  }

  /** The elements of a list, up to its closing bracket. */
  function ReadElems(s: string): (r: Parsed<seq<Json>>)
    ensures r.Good? ==> |r.rest| < |s| && PrintableElems(r.value)
    decreases |s|, 2
  {
    match ReadValue(s)
    case Bad => Bad
    case Good(x, rest) =>
      var t := Skip(rest);
      if t != [] && t[0] == ']' then Good([x], t[1..])
      else if t != [] && t[0] == ',' then
        match ReadElems(t[1..])
        case Bad => Bad
        case Good(xs, rest') =>
          assert ([x] + xs)[1..] == xs;
          Good([x] + xs, rest')
      else Bad
  }

  /** The items of a dictionary, up to its closing brace. */
  function ReadFields(s: string): (r: Parsed<seq<Field>>)
    ensures r.Good? ==> |r.rest| < |s| && PrintableFields(r.value)
    decreases |s|, 2
  {
    match ReadField(s)
    case Bad => Bad
    case Good(f, rest) =>
      var t := Skip(rest);
      if t != [] && t[0] == '}' then Good([f], t[1..])
      else if t != [] && t[0] == ',' then
        match ReadFields(t[1..])
        case Bad => Bad
        case Good(fs, rest') =>
          assert ([f] + fs)[1..] == fs;
          Good([f] + fs, rest')
      else Bad
  }

  function ReadField(s: string): (r: Parsed<Field>)
    ensures r.Good? ==> |r.rest| < |s| && Printable(r.value.value)
    decreases |s|, 0
  {
    var t := Skip(s);
    if t == [] || t[0] != '"' then Bad
    else
      match ReadString(t[1..])
      case Bad => Bad
      case Good(key, rest) =>
        var u := Skip(rest);
        if u == [] || u[0] != ':' then Bad
        else
          match ReadValue(u[1..])
          case Bad => Bad
          case Good(x, rest') => Good(Field(key, x), rest')
  }

  /** The value of a whole text. */
  function ReadText(s: string): (r: Option<Json>)
    ensures r.Some? ==> Printable(r.value)
  {
    match ReadValue(s)
    case Bad => None
    case Good(x, rest) => if Skip(rest) == [] then Some(x) else None
  }
}
