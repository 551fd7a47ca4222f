/** base64url without padding: RFC 4648, section 5, with the padding of section 3.2 stripped and
    put back. */
module Base64 {
  import opened Prelude

  type Byte = b: int | 0 <= b < 256

  type Sextet = v: int | 0 <= v < 64

  function CharOf(v: Sextet): (c: char) {
    if v < 26 then 'A' + v as char
    else if v < 52 then 'a' + (v - 26) as char
    else if v < 62 then '0' + (v - 52) as char
    else if v == 62 then '-'
    else '_'
  }

  function ValueOf(c: char): (r: Option<Sextet>) {
    if 'A' <= c <= 'Z' then Some(c as int - 'A' as int)
    else if 'a' <= c <= 'z' then Some(c as int - 'a' as int + 26)
    else if '0' <= c <= '9' then Some(c as int - '0' as int + 52)
    else if c == '-' then Some(62)
    else if c == '_' then Some(63)
    else None
  }

  lemma CharRoundTrip(v: Sextet)
    ensures ValueOf(CharOf(v)) == Some(v)
    ensures CharOf(v) != '=' && CharOf(v) != '.' && CharOf(v) < 128 as char
  {
  }

  // ---------- encoding ----------

  function First(a: Byte): (v: Sextet) { a / 4 }

  function Second(a: Byte, b: Byte): (v: Sextet) { a % 4 * 16 + b / 16 }

  function Third(b: Byte, c: Byte): (v: Sextet) { b % 16 * 4 + c / 64 }

  function Fourth(c: Byte): (v: Sextet) { c % 64 }

  function Quad(a: Byte, b: Byte, c: Byte): (q: string)
    ensures |q| == 4
  {
    [CharOf(First(a)), CharOf(Second(a, b)), CharOf(Third(b, c)), CharOf(Fourth(c))]
  }

  /** base64url with padding. */
  function Encode(data: seq<Byte>): (s: string) {
    if data == [] then []
    else if |data| == 1 then Quad(data[0], 0, 0)[..2] + Padding(2)
    else if |data| == 2 then Quad(data[0], data[1], 0)[..3] + Padding(1)
    else Quad(data[0], data[1], data[2]) + Encode(data[3..])
  }

  /** The text without the padding at its end. */
  function StripPadding(s: string): (r: string) {
    if s != [] && s[|s| - 1] == '=' then StripPadding(s[..|s| - 1]) else s
  }

  function EncodeUnpadded(data: seq<Byte>): (s: string) {
    StripPadding(Encode(data))
  }

  // ---------- what the encoding is: RFC 4648, sections 4 and 5 ----------

  /** Table 2, the URL and filename safe alphabet: capital letters, small letters, digits, minus, underline. */
  lemma AlphabetExact(v: Sextet)
    ensures CharOf(0) == 'A' && CharOf(25) == 'Z' && CharOf(26) == 'a' && CharOf(51) == 'z'
    ensures CharOf(52) == '0' && CharOf(61) == '9' && CharOf(62) == '-' && CharOf(63) == '_'
    ensures v != 25 && v != 51 && v < 61 ==> CharOf(v + 1) as int == CharOf(v) as int + 1
  {
  }

  /** Four sextets are the 24 bits of three bytes, the most significant first. */
  lemma QuadValue(a: Byte, b: Byte, c: Byte)
    ensures 262144 * First(a) + 4096 * Second(a, b) + 64 * Third(b, c) + Fourth(c) == 65536 * a + 256 * b + c
    ensures Encode([a, b, c]) == [CharOf(First(a)), CharOf(Second(a, b)), CharOf(Third(b, c)), CharOf(Fourth(c))]
  {
    assert [a, b, c][3..] == [];
  }

  /** The last one or two bytes are padded with zero bits, and the text with signs. */
  lemma ShortValue(a: Byte, b: Byte)
    ensures Encode([]) == ""
    ensures Encode([a]) == Encode([a, 0, 0])[..2] + "=="
    ensures Encode([a, b]) == Encode([a, b, 0])[..3] + "="
  {
    assert [a, 0, 0][3..] == [] && [a, b, 0][3..] == [];
    assert Padding(2) == "==" && Padding(1) == "=";
  }

  lemma Regroup(q: string, r: string, s: string)
    ensures q + (r + s) == (q + r) + s
  {
  }

  lemma FirstGroup(a: seq<Byte>, b: seq<Byte>)
    requires |a| >= 3
    ensures (a + b)[3..] == a[3..] + b && |a + b| >= 3
    ensures (a + b)[0] == a[0] && (a + b)[1] == a[1] && (a + b)[2] == a[2]
  {
  }

  /** Groups of three bytes are encoded one after the other. */
  lemma {:induction false} EncodeGroups(a: seq<Byte>, b: seq<Byte>)
    requires |a| % 3 == 0
    ensures Encode(a + b) == Encode(a) + Encode(b)
    decreases |a|
  {
    if a == [] {
      assert a + b == b;
    } else {
      EncodeGroups(a[3..], b);
      FirstGroup(a, b);
      EncodeStep(a + b, Encode(a[3..] + b));
      EncodeStep(a, Encode(a[3..]));
      Regroup(Quad(a[0], a[1], a[2]), Encode(a[3..]), Encode(b));
    }
  }

  // ---------- decoding ----------

  /** Three bytes from four sextets. */
  function Join(v: Sextet, w: Sextet, x: Sextet, y: Sextet): (r: seq<Byte>)
    ensures |r| == 3
  {
    [v * 4 + w / 16, w % 16 * 16 + x / 4, x % 4 * 64 + y]
  }

  /** Four characters; only the last quad may be padded. */
  function DecodeQuad(q: string, last: bool): (r: Option<seq<Byte>>)
    requires |q| == 4
  {
    match (ValueOf(q[0]), ValueOf(q[1]), ValueOf(q[2]), ValueOf(q[3]))
    case (Some(v), Some(w), Some(x), Some(y)) => Some(Join(v, w, x, y))
    case (Some(v), Some(w), Some(x), None) => if last && q[3] == '=' then Some(Join(v, w, x, 0)[..2]) else None
    case (Some(v), Some(w), None, None) =>
      if last && q[2] == '=' && q[3] == '=' then Some(Join(v, w, 0, 0)[..1]) else None
    case _ => None
  }

  /** Its inverse; None stands for binascii.Error. */
  function Decode(s: string): (r: Option<seq<Byte>>) {
    if s == [] then Some([])
    else if |s| < 4 then None
    else
      match (DecodeQuad(s[..4], |s| == 4), Decode(s[4..]))
      case (Some(d), Some(e)) => Some(d + e)
      case _ => None
  }

  function Padding(n: nat): (s: string)
    ensures |s| == n && forall i :: 0 <= i < n ==> s[i] == '='
  {
    seq(n, _ => '=')
  }

  /** Pads to a multiple of four with -len(s) % 4 signs, then decodes. */
  function DecodeUnpadded(s: string): (r: Option<seq<Byte>>) {
    Decode(s + Padding((-|s|) % 4))
  }

  // ---------- the round trip ----------

  lemma Digits(base: int, h: int, l: int)
    requires (base == 4 || base == 16 || base == 64) && 0 <= l < base && 0 <= h
    ensures (h * base + l) / base == h && (h * base + l) % base == l
  {
  }

  lemma JoinRoundTrip(a: Byte, b: Byte, c: Byte)
    ensures Join(First(a), Second(a, b), Third(b, c), Fourth(c)) == [a, b, c]
  {
    JoinFirst(a, b);
    JoinSecond(a, b, c);
    JoinThird(b, c);
  }

  lemma JoinFirst(a: Byte, b: Byte)
    ensures First(a) * 4 + Second(a, b) / 16 == a
  {
    Digits(16, a % 4, b / 16);
  }

  lemma JoinSecond(a: Byte, b: Byte, c: Byte)
    ensures Second(a, b) % 16 * 16 + Third(b, c) / 4 == b
  {
    Digits(16, a % 4, b / 16);
    Digits(4, b % 16, c / 64);
  }

  lemma JoinThird(b: Byte, c: Byte)
    ensures Third(b, c) % 4 * 64 + Fourth(c) == c
  {
    Digits(4, b % 16, c / 64);
  }

  lemma QuadRoundTrip(a: Byte, b: Byte, c: Byte, last: bool)
    ensures DecodeQuad(Quad(a, b, c), last) == Some([a, b, c])
  {
    CharRoundTrip(First(a));
    CharRoundTrip(Second(a, b));
    CharRoundTrip(Third(b, c));
    CharRoundTrip(Fourth(c));
    JoinRoundTrip(a, b, c);
  }

  lemma TwoRoundTrip(a: Byte, b: Byte)
    ensures DecodeQuad(Quad(a, b, 0)[..3] + Padding(1), true) == Some([a, b])
  {
    CharRoundTrip(First(a));
    CharRoundTrip(Second(a, b));
    CharRoundTrip(Third(b, 0));
    JoinRoundTrip(a, b, 0);
    assert [a, b, 0][..2] == [a, b];
  }

  lemma OneRoundTrip(a: Byte)
    ensures DecodeQuad(Quad(a, 0, 0)[..2] + Padding(2), true) == Some([a])
  {
    CharRoundTrip(First(a));
    CharRoundTrip(Second(a, 0));
    JoinRoundTrip(a, 0, 0);
    assert [a, 0, 0][..1] == [a];
  }

  /** One quad followed by more text decodes piecewise. */
  lemma DecodeStep(q: string, rest: string, d: seq<Byte>, e: seq<Byte>)
    requires |q| == 4 && DecodeQuad(q, rest == []) == Some(d) && Decode(rest) == Some(e)
    ensures Decode(q + rest) == Some(d + e)
  {
    assert (q + rest)[..4] == q && (q + rest)[4..] == rest;
  }

  lemma EncodeStep(data: seq<Byte>, rest: string)
    requires |data| >= 3 && rest == Encode(data[3..])
    ensures Encode(data) == Quad(data[0], data[1], data[2]) + rest
  {
  }

  lemma {:induction false} PaddedRoundTrip(data: seq<Byte>)
    ensures Decode(Encode(data)) == Some(data)
    decreases |data|
  {
    if |data| >= 3 {
      PaddedRoundTrip(data[3..]);
      LongRoundTrip(data);
    } else if data != [] {
      ShortRoundTrip(data);
    }
  }

  lemma FirstThree(data: seq<Byte>)
    requires |data| >= 3
    ensures [data[0], data[1], data[2]] + data[3..] == data
  {
  }

  lemma LongRoundTrip(data: seq<Byte>)
    requires |data| >= 3 && Decode(Encode(data[3..])) == Some(data[3..])
    ensures Decode(Encode(data)) == Some(data)
  {
    var a, b, c, e := data[0], data[1], data[2], data[3..];
    var s := Quad(a, b, c) + Encode(e);
    assert Decode(s) == Some(data) by {
      QuadStep(a, b, c, Encode(e), e);
      FirstThree(data);
    }
    assert Encode(data) == s by { EncodeStep(data, Encode(e)); }
  }

  lemma QuadStep(a: Byte, b: Byte, c: Byte, rest: string, e: seq<Byte>)
    requires Decode(rest) == Some(e)
    ensures Decode(Quad(a, b, c) + rest) == Some([a, b, c] + e)
  {
    QuadRoundTrip(a, b, c, rest == []);
    DecodeStep(Quad(a, b, c), rest, [a, b, c], e);
  }

  lemma ShortRoundTrip(data: seq<Byte>)
    requires |data| == 1 || |data| == 2
    ensures Decode(Encode(data)) == Some(data)
  {
    if |data| == 2 {
      TwoRoundTrip(data[0], data[1]);
      LastQuad(Quad(data[0], data[1], 0)[..3] + Padding(1), [data[0], data[1]]);
      assert [data[0], data[1]] == data;
    } else {
      OneRoundTrip(data[0]);
      LastQuad(Quad(data[0], 0, 0)[..2] + Padding(2), [data[0]]);
      assert [data[0]] == data;
    }
  }

  lemma LastQuad(q: string, d: seq<Byte>)
    requires |q| == 4 && DecodeQuad(q, true) == Some(d)
    ensures Decode(q) == Some(d)
  {
    DecodeStep(q, [], d, []);
    assert q + [] == q && d + [] == d;
  }

  /** Characters of the alphabet only: no padding sign, no dot, all ASCII. */
  predicate Plain(s: string) {
    forall i :: 0 <= i < |s| ==> s[i] != '=' && s[i] != '.' && s[i] < 128 as char
  }

  lemma QuadPlain(a: Byte, b: Byte, c: Byte)
    ensures Plain(Quad(a, b, c))
  {
    CharRoundTrip(First(a));
    CharRoundTrip(Second(a, b));
    CharRoundTrip(Third(b, c));
    CharRoundTrip(Fourth(c));
  }

  /** An encoding is plain text and then the padding that fills it up to a multiple of four. */
  ghost predicate Shape(s: string, bare: string, pads: nat) {
    s == bare + Padding(pads) && Plain(bare) && pads < 3 && (|bare| + pads) % 4 == 0
  }

  lemma {:induction false} EncodeShape(data: seq<Byte>) returns (bare: string, pads: nat)
    ensures Shape(Encode(data), bare, pads)
    decreases |data|
  {
    if data == [] {
      bare, pads := [], 0;
    } else if |data| == 1 {
      QuadPlain(data[0], 0, 0);
      bare, pads := Quad(data[0], 0, 0)[..2], 2;
    } else if |data| == 2 {
      QuadPlain(data[0], data[1], 0);
      bare, pads := Quad(data[0], data[1], 0)[..3], 1;
    } else {
      QuadPlain(data[0], data[1], data[2]);
      bare, pads := EncodeShape(data[3..]);
      ShapeStep(Quad(data[0], data[1], data[2]), Encode(data[3..]), bare, pads);
      bare := Quad(data[0], data[1], data[2]) + bare;
    }
  }

  lemma ShapeStep(q: string, s: string, bare: string, pads: nat)
    requires |q| == 4 && Plain(q) && Shape(s, bare, pads)
    ensures Shape(q + s, q + bare, pads)
  {
    assert q + s == q + bare + Padding(pads);
  }

  lemma {:induction false} StripOff(bare: string, pads: nat)
    requires Plain(bare)
    ensures StripPadding(bare + Padding(pads)) == bare
    decreases pads
  {
    if pads == 0 {
      assert bare + Padding(0) == bare;
    } else {
      var s := bare + Padding(pads);
      assert s[..|s| - 1] == bare + Padding(pads - 1);
      StripOff(bare, pads - 1);
    }
  }

  lemma PadsBack(n: int, pads: int)
    requires 0 <= n && 0 <= pads < 3 && (n + pads) % 4 == 0
    ensures (-n) % 4 == pads
  {
  }

  /** Stripping the padding and putting back -len % 4 signs inverts base64url on all byte strings. */
  lemma UnpaddedRoundTrip(data: seq<Byte>)
    ensures DecodeUnpadded(EncodeUnpadded(data)) == Some(data)
    ensures Plain(EncodeUnpadded(data))
  {
    var bare, pads := EncodeShape(data);
    PaddedRoundTrip(data);
    Unpad(Encode(data), bare, pads, data);
  }

  lemma Unpad(s: string, bare: string, pads: nat, data: seq<Byte>)
    requires Shape(s, bare, pads) && Decode(s) == Some(data)
    ensures DecodeUnpadded(StripPadding(s)) == Some(data) && Plain(StripPadding(s))
  {
    Repad(s, bare, pads);
  }

  lemma Repad(s: string, bare: string, pads: nat)
    requires Shape(s, bare, pads)
    ensures StripPadding(s) == bare && bare + Padding((-|bare|) % 4) == s
  {
    StripOff(bare, pads);
    PadsBack(|bare|, pads);
  }

  lemma EncodeUnpaddedInjective(a: seq<Byte>, b: seq<Byte>)
    requires EncodeUnpadded(a) == EncodeUnpadded(b)
    ensures a == b
  {
    UnpaddedRoundTrip(a);
    UnpaddedRoundTrip(b);
  }
}
