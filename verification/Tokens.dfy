/** Signed session and device tokens: payload "." signature, both base64url without padding. */
module Tokens {
  import opened Prelude
  import opened Base64
  import opened Json
  import opened Canonical
  import opened Conversions
  import opened Dictionaries
  import opened Reading
  import opened Sources

  /** The keyed hash of a payload under a secret; no property of it is assumed. */
  type Mac = (string, string) -> seq<Byte>

  /** What the tokens are made of: json.dumps with sorted keys and compact separators, as bytes. */
  function Dumped(x: Json): (b: seq<Byte>) {
    AsciiBytes(CanonicalText(x))
  }

  /** How a payload is read: json.loads on its bytes, and int() of its expiry. */
  datatype Reader = Reader(loads: Loads, other: Json -> Converted)

  // ---------- minting ----------

  /** The two sides of the first dot; None stands for the ValueError of a token without one. */
  function SplitDot(t: string): (r: Option<(string, string)>) {
    if t == [] then None
    else if t[0] == '.' then Some(([], t[1..]))
    else
      match SplitDot(t[1..])
      case None => None
      case Some((p, s)) => Some(([t[0]] + p, s))
  }

  function Sign(mac: Mac, secret: string, payload: string): (sig: string) {
    EncodeUnpadded(mac(secret, payload))
  }

  function Dotted(payload: string, sig: string): (t: string) {
    payload + (['.'] + sig)
  }

  function Minted(mac: Mac, secret: string, claims: seq<Field>): (t: string) {
    var payload := EncodeUnpadded(Dumped(Obj(claims)));
    Dotted(payload, Sign(mac, secret, payload))
  }

  /** The expiry of a token: the end of its lifetime, truncated toward zero. */
  function Expiry(now: real, ttl: int): (exp: int) {
    var t := now + ttl as real;
    if t >= 0.0 then t.Floor else -((-t).Floor)
  }

  function SessionClaims(exp: int): (c: seq<Field>) {
    [Field("exp", Int(exp))]
  }

  function DeviceClaims(exp: int, group: string, device: string): (c: seq<Field>) {
    [Field("exp", Int(exp)), Field("grp", Str(group)), Field("dev", Str(device))]
  }

  function MintSession(mac: Mac, adminToken: string, ttl: int, now: real): (t: string) {
    Minted(mac, adminToken, SessionClaims(Expiry(now, ttl)))
  }

  function MintDevice(mac: Mac, secret: string, group: string, device: string, ttl: int, now: real): (t: string) {
    Minted(mac, secret, DeviceClaims(Expiry(now, ttl), group, device))
  }

  // ---------- verification ----------

  /** Raises: a payload or signature that is not ASCII, or an infinite expiry, escapes the handlers as
      an exception. */
  datatype Answer = Refused | Granted(claims: seq<Field>) | Raises

  /** The verdict on claims whose expiry converts like this. */
  function Dated(exp: Converted, claims: seq<Field>, now: real): (a: Answer) {
    match exp
    case BadValue => Refused
    case Overflow => Raises
    case Whole(n) => if n as real <= now then Refused else Granted(claims)
  }

  function Claims(rd: Reader, payload: string, now: real): (a: Answer) {
    match DecodeUnpadded(payload)
    case None => Refused
    case Some(bytes) =>
      match rd.loads(Bytes(bytes))
      case Some(Obj(claims)) =>
        (match Get(claims, "exp")
         case None => Refused
         case Some(v) => Dated(ToInt(rd.other, v), claims, now))
      case _ => Refused
  }

  function Verify(mac: Mac, rd: Reader, secret: string, token: string, now: real): (a: Answer) {
    match SplitDot(token)
    case None => Refused
    case Some((payload, sig)) =>
      if !Ascii(payload) || !Ascii(sig) then Raises
      else if sig != Sign(mac, secret, payload) then Refused
      else Claims(rd, payload, now)
  }

  // ---------- what tokens guarantee ----------

  predicate NoDot(s: string) {
    forall i :: 0 <= i < |s| ==> s[i] != '.'
  }

  /** Splitting at the first dot takes a token apart. */
  lemma {:induction false} SplitJoin(p: string, s: string)
    requires NoDot(p)
    ensures SplitDot(Dotted(p, s)) == Some((p, s))
  {
    if p == [] {
      assert Dotted(p, s) == ['.'] + s;
    } else {
      SplitJoin(p[1..], s);
      assert Dotted(p, s)[1..] == Dotted(p[1..], s);
      assert [p[0]] + p[1..] == p;
    }
  }

  lemma {:induction false} SplitExact(t: string)
    requires SplitDot(t).Some?
    ensures NoDot(SplitDot(t).value.0) && Dotted(SplitDot(t).value.0, SplitDot(t).value.1) == t
  {
    if t[0] == '.' {
      assert [] + (['.'] + t[1..]) == t;
    } else {
      SplitExact(t[1..]);
      var p, s := SplitDot(t[1..]).value.0, SplitDot(t[1..]).value.1;
      assert ([t[0]] + p) + (['.'] + s) == [t[0]] + (p + (['.'] + s));
      assert [t[0]] + t[1..] == t;
    }
  }

  lemma DumpedReadsBack(rd: Reader, claims: seq<Field>)
    requires Readable(rd.loads, Obj(claims))
    ensures rd.loads(Bytes(Dumped(Obj(claims)))) == Some(Norm(Obj(claims)))
  {
    NormPrintable(Obj(claims));
    NormProper(Obj(claims));
    NormKept(rd.loads, Obj(claims));
    BytesReadBack(rd.loads, Norm(Obj(claims)));
  }

  lemma NormGet(claims: seq<Field>, key: string)
    ensures Norm(Obj(claims)).Obj? && Get(Norm(Obj(claims)).fields, key) == NormOption(Get(claims, key))
  {
    GetSort(NormFields(claims), key);
    GetNorm(claims, key);
  }

  /** A minted token is granted, under the same secret and with the same claims, at exactly the
      times before its expiry. */
  lemma MintVerify(mac: Mac, rd: Reader, secret: string, claims: seq<Field>, exp: int, now: real)
    requires Readable(rd.loads, Obj(claims)) && Get(claims, "exp") == Some(Int(exp))
    ensures Verify(mac, rd, secret, Minted(mac, secret, claims), now)
         == if now < exp as real then Granted(Norm(Obj(claims)).fields) else Refused
  {
    var payload := EncodeUnpadded(Dumped(Obj(claims)));
    UnpaddedRoundTrip(Dumped(Obj(claims)));
    VerifySigned(mac, rd, secret, payload, now);
    ClaimsReadBack(rd, claims, exp, now);
  }

  lemma VerifySigned(mac: Mac, rd: Reader, secret: string, payload: string, now: real)
    requires Plain(payload)
    ensures Verify(mac, rd, secret, Dotted(payload, Sign(mac, secret, payload)), now) == Claims(rd, payload, now)
  {
    UnpaddedRoundTrip(mac(secret, payload));
    SplitJoin(payload, Sign(mac, secret, payload));
  }

  lemma ClaimsReadBack(rd: Reader, claims: seq<Field>, exp: int, now: real)
    requires Readable(rd.loads, Obj(claims)) && Get(claims, "exp") == Some(Int(exp))
    ensures Claims(rd, EncodeUnpadded(Dumped(Obj(claims))), now)
         == if now < exp as real then Granted(Norm(Obj(claims)).fields) else Refused
  {
    UnpaddedRoundTrip(Dumped(Obj(claims)));
    DumpedReadsBack(rd, claims);
    NormGet(claims, "exp");
    ClaimsOf(rd, EncodeUnpadded(Dumped(Obj(claims))), Dumped(Obj(claims)), Norm(Obj(claims)).fields, exp, now);
  }

  lemma ClaimsOf(rd: Reader, payload: string, bytes: seq<Byte>, claims: seq<Field>, exp: int, now: real)
    requires DecodeUnpadded(payload) == Some(bytes) && rd.loads(Bytes(bytes)) == Some(Obj(claims))
    requires Get(claims, "exp") == Some(Int(exp))
    ensures Claims(rd, payload, now) == if now < exp as real then Granted(claims) else Refused
  {
  }

  /** For device tokens: the group and the device come back as they were enrolled. */
  lemma DeviceRoundTrip(mac: Mac, rd: Reader, secret: string, group: string, device: string,
                        ttl: int, minted: real, now: real)
    ensures var a := Verify(mac, rd, secret, MintDevice(mac, secret, group, device, ttl, minted), now);
      if now < Expiry(minted, ttl) as real
      then a.Granted? && Get(a.claims, "grp") == Some(Str(group)) && Get(a.claims, "dev") == Some(Str(device))
           && Get(a.claims, "exp") == Some(Int(Expiry(minted, ttl))) && |a.claims| == 3
      else a == Refused
  {
    var claims := DeviceClaims(Expiry(minted, ttl), group, device);
    DeviceLookups(Expiry(minted, ttl), group, device);
    AllKept(rd.loads, claims);
    NormSize(claims);
    MintVerify(mac, rd, secret, claims, Expiry(minted, ttl), now);
    NormGet(claims, "grp");
    NormGet(claims, "dev");
    NormGet(claims, "exp");
  }

  lemma NormSize(fs: seq<Field>)
    ensures Norm(Obj(fs)).Obj? && |Norm(Obj(fs)).fields| == |fs|
  {
    NormExact(Obj(fs));
    assert |multiset(Norm(Obj(fs)).fields)| == |Norm(Obj(fs)).fields|;
    assert |multiset(NormFields(fs))| == |NormFields(fs)|;
  }

  lemma DeviceLookups(exp: int, group: string, device: string)
    ensures var c := DeviceClaims(exp, group, device);
      && PrintableFields(c) && ProperFields(c)
      && Get(c, "exp") == Some(Int(exp)) && Get(c, "grp") == Some(Str(group)) && Get(c, "dev") == Some(Str(device))
  {
    var e, g, d := Field("exp", Int(exp)), Field("grp", Str(group)), Field("dev", Str(device));
    assert "exp"[0] != "grp"[0] && "exp"[0] != "dev"[0] && "grp"[0] != "dev"[0];
    assert [e] + [g] == [e, g] && DeviceClaims(exp, group, device) == [e, g] + [d];
    AllPrintable(DeviceClaims(exp, group, device));
    GetAbsent([e, g], "dev");
    GetAppend([e, g], d, "dev");
    GetAppend([e], g, "grp");
    GetAppend([e, g], d, "grp");
    ProperSingle(e);
    ProperAppend([e], g);
    ProperAppend([e, g], d);
  }

  /** For sessions: verify_session answers True exactly before the expiry. */
  lemma SessionRoundTrip(mac: Mac, rd: Reader, adminToken: string, ttl: int, minted: real, now: real)
    ensures Verify(mac, rd, adminToken, MintSession(mac, adminToken, ttl, minted), now).Granted?
       <==> now < Expiry(minted, ttl) as real
  {
    AllPrintable(SessionClaims(Expiry(minted, ttl)));
    ProperSingle(Field("exp", Int(Expiry(minted, ttl))));
    AllKept(rd.loads, SessionClaims(Expiry(minted, ttl)));
    MintVerify(mac, rd, adminToken, SessionClaims(Expiry(minted, ttl)), Expiry(minted, ttl), now);
  }

  /** The expiry is the whole number next to now + ttl on the side of zero. */
  lemma ExpiryTruncates(now: real, ttl: int)
    ensures var t, exp := now + ttl as real, Expiry(now, ttl) as real;
      if t >= 0.0 then 0.0 <= exp <= t < exp + 1.0 else exp - 1.0 < t <= exp <= 0.0
  {
  }

  predicate Unexpired(exp: Converted, now: real) {
    exp.Whole? && now < exp.n as real
  }

  /** The payload of a token that is granted: signed under the secret, readable, not expired. */
  ghost predicate Genuine(mac: Mac, rd: Reader, secret: string, token: string,
                          payload: string, claims: seq<Field>, now: real)
  {
    && NoDot(payload) && Ascii(payload)
    && token == Dotted(payload, Sign(mac, secret, payload))
    && DecodeUnpadded(payload).Some?
    && rd.loads(Bytes(DecodeUnpadded(payload).value)) == Some(Obj(claims))
    && Get(claims, "exp").Some?
    && Unexpired(ToInt(rd.other, Get(claims, "exp").value), now)
  }

  /** Exactly the tokens whose second part is the signature of their first part, and that have not
      expired, are granted. */
  lemma GrantedIffGenuine(mac: Mac, rd: Reader, secret: string, token: string, claims: seq<Field>, now: real)
    ensures Verify(mac, rd, secret, token, now) == Granted(claims)
       <==> exists payload :: Genuine(mac, rd, secret, token, payload, claims, now)
  {
    if Verify(mac, rd, secret, token, now) == Granted(claims) {
      SplitExact(token);
      assert Genuine(mac, rd, secret, token, SplitDot(token).value.0, claims, now);
    }
    if exists payload :: Genuine(mac, rd, secret, token, payload, claims, now) {
      var payload :| Genuine(mac, rd, secret, token, payload, claims, now);
      GenuineGranted(mac, rd, secret, token, payload, claims, now);
    }
  }

  /** Verification raises exactly for a token with a dot of which a part is not ASCII, or whose second part
      signs the first and whose expiry is infinite. */
  lemma RaisesIff(mac: Mac, rd: Reader, secret: string, payload: string, sig: string, now: real)
    requires NoDot(payload)
    ensures Verify(mac, rd, secret, Dotted(payload, sig), now) == Raises
       <==> || !Ascii(payload) || !Ascii(sig)
            || (sig == Sign(mac, secret, payload) && InfiniteExpiry(rd, payload))
  {
    SplitJoin(payload, sig);
  }

  /** The payload can be read, and has an expiry that int() overflows on. */
  predicate InfiniteExpiry(rd: Reader, payload: string) {
    && DecodeUnpadded(payload).Some?
    && match rd.loads(Bytes(DecodeUnpadded(payload).value))
       case Some(Obj(claims)) => Get(claims, "exp").Some? && ToInt(rd.other, Get(claims, "exp").value) == Overflow
       case _ => false
  }

  lemma GenuineGranted(mac: Mac, rd: Reader, secret: string, token: string,
                       payload: string, claims: seq<Field>, now: real)
    requires Genuine(mac, rd, secret, token, payload, claims, now)
    ensures Verify(mac, rd, secret, token, now) == Granted(claims)
  {
    SplitJoin(payload, Sign(mac, secret, payload));
    UnpaddedRoundTrip(mac(secret, payload));
  }

  /** Two granted tokens with the same signature are the same token, or the keyed hash takes their
      two payloads to the same value; so nobody can put another payload under a signature. */
  lemma SignatureBindsPayload(mac: Mac, rd: Reader, secret: string, t: string, t': string, now: real, now': real)
    requires Verify(mac, rd, secret, t, now).Granted? && Verify(mac, rd, secret, t', now').Granted?
    requires SplitDot(t).value.1 == SplitDot(t').value.1
    ensures var p, p' := SplitDot(t).value.0, SplitDot(t').value.0;
      t == t' || (p != p' && mac(secret, p) == mac(secret, p'))
  {
    SplitExact(t);
    SplitExact(t');
    EncodeUnpaddedInjective(mac(secret, SplitDot(t).value.0), mac(secret, SplitDot(t').value.0));
  }
}
