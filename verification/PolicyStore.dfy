/** Versioned policy documents per group, and the ETag answer of the edge server. */
module PolicyStore {
  import opened Prelude
  import opened Strings
  import opened Json

  // ---------- validation of authored settings ----------

  predicate BoolKey(k: string) {
    k in ["ProtectionEnabled", "UrlFilteringEnabled", "BlockMaliciousUrls",
          "BlockPhishingUrls", "BlockSuspiciousUrls", "AllowUserBypass"]
  }

  predicate ListKey(k: string) {
    k in ["UrlAllowlist", "UrlBlocklist", "AllowlistDomains"]
  }

  predicate AllStrings(xs: seq<Json>) {
    forall i :: 0 <= i < |xs| ==> xs[i].Str?
  }

  predicate Acceptable(f: Field) {
    if BoolKey(f.key) then f.value.Bool? else ListKey(f.key) && f.value.Arr? && AllStrings(f.value.elems)
  }

  /** str.strip(), as far as it matters: what is stripped once stays as it is. */
  type Strip = g: string -> string | forall s :: g(g(s)) == g(s) witness Same

  function Same(s: string): string {
    s
  }

  /** The strings stripped, without those of which nothing is left. */
  function Stripped(strip: Strip, xs: seq<Json>): (ys: seq<Json>)
    requires AllStrings(xs)
    ensures AllStrings(ys)
  {
    if xs == [] then []
    else
      var s, rest := strip(xs[0].s), Stripped(strip, xs[1..]);
      if s == "" then rest else [Str(s)] + rest
  }

  function FirstThousand(xs: seq<Json>): (ys: seq<Json>) {
    if |xs| <= 1000 then xs else xs[..1000]
  }

  function CleanField(strip: Strip, f: Field): (g: Field)
    requires Acceptable(f)
  {
    if BoolKey(f.key) then f else Field(f.key, Arr(FirstThousand(Stripped(strip, f.value.elems))))
  }

  predicate AllAcceptable(fs: seq<Field>) {
    forall i :: 0 <= i < |fs| ==> Acceptable(fs[i])
  }

  function CleanFields(strip: Strip, fs: seq<Field>): (gs: seq<Field>)
    requires AllAcceptable(fs)
    ensures |gs| == |fs| && forall i :: 0 <= i < |fs| ==> gs[i] == CleanField(strip, fs[i])
  {
    seq(|fs|, i requires 0 <= i < |fs| => CleanField(strip, fs[i]))
  }

  /** None stands for PolicyValidationError. */
  method ValidateSettings(strip: Strip, settings: Json) returns (r: Option<seq<Field>>)
    ensures r.Some? <==> settings.Obj? && AllAcceptable(settings.fields)
    ensures r.Some? ==> r.value == CleanFields(strip, settings.fields)
  {
    if !settings.Obj? {
      return None;
    }
    var items := settings.fields;
    var out: seq<Field> := [];
    for i := 0 to |items|
      invariant |out| == i
      invariant forall j :: 0 <= j < i ==> Acceptable(items[j]) && out[j] == CleanField(strip, items[j])
    {
      var k, v := items[i].key, items[i].value;
      if !BoolKey(k) && !ListKey(k) {
        return None;
      }
      if BoolKey(k) {
        if !v.Bool? {
          return None;
        }
      } else {
        if !v.Arr? || !AllStrings(v.elems) {
          return None;
        }
        v := Arr(FirstThousand(Stripped(strip, v.elems)));
      }
      out := out + [Field(k, v)];
    }
    return Some(out);
  }

  /** Strings that stripping leaves alone and that are not empty. */
  ghost predicate Tidy(strip: Strip, xs: seq<Json>) {
    forall i :: 0 <= i < |xs| ==> xs[i].Str? && xs[i].s != "" && strip(xs[i].s) == xs[i].s
  }

  lemma {:induction false} StrippedTidy(strip: Strip, xs: seq<Json>)
    requires AllStrings(xs)
    ensures Tidy(strip, Stripped(strip, xs))
  {
    if xs != [] {
      StrippedTidy(strip, xs[1..]);
    }
  }

  lemma {:induction false} TidyUnchanged(strip: Strip, xs: seq<Json>)
    requires Tidy(strip, xs)
    ensures AllStrings(xs) && Stripped(strip, xs) == xs
  {
    if xs != [] {
      TidyUnchanged(strip, xs[1..]);
      assert xs == [xs[0]] + xs[1..];
    }
  }

  /** Validated settings are acceptable as they are: validating them again changes nothing. */
  lemma ValidationStable(strip: Strip, fs: seq<Field>)
    requires AllAcceptable(fs)
    ensures AllAcceptable(CleanFields(strip, fs))
    ensures CleanFields(strip, CleanFields(strip, fs)) == CleanFields(strip, fs)
  {
    var gs := CleanFields(strip, fs);
    forall i | 0 <= i < |gs| ensures Acceptable(gs[i]) && CleanField(strip, gs[i]) == gs[i] {
      CleanFieldStable(strip, fs[i]);
    }
  }

  lemma CleanFieldStable(strip: Strip, f: Field)
    requires Acceptable(f)
    ensures Acceptable(CleanField(strip, f)) && CleanField(strip, CleanField(strip, f)) == CleanField(strip, f)
  {
    if !BoolKey(f.key) {
      StrippedTidy(strip, f.value.elems);
      TidyUnchanged(strip, FirstThousand(Stripped(strip, f.value.elems)));
    }
  }

  /** How many of the first i strings something is left of. */
  function Survivors(strip: Strip, xs: seq<Json>, i: nat): (n: nat)
    requires AllStrings(xs) && i <= |xs|
  {
    if i == 0 then 0 else (if strip(xs[0].s) == "" then 0 else 1) + Survivors(strip, xs[1..], i - 1)
  }

  lemma {:induction false} StrippedAt(strip: Strip, xs: seq<Json>, i: nat)
    requires AllStrings(xs) && i <= |xs|
    ensures Survivors(strip, xs, i) <= |Stripped(strip, xs)| == Survivors(strip, xs, |xs|)
    ensures i < |xs| && strip(xs[i].s) != "" ==>
      && Survivors(strip, xs, i) < |Stripped(strip, xs)|
      && Stripped(strip, xs)[Survivors(strip, xs, i)] == Str(strip(xs[i].s))
  {
    if xs != [] {
      StrippedAt(strip, xs[1..], if i == 0 then 0 else i - 1);
    }
  }

  /** ys are, in order, the first thousand of xs of which stripping leaves something, stripped. */
  ghost predicate CleanedList(strip: Strip, xs: seq<Json>, ys: seq<Json>)
    requires AllStrings(xs)
  {
    var n := Survivors(strip, xs, |xs|);
    && |ys| == (if n <= 1000 then n else 1000)
    && forall i {:trigger xs[i]} :: 0 <= i < |xs| && strip(xs[i].s) != "" && Survivors(strip, xs, i) < |ys| ==>
         ys[Survivors(strip, xs, i)] == Str(strip(xs[i].s))
  }

  lemma ListCleaned(strip: Strip, xs: seq<Json>)
    requires AllStrings(xs)
    ensures CleanedList(strip, xs, FirstThousand(Stripped(strip, xs)))
  {
    StrippedAt(strip, xs, |xs|);
    forall i | 0 <= i < |xs| && strip(xs[i].s) != "" && Survivors(strip, xs, i) < |FirstThousand(Stripped(strip, xs))|
      ensures FirstThousand(Stripped(strip, xs))[Survivors(strip, xs, i)] == Str(strip(xs[i].s))
    {
      StrippedAt(strip, xs, i);
    }
  }

  /** g has the key of f, and its value: a boolean as it is, a list cleaned. */
  ghost predicate CleanedField(strip: Strip, f: Field, g: Field)
    requires Acceptable(f)
  {
    && g.key == f.key
    && (f.value.Bool? ==> g.value == f.value)
    && (f.value.Arr? ==> g.value.Arr? && CleanedList(strip, f.value.elems, g.value.elems))
  }

  /** The stored settings have the keys of the authored ones, in their order, and their values. */
  ghost predicate Cleaned(strip: Strip, fs: seq<Field>, gs: seq<Field>)
    requires AllAcceptable(fs)
  {
    |gs| == |fs| && forall i :: 0 <= i < |fs| ==> CleanedField(strip, fs[i], gs[i])
  }

  lemma FieldsCleaned(strip: Strip, fs: seq<Field>)
    requires AllAcceptable(fs)
    ensures Cleaned(strip, fs, CleanFields(strip, fs))
  {
    forall i | 0 <= i < |fs| ensures CleanedField(strip, fs[i], CleanFields(strip, fs)[i]) {
      if fs[i].value.Arr? {
        ListCleaned(strip, fs[i].value.elems);
      }
    }
  }

  // ---------- the store ----------

  predicate GroupChar(c: char) {
    'A' <= c <= 'Z' || 'a' <= c <= 'z' || '0' <= c <= '9' || c == '.' || c == '_' || c == '-'
  }

  /** The pattern ^[A-Za-z0-9._-]{1,64}$, whose last anchor also matches before a final newline. */
  predicate GroupOk(g: string) {
    var body := if g != [] && g[|g| - 1] == '\n' then g[..|g| - 1] else g;
    Spelled(body)
  }

  /** 1 to 64 letters, digits, dots, underscores and hyphens. */
  predicate Spelled(g: string) {
    1 <= |g| <= 64 && forall i :: 0 <= i < |g| ==> GroupChar(g[i])
  }

  /** A group is accepted exactly if it is spelled so, with or without one newline behind it. */
  lemma GroupExact(g: string)
    ensures GroupOk(g) <==> Spelled(g) || exists h :: Spelled(h) && g == h + "\n"
  {
    if g != [] && g[|g| - 1] == '\n' {
      assert g == g[..|g| - 1] + "\n" && !GroupChar(g[|g| - 1]);
    }
    forall h | g == h + "\n" ensures h == g[..|g| - 1] {
    }
  }

  datatype Doc = Doc(version: int, issuedAt: string, tenantId: string, settings: seq<Field>)

  /** The stored documents, one file for each group. */
  type Docs = map<string, Doc>

  datatype Update = Update(group: string, settings: Json, now: string)

  predicate Accepts(u: Update) {
    u.settings.Obj? && AllAcceptable(u.settings.fields) && GroupOk(u.group)
  }

  function NextDoc(strip: Strip, m: Docs, u: Update): (d: Doc)
    requires Accepts(u)
  {
    Doc(if u.group in m then m[u.group].version + 1 else 1, u.now, u.group, CleanFields(strip, u.settings.fields))
  }

  function Updated(strip: Strip, m: Docs, u: Update): (m': Docs) {
    if Accepts(u) then m[u.group := NextDoc(strip, m, u)] else m
  }

  datatype Lookup = BadGroup | NoDocument | Found(doc: Doc)

  function Looked(m: Docs, group: string): (l: Lookup) {
    if !GroupOk(group) then BadGroup else if group in m then Found(m[group]) else NoDocument
  }

  datatype Answer = Failure | NotFound | NotModified(etag: string) | Served(doc: Doc, etag: string)

  function Etag(d: Doc): (e: string) {
    "W/\"" + Decimal(d.version) + "\""
  }

  /** What a client of `group` that sends If-None-Match gets. */
  function Pulled(m: Docs, group: string, ifNoneMatch: Option<string>): (a: Answer) {
    match Looked(m, group)
    case BadGroup => Failure
    case NoDocument => NotFound
    case Found(doc) => if ifNoneMatch == Some(Etag(doc)) then NotModified(Etag(doc)) else Served(doc, Etag(doc))
  }

  class Store {
    const strip: Strip
    var docs: Docs

    constructor (strip: Strip)
      ensures docs == map[]
    {
      this.strip := strip;
      this.docs := map[];
    }

    method GetDocument(group: string) returns (l: Lookup)
      ensures l == Looked(docs, group)
    {
      if !GroupOk(group) {
        return BadGroup;
      }
      if group !in docs {
        return NoDocument;
      }
      return Found(docs[group]);
    }

    /** None stands for PolicyValidationError. */
    method SetSettings(group: string, settings: Json, now: string) returns (r: Option<Doc>)
      modifies this
      ensures docs == Updated(strip, old(docs), Update(group, settings, now))
      ensures r.Some? <==> Accepts(Update(group, settings, now))
      ensures r.Some? ==> group in docs && r.value == docs[group]
    {
      var clean := ValidateSettings(strip, settings);
      if clean.None? {
        return None;
      }
      var existing := GetDocument(group);
      if existing.BadGroup? {
        return None;
      }
      var version := if existing.Found? then existing.doc.version + 1 else 1;
      var doc := Doc(version, now, group, clean.value);
      docs := docs[group := doc];
      return Some(doc);
    }

    method Policy(group: string, ifNoneMatch: Option<string>) returns (a: Answer)
      ensures a == Pulled(docs, group, ifNoneMatch)
    {
      var l := GetDocument(group);
      match l
      case BadGroup => return Failure;
      case NoDocument => return NotFound;
      case Found(doc) =>
        var etag := "W/\"" + Decimal(doc.version) + "\"";
        if ifNoneMatch == Some(etag) {
          return NotModified(etag);
        }
        return Served(doc, etag);
    }
  }

  // ---------- histories ----------

  /** The store after the first k updates, starting empty. */
  function DocsAfter(strip: Strip, us: seq<Update>, k: nat): (m: Docs)
    requires k <= |us|
    decreases k
  {
    if k == 0 then map[] else Updated(strip, DocsAfter(strip, us, k - 1), us[k - 1])
  }

  /** How many of the first k updates were accepted for group g. */
  function AcceptedFor(us: seq<Update>, g: string, k: nat): (n: nat)
    requires k <= |us|
    decreases k
  {
    if k == 0 then 0
    else if us[k - 1].group == g && Accepts(us[k - 1]) then AcceptedFor(us, g, k - 1) + 1
    else AcceptedFor(us, g, k - 1)
  }

  /** The versions of a group count its accepted updates: 1, 2, 3, ... */
  lemma {:induction false} VersionsCount(strip: Strip, us: seq<Update>, g: string, k: nat)
    requires k <= |us|
    ensures var m := DocsAfter(strip, us, k);
      && (g in m <==> AcceptedFor(us, g, k) > 0)
      && (g in m ==> m[g].version == AcceptedFor(us, g, k) && m[g].tenantId == g && GroupOk(g))
    decreases k
  {
    if k > 0 {
      VersionsCount(strip, us, g, k - 1);
    }
  }

  /** A group and a version determine one document over the whole history. */
  lemma {:induction false} VersionDeterminesDoc(strip: Strip, us: seq<Update>, g: string, i: nat, k: nat)
    requires i <= k <= |us| && g in DocsAfter(strip, us, i)
    ensures g in DocsAfter(strip, us, k)
    ensures var d, d' := DocsAfter(strip, us, i)[g], DocsAfter(strip, us, k)[g];
      d.version <= d'.version && (d.version == d'.version ==> d == d')
    decreases k
  {
    if i < k {
      VersionDeterminesDoc(strip, us, g, i, k - 1);
    }
  }

  /** The update that was accepted last for group g among the first k. */
  function LatestAccepted(us: seq<Update>, g: string, k: nat): (u: Option<Update>)
    requires k <= |us|
    decreases k
  {
    if k == 0 then None
    else if us[k - 1].group == g && Accepts(us[k - 1]) then Some(us[k - 1])
    else LatestAccepted(us, g, k - 1)
  }

  ghost predicate Publishes(strip: Strip, u: Update, d: Doc) {
    Accepts(u) && d.tenantId == u.group && d.issuedAt == u.now && Cleaned(strip, u.settings.fields, d.settings)
  }

  /** The document of a group is always what was authored last for it, cleaned. */
  lemma {:induction false} LatestPublished(strip: Strip, us: seq<Update>, g: string, k: nat)
    requires k <= |us|
    ensures var m, u := DocsAfter(strip, us, k), LatestAccepted(us, g, k);
      && (g in m <==> u.Some?)
      && (g in m ==> Publishes(strip, u.value, m[g]))
    decreases k
  {
    if k > 0 {
      LatestPublished(strip, us, g, k - 1);
      if us[k - 1].group == g && Accepts(us[k - 1]) {
        FieldsCleaned(strip, us[k - 1].settings.fields);
      }
    }
  }

  /** The ETag is weak, and quotes the version. */
  lemma EtagQuotesVersion(d: Doc)
    ensures var e := Etag(d);
      |e| > 4 && e[..3] == "W/\"" && e[|e| - 1] == '"' && ParseInt(e[3..|e| - 1]) == Some(d.version)
  {
    DecimalParses(d.version);
    assert Etag(d)[3..|Etag(d)| - 1] == Decimal(d.version);
  }

  lemma EtagInjective(d: Doc, d': Doc)
    requires Etag(d) == Etag(d')
    ensures d.version == d'.version
  {
    var s, t := Decimal(d.version), Decimal(d'.version);
    assert |s| == |t|;
    assert s == Etag(d)[3..|s| + 3] && t == Etag(d')[3..|t| + 3];
    DecimalInjective(d.version, d'.version);
  }

  /** A 304 is exact: a client that was served a document under an ETag earlier, and asks again with
      that ETag, is answered 304 if and only if that document is still the current one. */
  lemma NotModifiedExact(strip: Strip, us: seq<Update>, g: string, i: nat, k: nat, d: Doc, sent: Option<string>)
    requires i <= k <= |us|
    requires Pulled(DocsAfter(strip, us, i), g, sent) == Served(d, Etag(d))
    ensures var m := DocsAfter(strip, us, k);
      && g in m
      && (Pulled(m, g, Some(Etag(d))) == NotModified(Etag(d)) <==> m[g] == d)
      && (Pulled(m, g, Some(Etag(d))) != NotModified(Etag(d)) ==>
            Pulled(m, g, Some(Etag(d))) == Served(m[g], Etag(m[g])) && m[g].version > d.version)
  {
    VersionDeterminesDoc(strip, us, g, i, k);
    var m := DocsAfter(strip, us, k);
    if Etag(m[g]) == Etag(d) {
      EtagInjective(m[g], d);
    }
  }
}
