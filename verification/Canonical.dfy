/** The canonical form of a JSON value: keys sorted at every depth, then printed. */
module Canonical {
  import opened Prelude
  import opened Sorting
  import opened Strings
  import opened Json

  predicate ByKey(a: Field, b: Field) {
    StrLe(a.key, b.key)
  }

  lemma ByKeyIsTotalPreorder()
    ensures TotalPreorder(ByKey)
  {
    forall a: Field, b: Field ensures ByKey(a, b) || ByKey(b, a) {
      StrLeTotal(a.key, b.key);
    }
    forall a: Field, b: Field, c: Field | ByKey(a, b) && ByKey(b, c) ensures ByKey(a, c) {
      StrLeTransitive(a.key, b.key, c.key);
    }
  }

  /** x with the items of every dictionary sorted by key. */
  function Norm(x: Json): (y: Json)
    decreases x
  {
    match x
    case Arr(elems) => Arr(NormElems(elems))
    case Obj(fields) => Obj(Sort(ByKey, NormFields(fields)))
    case _ => x
  }

  function NormElems(xs: seq<Json>): (ys: seq<Json>)
    decreases xs
  {
    if xs == [] then [] else [Norm(xs[0])] + NormElems(xs[1..])
  }

  function NormFields(fs: seq<Field>): (gs: seq<Field>)
    decreases fs
  {
    if fs == [] then [] else [Field(fs[0].key, Norm(fs[0].value))] + NormFields(fs[1..])
  }

  /** What is hashed and signed: the normal form, printed compactly in ASCII. */
  function CanonicalText(x: Json): (s: string) {
    Print(Norm(x))
  }

  lemma {:induction false} InsertPrintable(f: Field, fs: seq<Field>)
    requires Printable(f.value) && PrintableFields(fs)
    ensures PrintableFields(Insert(ByKey, f, fs))
  {
    if fs == [] || ByKey(f, fs[0]) {
      assert ([f] + fs)[1..] == fs;
    } else {
      InsertPrintable(f, fs[1..]);
      var rest := Insert(ByKey, f, fs[1..]);
      assert ([fs[0]] + rest)[1..] == rest;
    }
  }

  lemma {:induction false} SortPrintable(fs: seq<Field>)
    requires PrintableFields(fs)
    ensures PrintableFields(Sort(ByKey, fs))
  {
    if fs != [] {
      SortPrintable(fs[1..]);
      InsertPrintable(fs[0], Sort(ByKey, fs[1..]));
    }
  }

  lemma {:induction false} NormPrintable(x: Json)
    requires Printable(x)
    ensures Printable(Norm(x))
    decreases x, 1
  {
    match x
    case Arr(elems) => NormElemsPrintable(elems);
    case Obj(fields) =>
      NormFieldsPrintable(fields);
      SortPrintable(NormFields(fields));
    case _ =>
  }

  lemma {:induction false} NormElemsPrintable(xs: seq<Json>)
    requires PrintableElems(xs)
    ensures PrintableElems(NormElems(xs))
    decreases xs, 0
  {
    if xs != [] {
      NormPrintable(xs[0]);
      NormElemsPrintable(xs[1..]);
      assert NormElems(xs)[1..] == NormElems(xs[1..]);
    }
  }

  lemma {:induction false} NormFieldsPrintable(fs: seq<Field>)
    requires PrintableFields(fs)
    ensures PrintableFields(NormFields(fs))
    decreases fs, 0
  {
    if fs != [] {
      NormPrintable(fs[0].value);
      NormFieldsPrintable(fs[1..]);
      assert NormFields(fs)[1..] == NormFields(fs[1..]);
    }
  }

  lemma {:induction false} NormElemsAt(xs: seq<Json>)
    ensures |NormElems(xs)| == |xs| && forall i :: 0 <= i < |xs| ==> NormElems(xs)[i] == Norm(xs[i])
  {
    if xs != [] {
      NormElemsAt(xs[1..]);
    }
  }

  /** y is x with the items sorted by key and every part in its own normal form; lists keep their order. */
  ghost predicate NormedOnce(x: Json, y: Json) {
    match x
    case Obj(fs) =>
      && y.Obj? && multiset(y.fields) == multiset(NormFields(fs)) && Sorted(ByKey, y.fields)
      && |NormFields(fs)| == |fs|
      && forall i :: 0 <= i < |fs| ==> NormFields(fs)[i] == Field(fs[i].key, Norm(fs[i].value))
    case Arr(xs) => y.Arr? && |y.elems| == |xs| && forall i :: 0 <= i < |xs| ==> y.elems[i] == Norm(xs[i])
    case _ => y == x
  }

  /** The normal form only sorts the items of dictionaries. */
  lemma NormExact(x: Json)
    ensures NormedOnce(x, Norm(x))
  {
    match x
    case Obj(fs) =>
      ByKeyIsTotalPreorder();
      SortSorted(ByKey, NormFields(fs));
      NormFieldsAt(fs);
    case Arr(xs) => NormElemsAt(xs);
    case _ =>
  }

  /** The canonical text determines the value, up to the order of dictionary items. */
  lemma CanonicalInjective(x: Json, y: Json)
    requires Printable(x) && Printable(y) && CanonicalText(x) == CanonicalText(y)
    ensures Norm(x) == Norm(y)
  {
    NormPrintable(x);
    NormPrintable(y);
    PrintInjective(Norm(x), Norm(y));
  }

  // ---------- what equality of normal forms means ----------

  function NormOption(r: Option<Json>): (s: Option<Json>) {
    if r.None? then None else Some(Norm(r.value))
  }

  lemma {:induction false} GetInsert(f: Field, fs: seq<Field>, key: string)
    ensures Get(Insert(ByKey, f, fs), key) == if f.key == key then Some(f.value) else Get(fs, key)
  {
    if fs == [] || ByKey(f, fs[0]) {
      assert ([f] + fs)[1..] == fs;
    } else {
      GetInsert(f, fs[1..], key);
      var rest := Insert(ByKey, f, fs[1..]);
      assert ([fs[0]] + rest)[1..] == rest;
      StrLeTotal(f.key, fs[0].key);
      assert f.key != fs[0].key by { ByKeyReflexive(f, fs[0]); }
    }
  }

  lemma ByKeyReflexive(f: Field, g: Field)
    ensures f.key == g.key ==> ByKey(f, g)
  {
    StrLeTotal(f.key, g.key);
  }

  lemma {:induction false} GetSort(fs: seq<Field>, key: string)
    ensures Get(Sort(ByKey, fs), key) == Get(fs, key)
  {
    if fs != [] {
      GetSort(fs[1..], key);
      GetInsert(fs[0], Sort(ByKey, fs[1..]), key);
    }
  }

  lemma {:induction false} GetNorm(fs: seq<Field>, key: string)
    ensures Get(NormFields(fs), key) == NormOption(Get(fs, key))
  {
    if fs != [] {
      GetNorm(fs[1..], key);
      assert NormFields(fs)[1..] == NormFields(fs[1..]);
    }
  }

  /** Dictionaries with the same normal form answer every lookup alike. */
  lemma SameLookups(fs: seq<Field>, gs: seq<Field>, key: string)
    requires Norm(Obj(fs)) == Norm(Obj(gs))
    ensures NormOption(Get(fs, key)) == NormOption(Get(gs, key))
  {
    GetSort(NormFields(fs), key);
    GetSort(NormFields(gs), key);
    GetNorm(fs, key);
    GetNorm(gs, key);
  }

  ghost predicate DistinctKeys(fs: seq<Field>) {
    forall i, j :: 0 <= i < j < |fs| ==> fs[i].key != fs[j].key
  }

  lemma {:induction false} NormFieldsAt(fs: seq<Field>)
    ensures |NormFields(fs)| == |fs|
    ensures forall i :: 0 <= i < |fs| ==> NormFields(fs)[i] == Field(fs[i].key, Norm(fs[i].value))
  {
    if fs != [] {
      NormFieldsAt(fs[1..]);
    }
  }

  lemma {:induction false} GetMember(fs: seq<Field>, f: Field)
    requires DistinctKeys(fs)
    ensures f in fs <==> Get(fs, f.key) == Some(f.value)
  {
    if fs != [] {
      GetMember(fs[1..], f);
      assert fs == [fs[0]] + fs[1..];
      assert f in fs[1..] ==> f.key != fs[0].key;
    }
  }

  lemma NormStrict(fs: seq<Field>)
    requires DistinctKeys(fs)
    ensures Strict(ByKey, Sort(ByKey, NormFields(fs)))
    ensures DistinctKeys(NormFields(fs))
  {
    var gs := NormFields(fs);
    NormFieldsAt(fs);
    ByKeyIsTotalPreorder();
    forall i, j | 0 <= i < j < |gs| ensures !(ByKey(gs[i], gs[j]) && ByKey(gs[j], gs[i])) {
      StrLeTotal(gs[i].key, gs[j].key);
    }
    SortStrict(ByKey, gs);
  }

  /** The same keys lead to equal values. */
  ghost predicate SameDict(fs: seq<Field>, gs: seq<Field>) {
    forall key :: NormOption(Get(fs, key)) == NormOption(Get(gs, key))
  }

  /** For dictionaries (whose keys are distinct) the normal form is dictionary equality. */
  lemma NormIsDictEquality(fs: seq<Field>, gs: seq<Field>)
    requires DistinctKeys(fs) && DistinctKeys(gs)
    ensures Norm(Obj(fs)) == Norm(Obj(gs)) <==> SameDict(fs, gs)
  {
    if SameDict(fs, gs) {
      SameLookupsSameNorm(fs, gs);
    } else {
      var key :| NormOption(Get(fs, key)) != NormOption(Get(gs, key));
      DifferentLookups(fs, gs, key);
    }
  }

  lemma DifferentLookups(fs: seq<Field>, gs: seq<Field>, key: string)
    requires NormOption(Get(fs, key)) != NormOption(Get(gs, key))
    ensures Norm(Obj(fs)) != Norm(Obj(gs))
  {
    GetSort(NormFields(fs), key);
    GetSort(NormFields(gs), key);
    GetNorm(fs, key);
    GetNorm(gs, key);
  }

  lemma SameLookupsSameNorm(fs: seq<Field>, gs: seq<Field>)
    requires DistinctKeys(fs) && DistinctKeys(gs)
    requires SameDict(fs, gs)
    ensures Sort(ByKey, NormFields(fs)) == Sort(ByKey, NormFields(gs))
  {
    var xs, ys := Sort(ByKey, NormFields(fs)), Sort(ByKey, NormFields(gs));
    NormStrict(fs);
    NormStrict(gs);
    forall f ensures f in xs <==> f in ys {
      SameElements(xs, NormFields(fs));
      SameElements(ys, NormFields(gs));
      GetMember(NormFields(fs), f);
      GetMember(NormFields(gs), f);
      GetNorm(fs, f.key);
      GetNorm(gs, f.key);
    }
    StrictUnique(ByKey, xs, ys);
  }
}
