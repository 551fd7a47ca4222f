/** JSON values whose dictionaries have distinct keys at every depth, which is what Python can hold. */
module Dictionaries {
  import opened Prelude
  import opened Sorting
  import opened Json
  import opened Canonical
  import opened Redaction

  predicate Proper(x: Json)
    decreases x
  {
    match x
    case Arr(elems) => ProperElems(elems)
    case Obj(fields) => ProperFields(fields)
    case _ => true
  }

  predicate ProperElems(xs: seq<Json>)
    decreases xs
  {
    xs == [] || (Proper(xs[0]) && ProperElems(xs[1..]))
  }

  predicate ProperFields(fs: seq<Field>)
    decreases fs
  {
    fs == [] || (Get(fs[1..], fs[0].key) == None && Proper(fs[0].value) && ProperFields(fs[1..]))
  }

  lemma {:induction false} ProperAppend(fs: seq<Field>, f: Field)
    requires ProperFields(fs) && Proper(f.value) && Get(fs, f.key) == None
    ensures ProperFields(fs + [f])
  {
    if fs != [] {
      ProperAppend(fs[1..], f);
      GetAppend(fs[1..], f, fs[0].key);
      assert (fs + [f])[1..] == fs[1..] + [f];
    }
  }

  /** Items with different keys make a dictionary. */
  lemma {:induction false} AllProper(fs: seq<Field>)
    requires forall i :: 0 <= i < |fs| ==> Proper(fs[i].value)
    requires forall i, j :: 0 <= i < j < |fs| ==> fs[i].key != fs[j].key
    ensures ProperFields(fs)
  {
    if fs != [] {
      AllProper(fs[1..]);
      GetAbsent(fs[1..], fs[0].key);
    }
  }

  lemma ProperSingle(f: Field)
    requires Proper(f.value)
    ensures ProperFields([f])
  {
    assert [f][1..] == [];
  }

  // ---------- sorting the items ----------

  lemma {:induction false} InsertProper(f: Field, fs: seq<Field>)
    requires ProperFields(fs) && Proper(f.value) && Get(fs, f.key) == None
    ensures ProperFields(Insert(ByKey, f, fs))
  {
    if fs == [] || ByKey(f, fs[0]) {
      assert ([f] + fs)[1..] == fs;
    } else {
      var rest := Insert(ByKey, f, fs[1..]);
      InsertProper(f, fs[1..]);
      GetInsert(f, fs[1..], fs[0].key);
      assert ([fs[0]] + rest)[1..] == rest;
    }
  }

  lemma {:induction false} SortProper(fs: seq<Field>)
    requires ProperFields(fs)
    ensures ProperFields(Sort(ByKey, fs))
  {
    if fs != [] {
      SortProper(fs[1..]);
      GetSort(fs[1..], fs[0].key);
      InsertProper(fs[0], Sort(ByKey, fs[1..]));
    }
  }

  /** The canonical form of a dictionary is a dictionary. */
  lemma {:induction false} NormProper(x: Json)
    requires Proper(x)
    ensures Proper(Norm(x))
    decreases x, 1
  {
    match x
    case Arr(elems) => NormElemsProper(elems);
    case Obj(fields) =>
      NormFieldsProper(fields);
      SortProper(NormFields(fields));
    case _ =>
  }

  lemma {:induction false} NormElemsProper(xs: seq<Json>)
    requires ProperElems(xs)
    ensures ProperElems(NormElems(xs))
    decreases xs, 0
  {
    if xs != [] {
      NormProper(xs[0]);
      NormElemsProper(xs[1..]);
      assert NormElems(xs)[1..] == NormElems(xs[1..]);
    }
  }

  lemma {:induction false} NormFieldsProper(fs: seq<Field>)
    requires ProperFields(fs)
    ensures ProperFields(NormFields(fs))
    decreases fs, 0
  {
    if fs != [] {
      NormProper(fs[0].value);
      NormFieldsProper(fs[1..]);
      GetNorm(fs[1..], fs[0].key);
      assert NormFields(fs)[1..] == NormFields(fs[1..]);
    }
  }

  // ---------- redaction ----------

  lemma {:induction false} GetRedacted(fs: seq<Field>, key: string)
    ensures Get(RedactFields(fs), key).None? <==> Get(fs, key).None?
  {
    if fs != [] {
      GetRedacted(fs[1..], key);
      assert RedactFields(fs)[1..] == RedactFields(fs[1..]);
    }
  }

  /** Redaction keeps the keys of a dictionary. */
  lemma {:induction false} RedactProper(x: Json)
    requires Proper(x)
    ensures Proper(Redact(x))
    decreases x, 1
  {
    match x
    case Arr(elems) => RedactElemsProper(elems);
    case Obj(fields) => RedactFieldsProper(fields);
    case _ =>
  }

  lemma {:induction false} RedactElemsProper(xs: seq<Json>)
    requires ProperElems(xs)
    ensures ProperElems(RedactElems(xs))
    decreases xs, 0
  {
    if xs != [] {
      RedactProper(xs[0]);
      RedactElemsProper(xs[1..]);
      assert RedactElems(xs)[1..] == RedactElems(xs[1..]);
    }
  }

  lemma {:induction false} RedactFieldsProper(fs: seq<Field>)
    requires ProperFields(fs)
    ensures ProperFields(RedactFields(fs))
    decreases fs, 0
  {
    if fs != [] {
      RedactProper(fs[0].value);
      RedactFieldsProper(fs[1..]);
      GetRedacted(fs[1..], fs[0].key);
      assert RedactFields(fs)[1..] == RedactFields(fs[1..]);
    }
  }
}
