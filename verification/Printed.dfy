/** Which characters the JSON printer writes. */
module Printed {
  import opened Strings
  import opened Json

  /** Printable ASCII: in particular no line break. */
  predicate Visible(s: string) {
    forall i :: 0 <= i < |s| ==> ' ' <= s[i] <= '~'
  }

  lemma EscapeVisible(c: char)
    ensures Visible(Escape(c))
  {
  }

  lemma {:induction false} EscapeAllVisible(s: string)
    ensures Visible(EscapeAll(s))
  {
    if s != [] {
      EscapeVisible(s[0]);
      EscapeAllVisible(s[1..]);
    }
  }

  lemma QuoteVisible(s: string)
    ensures Visible(Quote(s))
  {
    EscapeAllVisible(s);
  }

  lemma NumberVisible(s: string)
    requires NumberToken(s)
    ensures Visible(s)
  {
  }

  /** Whatever the value, its printed form is printable ASCII. */
  lemma {:induction false} PrintVisible(x: Json)
    requires Printable(x)
    ensures Visible(Print(x))
    decreases x, 1
  {
    match x
    case Int(n) =>
      DecimalIsNumber(n);
      NumberVisible(Decimal(n));
    case Float(repr) => NumberVisible(repr);
    case Str(s) => QuoteVisible(s);
    case Arr(elems) => PrintElemsVisible(elems);
    case Obj(fields) => PrintFieldsVisible(fields);
    case _ =>
  }

  lemma {:induction false} PrintElemsVisible(xs: seq<Json>)
    requires PrintableElems(xs)
    ensures Visible(PrintElems(xs))
    decreases xs, 0
  {
    if xs != [] {
      PrintVisible(xs[0]);
      PrintElemsVisible(xs[1..]);
    }
  }

  lemma {:induction false} PrintFieldsVisible(fs: seq<Field>)
    requires PrintableFields(fs)
    ensures Visible(PrintFields(fs))
    decreases fs, 0
  {
    if fs != [] {
      QuoteVisible(fs[0].key);
      PrintVisible(fs[0].value);
      PrintFieldsVisible(fs[1..]);
    }
  }
}
