/** Reading JSON back: what is assumed of json.loads. */
module Reading {
  import opened Prelude
  import opened Json
  import opened Dictionaries
  import opened Printed
  import opened Sources
  import opened JsonReading

  /** Printing and reading x gives x back: its dictionaries have distinct keys, and its floats are written
      the way the reader takes them. */
  predicate Readable(f: Source -> Option<Json>, x: Json) {
    Printable(x) && Proper(x) && FloatsKept(f, x)
  }

  /** The function reads readable values back, reads printable ASCII alike as text and as bytes, and yields
      only what can be printed. */
  ghost predicate ReadsBack(f: Source -> Option<Json>) {
    && (forall x :: Readable(f, x) ==> f(Text(Print(x))) == Some(x))
    && (forall t :: Visible(t) ==> f(Bytes(AsciiBytes(t))) == f(Text(t)))
    && (forall src :: f(src).Some? ==> Printable(f(src).value))
  }

  /** json.loads; None stands for a ValueError. */
  type Loads = f: Source -> Option<Json> | ReadsBack(f) witness (TheReaderReadsBack(); TheReader)

  /** There is such a function. */
  lemma TheReaderReadsBack()
    ensures ReadsBack(TheReader)
  {
    forall x | Readable(TheReader, x) ensures TheReader(Text(Print(x))) == Some(x) {
      TextReadBack(x);
    }
    forall t | Visible(t) ensures TheReader(Bytes(AsciiBytes(t))) == TheReader(Text(t)) {
      CharsOfBytes(t);
    }
  }

  /** What is printed and turned into bytes is read back. */
  lemma BytesReadBack(loads: Loads, x: Json)
    requires Readable(loads, x)
    ensures loads(Bytes(AsciiBytes(Print(x)))) == Some(x)
  {
    PrintVisible(x);
  }
}
