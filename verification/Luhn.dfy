/** The card-number checksum of the DLP filter: the Luhn formula of Annex B of ISO/IEC 7812-1.
    A digit string is the sequence of the values int() gives its characters. */
module Luhn {

  type Digit = d: int | 0 <= d < 10

  /** The digit d as it is counted at distance i from the right end. */
  function Weighted(i: nat, d: Digit): (w: Digit)
  {
    if i % 2 == 0 then d else if 2 * d > 9 then 2 * d - 9 else 2 * d
  }

  /** The weighted total of ds when its last digit is at distance i from the right end. */
  function Total(ds: seq<Digit>, i: nat): (t: nat)
  {
    if ds == [] then 0 else Weighted(i, ds[|ds| - 1]) + Total(ds[..|ds| - 1], i + 1)
  }

  predicate Valid(ds: seq<Digit>) {
    Total(ds, 0) % 10 == 0
  }

  /** The formula as it is written down: from the right, each digit as it is, then the two digits of the
      double of the next one. */
  function Formula(ds: seq<Digit>): (t: nat) {
    if ds == [] then 0
    else if |ds| == 1 then ds[0]
    else
      var last: int, d: int := ds[|ds| - 1], ds[|ds| - 2];
      last + (2 * d / 10 + 2 * d % 10) + Formula(ds[..|ds| - 2])
  }

  lemma {:induction false} TotalIsFormula(ds: seq<Digit>, i: nat)
    requires i % 2 == 0
    ensures Total(ds, i) == Formula(ds)
    decreases |ds|
  {
    if |ds| == 1 {
      assert ds[..0] == [];
    } else if |ds| > 1 {
      var n := |ds|;
      assert ds[..n - 1][..n - 2] == ds[..n - 2] && ds[..n - 1][n - 2] == ds[n - 2];
      TotalIsFormula(ds[..n - 2], i + 2);
      DoubleDigits(i + 1, ds[n - 2]);
    }
  }

  lemma DoubleDigits(i: nat, d: Digit)
    requires i % 2 == 1
    ensures Weighted(i, d) == 2 * d / 10 + 2 * d % 10
  {
  }

  /** A string is valid exactly if the formula comes to a multiple of ten. */
  lemma ValidIffFormula(ds: seq<Digit>)
    ensures Valid(ds) <==> Formula(ds) % 10 == 0
  {
    TotalIsFormula(ds, 0);
  }

  method LuhnOk(digits: seq<Digit>) returns (ok: bool)
    ensures ok == Valid(digits)
  {
    var total := 0;
    assert digits[..|digits|] == digits;
    for i := 0 to |digits|
      invariant Total(digits, 0) == total + Total(digits[..|digits| - i], i)
    {
      var ch := digits[|digits| - 1 - i];
      assert digits[..|digits| - i][..|digits| - i - 1] == digits[..|digits| - (i + 1)];
      var d: int := ch;
      if i % 2 == 1 {
        d := d * 2;
        if d > 9 {
          d := d - 9;
        }
      }
      total := total + d;
    }
    assert digits[..0] == [];
    ok := total % 10 == 0;
  }

  /** Replacing one digit changes the total by the change in that digit's weighted value. */
  lemma {:induction false} TotalUpdate(ds: seq<Digit>, i: nat, k: nat, d: Digit)
    requires k < |ds|
    ensures Total(ds[k := d], i) - Total(ds, i)
         == Weighted(i + |ds| - 1 - k, d) - Weighted(i + |ds| - 1 - k, ds[k])
  {
    var n := |ds| - 1;
    if k == n {
      assert ds[k := d][..n] == ds[..n];
    } else {
      assert ds[k := d][..n] == ds[..n][k := d];
      TotalUpdate(ds[..n], i + 1, k, d);
    }
  }

  /** At any distance the weighted value of a digit determines the digit. */
  lemma WeightsDiffer(i: nat, d: Digit, e: Digit)
    ensures (Weighted(i, d) - Weighted(i, e)) % 10 == 0 <==> d == e
  {
    if i % 2 == 1 {
      assert Weighted(i, d) == if d > 4 then 2 * d - 9 else 2 * d;
      assert Weighted(i, e) == if e > 4 then 2 * e - 9 else 2 * e;
    }
  }

  /** No single wrong digit goes unnoticed: a valid string has no other valid string at distance one. */
  lemma SingleDigitErrorDetected(ds: seq<Digit>, k: nat, d: Digit)
    requires k < |ds| && Valid(ds)
    ensures Valid(ds[k := d]) <==> d == ds[k]
  {
    var i := |ds| - 1 - k;
    TotalUpdate(ds, 0, k, d);
    SameResidue(Total(ds, 0), Total(ds[k := d], 0), Weighted(i, d) - Weighted(i, ds[k]));
    WeightsDiffer(i, d, ds[k]);
  }

  /** How far swapping neighbours a and b (b at distance i) moves the total, modulo 10. */
  lemma SwappedWeights(i: nat, a: Digit, b: Digit)
    ensures (Weighted(i + 1, b) + Weighted(i, a) - Weighted(i + 1, a) - Weighted(i, b)) % 10 == 0
       <==> a == b || (a == 0 && b == 9) || (a == 9 && b == 0)
  {
    var shift := if 2 * a > 9 then a - 9 else a;
    var shift' := if 2 * b > 9 then b - 9 else b;
    assert -9 <= shift - shift' <= 9;
    assert (i + 1) % 2 == 1 - i % 2;
  }

  lemma SameResidue(x: int, y: int, z: int)
    requires x % 10 == 0 && y == x + z
    ensures y % 10 == 0 <==> z % 10 == 0
  {
  }

  /** Swapping two neighbours of a valid string goes unnoticed exactly for equal digits and for 09/90. */
  lemma AdjacentTranspositionDetected(ds: seq<Digit>, k: nat)
    requires k + 1 < |ds| && Valid(ds)
    ensures Valid(ds[k := ds[k + 1]][k + 1 := ds[k]])
       <==> ds[k] == ds[k + 1] || (ds[k] == 0 && ds[k + 1] == 9) || (ds[k] == 9 && ds[k + 1] == 0)
  {
    var once := ds[k := ds[k + 1]];
    TotalUpdate(ds, 0, k, ds[k + 1]);
    TotalUpdate(once, 0, k + 1, ds[k]);
    var i := |ds| - 2 - k;
    SwappedWeights(i, ds[k], ds[k + 1]);
    SameResidue(Total(ds, 0), Total(once[k + 1 := ds[k]], 0),
                Weighted(i + 1, ds[k + 1]) + Weighted(i, ds[k]) - Weighted(i + 1, ds[k]) - Weighted(i, ds[k + 1]));
  }

  /** The one digit that completes a prefix. */
  function CheckDigit(prefix: seq<Digit>): (c: Digit)
  {
    (10 - Total(prefix, 1) % 10) % 10
  }

  lemma CheckDigitUnique(prefix: seq<Digit>, c: Digit)
    ensures Valid(prefix + [c]) <==> c == CheckDigit(prefix)
  {
    assert (prefix + [c])[..|prefix|] == prefix;
    assert Total(prefix + [c], 0) == c + Total(prefix, 1);
  }
}
