/** Stable sorting, and what makes a stable sort the only one of its kind. */
module Sorting {

  ghost predicate TotalPreorder<T(!new)>(le: (T, T) -> bool) {
    && (forall x, y :: le(x, y) || le(y, x))
    && (forall x, y, z :: le(x, y) && le(y, z) ==> le(x, z))
  }

  ghost predicate Sorted<T(!new)>(le: (T, T) -> bool, xs: seq<T>) {
    forall i, j :: 0 <= i < j < |xs| ==> le(xs[i], xs[j])
  }

  /** The elements of xs that le cannot tell from y, in their order. */
  function Ties<T>(le: (T, T) -> bool, y: T, xs: seq<T>): (r: seq<T>)
  {
    if xs == [] then []
    else if le(xs[0], y) && le(y, xs[0]) then [xs[0]] + Ties(le, y, xs[1..])
    else Ties(le, y, xs[1..])
  }

  /** ys is xs rearranged, with tied elements left in their order. */
  ghost predicate StableRearrangement<T(!new)>(le: (T, T) -> bool, xs: seq<T>, ys: seq<T>) {
    forall y :: Ties(le, y, ys) == Ties(le, y, xs)
  }

  function Insert<T>(le: (T, T) -> bool, x: T, ys: seq<T>): (r: seq<T>)
    ensures multiset(r) == multiset{x} + multiset(ys)
  {
    if ys == [] || le(x, ys[0]) then [x] + ys
    else
      assert ys == [ys[0]] + ys[1..];
      [ys[0]] + Insert(le, x, ys[1..])
  }

  function Sort<T>(le: (T, T) -> bool, xs: seq<T>): (r: seq<T>)
    ensures multiset(r) == multiset(xs)
  {
    if xs == [] then []
    else
      assert xs == [xs[0]] + xs[1..];
      Insert(le, xs[0], Sort(le, xs[1..]))
  }

  lemma SameElements<T>(xs: seq<T>, ys: seq<T>)
    requires multiset(xs) == multiset(ys)
    ensures |xs| == |ys|
    ensures forall x :: x in xs <==> x in ys
  {
    assert |xs| == |multiset(xs)| == |multiset(ys)| == |ys|;
    assert forall x :: x in xs <==> x in multiset(xs);
    assert forall x :: x in ys <==> x in multiset(ys);
  }

  lemma {:induction false} InsertSorted<T(!new)>(le: (T, T) -> bool, x: T, ys: seq<T>)
    requires TotalPreorder(le) && Sorted(le, ys)
    ensures Sorted(le, Insert(le, x, ys))
  {
    if ys == [] || le(x, ys[0]) {
    } else {
      InsertSorted(le, x, ys[1..]);
      var rest := Insert(le, x, ys[1..]);
      SameElements(rest, [x] + ys[1..]);
      forall z | z in rest ensures le(ys[0], z) {
        assert z == x || z in ys[1..];
      }
    }
  }

  lemma {:induction false} SortSorted<T(!new)>(le: (T, T) -> bool, xs: seq<T>)
    requires TotalPreorder(le)
    ensures Sorted(le, Sort(le, xs))
  {
    if xs == [] {
    } else {
      SortSorted(le, xs[1..]);
      InsertSorted(le, xs[0], Sort(le, xs[1..]));
    }
  }

  lemma {:induction false} InsertTies<T(!new)>(le: (T, T) -> bool, x: T, ys: seq<T>, y: T)
    requires TotalPreorder(le)
    ensures Ties(le, y, Insert(le, x, ys)) == Ties(le, y, [x] + ys)
  {
    assert ([x] + ys)[1..] == ys;
    if ys == [] || le(x, ys[0]) {
    } else {
      InsertTies(le, x, ys[1..], y);
      assert ([x] + ys[1..])[1..] == ys[1..];
      assert Insert(le, x, ys)[1..] == Insert(le, x, ys[1..]);
      // x and ys[0] are not tied, so at most one of them is tied with y.
    }
  }

  lemma {:induction false} SortTies<T(!new)>(le: (T, T) -> bool, xs: seq<T>, y: T)
    requires TotalPreorder(le)
    ensures Ties(le, y, Sort(le, xs)) == Ties(le, y, xs)
  {
    if xs == [] {
    } else {
      var rest := Sort(le, xs[1..]);
      SortTies(le, xs[1..], y);
      InsertTies(le, xs[0], rest, y);
      assert ([xs[0]] + rest)[1..] == rest;
    }
  }

  /** Sort is a stable sort ... */
  lemma SortStable<T(!new)>(le: (T, T) -> bool, xs: seq<T>)
    requires TotalPreorder(le)
    ensures Sorted(le, Sort(le, xs)) && StableRearrangement(le, xs, Sort(le, xs))
  {
    SortSorted(le, xs);
    forall y ensures Ties(le, y, Sort(le, xs)) == Ties(le, y, xs) {
      SortTies(le, xs, y);
    }
  }

  lemma {:induction false} TiesMembers<T(!new)>(le: (T, T) -> bool, y: T, xs: seq<T>)
    ensures forall x :: x in Ties(le, y, xs) <==> x in xs && le(x, y) && le(y, x)
  {
    if xs == [] {
    } else {
      TiesMembers(le, y, xs[1..]);
      assert forall x :: x in xs <==> x == xs[0] || x in xs[1..];
    }
  }

  /** ... and the only one: two sorted stable rearrangements of the same list are equal. */
  lemma {:induction false} StableSortUnique<T(!new)>(le: (T, T) -> bool, xs: seq<T>, ys: seq<T>)
    requires TotalPreorder(le) && Sorted(le, xs) && Sorted(le, ys)
    requires StableRearrangement(le, xs, ys)
    ensures xs == ys
  {
    NeitherEmpty(le, xs, ys);
    NeitherEmpty(le, ys, xs);
    if xs == [] {
    } else {
      HeadsTied(le, xs, ys);
      HeadsTied(le, ys, xs);
      assert Ties(le, xs[0], ys) == Ties(le, xs[0], xs);
      assert Ties(le, xs[0], xs)[0] == xs[0] && Ties(le, xs[0], ys)[0] == ys[0];
      forall y ensures Ties(le, y, ys[1..]) == Ties(le, y, xs[1..]) {
        assert Ties(le, y, ys) == Ties(le, y, xs);
        if le(xs[0], y) && le(y, xs[0]) {
          assert Ties(le, y, xs)[1..] == Ties(le, y, xs[1..]);
          assert Ties(le, y, ys)[1..] == Ties(le, y, ys[1..]);
        }
      }
      StableSortUnique(le, xs[1..], ys[1..]);
    }
  }

  lemma NeitherEmpty<T(!new)>(le: (T, T) -> bool, xs: seq<T>, ys: seq<T>)
    requires TotalPreorder(le) && StableRearrangement(le, xs, ys)
    ensures xs != [] ==> ys != []
  {
    if xs != [] {
      assert Ties(le, xs[0], ys) == Ties(le, xs[0], xs);
    }
  }

  lemma HeadsTied<T(!new)>(le: (T, T) -> bool, xs: seq<T>, ys: seq<T>)
    requires TotalPreorder(le) && Sorted(le, xs) && xs != [] && ys != []
    requires StableRearrangement(le, xs, ys)
    ensures le(xs[0], ys[0])
  {
    TiesMembers(le, ys[0], ys);
    TiesMembers(le, ys[0], xs);
    assert Ties(le, ys[0], ys) == Ties(le, ys[0], xs);
    assert ys[0] in Ties(le, ys[0], ys);
    var j :| 0 <= j < |xs| && xs[j] == ys[0];
  }

  ghost predicate Strict<T(!new)>(le: (T, T) -> bool, xs: seq<T>) {
    forall i, j :: 0 <= i < j < |xs| ==> le(xs[i], xs[j]) && !le(xs[j], xs[i])
  }

  ghost predicate Untied<T(!new)>(le: (T, T) -> bool, xs: seq<T>) {
    forall i, j :: 0 <= i < j < |xs| ==> !(le(xs[i], xs[j]) && le(xs[j], xs[i]))
  }

  lemma {:induction false} InsertStrict<T(!new)>(le: (T, T) -> bool, x: T, ys: seq<T>)
    requires TotalPreorder(le) && Strict(le, ys)
    requires forall z :: z in ys ==> !(le(x, z) && le(z, x))
    ensures Strict(le, Insert(le, x, ys))
  {
    if ys == [] || le(x, ys[0]) {
    } else {
      InsertStrict(le, x, ys[1..]);
      var rest := Insert(le, x, ys[1..]);
      SameElements(rest, [x] + ys[1..]);
      forall z | z in rest ensures le(ys[0], z) && !le(z, ys[0]) {
        assert z == x || z in ys[1..];
      }
    }
  }

  lemma {:induction false} SortStrict<T(!new)>(le: (T, T) -> bool, xs: seq<T>)
    requires TotalPreorder(le) && Untied(le, xs)
    ensures Strict(le, Sort(le, xs))
  {
    if xs == [] {
    } else {
      SortStrict(le, xs[1..]);
      var rest := Sort(le, xs[1..]);
      SameElements(rest, xs[1..]);
      InsertStrict(le, xs[0], rest);
    }
  }

  /** A strictly sorted list is determined by its elements. */
  lemma {:induction false} StrictUnique<T(!new)>(le: (T, T) -> bool, xs: seq<T>, ys: seq<T>)
    requires Strict(le, xs) && Strict(le, ys)
    requires forall x :: x in xs <==> x in ys
    ensures xs == ys
  {
    if ys != [] {
      assert ys[0] in ys;
    }
    if xs == [] {
    } else {
      assert xs[0] in ys && ys[0] in xs by {
        assert xs[0] in xs;
        assert ys[0] in ys;
      }
      assert xs[0] == ys[0];
      forall x ensures x in xs[1..] <==> x in ys[1..] {
        assert xs == [xs[0]] + xs[1..] && ys == [ys[0]] + ys[1..];
        assert x in xs <==> x in ys;
      }
      StrictUnique(le, xs[1..], ys[1..]);
    }
  }

  function Reverse<T>(xs: seq<T>): (r: seq<T>) {
    seq(|xs|, i requires 0 <= i < |xs| => xs[|xs| - 1 - i])
  }

  lemma {:induction false} ReverseElements<T>(xs: seq<T>)
    ensures multiset(Reverse(xs)) == multiset(xs)
  {
    if xs == [] {
    } else {
      ReverseElements(xs[1..]);
      ReverseStep(xs);
      assert xs == [xs[0]] + xs[1..];
    }
  }

  lemma ReverseStep<T>(xs: seq<T>)
    requires xs != []
    ensures Reverse(xs) == Reverse(xs[1..]) + [xs[0]]
  {
  }
}
