/** Redaction of the string leaves of outbound tool arguments. */
module RedactArgs {
  import opened Json
  import opened Dlp

  /** The argument tree with every string leaf sanitized. */
  function Redacted(find: Finder, x: Json): (y: Json)
    decreases x
  {
    match x
    case Str(s) => Str(Sanitized(find, s))
    case Obj(fields) => Obj(RedactedFields(find, fields))
    case Arr(elems) => Arr(RedactedElems(find, elems))
    case _ => x
  }

  function RedactedFields(find: Finder, fs: seq<Field>): (gs: seq<Field>)
    decreases fs
  {
    if fs == [] then [] else [Field(fs[0].key, Redacted(find, fs[0].value))] + RedactedFields(find, fs[1..])
  }

  function RedactedElems(find: Finder, xs: seq<Json>): (ys: seq<Json>)
    decreases xs
  {
    if xs == [] then [] else [Redacted(find, xs[0])] + RedactedElems(find, xs[1..])
  }

  /** The string leaves in traversal order. */
  function Leaves(x: Json): (ls: seq<string>)
    decreases x
  {
    match x
    case Str(s) => [s]
    case Obj(fields) => LeavesOfFields(fields)
    case Arr(elems) => LeavesOfElems(elems)
    case _ => []
  }

  function LeavesOfFields(fs: seq<Field>): (ls: seq<string>)
    decreases fs
  {
    if fs == [] then [] else Leaves(fs[0].value) + LeavesOfFields(fs[1..])
  }

  function LeavesOfElems(xs: seq<Json>): (ls: seq<string>)
    decreases xs
  {
    if xs == [] then [] else Leaves(xs[0]) + LeavesOfElems(xs[1..])
  }

  function FlatMap<T>(g: string -> seq<T>, ls: seq<string>): (r: seq<T>) {
    if ls == [] then [] else g(ls[0]) + FlatMap(g, ls[1..])
  }

  lemma Regroup<T>(a: seq<T>, b: seq<T>, c: seq<T>)
    ensures (a + b) + c == a + (b + c)
  {
  }

  lemma FlatMapCons<T>(g: string -> seq<T>, l: string, ls: seq<string>)
    ensures FlatMap(g, [l] + ls) == g(l) + FlatMap(g, ls)
  {
    assert ([l] + ls)[1..] == ls;
  }

  lemma {:induction false} FlatMapAppend<T>(g: string -> seq<T>, a: seq<string>, b: seq<string>)
    ensures FlatMap(g, a + b) == FlatMap(g, a) + FlatMap(g, b)
  {
    if a == [] {
      assert a + b == b;
    } else {
      FlatMapAppend(g, a[1..], b);
      FlatMapCons(g, a[0], a[1..] + b);
      Regroup([a[0]], a[1..], b);
      assert [a[0]] + a[1..] == a;
      Regroup(g(a[0]), FlatMap(g, a[1..]), FlatMap(g, b));
    }
  }

  lemma FlatMapSingle<T>(g: string -> seq<T>, l: string)
    ensures FlatMap(g, [l]) == g(l)
  {
    assert [l][1..] == [];
  }

  function Finds(find: Finder): (g: string -> seq<Finding>) {
    s => SanitizeFindings(find, s)
  }

  function Cleans(find: Finder): (g: string -> seq<string>) {
    s => [Sanitized(find, s)]
  }

  /** The findings of a list of leaves, one leaf after the other. */
  function FindingsOf(find: Finder, ls: seq<string>): (fs: seq<Finding>) {
    FlatMap(Finds(find), ls)
  }

  /** sanitize on each leaf of a list. */
  function SanitizedAll(find: Finder, ls: seq<string>): (ms: seq<string>) {
    FlatMap(Cleans(find), ls)
  }

  // ---------- the traversal ----------

  lemma FoundMore(find: Finder, found: seq<Finding>, a: seq<string>, b: seq<string>)
    ensures found + FindingsOf(find, a) + FindingsOf(find, b) == found + FindingsOf(find, a + b)
  {
    FlatMapAppend(Finds(find), a, b);
    Regroup(found, FindingsOf(find, a), FindingsOf(find, b));
  }

  /** What a string leaf contributes. */
  lemma LeafFound(find: Finder, s: string)
    ensures Redacted(find, Str(s)) == Str(Sanitized(find, s))
    ensures FindingsOf(find, Leaves(Str(s))) == SanitizeFindings(find, s)
  {
    FlatMapSingle(Finds(find), s);
  }

  /** A value that holds no string contributes nothing. */
  lemma NothingFound(find: Finder, x: Json, found: seq<Finding>)
    requires !x.Str? && !x.Obj? && !x.Arr?
    ensures Redacted(find, x) == x && found + FindingsOf(find, Leaves(x)) == found
  {
  }

  /** Sanitizes a tree and adds what it finds, in traversal order, to `found`. */
  method Traverse(find: Finder, x: Json, found: seq<Finding>) returns (y: Json, found': seq<Finding>)
    ensures y == Redacted(find, x)
    ensures found' == found + FindingsOf(find, Leaves(x))
    decreases x
  {
    if x.Str? {
      y, found' := TraverseLeaf(find, x.s, found);
    } else if x.Obj? {
      var gs;
      gs, found' := TraverseFields(find, x.fields, found);
      y := Obj(gs);
    } else if x.Arr? {
      var ys;
      ys, found' := TraverseElems(find, x.elems, found);
      y := Arr(ys);
    } else {
      y, found' := x, found;
      NothingFound(find, x, found);
    }
  }

  method TraverseLeaf(find: Finder, s: string, found: seq<Finding>) returns (y: Json, found': seq<Finding>)
    ensures y == Redacted(find, Str(s))
    ensures found' == found + FindingsOf(find, Leaves(Str(s)))
  {
    var clean, f := Sanitize(find, s);
    LeafFound(find, s);
    y, found' := Str(clean), found + f;
  }

  method TraverseFields(find: Finder, fs: seq<Field>, found: seq<Finding>)
    returns (gs: seq<Field>, found': seq<Finding>)
    ensures gs == RedactedFields(find, fs)
    ensures found' == found + FindingsOf(find, LeavesOfFields(fs))
    decreases fs
  {
    if fs == [] {
      return [], found;
    }
    var y, rest;
    y, found' := Traverse(find, fs[0].value, found);
    rest, found' := TraverseFields(find, fs[1..], found');
    gs := [Field(fs[0].key, y)] + rest;
    FoundMore(find, found, Leaves(fs[0].value), LeavesOfFields(fs[1..]));
  }

  method TraverseElems(find: Finder, xs: seq<Json>, found: seq<Finding>) returns (ys: seq<Json>, found': seq<Finding>)
    ensures ys == RedactedElems(find, xs)
    ensures found' == found + FindingsOf(find, LeavesOfElems(xs))
    decreases xs
  {
    if xs == [] {
      return [], found;
    }
    var y, rest;
    y, found' := Traverse(find, xs[0], found);
    rest, found' := TraverseElems(find, xs[1..], found');
    ys := [y] + rest;
    FoundMore(find, found, Leaves(xs[0]), LeavesOfElems(xs[1..]));
  }

  method RedactArguments(find: Finder, args: Json) returns (redacted: Json, findings: seq<Finding>)
    ensures redacted == Redacted(find, args)
    ensures findings == FindingsOf(find, Leaves(args))
  {
    redacted, findings := Traverse(find, args, []);
  }

  // ---------- what the traversal keeps ----------

  /** The tree with its strings blanked: its shape, its keys and its other leaves. */
  function Skeleton(x: Json): (y: Json)
    decreases x
  {
    match x
    case Str(_) => Str("")
    case Obj(fields) => Obj(SkeletonFields(fields))
    case Arr(elems) => Arr(SkeletonElems(elems))
    case _ => x
  }

  function SkeletonFields(fs: seq<Field>): (gs: seq<Field>)
    decreases fs
  {
    if fs == [] then [] else [Field(fs[0].key, Skeleton(fs[0].value))] + SkeletonFields(fs[1..])
  }

  function SkeletonElems(xs: seq<Json>): (ys: seq<Json>)
    decreases xs
  {
    if xs == [] then [] else [Skeleton(xs[0])] + SkeletonElems(xs[1..])
  }

  /** Redaction keeps the skeleton and maps sanitize over the leaves. */
  lemma {:induction false} RedactionLeafwise(find: Finder, x: Json)
    ensures Skeleton(Redacted(find, x)) == Skeleton(x)
    ensures Leaves(Redacted(find, x)) == SanitizedAll(find, Leaves(x))
    decreases x, 1
  {
    match x
    case Str(s) => FlatMapSingle(Cleans(find), s);
    case Obj(fields) => FieldsLeafwise(find, fields);
    case Arr(elems) => ElemsLeafwise(find, elems);
    case _ =>
  }

  lemma {:induction false} FieldsLeafwise(find: Finder, fs: seq<Field>)
    ensures SkeletonFields(RedactedFields(find, fs)) == SkeletonFields(fs)
    ensures LeavesOfFields(RedactedFields(find, fs)) == SanitizedAll(find, LeavesOfFields(fs))
    decreases fs, 0
  {
    if fs != [] {
      RedactionLeafwise(find, fs[0].value);
      FieldsLeafwise(find, fs[1..]);
      assert RedactedFields(find, fs)[1..] == RedactedFields(find, fs[1..]);
      FlatMapAppend(Cleans(find), Leaves(fs[0].value), LeavesOfFields(fs[1..]));
    }
  }

  lemma {:induction false} ElemsLeafwise(find: Finder, xs: seq<Json>)
    ensures SkeletonElems(RedactedElems(find, xs)) == SkeletonElems(xs)
    ensures LeavesOfElems(RedactedElems(find, xs)) == SanitizedAll(find, LeavesOfElems(xs))
    decreases xs, 0
  {
    if xs != [] {
      RedactionLeafwise(find, xs[0]);
      ElemsLeafwise(find, xs[1..]);
      assert RedactedElems(find, xs)[1..] == RedactedElems(find, xs[1..]);
      FlatMapAppend(Cleans(find), Leaves(xs[0]), LeavesOfElems(xs[1..]));
    }
  }

  lemma {:induction false} SameLeafCount(x: Json, y: Json)
    requires Skeleton(x) == Skeleton(y)
    ensures |Leaves(x)| == |Leaves(y)|
    decreases x, 1
  {
    match x
    case Obj(fields) => SameLeafCountFields(fields, y.fields);
    case Arr(elems) => SameLeafCountElems(elems, y.elems);
    case _ =>
  }

  lemma {:induction false} SameLeafCountFields(fs: seq<Field>, gs: seq<Field>)
    requires SkeletonFields(fs) == SkeletonFields(gs)
    ensures |LeavesOfFields(fs)| == |LeavesOfFields(gs)|
    decreases fs, 0
  {
    if fs != [] {
      assert SkeletonFields(fs)[0] == SkeletonFields(gs)[0];
      assert SkeletonFields(fs)[1..] == SkeletonFields(fs[1..]) && SkeletonFields(gs)[1..] == SkeletonFields(gs[1..]);
      SameLeafCount(fs[0].value, gs[0].value);
      SameLeafCountFields(fs[1..], gs[1..]);
    }
  }

  lemma {:induction false} SameLeafCountElems(xs: seq<Json>, ys: seq<Json>)
    requires SkeletonElems(xs) == SkeletonElems(ys)
    ensures |LeavesOfElems(xs)| == |LeavesOfElems(ys)|
    decreases xs, 0
  {
    if xs != [] {
      assert SkeletonElems(xs)[0] == SkeletonElems(ys)[0];
      assert SkeletonElems(xs)[1..] == SkeletonElems(xs[1..]) && SkeletonElems(ys)[1..] == SkeletonElems(ys[1..]);
      SameLeafCount(xs[0], ys[0]);
      SameLeafCountElems(xs[1..], ys[1..]);
    }
  }

  /** A tree is determined by its skeleton and its leaves, so the two facts of RedactionLeafwise
      say all there is to say about the redacted tree. */
  lemma {:induction false} TreeDetermined(x: Json, y: Json)
    requires Skeleton(x) == Skeleton(y) && Leaves(x) == Leaves(y)
    ensures x == y
    decreases x, 1
  {
    match x
    case Str(s) => assert Leaves(x)[0] == Leaves(y)[0];
    case Obj(fields) => FieldsDetermined(fields, y.fields);
    case Arr(elems) => ElemsDetermined(elems, y.elems);
    case _ =>
  }

  lemma SplitLists(a: seq<string>, b: seq<string>, c: seq<string>, d: seq<string>)
    requires a + b == c + d && |a| == |c|
    ensures a == c && b == d
  {
    assert a == (a + b)[..|a|] && c == (c + d)[..|c|];
    assert b == (a + b)[|a|..] && d == (c + d)[|c|..];
  }

  lemma {:induction false} FieldsDetermined(fs: seq<Field>, gs: seq<Field>)
    requires SkeletonFields(fs) == SkeletonFields(gs) && LeavesOfFields(fs) == LeavesOfFields(gs)
    ensures fs == gs
    decreases fs, 0
  {
    if fs != [] {
      assert SkeletonFields(fs)[0] == SkeletonFields(gs)[0];
      assert SkeletonFields(fs)[1..] == SkeletonFields(fs[1..]) && SkeletonFields(gs)[1..] == SkeletonFields(gs[1..]);
      SameLeafCount(fs[0].value, gs[0].value);
      SplitLists(Leaves(fs[0].value), LeavesOfFields(fs[1..]), Leaves(gs[0].value), LeavesOfFields(gs[1..]));
      TreeDetermined(fs[0].value, gs[0].value);
      FieldsDetermined(fs[1..], gs[1..]);
      assert fs == [fs[0]] + fs[1..] && gs == [gs[0]] + gs[1..];
    }
  }

  lemma {:induction false} ElemsDetermined(xs: seq<Json>, ys: seq<Json>)
    requires SkeletonElems(xs) == SkeletonElems(ys) && LeavesOfElems(xs) == LeavesOfElems(ys)
    ensures xs == ys
    decreases xs, 0
  {
    if xs != [] {
      assert SkeletonElems(xs)[0] == SkeletonElems(ys)[0];
      assert SkeletonElems(xs)[1..] == SkeletonElems(xs[1..]) && SkeletonElems(ys)[1..] == SkeletonElems(ys[1..]);
      SameLeafCount(xs[0], ys[0]);
      SplitLists(Leaves(xs[0]), LeavesOfElems(xs[1..]), Leaves(ys[0]), LeavesOfElems(ys[1..]));
      TreeDetermined(xs[0], ys[0]);
      ElemsDetermined(xs[1..], ys[1..]);
      assert xs == [xs[0]] + xs[1..] && ys == [ys[0]] + ys[1..];
    }
  }

  lemma {:induction false} FlatMapEmpty<T>(g: string -> seq<T>, ls: seq<string>)
    ensures FlatMap(g, ls) == [] <==> forall i :: 0 <= i < |ls| ==> g(ls[i]) == []
  {
    if ls != [] {
      FlatMapEmpty(g, ls[1..]);
      assert forall i :: 0 <= i < |ls[1..]| ==> ls[1..][i] == ls[i + 1];
      assert (forall i :: 0 <= i < |ls| ==> g(ls[i]) == [])
        <==> g(ls[0]) == [] && forall i :: 0 <= i < |ls[1..]| ==> g(ls[1..][i]) == [];
    }
  }

  lemma {:induction false} FlatMapSame(g: string -> seq<string>, ls: seq<string>)
    requires forall i :: 0 <= i < |ls| ==> g(ls[i]) == [ls[i]]
    ensures FlatMap(g, ls) == ls
  {
    if ls != [] {
      FlatMapSame(g, ls[1..]);
      assert ls == [ls[0]] + ls[1..];
    }
  }

  /** No findings exactly when no leaf has a match, and then sanitizing changes no leaf. */
  lemma NoFindingsAnywhere(find: Finder, ls: seq<string>)
    ensures FindingsOf(find, ls) == [] <==> forall i :: 0 <= i < |ls| ==> find(ls[i]) == []
    ensures FindingsOf(find, ls) == [] ==> SanitizedAll(find, ls) == ls
  {
    FlatMapEmpty(Finds(find), ls);
    forall i | 0 <= i < |ls|
      ensures Finds(find)(ls[i]) == [] <==> find(ls[i]) == []
      ensures find(ls[i]) == [] ==> Cleans(find)(ls[i]) == [ls[i]]
    {
      CleanText(find, ls[i]);
    }
    if FindingsOf(find, ls) == [] {
      FlatMapSame(Cleans(find), ls);
    }
  }

  /** Findings are empty exactly when no string leaf has a match, and then the tree is unchanged. */
  lemma CleanTree(find: Finder, x: Json)
    ensures FindingsOf(find, Leaves(x)) == [] <==> forall i :: 0 <= i < |Leaves(x)| ==> find(Leaves(x)[i]) == []
    ensures FindingsOf(find, Leaves(x)) == [] ==> Redacted(find, x) == x
  {
    NoFindingsAnywhere(find, Leaves(x));
    if FindingsOf(find, Leaves(x)) == [] {
      RedactionLeafwise(find, x);
      TreeDetermined(Redacted(find, x), x);
    }
  }
}
