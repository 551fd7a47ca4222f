/** Running a step function over a list. */
module Folding {

  /** The state after the first k steps. */
  function Fold<S, A>(step: (S, A) -> S, x: S, steps: seq<A>, k: nat): (y: S)
    requires k <= |steps|
    decreases k
  {
    if k == 0 then x else step(Fold(step, x, steps, k - 1), steps[k - 1])
  }

  lemma {:induction false} FoldPrefix<S, A>(step: (S, A) -> S, x: S, steps: seq<A>, more: seq<A>, k: nat)
    requires k <= |steps|
    ensures Fold(step, x, steps + more, k) == Fold(step, x, steps, k)
    decreases k
  {
    if k > 0 {
      FoldPrefix(step, x, steps, more, k - 1);
    }
  }

  lemma FoldMore<S, A>(step: (S, A) -> S, x: S, steps: seq<A>, a: A)
    ensures Fold(step, x, steps + [a], |steps| + 1) == step(Fold(step, x, steps, |steps|), a)
  {
    FoldPrefix(step, x, steps, [a], |steps|);
  }

  /** Going on is starting from where the run stood. */
  lemma {:induction false} FoldJoin<S, A>(step: (S, A) -> S, x: S, steps: seq<A>, more: seq<A>, k: nat)
    requires k <= |more|
    ensures Fold(step, x, steps + more, |steps| + k) == Fold(step, Fold(step, x, steps, |steps|), more, k)
    decreases k
  {
    if k == 0 {
      FoldPrefix(step, x, steps, more, |steps|);
    } else {
      FoldJoin(step, x, steps, more, k - 1);
      assert (steps + more)[|steps| + k - 1] == more[k - 1];
    }
  }
}
