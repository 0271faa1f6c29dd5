/** Feeding a sequence to a machine one element at a time, and what does not
    depend on the machine: a stretch may be cut anywhere. */
module Folding {

  /** The state after the elements data[lo..hi]. */
  function Fold<S, T>(step: (S, T) -> S, s: S, data: seq<T>, lo: nat, hi: nat): S
    requires lo <= hi <= |data|
    decreases hi
  {
    if lo == hi then s else step(Fold(step, s, data, lo, hi - 1), data[hi - 1])
  }

  lemma {:induction false} FoldSplits<S, T>(step: (S, T) -> S, s: S, data: seq<T>, lo: nat, mid: nat, hi: nat)
    requires lo <= mid <= hi <= |data|
    ensures Fold(step, s, data, lo, hi) == Fold(step, Fold(step, s, data, lo, mid), data, mid, hi)
    decreases hi
  {
    if mid < hi {
      FoldSplits(step, s, data, lo, mid, hi - 1);
    }
  }

  /** Only the elements in the stretch matter. */
  lemma {:induction false} FoldLocal<S, T>(step: (S, T) -> S, s: S, a: seq<T>, i: nat, b: seq<T>, j: nat, n: nat)
    requires i + n <= |a| && j + n <= |b|
    requires a[i..i + n] == b[j..j + n]
    ensures Fold(step, s, a, i, i + n) == Fold(step, s, b, j, j + n)
    decreases n
  {
    if n > 0 {
      assert a[i..i + (n - 1)] == a[i..i + n][..n - 1] == b[j..j + (n - 1)];
      FoldLocal(step, s, a, i, b, j, n - 1);
      assert a[i..i + n][n - 1] == b[j..j + n][n - 1];
    }
  }

  function FoldAll<S, T>(step: (S, T) -> S, s: S, data: seq<T>): S {
    Fold(step, s, data, 0, |data|)
  }

  lemma {:induction false} FoldSlice<S, T>(step: (S, T) -> S, s: S, data: seq<T>, lo: nat, hi: nat)
    requires lo <= hi <= |data|
    ensures Fold(step, s, data, lo, hi) == FoldAll(step, s, data[lo..hi])
  {
    var w := data[lo..hi];
    assert w[0..0 + |w|] == data[lo..lo + |w|];
    FoldLocal(step, s, data, lo, w, 0, |w|);
  }

  lemma {:induction false} FoldConcat<S, T>(step: (S, T) -> S, s: S, a: seq<T>, b: seq<T>)
    ensures FoldAll(step, s, a + b) == FoldAll(step, FoldAll(step, s, a), b)
  {
    var ab := a + b;
    FoldSplits(step, s, ab, 0, |a|, |ab|);
    FoldSlice(step, s, ab, 0, |a|);
    assert ab[0..|a|] == a;
    FoldSlice(step, FoldAll(step, s, a), ab, |a|, |ab|);
    assert ab[|a|..|ab|] == b;
  }

  lemma {:induction false} FoldOne<S, T>(step: (S, T) -> S, s: S, x: T)
    ensures FoldAll(step, s, [x]) == step(s, x)
  {
    assert Fold(step, s, [x], 0, 0) == s;
  }

  /** A state no element leaves is never left. */
  lemma {:induction false} FoldStuck<S, T(!new)>(step: (S, T) -> S, s: S, data: seq<T>, lo: nat, hi: nat)
    requires lo <= hi <= |data|
    requires forall x :: step(s, x) == s
    ensures Fold(step, s, data, lo, hi) == s
    decreases hi
  {
    if lo < hi {
      FoldStuck(step, s, data, lo, hi - 1);
    }
  }
}
