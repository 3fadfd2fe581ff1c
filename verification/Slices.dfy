/** Threads that keep their stacks in slices of shared arrays. */
module Slices {

  /** Entries outside the thread's slice keep their values. */
  ghost predicate Outside<T(!new)>(before: seq<T>, after: seq<T>, base: nat, limit: nat) {
    |before| == |after| && forall i :: 0 <= i < |before| && !(base <= i < base + limit) ==> after[i] == before[i]
  }

  lemma OutsideTwice<T(!new)>(a: seq<T>, b: seq<T>, c: seq<T>, base: nat, limit: nat)
    requires Outside(a, b, base, limit) && Outside(b, c, base, limit)
    ensures Outside(a, c, base, limit)
  {
  }

  lemma OutsideUpdate<T(!new)>(a: seq<T>, base: nat, limit: nat, i: nat, x: T)
    requires base <= i < base + limit && i < |a|
    ensures Outside(a, a, base, limit) && Outside(a, a[i := x], base, limit)
  {
  }

  /** Slice `i` of `n` slices of the given size fits. */
  lemma {:induction false} SliceFits(i: nat, n: nat, size: nat)
    requires i < n
    ensures i * size + size <= n * size
    decreases n
  {
    assert n * size == (n - 1) * size + size;
    if i < n - 1 {
      SliceFits(i, n - 1, size);
    }
  }

  /** Slices of different threads have no entry in common. */
  lemma SlicesApart(i: nat, j: nat, size: nat)
    requires i != j
    ensures i * size + size <= j * size || j * size + size <= i * size
  {
    if i < j {
      SliceFits(i, j, size);
    } else {
      SliceFits(j, i, size);
    }
  }

  /** So what thread `i` writes in its slice leaves the slice of thread `j` as it was. */
  lemma OtherSlice<T(!new)>(before: seq<T>, after: seq<T>, i: nat, j: nat, size: nat, depth: nat)
    requires Outside(before, after, i * size, size) && i != j && depth <= size && j * size + depth <= |before|
    ensures |after| == |before| && after[j * size..j * size + depth] == before[j * size..j * size + depth]
  {
    SlicesApart(i, j, size);
    var from, to := j * size, j * size + depth;
    forall k | 0 <= k < depth ensures after[from..to][k] == before[from..to][k] {}
  }

  /** The entries from `base` on replaced by `x`. */
  ghost function Put<T>(a: seq<T>, base: nat, x: seq<T>): seq<T> {
    seq(|a|, k requires 0 <= k < |a| => if base <= k < base + |x| then x[k - base] else a[k])
  }

  lemma PutHolds<T(!new)>(a: seq<T>, base: nat, x: seq<T>, limit: nat)
    requires |x| <= limit && base + limit <= |a|
    ensures |Put(a, base, x)| == |a| && Put(a, base, x)[base..base + |x|] == x
    ensures forall d :: 0 <= d < |x| ==> Put(a, base, x)[base + d] == x[d]
    ensures Outside(a, Put(a, base, x), base, limit) && Outside(a, a, base, limit)
  {
    forall d | 0 <= d < |x| ensures Put(a, base, x)[base + d] == x[d] {}
  }
}
