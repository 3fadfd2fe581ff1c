/** Finite sums of natural numbers, for accounting across threads. */
module Sums {

  ghost function Sum(f: int -> nat, n: nat): nat {
    if n == 0 then 0 else Sum(f, n - 1) + f(n - 1)
  }

  lemma {:induction false} SumSame(f: int -> nat, g: int -> nat, n: nat)
    requires forall i :: 0 <= i < n ==> f(i) == g(i)
    ensures Sum(f, n) == Sum(g, n)
  {
    if n > 0 {
      SumSame(f, g, n - 1);
    }
  }

  /** Changing one summand changes the sum by the difference. */
  lemma {:induction false} SumChange(f: int -> nat, g: int -> nat, n: nat, at: nat)
    requires at < n && forall i :: 0 <= i < n && i != at ==> f(i) == g(i)
    ensures Sum(g, n) + f(at) == Sum(f, n) + g(at)
  {
    if at == n - 1 {
      SumSame(f, g, n - 1);
    } else {
      SumChange(f, g, n - 1, at);
    }
  }

  lemma {:induction false} SumZero(f: int -> nat, n: nat)
    requires forall i :: 0 <= i < n ==> f(i) == 0
    ensures Sum(f, n) == 0
  {
    if n > 0 {
      SumZero(f, n - 1);
    }
  }

  /** A strided walk meets each position of its lane once. */
  lemma StridesMeet(i: nat, k: nat, stride: nat)
    requires stride > 0 && i % stride == k % stride && i <= k < i + stride
    ensures k == i
  {
    var a, b := i / stride, k / stride;
    assert i == stride * a + i % stride && k == stride * b + k % stride;
    assert k - i == stride * (b - a);
    Multiple(stride, b - a);
  }

  lemma StrideKeepsLane(i: nat, stride: nat)
    requires stride > 0
    ensures (i + stride) % stride == i % stride
  {
    var a := i / stride;
    assert i + stride == stride * (a + 1) + i % stride;
    Residue(i + stride, a + 1, i % stride, stride);
  }

  lemma Residue(x: nat, q: nat, r: nat, stride: nat)
    requires stride > 0 && r < stride && x == stride * q + r
    ensures x % stride == r
  {
    var a := x / stride;
    assert x == stride * a + x % stride;
    assert stride * (q - a) == x % stride - r;
    Multiple(stride, q - a);
  }

  lemma Multiple(stride: nat, factor: int)
    requires stride > 0
    ensures factor >= 1 ==> stride * factor >= stride
    ensures factor <= -1 ==> stride * factor <= -(stride as int)
  {
    if factor <= -1 {
      assert stride * (-factor) >= stride;
      assert stride * factor == -(stride * (-factor));
    }
  }
}
