/**
 * Rotating a cycle: from the form anchored at an edge to the form rooted at the smallest vertex
 * and back.
 */
module Rotations {
  import opened CsrGraphs
  import opened CycleSets

  function Rotate(c: seq<nat>, k: nat): (d: seq<nat>)
    requires k <= |c|
    ensures |d| == |c|
  {
    c[k..] + c[..k]
  }

  /** The vertex after position `i`, around the cycle. */
  function After(c: seq<nat>, i: nat): nat
    requires i < |c|
  {
    if i + 1 < |c| then c[i + 1] else c[0]
  }

  ghost predicate UsesEdge(c: seq<nat>, e: Edge) {
    exists i :: 0 <= i < |c| && c[i] == e.source && After(c, i) == e.target
  }

  /** A position of the smallest vertex. */
  function MinIndex(c: seq<nat>): (k: nat)
    requires 0 < |c|
    ensures k < |c| && forall i :: 0 <= i < |c| ==> c[k] <= c[i]
  {
    if |c| == 1 then 0
    else
      var k := MinIndex(c[..|c| - 1]);
      assert forall i :: 0 <= i < |c| - 1 ==> c[..|c| - 1][i] == c[i];
      if c[|c| - 1] < c[k] then |c| - 1 else k
  }

  /** The form rooted at the smallest vertex. */
  function Canonical(c: seq<nat>): (d: seq<nat>)
    requires 0 < |c|
    ensures |d| == |c|
  {
    Rotate(c, MinIndex(c))
  }

  lemma RotateBack(c: seq<nat>, k: nat)
    requires k <= |c|
    ensures Rotate(Rotate(c, k), |c| - k) == c
  {
    var d := Rotate(c, k);
    assert d[|c| - k..] == c[..k] && d[..|c| - k] == c[k..];
  }

  /** Position `i` of the rotated cycle, in the original. */
  function Source(n: nat, k: nat, i: nat): (j: nat)
    requires k <= n && i < n
    ensures j < n
  {
    if i < n - k then i + k else i - (n - k)
  }

  lemma RotateAfter(c: seq<nat>, k: nat, i: nat)
    requires k <= |c| && i < |c|
    ensures Rotate(c, k)[i] == c[Source(|c|, k, i)] && After(Rotate(c, k), i) == After(c, Source(|c|, k, i))
  {
  }

  lemma RotateUses(c: seq<nat>, k: nat, e: Edge)
    requires k <= |c| && UsesEdge(c, e)
    ensures UsesEdge(Rotate(c, k), e)
  {
    var j :| 0 <= j < |c| && c[j] == e.source && After(c, j) == e.target;
    var i := if j < k then j + (|c| - k) else j - k;
    RotateAfter(c, k, i);
    assert Source(|c|, k, i) == j;
    assert Rotate(c, k)[i] == e.source;
  }

  /** A rotated cycle uses the same edges. */
  lemma RotateUsesSame(c: seq<nat>, k: nat, e: Edge)
    requires k <= |c|
    ensures UsesEdge(Rotate(c, k), e) <==> UsesEdge(c, e)
  {
    if UsesEdge(c, e) {
      RotateUses(c, k, e);
    }
    if UsesEdge(Rotate(c, k), e) {
      RotateBack(c, k);
      RotateUses(Rotate(c, k), |c| - k, e);
    }
  }

  /** A cycle is a list of distinct vertices all of whose edges are present. */
  lemma CycleByEdges(g: Csr, c: seq<nat>)
    requires g.Valid()
    ensures IsCycle(g, c) <==>
            && 2 <= |c|
            && (forall i :: 0 <= i < |c| ==> c[i] < g.Order())
            && (forall i, j :: 0 <= i < j < |c| ==> c[i] != c[j])
            && (forall i :: 0 <= i < |c| ==> g.HasEdge(Edge(c[i], After(c, i))))
  {
    if IsCycle(g, c) {
      forall i | 0 <= i < |c| ensures g.HasEdge(Edge(c[i], After(c, i))) {
        if i + 1 < |c| { assert g.HasEdge(Edge(c[i + 1 - 1], c[i + 1])); }
      }
    }
    if 2 <= |c| && forall i :: 0 <= i < |c| ==> g.HasEdge(Edge(c[i], After(c, i))) {
      forall i | 0 < i < |c| ensures g.HasEdge(Edge(c[i - 1], c[i])) {
        assert After(c, i - 1) == c[i];
      }
      assert After(c, |c| - 1) == c[0];
    }
  }

  /** A cycle stays a cycle under rotation. */
  lemma RotateCycle(g: Csr, c: seq<nat>, k: nat)
    requires g.Valid() && IsCycle(g, c) && k <= |c|
    ensures IsCycle(g, Rotate(c, k))
  {
    hide IsCycle, Csr.HasEdge, Csr.Valid, Rotate, After;
    var d := Rotate(c, k);
    CycleByEdges(g, c);
    CycleByEdges(g, d);
    forall i | 0 <= i < |d| ensures d[i] == c[Source(|c|, k, i)] && After(d, i) == After(c, Source(|c|, k, i)) {
      RotateAfter(c, k, i);
    }
    forall i | 0 <= i < |d| ensures g.HasEdge(Edge(d[i], After(d, i))) {
      assert g.HasEdge(Edge(c[Source(|c|, k, i)], After(c, Source(|c|, k, i))));
    }
  }

  ghost predicate Distinct(c: seq<nat>) {
    forall i, j :: 0 <= i < j < |c| ==> c[i] != c[j]
  }

  lemma CanonicalIsMinRooted(c: seq<nat>)
    requires 0 < |c| && Distinct(c)
    ensures MinRooted(Canonical(c))
  {
    var k, d := MinIndex(c), Canonical(c);
    forall i | 0 < i < |c| ensures d[0] < d[i] {
      assert d[i] == c[Source(|c|, k, i)] && d[0] == c[Source(|c|, k, 0)];
    }
  }

  /** Anchoring a min-rooted cycle and taking the canonical form gives it back. */
  lemma RotateNothing(c: seq<nat>)
    ensures Rotate(c, 0) == c
  {
  }

  lemma CanonicalOfRotation(c: seq<nat>, k: nat)
    requires MinRooted(c) && Distinct(c) && k < |c|
    ensures Canonical(Rotate(c, k)) == c
  {
    var d := Rotate(c, k);
    var m := MinIndex(d);
    RotateBack(c, k);
    var home := if k == 0 then 0 else |c| - k;
    RotateAfter(c, k, home);
    RotateAfter(c, k, m);
    hide Rotate, After, MinIndex;
    assert d[home] == c[0] && d[m] == c[Source(|c|, k, m)];
    assert Source(|c|, k, m) == 0 && m == home;
    if k == 0 {
      RotateNothing(c);
    }
  }

  lemma RotateDistinct(c: seq<nat>, k: nat)
    requires Distinct(c) && k <= |c|
    ensures Distinct(Rotate(c, k))
  {
    var d := Rotate(c, k);
    forall x, y | 0 <= x < y < |d| ensures d[x] != d[y] {
      RotateAfter(c, k, x);
      RotateAfter(c, k, y);
    }
  }

  /** Every cycle is a rotation of its canonical form. */
  lemma RotatedCanonical(a: seq<nat>) returns (k: nat)
    requires 0 < |a| && Distinct(a)
    ensures k < |a| && Rotate(Canonical(a), k) == a && Canonical(a)[k] == a[0]
    ensures Distinct(Canonical(a))
  {
    var i := MinIndex(a);
    RotateBack(a, i);
    RotateNothing(a);
    RotateDistinct(a, i);
    hide Rotate, After, MinIndex, Distinct;
    k := if i == 0 then 0 else |a| - i;
    RotateAfter(a, i, k);
  }

  /** Two cycles with the same first vertex and the same canonical form are the same. */
  lemma CanonicalInjective(a: seq<nat>, b: seq<nat>)
    requires 0 < |a| && 0 < |b| && Distinct(a) && Distinct(b) && a[0] == b[0]
    requires Canonical(a) == Canonical(b)
    ensures a == b
  {
    var j := RotatedCanonical(a);
    var k := RotatedCanonical(b);
    assert j == k;
  }

  /** The canonical forms of a set of cycles. */
  ghost function Canonicals(cycles: set<seq<nat>>): set<seq<nat>>
    requires [] !in cycles
  {
    set c | c in cycles :: Canonical(c)
  }

  /** Rotating the cycles of a set, all anchored at one vertex, keeps the histogram. */
  lemma {:induction false} CanonicalsKeepLengths(cycles: set<seq<nat>>, anchor: nat)
    requires forall c :: c in cycles ==> 0 < |c| && Distinct(c) && c[0] == anchor
    ensures Lengths(Canonicals(cycles)) == Lengths(cycles)
  {
    hide Canonical, Distinct, Lengths;
    if c :| c in cycles {
      var rest := cycles - {c};
      CanonicalsKeepLengths(rest, anchor);
      LengthsRemove(cycles, c);
      forall d | d in rest ensures Canonical(d) != Canonical(c) {
        if Canonical(d) == Canonical(c) { CanonicalInjective(d, c); }
      }
      assert Canonicals(cycles) == Canonicals(rest) + {Canonical(c)};
      LengthsRemove(Canonicals(cycles), Canonical(c));
      assert Canonicals(cycles) - {Canonical(c)} == Canonicals(rest);
    } else {
      assert cycles == {} && Canonicals(cycles) == cycles;
    }
  }
}
