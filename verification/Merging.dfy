/** Adding up the histograms that threads record separately. */
module Merging {
  import opened CycleSearch

  /** What the final merge adds up. */
  ghost function Merged(locals: seq<Histogram>): Histogram {
    if locals == [] then multiset{} else Merged(locals[..|locals| - 1]) + locals[|locals| - 1]
  }

  lemma {:induction false} MergedUpdate(locals: seq<Histogram>, thread: nat, h: Histogram)
    requires thread < |locals|
    ensures Merged(locals[thread := locals[thread] + h]) == Merged(locals) + h
  {
    var last, more := |locals| - 1, locals[thread := locals[thread] + h];
    if thread < last {
      MergedUpdate(locals[..last], thread, h);
      assert more[..last] == locals[..last][thread := locals[..last][thread] + h];
    } else {
      assert more[..last] == locals[..last];
    }
  }

  lemma {:induction false} MergedEmpty(n: nat)
    ensures Merged(seq(n, _ => multiset{})) == multiset{}
  {
    if n > 0 {
      MergedEmpty(n - 1);
      assert seq<Histogram>(n, _ => multiset{})[..n - 1] == seq<Histogram>(n - 1, _ => multiset{});
    }
  }
}
