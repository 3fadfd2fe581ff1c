/** Cutting a histogram at the length cap: a capped search against the uncapped one. */
module Clipping {
  import opened CsrGraphs
  import opened CycleSearch

  /** The bins within the cap. */
  ghost function Clip(h: Histogram, cap: Option<nat>): (r: Histogram)
    ensures forall k :: r[k] == if WithinCap(cap, k) then h[k] else 0
  {
    if h == multiset{} then multiset{}
    else
      var k :| k in h;
      Clip(h - multiset{k}, cap) + if WithinCap(cap, k) then multiset{k} else multiset{}
  }

  lemma ClipSum(a: Histogram, b: Histogram, cap: Option<nat>)
    ensures Clip(a + b, cap) == Clip(a, cap) + Clip(b, cap)
  {
    hide Clip;
  }

  function Uncapped(s: Search): Search {
    s.(cap := None)
  }

  /** A bounded search records the unbounded histogram within the cap. */
  lemma {:induction false} BoundedIsClipped(s: Search, p: seq<nat>, slot: nat)
    requires AtSlot(s, p, slot) && WithinCap(s.cap, |p|)
    ensures AtSlot(Uncapped(s), p, slot) && Owed(s, p, slot) == Clip(Owed(Uncapped(s), p, slot), s.cap)
    decreases s.Free(p), s.Limit(p) - slot
  {
    hide Clip, Owed, Branch;
    RowStarts(s, p);
    RowStarts(Uncapped(s), p);
    if slot < s.Limit(p) {
      RowGoesOn(s, p, slot);
      RowGoesOn(Uncapped(s), p, slot);
      BranchIsClipped(s, p, slot);
      BoundedIsClipped(s, p, slot + 1);
      ClipSum(Branch(Uncapped(s), p, slot), Owed(Uncapped(s), p, slot + 1), s.cap);
    }
  }

  lemma {:induction false} BranchIsClipped(s: Search, p: seq<nat>, slot: nat)
    requires AtSlot(s, p, slot) && slot < s.Limit(p) && WithinCap(s.cap, |p|)
    ensures AtSlot(Uncapped(s), p, slot) && Branch(s, p, slot) == Clip(Branch(Uncapped(s), p, slot), s.cap)
    decreases s.Free(p), s.Limit(p) - slot, 0
  {
    hide Clip;
    var u, next := Uncapped(s), s.g.targets[slot];
    assert u.Takes(u.Last(p), slot) == s.Takes(s.Last(p), slot);
    if s.Takes(s.Last(p), slot) && !(next == s.root && |p| >= 2) && next !in p {
      assert next in s.Free(p) && next !in s.Free(p + [next]);
      assert u.Free(p) == s.Free(p);
      if s.MayGrow(|p|) {
        BoundedIsClipped(s, p + [next], s.g.Begin(next));
      } else {
        forall k | k in Branch(u, p, slot) ensures !WithinCap(s.cap, k) {
          OwedBounds(u, p + [next], s.g.Begin(next), k);
        }
      }
    }
  }
}
