/** The temporal total is the number of temporal cycles, each assignment of events counted once. */
module TemporalCycles {
  import opened CsrGraphs
  import opened StartEvents
  import opened TemporalSearch
  import opened TemporalTotals
  import opened TemporalSets
  import CycleSets
  import CycleSearch

  ghost predicate EventExists(times: seq<seq<int>>, h: Hop) {
    h.slot < |times| && h.event < |times[h.slot]|
  }

  function EventTime(times: seq<seq<int>>, h: Hop): int
    requires EventExists(times, h)
  {
    times[h.slot][h.event]
  }

  /** The next hop starts where the previous one ends, later. */
  ghost predicate Chained(g: Csr, times: seq<seq<int>>, a: Hop, b: Hop)
    requires Timed(g, times)
  {
    && EventExists(times, a) && EventExists(times, b)
    && g.InRow(g.targets[a.slot], b.slot) && EventTime(times, a) < EventTime(times, b)
  }

  ghost predicate EntersTwice(g: Csr, a: Hop, b: Hop) {
    a.slot < |g.targets| && b.slot < |g.targets| && g.targets[a.slot] == g.targets[b.slot]
  }

  /**
   * A temporal cycle: hops with strictly increasing timestamps, all within the window that opens with the
   * first, that return to their start.  No vertex from the third on occurred before; only when the first
   * hop is a self-loop it enters the vertex that the last one enters.
   */
  ghost predicate IsTemporalCycle(g: Csr, times: seq<seq<int>>, width: int, cap: Option<nat>, h: seq<Hop>)
    requires Timed(g, times)
  {
    && 2 <= |h| && CycleSearch.WithinCap(cap, |h|)
    && (forall i :: 0 <= i < |h| ==> EventExists(times, h[i]))
    && (forall i :: 0 < i < |h| ==> ChainedAt(g, times, h, i))
    && g.InRow(g.targets[h[|h| - 1].slot], h[0].slot)
    && EventTime(times, h[|h| - 1]) <= EventTime(times, h[0]) + width
    && (forall i, j :: 0 <= i < j < |h| && (0 < i || j < |h| - 1) ==> !EntersTwice(g, h[i], h[j]))
  }

  /** Without self-loops a temporal cycle enters no vertex twice. */
  lemma TemporalCyclesAreSimple(g: Csr, times: seq<seq<int>>, width: int, cap: Option<nat>, h: seq<Hop>)
    requires Timed(g, times) && g.LoopFree() && IsTemporalCycle(g, times, width, cap, h)
    ensures forall i, j :: 0 <= i < j < |h| ==> !EntersTwice(g, h[i], h[j])
  {
    assert !EntersTwice(g, h[0], h[|h| - 1]);
  }

  ghost predicate ChainedAt(g: Csr, times: seq<seq<int>>, h: seq<Hop>, i: nat)
    requires Timed(g, times) && 0 < i < |h|
    ensures ChainedAt(g, times, h, i) ==> EventExists(times, h[i - 1]) && EventExists(times, h[i])
  {
    Chained(g, times, h[i - 1], h[i])
  }

  /** The search of the start event `j` of a slot of `root`. */
  function StartSearch(g: Csr, times: seq<seq<int>>, width: int, cap: Option<nat>, root: nat, slot: nat, j: nat): Temporal
    requires slot < |times| && j < |times[slot]|
  {
    Temporal(g, times, root, times[slot][j] + width, cap)
  }

  /** Along a chain timestamps rise. */
  lemma {:induction false} TimesRise(g: Csr, times: seq<seq<int>>, h: seq<Hop>, i: nat, j: nat)
    requires Timed(g, times) && i <= j < |h|
    requires forall k :: 0 <= k < |h| ==> EventExists(times, h[k])
    requires forall k :: 0 < k < |h| ==> ChainedAt(g, times, h, k)
    ensures i < j ==> EventTime(times, h[i]) < EventTime(times, h[j])
    decreases j - i
  {
    if i < j {
      TimesRise(g, times, h, i, j - 1);
      assert ChainedAt(g, times, h, j);
    }
  }

  /** The completions of a start event are the temporal cycles that begin with it. */
  lemma StartCompletions(g: Csr, times: seq<seq<int>>, width: int, cap: Option<nat>, root: nat, slot: nat, j: nat, h: seq<Hop>)
    requires TimesSorted(g, times) && g.InRow(root, slot) && j < |times[slot]| && CycleSearch.WithinCap(cap, 2)
    ensures var s := StartSearch(g, times, width, cap, root, slot, j);
            s.Valid() && s.IsPath([root, g.targets[slot]]) &&
            (Completes(s, [root, g.targets[slot]], [Hop(slot, j)], times[slot][j], h) <==>
             IsTemporalCycle(g, times, width, cap, h) && h[0] == Hop(slot, j))
  {
    var s, first, t := StartSearch(g, times, width, cap, root, slot, j), g.targets[slot], times[slot][j];
    var p, q := [root, first], [Hop(slot, j)];
    if Completes(s, p, q, t, h) {
      CompletionIsCycle(g, times, width, cap, root, slot, j, h);
    }
    if IsTemporalCycle(g, times, width, cap, h) && h[0] == Hop(slot, j) {
      CycleIsCompletion(g, times, width, cap, root, slot, j, h);
    }
  }

  lemma CompletionIsCycle(g: Csr, times: seq<seq<int>>, width: int, cap: Option<nat>, root: nat, slot: nat, j: nat, h: seq<Hop>)
    requires TimesSorted(g, times) && g.InRow(root, slot) && j < |times[slot]| && CycleSearch.WithinCap(cap, 2)
    requires var s := StartSearch(g, times, width, cap, root, slot, j);
             s.Valid() && s.IsPath([root, g.targets[slot]]) &&
             Completes(s, [root, g.targets[slot]], [Hop(slot, j)], times[slot][j], h)
    ensures IsTemporalCycle(g, times, width, cap, h) && h[0] == Hop(slot, j)
  {
    var s, first := StartSearch(g, times, width, cap, root, slot, j), g.targets[slot];
    assert h[0] == [Hop(slot, j)][0];
    ContinuationIsChain(s, first, times[slot][j], h);
    ClosingEntersOnce(s, [root, first], h);
  }

  /** Hops that continue a path after `h[0]` form a chain inside the window. */
  lemma ContinuationIsChain(s: Temporal, first: nat, t: int, h: seq<Hop>)
    requires s.Valid() && |h| >= 2 && Continues(s, first, t, h, 1)
    requires HopExists(s, h[0]) && Enters(s, h[0]) == first && TimeOf(s, h[0]) == t
    ensures forall i :: 0 < i < |h| ==> ChainedAt(s.g, s.times, h, i) && EventTime(s.times, h[i]) <= s.windowEnd
  {
    forall i | 0 < i < |h| ensures ChainedAt(s.g, s.times, h, i) && EventTime(s.times, h[i]) <= s.windowEnd {
      if i > 1 { assert Follows(s, h, i); }
    }
  }

  /** Hops that only close at the end enter every vertex once. */
  lemma ClosingEntersOnce(s: Temporal, p: seq<nat>, h: seq<Hop>)
    requires s.Valid() && |h| >= 2 && ClosesSimply(s, p, h, 1) && s.root in p && HopExists(s, h[0]) && Enters(s, h[0]) in p
    ensures forall a, b :: 0 <= a < b < |h| && (0 < a || b < |h| - 1) ==> !EntersTwice(s.g, h[a], h[b])
  {
    forall a, b | 0 <= a < b < |h| && (0 < a || b < |h| - 1) ensures !EntersTwice(s.g, h[a], h[b]) {
      if b < |h| - 1 {
        assert Enters(s, h[b]) !in p;
      } else if a > 0 {
        assert Enters(s, h[a]) !in p;
      }
    }
  }

  lemma CycleIsCompletion(g: Csr, times: seq<seq<int>>, width: int, cap: Option<nat>, root: nat, slot: nat, j: nat, h: seq<Hop>)
    requires TimesSorted(g, times) && g.InRow(root, slot) && j < |times[slot]|
    requires IsTemporalCycle(g, times, width, cap, h) && h[0] == Hop(slot, j)
    ensures var s := StartSearch(g, times, width, cap, root, slot, j);
            s.Valid() && s.IsPath([root, g.targets[slot]]) &&
            Completes(s, [root, g.targets[slot]], [Hop(slot, j)], times[slot][j], h)
  {
    var s, first, last := StartSearch(g, times, width, cap, root, slot, j), g.targets[slot], |h| - 1;
    var p := [root, first];
    OneRow(g, root, g.targets[h[last].slot], slot);
    forall i | 0 < i < |h| ensures Leaves(s, g.targets[h[i - 1].slot], EventTime(times, h[i - 1]), h[i]) {
      assert ChainedAt(g, times, h, i);
      TimesRise(g, times, h, i, last);
    }
    forall i | 1 < i < |h| ensures Follows(s, h, i) {}
    forall i | 1 <= i < last ensures Enters(s, h[i]) !in p {
      assert !EntersTwice(g, h[0], h[i]) && !EntersTwice(g, h[i], h[last]);
    }
    forall a, b | 1 <= a < b < last ensures Enters(s, h[a]) != Enters(s, h[b]) {
      assert !EntersTwice(g, h[a], h[b]);
    }
    assert [Hop(slot, j)] <= h;
  }

  // ---- Summing over the start events ----

  /** The cycles that start with one of the first `n` events of a slot. */
  ghost function SlotCycles(g: Csr, times: seq<seq<int>>, width: int, cap: Option<nat>, root: nat, slot: nat, n: nat): set<seq<Hop>>
    requires TimesSorted(g, times) && g.InRow(root, slot) && n <= |times[slot]|
  {
    if n == 0 then {}
    else
      SlotCycles(g, times, width, cap, root, slot, n - 1) +
      Found(StartSearch(g, times, width, cap, root, slot, n - 1), [root, g.targets[slot]], [Hop(slot, n - 1)],
            times[slot][n - 1], g.Begin(g.targets[slot]))
  }

  /** The cycles that start in a slot of `root` before `limit`. */
  ghost function RowCycles(g: Csr, times: seq<seq<int>>, width: int, cap: Option<nat>, root: nat, limit: nat): set<seq<Hop>>
    requires TimesSorted(g, times) && root < g.Order() && g.Begin(root) <= limit <= g.End(root)
    decreases limit
  {
    if limit == g.Begin(root) then {}
    else
      RowCycles(g, times, width, cap, root, limit - 1) +
      SlotCycles(g, times, width, cap, root, limit - 1, |times[limit - 1]|)
  }

  /** The cycles that start at one of the first `n` vertices. */
  ghost function CyclesBefore(g: Csr, times: seq<seq<int>>, width: int, cap: Option<nat>, n: nat): set<seq<Hop>>
    requires TimesSorted(g, times) && n <= g.Order()
  {
    if n == 0 then {}
    else CyclesBefore(g, times, width, cap, n - 1) + RowCycles(g, times, width, cap, n - 1, g.End(n - 1))
  }

  ghost function AllTemporalCycles(g: Csr, times: seq<seq<int>>, width: int, cap: Option<nat>): set<seq<Hop>>
    requires TimesSorted(g, times)
  {
    CyclesBefore(g, times, width, cap, g.Order())
  }

  lemma {:induction false} SlotCyclesExactly(g: Csr, times: seq<seq<int>>, width: int, cap: Option<nat>,
                                             root: nat, slot: nat, n: nat, h: seq<Hop>)
    requires TimesSorted(g, times) && g.InRow(root, slot) && n <= |times[slot]| && CycleSearch.WithinCap(cap, 2)
    ensures h in SlotCycles(g, times, width, cap, root, slot, n) <==>
            IsTemporalCycle(g, times, width, cap, h) && h[0].slot == slot && h[0].event < n
  {
    if n > 0 {
      SlotCyclesExactly(g, times, width, cap, root, slot, n - 1, h);
      StartCompletions(g, times, width, cap, root, slot, n - 1, h);
      FoundExactly(StartSearch(g, times, width, cap, root, slot, n - 1), [root, g.targets[slot]], [Hop(slot, n - 1)],
                   times[slot][n - 1], h);
    }
  }

  lemma {:induction false} RowCyclesExactly(g: Csr, times: seq<seq<int>>, width: int, cap: Option<nat>,
                                            root: nat, limit: nat, h: seq<Hop>)
    requires TimesSorted(g, times) && root < g.Order() && g.Begin(root) <= limit <= g.End(root)
    requires CycleSearch.WithinCap(cap, 2)
    ensures h in RowCycles(g, times, width, cap, root, limit) <==>
            IsTemporalCycle(g, times, width, cap, h) && g.Begin(root) <= h[0].slot < limit
    decreases limit
  {
    if limit > g.Begin(root) {
      RowCyclesExactly(g, times, width, cap, root, limit - 1, h);
      SlotCyclesExactly(g, times, width, cap, root, limit - 1, |times[limit - 1]|, h);
    }
  }

  lemma CycleShape(g: Csr, times: seq<seq<int>>, width: int, cap: Option<nat>, h: seq<Hop>)
    requires Timed(g, times)
    ensures IsTemporalCycle(g, times, width, cap, h) ==> |h| >= 2 && h[|h| - 1].slot < |g.targets|
  {
  }

  /** One row starts the cycles that end in its vertex. */
  lemma RowExactly(g: Csr, times: seq<seq<int>>, width: int, cap: Option<nat>, root: nat, h: seq<Hop>)
    requires TimesSorted(g, times) && root < g.Order() && CycleSearch.WithinCap(cap, 2)
    ensures IsTemporalCycle(g, times, width, cap, h) ==> |h| >= 2 && h[|h| - 1].slot < |g.targets|
    ensures h in RowCycles(g, times, width, cap, root, g.End(root)) <==>
            IsTemporalCycle(g, times, width, cap, h) && g.targets[h[|h| - 1].slot] == root
  {
    hide RowCycles;
    RowCyclesExactly(g, times, width, cap, root, g.End(root), h);
    if IsTemporalCycle(g, times, width, cap, h) && g.InRow(root, h[0].slot) {
      OneRow(g, root, g.targets[h[|h| - 1].slot], h[0].slot);
    }
  }

  lemma {:induction false} CyclesBeforeExactly(g: Csr, times: seq<seq<int>>, width: int, cap: Option<nat>, n: nat, h: seq<Hop>)
    requires TimesSorted(g, times) && n <= g.Order() && CycleSearch.WithinCap(cap, 2)
    ensures h in CyclesBefore(g, times, width, cap, n) <==>
            IsTemporalCycle(g, times, width, cap, h) && g.targets[h[|h| - 1].slot] < n
  {
    hide IsTemporalCycle, RowCycles;
    CycleShape(g, times, width, cap, h);
    if n > 0 {
      CyclesBeforeExactly(g, times, width, cap, n - 1, h);
      RowExactly(g, times, width, cap, n - 1, h);
    }
  }

  /** The cycles of the run are exactly the temporal cycles of the graph. */
  lemma AllTemporalCyclesExactly(g: Csr, times: seq<seq<int>>, width: int, cap: Option<nat>, h: seq<Hop>)
    requires TimesSorted(g, times) && CycleSearch.WithinCap(cap, 2)
    ensures h in AllTemporalCycles(g, times, width, cap) <==> IsTemporalCycle(g, times, width, cap, h)
  {
    CyclesBeforeExactly(g, times, width, cap, g.Order(), h);
  }

  lemma {:induction false} SlotSumIsLengths(g: Csr, times: seq<seq<int>>, width: int, cap: Option<nat>, root: nat, slot: nat, n: nat)
    requires TimesSorted(g, times) && g.InRow(root, slot) && n <= |times[slot]| && CycleSearch.WithinCap(cap, 2)
    ensures SlotSum(TemporalTally(g, times, width, cap), g, times, root, slot, n) ==
            CycleSets.Lengths(SlotCycles(g, times, width, cap, root, slot, n))
  {
    hide CycleSets.Lengths, IsTemporalCycle;
    if n > 0 {
      var s, p, q := StartSearch(g, times, width, cap, root, slot, n - 1), [root, g.targets[slot]], [Hop(slot, n - 1)];
      var before, here := SlotCycles(g, times, width, cap, root, slot, n - 1),
                          Found(s, p, q, times[slot][n - 1], g.Begin(g.targets[slot]));
      SlotSumIsLengths(g, times, width, cap, root, slot, n - 1);
      OwedIsLengths(s, p, q, times[slot][n - 1], g.Begin(g.targets[slot]));
      forall h | h in here ensures h !in before {
        FoundThrough(s, p, q, times[slot][n - 1], g.Begin(g.targets[slot]), h);
        assert h[0] == q[0];
        SlotCyclesExactly(g, times, width, cap, root, slot, n - 1, h);
      }
      CycleSets.LengthsUnion(before, here);
    } else {
      CycleSets.LengthsEmpty<Hop>();
    }
  }

  lemma {:induction false} RowSumIsLengths(g: Csr, times: seq<seq<int>>, width: int, cap: Option<nat>, root: nat, limit: nat)
    requires TimesSorted(g, times) && root < g.Order() && g.Begin(root) <= limit <= g.End(root)
    requires CycleSearch.WithinCap(cap, 2)
    ensures RowSum(TemporalTally(g, times, width, cap), g, times, root, limit) ==
            CycleSets.Lengths(RowCycles(g, times, width, cap, root, limit))
    decreases limit
  {
    hide CycleSets.Lengths, IsTemporalCycle, SlotCycles, TemporalTally;
    if limit > g.Begin(root) {
      var before, here := RowCycles(g, times, width, cap, root, limit - 1),
                          SlotCycles(g, times, width, cap, root, limit - 1, |times[limit - 1]|);
      RowSumIsLengths(g, times, width, cap, root, limit - 1);
      SlotSumIsLengths(g, times, width, cap, root, limit - 1, |times[limit - 1]|);
      forall h | h in here ensures h !in before {
        SlotCyclesExactly(g, times, width, cap, root, limit - 1, |times[limit - 1]|, h);
        RowCyclesExactly(g, times, width, cap, root, limit - 1, h);
      }
      CycleSets.LengthsUnion(before, here);
    } else {
      CycleSets.LengthsEmpty<Hop>();
    }
  }

  lemma {:induction false} EventSumIsLengths(g: Csr, times: seq<seq<int>>, width: int, cap: Option<nat>, n: nat)
    requires TimesSorted(g, times) && n <= g.Order() && CycleSearch.WithinCap(cap, 2)
    ensures EventSum(TemporalTally(g, times, width, cap), g, times, n) ==
            CycleSets.Lengths(CyclesBefore(g, times, width, cap, n))
  {
    hide CycleSets.Lengths, IsTemporalCycle, RowCycles, TemporalTally, RowSum;
    if n > 0 {
      var before, here := CyclesBefore(g, times, width, cap, n - 1), RowCycles(g, times, width, cap, n - 1, g.End(n - 1));
      EventSumIsLengths(g, times, width, cap, n - 1);
      RowSumIsLengths(g, times, width, cap, n - 1, g.End(n - 1));
      forall h | h in here ensures h !in before {
        RowExactly(g, times, width, cap, n - 1, h);
        CyclesBeforeExactly(g, times, width, cap, n - 1, h);
      }
      CycleSets.LengthsUnion(before, here);
    } else {
      CycleSets.LengthsEmpty<Hop>();
    }
  }

  /** Every temporal run counts each temporal cycle once, per assignment of events, and nothing else. */
  lemma TemporalTotalIsLengths(g: Csr, times: seq<seq<int>>, width: int, cap: Option<nat>)
    requires TimesSorted(g, times) && CycleSearch.WithinCap(cap, 2)
    ensures TemporalTotal(g, times, width, cap) == CycleSets.Lengths(AllTemporalCycles(g, times, width, cap))
  {
    EventSumIsLengths(g, times, width, cap, g.Order());
  }
}
