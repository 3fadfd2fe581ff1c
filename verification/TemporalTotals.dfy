/** The histogram of a whole temporal run: one search per start event. */
module TemporalTotals {
  import opened CsrGraphs
  import opened StartEvents
  import opened TemporalSearch
  import CycleSearch

  ghost predicate TimesSorted(g: Csr, times: seq<seq<int>>) {
    Timed(g, times) && forall slot :: 0 <= slot < |times| ==> Nondecreasing(times[slot])
  }

  /** The temporal cycles of one start event. */
  ghost function TemporalTally(g: Csr, times: seq<seq<int>>, width: int, cap: Option<nat>): StartEvent -> CycleSearch.Histogram
    requires TimesSorted(g, times)
  {
    e => if EventInRange(g, e)
         then Subtree(Temporal(g, times, e.root, e.start + width, cap), [e.root, e.first], e.start)
         else multiset{}
  }

  /** All temporal cycles. */
  ghost function TemporalTotal(g: Csr, times: seq<seq<int>>, width: int, cap: Option<nat>): CycleSearch.Histogram
    requires TimesSorted(g, times)
  {
    EventSum(TemporalTally(g, times, width, cap), g, times, g.Order())
  }

  /** The sum over a slot grows by what the search of its next event yields. */
  lemma NextTemporalEvent(s: Temporal, g: Csr, times: seq<seq<int>>, width: int, cap: Option<nat>, root: nat, slot: nat, j: nat)
    requires TimesSorted(g, times) && g.InRow(root, slot) && j < |times[slot]|
    requires s == Temporal(g, times, root, times[slot][j] + width, cap)
    ensures s.Valid() && s.IsPath([root, g.targets[slot]])
    ensures SlotSum(TemporalTally(g, times, width, cap), g, times, root, slot, j + 1) ==
            SlotSum(TemporalTally(g, times, width, cap), g, times, root, slot, j) + Subtree(s, [root, g.targets[slot]], times[slot][j])
  {
    hide Subtree;
  }

  lemma {:induction false} RepeatOne(k: nat, count: nat)
    ensures Repeat(multiset{k}, count) == multiset{}[k := count]
  {
    if count > 0 {
      RepeatOne(k, count - 1);
    }
  }
}
