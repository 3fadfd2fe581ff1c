/** The histogram of a whole run: one search per root, or one per start event. */
module CycleTotals {
  import opened CsrGraphs
  import opened CycleSearch
  import opened StartEvents

  /** The static search below one root. */
  function RootSearch(g: Csr, cap: Option<nat>, root: nat): Search {
    Search(g, root, AboveRoot, cap)
  }

  /** All static simple cycles whose root is below `n`. */
  ghost function StaticBefore(g: Csr, cap: Option<nat>, n: nat): Histogram
    requires g.Valid() && n <= g.Order()
  {
    if n == 0 then multiset{} else StaticBefore(g, cap, n - 1) + Subtree(RootSearch(g, cap, n - 1), [n - 1])
  }

  /** The time-window search of one start event. */
  function EventSearch(g: Csr, times: seq<seq<int>>, width: int, cap: Option<nat>, e: StartEvent): Search {
    Search(g, e.root, InWindow(times, e.start, width), cap)
  }

  /** The time-window cycles of one start event. */
  ghost function WindowTally(g: Csr, times: seq<seq<int>>, width: int, cap: Option<nat>): StartEvent -> Histogram
    requires Timed(g, times)
  {
    e => if EventInRange(g, e) then Subtree(EventSearch(g, times, width, cap, e), [e.root, e.first]) else multiset{}
  }

  /** All time-window cycles. */
  ghost function WindowTotal(g: Csr, times: seq<seq<int>>, width: int, cap: Option<nat>): Histogram
    requires Timed(g, times)
  {
    EventSum(WindowTally(g, times, width, cap), g, times, g.Order())
  }

  /** The sum over a slot grows by what the search of its next event yields. */
  lemma NextWindowEvent(s: Search, g: Csr, times: seq<seq<int>>, width: int, cap: Option<nat>, root: nat, slot: nat, j: nat)
    requires Timed(g, times) && g.InRow(root, slot) && j < |times[slot]|
    requires s == Search(g, root, InWindow(times, times[slot][j], width), cap)
    ensures s.Valid() && s.IsPath([root, g.targets[slot]])
    ensures SlotSum(WindowTally(g, times, width, cap), g, times, root, slot, j + 1) ==
            SlotSum(WindowTally(g, times, width, cap), g, times, root, slot, j) + Subtree(s, [root, g.targets[slot]])
  {
    hide Subtree;
  }
}
