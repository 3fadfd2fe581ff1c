/** Start events, one per timestamp of every edge, and sums over them. */
module StartEvents {
  import opened CsrGraphs
  import opened CycleSearch

  datatype StartEvent = StartEvent(root: nat, first: nat, start: int)

  /** One list of timestamps per edge slot. */
  ghost predicate Timed(g: Csr, times: seq<seq<int>>) {
    g.Valid() && |times| == |g.targets|
  }

  ghost predicate EventInRange(g: Csr, e: StartEvent) {
    e.root < g.Order() && e.first < g.Order()
  }

  /** The sum of `f` over the first `n` timestamps of one slot. */
  ghost function SlotSum(f: StartEvent -> Histogram, g: Csr, times: seq<seq<int>>, root: nat, slot: nat, n: nat): Histogram
    requires Timed(g, times) && slot < |times| && n <= |times[slot]|
  {
    if n == 0 then multiset{}
    else SlotSum(f, g, times, root, slot, n - 1) + f(StartEvent(root, g.targets[slot], times[slot][n - 1]))
  }

  /** The sum of `f` over the slots of `root` before `limit`. */
  ghost function RowSum(f: StartEvent -> Histogram, g: Csr, times: seq<seq<int>>, root: nat, limit: nat): Histogram
    requires Timed(g, times) && root < g.Order() && g.Begin(root) <= limit <= g.End(root)
    decreases limit
  {
    if limit == g.Begin(root) then multiset{}
    else RowSum(f, g, times, root, limit - 1) + SlotSum(f, g, times, root, limit - 1, |times[limit - 1]|)
  }

  /** The sum of `f` over the start events of the roots before `n`. */
  ghost function EventSum(f: StartEvent -> Histogram, g: Csr, times: seq<seq<int>>, n: nat): Histogram
    requires Timed(g, times) && n <= g.Order()
  {
    if n == 0 then multiset{} else EventSum(f, g, times, n - 1) + RowSum(f, g, times, n - 1, g.End(n - 1))
  }

  // ---- Windows that end beyond the timestamps, or before they start ----

  const MAX_TIMESTAMP: int := 0x7FFF_FFFF_FFFF_FFFF

  /** The width is negative, or the end of the window is no 64-bit timestamp. */
  predicate NoWindow(start: int, width: int) {
    width < 0 || start > MAX_TIMESTAMP - width
  }

  /**
   * The search of event `j` of a slot fails: there is no window.  A `lazy` search computes its end only
   * when it reads an edge, so it needs one that leaves the first vertex.
   */
  ghost predicate Refused(g: Csr, times: seq<seq<int>>, width: int, lazy: bool, slot: nat, j: nat)
    requires Timed(g, times) && slot < |times| && j < |times[slot]|
  {
    (width < 0 || times[slot][j] + width > MAX_TIMESTAMP) && (lazy ==> g.Begin(g.targets[slot]) < g.End(g.targets[slot]))
  }

  ghost predicate SlotRuns(g: Csr, times: seq<seq<int>>, width: int, lazy: bool, slot: nat, n: nat)
    requires Timed(g, times) && slot < |times| && n <= |times[slot]|
  {
    forall j :: 0 <= j < n ==> !Refused(g, times, width, lazy, slot, j)
  }

  ghost predicate RowRuns(g: Csr, times: seq<seq<int>>, width: int, lazy: bool, root: nat, limit: nat)
    requires Timed(g, times) && root < g.Order() && limit <= g.End(root)
  {
    forall slot :: g.Begin(root) <= slot < limit ==> SlotRuns(g, times, width, lazy, slot, |times[slot]|)
  }

  /** No search of the roots below `n` fails. */
  ghost predicate AllRun(g: Csr, times: seq<seq<int>>, width: int, lazy: bool, n: nat)
    requires Timed(g, times) && n <= g.Order()
  {
    forall root :: 0 <= root < n ==> RowRuns(g, times, width, lazy, root, g.End(root))
  }

  /** The window of every start event ends at a timestamp. */
  ghost predicate WindowsEnd(g: Csr, times: seq<seq<int>>, width: int)
    requires Timed(g, times)
  {
    AllRun(g, times, width, false, g.Order())
  }

  /** A device thread whose window has no end records nothing. */
  ghost function Fitting(f: StartEvent -> Histogram, width: int): StartEvent -> Histogram {
    (e: StartEvent) => if width < 0 || e.start + width > MAX_TIMESTAMP then multiset{} else f(e)
  }

  /** Every window has an end exactly when none of an edge ends beyond the timestamps. */
  lemma WindowsEndExactly(g: Csr, times: seq<seq<int>>, width: int)
    requires Timed(g, times) && width >= 0
    ensures WindowsEnd(g, times, width) <==>
            !exists v, slot, j :: g.InRow(v, slot) && 0 <= j < |times[slot]| && times[slot][j] + width > 0x7FFF_FFFF_FFFF_FFFF
  {
    if v, slot, j :| g.InRow(v, slot) && 0 <= j < |times[slot]| && times[slot][j] + width > 0x7FFF_FFFF_FFFF_FFFF {
      assert Refused(g, times, width, false, slot, j) && !SlotRuns(g, times, width, false, slot, |times[slot]|);
      assert !RowRuns(g, times, width, false, v, g.End(v));
    } else {
      forall v, slot | 0 <= v < g.Order() && g.Begin(v) <= slot < g.End(v) ensures SlotRuns(g, times, width, false, slot, |times[slot]|) {
        assert g.InRow(v, slot);
      }
    }
  }

  /** A lazy run is refused exactly when a window without an end is entered at a vertex with an edge to read. */
  lemma LazyRunsExactly(g: Csr, times: seq<seq<int>>, width: int)
    requires Timed(g, times)
    ensures !AllRun(g, times, width, true, g.Order()) <==>
            if width < 0 then exists v, slot, x :: g.InRow(v, slot) && times[slot] != [] && g.InRow(g.targets[slot], x)
            else exists v, slot, j, x :: g.InRow(v, slot) && 0 <= j < |times[slot]| && g.InRow(g.targets[slot], x) &&
                                         times[slot][j] + width > 0x7FFF_FFFF_FFFF_FFFF
  {
    if v, slot, j, x :| g.InRow(v, slot) && 0 <= j < |times[slot]| && g.InRow(g.targets[slot], x) && times[slot][j] + width > 0x7FFF_FFFF_FFFF_FFFF {
      LazyRefusal(g, times, width, v, slot, j, x);
    }
    if v, slot, x :| g.InRow(v, slot) && times[slot] != [] && g.InRow(g.targets[slot], x) && width < 0 {
      LazyRefusal(g, times, width, v, slot, 0, x);
    }
    if !AllRun(g, times, width, true, g.Order()) {
      var v :| 0 <= v < g.Order() && !RowRuns(g, times, width, true, v, g.End(v));
      var slot :| g.Begin(v) <= slot < g.End(v) && !SlotRuns(g, times, width, true, slot, |times[slot]|);
      var j :| 0 <= j < |times[slot]| && Refused(g, times, width, true, slot, j);
      assert g.InRow(v, slot) && g.InRow(g.targets[slot], g.Begin(g.targets[slot]));
      assert width >= 0 ==> times[slot][j] + width > 0x7FFF_FFFF_FFFF_FFFF;
    }
  }

  lemma LazyRefusal(g: Csr, times: seq<seq<int>>, width: int, v: nat, slot: nat, j: nat, x: int)
    requires Timed(g, times) && g.InRow(v, slot) && j < |times[slot]| && g.InRow(g.targets[slot], x)
    requires width < 0 || times[slot][j] + width > 0x7FFF_FFFF_FFFF_FFFF
    ensures !AllRun(g, times, width, true, g.Order())
  {
    assert Refused(g, times, width, true, slot, j) && !SlotRuns(g, times, width, true, slot, |times[slot]|);
    assert !RowRuns(g, times, width, true, v, g.End(v));
  }

  // ---- One more event ----

  lemma NoEvent(f: StartEvent -> Histogram, g: Csr, times: seq<seq<int>>, width: int, lazy: bool, root: nat, slot: nat)
    requires Timed(g, times) && slot < |times|
    ensures SlotSum(f, g, times, root, slot, 0) == multiset{} && SlotRuns(g, times, width, lazy, slot, 0)
  {
  }

  lemma EventRuns(g: Csr, times: seq<seq<int>>, width: int, lazy: bool, slot: nat, j: nat)
    requires Timed(g, times) && slot < |times| && j < |times[slot]|
    ensures SlotRuns(g, times, width, lazy, slot, j + 1) <==> SlotRuns(g, times, width, lazy, slot, j) && !Refused(g, times, width, lazy, slot, j)
    ensures Refused(g, times, width, lazy, slot, j) ==> !SlotRuns(g, times, width, lazy, slot, |times[slot]|)
  {
  }
}
