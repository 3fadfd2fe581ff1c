/** The exhaustive searches with one path and one buffer of visited flags, restored on every return. */
module Bruteforce {
  import opened CsrGraphs
  import opened CycleSearch
  import opened CycleTotals
  import opened StartEvents
  import opened TemporalTotals
  import StackMachine
  import T = TemporalSearch

  class Exhaustive {
    const g: Csr
    const visited: array<bool>
    var path: seq<nat>
    var histogram: Histogram

    constructor (g: Csr)
      requires g.Valid()
      ensures this.g == g && histogram == multiset{} && visited.Length == g.Order() && fresh(visited)
    {
      this.g := g;
      visited := new bool[g.Order()](_ => false);
      path, histogram := [], multiset{};
    }

    ghost predicate Ready()
      reads this
    {
      g.Valid() && visited.Length == g.Order()
    }

    ghost predicate Valid(s: Search)
      reads this, visited
    {
      Ready() && s.Valid() && s.g == g && s.IsPath(path) && Marks(path, visited[..], g.Order())
    }

    /** Puts a new path into cleared flags. */
    method Restart(start: seq<nat>)
      requires Ready() && forall i :: 0 <= i < |start| ==> start[i] < g.Order()
      modifies `path, visited
      ensures path == start && Marks(path, visited[..], g.Order())
    {
      forall v | 0 <= v < visited.Length { visited[v] := false; }
      path := start;
      for i := 0 to |start|
        invariant path == start && forall v :: 0 <= v < visited.Length ==> (visited[v] <==> v in start[..i])
      {
        assert start[..i + 1] == start[..i] + [start[i]];
        visited[start[i]] := true;
      }
      assert start[..|start|] == start;
    }

    /** Records exactly the cycles below the path. */
    method Dfs(s: Search, current: nat)
      requires Valid(s) && path[|path| - 1] == current
      modifies `path, `histogram, visited
      ensures Valid(s) && path == old(path) && visited[..] == old(visited[..])
      ensures histogram == old(histogram) + Subtree(s, path)
      decreases s.Free(path), 1
    {
      hide Marks;
      ghost var full, marks := path, visited[..];
      for slot := g.Begin(current) to g.End(current)
        invariant Valid(s) && path == full && visited[..] == marks
        invariant histogram + Owed(s, full, slot) == old(histogram) + Subtree(s, full)
      {
        DfsSlot(s, current, slot);
      }
    }

    /** One edge: it closes a cycle, extends the path, or is skipped. */
    method DfsSlot(s: Search, current: nat, slot: nat)
      requires Valid(s) && path[|path| - 1] == current && g.InRow(current, slot)
      modifies `path, `histogram, visited
      ensures Valid(s) && path == old(path) && visited[..] == old(visited[..])
      ensures histogram == old(histogram) + Branch(s, path, slot)
      decreases s.Free(path), 0
    {
      hide Branch, Owed;
      ghost var full, marks := path, visited[..];
      var next := g.targets[slot];
      StackMachine.SlotOutcome(s, full, slot);
      if !s.Takes(current, slot) {
        return;
      }
      if next == s.root && |path| >= 2 {
        histogram := histogram + multiset{|path|};
        return;
      }
      if visited[next] || (s.cap.Some? && |path| >= s.cap.value) {
        return;
      }
      assert next in s.Free(full) && next !in s.Free(full + [next]);
      visited[next] := true;
      path := path + [next];
      Dfs(s, next);
      path := path[..|path| - 1];
      visited[next] := false;
      assert path == full && visited[..] == marks;
    }

    ghost predicate TemporalValid(s: T.Temporal)
      reads this, visited
    {
      Ready() && s.Valid() && s.g == g && s.IsPath(path) && Marks(path, visited[..], g.Order())
    }

    /** Records exactly the temporal cycles below the path, reached at time `previous`. */
    method TemporalDfs(s: T.Temporal, current: nat, previous: int)
      requires TemporalValid(s) && path[|path| - 1] == current
      modifies `path, `histogram, visited
      ensures TemporalValid(s) && path == old(path) && visited[..] == old(visited[..])
      ensures histogram == old(histogram) + T.Subtree(s, path, previous)
      decreases s.Free(path), 2
    {
      hide Marks;
      ghost var full, marks := path, visited[..];
      for slot := g.Begin(current) to g.End(current)
        invariant TemporalValid(s) && path == full && visited[..] == marks
        invariant histogram + T.Owed(s, full, previous, slot) == old(histogram) + T.Subtree(s, full, previous)
      {
        TemporalSlot(s, current, previous, slot);
      }
    }

    method TemporalSlot(s: T.Temporal, current: nat, previous: int, slot: nat)
      requires TemporalValid(s) && path[|path| - 1] == current && g.InRow(current, slot)
      modifies `path, `histogram, visited
      ensures TemporalValid(s) && path == old(path) && visited[..] == old(visited[..])
      ensures histogram == old(histogram) + T.OwedEvents(s, path, slot, s.From(slot, previous), s.To(slot, previous))
      decreases s.Free(path), 1
    {
      hide T.OwedEvents;
      ghost var full := path;
      NoEvents(s, full, slot, s.From(slot, previous));
      var begin, end, next := s.From(slot, previous), s.To(slot, previous), g.targets[slot];
      if begin >= end {
        return;
      }
      if next == s.root && |path| >= 2 {
        T.ClosingEvents(s, full, slot, begin, end);
        RepeatOne(|path|, end - begin);
        histogram := histogram[|path| := histogram[|path|] + (end - begin)];
        return;
      }
      if visited[next] || (s.cap.Some? && |path| >= s.cap.value) {
        T.SkippedEvents(s, full, slot, begin, end);
        return;
      }
      TemporalEvents(s, next, slot, begin, end);
    }

    /** The searches below `next`, one per event. */
    method TemporalEvents(s: T.Temporal, next: nat, slot: nat, begin: nat, end: nat)
      requires TemporalValid(s) && T.AtSlot(s, path, slot) && slot < s.Limit(path) && g.targets[slot] == next
      requires begin <= end <= |s.times[slot]| && next !in path && s.MayGrow(|path|) && next != s.root
      modifies `path, `histogram, visited
      ensures TemporalValid(s) && path == old(path) && visited[..] == old(visited[..])
      ensures histogram == old(histogram) + T.OwedEvents(s, path, slot, begin, end)
      decreases s.Free(path), 0
    {
      ghost var full, marks := path, visited[..];
      assert next in s.Free(full) && next !in s.Free(full + [next]);
      visited[next] := true;
      path := path + [next];
      ghost var deeper, deeperMarks := path, visited[..];
      assert deeperMarks == marks[next := true];
      for j := begin to end
        invariant TemporalValid(s) && path == deeper && visited[..] == deeperMarks
        invariant histogram + T.OwedEvents(s, full, slot, j, end) == old(histogram) + T.OwedEvents(s, full, slot, begin, end)
      {
        TemporalDfs(s, next, s.times[slot][j]);
      }
      path := path[..|path| - 1];
      visited[next] := false;
      assert path == full && visited[..] == marks;
    }

    /** The cycles of one root. */
    method DfsRoot(cap: Option<nat>, root: nat)
      requires Ready() && root < g.Order()
      modifies this, visited
      ensures histogram == old(histogram) + Subtree(RootSearch(g, cap, root), [root])
    {
      hide Subtree, Marks;
      Restart([root]);
      Dfs(RootSearch(g, cap, root), root);
    }

    /** The time-window cycles of the start events of one edge; the window is computed with the first edge read. */
    method WindowSlot(times: seq<seq<int>>, width: int, cap: Option<nat>, root: nat, slot: nat) returns (ok: bool)
      requires Ready() && Timed(g, times) && g.InRow(root, slot)
      modifies this, visited
      ensures ok <==> SlotRuns(g, times, width, true, slot, |times[slot]|)
      ensures ok ==> histogram == old(histogram) + SlotSum(WindowTally(g, times, width, cap), g, times, root, slot, |times[slot]|)
    {
      hide Subtree, Marks, WindowTally, SlotSum, SlotRuns;
      ghost var f := WindowTally(g, times, width, cap);
      NoEvent(f, g, times, width, true, root, slot);
      for j := 0 to |times[slot]|
        invariant histogram == old(histogram) + SlotSum(f, g, times, root, slot, j)
        invariant SlotRuns(g, times, width, true, slot, j)
      {
        var first := g.targets[slot];
        EventRuns(g, times, width, true, slot, j);
        if NoWindow(times[slot][j], width) && g.Begin(first) < g.End(first) {
          return false;
        }
        var s := EventSearch(g, times, width, cap, StartEvent(root, first, times[slot][j]));
        NextWindowEvent(s, g, times, width, cap, root, slot, j);
        Restart([root, first]);
        Dfs(s, first);
      }
      return true;
    }

    method WindowRow(times: seq<seq<int>>, width: int, cap: Option<nat>, root: nat) returns (ok: bool)
      requires Ready() && Timed(g, times) && root < g.Order()
      modifies this, visited
      ensures ok <==> RowRuns(g, times, width, true, root, g.End(root))
      ensures ok ==> histogram == old(histogram) + RowSum(WindowTally(g, times, width, cap), g, times, root, g.End(root))
    {
      hide WindowTally, SlotSum;
      ghost var f := WindowTally(g, times, width, cap);
      for slot := g.Begin(root) to g.End(root)
        invariant histogram == old(histogram) + RowSum(f, g, times, root, slot)
        invariant RowRuns(g, times, width, true, root, slot)
      {
        ok := WindowSlot(times, width, cap, root, slot);
        if !ok {
          return;
        }
      }
      return true;
    }

    /** The temporal cycles of the start events of one edge. */
    method TemporalStarts(times: seq<seq<int>>, width: int, cap: Option<nat>, root: nat, slot: nat) returns (ok: bool)
      requires Ready() && TimesSorted(g, times) && g.InRow(root, slot)
      modifies this, visited
      ensures ok <==> SlotRuns(g, times, width, false, slot, |times[slot]|)
      ensures ok ==> histogram == old(histogram) + SlotSum(TemporalTally(g, times, width, cap), g, times, root, slot, |times[slot]|)
    {
      hide T.Subtree, Marks, TemporalTally, SlotSum, SlotRuns;
      ghost var f := TemporalTally(g, times, width, cap);
      NoEvent(f, g, times, width, false, root, slot);
      for j := 0 to |times[slot]|
        invariant histogram == old(histogram) + SlotSum(f, g, times, root, slot, j)
        invariant SlotRuns(g, times, width, false, slot, j)
      {
        var first, start := g.targets[slot], times[slot][j];
        EventRuns(g, times, width, false, slot, j);
        if NoWindow(start, width) {
          return false;
        }
        var s := T.Temporal(g, times, root, start + width, cap);
        NextTemporalEvent(s, g, times, width, cap, root, slot, j);
        Restart([root, first]);
        TemporalDfs(s, first, start);
      }
      return true;
    }

    method TemporalRow(times: seq<seq<int>>, width: int, cap: Option<nat>, root: nat) returns (ok: bool)
      requires Ready() && TimesSorted(g, times) && root < g.Order()
      modifies this, visited
      ensures ok <==> RowRuns(g, times, width, false, root, g.End(root))
      ensures ok ==> histogram == old(histogram) + RowSum(TemporalTally(g, times, width, cap), g, times, root, g.End(root))
    {
      hide TemporalTally, SlotSum;
      ghost var f := TemporalTally(g, times, width, cap);
      for slot := g.Begin(root) to g.End(root)
        invariant histogram == old(histogram) + RowSum(f, g, times, root, slot)
        invariant RowRuns(g, times, width, false, root, slot)
      {
        ok := TemporalStarts(times, width, cap, root, slot);
        if !ok {
          return;
        }
      }
      return true;
    }
  }

  lemma NoEvents(s: T.Temporal, p: seq<nat>, slot: nat, j: nat)
    requires T.AtSlot(s, p, slot) && slot < s.Limit(p) && j <= |s.times[slot]|
    ensures T.OwedEvents(s, p, slot, j, j) == multiset{}
  {
  }

  /** The static oracle; `None` for a cap below 2. */
  method CountSimpleCycles(g: Csr, cap: Option<nat>) returns (r: Option<Histogram>)
    requires g.Valid()
    ensures r == if cap.Some? && cap.value < 2 then None else Some(StaticBefore(g, cap, g.Order()))
  {
    if cap.Some? && cap.value < 2 {
      return None;
    }
    hide Subtree, Marks;
    var search := new Exhaustive(g);
    for root := 0 to g.Order()
      invariant search.Ready() && search.histogram == StaticBefore(g, cap, root)
    {
      search.DfsRoot(cap, root);
    }
    return Some(search.histogram);
  }

  /** The time-window oracle; `None` for a cap below 2, a negative width, or a search that needs a window without an end. */
  method CountTimeWindowCycles(g: Csr, times: seq<seq<int>>, width: int, cap: Option<nat>) returns (r: Option<Histogram>)
    requires Timed(g, times)
    ensures r == None <==>
            (cap.Some? && cap.value < 2) || width < 0 ||
            exists v, slot, j, x :: g.InRow(v, slot) && 0 <= j < |times[slot]| && g.InRow(g.targets[slot], x) &&
                                    times[slot][j] + width > 0x7FFF_FFFF_FFFF_FFFF
    ensures r.Some? ==> r.value == WindowTotal(g, times, width, cap)
  {
    if (cap.Some? && cap.value < 2) || width < 0 {
      return None;
    }
    var ok, histogram := RunWindows(g, times, width, cap);
    LazyRunsExactly(g, times, width);
    return if ok then Some(histogram) else None;
  }

  /** The searches of all start events, until one needs a window without an end. */
  method RunWindows(g: Csr, times: seq<seq<int>>, width: int, cap: Option<nat>) returns (ok: bool, histogram: Histogram)
    requires Timed(g, times)
    ensures ok <==> AllRun(g, times, width, true, g.Order())
    ensures ok ==> histogram == WindowTotal(g, times, width, cap)
  {
    hide WindowTally, RowSum, RowRuns;
    var search := new Exhaustive(g);
    ghost var f := WindowTally(g, times, width, cap);
    for root := 0 to g.Order()
      invariant search.Ready() && search.histogram == EventSum(f, g, times, root) && AllRun(g, times, width, true, root)
    {
      var runs := search.WindowRow(times, width, cap, root);
      if !runs {
        return false, search.histogram;
      }
    }
    return true, search.histogram;
  }

  /** The temporal oracle; `None` for a cap below 2, a negative width, or a window without an end. */
  method CountTemporalCycles(g: Csr, times: seq<seq<int>>, width: int, cap: Option<nat>) returns (r: Option<Histogram>)
    requires TimesSorted(g, times)
    ensures r == None <==>
            (cap.Some? && cap.value < 2) || width < 0 ||
            exists v, slot, j :: g.InRow(v, slot) && 0 <= j < |times[slot]| && times[slot][j] + width > 0x7FFF_FFFF_FFFF_FFFF
    ensures r.Some? ==> r.value == TemporalTotal(g, times, width, cap)
  {
    if (cap.Some? && cap.value < 2) || width < 0 {
      return None;
    }
    var ok, histogram := RunTemporal(g, times, width, cap);
    WindowsEndExactly(g, times, width);
    return if ok then Some(histogram) else None;
  }

  /** The searches of all start events, until one has a window without an end. */
  method RunTemporal(g: Csr, times: seq<seq<int>>, width: int, cap: Option<nat>) returns (ok: bool, histogram: Histogram)
    requires TimesSorted(g, times)
    ensures ok <==> WindowsEnd(g, times, width)
    ensures ok ==> histogram == TemporalTotal(g, times, width, cap)
  {
    hide TemporalTally, RowSum, RowRuns;
    var search := new Exhaustive(g);
    ghost var f := TemporalTally(g, times, width, cap);
    for root := 0 to g.Order()
      invariant search.Ready() && search.histogram == EventSum(f, g, times, root) && AllRun(g, times, width, false, root)
    {
      var runs := search.TemporalRow(times, width, cap, root);
      if !runs {
        return false, search.histogram;
      }
    }
    return true, search.histogram;
  }
}
