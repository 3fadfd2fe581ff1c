/** The temporal search that takes one timestamp at a time, pruned by closing times. */
module TemporalReadTarjan {
  import opened CsrGraphs
  import opened StartEvents
  import opened TemporalSearch
  import opened TemporalTotals
  import opened ClosingTimes
  import CycleSearch

  class TemporalReadTarjanSearch {
    const g: Csr
    const times: seq<seq<int>>
    const width: int
    const cap: Option<nat>
    const visited: array<bool>
    const closingAfter: array<Option<int>>
    var root: nat
    var windowEnd: int
    var path: seq<nat>
    var histogram: CycleSearch.Histogram

    constructor (g: Csr, times: seq<seq<int>>, width: int, cap: Option<nat>)
      requires g.Valid()
      ensures this.g == g && this.times == times && this.width == width && this.cap == cap && histogram == multiset{}
      ensures visited.Length == closingAfter.Length == g.Order() && fresh(visited) && fresh(closingAfter)
    {
      this.g, this.times, this.width, this.cap := g, times, width, cap;
      visited := new bool[g.Order()](_ => false);
      closingAfter := new Option<int>[g.Order()](_ => None);
      root, windowEnd, path, histogram := 0, 0, [], multiset{};
    }

    function Query(): Temporal
      reads this
    {
      Temporal(g, times, root, windowEnd, cap)
    }

    /** The marks are those of the path, and the closing times are sound. */
    ghost predicate Valid()
      reads this, visited, closingAfter
    {
      Query().Valid() && Sound(Query(), closingAfter[..]) && Query().IsPath(path) && Marks(path, visited[..], g.Order())
    }

    /** Records exactly the cycles below the path, reached at time `previous`. */
    method Extend(current: nat, previous: int)
      requires Valid() && path[|path| - 1] == current
      modifies `path, `histogram, visited, closingAfter
      ensures Valid() && path == old(path) && visited[..] == old(visited[..])
      ensures histogram == old(histogram) + Subtree(Query(), path, previous)
      decreases Query().Free(path), 2
    {
      ghost var s, full, marks := Query(), path, visited[..];
      var reaches := CanReachRoot(Query(), closingAfter, current, previous);
      if !reaches {
        OutOfReach(s, full, previous, s.First(full));
        return;
      }
      hide Sound, Marks, Remembers;
      for slot := g.Begin(current) to g.End(current)
        invariant Valid() && path == full && visited[..] == marks
        invariant histogram + Owed(s, full, previous, slot) == old(histogram) + Subtree(s, full, previous)
      {
        ExtendSlot(current, previous, slot);
      }
    }

    /** The events of one slot. */
    method ExtendSlot(current: nat, previous: int, slot: nat)
      requires Valid() && path[|path| - 1] == current && g.InRow(current, slot)
      modifies `path, `histogram, visited, closingAfter
      ensures Valid() && path == old(path) && visited[..] == old(visited[..])
      ensures histogram == old(histogram) + OwedEvents(Query(), path, slot, Query().From(slot, previous), Query().To(slot, previous))
      decreases Query().Free(path), 1
    {
      ghost var s, full, marks := Query(), path, visited[..];
      var begin, end := Query().From(slot, previous), Query().To(slot, previous);
      if begin >= end {
        return;
      }
      var next := g.targets[slot];
      if next == root && |path| >= 2 {
        ClosingEvents(s, full, slot, begin, end);
        RepeatOne(|path|, end - begin);
        histogram := histogram[|path| := histogram[|path|] + (end - begin)];
        return;
      }
      if visited[next] || !Query().MayGrow(|path|) {
        SkippedEvents(s, full, slot, begin, end);
        return;
      }
      ExtendEvents(next, slot, begin, end);
    }

    /** The searches below `next`, one per event. */
    method ExtendEvents(next: nat, slot: nat, begin: nat, end: nat)
      requires Valid() && slot < Query().Limit(path) && AtSlot(Query(), path, slot) && g.targets[slot] == next
      requires begin <= end <= |times[slot]| && next !in path && Query().MayGrow(|path|) && next != root
      modifies `path, `histogram, visited, closingAfter
      ensures Valid() && path == old(path) && visited[..] == old(visited[..])
      ensures histogram == old(histogram) + OwedEvents(Query(), path, slot, begin, end)
      decreases Query().Free(path), 0
    {
      hide Sound;
      ghost var s, full, marks := Query(), path, visited[..];
      assert next in s.Free(full) && next !in s.Free(full + [next]);
      visited[next] := true;
      path := path + [next];
      ghost var deeper, deeperMarks := path, visited[..];
      assert deeperMarks == marks[next := true];
      for j := begin to end
        invariant Valid() && path == deeper && visited[..] == deeperMarks
        invariant histogram + OwedEvents(s, full, slot, j, end) == old(histogram) + OwedEvents(s, full, slot, begin, end)
      {
        Extend(next, times[slot][j]);
      }
      path := path[..|path| - 1];
      visited[next] := false;
      assert path == full && visited[..] == marks;
    }

    /** Everything is forgotten between start events. */
    method Reset(root: nat, first: nat, start: int)
      requires g.Valid() && visited.Length == closingAfter.Length == g.Order() && first < g.Order()
      requires Temporal(g, times, root, start + width, cap).Valid()
      modifies `root, `windowEnd, `path, visited, closingAfter
      ensures Query() == Temporal(g, times, root, start + width, cap) && path == [root, first] && Valid()
    {
      windowEnd := start + width;
      this.root := root;
      forall v | 0 <= v < closingAfter.Length { closingAfter[v] := None; }
      forall v | 0 <= v < visited.Length { visited[v] := false; }
      path := [root, first];
      visited[root] := true;
      visited[first] := true;
    }

    /** The search of one start event. */
    method Start(root: nat, first: nat, start: int)
      requires g.Valid() && visited.Length == closingAfter.Length == g.Order() && first < g.Order()
      requires Temporal(g, times, root, start + width, cap).Valid()
      modifies this, visited, closingAfter
      ensures histogram == old(histogram) + Subtree(Temporal(g, times, root, start + width, cap), [root, first], start)
    {
      hide Sound, Marks;
      Reset(root, first, start);
      Extend(first, start);
    }

    /** One search per start event. */
    method Run() returns (ok: bool)
      requires TimesSorted(g, times) && visited.Length == closingAfter.Length == g.Order() && histogram == multiset{}
      modifies this, visited, closingAfter
      ensures ok <==> WindowsEnd(g, times, width)
      ensures ok ==> histogram == TemporalTotal(g, times, width, cap)
    {
      hide TemporalTally, RowSum, RowRuns;
      ghost var f := TemporalTally(g, times, width, cap);
      for next := 0 to g.Order()
        invariant histogram == EventSum(f, g, times, next) && AllRun(g, times, width, false, next)
      {
        ok := RunRow(next);
        if !ok {
          return;
        }
      }
      return true;
    }

    /** The start events of one root. */
    method RunRow(root: nat) returns (ok: bool)
      requires TimesSorted(g, times) && visited.Length == closingAfter.Length == g.Order() && root < g.Order()
      modifies this, visited, closingAfter
      ensures ok <==> RowRuns(g, times, width, false, root, g.End(root))
      ensures ok ==> histogram == old(histogram) + RowSum(TemporalTally(g, times, width, cap), g, times, root, g.End(root))
    {
      hide TemporalTally, SlotSum, SlotRuns;
      ghost var f := TemporalTally(g, times, width, cap);
      for slot := g.Begin(root) to g.End(root)
        invariant histogram == old(histogram) + RowSum(f, g, times, root, slot) && RowRuns(g, times, width, false, root, slot)
      {
        ok := RunSlot(root, slot);
        if !ok {
          return;
        }
      }
      return true;
    }

    method RunSlot(root: nat, slot: nat) returns (ok: bool)
      requires TimesSorted(g, times) && visited.Length == closingAfter.Length == g.Order() && g.InRow(root, slot)
      modifies this, visited, closingAfter
      ensures ok <==> SlotRuns(g, times, width, false, slot, |times[slot]|)
      ensures ok ==> histogram == old(histogram) + SlotSum(TemporalTally(g, times, width, cap), g, times, root, slot, |times[slot]|)
    {
      hide Subtree, TemporalTally, SlotSum, SlotRuns;
      ghost var f := TemporalTally(g, times, width, cap);
      NoEvent(f, g, times, width, false, root, slot);
      for j := 0 to |times[slot]|
        invariant histogram == old(histogram) + SlotSum(f, g, times, root, slot, j) && SlotRuns(g, times, width, false, slot, j)
      {
        EventRuns(g, times, width, false, slot, j);
        if NoWindow(times[slot][j], width) {
          return false;
        }
        NextTemporalEvent(Temporal(g, times, root, times[slot][j] + width, cap), g, times, width, cap, root, slot, j);
        Start(root, g.targets[slot], times[slot][j]);
      }
      return true;
    }
  }
}
