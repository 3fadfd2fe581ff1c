/**
 * The temporal search that carries bundles of arrival times along each vertex path and prunes with
 * closing times.
 */
module TemporalJohnson {
  import opened CsrGraphs
  import opened StartEvents
  import opened TemporalSearch
  import opened TemporalTotals
  import opened ClosingTimes
  import opened Bundles
  import opened Assignments

  /** What all arrivals of a bundle still owe below `p` from `slot` on. */
  ghost function BundleOwed(s: Temporal, p: seq<nat>, arrivals: seq<Arrival>, slot: nat): Histogram
    requires AtSlot(s, p, slot)
  {
    Weigh(OwedAt(s, p, slot), arrivals)
  }

  lemma BundleStep(s: Temporal, p: seq<nat>, arrivals: seq<Arrival>, slot: nat)
    requires AtSlot(s, p, slot) && slot < s.Limit(p)
    ensures BundleOwed(s, p, arrivals, slot) == Weigh(EventsAt(s, p, slot), arrivals) + BundleOwed(s, p, arrivals, slot + 1)
  {
    WeighSum(OwedAt(s, p, slot), EventsAt(s, p, slot), OwedAt(s, p, slot + 1), arrivals);
  }

  lemma BundleEnd(s: Temporal, p: seq<nat>, arrivals: seq<Arrival>)
    requires s.Valid() && s.IsPath(p)
    ensures BundleOwed(s, p, arrivals, s.Limit(p)) == multiset{}
  {
    WeighNothing(OwedAt(s, p, s.Limit(p)), arrivals);
  }

  /** When even the earliest arrival is too late, so are the others. */
  lemma BundleTooLate(s: Temporal, p: seq<nat>, arrivals: seq<Arrival>)
    requires s.Valid() && s.IsPath(p) && Ascending(arrivals)
    requires arrivals != [] ==> !CanReach(s, s.Last(p), arrivals[0].timestamp)
    ensures BundleOwed(s, p, arrivals, s.First(p)) == multiset{}
  {
    forall i | 0 <= i < |arrivals| ensures OwedAt(s, p, s.First(p))(arrivals[i].timestamp) == multiset{} {
      if CanReach(s, s.Last(p), arrivals[i].timestamp) {
        CanReachEarlier(s, s.Last(p), arrivals[0].timestamp, arrivals[i].timestamp);
      }
      OutOfReach(s, p, arrivals[i].timestamp, s.First(p));
    }
    WeighNothing(OwedAt(s, p, s.First(p)), arrivals);
  }

  lemma BundleSkipped(s: Temporal, p: seq<nat>, arrivals: seq<Arrival>, slot: nat)
    requires AtSlot(s, p, slot) && slot < s.Limit(p)
    requires !(s.g.targets[slot] == s.root && |p| >= 2) && (s.g.targets[slot] in p || !s.MayGrow(|p|))
    ensures Weigh(EventsAt(s, p, slot), arrivals) == multiset{}
  {
    forall i | 0 <= i < |arrivals| ensures EventsAt(s, p, slot)(arrivals[i].timestamp) == multiset{} {
      SkippedEvents(s, p, slot, s.From(slot, arrivals[i].timestamp), s.To(slot, arrivals[i].timestamp));
    }
    WeighNothing(EventsAt(s, p, slot), arrivals);
  }

  /** A search stands at the end of these slots, begun by `count` equal start events. */
  datatype Walk = Walk(start: int, count: nat, slots: seq<nat>)

  class TemporalJohnsonSearch {
    const g: Csr
    const times: seq<seq<int>>
    const width: int
    const cap: Option<nat>
    const visited: array<bool>
    const closingAfter: array<Option<int>>
    var root: nat
    var windowEnd: int
    var path: seq<nat>
    var histogram: Histogram

    constructor (g: Csr, times: seq<seq<int>>, width: int, cap: Option<nat>)
      requires g.Valid()
      ensures this.g == g && this.times == times && this.width == width && this.cap == cap && histogram == multiset{}
      ensures visited.Length == closingAfter.Length == g.Order() && fresh(visited) && fresh(closingAfter)
    {
      this.g, this.times, this.width, this.cap := g, times, width, cap;
      visited := new bool[g.Order()](_ => false);
      closingAfter := new Option<int>[g.Order()](_ => None);
      root, windowEnd, path, histogram := 0, 0, [], multiset{};
    }

    function Query(): Temporal
      reads this
    {
      Temporal(g, times, root, windowEnd, cap)
    }

    ghost predicate Valid()
      reads this, visited, closingAfter
    {
      Query().Valid() && Sound(Query(), closingAfter[..]) && Query().IsPath(path) && Marks(path, visited[..], g.Order())
    }

    /** The slots lead along the path from its second vertex on. */
    ghost predicate Along(slots: seq<nat>)
      reads this
    {
      g.Valid() && |path| == |slots| + 2 &&
      forall i :: 0 <= i < |slots| ==> g.InRow(path[i + 1], slots[i]) && g.targets[slots[i]] == path[i + 2]
    }

    /** The bundle of every visited path is that of all increasing assignments along it. */
    ghost predicate Carries(walk: Walk, arrivals: seq<Arrival>)
      reads this
    {
      Along(walk.slots) && BundleOf(Query(), walk.start, walk.count, walk.slots, arrivals)
    }

    /** Records exactly the cycles below the path for all arrivals at once. */
    method Dfs(current: nat, arrivals: seq<Arrival>, ghost walk: Walk) returns (foundCycle: bool)
      requires Valid() && path[|path| - 1] == current && Carries(walk, arrivals)
      modifies `path, `histogram, visited, closingAfter
      ensures Valid() && path == old(path) && visited[..] == old(visited[..])
      ensures histogram == old(histogram) + BundleOwed(Query(), path, arrivals, g.Begin(current))
      ensures foundCycle <==> BundleOwed(Query(), path, arrivals, g.Begin(current)) != multiset{}
      decreases Query().Free(path), 2
    {
      hide Sound, Marks, BundleOwed, Weigh, EventsAt, OwedAt, Arrivals, Reached, Copies;
      foundCycle := false;
      ghost var s, full := Query(), path;
      if arrivals == [] {
        BundleTooLate(s, full, arrivals);
        return;
      }
      var reaches := CanReachRoot(Query(), closingAfter, current, arrivals[0].timestamp);
      if !reaches {
        BundleTooLate(s, full, arrivals);
        return;
      }
      foundCycle := DfsRow(current, arrivals, walk);
    }

    /** All slots of the current vertex. */
    method DfsRow(current: nat, arrivals: seq<Arrival>, ghost walk: Walk) returns (foundCycle: bool)
      requires Valid() && path[|path| - 1] == current && Carries(walk, arrivals)
      modifies `path, `histogram, visited, closingAfter
      ensures Valid() && path == old(path) && visited[..] == old(visited[..])
      ensures histogram == old(histogram) + BundleOwed(Query(), path, arrivals, g.Begin(current))
      ensures foundCycle <==> BundleOwed(Query(), path, arrivals, g.Begin(current)) != multiset{}
      decreases Query().Free(path), 1, 1
    {
      hide Sound, Marks, BundleOwed, Weigh, EventsAt, OwedAt, BundleOf;
      foundCycle := false;
      ghost var s, full, marks, got := Query(), path, visited[..], multiset{};
      for slot := g.Begin(current) to g.End(current)
        invariant Valid() && path == full && visited[..] == marks
        invariant histogram == old(histogram) + got
        invariant got + BundleOwed(s, full, arrivals, slot) == BundleOwed(s, full, arrivals, g.Begin(current))
        invariant foundCycle <==> got != multiset{}
      {
        var found := DfsSlot(current, arrivals, slot, walk);
        foundCycle := foundCycle || found;
        BundleStep(s, full, arrivals, slot);
        got := got + Weigh(EventsAt(s, full, slot), arrivals);
      }
      BundleEnd(s, full, arrivals);
      assert got == BundleOwed(s, full, arrivals, g.Begin(current));
    }

    /** One slot, for all arrivals. */
    method DfsSlot(current: nat, arrivals: seq<Arrival>, slot: nat, ghost walk: Walk) returns (found: bool)
      requires Valid() && path[|path| - 1] == current && Carries(walk, arrivals) && g.InRow(current, slot)
      modifies `path, `histogram, visited, closingAfter
      ensures Valid() && path == old(path) && visited[..] == old(visited[..])
      ensures histogram == old(histogram) + Weigh(EventsAt(Query(), path, slot), arrivals)
      ensures found <==> Weigh(EventsAt(Query(), path, slot), arrivals) != multiset{}
      decreases Query().Free(path), 1, 0
    {
      hide Weigh, Sound, Arrivals, Reached, Copies, OnwardAll;
      ghost var s, full, marks := Query(), path, visited[..];
      var next := g.targets[slot];
      if next == root && |path| >= 2 {
        var count := ClosingCount(Query(), arrivals, slot, full);
        RepeatOne(|path|, count);
        histogram := histogram[|path| := histogram[|path|] + count];
        return count != 0;
      }
      if visited[next] || !Query().MayGrow(|path|) {
        BundleSkipped(s, full, arrivals, slot);
        return false;
      }
      var nextArrivals := ExtendBundle(Query(), arrivals, slot, full);
      if nextArrivals == [] {
        WeighEmpty(OwedAt(s, full + [next], g.Begin(next)));
        return false;
      }
      BundleExtends(s, walk.start, walk.count, walk.slots, arrivals, slot, nextArrivals);
      found := Descend(next, nextArrivals, walk.(slots := walk.slots + [slot]));
    }

    /** Visits `next` and comes back. */
    method Descend(next: nat, arrivals: seq<Arrival>, ghost walk: Walk) returns (found: bool)
      requires Valid() && next < g.Order() && next !in path && walk.slots != []
      requires Along(walk.slots[..|walk.slots| - 1]) && BundleOf(Query(), walk.start, walk.count, walk.slots, arrivals)
      requires g.InRow(path[|path| - 1], walk.slots[|walk.slots| - 1]) && g.targets[walk.slots[|walk.slots| - 1]] == next
      modifies `path, `histogram, visited, closingAfter
      ensures Valid() && path == old(path) && visited[..] == old(visited[..]) && Query().IsPath(path + [next])
      ensures histogram == old(histogram) + Weigh(OwedAt(Query(), path + [next], g.Begin(next)), arrivals)
      ensures found <==> Weigh(OwedAt(Query(), path + [next], g.Begin(next)), arrivals) != multiset{}
      decreases Query().Free(path), 0
    {
      hide Weigh, Sound, Marks, BundleOf;
      ghost var s, full, marks := Query(), path, visited[..];
      MarkOne(full, marks, g.Order(), next);
      assert next in s.Free(full) && next !in s.Free(full + [next]);
      visited[next] := true;
      path := path + [next];
      assert visited[..] == marks[next := true];
      found := Dfs(next, arrivals, walk);
      path := path[..|path| - 1];
      visited[next] := false;
      assert visited[..] == marks[next := true][next := false];
      assert path == full && visited[..] == marks;
    }

    /** Everything is forgotten between start events. */
    method Reset(root: nat, first: nat, start: int)
      requires g.Valid() && visited.Length == closingAfter.Length == g.Order() && first < g.Order()
      requires Temporal(g, times, root, start + width, cap).Valid()
      modifies `root, `windowEnd, `path, visited, closingAfter
      ensures Query() == Temporal(g, times, root, start + width, cap) && path == [root, first] && Valid()
    {
      windowEnd := start + width;
      this.root := root;
      forall v | 0 <= v < closingAfter.Length { closingAfter[v] := None; }
      forall v | 0 <= v < visited.Length { visited[v] := false; }
      path := [root, first];
      visited[root] := true;
      visited[first] := true;
    }

    /** All events of one start edge with the same timestamp, at once. */
    method Start(root: nat, first: nat, start: int, count: nat)
      requires g.Valid() && visited.Length == closingAfter.Length == g.Order() && first < g.Order()
      requires Temporal(g, times, root, start + width, cap).Valid()
      modifies this, visited, closingAfter
      ensures histogram == old(histogram) +
                           Repeat(Subtree(Temporal(g, times, root, start + width, cap), [root, first], start), count)
    {
      hide Sound, Marks, Weigh, Repeat, BundleOf;
      Reset(root, first, start);
      BundleStarts(Query(), start, count);
      var _ := Dfs(first, [Arrival(start, count)], Walk(start, count, []));
      WeighOne(OwedAt(Query(), path, g.Begin(first)), Arrival(start, count));
    }

    /** The distinct timestamps of one start edge with their multiplicities. */
    method CountStarts(slot: nat, ghost root: nat, ghost f: StartEvent -> Histogram, ghost below: int -> Histogram)
      returns (startCounts: seq<Arrival>)
      requires TimesSorted(g, times) && slot < |times|
      requires forall t :: below(t) == f(StartEvent(root, g.targets[slot], t))
      ensures Ascending(startCounts) && Counts(startCounts, times[slot])
      ensures Weigh(below, startCounts) == SlotSum(f, g, times, root, slot, |times[slot]|)
    {
      hide Weigh, Repeat, Counts;
      startCounts := [];
      NothingCounted();
      WeighEmpty(below);
      for j := 0 to |times[slot]|
        invariant Ascending(startCounts) && Weigh(below, startCounts) == SlotSum(f, g, times, root, slot, j)
        invariant Counts(startCounts, times[slot][..j])
      {
        CountsMore(startCounts, times[slot][..j], times[slot][j]);
        assert times[slot][..j + 1] == times[slot][..j] + [times[slot][j]];
        WeighAddCount(below, startCounts, times[slot][j], 1);
        RepeatStep(below(times[slot][j]), 1);
        RepeatStep(below(times[slot][j]), 0);
        startCounts := AddCount(startCounts, times[slot][j], 1);
      }
      assert times[slot][..|times[slot]|] == times[slot];
    }

    /** One start edge: its timestamps are counted first, then each distinct one starts a search. */
    method RunSlot(root: nat, slot: nat) returns (ok: bool)
      requires TimesSorted(g, times) && visited.Length == closingAfter.Length == g.Order() && g.InRow(root, slot)
      modifies this, visited, closingAfter
      ensures ok <==> SlotRuns(g, times, width, false, slot, |times[slot]|)
      ensures ok ==> histogram == old(histogram) + SlotSum(TemporalTally(g, times, width, cap), g, times, root, slot, |times[slot]|)
    {
      hide Weigh, Subtree, Repeat, SlotSum, Counts, SlotRuns;
      ghost var f := TemporalTally(g, times, width, cap);
      var first := g.targets[slot];
      ghost var below: int -> Histogram := t => f(StartEvent(root, first, t));
      var startCounts := CountStarts(slot, root, f, below);
      WeighEmpty(below);
      for i := 0 to |startCounts|
        invariant histogram == old(histogram) + Weigh(below, startCounts[..i])
        invariant forall k :: 0 <= k < i ==> !NoWindow(startCounts[k].timestamp, width)
      {
        if NoWindow(startCounts[i].timestamp, width) {
          SomeRefused(startCounts, g, times, width, slot, i);
          return false;
        }
        WeighSnoc(below, startCounts[..i], startCounts[i]);
        assert startCounts[..i] + [startCounts[i]] == startCounts[..i + 1];
        Start(root, first, startCounts[i].timestamp, startCounts[i].count);
      }
      assert startCounts[..|startCounts|] == startCounts;
      NoneRefused(startCounts, g, times, width, slot);
      return true;
    }

    /** One search per start edge and distinct timestamp. */
    method Run() returns (ok: bool)
      requires TimesSorted(g, times) && visited.Length == closingAfter.Length == g.Order() && histogram == multiset{}
      modifies this, visited, closingAfter
      ensures ok <==> WindowsEnd(g, times, width)
      ensures ok ==> histogram == TemporalTotal(g, times, width, cap)
    {
      hide TemporalTally, RowSum, RowRuns;
      ghost var f := TemporalTally(g, times, width, cap);
      for next := 0 to g.Order()
        invariant histogram == EventSum(f, g, times, next) && AllRun(g, times, width, false, next)
      {
        ok := RunRow(next);
        if !ok {
          return;
        }
      }
      return true;
    }

    /** The start events of one root. */
    method RunRow(root: nat) returns (ok: bool)
      requires TimesSorted(g, times) && visited.Length == closingAfter.Length == g.Order() && root < g.Order()
      modifies this, visited, closingAfter
      ensures ok <==> RowRuns(g, times, width, false, root, g.End(root))
      ensures ok ==> histogram == old(histogram) + RowSum(TemporalTally(g, times, width, cap), g, times, root, g.End(root))
    {
      hide TemporalTally, SlotSum, SlotRuns;
      ghost var f := TemporalTally(g, times, width, cap);
      for slot := g.Begin(root) to g.End(root)
        invariant histogram == old(histogram) + RowSum(f, g, times, root, slot) && RowRuns(g, times, width, false, root, slot)
      {
        ok := RunSlot(root, slot);
        if !ok {
          return;
        }
      }
      return true;
    }
  }

  /** The bundle holds exactly the timestamps of the list. */
  ghost predicate Counts(bundle: seq<Arrival>, list: seq<int>) {
    && (forall i :: 0 <= i < |bundle| ==> bundle[i].timestamp in list)
    && (forall j :: 0 <= j < |list| ==> Has(bundle, list[j]))
  }

  ghost predicate Has(bundle: seq<Arrival>, t: int) {
    exists i :: 0 <= i < |bundle| && bundle[i].timestamp == t
  }

  lemma NothingCounted()
    ensures Counts([], [])
  {
  }

  lemma {:induction false} AddCountHas(bundle: seq<Arrival>, t: int, u: int)
    requires Ascending(bundle)
    ensures Has(AddCount(bundle, t, 1), u) <==> Has(bundle, u) || u == t
  {
    var more := AddCount(bundle, t, 1);
    if bundle == [] {
      assert more[0].timestamp == t;
    } else {
      var rest, last := bundle[..|bundle| - 1], bundle[|bundle| - 1];
      HasSnoc(rest, last, u);
      assert bundle == rest + [last];
      if last.timestamp < t {
        HasSnoc(bundle, Arrival(t, 1), u);
      } else if last.timestamp == t {
        HasSnoc(rest, Arrival(t, last.count + 1), u);
      } else {
        AddCountHas(rest, t, u);
        HasSnoc(AddCount(rest, t, 1), last, u);
      }
    }
  }

  lemma HasSnoc(bundle: seq<Arrival>, a: Arrival, u: int)
    ensures Has(bundle + [a], u) <==> Has(bundle, u) || a.timestamp == u
  {
    var more := bundle + [a];
    if a.timestamp == u {
      assert more[|bundle|].timestamp == u;
    }
    if i :| 0 <= i < |bundle| && bundle[i].timestamp == u {
      assert more[i].timestamp == u;
    }
  }

  lemma CountsMore(bundle: seq<Arrival>, list: seq<int>, t: int)
    requires Ascending(bundle) && Counts(bundle, list)
    ensures Counts(AddCount(bundle, t, 1), list + [t])
  {
    hide AddCount;
    var more := AddCount(bundle, t, 1);
    forall i | 0 <= i < |more| ensures more[i].timestamp in list + [t] {
      AddCountHas(bundle, t, more[i].timestamp);
    }
    forall j | 0 <= j < |list + [t]| ensures Has(more, (list + [t])[j]) {
      AddCountHas(bundle, t, (list + [t])[j]);
    }
  }

  /** A window without an end is found among the distinct timestamps exactly when it is among all. */
  lemma SomeRefused(bundle: seq<Arrival>, g: Csr, times: seq<seq<int>>, width: int, slot: nat, i: nat)
    requires Timed(g, times) && slot < |times| && Counts(bundle, times[slot])
    requires i < |bundle| && NoWindow(bundle[i].timestamp, width)
    ensures !SlotRuns(g, times, width, false, slot, |times[slot]|)
  {
    var j :| 0 <= j < |times[slot]| && times[slot][j] == bundle[i].timestamp;
    assert Refused(g, times, width, false, slot, j);
  }

  lemma NoneRefused(bundle: seq<Arrival>, g: Csr, times: seq<seq<int>>, width: int, slot: nat)
    requires Timed(g, times) && slot < |times| && Counts(bundle, times[slot])
    requires forall i :: 0 <= i < |bundle| ==> !NoWindow(bundle[i].timestamp, width)
    ensures SlotRuns(g, times, width, false, slot, |times[slot]|)
  {
    forall j | 0 <= j < |times[slot]| ensures !Refused(g, times, width, false, slot, j) {
      assert Has(bundle, times[slot][j]);
    }
  }

  lemma WeighOne(f: int -> Histogram, a: Arrival)
    ensures Weigh(f, [a]) == Repeat(f(a.timestamp), a.count)
  {
    WeighSnoc(f, [], a);
    assert [] + [a] == [a];
  }
}
