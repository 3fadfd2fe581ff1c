/** The start events handed to the device, and the cycle-union filter that drops the hopeless ones. */
module WorkItems {
  import opened CsrGraphs
  import opened StartEvents
  import opened TemporalTotals
  import opened CycleUnions
  import opened CycleSearch

  /** The start events of the first `n` timestamps of one slot. */
  ghost function SlotEvents(g: Csr, times: seq<seq<int>>, root: nat, slot: nat, n: nat): seq<StartEvent>
    requires Timed(g, times) && slot < |times| && n <= |times[slot]|
  {
    if n == 0 then [] else SlotEvents(g, times, root, slot, n - 1) + [StartEvent(root, g.targets[slot], times[slot][n - 1])]
  }

  ghost function RowEvents(g: Csr, times: seq<seq<int>>, root: nat, limit: nat): seq<StartEvent>
    requires Timed(g, times) && root < g.Order() && g.Begin(root) <= limit <= g.End(root)
    decreases limit
  {
    if limit == g.Begin(root) then []
    else RowEvents(g, times, root, limit - 1) + SlotEvents(g, times, root, limit - 1, |times[limit - 1]|)
  }

  /** One start event per timestamp of every edge of the roots below `n`. */
  ghost function AllEvents(g: Csr, times: seq<seq<int>>, n: nat): seq<StartEvent>
    requires Timed(g, times) && n <= g.Order()
  {
    if n == 0 then [] else AllEvents(g, times, n - 1) + RowEvents(g, times, n - 1, g.End(n - 1))
  }

  /** What a list of start events yields, one device thread per event. */
  ghost function ListSum(f: StartEvent -> Histogram, events: seq<StartEvent>): Histogram {
    if events == [] then multiset{} else ListSum(f, events[..|events| - 1]) + f(events[|events| - 1])
  }

  lemma ListSumNone(f: StartEvent -> Histogram)
    ensures ListSum(f, []) == multiset{}
  {
  }

  lemma ListSumSnoc(f: StartEvent -> Histogram, events: seq<StartEvent>, e: StartEvent)
    ensures ListSum(f, events + [e]) == ListSum(f, events) + f(e)
  {
    assert (events + [e])[..|events + [e]| - 1] == events;
  }

  lemma {:induction false} ListSumJoin(f: StartEvent -> Histogram, a: seq<StartEvent>, b: seq<StartEvent>)
    ensures ListSum(f, a + b) == ListSum(f, a) + ListSum(f, b)
  {
    if b == [] {
      assert a + b == a;
    } else {
      ListSumJoin(f, a, b[..|b| - 1]);
      assert (a + b)[..|a + b| - 1] == a + b[..|b| - 1];
    }
  }

  lemma {:induction false} SlotEventsSum(f: StartEvent -> Histogram, g: Csr, times: seq<seq<int>>, root: nat, slot: nat, n: nat)
    requires Timed(g, times) && slot < |times| && n <= |times[slot]|
    ensures ListSum(f, SlotEvents(g, times, root, slot, n)) == SlotSum(f, g, times, root, slot, n)
  {
    if n > 0 {
      SlotEventsSum(f, g, times, root, slot, n - 1);
      ListSumSnoc(f, SlotEvents(g, times, root, slot, n - 1), StartEvent(root, g.targets[slot], times[slot][n - 1]));
    }
  }

  lemma {:induction false} RowEventsSum(f: StartEvent -> Histogram, g: Csr, times: seq<seq<int>>, root: nat, limit: nat)
    requires Timed(g, times) && root < g.Order() && g.Begin(root) <= limit <= g.End(root)
    ensures ListSum(f, RowEvents(g, times, root, limit)) == RowSum(f, g, times, root, limit)
    decreases limit
  {
    if limit > g.Begin(root) {
      RowEventsSum(f, g, times, root, limit - 1);
      SlotEventsSum(f, g, times, root, limit - 1, |times[limit - 1]|);
      ListSumJoin(f, RowEvents(g, times, root, limit - 1), SlotEvents(g, times, root, limit - 1, |times[limit - 1]|));
    }
  }

  /** The list of start events yields what the nested loops of the sequential run yield. */
  lemma {:induction false} AllEventsSum(f: StartEvent -> Histogram, g: Csr, times: seq<seq<int>>, n: nat)
    requires Timed(g, times) && n <= g.Order()
    ensures ListSum(f, AllEvents(g, times, n)) == EventSum(f, g, times, n)
  {
    hide ListSum, RowEvents, RowSum;
    if n > 0 {
      AllEventsSum(f, g, times, n - 1);
      RowEventsSum(f, g, times, n - 1, g.End(n - 1));
      ListSumJoin(f, AllEvents(g, times, n - 1), RowEvents(g, times, n - 1, g.End(n - 1)));
    } else {
      ListSumNone(f);
    }
  }

  method BuildStartEvents(g: Csr, times: seq<seq<int>>) returns (events: seq<StartEvent>)
    requires Timed(g, times)
    ensures events == AllEvents(g, times, g.Order())
  {
    events := [];
    for root := 0 to g.Order()
      invariant events == AllEvents(g, times, root)
    {
      for slot := g.Begin(root) to g.End(root)
        invariant events == AllEvents(g, times, root) + RowEvents(g, times, root, slot)
      {
        for j := 0 to |times[slot]|
          invariant events == AllEvents(g, times, root) + RowEvents(g, times, root, slot) + SlotEvents(g, times, root, slot, j)
        {
          events := events + [StartEvent(root, g.targets[slot], times[slot][j])];
        }
      }
    }
  }

  // ---- The filter ----

  /** The first vertex reaches the root over edges that are active in the event's window. */
  ghost predicate Promising(g: Csr, times: seq<seq<int>>, width: int, e: StartEvent)
    requires TimesSorted(g, times)
  {
    Window(g, times, e.start, width).Reaches(e.first, e.root)
  }

  ghost function Kept(g: Csr, times: seq<seq<int>>, width: int, events: seq<StartEvent>): seq<StartEvent>
    requires TimesSorted(g, times)
  {
    if events == [] then []
    else
      Kept(g, times, width, events[..|events| - 1]) +
      if Promising(g, times, width, events[|events| - 1]) then [events[|events| - 1]] else []
  }

  /** Exactly the events without a walk to the root are dropped. */
  lemma {:induction false} KeptExactly(g: Csr, times: seq<seq<int>>, width: int, events: seq<StartEvent>, e: StartEvent)
    requires TimesSorted(g, times)
    ensures e in Kept(g, times, width, events) <==> e in events && Promising(g, times, width, e)
  {
    if events != [] {
      var front, last := events[..|events| - 1], events[|events| - 1];
      KeptExactly(g, times, width, front, e);
      assert e in events <==> e in front || e == last;
    }
  }

  /** An event that is kept has a walk from its first vertex to its root with an event of the window at every step. */
  lemma KeptHasWalk(g: Csr, times: seq<seq<int>>, width: int, events: seq<StartEvent>, e: StartEvent) returns (q: seq<nat>)
    requires TimesSorted(g, times) && e in Kept(g, times, width, events)
    ensures e in events && q != [] && q[0] == e.first && q[|q| - 1] == e.root
    ensures forall i :: 0 < i < |q| ==>
              exists slot, j :: g.InRow(q[i - 1], slot) && g.targets[slot] == q[i] && 0 <= j < |times[slot]| &&
                e.start < times[slot][j] <= e.start + width
  {
    KeptExactly(g, times, width, events, e);
    q := ReachedByWalk(Window(g, times, e.start, width), e.first, e.root);
  }

  /** And every event with such a walk is kept, as often as it is listed. */
  lemma WalkIsKept(g: Csr, times: seq<seq<int>>, width: int, events: seq<StartEvent>, e: StartEvent, q: seq<nat>)
    requires TimesSorted(g, times) && q != [] && q[0] == e.first && q[|q| - 1] == e.root
    requires forall i :: 0 < i < |q| ==>
               exists slot, j :: g.InRow(q[i - 1], slot) && g.targets[slot] == q[i] && 0 <= j < |times[slot]| &&
                 e.start < times[slot][j] <= e.start + width
    ensures multiset(Kept(g, times, width, events))[e] == multiset(events)[e]
  {
    WalkReaches(Window(g, times, e.start, width), q);
    KeptCount(g, times, width, events, e);
  }

  lemma {:induction false} KeptCount(g: Csr, times: seq<seq<int>>, width: int, events: seq<StartEvent>, e: StartEvent)
    requires TimesSorted(g, times)
    ensures multiset(Kept(g, times, width, events))[e] == if Promising(g, times, width, e) then multiset(events)[e] else 0
  {
    hide Promising;
    if events != [] {
      var front, last := events[..|events| - 1], events[|events| - 1];
      KeptCount(g, times, width, front, e);
      assert events == front + [last] && multiset(events) == multiset(front) + multiset{last};
    }
  }

  /** Dropping them loses no temporal cycle. */
  lemma {:induction false} KeptLosesNothing(g: Csr, times: seq<seq<int>>, width: int, cap: Option<nat>, events: seq<StartEvent>)
    requires TimesSorted(g, times)
    ensures ListSum(TemporalTally(g, times, width, cap), Kept(g, times, width, events)) ==
            ListSum(TemporalTally(g, times, width, cap), events)
  {
    hide Promising, TemporalTally, ListSum;
    var f := TemporalTally(g, times, width, cap);
    if events != [] {
      var front, last := events[..|events| - 1], events[|events| - 1];
      KeptLosesNothing(g, times, width, cap, front);
      assert events == front + [last];
      ListSumSnoc(f, front, last);
      if Promising(g, times, width, last) {
        ListSumSnoc(f, Kept(g, times, width, front), last);
      } else {
        assert Kept(g, times, width, events) == Kept(g, times, width, front) + [] == Kept(g, times, width, front);
        UnpromisingAddsNothing(g, times, width, cap, last);
      }
    }
  }

  lemma UnpromisingAddsNothing(g: Csr, times: seq<seq<int>>, width: int, cap: Option<nat>, e: StartEvent)
    requires TimesSorted(g, times) && !Promising(g, times, width, e)
    ensures TemporalTally(g, times, width, cap)(e) == multiset{}
  {
    DroppedHasNoCycle(g, times, width, cap, e);
  }

  lemma {:induction false} EventsInRange(g: Csr, times: seq<seq<int>>, n: nat, e: StartEvent)
    requires Timed(g, times) && n <= g.Order() && e in AllEvents(g, times, n)
    ensures EventInRange(g, e)
  {
    if e in AllEvents(g, times, n - 1) {
      EventsInRange(g, times, n - 1, e);
    } else {
      RowInRange(g, times, n - 1, g.End(n - 1), e);
    }
  }

  lemma {:induction false} RowInRange(g: Csr, times: seq<seq<int>>, root: nat, limit: nat, e: StartEvent)
    requires Timed(g, times) && root < g.Order() && g.Begin(root) <= limit <= g.End(root) && e in RowEvents(g, times, root, limit)
    ensures EventInRange(g, e)
    decreases limit
  {
    if e in RowEvents(g, times, root, limit - 1) {
      RowInRange(g, times, root, limit - 1, e);
    } else {
      SlotInRange(g, times, root, limit - 1, |times[limit - 1]|, e);
    }
  }

  lemma {:induction false} SlotInRange(g: Csr, times: seq<seq<int>>, root: nat, slot: nat, n: nat, e: StartEvent)
    requires Timed(g, times) && root < g.Order() && slot < |times| && n <= |times[slot]| && e in SlotEvents(g, times, root, slot, n)
    ensures EventInRange(g, e)
  {
    if e in SlotEvents(g, times, root, slot, n - 1) {
      SlotInRange(g, times, root, slot, n - 1, e);
    }
  }

  datatype StartEventSet = StartEventSet(events: seq<StartEvent>, generated: nat, dropped: nat)

  // ---- Windows without an end ----

  ghost predicate WindowEnds(e: StartEvent, width: int) {
    width >= 0 && e.start + width <= MAX_TIMESTAMP
  }

  ghost predicate EventsEnd(events: seq<StartEvent>, width: int) {
    forall i :: 0 <= i < |events| ==> WindowEnds(events[i], width)
  }

  lemma EventsEndJoin(a: seq<StartEvent>, b: seq<StartEvent>, width: int)
    ensures EventsEnd(a + b, width) <==> EventsEnd(a, width) && EventsEnd(b, width)
  {
    var both := a + b;
    if EventsEnd(both, width) {
      forall i | 0 <= i < |a| ensures WindowEnds(a[i], width) {
        assert both[i] == a[i];
      }
      forall i | 0 <= i < |b| ensures WindowEnds(b[i], width) {
        assert both[|a| + i] == b[i];
      }
    }
  }

  lemma {:induction false} SlotEventsEnd(g: Csr, times: seq<seq<int>>, width: int, root: nat, slot: nat, n: nat)
    requires Timed(g, times) && slot < |times| && n <= |times[slot]|
    ensures EventsEnd(SlotEvents(g, times, root, slot, n), width) <==> SlotRuns(g, times, width, false, slot, n)
  {
    if n > 0 {
      var last := StartEvent(root, g.targets[slot], times[slot][n - 1]);
      SlotEventsEnd(g, times, width, root, slot, n - 1);
      EventsEndJoin(SlotEvents(g, times, root, slot, n - 1), [last], width);
      assert EventsEnd([last], width) <==> !Refused(g, times, width, false, slot, n - 1) by {
        assert [last][0] == last;
      }
    }
  }

  lemma {:induction false} RowEventsEnd(g: Csr, times: seq<seq<int>>, width: int, root: nat, limit: nat)
    requires Timed(g, times) && root < g.Order() && g.Begin(root) <= limit <= g.End(root)
    ensures EventsEnd(RowEvents(g, times, root, limit), width) <==> RowRuns(g, times, width, false, root, limit)
    decreases limit
  {
    hide EventsEnd, SlotRuns;
    if limit > g.Begin(root) {
      RowEventsEnd(g, times, width, root, limit - 1);
      SlotEventsEnd(g, times, width, root, limit - 1, |times[limit - 1]|);
      EventsEndJoin(RowEvents(g, times, root, limit - 1), SlotEvents(g, times, root, limit - 1, |times[limit - 1]|), width);
    } else {
      NoEventsEnd(width);
    }
  }

  lemma NoEventsEnd(width: int)
    ensures EventsEnd([], width)
  {
  }

  /** The windows of all listed events end exactly when those of all edges and timestamps do. */
  lemma {:induction false} AllEventsEnd(g: Csr, times: seq<seq<int>>, width: int, n: nat)
    requires Timed(g, times) && n <= g.Order()
    ensures EventsEnd(AllEvents(g, times, n), width) <==> AllRun(g, times, width, false, n)
  {
    hide EventsEnd, RowRuns;
    if n > 0 {
      AllEventsEnd(g, times, width, n - 1);
      RowEventsEnd(g, times, width, n - 1, g.End(n - 1));
      EventsEndJoin(AllEvents(g, times, n - 1), RowEvents(g, times, n - 1, g.End(n - 1)), width);
    } else {
      NoEventsEnd(width);
    }
  }

  lemma {:induction false} FittingIsAll(f: StartEvent -> Histogram, width: int, events: seq<StartEvent>)
    requires EventsEnd(events, width)
    ensures ListSum(Fitting(f, width), events) == ListSum(f, events)
  {
    if events != [] {
      FittingIsAll(f, width, events[..|events| - 1]);
    }
  }

  /** The events handed to the device; `None` for a negative width and, with the filter, for a window without an end. */
  method BuildTemporalStartEvents(g: Csr, times: seq<seq<int>>, inG: Csr, inTimes: seq<seq<int>>, width: int, filter: bool)
    returns (r: Option<StartEventSet>)
    requires ViewOk(g, times, inG, inTimes)
    ensures r == None <==>
            width < 0 ||
            (filter && exists v, slot, j :: g.InRow(v, slot) && 0 <= j < |times[slot]| && times[slot][j] + width > 0x7FFF_FFFF_FFFF_FFFF)
    ensures r.Some? ==> r.value.generated == |AllEvents(g, times, g.Order())| == |r.value.events| + r.value.dropped
    ensures r.Some? ==> r.value.events == if filter then Kept(g, times, width, AllEvents(g, times, g.Order())) else AllEvents(g, times, g.Order())
    ensures r.Some? ==> forall cap :: ListSum(TemporalTally(g, times, width, cap), r.value.events) == TemporalTotal(g, times, width, cap)
  {
    hide TemporalTally, ListSum, AllEvents, EventsEnd, AllRun, Kept;
    if width < 0 {
      return None;
    }
    var all := BuildStartEvents(g, times);
    forall cap ensures ListSum(TemporalTally(g, times, width, cap), all) == TemporalTotal(g, times, width, cap) {
      AllEventsSum(TemporalTally(g, times, width, cap), g, times, g.Order());
    }
    if !filter {
      return Some(StartEventSet(all, |all|, 0));
    }
    WindowsEndExactly(g, times, width);
    AllEventsEnd(g, times, width, g.Order());
    var kept, dropped, ok := FilterEvents(g, times, inG, inTimes, width, all);
    if !ok {
      return None;
    }
    forall cap ensures ListSum(TemporalTally(g, times, width, cap), kept) == TemporalTotal(g, times, width, cap) {
      KeptLosesNothing(g, times, width, cap, all);
    }
    return Some(StartEventSet(kept, |all|, dropped));
  }

  method FilterEvents(g: Csr, times: seq<seq<int>>, inG: Csr, inTimes: seq<seq<int>>, width: int, all: seq<StartEvent>)
    returns (kept: seq<StartEvent>, dropped: nat, ok: bool)
    requires ViewOk(g, times, inG, inTimes) && width >= 0 && all == AllEvents(g, times, g.Order())
    ensures ok <==> EventsEnd(all, width)
    ensures ok ==> kept == Kept(g, times, width, all) && |kept| + dropped == |all|
  {
    hide AllEvents;
    kept, dropped, ok := [], 0, true;
    for i := 0 to |all|
      invariant kept == Kept(g, times, width, all[..i]) && |kept| + dropped == i && ok
      invariant forall k :: 0 <= k < i ==> WindowEnds(all[k], width)
    {
      var e := all[i];
      EventsInRange(g, times, g.Order(), e);
      assert all[..i + 1][..i] == all[..i];
      var candidates := ComputeCycleUnion(g, times, inG, inTimes, e, width);
      if candidates == None {
        return kept, dropped, false;
      }
      UnionEmptyIff(Window(g, times, e.start, width), e.root, e.first, candidates.value.Members());
      if candidates.value.includedCount == 0 {
        dropped := dropped + 1;
      } else {
        kept := kept + [e];
      }
    }
    assert all[..|all|] == all;
  }
}
