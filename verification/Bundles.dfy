/** Arrival bundles: the arrival times of a vertex path with their multiplicities. */
module Bundles {
  import opened TemporalSearch
  import CycleSearch

  type Histogram = CycleSearch.Histogram

  datatype Arrival = Arrival(timestamp: int, count: nat)

  ghost predicate Ascending(bundle: seq<Arrival>) {
    forall i, j :: 0 <= i < j < |bundle| ==> bundle[i].timestamp < bundle[j].timestamp
  }

  /** The sum of `f` over the arrivals, each as often as it occurs. */
  ghost function Weigh(f: int -> Histogram, bundle: seq<Arrival>): Histogram {
    if bundle == [] then multiset{}
    else
      var last := bundle[|bundle| - 1];
      Weigh(f, bundle[..|bundle| - 1]) + Repeat(f(last.timestamp), last.count)
  }

  lemma WeighSnoc(f: int -> Histogram, bundle: seq<Arrival>, a: Arrival)
    ensures Weigh(f, bundle + [a]) == Weigh(f, bundle) + Repeat(f(a.timestamp), a.count)
  {
    assert (bundle + [a])[..|bundle|] == bundle;
  }

  lemma WeighEmpty(f: int -> Histogram)
    ensures Weigh(f, []) == multiset{}
  {
  }

  lemma {:induction false} WeighSum(f: int -> Histogram, g: int -> Histogram, h: int -> Histogram, bundle: seq<Arrival>)
    requires forall t :: f(t) == g(t) + h(t)
    ensures Weigh(f, bundle) == Weigh(g, bundle) + Weigh(h, bundle)
  {
    if bundle != [] {
      var last := bundle[|bundle| - 1];
      WeighSum(f, g, h, bundle[..|bundle| - 1]);
      RepeatSum(g(last.timestamp), h(last.timestamp), last.count);
    }
  }

  lemma {:induction false} WeighNothing(f: int -> Histogram, bundle: seq<Arrival>)
    requires forall i :: 0 <= i < |bundle| ==> f(bundle[i].timestamp) == multiset{}
    ensures Weigh(f, bundle) == multiset{}
  {
    if bundle != [] {
      WeighNothing(f, bundle[..|bundle| - 1]);
      RepeatNothing(bundle[|bundle| - 1].count);
    }
  }

  /** Adds `count` arrivals at time `t`, keeping the times ascending. */
  function AddCount(bundle: seq<Arrival>, t: int, count: nat): (r: seq<Arrival>)
    requires Ascending(bundle)
    ensures Ascending(r) && r != []
    ensures forall i :: 0 <= i < |r| ==> r[i].timestamp == t || exists j :: 0 <= j < |bundle| && bundle[j].timestamp == r[i].timestamp
  {
    if bundle == [] then [Arrival(t, count)]
    else
      var rest, last := bundle[..|bundle| - 1], bundle[|bundle| - 1];
      assert forall i :: 0 <= i < |rest| ==> rest[i] == bundle[i];
      if last.timestamp < t then bundle + [Arrival(t, count)]
      else if last.timestamp == t then rest + [Arrival(t, last.count + count)]
      else AddCount(rest, t, count) + [last]
  }

  lemma {:induction false} WeighAddCount(f: int -> Histogram, bundle: seq<Arrival>, t: int, count: nat)
    requires Ascending(bundle)
    ensures Weigh(f, AddCount(bundle, t, count)) == Weigh(f, bundle) + Repeat(f(t), count)
  {
    hide Weigh, Repeat;
    if bundle == [] {
      WeighSnoc(f, [], Arrival(t, count));
      WeighEmpty(f);
      assert [] + [Arrival(t, count)] == [Arrival(t, count)];
    } else {
      var rest, last := bundle[..|bundle| - 1], bundle[|bundle| - 1];
      assert rest + [last] == bundle;
      if last.timestamp < t {
        WeighSnoc(f, bundle, Arrival(t, count));
      } else if last.timestamp == t {
        SameTime(f, rest, last, count);
      } else {
        WeighAddCount(f, rest, t, count);
        Below(f, rest, AddCount(rest, t, count), last, Repeat(f(t), count));
      }
    }
  }

  lemma Below(f: int -> Histogram, rest: seq<Arrival>, more: seq<Arrival>, last: Arrival, h: Histogram)
    requires Weigh(f, more) == Weigh(f, rest) + h
    ensures Weigh(f, more + [last]) == Weigh(f, rest + [last]) + h
  {
    hide Weigh, Repeat;
    WeighSnoc(f, more, last);
    WeighSnoc(f, rest, last);
  }

  lemma SameTime(f: int -> Histogram, rest: seq<Arrival>, last: Arrival, count: nat)
    ensures Weigh(f, rest + [Arrival(last.timestamp, last.count + count)]) ==
            Weigh(f, rest + [last]) + Repeat(f(last.timestamp), count)
  {
    hide Weigh, Repeat;
    WeighSnoc(f, rest, Arrival(last.timestamp, last.count + count));
    WeighSnoc(f, rest, last);
    RepeatCount(f(last.timestamp), last.count, count);
  }

  // ---- The times of a bundle ----

  /** `count` copies of every time. */
  ghost function Copies(times: multiset<int>, count: nat): multiset<int> {
    if count == 0 then multiset{} else times + Copies(times, count - 1)
  }

  /** The arrival times, each as often as the bundle says. */
  ghost function Arrivals(bundle: seq<Arrival>): multiset<int> {
    if bundle == [] then multiset{}
    else
      var last := bundle[|bundle| - 1];
      Arrivals(bundle[..|bundle| - 1]) + Copies(multiset{last.timestamp}, last.count)
  }

  lemma ArrivalsSnoc(bundle: seq<Arrival>, a: Arrival)
    ensures Arrivals(bundle + [a]) == Arrivals(bundle) + Copies(multiset{a.timestamp}, a.count)
  {
    assert (bundle + [a])[..|bundle|] == bundle;
  }

  lemma ArrivalsEmpty()
    ensures Arrivals([]) == multiset{}
  {
  }

  lemma {:induction false} CopiesCount(times: multiset<int>, a: nat, b: nat)
    ensures Copies(times, a + b) == Copies(times, a) + Copies(times, b)
  {
    if b > 0 {
      CopiesCount(times, a, b - 1);
      assert Copies(times, a + b) == times + Copies(times, a + (b - 1));
    }
  }

  lemma {:induction false} CopiesSum(a: multiset<int>, b: multiset<int>, count: nat)
    ensures Copies(a + b, count) == Copies(a, count) + Copies(b, count)
  {
    if count > 0 {
      CopiesSum(a, b, count - 1);
    }
  }

  lemma {:induction false} CopiesNothing(count: nat)
    ensures Copies(multiset{}, count) == multiset{}
  {
    if count > 0 {
      CopiesNothing(count - 1);
    }
  }

  lemma {:induction false} ArrivalsAddCount(bundle: seq<Arrival>, t: int, count: nat)
    requires Ascending(bundle)
    ensures Arrivals(AddCount(bundle, t, count)) == Arrivals(bundle) + Copies(multiset{t}, count)
  {
    hide Arrivals, Copies;
    if bundle == [] {
      ArrivalsSnoc([], Arrival(t, count));
      ArrivalsEmpty();
      assert [] + [Arrival(t, count)] == [Arrival(t, count)];
    } else {
      var rest, last := bundle[..|bundle| - 1], bundle[|bundle| - 1];
      assert rest + [last] == bundle;
      ArrivalsSnoc(rest, last);
      if last.timestamp < t {
        ArrivalsSnoc(bundle, Arrival(t, count));
      } else if last.timestamp == t {
        ArrivalsSnoc(rest, Arrival(t, last.count + count));
        CopiesCount(multiset{t}, last.count, count);
      } else {
        ArrivalsAddCount(rest, t, count);
        ArrivalsSnoc(AddCount(rest, t, count), last);
      }
    }
  }

  /** The times of the events of a slot that may follow an arrival at time `t`. */
  ghost function Onward(s: Temporal, slot: nat, t: int): multiset<int>
    requires s.Valid() && slot < |s.times|
  {
    multiset(s.times[slot][s.From(slot, t)..s.To(slot, t)])
  }

  /** The same for all arrivals of a bundle, with multiplicities. */
  ghost function OnwardAll(s: Temporal, slot: nat, arrivals: seq<Arrival>): multiset<int>
    requires s.Valid() && slot < |s.times|
  {
    if arrivals == [] then multiset{}
    else
      var last := arrivals[|arrivals| - 1];
      OnwardAll(s, slot, arrivals[..|arrivals| - 1]) + Copies(Onward(s, slot, last.timestamp), last.count)
  }

  lemma OnwardAllSnoc(s: Temporal, slot: nat, arrivals: seq<Arrival>, a: Arrival)
    requires s.Valid() && slot < |s.times|
    ensures OnwardAll(s, slot, arrivals + [a]) == OnwardAll(s, slot, arrivals) + Copies(Onward(s, slot, a.timestamp), a.count)
  {
    assert (arrivals + [a])[..|arrivals|] == arrivals;
  }

  lemma OnwardAllEmpty(s: Temporal, slot: nat)
    requires s.Valid() && slot < |s.times|
    ensures OnwardAll(s, slot, []) == multiset{}
  {
  }

  /** What the events of one slot contribute to an arrival at time `t`. */
  ghost function EventsAt(s: Temporal, p: seq<nat>, slot: nat): int -> Histogram
    requires AtSlot(s, p, slot) && slot < s.Limit(p)
  {
    t => OwedEvents(s, p, slot, s.From(slot, t), s.To(slot, t))
  }

  /** What the slots from `slot` on contribute to an arrival at time `t`. */
  ghost function OwedAt(s: Temporal, p: seq<nat>, slot: nat): int -> Histogram
    requires AtSlot(s, p, slot)
  {
    t => Owed(s, p, t, slot)
  }

  lemma {:induction false} RepeatRepeat(h: Histogram, a: nat, b: nat)
    ensures Repeat(Repeat(h, a), b) == Repeat(h, a * b)
  {
    hide Repeat;
    if b > 0 {
      var product := a * (b - 1);
      assert a * b == a + product;
      RepeatRepeat(h, a, b - 1);
      RepeatStep(Repeat(h, a), b);
      RepeatCount(h, a, product);
    } else {
      assert a * b == 0;
      RepeatStep(Repeat(h, a), 0);
      RepeatStep(h, 0);
    }
  }

  lemma RepeatStep(h: Histogram, count: nat)
    ensures Repeat(h, count) == if count == 0 then multiset{} else h + Repeat(h, count - 1)
  {
  }

  /** The number of closing events over all arrivals. */
  method ClosingCount(s: Temporal, arrivals: seq<Arrival>, slot: nat, ghost p: seq<nat>) returns (total: nat)
    requires AtSlot(s, p, slot) && slot < s.Limit(p) && s.g.targets[slot] == s.root && |p| >= 2
    ensures Repeat(multiset{|p|}, total) == Weigh(EventsAt(s, p, slot), arrivals)
  {
    hide Repeat, Weigh;
    total := 0;
    ghost var f := EventsAt(s, p, slot);
    RepeatStep(multiset{|p|}, 0);
    WeighEmpty(f);
    for i := 0 to |arrivals|
      invariant Repeat(multiset{|p|}, total) == Weigh(f, arrivals[..i])
    {
      var begin, end := s.From(slot, arrivals[i].timestamp), s.To(slot, arrivals[i].timestamp);
      var more: nat := (end - begin) * arrivals[i].count;
      ClosingEvents(s, p, slot, begin, end);
      RepeatRepeat(multiset{|p|}, end - begin, arrivals[i].count);
      RepeatCount(multiset{|p|}, total, more);
      WeighSnoc(f, arrivals[..i], arrivals[i]);
      assert arrivals[..i] + [arrivals[i]] == arrivals[..i + 1];
      total := total + more;
    }
    assert arrivals[..|arrivals|] == arrivals;
  }

  /** The arrivals at the end of one more edge: every increasing continuation, merged by time. */
  method ExtendBundle(s: Temporal, arrivals: seq<Arrival>, slot: nat, ghost p: seq<nat>) returns (bundle: seq<Arrival>)
    requires AtSlot(s, p, slot) && slot < s.Limit(p) && s.g.targets[slot] !in p && s.MayGrow(|p|)
    ensures Ascending(bundle) && Arrivals(bundle) == OnwardAll(s, slot, arrivals)
    ensures var next := s.g.targets[slot];
            s.IsPath(p + [next]) &&
            Weigh(OwedAt(s, p + [next], s.g.Begin(next)), bundle) == Weigh(EventsAt(s, p, slot), arrivals)
  {
    hide Weigh, Arrivals, OnwardAll, Copies, OwedAt, EventsAt, Onward;
    bundle := [];
    ArrivalsEmpty();
    OnwardAllEmpty(s, slot);
    ghost var next := s.g.targets[slot];
    assert s.IsPath(p + [next]);
    ghost var f, below := EventsAt(s, p, slot), OwedAt(s, p + [next], s.g.Begin(next));
    WeighEmpty(f);
    WeighEmpty(below);
    for i := 0 to |arrivals|
      invariant Ascending(bundle) && Weigh(below, bundle) == Weigh(f, arrivals[..i])
      invariant Arrivals(bundle) == OnwardAll(s, slot, arrivals[..i])
    {
      bundle := ExtendArrival(s, bundle, arrivals[i], slot, p);
      WeighSnoc(f, arrivals[..i], arrivals[i]);
      OnwardAllSnoc(s, slot, arrivals[..i], arrivals[i]);
      assert arrivals[..i] + [arrivals[i]] == arrivals[..i + 1];
    }
    assert arrivals[..|arrivals|] == arrivals;
  }

  /** One arrival continued by every later event of the slot. */
  method ExtendArrival(s: Temporal, before: seq<Arrival>, arrival: Arrival, slot: nat, ghost p: seq<nat>)
    returns (bundle: seq<Arrival>)
    requires AtSlot(s, p, slot) && slot < s.Limit(p) && s.g.targets[slot] !in p && s.MayGrow(|p|) && Ascending(before)
    ensures Ascending(bundle)
    ensures Arrivals(bundle) == Arrivals(before) + Copies(Onward(s, slot, arrival.timestamp), arrival.count)
    ensures var next := s.g.targets[slot];
            s.IsPath(p + [next]) &&
            Weigh(OwedAt(s, p + [next], s.g.Begin(next)), bundle) ==
            Weigh(OwedAt(s, p + [next], s.g.Begin(next)), before) +
            Repeat(EventsAt(s, p, slot)(arrival.timestamp), arrival.count)
  {
    hide Weigh, Arrivals, Copies, Repeat;
    bundle := before;
    ghost var next := s.g.targets[slot];
    assert s.IsPath(p + [next]);
    ghost var below := OwedAt(s, p + [next], s.g.Begin(next));
    var begin, end := s.From(slot, arrival.timestamp), s.To(slot, arrival.timestamp);
    ghost var read: multiset<int> := multiset{};
    CopiesNothing(arrival.count);
    for j := begin to end
      invariant Ascending(bundle) && read == multiset(s.times[slot][begin..j])
      invariant Arrivals(bundle) == Arrivals(before) + Copies(read, arrival.count)
      invariant Weigh(below, bundle) + Repeat(OwedEvents(s, p, slot, j, end), arrival.count) ==
                Weigh(below, before) + Repeat(OwedEvents(s, p, slot, begin, end), arrival.count)
    {
      ghost var t := s.times[slot][j];
      EventsOnward(s, p, slot, j, end);
      RepeatSum(below(t), OwedEvents(s, p, slot, j + 1, end), arrival.count);
      WeighAddCount(below, bundle, t, arrival.count);
      ArrivalsAddCount(bundle, t, arrival.count);
      CopiesSum(read, multiset{t}, arrival.count);
      assert s.times[slot][begin..j + 1] == s.times[slot][begin..j] + [t];
      read := read + multiset{t};
      bundle := AddCount(bundle, s.times[slot][j], arrival.count);
    }
    NoEventsLeft(s, p, slot, end);
    RepeatNothing(arrival.count);
  }

  lemma EventsOnward(s: Temporal, p: seq<nat>, slot: nat, j: nat, end: nat)
    requires AtSlot(s, p, slot) && slot < s.Limit(p) && j < end <= |s.times[slot]|
    requires s.g.targets[slot] !in p && s.MayGrow(|p|)
    ensures s.IsPath(p + [s.g.targets[slot]])
    ensures OwedEvents(s, p, slot, j, end) ==
            OwedAt(s, p + [s.g.targets[slot]], s.g.Begin(s.g.targets[slot]))(s.times[slot][j]) + OwedEvents(s, p, slot, j + 1, end)
  {
  }

  lemma NoEventsLeft(s: Temporal, p: seq<nat>, slot: nat, end: nat)
    requires AtSlot(s, p, slot) && slot < s.Limit(p) && end <= |s.times[slot]|
    ensures OwedEvents(s, p, slot, end, end) == multiset{}
  {
  }
}
