/**
 * What the temporal search means: a set of cycles of events, described without reference to any
 * search.  A cycle is the list of its hops; hop `i` leaves the vertex that hop `i - 1` enters.
 */
module TemporalSets {
  import opened TemporalSearch
  import opened CycleSets

  /** One event: a slot and the position of its timestamp. */
  datatype Hop = Hop(slot: nat, event: nat)

  ghost predicate HopExists(s: Temporal, h: Hop) {
    s.Valid() && h.slot < |s.times| && h.event < |s.times[h.slot]|
  }

  function TimeOf(s: Temporal, h: Hop): int
    requires HopExists(s, h)
  {
    s.times[h.slot][h.event]
  }

  /** The cycles recorded below `p` by the slots from `slot` on, as lists of hops. */
  ghost function Found(s: Temporal, p: seq<nat>, q: seq<Hop>, t: int, slot: nat): set<seq<Hop>>
    requires AtSlot(s, p, slot)
    decreases s.Free(p), s.Limit(p) - slot
  {
    if slot == s.Limit(p) then {}
    else FoundEvents(s, p, q, slot, s.From(slot, t), s.To(slot, t)) + Found(s, p, q, t, slot + 1)
  }

  ghost function FoundEvents(s: Temporal, p: seq<nat>, q: seq<Hop>, slot: nat, j: nat, end: nat): set<seq<Hop>>
    requires AtSlot(s, p, slot) && slot < s.Limit(p) && j <= end <= |s.times[slot]|
    decreases s.Free(p), s.Limit(p) - slot, end - j
  {
    if j == end then {} else FoundEvent(s, p, q, slot, j) + FoundEvents(s, p, q, slot, j + 1, end)
  }

  ghost function FoundEvent(s: Temporal, p: seq<nat>, q: seq<Hop>, slot: nat, j: nat): set<seq<Hop>>
    requires AtSlot(s, p, slot) && slot < s.Limit(p) && j < |s.times[slot]|
    decreases s.Free(p), s.Limit(p) - slot, 0
  {
    var next, more := s.g.targets[slot], q + [Hop(slot, j)];
    if next == s.root && |p| >= 2 then {more}
    else if next in p || !s.MayGrow(|p|) then {}
    else
      assert next in s.Free(p) && next !in s.Free(p + [next]);
      Found(s, p + [next], more, s.times[slot][j], s.g.Begin(next))
  }

  /** A recorded cycle extends the hops so far, by an event the search still had to read. */
  lemma {:induction false} FoundThrough(s: Temporal, p: seq<nat>, q: seq<Hop>, t: int, slot: nat, h: seq<Hop>)
    requires AtSlot(s, p, slot) && h in Found(s, p, q, t, slot)
    ensures |q| < |h| && q <= h && slot <= h[|q|].slot
    decreases s.Free(p), s.Limit(p) - slot
  {
    if h in FoundEvents(s, p, q, slot, s.From(slot, t), s.To(slot, t)) {
      EventsThrough(s, p, q, slot, s.From(slot, t), s.To(slot, t), h);
    } else {
      FoundThrough(s, p, q, t, slot + 1, h);
    }
  }

  lemma {:induction false} EventsThrough(s: Temporal, p: seq<nat>, q: seq<Hop>, slot: nat, j: nat, end: nat, h: seq<Hop>)
    requires AtSlot(s, p, slot) && slot < s.Limit(p) && j <= end <= |s.times[slot]|
    requires h in FoundEvents(s, p, q, slot, j, end)
    ensures |q| < |h| && q <= h && h[|q|].slot == slot && j <= h[|q|].event < end && h in FoundEvent(s, p, q, slot, h[|q|].event)
    decreases s.Free(p), s.Limit(p) - slot, end - j
  {
    if h in FoundEvent(s, p, q, slot, j) {
      EventThrough(s, p, q, slot, j, h);
    } else {
      EventsThrough(s, p, q, slot, j + 1, end, h);
    }
  }

  lemma {:induction false} EventThrough(s: Temporal, p: seq<nat>, q: seq<Hop>, slot: nat, j: nat, h: seq<Hop>)
    requires AtSlot(s, p, slot) && slot < s.Limit(p) && j < |s.times[slot]| && h in FoundEvent(s, p, q, slot, j)
    ensures q + [Hop(slot, j)] <= h && h[|q|] == Hop(slot, j)
    decreases s.Free(p), s.Limit(p) - slot, 0
  {
    var next, more := s.g.targets[slot], q + [Hop(slot, j)];
    if !(next == s.root && |p| >= 2) {
      assert next in s.Free(p) && next !in s.Free(p + [next]);
      FoundThrough(s, p + [next], more, s.times[slot][j], s.g.Begin(next), h);
    }
    assert h[..|more|][|q|] == Hop(slot, j);
  }

  /** Every cycle is recorded once per assignment of events: the search owes the histogram of the set. */
  lemma {:induction false} OwedIsLengths(s: Temporal, p: seq<nat>, q: seq<Hop>, t: int, slot: nat)
    requires AtSlot(s, p, slot) && |q| == |p| - 1
    ensures Owed(s, p, t, slot) == Lengths(Found(s, p, q, t, slot))
    decreases s.Free(p), s.Limit(p) - slot
  {
    hide Lengths;
    if slot < s.Limit(p) {
      var here, later := FoundEvents(s, p, q, slot, s.From(slot, t), s.To(slot, t)), Found(s, p, q, t, slot + 1);
      forall h | h in here ensures h !in later {
        EventsThrough(s, p, q, slot, s.From(slot, t), s.To(slot, t), h);
        if h in later { FoundThrough(s, p, q, t, slot + 1, h); }
      }
      LengthsUnion(here, later);
      OwedIsLengths(s, p, q, t, slot + 1);
      EventsAreLengths(s, p, q, slot, s.From(slot, t), s.To(slot, t));
    } else {
      LengthsEmpty<Hop>();
    }
  }

  lemma {:induction false} EventsAreLengths(s: Temporal, p: seq<nat>, q: seq<Hop>, slot: nat, j: nat, end: nat)
    requires AtSlot(s, p, slot) && slot < s.Limit(p) && j <= end <= |s.times[slot]| && |q| == |p| - 1
    ensures OwedEvents(s, p, slot, j, end) == Lengths(FoundEvents(s, p, q, slot, j, end))
    decreases s.Free(p), s.Limit(p) - slot, end - j
  {
    hide Lengths, FoundEvent, OwedEvent;
    if j < end {
      var here, later := FoundEvent(s, p, q, slot, j), FoundEvents(s, p, q, slot, j + 1, end);
      EventIsLengths(s, p, q, slot, j);
      EventsAreLengths(s, p, q, slot, j + 1, end);
      forall h | h in here ensures h !in later {
        EventThrough(s, p, q, slot, j, h);
        if h in later { EventsThrough(s, p, q, slot, j + 1, end, h); }
      }
      LengthsUnion(here, later);
    } else {
      LengthsEmpty<Hop>();
    }
  }

  lemma {:induction false} EventIsLengths(s: Temporal, p: seq<nat>, q: seq<Hop>, slot: nat, j: nat)
    requires AtSlot(s, p, slot) && slot < s.Limit(p) && j < |s.times[slot]| && |q| == |p| - 1
    ensures OwedEvent(s, p, slot, j) == Lengths(FoundEvent(s, p, q, slot, j))
    decreases s.Free(p), s.Limit(p) - slot, 0
  {
    var next, more := s.g.targets[slot], q + [Hop(slot, j)];
    if next == s.root && |p| >= 2 {
      LengthsRemove({more}, more);
    } else if next !in p && s.MayGrow(|p|) {
      assert next in s.Free(p) && next !in s.Free(p + [next]);
      OwedIsLengths(s, p + [next], more, s.times[slot][j], s.g.Begin(next));
    }
  }

  // ---- Which cycles those are ----

  /** The hop leaves `v` by an event after `t`, inside the window. */
  ghost predicate Leaves(s: Temporal, v: nat, t: int, h: Hop)
    requires s.Valid()
  {
    s.g.InRow(v, h.slot) && s.Later(h.slot, t, h.event)
  }

  /** The vertex a hop enters. */
  function Enters(s: Temporal, h: Hop): nat
    requires HopExists(s, h)
  {
    s.g.targets[h.slot]
  }

  /** The hops `h` from position `n` on continue a path that stands at `v` at time `t`. */
  ghost predicate Continues(s: Temporal, v: nat, t: int, h: seq<Hop>, n: nat)
    requires s.Valid()
  {
    && n < |h| && Leaves(s, v, t, h[n])
    && forall i :: n < i < |h| ==> Follows(s, h, i)
  }

  /** Hop `i` leaves the vertex that the hop before it enters, later than that hop. */
  ghost predicate Follows(s: Temporal, h: seq<Hop>, i: nat)
    requires s.Valid() && 0 < i < |h|
  {
    HopExists(s, h[i - 1]) && Leaves(s, Enters(s, h[i - 1]), TimeOf(s, h[i - 1]), h[i])
  }

  /** Only the last hop enters the root, and no hop enters a vertex twice. */
  ghost predicate ClosesSimply(s: Temporal, p: seq<nat>, h: seq<Hop>, n: nat)
    requires s.Valid()
  {
    && n < |h| && HopExists(s, h[|h| - 1]) && Enters(s, h[|h| - 1]) == s.root
    && (forall i :: n <= i < |h| - 1 ==> HopExists(s, h[i]) && Enters(s, h[i]) !in p)
    && (forall i, j :: n <= i < j < |h| - 1 ==> HopExists(s, h[i]) && HopExists(s, h[j]) && Enters(s, h[i]) != Enters(s, h[j]))
  }

  ghost predicate Completes(s: Temporal, p: seq<nat>, q: seq<Hop>, t: int, h: seq<Hop>)
    requires s.Valid() && s.IsPath(p)
  {
    && |h| >= 2 && q < h && Continues(s, s.Last(p), t, h, |q|) && ClosesSimply(s, p, h, |q|)
    && (|q| + 1 < |h| && s.cap.Some? ==> |h| <= s.cap.value)
  }

  lemma ContinuesStep(s: Temporal, v: nat, t: int, h: seq<Hop>, n: nat)
    requires s.Valid() && n + 1 < |h| && HopExists(s, h[n])
    ensures Continues(s, v, t, h, n) <==> Leaves(s, v, t, h[n]) && Continues(s, Enters(s, h[n]), TimeOf(s, h[n]), h, n + 1)
  {
    assert Follows(s, h, n + 1) <==> Leaves(s, Enters(s, h[n]), TimeOf(s, h[n]), h[n + 1]);
  }

  lemma ClosesStep(s: Temporal, p: seq<nat>, h: seq<Hop>, n: nat)
    requires s.Valid() && n + 1 < |h| && HopExists(s, h[n])
    ensures ClosesSimply(s, p, h, n) <==> Enters(s, h[n]) !in p && ClosesSimply(s, p + [Enters(s, h[n])], h, n + 1)
  {
    var next := Enters(s, h[n]);
    if ClosesSimply(s, p, h, n) {
      forall i | n + 1 <= i < |h| - 1 ensures Enters(s, h[i]) !in p + [next] {}
    }
    if next !in p && ClosesSimply(s, p + [next], h, n + 1) {
      forall i | n + 1 <= i < |h| - 1 ensures Enters(s, h[i]) !in p && Enters(s, h[i]) != next {
        assert Enters(s, h[i]) !in p + [next];
      }
    }
  }

  lemma CompletesStep(s: Temporal, p: seq<nat>, q: seq<Hop>, t: int, h: seq<Hop>)
    requires s.Valid() && s.IsPath(p) && |q| == |p| - 1 && q < h && |q| + 1 < |h| && HopExists(s, h[|q|])
    ensures var next := Enters(s, h[|q|]);
            s.IsPath(p + [next]) &&
            (Completes(s, p, q, t, h) <==>
             && next !in p && s.MayGrow(|p|) && Leaves(s, s.Last(p), t, h[|q|])
             && Completes(s, p + [next], q + [h[|q|]], TimeOf(s, h[|q|]), h))
  {
    hide Continues, ClosesSimply;
    assert q + [h[|q|]] <= h;
    ContinuesStep(s, s.Last(p), t, h, |q|);
    ClosesStep(s, p, h, |q|);
  }

  lemma CompletesNow(s: Temporal, p: seq<nat>, q: seq<Hop>, t: int, h: Hop)
    requires s.Valid() && s.IsPath(p) && |q| == |p| - 1 && HopExists(s, h)
    ensures Completes(s, p, q, t, q + [h]) <==> |p| >= 2 && Leaves(s, s.Last(p), t, h) && Enters(s, h) == s.root
  {
  }

  /** A search finds exactly the completions of its path. */
  lemma {:induction false} FoundExactly(s: Temporal, p: seq<nat>, q: seq<Hop>, t: int, h: seq<Hop>)
    requires s.Valid() && s.IsPath(p) && |q| == |p| - 1
    ensures h in Found(s, p, q, t, s.First(p)) <==> Completes(s, p, q, t, h)
    decreases s.Free(p), 1
  {
    var n := |q|;
    if h in Found(s, p, q, t, s.First(p)) {
      FoundSlot(s, p, q, t, s.First(p), h);
      var slot, j := h[n].slot, h[n].event;
      s.RangeIsLater(slot, t, j);
      EventExactly(s, p, q, t, slot, j, h);
    }
    if Completes(s, p, q, t, h) {
      var slot, j := h[n].slot, h[n].event;
      s.RangeIsLater(slot, t, j);
      EventExactly(s, p, q, t, slot, j, h);
      SlotFound(s, p, q, t, s.First(p), slot, j, h);
    }
  }

  /** A recorded cycle was recorded by the slot and event of its next hop. */
  lemma {:induction false} FoundSlot(s: Temporal, p: seq<nat>, q: seq<Hop>, t: int, slot: nat, h: seq<Hop>)
    requires AtSlot(s, p, slot) && h in Found(s, p, q, t, slot)
    ensures |q| < |h| && q <= h && slot <= h[|q|].slot < s.Limit(p)
    ensures s.From(h[|q|].slot, t) <= h[|q|].event < s.To(h[|q|].slot, t)
    ensures h in FoundEvent(s, p, q, h[|q|].slot, h[|q|].event)
    decreases s.Limit(p) - slot
  {
    if h in FoundEvents(s, p, q, slot, s.From(slot, t), s.To(slot, t)) {
      EventsThrough(s, p, q, slot, s.From(slot, t), s.To(slot, t), h);
    } else {
      FoundSlot(s, p, q, t, slot + 1, h);
    }
  }

  lemma {:induction false} SlotFound(s: Temporal, p: seq<nat>, q: seq<Hop>, t: int, from: nat, slot: nat, j: nat, h: seq<Hop>)
    requires AtSlot(s, p, from) && from <= slot < s.Limit(p) && s.From(slot, t) <= j < s.To(slot, t)
    requires h in FoundEvent(s, p, q, slot, j)
    ensures h in Found(s, p, q, t, from)
    decreases slot - from
  {
    if from < slot {
      SlotFound(s, p, q, t, from + 1, slot, j, h);
    } else {
      EventFound(s, p, q, slot, s.From(slot, t), s.To(slot, t), j, h);
    }
  }

  lemma {:induction false} EventFound(s: Temporal, p: seq<nat>, q: seq<Hop>, slot: nat, from: nat, end: nat, j: nat, h: seq<Hop>)
    requires AtSlot(s, p, slot) && slot < s.Limit(p) && from <= j < end <= |s.times[slot]| && h in FoundEvent(s, p, q, slot, j)
    ensures h in FoundEvents(s, p, q, slot, from, end)
    decreases j - from
  {
    if from < j {
      EventFound(s, p, q, slot, from + 1, end, j, h);
    }
  }

  /** One event finds exactly the completions that take it. */
  lemma {:induction false} EventExactly(s: Temporal, p: seq<nat>, q: seq<Hop>, t: int, slot: nat, j: nat, h: seq<Hop>)
    requires AtSlot(s, p, slot) && slot < s.Limit(p) && s.Later(slot, t, j) && |q| == |p| - 1
    ensures h in FoundEvent(s, p, q, slot, j) <==> |q| < |h| && h[|q|] == Hop(slot, j) && Completes(s, p, q, t, h)
    decreases s.Free(p), 0
  {
    var next, hop := s.g.targets[slot], Hop(slot, j);
    var more := q + [hop];
    assert HopExists(s, hop) && Leaves(s, s.Last(p), t, hop);
    CompletesNow(s, p, q, t, hop);
    if h in FoundEvent(s, p, q, slot, j) {
      EventThrough(s, p, q, slot, j, h);
    }
    if q < h && h[|q|] == hop {
      if |q| + 1 < |h| {
        CompletesStep(s, p, q, t, h);
      } else {
        assert h == more;
      }
    }
    if !(next == s.root && |p| >= 2) && next !in p && s.MayGrow(|p|) {
      assert next in s.Free(p) && next !in s.Free(p + [next]);
      FoundExactly(s, p + [next], more, s.times[slot][j], h);
    }
  }
}
