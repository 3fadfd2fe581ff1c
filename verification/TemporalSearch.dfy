/**
 * The exhaustive temporal search: like the static one, but every step takes one event of an edge,
 * later than the event before it and no later than the end of the window.
 */
module TemporalSearch {
  import opened CsrGraphs
  import opened CycleSearch

  predicate Nondecreasing(times: seq<int>) {
    forall i, j :: 0 <= i <= j < |times| ==> times[i] <= times[j]
  }

  /** The first position whose timestamp exceeds `t`. */
  function UpperBound(times: seq<int>, t: int): (n: nat)
    requires Nondecreasing(times)
    ensures n <= |times| && forall i :: 0 <= i < |times| ==> (i < n <==> times[i] <= t)
  {
    if times == [] || times[0] > t then 0
    else
      assert forall i :: 1 <= i < |times| ==> times[i] == times[1..][i - 1];
      1 + UpperBound(times[1..], t)
  }

  datatype Temporal = Temporal(g: Csr, times: seq<seq<int>>, root: nat, windowEnd: int, cap: Option<nat>) {

    predicate Valid() {
      && g.Valid() && root < g.Order() && |times| == |g.targets|
      && forall slot :: 0 <= slot < |times| ==> Nondecreasing(times[slot])
    }

    predicate IsPath(p: seq<nat>) {
      0 < |p| && p[0] == root && forall i :: 0 <= i < |p| ==> p[i] < g.Order()
    }

    function Last(p: seq<nat>): nat
      requires 0 < |p|
    {
      p[|p| - 1]
    }

    function First(p: seq<nat>): nat
      requires Valid() && IsPath(p)
    {
      g.Begin(Last(p))
    }

    function Limit(p: seq<nat>): nat
      requires Valid() && IsPath(p)
    {
      g.End(Last(p))
    }

    predicate MayGrow(size: nat) {
      cap.Some? ==> size < cap.value
    }

    ghost function Free(p: seq<nat>): set<nat> {
      set v | 0 <= v < g.Order() && v !in p
    }

    /** The events of a slot after `t` and within the window are those from `From` up to `To`. */
    function From(slot: nat, t: int): (j: nat)
      requires Valid() && slot < |times|
      ensures j <= |times[slot]|
    {
      UpperBound(times[slot], t)
    }

    function To(slot: nat, t: int): (j: nat)
      requires Valid() && slot < |times|
      ensures From(slot, t) <= j <= |times[slot]|
    {
      var end := UpperBound(times[slot], windowEnd);
      if From(slot, t) <= end then end else From(slot, t)
    }

    /** Event `j` of the slot is later than `t` and inside the window. */
    ghost predicate Later(slot: nat, t: int, j: int)
      requires Valid() && slot < |times|
    {
      0 <= j < |times[slot]| && t < times[slot][j] <= windowEnd
    }

    lemma RangeIsLater(slot: nat, t: int, j: int)
      requires Valid() && slot < |times|
      ensures From(slot, t) <= j < To(slot, t) <==> Later(slot, t, j)
    {
    }
  }

  ghost predicate AtSlot(s: Temporal, p: seq<nat>, slot: nat) {
    s.Valid() && s.IsPath(p) && s.First(p) <= slot <= s.Limit(p)
  }

  /** What is recorded below `p`, reached at time `t`, by the slots from `slot` on. */
  ghost function Owed(s: Temporal, p: seq<nat>, t: int, slot: nat): Histogram
    requires AtSlot(s, p, slot)
    decreases s.Free(p), s.Limit(p) - slot
  {
    if slot == s.Limit(p) then multiset{}
    else OwedEvents(s, p, slot, s.From(slot, t), s.To(slot, t)) + Owed(s, p, t, slot + 1)
  }

  /** What the events `j` up to `end` of one slot contribute. */
  ghost function OwedEvents(s: Temporal, p: seq<nat>, slot: nat, j: nat, end: nat): Histogram
    requires AtSlot(s, p, slot) && slot < s.Limit(p) && j <= end <= |s.times[slot]|
    decreases s.Free(p), s.Limit(p) - slot, end - j
  {
    if j == end then multiset{} else OwedEvent(s, p, slot, j) + OwedEvents(s, p, slot, j + 1, end)
  }

  ghost function OwedEvent(s: Temporal, p: seq<nat>, slot: nat, j: nat): Histogram
    requires AtSlot(s, p, slot) && slot < s.Limit(p) && j < |s.times[slot]|
    decreases s.Free(p), s.Limit(p) - slot, 0
  {
    var next := s.g.targets[slot];
    if next == s.root && |p| >= 2 then multiset{|p|}
    else if next in p || !s.MayGrow(|p|) then multiset{}
    else
      assert next in s.Free(p) && next !in s.Free(p + [next]);
      Owed(s, p + [next], s.times[slot][j], s.g.Begin(next))
  }

  /** The whole subtree below `p`, reached at time `t`. */
  ghost function Subtree(s: Temporal, p: seq<nat>, t: int): Histogram
    requires s.Valid() && s.IsPath(p)
  {
    Owed(s, p, t, s.First(p))
  }

  /** `count` copies of every entry. */
  ghost function Repeat(h: Histogram, count: nat): Histogram {
    if count == 0 then multiset{} else h + Repeat(h, count - 1)
  }

  lemma {:induction false} RepeatNothing(count: nat)
    ensures Repeat(multiset{}, count) == multiset{}
  {
    if count > 0 {
      RepeatNothing(count - 1);
    }
  }

  lemma {:induction false} RepeatSum(g: Histogram, h: Histogram, count: nat)
    ensures Repeat(g + h, count) == Repeat(g, count) + Repeat(h, count)
  {
    if count > 0 {
      RepeatSum(g, h, count - 1);
    }
  }

  lemma {:induction false} RepeatCount(h: Histogram, a: nat, b: nat)
    ensures Repeat(h, a + b) == Repeat(h, a) + Repeat(h, b)
  {
    if b > 0 {
      RepeatCount(h, a, b - 1);
      assert Repeat(h, a + b) == h + Repeat(h, a + (b - 1));
    }
  }

  /** A closing slot records the path length once per event. */
  lemma {:induction false} ClosingEvents(s: Temporal, p: seq<nat>, slot: nat, j: nat, end: nat)
    requires AtSlot(s, p, slot) && slot < s.Limit(p) && j <= end <= |s.times[slot]|
    requires s.g.targets[slot] == s.root && |p| >= 2
    ensures OwedEvents(s, p, slot, j, end) == Repeat(multiset{|p|}, end - j)
    decreases end - j
  {
    if j < end {
      ClosingEvents(s, p, slot, j + 1, end);
    }
  }

  /** A slot that cannot be followed contributes nothing. */
  lemma {:induction false} SkippedEvents(s: Temporal, p: seq<nat>, slot: nat, j: nat, end: nat)
    requires AtSlot(s, p, slot) && slot < s.Limit(p) && j <= end <= |s.times[slot]|
    requires !(s.g.targets[slot] == s.root && |p| >= 2) && (s.g.targets[slot] in p || !s.MayGrow(|p|))
    ensures OwedEvents(s, p, slot, j, end) == multiset{}
    decreases end - j
  {
    if j < end {
      SkippedEvents(s, p, slot, j + 1, end);
    }
  }

  // ---- Lengths ----

  /** A length below `p` is at least 2 and that of `p`, and within the cap when `p` is. */
  lemma {:induction false} OwedBounds(s: Temporal, p: seq<nat>, t: int, slot: nat, k: nat)
    requires AtSlot(s, p, slot) && k in Owed(s, p, t, slot)
    ensures 2 <= k && |p| <= k
    ensures s.cap.Some? && |p| <= s.cap.value ==> k <= s.cap.value
    decreases s.Free(p), s.Limit(p) - slot
  {
    if k in OwedEvents(s, p, slot, s.From(slot, t), s.To(slot, t)) {
      EventsBounds(s, p, slot, s.From(slot, t), s.To(slot, t), k);
    } else {
      OwedBounds(s, p, t, slot + 1, k);
    }
  }

  lemma {:induction false} EventsBounds(s: Temporal, p: seq<nat>, slot: nat, j: nat, end: nat, k: nat)
    requires AtSlot(s, p, slot) && slot < s.Limit(p) && j <= end <= |s.times[slot]| && k in OwedEvents(s, p, slot, j, end)
    ensures 2 <= k && |p| <= k
    ensures s.cap.Some? && |p| <= s.cap.value ==> k <= s.cap.value
    decreases s.Free(p), s.Limit(p) - slot, end - j
  {
    var next := s.g.targets[slot];
    if k !in OwedEvent(s, p, slot, j) {
      EventsBounds(s, p, slot, j + 1, end, k);
    } else if !(next == s.root && |p| >= 2) {
      assert next in s.Free(p) && next !in s.Free(p + [next]);
      OwedBounds(s, p + [next], s.times[slot][j], s.g.Begin(next), k);
    }
  }

  // ---- Reaching the root in time ----

  /** Some strictly increasing walk of events after `t`, inside the window, leads from `v` to the root. */
  ghost predicate CanReach(s: Temporal, v: nat, t: int)
    requires s.Valid()
    decreases if t < s.windowEnd then s.windowEnd - t else 0
  {
    exists slot, j :: s.g.InRow(v, slot) && s.Later(slot, t, j) &&
      (s.g.targets[slot] == s.root || CanReach(s, s.g.targets[slot], s.times[slot][j]))
  }

  /** Leaving earlier can only help. */
  lemma CanReachEarlier(s: Temporal, v: nat, t: int, later: int)
    requires s.Valid() && t <= later && CanReach(s, v, later)
    ensures CanReach(s, v, t)
  {
    var slot, j :| s.g.InRow(v, slot) && s.Later(slot, later, j) &&
      (s.g.targets[slot] == s.root || CanReach(s, s.g.targets[slot], s.times[slot][j]));
    assert s.Later(slot, t, j);
  }

  /** Where the root is out of reach there is nothing to record. */
  lemma {:induction false} OutOfReach(s: Temporal, p: seq<nat>, t: int, slot: nat)
    requires AtSlot(s, p, slot) && !CanReach(s, s.Last(p), t)
    ensures Owed(s, p, t, slot) == multiset{}
    decreases s.Free(p), s.Limit(p) - slot
  {
    if slot < s.Limit(p) {
      OutOfReachEvents(s, p, t, slot, s.From(slot, t));
      OutOfReach(s, p, t, slot + 1);
    }
  }

  lemma {:induction false} OutOfReachEvents(s: Temporal, p: seq<nat>, t: int, slot: nat, j: nat)
    requires AtSlot(s, p, slot) && slot < s.Limit(p) && !CanReach(s, s.Last(p), t)
    requires s.From(slot, t) <= j <= s.To(slot, t)
    ensures OwedEvents(s, p, slot, j, s.To(slot, t)) == multiset{}
    decreases s.Free(p), s.Limit(p) - slot, s.To(slot, t) - j
  {
    if j < s.To(slot, t) {
      var next := s.g.targets[slot];
      s.RangeIsLater(slot, t, j);
      assert s.g.InRow(s.Last(p), slot);
      if next !in p && s.MayGrow(|p|) {
        assert next in s.Free(p) && next !in s.Free(p + [next]);
        OutOfReach(s, p + [next], s.times[slot][j], s.g.Begin(next));
      }
      OutOfReachEvents(s, p, t, slot, j + 1);
    }
  }
}
