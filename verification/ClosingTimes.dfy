/** Memoized reachability of the root: the pruning of both temporal searches. */
module ClosingTimes {
  import opened CsrGraphs
  import opened TemporalSearch

  /** Every recorded closing time is a time from which the root is out of reach. */
  ghost predicate Sound(s: Temporal, closing: seq<Option<int>>) {
    && s.Valid() && |closing| == s.g.Order()
    && forall v :: 0 <= v < |closing| && closing[v].Some? ==> !CanReach(s, v, closing[v].value)
  }

  /** Nothing before the given slot and event leads to the root after `t`. */
  ghost predicate Checked(s: Temporal, v: nat, t: int, limit: nat)
    requires s.Valid()
  {
    forall slot, j :: s.g.InRow(v, slot) && slot < limit && s.Later(slot, t, j) ==>
      s.g.targets[slot] != s.root && !CanReach(s, s.g.targets[slot], s.times[slot][j])
  }

  ghost predicate CheckedEvents(s: Temporal, t: int, slot: nat, limit: nat)
    requires s.Valid() && slot < |s.times|
  {
    forall j :: s.Later(slot, t, j) && j < limit ==> !CanReach(s, s.g.targets[slot], s.times[slot][j])
  }

  lemma CheckedMore(s: Temporal, v: nat, t: int, slot: nat)
    requires s.Valid() && s.g.InRow(v, slot) && Checked(s, v, t, slot)
    requires s.From(slot, t) < s.To(slot, t) ==> s.g.targets[slot] != s.root && CheckedEvents(s, t, slot, s.To(slot, t))
    ensures Checked(s, v, t, slot + 1)
  {
    forall j | s.Later(slot, t, j) ensures s.From(slot, t) <= j < s.To(slot, t) {
      s.RangeIsLater(slot, t, j);
    }
  }

  lemma Recorded(s: Temporal, closing: seq<Option<int>>, v: nat, t: int)
    requires Sound(s, closing) && v < |closing| && Checked(s, v, t, s.g.End(v))
    ensures !CanReach(s, v, t) && Sound(s, closing[v := Some(t)])
  {
  }

  /** No closing time is forgotten, and none becomes later. */
  ghost predicate Remembers(before: seq<Option<int>>, after: seq<Option<int>>) {
    |before| == |after| && forall v :: 0 <= v < |before| && before[v].Some? ==> after[v].Some? && after[v].value <= before[v].value
  }

  lemma RemembersMore(a: seq<Option<int>>, b: seq<Option<int>>, c: seq<Option<int>>)
    requires Remembers(a, b) && Remembers(b, c)
    ensures Remembers(a, c)
  {
  }

  lemma RemembersItself(a: seq<Option<int>>)
    ensures Remembers(a, a)
  {
  }

  /** Whatever was written in between, a time earlier than the first one of the vertex may be recorded. */
  lemma RemembersEarlier(a: seq<Option<int>>, b: seq<Option<int>>, v: nat, t: int)
    requires Remembers(a, b) && v < |a| && (a[v].Some? ==> t < a[v].value)
    ensures Remembers(a, b[v := Some(t)])
  {
  }

  /**
   * Whether an increasing walk after `previous` leads from `current` to the root.  The closing time
   * read on entry may be stale by the time a failure is recorded; the new one is always earlier.
   */
  method CanReachRoot(s: Temporal, closingAfter: array<Option<int>>, current: nat, previous: int) returns (reaches: bool)
    requires Sound(s, closingAfter[..]) && current < s.g.Order()
    modifies closingAfter
    ensures Sound(s, closingAfter[..]) && (reaches <==> CanReach(s, current, previous))
    ensures Remembers(old(closingAfter[..]), closingAfter[..])
    ensures !reaches ==> closingAfter[current].Some? && closingAfter[current].value <= previous
    decreases if previous < s.windowEnd then s.windowEnd - previous else 0
  {
    var closedAfter := closingAfter[current];
    if closedAfter.Some? && previous >= closedAfter.value {
      if CanReach(s, current, previous) {
        CanReachEarlier(s, current, closedAfter.value, previous);
      }
      return false;
    }
    hide Sound, Remembers;
    ghost var before := closingAfter[..];
    RemembersItself(before);
    for slot := s.g.Begin(current) to s.g.End(current)
      invariant Sound(s, closingAfter[..]) && Checked(s, current, previous, slot) && Remembers(before, closingAfter[..])
    {
      var next := s.g.targets[slot];
      var begin, end := s.From(slot, previous), s.To(slot, previous);
      assert s.g.InRow(current, slot);
      if begin < end {
        s.RangeIsLater(slot, previous, begin);
        if next == s.root {
          return true;
        }
        for j := begin to end
          invariant Sound(s, closingAfter[..]) && CheckedEvents(s, previous, slot, j) && Remembers(before, closingAfter[..])
        {
          s.RangeIsLater(slot, previous, j);
          ghost var between := closingAfter[..];
          var onward := CanReachRoot(s, closingAfter, next, s.times[slot][j]);
          RemembersMore(before, between, closingAfter[..]);
          if onward {
            return true;
          }
        }
      }
      CheckedMore(s, current, previous, slot);
    }
    Recorded(s, closingAfter[..], current, previous);
    if closedAfter == None || previous < closedAfter.value {
      ghost var closing := closingAfter[..];
      RemembersEarlier(before, closing, current, previous);
      closingAfter[current] := Some(previous);
      assert closingAfter[..] == closing[current := Some(previous)];
    }
    return false;
  }
}
