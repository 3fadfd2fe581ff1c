/**
 * The explicit-stack form of the temporal search: every level keeps the next slot to read and the
 * unread events of the slot in use.
 */
module TemporalStack {
  import opened CsrGraphs
  import opened TemporalSearch
  import CycleSearch

  /** Events `time` up to `end` of slot `active` are still unread; `cursor` is the next slot. */
  datatype Frame = Frame(cursor: nat, active: nat, time: nat, end: nat, arrival: int)

  datatype Stack = Stack(path: seq<nat>, frames: seq<Frame>)

  ghost predicate FrameOk(s: Temporal, p: seq<nat>, f: Frame) {
    && AtSlot(s, p, f.cursor)
    && (f.time < f.end ==> s.g.InRow(s.Last(p), f.active) && f.end <= |s.times[f.active]|)
  }

  /** A stack of search `s`; the levels below `floor` only hold the start of the path. */
  ghost predicate StackOk(s: Temporal, st: Stack, floor: nat) {
    && s.Valid() && |st.path| == |st.frames| && floor <= |st.path| && (st.path != [] ==> s.IsPath(st.path))
    && forall d :: floor <= d < |st.path| ==> FrameOk(s, st.path[..d + 1], st.frames[d])
  }

  function Pop(st: Stack): Stack
    requires |st.path| == |st.frames| > 0
  {
    Stack(st.path[..|st.path| - 1], st.frames[..|st.path| - 1])
  }

  /** The stack with its top frame replaced. */
  function WithTop(st: Stack, f: Frame): Stack
    requires |st.path| == |st.frames| > 0
  {
    Stack(st.path, st.frames[|st.path| - 1 := f])
  }

  function Push(s: Temporal, st: Stack, next: nat, arrival: int): Stack
    requires s.Valid() && next < s.g.Order()
  {
    Stack(st.path + [next], st.frames + [Frame(s.g.Begin(next), 0, 0, 0, arrival)])
  }

  function Top(st: Stack): Frame
    requires |st.path| == |st.frames| > 0
  {
    st.frames[|st.path| - 1]
  }

  predicate Descends(s: Temporal, p: seq<nat>, next: nat)
    requires p != []
  {
    !(next == s.root && |p| >= 2) && next !in p && s.MayGrow(|p|)
  }

  /** One iteration of the device loop, and the length it records, if any. */
  function Step(s: Temporal, st: Stack): (r: (Stack, Option<nat>))
    requires s.Valid() && |st.path| == |st.frames| > 0 && s.IsPath(st.path)
    requires s.First(st.path) <= Top(st).cursor <= s.Limit(st.path)
    requires Top(st).time < Top(st).end ==> Top(st).active < |s.times| && Top(st).end <= |s.times[Top(st).active]|
  {
    var f := Top(st);
    if f.time < f.end then
      var next, rest := s.g.targets[f.active], WithTop(st, f.(time := f.time + 1));
      if next == s.root && |st.path| >= 2 then (rest, Some(|st.path|))
      else if Descends(s, st.path, next) then (Push(s, rest, next, s.times[f.active][f.time]), None)
      else (rest, None)
    else if f.cursor >= s.Limit(st.path) then (Pop(st), None)
    else
      var begin, end := s.From(f.cursor, f.arrival), s.To(f.cursor, f.arrival);
      if begin >= end then (WithTop(st, f.(cursor := f.cursor + 1)), None)
      else (WithTop(st, Frame(f.cursor + 1, f.cursor, begin, end, f.arrival)), None)
  }

  // ---- What a stack owes ----

  ghost function FrameOwes(s: Temporal, p: seq<nat>, f: Frame): CycleSearch.Histogram
    requires FrameOk(s, p, f)
  {
    (if f.time < f.end then OwedEvents(s, p, f.active, f.time, f.end) else multiset{}) + Owed(s, p, f.arrival, f.cursor)
  }

  ghost function Pending(s: Temporal, st: Stack, floor: nat): CycleSearch.Histogram
    requires StackOk(s, st, floor)
    decreases |st.path|
  {
    if |st.path| <= floor then multiset{}
    else
      PopOk(s, st, floor);
      FrameOwes(s, st.path, Top(st)) + Pending(s, Pop(st), floor)
  }

  lemma PopOk(s: Temporal, st: Stack, floor: nat)
    requires StackOk(s, st, floor) && |st.path| > floor
    ensures StackOk(s, Pop(st), floor) && FrameOk(s, st.path, Top(st))
  {
    assert st.path[..|st.path|] == st.path;
    forall d | floor <= d < |st.path| - 1 ensures FrameOk(s, Pop(st).path[..d + 1], Pop(st).frames[d]) {
      assert Pop(st).path[..d + 1] == st.path[..d + 1];
    }
  }

  // ---- How many iterations a stack needs ----

  ghost function SlotSteps(s: Temporal, p: seq<nat>, t: int, slot: nat): nat
    requires AtSlot(s, p, slot)
    decreases s.Free(p), s.Limit(p) - slot
  {
    if slot == s.Limit(p) then 1
    else 1 + EventSteps(s, p, slot, s.From(slot, t), s.To(slot, t)) + SlotSteps(s, p, t, slot + 1)
  }

  ghost function EventSteps(s: Temporal, p: seq<nat>, slot: nat, j: nat, end: nat): nat
    requires AtSlot(s, p, slot) && slot < s.Limit(p) && j <= end <= |s.times[slot]|
    decreases s.Free(p), s.Limit(p) - slot, end - j
  {
    if j == end then 0 else 1 + BelowSteps(s, p, slot, j) + EventSteps(s, p, slot, j + 1, end)
  }

  ghost function BelowSteps(s: Temporal, p: seq<nat>, slot: nat, j: nat): nat
    requires AtSlot(s, p, slot) && slot < s.Limit(p) && j < |s.times[slot]|
    decreases s.Free(p), s.Limit(p) - slot, 0
  {
    var next := s.g.targets[slot];
    if Descends(s, p, next) then
      assert next in s.Free(p) && next !in s.Free(p + [next]);
      SlotSteps(s, p + [next], s.times[slot][j], s.g.Begin(next))
    else 0
  }

  ghost function FrameSteps(s: Temporal, p: seq<nat>, f: Frame): nat
    requires FrameOk(s, p, f)
  {
    (if f.time < f.end then EventSteps(s, p, f.active, f.time, f.end) else 0) + SlotSteps(s, p, f.arrival, f.cursor)
  }

  ghost function PendingSteps(s: Temporal, st: Stack, floor: nat): nat
    requires StackOk(s, st, floor)
    decreases |st.path|
  {
    if |st.path| <= floor then 0
    else
      PopOk(s, st, floor);
      FrameSteps(s, st.path, Top(st)) + PendingSteps(s, Pop(st), floor)
  }

  // ---- Conservation ----

  lemma WithTopOk(s: Temporal, st: Stack, floor: nat, f: Frame)
    requires StackOk(s, st, floor) && |st.path| > floor && FrameOk(s, st.path, f)
    ensures StackOk(s, WithTop(st, f), floor) && StackOk(s, Pop(st), floor)
    ensures Pending(s, WithTop(st, f), floor) == FrameOwes(s, st.path, f) + Pending(s, Pop(st), floor)
    ensures PendingSteps(s, WithTop(st, f), floor) == FrameSteps(s, st.path, f) + PendingSteps(s, Pop(st), floor)
  {
    PopOk(s, st, floor);
    assert Pop(WithTop(st, f)) == Pop(st);
    assert st.path[..|st.path|] == st.path;
  }

  lemma PushOk(s: Temporal, st: Stack, floor: nat, next: nat, arrival: int)
    requires StackOk(s, st, floor) && |st.path| > floor && next < s.g.Order()
    ensures StackOk(s, Push(s, st, next, arrival), floor) && s.IsPath(st.path + [next])
    ensures Pending(s, Push(s, st, next, arrival), floor) == Subtree(s, st.path + [next], arrival) + Pending(s, st, floor)
    ensures PendingSteps(s, Push(s, st, next, arrival), floor) ==
            SlotSteps(s, st.path + [next], arrival, s.g.Begin(next)) + PendingSteps(s, st, floor)
  {
    var more := Push(s, st, next, arrival);
    forall d | floor <= d < |more.path| ensures FrameOk(s, more.path[..d + 1], more.frames[d]) {
      if d < |st.path| {
        assert more.path[..d + 1] == st.path[..d + 1];
      } else {
        assert more.path[..d + 1] == more.path;
      }
    }
    assert Pop(more) == st;
  }

  /** What reading one event does to the top frame. */
  lemma EventOutcome(s: Temporal, p: seq<nat>, f: Frame)
    requires FrameOk(s, p, f) && f.time < f.end
    ensures FrameOk(s, p, f.(time := f.time + 1))
    ensures FrameOwes(s, p, f) == OwedEvent(s, p, f.active, f.time) + FrameOwes(s, p, f.(time := f.time + 1))
    ensures FrameSteps(s, p, f) == 1 + BelowSteps(s, p, f.active, f.time) + FrameSteps(s, p, f.(time := f.time + 1))
  {
    hide OwedEvent, BelowSteps, Owed, SlotSteps;
    assert OwedEvents(s, p, f.active, f.end, f.end) == multiset{} && EventSteps(s, p, f.active, f.end, f.end) == 0;
    assert OwedEvents(s, p, f.active, f.time, f.end) ==
           OwedEvent(s, p, f.active, f.time) + OwedEvents(s, p, f.active, f.time + 1, f.end);
    assert EventSteps(s, p, f.active, f.time, f.end) ==
           1 + BelowSteps(s, p, f.active, f.time) + EventSteps(s, p, f.active, f.time + 1, f.end);
  }

  lemma EventCases(s: Temporal, p: seq<nat>, slot: nat, j: nat)
    requires AtSlot(s, p, slot) && slot < s.Limit(p) && j < |s.times[slot]|
    ensures var next := s.g.targets[slot];
            if next == s.root && |p| >= 2 then OwedEvent(s, p, slot, j) == multiset{|p|} && BelowSteps(s, p, slot, j) == 0
            else if Descends(s, p, next) then
              s.IsPath(p + [next]) && OwedEvent(s, p, slot, j) == Subtree(s, p + [next], s.times[slot][j]) &&
              BelowSteps(s, p, slot, j) == SlotSteps(s, p + [next], s.times[slot][j], s.g.Begin(next))
            else OwedEvent(s, p, slot, j) == multiset{} && BelowSteps(s, p, slot, j) == 0
  {
  }

  /** What taking the next slot does to a frame without unread events. */
  lemma SlotOutcome(s: Temporal, p: seq<nat>, f: Frame)
    requires FrameOk(s, p, f) && f.time >= f.end && f.cursor < s.Limit(p)
    ensures var begin, end := s.From(f.cursor, f.arrival), s.To(f.cursor, f.arrival);
            var taken := if begin >= end then f.(cursor := f.cursor + 1) else Frame(f.cursor + 1, f.cursor, begin, end, f.arrival);
            && FrameOk(s, p, taken) && FrameOwes(s, p, f) == FrameOwes(s, p, taken)
            && FrameSteps(s, p, f) == 1 + FrameSteps(s, p, taken)
  {
    var begin, end := s.From(f.cursor, f.arrival), s.To(f.cursor, f.arrival);
    assert Owed(s, p, f.arrival, f.cursor) == OwedEvents(s, p, f.cursor, begin, end) + Owed(s, p, f.arrival, f.cursor + 1);
    if begin >= end {
      assert OwedEvents(s, p, f.cursor, begin, end) == multiset{} && EventSteps(s, p, f.cursor, begin, end) == 0;
    }
  }

  /** `next` follows `st` after recording `length`: the total is kept and work is used up. */
  ghost predicate Conserved(s: Temporal, st: Stack, floor: nat, next: Stack, length: Option<nat>) {
    && StackOk(s, st, floor) && StackOk(s, next, floor)
    && Pending(s, st, floor) == CycleSearch.Recorded(length) + Pending(s, next, floor)
    && PendingSteps(s, st, floor) > PendingSteps(s, next, floor)
  }

  /** Every iteration conserves recorded plus pending counts and uses up one step. */
  lemma StepConserves(s: Temporal, st: Stack, floor: nat)
    requires StackOk(s, st, floor) && |st.path| > floor
    ensures FrameOk(s, st.path, Top(st))
    ensures Conserved(s, st, floor, Step(s, st).0, Step(s, st).1)
  {
    PopOk(s, st, floor);
    var f := Top(st);
    hide Conserved;
    if f.time < f.end {
      EventConserves(s, st, floor);
    } else if f.cursor < s.Limit(st.path) {
      SlotConserves(s, st, floor);
    } else {
      PopConserves(s, st, floor);
    }
  }

  lemma EventConserves(s: Temporal, st: Stack, floor: nat)
    requires StackOk(s, st, floor) && |st.frames| == |st.path| > floor && s.IsPath(st.path) && FrameOk(s, st.path, Top(st)) && Top(st).time < Top(st).end
    ensures Conserved(s, st, floor, Step(s, st).0, Step(s, st).1)
  {
    hide Pending, PendingSteps, FrameOwes, FrameSteps, StackOk, OwedEvent, BelowSteps, Subtree;
    var f, next := Top(st), s.g.targets[Top(st).active];
    var rest := f.(time := f.time + 1);
    WithTopOk(s, st, floor, f);
    assert WithTop(st, f) == st;
    EventOutcome(s, st.path, f);
    WithTopOk(s, st, floor, rest);
    EventCases(s, st.path, f.active, f.time);
    if Descends(s, st.path, next) {
      PushOk(s, WithTop(st, rest), floor, next, s.times[f.active][f.time]);
    }
  }

  lemma SlotConserves(s: Temporal, st: Stack, floor: nat)
    requires StackOk(s, st, floor) && |st.frames| == |st.path| > floor && s.IsPath(st.path) && FrameOk(s, st.path, Top(st))
    requires Top(st).time >= Top(st).end && Top(st).cursor < s.Limit(st.path)
    ensures Conserved(s, st, floor, Step(s, st).0, Step(s, st).1)
  {
    hide Pending, PendingSteps, FrameOwes, FrameSteps, StackOk;
    var f := Top(st);
    var begin, end := s.From(f.cursor, f.arrival), s.To(f.cursor, f.arrival);
    WithTopOk(s, st, floor, f);
    assert WithTop(st, f) == st;
    SlotOutcome(s, st.path, f);
    WithTopOk(s, st, floor, if begin >= end then f.(cursor := f.cursor + 1) else Frame(f.cursor + 1, f.cursor, begin, end, f.arrival));
  }

  lemma PopConserves(s: Temporal, st: Stack, floor: nat)
    requires StackOk(s, st, floor) && |st.frames| == |st.path| > floor && s.IsPath(st.path) && FrameOk(s, st.path, Top(st))
    requires Top(st).time >= Top(st).end && Top(st).cursor == s.Limit(st.path)
    ensures Conserved(s, st, floor, Step(s, st).0, Step(s, st).1)
  {
    hide Pending, PendingSteps, StackOk;
    WithTopOk(s, st, floor, Top(st));
    assert WithTop(st, Top(st)) == st;
  }
}
