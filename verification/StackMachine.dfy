/**
 * The explicit-stack form of the search that one device thread runs: a path with one cursor per
 * level, advanced one slot at a time.
 */
module StackMachine {
  import opened CsrGraphs
  import opened CycleSearch

  /** The cursor of a level is the next slot to read in the row of that level's vertex. */
  datatype Stack = Stack(path: seq<nat>, cursors: seq<nat>)

  /** A stack of search `s`; the levels below `floor` only hold the start of the path. */
  ghost predicate StackOk(s: Search, st: Stack, floor: nat) {
    && s.Valid() && |st.path| == |st.cursors| && floor <= |st.path|
    && (st.path != [] ==> s.IsPath(st.path))
    && forall d :: floor <= d < |st.path| ==> AtSlot(s, st.path[..d + 1], st.cursors[d])
  }

  function Pop(st: Stack): Stack
    requires |st.path| == |st.cursors| > 0
  {
    Stack(st.path[..|st.path| - 1], st.cursors[..|st.path| - 1])
  }

  /** What the unread cursor ranges of all levels still owe. */
  ghost function Pending(s: Search, st: Stack, floor: nat): Histogram
    requires StackOk(s, st, floor)
    decreases |st.path|
  {
    if |st.path| <= floor then multiset{}
    else
      PopOk(s, st, floor);
      Owed(s, st.path, st.cursors[|st.path| - 1]) + Pending(s, Pop(st), floor)
  }

  lemma PopOk(s: Search, st: Stack, floor: nat)
    requires StackOk(s, st, floor) && |st.path| > floor
    ensures StackOk(s, Pop(st), floor) && AtSlot(s, st.path, st.cursors[|st.path| - 1])
  {
    assert st.path[..|st.path|] == st.path;
    forall d | floor <= d < |st.path| - 1 ensures AtSlot(s, Pop(st).path[..d + 1], Pop(st).cursors[d]) {
      assert Pop(st).path[..d + 1] == st.path[..d + 1];
    }
  }

  /** The number of steps below a path from a slot on. */
  ghost function Steps(s: Search, p: seq<nat>, slot: nat): nat
    requires AtSlot(s, p, slot)
    decreases s.Free(p), s.Limit(p) - slot
  {
    if slot == s.Limit(p) then 1 else 1 + Steps(s, p, slot + 1) + BranchSteps(s, p, slot)
  }

  ghost function BranchSteps(s: Search, p: seq<nat>, slot: nat): nat
    requires AtSlot(s, p, slot) && slot < s.Limit(p)
    decreases s.Free(p), s.Limit(p) - slot, 0
  {
    var next := s.g.targets[slot];
    if Descends(s, p, slot) then
      assert next in s.Free(p) && next !in s.Free(p + [next]);
      Steps(s, p + [next], s.g.Begin(next))
    else 0
  }

  predicate Descends(s: Search, p: seq<nat>, slot: nat)
    requires s.Valid() && s.IsPath(p) && slot < |s.g.targets| && s.g.InRow(s.Last(p), slot)
  {
    var next := s.g.targets[slot];
    s.Takes(s.Last(p), slot) && !(next == s.root && |p| >= 2) && next !in p && s.MayGrow(|p|)
  }

  predicate Closes(s: Search, p: seq<nat>, slot: nat)
    requires s.Valid() && s.IsPath(p) && slot < |s.g.targets| && s.g.InRow(s.Last(p), slot)
  {
    s.Takes(s.Last(p), slot) && s.g.targets[slot] == s.root && |p| >= 2
  }

  ghost function PendingSteps(s: Search, st: Stack, floor: nat): nat
    requires StackOk(s, st, floor)
    decreases |st.path|
  {
    if |st.path| <= floor then 0
    else
      PopOk(s, st, floor);
      Steps(s, st.path, st.cursors[|st.path| - 1]) + PendingSteps(s, Pop(st), floor)
  }

  /** The stack with the cursor of its top level advanced. */
  function Advance(st: Stack): Stack
    requires |st.path| == |st.cursors| > 0
  {
    Stack(st.path, st.cursors[|st.path| - 1 := st.cursors[|st.path| - 1] + 1])
  }

  function Push(s: Search, st: Stack, next: nat): Stack
    requires s.Valid() && next < s.g.Order()
  {
    Stack(st.path + [next], st.cursors + [s.g.Begin(next)])
  }

  /** One iteration of the device loop, and the length it records, if any. */
  function Step(s: Search, st: Stack): (r: (Stack, Option<nat>))
    requires s.Valid() && |st.path| == |st.cursors| > 0 && s.IsPath(st.path)
    requires s.First(st.path) <= st.cursors[|st.path| - 1] <= s.Limit(st.path)
  {
    var slot := st.cursors[|st.path| - 1];
    if slot >= s.Limit(st.path) then (Pop(st), None)
    else if Closes(s, st.path, slot) then (Advance(st), Some(|st.path|))
    else if Descends(s, st.path, slot) then (Push(s, Advance(st), s.g.targets[slot]), None)
    else (Advance(st), None)
  }

  lemma AdvanceOk(s: Search, st: Stack, floor: nat)
    requires StackOk(s, st, floor) && |st.path| > floor && st.cursors[|st.path| - 1] < s.Limit(st.path)
    ensures StackOk(s, Advance(st), floor)
    ensures var slot := st.cursors[|st.path| - 1];
            && AtSlot(s, st.path, slot)
            && Pending(s, st, floor) == Branch(s, st.path, slot) + Pending(s, Advance(st), floor)
            && PendingSteps(s, st, floor) == 1 + BranchSteps(s, st.path, slot) + PendingSteps(s, Advance(st), floor)
  {
    PopOk(s, st, floor);
    assert Pop(Advance(st)) == Pop(st);
    assert st.path[..|st.path|] == st.path;
  }

  lemma PushOk(s: Search, st: Stack, floor: nat, next: nat)
    requires StackOk(s, st, floor) && |st.path| > floor && next < s.g.Order()
    ensures StackOk(s, Push(s, st, next), floor)
    ensures s.IsPath(st.path + [next])
    ensures Pending(s, Push(s, st, next), floor) == Subtree(s, st.path + [next]) + Pending(s, st, floor)
    ensures PendingSteps(s, Push(s, st, next), floor) ==
            Steps(s, st.path + [next], s.g.Begin(next)) + PendingSteps(s, st, floor)
  {
    var more := Push(s, st, next);
    forall d | floor <= d < |more.path| ensures AtSlot(s, more.path[..d + 1], more.cursors[d]) {
      if d < |st.path| {
        assert more.path[..d + 1] == st.path[..d + 1];
      } else {
        assert more.path[..d + 1] == more.path;
      }
    }
    assert Pop(more) == st;
  }

  /** A stack that only holds a path with its row unread owes the whole subtree of that path. */
  lemma StartOk(s: Search, st: Stack, floor: nat)
    requires s.Valid() && s.IsPath(st.path) && |st.cursors| == |st.path| == floor + 1
    requires st.cursors[floor] == s.First(st.path)
    ensures StackOk(s, st, floor) && Pending(s, st, floor) == Subtree(s, st.path)
    ensures PendingSteps(s, st, floor) == Steps(s, st.path, s.First(st.path))
  {
    assert st.path[..floor + 1] == st.path;
  }

  /** Every iteration conserves recorded plus pending counts and uses up one step. */
  lemma StepConserves(s: Search, st: Stack, floor: nat)
    requires StackOk(s, st, floor) && |st.path| > floor
    ensures AtSlot(s, st.path, st.cursors[|st.path| - 1])
    ensures var (next, length) := Step(s, st);
            && StackOk(s, next, floor)
            && Pending(s, st, floor) == Recorded(length) + Pending(s, next, floor)
            && PendingSteps(s, st, floor) == 1 + PendingSteps(s, next, floor)
  {
    PopOk(s, st, floor);
    var slot := st.cursors[|st.path| - 1];
    if slot < s.Limit(st.path) {
      AdvanceOk(s, st, floor);
      if Descends(s, st.path, slot) {
        PushOk(s, Advance(st), floor, s.g.targets[slot]);
      }
      hide Pending, PendingSteps, StackOk;
      SlotOutcome(s, st.path, slot);
    }
  }

  /** What a slot contributes, by the outcome of the device's tests. */
  lemma SlotOutcome(s: Search, p: seq<nat>, slot: nat)
    requires AtSlot(s, p, slot) && slot < s.Limit(p)
    ensures Closes(s, p, slot) ==> Branch(s, p, slot) == multiset{|p|} && BranchSteps(s, p, slot) == 0
    ensures Descends(s, p, slot) ==>
              var next := s.g.targets[slot];
              s.IsPath(p + [next]) && Branch(s, p, slot) == Subtree(s, p + [next]) &&
              BranchSteps(s, p, slot) == Steps(s, p + [next], s.g.Begin(next))
    ensures !Closes(s, p, slot) && !Descends(s, p, slot) ==> Branch(s, p, slot) == multiset{} && BranchSteps(s, p, slot) == 0
  {
  }

  /** The path of a capped search fits into a slice of that many entries. */
  lemma StepFits(s: Search, st: Stack, floor: nat)
    requires StackOk(s, st, floor) && |st.path| > floor && s.cap.Some? && |st.path| <= s.cap.value
    ensures AtSlot(s, st.path, st.cursors[|st.path| - 1])
    ensures |Step(s, st).0.path| <= s.cap.value
  {
    PopOk(s, st, floor);
  }

  /** A recorded length is within the limit. */
  lemma LengthFits(s: Search, st: Stack, limit: nat)
    requires s.Valid() && 0 < |st.path| == |st.cursors| <= limit && s.IsPath(st.path)
    requires s.First(st.path) <= st.cursors[|st.path| - 1] <= s.Limit(st.path)
    ensures Step(s, st).1.Some? ==> Step(s, st).1.value <= limit
  {
  }
}
