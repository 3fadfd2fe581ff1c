/**
 * A launch of the owned-cycle kernel on shared memory.  Every thread has a slice of the path, cursor and
 * visited pools, which it prepares and then works in; any thread may make the next step.
 */
module OwnedSlices {
  import opened CycleSearch
  import opened EdgeOwnership
  import opened OwnedCycleKernel
  import opened OwnedLaunch
  import opened Slices
  import opened StackMachine

  datatype Memory = Memory(paths: seq<nat>, cursors: seq<nat>, visited: seq<bool>)

  /** A thread that has not begun, or one at this depth of its loop. */
  datatype Lane = Waiting | Looping(depth: nat)

  datatype Device = Device(lanes: seq<Lane>, counts: Histogram, memory: Memory)

  ghost predicate Fits(c: Config, d: Device) {
    && c.Valid() && |d.lanes| == |c.changes|
    && |d.memory.paths| == |d.memory.cursors| == |c.changes| * c.limit && |d.memory.visited| == |c.changes| * c.g.Order()
    && forall i :: 0 <= i < |d.lanes| && d.lanes[i].Looping? ==> d.lanes[i].depth < c.limit
  }

  /** Where the slices of thread `i` begin. */
  function Base(c: Config, i: nat): nat {
    i * c.limit
  }

  function FlagBase(c: Config, i: nat): nat
    requires c.g.Valid()
  {
    i * c.g.Order()
  }

  lemma SliceInside(c: Config, d: Device, i: nat)
    requires Fits(c, d) && i < |c.changes|
    ensures Base(c, i) + c.limit <= |d.memory.paths| == |d.memory.cursors| && FlagBase(c, i) + c.g.Order() <= |d.memory.visited|
  {
    SliceFits(i, |c.changes|, c.limit);
    SliceFits(i, |c.changes|, c.g.Order());
  }

  // ---- Stacks in memory ----

  /** What thread `i` reads from its slices at this depth, with the source of its edge below. */
  ghost function StackAt(c: Config, m: Memory, i: nat, depth: nat): Stack
    requires i < |c.changes| && Base(c, i) + depth <= |m.paths| == |m.cursors|
  {
    var base := Base(c, i);
    Stack([c.changes[i].source] + m.paths[base..base + depth], [0] + m.cursors[base..base + depth])
  }

  /** A stack of the thread's own search begins with the source of its edge. */
  ghost predicate Rooted(c: Config, i: nat, st: Stack)
    requires i < |c.changes|
  {
    |st.path| == |st.cursors| > 0 && st.path[0] == c.changes[i].source && st.cursors[0] == 0
  }

  lemma HeldIsRead(c: Config, m: Memory, i: nat, st: Stack)
    requires i < |c.changes| && HoldsTail(m.paths, m.cursors, Base(c, i), st) && Rooted(c, i, st) && |m.paths| == |m.cursors|
    ensures Base(c, i) + |st.path| - 1 <= |m.paths| && StackAt(c, m, i, |st.path| - 1) == st
  {
    var read := StackAt(c, m, i, |st.path| - 1);
    forall k | 0 <= k < |st.path| ensures read.path[k] == st.path[k] && read.cursors[k] == st.cursors[k] {}
  }

  lemma ReadIsHeld(c: Config, m: Memory, i: nat, depth: nat)
    requires i < |c.changes| && Base(c, i) + depth <= |m.paths| == |m.cursors|
    ensures HoldsTail(m.paths, m.cursors, Base(c, i), StackAt(c, m, i, depth)) && Rooted(c, i, StackAt(c, m, i, depth))
  {
  }

  /** What the iterations rely on beside the stack: the thread's flags are those of its path. */
  ghost predicate Marked(c: Config, m: Memory, i: nat, st: Stack)
    requires c.Valid() && i < |c.changes|
  {
    && NoRepeats(st.path)
    && (|st.path| > 1 ==> st.path[1] == c.changes[i].target && Flags(m.visited, FlagBase(c, i), c.g.Order(), st.path))
  }

  /** Thread `i` stores its stack and flags in its slices and writes nothing else. */
  ghost predicate Writes(c: Config, m: Memory, n: Memory, i: nat, st: Stack)
    requires c.Valid() && i < |c.changes|
  {
    && HoldsTail(n.paths, n.cursors, Base(c, i), st) && Marked(c, n, i, st)
    && Outside(m.paths, n.paths, Base(c, i), c.limit) && Outside(m.cursors, n.cursors, Base(c, i), c.limit)
    && Outside(m.visited, n.visited, FlagBase(c, i), c.g.Order())
  }

  // ---- Steps ----

  ghost function Seen(c: Config, d: Device, i: nat): Stack
    requires Fits(c, d) && i < |c.changes|
  {
    match d.lanes[i]
    case Waiting =>
      assert EdgeInRange(c.g, c.changes[i]);
      StartStack(c.Of(i), c.changes[i])
    case Looping(depth) =>
      SliceInside(c, d, i);
      StackAt(c, d.memory, i, depth)
  }

  ghost function View(c: Config, d: Device): State
    requires Fits(c, d)
  {
    State(seq(|c.changes|, i requires 0 <= i < |c.changes| => Seen(c, d, i)), d.counts)
  }

  /** The thread marks the ends of its edge and puts its target on the stack. */
  ghost predicate Prepares(c: Config, d: Device, e: Device, i: nat, st: Stack)
    requires c.Valid() && i < |c.changes| == |d.lanes|
  {
    && Flags(d.memory.visited, FlagBase(c, i), c.g.Order(), []) && Writes(c, d.memory, e.memory, i, st)
    && e.lanes == d.lanes[i := Looping(1)] && e.counts == d.counts
  }

  /** One iteration of the loop on the stack that the thread reads; the flags must be those of its path. */
  ghost predicate Loops(c: Config, d: Device, e: Device, i: nat, st: Stack)
    requires c.Valid() && i < |c.changes| == |d.lanes|
  {
    && StackOk(c.Of(i), st, 1) && |st.path| > 1 && Marked(c, d.memory, i, st)
    && (PopOk(c.Of(i), st, 1);
        var (next, length) := Step(c.Of(i), st);
        && next.path != [] && Writes(c, d.memory, e.memory, i, next)
        && e.lanes == d.lanes[i := Looping(|next.path| - 1)] && e.counts == d.counts + Recorded(length))
  }

  ghost predicate LaneStep(c: Config, d: Device, e: Device, i: nat)
    requires Fits(c, d) && i < |c.changes|
  {
    if d.lanes[i].Waiting? then Prepares(c, d, e, i, Seen(c, d, i)) else Loops(c, d, e, i, Seen(c, d, i))
  }

  ghost predicate LaneOk(c: Config, d: Device, i: nat)
    requires Fits(c, d) && i < |c.changes|
  {
    match d.lanes[i]
    case Waiting => Flags(d.memory.visited, FlagBase(c, i), c.g.Order(), [])
    case Looping(_) => Marked(c, d.memory, i, Seen(c, d, i))
  }

  ghost predicate Inside(c: Config, d: Device) {
    && Fits(c, d) && Inv(c, View(c, d))
    && forall i :: 0 <= i < |c.changes| ==> LaneOk(c, d, i)
  }

  lemma SeenIs(c: Config, d: Device, i: nat)
    requires Fits(c, d) && i < |c.changes|
    ensures |View(c, d).stacks| == |c.changes| && View(c, d).stacks[i] == Seen(c, d, i)
  {
  }

  /** An iteration leaves the source and, until the end, the target of the edge in place, and repeats no vertex. */
  lemma StepKeepsShape(c: Config, i: nat, st: Stack)
    requires c.Valid() && i < |c.changes| && StackOk(c.Of(i), st, 1) && |st.path| > 1 && Rooted(c, i, st)
    requires NoRepeats(st.path) && st.path[1] == c.changes[i].target
    ensures AtSlot(c.Of(i), st.path, st.cursors[|st.path| - 1])
    ensures var next := Step(c.Of(i), st).0;
            && Rooted(c, i, next) && NoRepeats(next.path) && (|next.path| > 1 ==> next.path[1] == c.changes[i].target)
            && |next.path| <= |st.path| + 1
  {
    PopOk(c.Of(i), st, 1);
    var next := Step(c.Of(i), st).0;
    forall k | 2 <= k < |next.path| ensures next.path[k] !in next.path[..k] {
      if k < |st.path| {
        assert next.path[..k] == st.path[..k];
      } else {
        assert next.path[..k] == st.path;
      }
    }
  }

  lemma SameSizes(c: Config, d: Device, e: Device, i: nat, st: Stack)
    requires Fits(c, d) && i < |c.changes| && Writes(c, d.memory, e.memory, i, st)
    ensures |e.memory.paths| == |e.memory.cursors| == |d.memory.paths| == |d.memory.cursors| && |e.memory.visited| == |d.memory.visited|
  {
    hide HoldsTail, Marked;
  }

  lemma StartRooted(c: Config, i: nat)
    requires c.Valid() && i < |c.changes|
    ensures EdgeInRange(c.g, c.changes[i])
    ensures var st := StartStack(c.Of(i), c.changes[i]); Rooted(c, i, st) && |st.path| == 2
  {
    assert EdgeInRange(c.g, c.changes[i]);
  }

  lemma LoopingSees(c: Config, d: Device, i: nat)
    requires Inside(c, d) && i < |c.changes| && d.lanes[i].Looping?
    ensures var st := Seen(c, d, i);
            && StackOk(c.Of(i), st, 1) && |st.path| == d.lanes[i].depth + 1 && Marked(c, d.memory, i, st) && Rooted(c, i, st)
            && HoldsTail(d.memory.paths, d.memory.cursors, Base(c, i), st)
  {
    hide StackOk, Marked, HoldsTail, Rooted, Pending, PendingBefore;
    SeenIs(c, d, i);
    assert ThreadOk(c, View(c, d).stacks, i);
    assert LaneOk(c, d, i);
    SliceInside(c, d, i);
    ReadIsHeld(c, d.memory, i, d.lanes[i].depth);
  }

  // ---- What a step leaves behind ----

  /** Thread `i` has stored `next` and goes on at its depth. */
  ghost predicate Stored(c: Config, d: Device, e: Device, i: nat, next: Stack)
    requires c.Valid() && i < |c.changes| == |d.lanes|
  {
    && Writes(c, d.memory, e.memory, i, next) && Rooted(c, i, next) && |next.path| <= c.limit
    && e.lanes == d.lanes[i := Looping(|next.path| - 1)]
  }

  lemma StoredFits(c: Config, d: Device, e: Device, i: nat, next: Stack)
    requires Fits(c, d) && i < |c.changes| && Stored(c, d, e, i, next)
    ensures Fits(c, e)
  {
    hide HoldsTail, Marked;
  }

  /** The thread reads back the stack it stored. */
  lemma MoverSeen(c: Config, d: Device, e: Device, i: nat, next: Stack)
    requires Fits(c, d) && i < |c.changes| && Stored(c, d, e, i, next) && Fits(c, e)
    ensures Seen(c, e, i) == next && LaneOk(c, e, i)
  {
    hide HoldsTail, Marked, StackAt, Outside;
    HeldIsRead(c, e.memory, i, next);
  }

  /** Every other thread sees what it saw before. */
  lemma OtherSeen(c: Config, d: Device, e: Device, i: nat, next: Stack, j: nat)
    requires Inside(c, d) && i < |c.changes| && Stored(c, d, e, i, next) && Fits(c, e) && j < |c.changes| && j != i
    ensures Seen(c, e, j) == Seen(c, d, j) && LaneOk(c, e, j)
  {
    hide HoldsTail, Outside, Flags, NoRepeats, StackAt, Inv, View, Rooted;
    assert LaneOk(c, d, j) && e.lanes[j] == d.lanes[j];
    match d.lanes[j] {
      case Waiting =>
        OthersFlagged(d.memory.visited, e.memory.visited, i, j, c.g.Order(), []);
      case Looping(depth) =>
        LoopingSees(c, d, j);
        var st := Seen(c, d, j);
        OthersHold(d.memory.paths, d.memory.cursors, e.memory.paths, e.memory.cursors, i, j, c.limit, st);
        HeldIsRead(c, e.memory, j, st);
        if depth > 0 {
          OthersFlagged(d.memory.visited, e.memory.visited, i, j, c.g.Order(), st.path);
        }
    }
  }

  lemma ViewOf(c: Config, d: Device, e: Device, i: nat, next: Stack)
    requires Fits(c, d) && Fits(c, e) && i < |c.changes| && Seen(c, e, i) == next
    requires forall j :: 0 <= j < |c.changes| && j != i ==> Seen(c, e, j) == Seen(c, d, j)
    ensures View(c, e) == State(View(c, d).stacks[i := next], e.counts)
  {
    hide Seen;
  }

  lemma StoredSeen(c: Config, d: Device, e: Device, i: nat, next: Stack)
    requires Inside(c, d) && i < |c.changes| && Stored(c, d, e, i, next)
    ensures Fits(c, e) && View(c, e) == State(View(c, d).stacks[i := next], e.counts)
    ensures forall j :: 0 <= j < |c.changes| ==> LaneOk(c, e, j)
  {
    hide Writes, LaneOk, Seen, Stored, View, Inv, Rooted;
    StoredFits(c, d, e, i, next);
    MoverSeen(c, d, e, i, next);
    forall j | 0 <= j < |c.changes| && j != i ensures Seen(c, e, j) == Seen(c, d, j) && LaneOk(c, e, j) {
      OtherSeen(c, d, e, i, next, j);
    }
    ViewOf(c, d, e, i, next);
  }

  /** A thread's preparation leaves all stacks as they are. */
  lemma PrepareRefines(c: Config, d: Device, e: Device, i: nat)
    requires Inside(c, d) && i < |c.changes| && d.lanes[i].Waiting? && LaneStep(c, d, e, i)
    ensures Inside(c, e) && View(c, e) == View(c, d)
  {
    hide Writes, LaneOk, Seen, View, Inv, Rooted, StartStack;
    StartRooted(c, i);
    WaitingSees(c, d, i);
    SeenIs(c, d, i);
    StoredSeen(c, d, e, i, Seen(c, d, i));
    assert View(c, d).stacks[i := Seen(c, d, i)] == View(c, d).stacks;
    CountsSeen(c, d);
  }

  lemma WaitingSees(c: Config, d: Device, i: nat)
    requires Fits(c, d) && i < |c.changes| && d.lanes[i].Waiting?
    ensures EdgeInRange(c.g, c.changes[i]) && Seen(c, d, i) == StartStack(c.Of(i), c.changes[i])
  {
  }

  lemma CountsSeen(c: Config, d: Device)
    requires Fits(c, d)
    ensures View(c, d).counts == d.counts
  {
  }

  /** A thread's iteration is one on the stack it sees. */
  lemma LoopRefines(c: Config, d: Device, e: Device, i: nat)
    requires Inside(c, d) && i < |c.changes| && d.lanes[i].Looping? && LaneStep(c, d, e, i)
    ensures Inside(c, e) && Iterates(c, View(c, d), View(c, e), i)
  {
    hide Writes, LaneOk, Seen, View, Inv, StackOk, Step, Flags, NoRepeats, PendingBefore, Pending, HoldsTail;
    var st := Seen(c, d, i);
    LoopingSees(c, d, i);
    StepKeepsShape(c, i, st);
    StepFits(c.Of(i), st, 1);
    StoredSeen(c, d, e, i, Step(c.Of(i), st).0);
    SeenIs(c, d, i);
    CountsSeen(c, d);
    InvOk(c, View(c, d));
    assert ThreadOk(c, View(c, d).stacks, i);
    assert Iterates(c, View(c, d), View(c, e), i);
    IterationKeepsInv(c, View(c, d), View(c, e), i);
  }

  lemma InvOk(c: Config, q: State)
    requires Inv(c, q)
    ensures Ok(c, q.stacks)
  {
  }
}
