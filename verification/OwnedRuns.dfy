/** Runs of the owned-cycle kernel on shared memory: each ends, can be finished, and then holds the phase's histogram. */
module OwnedRuns {
  import opened CycleSearch
  import opened EdgeOwnership
  import opened OwnedCycleKernel
  import opened OwnedLaunch
  import opened OwnedSlices
  import opened Slices
  import opened StackMachine

  /** The flags and the counts are cleared by the host; the stacks have arbitrary contents. */
  ghost predicate Begins(c: Config, d: Device) {
    && Fits(c, d) && d.counts == multiset{}
    && (forall i :: 0 <= i < |d.lanes| ==> d.lanes[i] == Waiting)
    && (forall k :: 0 <= k < |d.memory.visited| ==> !d.memory.visited[k])
  }

  ghost predicate DeviceNext(c: Config, d: Device, e: Device) {
    Fits(c, d) && exists i :: 0 <= i < |c.changes| && LaneStep(c, d, e, i)
  }

  ghost predicate IsRun(c: Config, run: seq<Device>) {
    && 0 < |run| && Begins(c, run[0])
    && forall i :: 0 < i < |run| ==> StepAt(c, run, i)
  }

  ghost predicate StepAt(c: Config, run: seq<Device>, i: nat)
    requires 0 < i < |run|
  {
    DeviceNext(c, run[i - 1], run[i])
  }

  lemma BeginsInside(c: Config, d: Device)
    requires Begins(c, d)
    ensures Inside(c, d)
  {
    hide PendingBefore, StartStack;
    var q := View(c, d);
    forall i | 0 <= i < |c.changes| ensures Starts(c, q.stacks, i) && LaneOk(c, d, i) {
      WaitingSees(c, d, i);
      SeenIs(c, d, i);
      SliceInside(c, d, i);
    }
    InitHasInv(c, q);
  }

  /** What is left to do: the iterations of all stacks and the preparations. */
  ghost function Work(c: Config, d: Device): nat
    requires Inside(c, d)
  {
    StepsBefore(c, View(c, d).stacks, |View(c, d).stacks|) + multiset(d.lanes)[Waiting]
  }

  /** Every step keeps the invariants and uses up work. */
  lemma NextWorks(c: Config, d: Device, e: Device)
    requires Inside(c, d) && DeviceNext(c, d, e)
    ensures Inside(c, e) && Work(c, e) < Work(c, d)
  {
    hide Inside, View, StepsBefore, Iterates, LaneStep, Inv;
    var i :| 0 <= i < |c.changes| && LaneStep(c, d, e, i);
    LaneMoves(c, d, e, i);
    if d.lanes[i].Waiting? {
      PrepareRefines(c, d, e, i);
    } else {
      LoopRefines(c, d, e, i);
      InsideInv(c, d);
      InsideInv(c, e);
      IterationKeepsInv(c, View(c, d), View(c, e), i);
    }
  }

  /** The lane that steps is not waiting afterwards, and no other lane changes. */
  lemma LaneMoves(c: Config, d: Device, e: Device, i: nat)
    requires Fits(c, d) && i < |c.changes| && LaneStep(c, d, e, i)
    ensures multiset(e.lanes)[Waiting] == multiset(d.lanes)[Waiting] - if d.lanes[i].Waiting? then 1 else 0
  {
    hide Writes, Seen, Flags, StackOk, Marked, Step;
    assert i < |d.lanes| && |e.lanes| == |d.lanes|;
    var lane := e.lanes[i];
    assert e.lanes == d.lanes[i := lane] && lane != Waiting;
  }

  lemma InsideInv(c: Config, d: Device)
    requires Inside(c, d)
    ensures Fits(c, d) && Inv(c, View(c, d))
  {
  }

  lemma {:induction false} RunInside(c: Config, run: seq<Device>, i: nat)
    requires IsRun(c, run) && i < |run|
    ensures Inside(c, run[i])
  {
    hide Inside, Begins, DeviceNext;
    if i == 0 {
      BeginsInside(c, run[0]);
    } else {
      RunInside(c, run, i - 1);
      assert StepAt(c, run, i);
      NextWorks(c, run[i - 1], run[i]);
    }
  }

  /** At every moment each thread's slices hold its stack and the flags of its path. */
  lemma SlicesHoldStacks(c: Config, run: seq<Device>, i: nat, t: nat)
    requires IsRun(c, run) && i < |run| && t < |c.changes|
    ensures Fits(c, run[i])
    ensures run[i].lanes[t].Looping? ==>
              var st := Seen(c, run[i], t);
              && StackOk(c.Of(t), st, 1) && |st.path| == run[i].lanes[t].depth + 1
              && HoldsTail(run[i].memory.paths, run[i].memory.cursors, t * c.limit, st)
              && (|st.path| > 1 ==> Flags(run[i].memory.visited, t * c.g.Order(), c.g.Order(), st.path))
  {
    hide Flags, HoldsTail, StackOk, Inv, IsRun, Seen;
    RunInside(c, run, i);
    if run[i].lanes[t].Looping? {
      LoopingSees(c, run[i], t);
    }
  }

  ghost predicate AllDone(d: Device) {
    forall i :: 0 <= i < |d.lanes| ==> d.lanes[i] == Looping(0)
  }

  /** However the threads interleave, a finished launch holds the histogram of the phase. */
  lemma FinishedRunCounts(c: Config, run: seq<Device>)
    requires IsRun(c, run) && AllDone(run[|run| - 1])
    ensures c.Valid() && run[|run| - 1].counts == PhaseTally(c.g, c.changes, c.limit, |c.changes|)
  {
    hide Begins, StepAt, Inv, StackAt;
    var last := run[|run| - 1];
    RunInside(c, run, |run| - 1);
    forall i | 0 <= i < |c.changes| ensures |View(c, last).stacks[i].path| <= 1 {
      LoopingSees(c, last, i);
      SeenIs(c, last, i);
    }
    CountsSeen(c, last);
    FinishedCounts(c, View(c, last));
  }

  // ---- Runs go on until all threads are finished ----

  /** The memory after thread `i` has stored a stack and its flags. */
  ghost function WithStack(c: Config, m: Memory, i: nat, st: Stack): Memory
    requires c.Valid() && i < |c.changes| && |st.path| == |st.cursors| > 0
  {
    Memory(Put(m.paths, Base(c, i), st.path[1..]), Put(m.cursors, Base(c, i), st.cursors[1..]),
           Put(m.visited, FlagBase(c, i), seq(c.g.Order(), v => v in st.path)))
  }

  lemma WithStackWrites(c: Config, d: Device, i: nat, st: Stack)
    requires Fits(c, d) && i < |c.changes| && Rooted(c, i, st) && |st.path| <= c.limit
    requires NoRepeats(st.path) && (|st.path| > 1 ==> st.path[1] == c.changes[i].target)
    ensures Writes(c, d.memory, WithStack(c, d.memory, i, st), i, st)
  {
    hide Put, Outside, NoRepeats;
    var m := d.memory;
    var flags := seq(c.g.Order(), v => v in st.path);
    SliceInside(c, d, i);
    PutHolds(m.paths, Base(c, i), st.path[1..], c.limit);
    PutHolds(m.cursors, Base(c, i), st.cursors[1..], c.limit);
    PutHolds(m.visited, FlagBase(c, i), flags, c.g.Order());
    TailPut(Put(m.paths, Base(c, i), st.path[1..]), Put(m.cursors, Base(c, i), st.cursors[1..]), Base(c, i), st);
    FlagsPut(Put(m.visited, FlagBase(c, i), flags), FlagBase(c, i), c.g.Order(), st.path, flags);
  }

  lemma TailPut(paths: seq<nat>, cursors: seq<nat>, base: nat, st: Stack)
    requires |st.path| == |st.cursors| > 0 && base + |st.path| - 1 <= |paths| && base + |st.path| - 1 <= |cursors|
    requires forall d :: 0 <= d < |st.path| - 1 ==> paths[base + d] == st.path[1..][d] && cursors[base + d] == st.cursors[1..][d]
    ensures HoldsTail(paths, cursors, base, st)
  {
    forall d | 1 <= d < |st.path| ensures paths[base + d - 1] == st.path[d] && cursors[base + d - 1] == st.cursors[d] {
      assert paths[base + (d - 1)] == st.path[1..][d - 1];
    }
  }

  lemma FlagsPut(visited: seq<bool>, base: nat, order: int, path: seq<nat>, flags: seq<bool>)
    requires 0 <= order == |flags| && base + order <= |visited|
    requires forall v :: 0 <= v < order ==> visited[base + v] == flags[v] && (flags[v] <==> v in path)
    ensures Flags(visited, base, order, path)
  {
  }

  /** A thread that is not at the end of its loop can step. */
  lemma StepExists(c: Config, d: Device, i: nat)
    requires Inside(c, d) && i < |c.changes| && d.lanes[i] != Looping(0)
    ensures exists e :: LaneStep(c, d, e, i)
  {
    hide Flags, HoldsTail, StackOk, Inv, NoRepeats, Step, StartStack, Writes, Rooted, Seen;
    assert LaneOk(c, d, i);
    if d.lanes[i].Waiting? {
      WaitingSees(c, d, i);
      StartRooted(c, i);
      StartUnrepeated(c, i);
      var st := Seen(c, d, i);
      RootedShape(c, i, st);
      WithStackWrites(c, d, i, st);
      var e := Device(d.lanes[i := Looping(1)], d.counts, WithStack(c, d.memory, i, st));
      assert LaneStep(c, d, e, i);
    } else {
      var st := Seen(c, d, i);
      LoopingSees(c, d, i);
      RootedShape(c, i, st);
      StepKeepsShape(c, i, st);
      StepFits(c.Of(i), st, 1);
      var (next, length) := Step(c.Of(i), st);
      RootedShape(c, i, next);
      WithStackWrites(c, d, i, next);
      var e := Device(d.lanes[i := Looping(|next.path| - 1)], d.counts + Recorded(length), WithStack(c, d.memory, i, next));
      assert Loops(c, d, e, i, st);
      assert LaneStep(c, d, e, i);
    }
  }

  lemma RootedShape(c: Config, i: nat, st: Stack)
    requires i < |c.changes| && Rooted(c, i, st)
    ensures |st.path| == |st.cursors| > 0
  {
  }

  lemma StartUnrepeated(c: Config, i: nat)
    requires c.Valid() && i < |c.changes| && EdgeInRange(c.g, c.changes[i])
    ensures var st := StartStack(c.Of(i), c.changes[i]); NoRepeats(st.path) && |st.path| == 2 && st.path[1] == c.changes[i].target
  {
  }

  /** Unless all threads are finished, one of them can go on. */
  lemma NoDeadlock(c: Config, run: seq<Device>)
    requires IsRun(c, run)
    ensures var last := run[|run| - 1]; AllDone(last) || exists e :: DeviceNext(c, last, e)
  {
    hide Begins, StepAt, LaneStep, Inv;
    var last := run[|run| - 1];
    RunInside(c, run, |run| - 1);
    if i :| 0 <= i < |last.lanes| && last.lanes[i] != Looping(0) {
      StepExists(c, last, i);
      var e :| LaneStep(c, last, e, i);
      assert DeviceNext(c, last, e);
    }
  }

  /** No run is longer than the work the launch begins with. */
  lemma {:induction false} RunsEnd(c: Config, run: seq<Device>, i: nat)
    requires IsRun(c, run) && i < |run|
    ensures Inside(c, run[0]) && Inside(c, run[i]) && i + Work(c, run[i]) <= Work(c, run[0])
  {
    hide Begins, DeviceNext, Inside, Work;
    RunInside(c, run, 0);
    if i > 0 {
      RunsEnd(c, run, i - 1);
      assert StepAt(c, run, i);
      NextWorks(c, run[i - 1], run[i]);
    }
  }

  /** Every run can be continued until all threads are finished. */
  lemma {:induction false} RunsCanFinish(c: Config, run: seq<Device>) returns (more: seq<Device>)
    requires IsRun(c, run) && Inside(c, run[|run| - 1])
    ensures IsRun(c, more) && run <= more && AllDone(more[|more| - 1])
    decreases Work(c, run[|run| - 1])
  {
    hide Begins, DeviceNext, Inside, Work, AllDone;
    NoDeadlock(c, run);
    var d := run[|run| - 1];
    if AllDone(d) {
      return run;
    }
    var e :| DeviceNext(c, d, e);
    NextWorks(c, d, e);
    RunGoesOn(c, run, e);
    more := RunsCanFinish(c, run + [e]);
  }

  lemma RunGoesOn(c: Config, run: seq<Device>, e: Device)
    requires IsRun(c, run) && DeviceNext(c, run[|run| - 1], e)
    ensures IsRun(c, run + [e])
  {
    hide DeviceNext, Begins;
    var longer := run + [e];
    forall i | 0 < i < |longer| ensures StepAt(c, longer, i) {
      if i < |run| { assert StepAt(c, run, i); }
    }
  }

  /** There are runs: one begins for every list of changes. */
  lemma RunsBegin(c: Config) returns (run: seq<Device>)
    requires c.Valid()
    ensures IsRun(c, run)
  {
    var size, flags := |c.changes| * c.limit, |c.changes| * c.g.Order();
    run := [Device(seq(|c.changes|, _ => Waiting), multiset{}, Memory(seq(size, _ => 0), seq(size, _ => 0), seq(flags, _ => false)))];
  }
}
