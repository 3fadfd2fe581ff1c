/** Runs of the counting kernels on shared memory: what every run of the protocol has, they have. */
module SliceRuns {
  import opened BlockProtocol
  import opened CsrGraphs
  import opened Jobs
  import opened SliceProtocol
  import opened Slices
  import BlockEnds
  import BlockRuns
  import TemporalStack

  /** The arrays of the stacks start with arbitrary contents. */
  ghost predicate Begins(c: Config, d: Device) {
    c.Valid() && Fits(c, d) && Init(c, View(c, d))
  }

  ghost predicate DeviceNext(c: Config, d: Device, e: Device) {
    && Fits(c, d) && Shaped(c, View(c, d))
    && exists b, l :: 0 <= b < c.blocks && 0 <= l < c.lanes && LaneStep(c, d, e, b, l)
  }

  /** A run: any thread steps at any time. */
  ghost predicate IsRun(c: Config, run: seq<Device>) {
    && 0 < |run| && Begins(c, run[0])
    && forall i :: 0 < i < |run| ==> StepAt(c, run, i)
  }

  ghost predicate StepAt(c: Config, run: seq<Device>, i: nat)
    requires 0 < i < |run|
  {
    DeviceNext(c, run[i - 1], run[i])
  }

  ghost function Views(c: Config, run: seq<Device>): seq<State>
    requires forall i :: 0 <= i < |run| ==> Fits(c, run[i])
  {
    seq(|run|, i requires 0 <= i < |run| => View(c, run[i]))
  }

  lemma NextRefines(c: Config, d: Device, e: Device)
    requires Inside(c, d) && DeviceNext(c, d, e)
    ensures Fits(c, e) && Next(c, View(c, d), View(c, e)) && Inv(c, View(c, e))
  {
    hide Inv, ThreadStep, LaneStep, Fits, View;
    var b, l :| 0 <= b < c.blocks && 0 <= l < c.lanes && LaneStep(c, d, e, b, l);
    StepRefines(c, d, e, b, l);
    assert Next(c, View(c, d), View(c, e));
    NextKeepsInv(c, View(c, d), View(c, e));
  }

  lemma {:induction false} RunFits(c: Config, run: seq<Device>, i: nat)
    requires IsRun(c, run) && i < |run|
    ensures Fits(c, run[i]) && Inv(c, View(c, run[i]))
  {
    hide Inv, Init, DeviceNext, Fits, View;
    if i == 0 {
      BlockRuns.InitInv(c, View(c, run[0]));
    } else {
      RunFits(c, run, i - 1);
      assert StepAt(c, run, i);
      NextRefines(c, run[i - 1], run[i]);
    }
  }

  /** What the threads see in the shared memory is a run of the protocol. */
  lemma RunRefines(c: Config, run: seq<Device>)
    requires IsRun(c, run)
    ensures (forall i :: 0 <= i < |run| ==> Fits(c, run[i])) && BlockRuns.IsRun(c, Views(c, run))
  {
    hide Inv, Init, DeviceNext, Fits, View, Next;
    forall i | 0 <= i < |run| ensures Fits(c, run[i]) {
      RunFits(c, run, i);
    }
    var views := Views(c, run);
    forall i | 0 < i < |views| ensures BlockRuns.StepAt(c, views, i) {
      RunFits(c, run, i - 1);
      assert StepAt(c, run, i);
      NextRefines(c, run[i - 1], run[i]);
    }
  }

  /**
   * Every running thread's slice holds its stack: beside each run there is one of the protocol, where the
   * stacks are values of the threads, and at every moment each slice holds the stack its thread has there.
   */
  lemma SlicesHoldStacks(c: Config, run: seq<Device>) returns (values: seq<State>)
    requires IsRun(c, run)
    ensures BlockRuns.IsRun(c, values) && |values| == |run|
    ensures forall i :: 0 <= i < |run| ==> HoldsAll(c, run[i], values[i])
  {
    hide IsRun, BlockRuns.IsRun, HoldsAll;
    RunRefines(c, run);
    values := Views(c, run);
    forall i | 0 <= i < |run| ensures HoldsAll(c, run[i], values[i]) {
      RunFits(c, run, i);
      SeenIsHeld(c, run[i]);
    }
  }

  /** The registers and slices of the device are those of threads with these stacks. */
  ghost predicate HoldsAll(c: Config, d: Device, q: State) {
    && Fits(c, d) && Shaped(c, q)
    && forall b, l :: 0 <= b < c.blocks && 0 <= l < c.lanes ==>
         && d.lanes[b][l] == LaneOf(q.threads[b][l])
         && (q.threads[b][l].Running? ==> HoldsJob(d.memory, Base(c, b, l), q.threads[b][l].job))
  }

  lemma SeenIsHeld(c: Config, d: Device)
    requires Inside(c, d)
    ensures HoldsAll(c, d, View(c, d))
  {
    hide Inv, JobOk, JobAt, HoldsJob, SameSearch, Grounded, Seen;
    var q := View(c, d);
    BlockEnds.InvShaped(c, q);
    forall b, l | 0 <= b < c.blocks && 0 <= l < c.lanes
      ensures d.lanes[b][l] == LaneOf(q.threads[b][l])
      ensures q.threads[b][l].Running? ==> HoldsJob(d.memory, Base(c, b, l), q.threads[b][l].job)
    {
      SeenIs(c, d, b, l);
      LaneHeld(c, d, b, l);
    }
  }

  lemma LaneHeld(c: Config, d: Device, b: nat, l: nat)
    requires Inside(c, d) && b < c.blocks && l < c.lanes
    ensures d.lanes[b][l] == LaneOf(Seen(c, d, b, l))
    ensures Seen(c, d, b, l).Running? ==> HoldsJob(d.memory, Base(c, b, l), Seen(c, d, b, l).job)
  {
    hide Inv, JobOk, JobAt, HoldsJob, SameSearch, Grounded;
    match d.lanes[b][l] {
      case Standing(t) => assert LaneFits(c, b, l, d.lanes[b][l]);
      case Searching(id, depth) => SearchingSees(c, d, b, l, id, depth);
    }
  }

  // ---- Finished runs ----

  ghost predicate IsFinishedRun(c: Config, run: seq<Device>) {
    && IsRun(c, run) && Fits(c, run[|run| - 1]) && Shaped(c, View(c, run[|run| - 1]))
    && BlockRuns.AllDone(c, View(c, run[|run| - 1]))
  }

  /** Whatever the schedule, when all threads are done the global bins are the sums over all jobs. */
  lemma FinishedRunCounts(c: Config, run: seq<Device>, k: nat)
    requires IsFinishedRun(c, run) && k <= c.limit
    ensures |run[|run| - 1].global| == c.limit + 1 && run[|run| - 1].global[k] == Total(c, k)
  {
    hide IsRun, BlockRuns.IsRun, Fits, BlockRuns.AllDone, Total;
    RunRefines(c, run);
    BlockRuns.FinishedRunCounts(c, Views(c, run), k);
  }

  // ---- Runs go on until all threads are done ----

  /** The memory after the thread has stored a stack. */
  ghost function Stored(m: Memory, i: nat, limit: nat, job: Job): Memory {
    match job
    case StackJob(_, stack, _) => m.(paths := Put(m.paths, i * limit, stack.path), cursors := Put(m.cursors, i * limit, stack.cursors))
    case TemporalJob(_, frames, _) => m.(paths := Put(m.paths, i * limit, frames.path), frames := Put(m.frames, i * limit, frames.frames))
  }

  lemma StoredWrites(m: Memory, i: nat, limit: nat, job: Job)
    requires Grounded(job) && Depth(job) <= limit && i * limit + limit <= |m.paths| == |m.cursors| == |m.frames|
    ensures Writes(m, Stored(m, i, limit, job), i, limit, job)
  {
    hide Put, Outside;
    match job
    case StackJob(_, stack, _) =>
      PutHolds(m.paths, i * limit, stack.path, limit);
      PutHolds(m.cursors, i * limit, stack.cursors, limit);
      PutHolds(m.frames, i * limit, [], limit);
    case TemporalJob(_, frames, _) =>
      PutHolds(m.paths, i * limit, frames.path, limit);
      PutHolds(m.frames, i * limit, frames.frames, limit);
      PutHolds(m.cursors, i * limit, [], limit);
  }

  /** Where a thread of the protocol can step, it can step on the memory. */
  lemma StepExists(c: Config, d: Device, b: nat, l: nat)
    requires Inside(c, d) && b < c.blocks && l < c.lanes && BlockRuns.CanStep(c, View(c, d), b, l)
    ensures exists e :: LaneStep(c, d, e, b, l)
  {
    hide JobOk, JobAt, SameSearch, Writes, Inv, Grounded, Stored, View, ThreadStep;
    var q := View(c, d);
    BlockEnds.InvShaped(c, q);
    var r :| ThreadStep(c, q, r, b, l);
    SeenIs(c, d, b, l);
    SeenAtItsJob(c, d, b, l);
    MoverAtItsJob(c, q, r, b, l);
    var t, m := r.threads[b][l], d.memory;
    if t.Running? {
      JobGrounded(t.job, c.limit);
      SliceInside(c, c.Id(b, l));
      StoredWrites(m, c.Id(b, l), c.limit, t.job);
      m := Stored(m, c.Id(b, l), c.limit, t.job);
    }
    AfterSteps(c, d, r, m, b, l);
  }

  /** No run gets stuck: until every thread is done, some thread can step. */
  lemma NoDeadlock(c: Config, run: seq<Device>)
    requires IsRun(c, run)
    ensures var last := run[|run| - 1]; IsFinishedRun(c, run) || exists e :: DeviceNext(c, last, e)
  {
    hide Inv, BlockRuns.IsRun, Begins, StepAt, BlockRuns.CanStep, Fits, LaneStep, BlockRuns.AllDone;
    var d := run[|run| - 1];
    RunFits(c, run, |run| - 1);
    RunRefines(c, run);
    BlockRuns.NoDeadlock(c, Views(c, run));
    if !BlockRuns.AllDone(c, View(c, d)) {
      var b, l :| 0 <= b < c.blocks && 0 <= l < c.lanes && BlockRuns.CanStep(c, View(c, d), b, l);
      StepExists(c, d, b, l);
      var e :| LaneStep(c, d, e, b, l);
      assert DeviceNext(c, d, e);
    }
  }

  /** No run is longer than the work of its first state allows. */
  lemma RunsEnd(c: Config, run: seq<Device>)
    requires IsRun(c, run)
    ensures Fits(c, run[0]) && Shaped(c, View(c, run[0])) && |run| <= 1 + BlockEnds.Work(c, View(c, run[0]))
  {
    hide Begins, StepAt, BlockRuns.IsRun, BlockEnds.Work, Fits, Shaped;
    RunRefines(c, run);
    BlockEnds.RunsEnd(c, Views(c, run), |run| - 1);
  }

  /** Every run can be continued until all threads are done. */
  lemma {:induction false} RunsCanFinish(c: Config, run: seq<Device>) returns (more: seq<Device>)
    requires IsRun(c, run) && Fits(c, run[|run| - 1]) && Shaped(c, View(c, run[|run| - 1]))
    ensures IsFinishedRun(c, more) && run <= more
    decreases BlockEnds.Work(c, View(c, run[|run| - 1]))
  {
    hide Inv, Fits, DeviceNext, Begins, BlockEnds.Work, IsFinishedRun, View, Shaped;
    NoDeadlock(c, run);
    if IsFinishedRun(c, run) {
      return run;
    }
    var d, e :| d == run[|run| - 1] && DeviceNext(c, d, e);
    RunFits(c, run, |run| - 1);
    NextRefines(c, d, e);
    BlockEnds.NextWorks(c, View(c, d), View(c, e));
    RunGoesOn(c, run, e);
    more := RunsCanFinish(c, run + [e]);
  }

  lemma RunGoesOn(c: Config, run: seq<Device>, e: Device)
    requires IsRun(c, run) && DeviceNext(c, run[|run| - 1], e)
    ensures IsRun(c, run + [e])
  {
    hide DeviceNext, Begins;
    var longer := run + [e];
    forall i | 0 < i < |longer| ensures StepAt(c, longer, i) {
      if i < |run| { assert StepAt(c, run, i); }
    }
  }

  /** There are runs: one begins in every configuration. */
  lemma RunsBegin(c: Config) returns (run: seq<Device>)
    requires c.Valid()
    ensures IsRun(c, run)
  {
    hide JobOk;
    var size := Slots(c) * c.limit;
    var zeros := seq(c.limit + 1, _ => 0);
    var d := Device(0, seq(c.blocks, _ => seq(c.lanes, l requires 0 <= l => Standing(Clearing(l)))), seq(c.blocks, _ => zeros), zeros,
                    seq(|c.jobs|, _ => None), Memory(seq(size, _ => 0), seq(size, _ => 0), seq(size, _ => TemporalStack.Frame(0, 0, 0, 0, 0))));
    run := [d];
  }
}
