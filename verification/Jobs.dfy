/** The work of one device thread: a static or time-window stack, or a temporal one. */
module Jobs {
  import opened CsrGraphs
  import opened CycleSearch
  import S = StackMachine
  import TS = TemporalSearch
  import T = TemporalStack

  datatype Job =
    | StackJob(s: Search, stack: S.Stack, floor: nat)
    | TemporalJob(ts: TS.Temporal, frames: T.Stack, floor: nat)

  /** The stack is in order and fits into a slice of `limit` entries. */
  ghost predicate JobOk(job: Job, limit: nat) {
    match job
    case StackJob(s, stack, floor) => s.cap == Some(limit) && S.StackOk(s, stack, floor) && |stack.path| <= limit
    case TemporalJob(ts, frames, floor) => ts.cap == Some(limit) && T.StackOk(ts, frames, floor) && |frames.path| <= limit
  }

  predicate Halted(job: Job) {
    match job
    case StackJob(_, stack, floor) => |stack.path| <= floor
    case TemporalJob(_, frames, floor) => |frames.path| <= floor
  }

  /** One iteration of the thread's loop, and the length it records, if any. */
  ghost function Advance(job: Job, limit: nat): (r: (Job, Option<nat>))
    requires JobOk(job, limit) && !Halted(job)
  {
    match job
    case StackJob(s, stack, floor) =>
      S.PopOk(s, stack, floor);
      var (next, length) := S.Step(s, stack);
      (StackJob(s, next, floor), length)
    case TemporalJob(ts, frames, floor) =>
      T.PopOk(ts, frames, floor);
      var (next, length) := T.Step(ts, frames);
      (TemporalJob(ts, next, floor), length)
  }

  /** What the thread still has to record. */
  ghost function Owes(job: Job, limit: nat): Histogram
    requires JobOk(job, limit)
  {
    match job
    case StackJob(s, stack, floor) => S.Pending(s, stack, floor)
    case TemporalJob(ts, frames, floor) => T.Pending(ts, frames, floor)
  }

  /** A bound on the iterations that are left. */
  ghost function Steps(job: Job, limit: nat): nat
    requires JobOk(job, limit)
  {
    match job
    case StackJob(s, stack, floor) => S.PendingSteps(s, stack, floor)
    case TemporalJob(ts, frames, floor) => T.PendingSteps(ts, frames, floor)
  }

  /** Every iteration conserves recorded plus owed counts, stays in the slice, and uses up work. */
  lemma AdvanceConserves(job: Job, limit: nat)
    requires JobOk(job, limit) && !Halted(job)
    ensures var (next, length) := Advance(job, limit);
            && JobOk(next, limit) && Steps(next, limit) < Steps(job, limit)
            && Owes(job, limit) == Recorded(length) + Owes(next, limit)
            && (length.Some? ==> length.value <= limit)
  {
    match job
    case StackJob(_, _, _) => StackJobConserves(job, limit);
    case TemporalJob(_, _, _) => TemporalJobConserves(job, limit);
  }

  lemma StackJobConserves(job: Job, limit: nat)
    requires JobOk(job, limit) && !Halted(job) && job.StackJob?
    ensures var (next, length) := Advance(job, limit);
            && JobOk(next, limit) && Steps(next, limit) < Steps(job, limit)
            && Owes(job, limit) == Recorded(length) + Owes(next, limit)
            && (length.Some? ==> length.value <= limit)
  {
    hide S.Pending, S.PendingSteps, S.StackOk, T.Pending, T.PendingSteps, T.StackOk;
    S.StepConserves(job.s, job.stack, job.floor);
    S.StepFits(job.s, job.stack, job.floor);
  }

  lemma TemporalJobConserves(job: Job, limit: nat)
    requires JobOk(job, limit) && !Halted(job) && job.TemporalJob?
    ensures var (next, length) := Advance(job, limit);
            && JobOk(next, limit) && Steps(next, limit) < Steps(job, limit)
            && Owes(job, limit) == Recorded(length) + Owes(next, limit)
            && (length.Some? ==> length.value <= limit)
  {
    hide S.Pending, S.PendingSteps, S.StackOk, T.Pending, T.PendingSteps, T.StackOk;
    T.StepConserves(job.ts, job.frames, job.floor);
    T.PopOk(job.ts, job.frames, job.floor);
  }

  /** A halted thread owes nothing. */
  lemma HaltedOwesNothing(job: Job, limit: nat)
    requires JobOk(job, limit) && Halted(job)
    ensures Owes(job, limit) == multiset{}
  {
  }
}
