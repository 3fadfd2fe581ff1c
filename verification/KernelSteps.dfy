/** The loop bodies of the counting kernels, run on the shared arrays: each is a step of the device. */
module KernelSteps {
  import opened BlockProtocol
  import opened CsrGraphs
  import opened Jobs
  import opened SliceProtocol
  import opened Slices
  import BlockEnds
  import CycleSearch
  import JohnsonKernel
  import S = StackMachine
  import T = TemporalStack
  import TemporalKernel

  /** The arrays are the memory of the device. */
  ghost predicate Backs(m: Memory, paths: array<nat>, cursors: array<nat>, frames: array<T.Frame>)
    reads paths, cursors, frames
  {
    m == Memory(paths[..], cursors[..], frames[..]) && paths != cursors
  }

  lemma StackReady(now: Job, limit: nat)
    requires JobOk(now, limit) && !Halted(now) && now.StackJob?
    ensures var StackJob(s, stack, floor) := now;
            && s.cap == Some(limit) && floor < |stack.path| == |stack.cursors| <= limit
            && CycleSearch.AtSlot(s, stack.path, stack.cursors[|stack.path| - 1])
            && Advance(now, limit) == (StackJob(s, S.Step(s, stack).0, floor), S.Step(s, stack).1)
  {
    hide S.Step;
    S.PopOk(now.s, now.stack, now.floor);
  }

  lemma EventsReady(now: Job, limit: nat)
    requires JobOk(now, limit) && !Halted(now) && now.TemporalJob?
    ensures var TemporalJob(s, frames, floor) := now;
            && s.cap == Some(limit) && floor < |frames.path| == |frames.frames| <= limit
            && T.FrameOk(s, frames.path, T.Top(frames))
            && Advance(now, limit) == (TemporalJob(s, T.Step(s, frames).0, floor), T.Step(s, frames).1)
  {
    hide T.Step;
    T.PopOk(now.ts, now.frames, now.floor);
  }

  /** One search iteration of a thread in its slices. */
  method Search(job: Job, limit: nat, i: nat, depth: nat, paths: array<nat>, cursors: array<nat>, frames: array<T.Frame>,
                ghost m: Memory, ghost now: Job) returns (deeper: nat, length: Option<nat>, ghost n: Memory)
    requires JobOk(now, limit) && !Halted(now) && SameSearch(now, job) && Depth(now) == depth
    requires Backs(m, paths, cursors, frames) && HoldsJob(m, i * limit, now)
    requires i * limit + limit <= |m.paths| == |m.cursors| == |m.frames|
    modifies paths, cursors, frames
    ensures Backs(n, paths, cursors, frames) && Writes(m, n, i, limit, Advance(now, limit).0)
    ensures deeper == Depth(Advance(now, limit).0) && length == Advance(now, limit).1
  {
    hide JohnsonKernel.Holds, TemporalKernel.Holds, Outside, S.Step, T.Step, JobOk, Advance, T.FrameOk, CycleSearch.AtSlot;
    match job {
      case StackJob(s, _, _) =>
        StackReady(now, limit);
        deeper, length := JohnsonKernel.Iterate(s, paths, cursors, i * limit, depth, now.stack, now.floor);
      case TemporalJob(s, _, _) =>
        EventsReady(now, limit);
        deeper, length := TemporalKernel.Iterate(s, paths, frames, i * limit, depth, now.frames, now.floor);
    }
    n := Memory(paths[..], cursors[..], frames[..]);
    Unchanged(m.cursors, i * limit, limit);
    Unchanged(m.frames, i * limit, limit);
  }

  lemma Unchanged<T(!new)>(a: seq<T>, base: nat, limit: nat)
    ensures Outside(a, a, base, limit)
  {
  }

  /** A closed cycle is added to the block's histogram atomically. */
  method CountCycle(bins: array<nat>, length: Option<nat>)
    requires length.Some? ==> length.value < bins.Length
    modifies bins
    ensures bins[..] == Counted(old(bins[..]), length)
  {
    if length.Some? {
      bins[length.value] := bins[length.value] + 1;
    }
  }

  ghost function Counted(row: seq<nat>, length: Option<nat>): seq<nat>
    requires length.Some? ==> length.value < |row|
  {
    if length.Some? then row[length.value := row[length.value] + 1] else row
  }

  lemma SearchingState(c: Config, d: Device, b: nat, l: nat)
    requires Inside(c, d) && b < c.blocks && l < c.lanes
    ensures Shaped(c, View(c, d)) && View(c, d).threads[b][l] == Seen(c, d, b, l) && View(c, d).bins == d.bins
    ensures b < |d.bins| && |d.bins[b]| == c.limit + 1
  {
    hide Seen, JobOk, ThreadOk;
    SeenIs(c, d, b, l);
  }

  /** The loop body of a searching thread, with the atomic increment of the block's histogram. */
  method IterateThread(c: Config, ghost d: Device, b: nat, l: nat, id: nat, depth: nat,
                       paths: array<nat>, cursors: array<nat>, frames: array<T.Frame>, bins: array<nat>)
    returns (deeper: nat, ghost e: Device)
    requires Inside(c, d) && b < c.blocks && l < c.lanes && d.lanes[b][l] == Searching(id, depth)
    requires id < |c.jobs| && depth > c.jobs[id].floor
    requires Backs(d.memory, paths, cursors, frames) && bins != paths && bins != cursors && b < |d.bins| && d.bins[b] == bins[..]
    modifies paths, cursors, frames, bins
    ensures LaneStep(c, d, e, b, l) && e.lanes[b][l] == Searching(id, deeper)
    ensures Backs(e.memory, paths, cursors, frames) && b < |e.bins| && e.bins[b] == bins[..]
  {
    hide JobOk, JobAt, HoldsJob, SameSearch, Advance, Writes, Inv, ThreadStep, Outside, View, Fits, Seen, LaneStep, Effect, Searched, Halted, Shaped, Counted;
    SearchingSees(c, d, b, l, id, depth);
    ghost var q, now := View(c, d), Seen(c, d, b, l).job;
    SearchingState(c, d, b, l);
    HaltsAtFloor(now, c.jobs[id]);
    AdvanceConserves(now, c.limit);
    var deeper', recorded, m := Search(c.jobs[id], c.limit, c.Id(b, l), depth, paths, cursors, frames, d.memory, now);
    deeper := deeper';
    CountCycle(bins, recorded);
    ghost var next := Advance(now, c.limit).0;
    ghost var r := Searched(c, q, b, l, Running(id, next), recorded);
    SearchedSteps(c, q, b, l, id, now, next, recorded);
    AfterSteps(c, d, r, m, b, l);
    e := After(d, r, m, b, l);
  }

  lemma HaltsAtFloor(now: Job, start: Job)
    requires SameSearch(now, start)
    ensures Halted(now) <==> Depth(now) <= start.floor
  {
  }

  /** The state after the thread's iteration. */
  ghost function Searched(c: Config, q: State, b: nat, l: nat, t: Thread, length: Option<nat>): State
    requires Shaped(c, q) && b < c.blocks && l < c.lanes && (length.Some? ==> length.value <= c.limit)
  {
    var moved := SetThread(q, b, l, t);
    match length
    case None => moved
    case Some(k) => SetBin(moved, b, k, q.bins[b][k] + 1)
  }

  lemma SearchedSteps(c: Config, q: State, b: nat, l: nat, id: nat, job: Job, next: Job, length: Option<nat>)
    requires Shaped(c, q) && b < c.blocks && l < c.lanes && JobOk(job, c.limit) && !Halted(job) && q.threads[b][l] == Running(id, job)
    requires (next, length) == Advance(job, c.limit) && (length.Some? ==> length.value <= c.limit)
    ensures var r := Searched(c, q, b, l, Running(id, next), length);
            && ThreadStep(c, q, r, b, l) && b < |r.threads| && l < |r.threads[b]| && r.threads[b][l] == Running(id, next)
            && b < |r.bins| && r.bins[b] == Counted(q.bins[b], length)
  {
    hide JobOk, Advance, Halted;
    var r := Searched(c, q, b, l, Running(id, next), length);
    assert JobStep(c, q, r, b, l, id, job);
  }

  /** A claim, with the load of the first levels when there was a job left. */
  method ClaimThread(c: Config, ghost d: Device, b: nat, l: nat, j: nat,
                     paths: array<nat>, cursors: array<nat>, frames: array<T.Frame>)
    returns (depth: nat, ghost e: Device)
    requires Inside(c, d) && b < c.blocks && l < c.lanes && d.lanes[b][l] == Standing(Claiming)
    requires j == Wanted(c, View(c, d), b, l) && Backs(d.memory, paths, cursors, frames)
    modifies paths, cursors, frames
    ensures LaneStep(c, d, e, b, l) && Backs(e.memory, paths, cursors, frames)
    ensures e.lanes[b][l] == if j < |c.jobs| then Searching(j, depth) else Standing(Finished)
  {
    hide JobOk, HoldsJob, Writes, Inv, ThreadStep, Outside, LaneStep, Effect;
    ghost var q := View(c, d);
    SeenIs(c, d, b, l);
    BlockEnds.InvShaped(c, q);
    ghost var r, m := Claim(c, q, b, l), d.memory;
    ClaimSteps(c, q, b, l);
    depth := 0;
    if j < |c.jobs| {
      ClaimFits(c, q, b, l);
      depth, m := LoadJob(c.jobs[j], c.limit, c.Id(b, l), paths, cursors, frames, m);
    }
    AfterSteps(c, d, r, m, b, l);
    e := After(d, r, m, b, l);
  }

  lemma ClaimSteps(c: Config, q: State, b: nat, l: nat)
    requires Shaped(c, q) && b < c.blocks && l < c.lanes && q.threads[b][l].Claiming?
    ensures var r, j := Claim(c, q, b, l), Wanted(c, q, b, l);
            && ThreadStep(c, q, r, b, l) && b < |r.threads| && l < |r.threads[b]|
            && r.threads[b][l] == if j < |c.jobs| then Running(j, c.jobs[j]) else Finished
  {
  }

  /** A thread that gets a job has a slice. */
  lemma ClaimFits(c: Config, q: State, b: nat, l: nat)
    requires Shaped(c, q) && b < c.blocks && l < c.lanes && Wanted(c, q, b, l) < |c.jobs|
    ensures c.Id(b, l) * c.limit + c.limit <= Slots(c) * c.limit && JobOk(c.jobs[Wanted(c, q, b, l)], c.limit)
  {
    hide JobOk;
    SliceFits(b, c.blocks, c.lanes);
    SliceInside(c, c.Id(b, l));
  }

  method LoadJob(job: Job, limit: nat, i: nat, paths: array<nat>, cursors: array<nat>, frames: array<T.Frame>, ghost m: Memory)
    returns (depth: nat, ghost n: Memory)
    requires JobOk(job, limit) && Backs(m, paths, cursors, frames) && i * limit + limit <= |m.paths| == |m.cursors| == |m.frames|
    modifies paths, cursors, frames
    ensures depth == Depth(job) && Backs(n, paths, cursors, frames) && Writes(m, n, i, limit, job)
  {
    JobGrounded(job, limit);
    hide JobOk, JohnsonKernel.Holds, TemporalKernel.Holds, Outside;
    match job {
      case StackJob(_, stack, floor) => JohnsonKernel.Load(stack, floor, limit, paths, cursors, i * limit);
      case TemporalJob(_, stack, floor) => TemporalKernel.Load(stack, floor, limit, paths, frames, i * limit);
    }
    depth, n := Depth(job), Memory(paths[..], cursors[..], frames[..]);
    Unchanged(m.cursors, i * limit, limit);
    Unchanged(m.frames, i * limit, limit);
  }
}
