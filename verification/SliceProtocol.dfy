/**
 * The counting kernels on shared memory.  A searching thread keeps only its job's id and its depth; its
 * stack lies in its slices of arrays that all threads write.  Every run of this device is a run of
 * `BlockProtocol`, where each thread has its stack to itself: the slices never get in each other's way.
 */
module SliceProtocol {
  import opened BlockProtocol
  import opened CsrGraphs
  import opened Jobs
  import opened Slices
  import JohnsonKernel
  import S = StackMachine
  import T = TemporalStack
  import TemporalKernel

  /** The arrays of the static and time-window kernels are `paths` and `cursors`, of the temporal one `paths` and `frames`. */
  datatype Memory = Memory(paths: seq<nat>, cursors: seq<nat>, frames: seq<T.Frame>)

  /** A searching thread: the id of its job and its depth. */
  datatype Lane = Standing(thread: Thread) | Searching(id: nat, depth: nat)

  datatype Device = Device(counter: nat, lanes: seq<seq<Lane>>, bins: seq<seq<nat>>, global: seq<nat>,
                           owner: seq<Option<(nat, nat)>>, memory: Memory)

  /** The host allocates one slice per queue thread, or one per job. */
  function Slots(c: Config): nat {
    if c.queue then c.blocks * c.lanes else |c.jobs|
  }

  /** Where the slices of a thread begin. */
  function Base(c: Config, b: nat, l: nat): nat {
    c.Id(b, l) * c.limit
  }

  ghost predicate LaneFits(c: Config, b: nat, l: nat, lane: Lane) {
    match lane
    case Standing(t) => !t.Running?
    case Searching(id, depth) => id < |c.jobs| && depth <= c.limit && c.Id(b, l) < Slots(c)
  }

  ghost predicate Fits(c: Config, d: Device) {
    && |d.lanes| == c.blocks && (forall b :: 0 <= b < c.blocks ==> |d.lanes[b]| == c.lanes)
    && |d.memory.paths| == |d.memory.cursors| == |d.memory.frames| == Slots(c) * c.limit
    && (forall b, l :: 0 <= b < c.blocks && 0 <= l < c.lanes ==> LaneFits(c, b, l, d.lanes[b][l]))
  }

  function Depth(job: Job): nat {
    match job
    case StackJob(_, stack, _) => |stack.path|
    case TemporalJob(_, frames, _) => |frames.path|
  }

  /** The floor is a level of the stack. */
  ghost predicate Grounded(job: Job) {
    match job
    case StackJob(_, stack, floor) => floor <= |stack.path| == |stack.cursors|
    case TemporalJob(_, frames, floor) => floor <= |frames.path| == |frames.frames|
  }

  lemma JobGrounded(job: Job, limit: nat)
    requires JobOk(job, limit)
    ensures Grounded(job) && Depth(job) <= limit
  {
  }

  // ---- Stacks in memory ----

  /** The slice at `base` holds the job's stack. */
  ghost predicate HoldsJob(m: Memory, base: nat, job: Job) {
    match job
    case StackJob(_, stack, floor) => JohnsonKernel.Holds(m.paths, m.cursors, base, stack, floor)
    case TemporalJob(_, frames, floor) => TemporalKernel.Holds(m.paths, m.frames, base, frames, floor)
  }

  /** What a thread at this depth reads from the slice at `base`; levels below the floor have no cursors. */
  ghost function JobAt(c: Config, m: Memory, base: nat, id: nat, depth: nat): Job
    requires id < |c.jobs| && base + depth <= |m.paths| == |m.cursors| == |m.frames|
  {
    match c.jobs[id]
    case StackJob(s, start, floor) =>
      StackJob(s, S.Stack(m.paths[base..base + depth],
                          seq(depth, d requires 0 <= d < depth =>
                            if d < floor && d < |start.cursors| then start.cursors[d] else m.cursors[base + d])), floor)
    case TemporalJob(s, start, floor) =>
      TemporalJob(s, T.Stack(m.paths[base..base + depth],
                             seq(depth, d requires 0 <= d < depth =>
                               if d < floor && d < |start.frames| then start.frames[d] else m.frames[base + d])), floor)
  }

  /** `job` searches what `start` searches, and has the same levels below the floor. */
  ghost predicate SameSearch(job: Job, start: Job) {
    match start
    case StackJob(s, stack, floor) =>
      && job.StackJob? && job.s == s && job.floor == floor <= |stack.cursors| && floor <= |job.stack.cursors|
      && job.stack.cursors[..floor] == stack.cursors[..floor]
    case TemporalJob(s, frames, floor) =>
      && job.TemporalJob? && job.ts == s && job.floor == floor <= |frames.frames| && floor <= |job.frames.frames|
      && job.frames.frames[..floor] == frames.frames[..floor]
  }

  /** A stack that the slice holds is the one read from it. */
  lemma HeldIsRead(c: Config, m: Memory, base: nat, id: nat, job: Job)
    requires id < |c.jobs| && base + Depth(job) <= |m.paths| == |m.cursors| == |m.frames|
    requires HoldsJob(m, base, job) && SameSearch(job, c.jobs[id])
    ensures JobAt(c, m, base, id, Depth(job)) == job
  {
    match c.jobs[id]
    case StackJob(_, start, floor) =>
      forall d | 0 <= d < floor ensures job.stack.cursors[d] == start.cursors[d] {
        assert job.stack.cursors[..floor][d] == start.cursors[..floor][d];
      }
      assert JobAt(c, m, base, id, Depth(job)).stack.cursors == job.stack.cursors;
    case TemporalJob(_, start, floor) =>
      forall d | 0 <= d < floor ensures job.frames.frames[d] == start.frames[d] {
        assert job.frames.frames[..floor][d] == start.frames[..floor][d];
      }
      assert JobAt(c, m, base, id, Depth(job)).frames.frames == job.frames.frames;
  }

  /** And what is read from a slice is held by it. */
  lemma ReadIsHeld(c: Config, m: Memory, base: nat, id: nat, depth: nat)
    requires id < |c.jobs| && base + depth <= |m.paths| == |m.cursors| == |m.frames|
    requires Grounded(c.jobs[id]) && Grounded(JobAt(c, m, base, id, depth))
    ensures var job := JobAt(c, m, base, id, depth); Depth(job) == depth && HoldsJob(m, base, job) && SameSearch(job, c.jobs[id])
  {
  }

  /** An iteration stays with the search and does not touch the levels below the floor. */
  lemma AdvanceKeepsSearch(job: Job, limit: nat, start: Job)
    requires JobOk(job, limit) && !Halted(job) && SameSearch(job, start)
    ensures SameSearch(Advance(job, limit).0, start)
  {
    match job
    case StackJob(s, stack, floor) =>
      S.PopOk(s, stack, floor);
      assert S.Step(s, stack).0.cursors[..floor] == stack.cursors[..floor];
    case TemporalJob(s, frames, floor) =>
      T.PopOk(s, frames, floor);
      assert T.Step(s, frames).0.frames[..floor] == frames.frames[..floor];
  }

  /** Thread `i` stores its stack in its slices and writes nothing else. */
  ghost predicate Writes(m: Memory, n: Memory, i: nat, limit: nat, job: Job) {
    && HoldsJob(n, i * limit, job)
    && Outside(m.paths, n.paths, i * limit, limit) && Outside(m.cursors, n.cursors, i * limit, limit)
    && Outside(m.frames, n.frames, i * limit, limit)
  }

  lemma SameSizes(m: Memory, n: Memory, i: nat, limit: nat, job: Job)
    requires Writes(m, n, i, limit, job)
    ensures |n.paths| == |m.paths| && |n.cursors| == |m.cursors| && |n.frames| == |m.frames|
  {
    hide HoldsJob;
  }

  /** Thread `j` still reads the same stack afterwards. */
  lemma OthersRead(c: Config, m: Memory, n: Memory, i: nat, job: Job, j: nat, id: nat, depth: nat)
    requires Writes(m, n, i, c.limit, job) && i != j && id < |c.jobs| && depth <= c.limit
    requires j * c.limit + depth <= |m.paths| == |m.cursors| == |m.frames|
    requires Grounded(c.jobs[id]) && Grounded(JobAt(c, m, j * c.limit, id, depth))
    ensures |n.paths| == |n.cursors| == |n.frames| == |m.paths|
    ensures JobAt(c, n, j * c.limit, id, depth) == JobAt(c, m, j * c.limit, id, depth)
  {
    hide JohnsonKernel.Holds, TemporalKernel.Holds, Outside, Grounded, SameSearch, JobAt;
    SameSizes(m, n, i, c.limit, job);
    var other := JobAt(c, m, j * c.limit, id, depth);
    ReadIsHeld(c, m, j * c.limit, id, depth);
    match other {
      case StackJob(_, stack, floor) =>
        JohnsonKernel.OthersHold(m.paths, m.cursors, n.paths, n.cursors, i, j, c.limit, stack, floor);
      case TemporalJob(_, frames, floor) =>
        TemporalKernel.OthersHold(m.paths, m.frames, n.paths, n.frames, i, j, c.limit, frames, floor);
    }
    HeldIsRead(c, n, j * c.limit, id, other);
  }

  // ---- Steps ----

  lemma SliceInside(c: Config, i: nat)
    requires i < Slots(c)
    ensures i * c.limit + c.limit <= Slots(c) * c.limit
  {
    SliceFits(i, Slots(c), c.limit);
  }

  /** The thread as the protocol sees it: a searching thread has the stack that its slice holds. */
  ghost function Seen(c: Config, d: Device, b: nat, l: nat): Thread
    requires Fits(c, d) && b < c.blocks && l < c.lanes
  {
    assert LaneFits(c, b, l, d.lanes[b][l]);
    match d.lanes[b][l]
    case Standing(t) => t
    case Searching(id, depth) =>
      SliceInside(c, c.Id(b, l));
      Running(id, JobAt(c, d.memory, Base(c, b, l), id, depth))
  }

  ghost function View(c: Config, d: Device): State
    requires Fits(c, d)
  {
    State(d.counter,
          seq(c.blocks, b requires 0 <= b < c.blocks => seq(c.lanes, l requires 0 <= l < c.lanes => Seen(c, d, b, l))),
          d.bins, d.global, d.owner)
  }

  function LaneOf(t: Thread): Lane {
    if t.Running? then Searching(t.id, Depth(t.job)) else Standing(t)
  }

  /**
   * Thread `l` of block `b` steps by what it reads.  Of the other threads only the registers stay as they
   * are; their stacks are whatever the memory holds afterwards.
   */
  ghost predicate LaneStep(c: Config, d: Device, e: Device, b: nat, l: nat)
    requires Fits(c, d) && Shaped(c, View(c, d)) && b < c.blocks && l < c.lanes
  {
    exists r :: ThreadStep(c, View(c, d), r, b, l) && Effect(c, d, r, e, b, l)
  }

  ghost predicate Effect(c: Config, d: Device, r: State, e: Device, b: nat, l: nat)
    requires Fits(c, d) && b < c.blocks && l < c.lanes
  {
    && b < |r.threads| && l < |r.threads[b]|
    && var t := r.threads[b][l];
    && e.lanes == d.lanes[b := d.lanes[b][l := LaneOf(t)]]
    && e.counter == r.counter && e.bins == r.bins && e.global == r.global && e.owner == r.owner
    && if t.Running? then Writes(d.memory, e.memory, c.Id(b, l), c.limit, t.job) else e.memory == d.memory
  }

  /** The device after a step of the protocol to `r`, with this memory. */
  function After(d: Device, r: State, m: Memory, b: nat, l: nat): Device
    requires b < |d.lanes| && l < |d.lanes[b]| && b < |r.threads| && l < |r.threads[b]|
  {
    Device(r.counter, d.lanes[b := d.lanes[b][l := LaneOf(r.threads[b][l])]], r.bins, r.global, r.owner, m)
  }

  lemma AfterSteps(c: Config, d: Device, r: State, m: Memory, b: nat, l: nat)
    requires Fits(c, d) && Shaped(c, View(c, d)) && b < c.blocks && l < c.lanes && ThreadStep(c, View(c, d), r, b, l)
    requires b < |r.threads| && l < |r.threads[b]|
    requires if r.threads[b][l].Running? then Writes(d.memory, m, c.Id(b, l), c.limit, r.threads[b][l].job) else m == d.memory
    ensures b < |d.lanes| && l < |d.lanes[b]| && LaneStep(c, d, After(d, r, m, b, l), b, l)
    ensures After(d, r, m, b, l).lanes[b][l] == LaneOf(r.threads[b][l])
  {
    hide ThreadStep, View, Shaped, Writes;
    assert Effect(c, d, r, After(d, r, m, b, l), b, l);
  }

  // ---- Every step is a step of the protocol ----

  /** The protocol's invariant holds of what the threads see. */
  ghost predicate Inside(c: Config, d: Device) {
    Fits(c, d) && Inv(c, View(c, d))
  }

  lemma SeenIs(c: Config, d: Device, b: nat, l: nat)
    requires Fits(c, d) && b < c.blocks && l < c.lanes
    ensures View(c, d).threads[b][l] == Seen(c, d, b, l)
  {
  }

  /** A running thread's job belongs to the job it claimed. */
  ghost predicate AtItsJob(c: Config, b: nat, l: nat, t: Thread) {
    t.Running? ==> t.id < |c.jobs| && JobOk(t.job, c.limit) && SameSearch(t.job, c.jobs[t.id]) && c.Id(b, l) < Slots(c)
  }

  lemma SeenRuns(c: Config, q: State, b: nat, l: nat)
    requires Inv(c, q) && b < c.blocks && l < c.lanes && q.threads[b][l].Running?
    ensures var t := q.threads[b][l]; JobOk(t.job, c.limit) && t.id < |c.jobs| && JobOk(c.jobs[t.id], c.limit)
  {
    hide JobOk, Accounted;
    assert ThreadOk(c, q, b, l);
  }

  lemma SearchingSeen(c: Config, d: Device, b: nat, l: nat)
    requires Fits(c, d) && b < c.blocks && l < c.lanes && d.lanes[b][l].Searching?
    ensures var Searching(id, depth) := d.lanes[b][l];
            && id < |c.jobs| && depth <= c.limit && |d.memory.paths| == |d.memory.cursors| == |d.memory.frames|
            && Base(c, b, l) + depth <= |d.memory.paths|
            && Seen(c, d, b, l) == Running(id, JobAt(c, d.memory, Base(c, b, l), id, depth))
  {
    hide JobAt;
    assert LaneFits(c, b, l, d.lanes[b][l]);
    SliceInside(c, c.Id(b, l));
  }

  lemma SearchingSlice(c: Config, d: Device, b: nat, l: nat)
    requires Fits(c, d) && b < c.blocks && l < c.lanes && d.lanes[b][l].Searching?
    ensures Base(c, b, l) + c.limit <= |d.memory.paths| == |d.memory.cursors| == |d.memory.frames|
  {
    assert LaneFits(c, b, l, d.lanes[b][l]);
    SliceInside(c, c.Id(b, l));
  }

  /** What thread `l` of block `b` sees of its own search. */
  lemma SearchingSees(c: Config, d: Device, b: nat, l: nat, id: nat, depth: nat)
    requires Inside(c, d) && b < c.blocks && l < c.lanes && d.lanes[b][l] == Searching(id, depth)
    ensures Seen(c, d, b, l).Running? && Seen(c, d, b, l).id == id < |c.jobs|
    ensures var job := Seen(c, d, b, l).job;
            && JobOk(job, c.limit) && SameSearch(job, c.jobs[id]) && Depth(job) == depth && HoldsJob(d.memory, Base(c, b, l), job)
    ensures Base(c, b, l) + c.limit <= |d.memory.paths| == |d.memory.cursors| == |d.memory.frames|
  {
    hide JobOk, JobAt, HoldsJob, SameSearch, Inv, Grounded, View;
    SeenIs(c, d, b, l);
    SearchingSlice(c, d, b, l);
    SeenRuns(c, View(c, d), b, l);
    SearchingSeen(c, d, b, l);
    hide Fits, Seen;
    JobGrounded(c.jobs[id], c.limit);
    JobGrounded(Seen(c, d, b, l).job, c.limit);
    ReadIsHeld(c, d.memory, Base(c, b, l), id, depth);
  }

  lemma SeenAtItsJob(c: Config, d: Device, b: nat, l: nat)
    requires Inside(c, d) && b < c.blocks && l < c.lanes
    ensures AtItsJob(c, b, l, Seen(c, d, b, l))
  {
    hide JobOk, JobAt, HoldsJob, SameSearch, Grounded, Inv, Slots;
    assert LaneFits(c, b, l, d.lanes[b][l]);
    match d.lanes[b][l] {
      case Standing(_) =>
      case Searching(id, depth) => SearchingSees(c, d, b, l, id, depth);
    }
  }

  /** The thread that steps stays with its search; a claimed job starts as it was given. */
  lemma MoverAtItsJob(c: Config, q: State, r: State, b: nat, l: nat)
    requires Inv(c, q) && b < c.blocks && l < c.lanes && ThreadStep(c, q, r, b, l) && AtItsJob(c, b, l, q.threads[b][l])
    ensures Shaped(c, r) && AtItsJob(c, b, l, r.threads[b][l])
  {
    hide Accounted, JobOk, Advance, Halted, Owes, Steps, SameSearch, Grounded;
    StepShape(c, q, r, b, l);
    assert ThreadOk(c, q, b, l);
    match q.threads[b][l] {
      case Claiming =>
        SliceFits(b, c.blocks, c.lanes);
        var j := Wanted(c, q, b, l);
        if j < |c.jobs| {
          JobGrounded(c.jobs[j], c.limit);
          SameAsItself(c.jobs[j]);
        }
      case Running(id, job) =>
        if !Halted(job) {
          AdvanceConserves(job, c.limit);
          AdvanceKeepsSearch(job, c.limit, c.jobs[id]);
        }
      case _ =>
    }
  }

  lemma SameAsItself(job: Job)
    requires Grounded(job)
    ensures SameSearch(job, job)
  {
  }

  lemma EffectFits(c: Config, d: Device, r: State, e: Device, b: nat, l: nat)
    requires Fits(c, d) && b < c.blocks && l < c.lanes && Effect(c, d, r, e, b, l) && AtItsJob(c, b, l, r.threads[b][l])
    ensures Fits(c, e)
  {
    hide HoldsJob, SameSearch, Grounded;
    var t := r.threads[b][l];
    assert |e.memory.paths| == |d.memory.paths| && |e.memory.cursors| == |d.memory.cursors| && |e.memory.frames| == |d.memory.frames|;
    if t.Running? {
      JobGrounded(t.job, c.limit);
    }
    hide JobOk, Writes, Slots;
    forall x, y | 0 <= x < c.blocks && 0 <= y < c.lanes ensures LaneFits(c, x, y, e.lanes[x][y]) {
      assert LaneFits(c, x, y, d.lanes[x][y]);
    }
  }

  /** The stepping thread reads back the stack it stored. */
  lemma MoverSeen(c: Config, d: Device, r: State, e: Device, b: nat, l: nat)
    requires Fits(c, d) && b < c.blocks && l < c.lanes && Effect(c, d, r, e, b, l) && AtItsJob(c, b, l, r.threads[b][l]) && Fits(c, e)
    ensures Seen(c, e, b, l) == r.threads[b][l]
  {
    hide HoldsJob, SameSearch, Grounded, JobOk, JobAt, Outside;
    var t := r.threads[b][l];
    assert LaneFits(c, b, l, e.lanes[b][l]);
    if t.Running? {
      JobGrounded(t.job, c.limit);
      SliceInside(c, c.Id(b, l));
      HeldIsRead(c, e.memory, Base(c, b, l), t.id, t.job);
    }
  }

  /** Every other thread sees what it saw before. */
  lemma OtherSeen(c: Config, d: Device, r: State, e: Device, b: nat, l: nat, x: nat, y: nat)
    requires Inside(c, d) && b < c.blocks && l < c.lanes && Effect(c, d, r, e, b, l) && Fits(c, e)
    requires x < c.blocks && y < c.lanes && (x != b || y != l)
    ensures Seen(c, e, x, y) == Seen(c, d, x, y)
  {
    hide HoldsJob, SameSearch, Grounded, JobOk, JobAt, Writes, Inv, Slots, View;
    assert e.lanes[x][y] == d.lanes[x][y];
    assert LaneFits(c, x, y, d.lanes[x][y]);
    match d.lanes[x][y] {
      case Standing(_) =>
      case Searching(id, depth) =>
        SearchingSeen(c, d, x, y);
        SearchingSeen(c, e, x, y);
        if r.threads[b][l].Running? {
          SearchingOther(c, d, e, c.Id(b, l), r.threads[b][l].job, b, l, x, y, id, depth);
        }
    }
  }

  lemma SearchingOther(c: Config, d: Device, e: Device, i: nat, job: Job, b: nat, l: nat, x: nat, y: nat, id: nat, depth: nat)
    requires Inside(c, d) && b < c.blocks && l < c.lanes && i == c.Id(b, l) && Writes(d.memory, e.memory, i, c.limit, job)
    requires x < c.blocks && y < c.lanes && (x != b || y != l) && d.lanes[x][y] == Searching(id, depth)
    ensures && id < |c.jobs| && |e.memory.paths| == |e.memory.cursors| == |e.memory.frames| == |d.memory.paths| == |d.memory.cursors| == |d.memory.frames|
            && Base(c, x, y) + depth <= |d.memory.paths|
            && JobAt(c, e.memory, Base(c, x, y), id, depth) == JobAt(c, d.memory, Base(c, x, y), id, depth)
  {
    hide HoldsJob, SameSearch, Grounded, JobOk, JobAt, Writes, Inv, Fits, Seen;
    SearchingSeen(c, d, x, y);
    SeenIs(c, d, x, y);
    SeenRuns(c, View(c, d), x, y);
    IdsDiffer(c, b, l, x, y);
    JobGrounded(c.jobs[id], c.limit);
    JobGrounded(JobAt(c, d.memory, Base(c, x, y), id, depth), c.limit);
    OthersRead(c, d.memory, e.memory, i, job, c.Id(x, y), id, depth);
  }

  /** A step on the shared memory is a step of the protocol on the stacks that the threads see. */
  lemma StepRefines(c: Config, d: Device, e: Device, b: nat, l: nat)
    requires Inside(c, d) && b < c.blocks && l < c.lanes && LaneStep(c, d, e, b, l)
    ensures Fits(c, e) && ThreadStep(c, View(c, d), View(c, e), b, l)
  {
    var q := View(c, d);
    var r :| ThreadStep(c, q, r, b, l) && Effect(c, d, r, e, b, l);
    SeenIs(c, d, b, l);
    SeenAtItsJob(c, d, b, l);
    MoverAtItsJob(c, q, r, b, l);
    StepShape(c, q, r, b, l);
    EffectFits(c, d, r, e, b, l);
    hide Inv, ThreadStep, AtItsJob, Fits, LaneStep, Seen;
    forall x, y | 0 <= x < c.blocks && 0 <= y < c.lanes ensures Seen(c, e, x, y) == r.threads[x][y] {
      if x == b && y == l {
        MoverSeen(c, d, r, e, b, l);
      } else {
        OtherSeen(c, d, r, e, b, l, x, y);
        SeenIs(c, d, x, y);
      }
    }
    SameThreads(c, e, r);
  }

  lemma SameThreads(c: Config, e: Device, r: State)
    requires Fits(c, e) && Shaped(c, r) && e.counter == r.counter && e.bins == r.bins && e.global == r.global && e.owner == r.owner
    requires forall x, y :: 0 <= x < c.blocks && 0 <= y < c.lanes ==> Seen(c, e, x, y) == r.threads[x][y]
    ensures View(c, e) == r
  {
    hide Seen;
    var v := View(c, e);
    forall x | 0 <= x < c.blocks ensures v.threads[x] == r.threads[x] {}
    assert v.threads == r.threads;
  }
}
