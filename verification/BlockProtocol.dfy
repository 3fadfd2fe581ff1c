/**
 * The counting kernels as a transition system: any thread may take the next step.  Each block keeps a
 * shared histogram that its threads clear, fill and flush, with a barrier before the filling and one
 * before the flushing.  Threads take their jobs from a shared counter, or each has one job of its own.
 */
module BlockProtocol {
  import opened CsrGraphs
  import opened Jobs
  import opened Sums

  /** Where a thread stands; the numbers are the next bin of its strided walk. */
  datatype Thread =
    | Clearing(index: nat)
    | Cleared
    | Claiming
    | Running(id: nat, job: Job)
    | Finished
    | Flushing(next: nat)
    | Done

  /** `queue` tells the persistent kernel from the fixed ones. */
  datatype Config = Config(jobs: seq<Job>, queue: bool, limit: nat, blocks: nat, lanes: nat) {
    ghost predicate Valid() {
      && blocks > 0 && lanes > 0
      && (forall j :: 0 <= j < |jobs| ==> JobOk(jobs[j], limit))
      && (!queue ==> |jobs| <= blocks * lanes)
    }

    /** The id of a thread over all blocks. */
    function Id(b: nat, l: nat): nat {
      b * lanes + l
    }
  }

  /** `owner[j]` is the thread that claimed job `j`, as a pair of block and lane. */
  datatype State = State(counter: nat, threads: seq<seq<Thread>>, bins: seq<seq<nat>>, global: seq<nat>, owner: seq<Option<(nat, nat)>>)

  ghost predicate Shaped(c: Config, q: State) {
    && c.Valid() && |q.threads| == |q.bins| == c.blocks && |q.global| == c.limit + 1 && |q.owner| == |c.jobs|
    && (forall b :: 0 <= b < c.blocks ==> |q.threads[b]| == c.lanes)
    && (forall b :: 0 <= b < c.blocks ==> |q.bins[b]| == c.limit + 1)
  }

  // ---- Steps ----

  /** The shared histograms start with arbitrary contents, the global one with zeros. */
  ghost predicate Init(c: Config, q: State) {
    && Shaped(c, q) && q.counter == 0
    && (forall j :: 0 <= j < |q.owner| ==> q.owner[j] == None)
    && (forall b, l :: 0 <= b < c.blocks && 0 <= l < c.lanes ==> q.threads[b][l] == Clearing(l))
    && (forall k :: 0 <= k <= c.limit ==> q.global[k] == 0)
  }

  function SetThread(q: State, b: nat, l: nat, t: Thread): State
    requires b < |q.threads| && l < |q.threads[b]|
  {
    q.(threads := q.threads[b := q.threads[b][l := t]])
  }

  function SetBin(q: State, b: nat, k: nat, value: nat): State
    requires b < |q.bins| && k < |q.bins[b]|
  {
    var row: seq<nat> := q.bins[b];
    q.(bins := q.bins[b := row[k := value]])
  }

  /** Every thread of the block has finished clearing. */
  ghost predicate AllCleared(q: State, b: nat)
    requires b < |q.threads|
  {
    forall l :: 0 <= l < |q.threads[b]| ==> !q.threads[b][l].Clearing?
  }

  predicate PastWork(t: Thread) {
    t.Finished? || t.Flushing? || t.Done?
  }

  /** Every thread of the block has run out of jobs. */
  ghost predicate AllFinished(q: State, b: nat)
    requires b < |q.threads|
  {
    forall l :: 0 <= l < |q.threads[b]| ==> PastWork(q.threads[b][l])
  }

  /** The job a claiming thread would get. */
  function Wanted(c: Config, q: State, b: nat, l: nat): nat {
    if c.queue then q.counter else c.Id(b, l)
  }

  /** The state after a claim: the job is owned and runs, or there is none left. */
  function Claim(c: Config, q: State, b: nat, l: nat): State
    requires b < |q.threads| && l < |q.threads[b]| && |q.owner| == |c.jobs|
  {
    var j := Wanted(c, q, b, l);
    var counted := q.(counter := if c.queue then q.counter + 1 else q.counter);
    if j < |c.jobs| then SetThread(counted, b, l, Running(j, c.jobs[j])).(owner := q.owner[j := Some((b, l))])
    else SetThread(counted, b, l, Finished)
  }

  /** The next state when thread `l` of block `b` takes a step that is not blocked by a barrier. */
  ghost predicate ThreadStep(c: Config, q: State, r: State, b: nat, l: nat)
    requires Shaped(c, q) && b < c.blocks && l < c.lanes
  {
    match q.threads[b][l]
    case Clearing(i) =>
      if i <= c.limit then r == SetBin(SetThread(q, b, l, Clearing(i + c.lanes)), b, i, 0)
      else r == SetThread(q, b, l, Cleared)
    case Cleared => AllCleared(q, b) && r == SetThread(q, b, l, Claiming)
    case Claiming => r == Claim(c, q, b, l)
    case Running(id, job) =>
      if Halted(job) then r == SetThread(q, b, l, if c.queue then Claiming else Finished)
      else JobOk(job, c.limit) && JobStep(c, q, r, b, l, id, job)
    case Finished => AllFinished(q, b) && r == SetThread(q, b, l, Flushing(l))
    case Flushing(i) =>
      if i <= c.limit then
        r == SetThread(q, b, l, Flushing(i + c.lanes)).(global := q.global[i := q.global[i] + q.bins[b][i]])
      else r == SetThread(q, b, l, Done)
    case Done => false
  }

  /** One iteration of the search; a closed cycle is added to the shared histogram atomically. */
  ghost predicate JobStep(c: Config, q: State, r: State, b: nat, l: nat, id: nat, job: Job)
    requires Shaped(c, q) && b < c.blocks && l < c.lanes && JobOk(job, c.limit) && !Halted(job)
  {
    var (next, length) := Advance(job, c.limit);
    var moved := SetThread(q, b, l, Running(id, next));
    match length
    case None => r == moved
    case Some(k) => k <= c.limit && r == SetBin(moved, b, k, q.bins[b][k] + 1)
  }

  ghost predicate Next(c: Config, q: State, r: State) {
    Shaped(c, q) && exists b, l :: 0 <= b < c.blocks && 0 <= l < c.lanes && ThreadStep(c, q, r, b, l)
  }

  // ---- What every step keeps ----

  /** Bin `k` of the block has been cleared by the thread in whose lane it is. */
  ghost predicate BinCleared(c: Config, q: State, b: nat, k: nat)
    requires Shaped(c, q) && b < c.blocks && k <= c.limit
  {
    var t := q.threads[b][k % c.lanes];
    t.Clearing? ==> k < t.index
  }

  /** Bin `k` of the block has been added to the global histogram. */
  ghost predicate BinFlushed(c: Config, q: State, b: nat, k: nat)
    requires Shaped(c, q) && b < c.blocks && k <= c.limit
  {
    var t := q.threads[b][k % c.lanes];
    t.Done? || (t.Flushing? && k < t.next)
  }

  /** A thread that has not claimed yet. */
  predicate BeforeWork(t: Thread) {
    t.Clearing? || t.Cleared? || t.Claiming?
  }

  /** What the thread that cannot claim any more knows of the jobs. */
  ghost predicate NoneLeft(c: Config, q: State, b: nat, l: nat)
    requires Shaped(c, q)
  {
    if c.queue then q.counter >= |c.jobs| else c.Id(b, l) < |c.jobs| ==> q.owner[c.Id(b, l)] != None
  }

  ghost predicate ThreadOk(c: Config, q: State, b: nat, l: nat)
    requires Shaped(c, q) && b < c.blocks && l < c.lanes
  {
    var t := q.threads[b][l];
    && (t.Clearing? ==> t.index % c.lanes == l)
    && (!t.Clearing? && !t.Cleared? ==> AllCleared(q, b))
    && (!c.queue && BeforeWork(t) && c.Id(b, l) < |c.jobs| ==> q.owner[c.Id(b, l)] == None)
    && (t.Running? ==> RunningOk(c, q, b, l, t.id, t.job))
    && (PastWork(t) ==> NoneLeft(c, q, b, l))
    && (t.Flushing? || t.Done? ==> AllFinished(q, b))
    && (t.Flushing? ==> t.next % c.lanes == l)
  }

  /** A running thread owns its job. */
  ghost predicate RunningOk(c: Config, q: State, b: nat, l: nat, id: nat, job: Job)
    requires Shaped(c, q)
  {
    && JobOk(job, c.limit) && id < |c.jobs| && q.owner[id] == Some((b, l))
    && (!c.queue ==> id == c.Id(b, l))
  }

  /** In the queue exactly the jobs below the counter are claimed. */
  ghost predicate CounterOk(c: Config, q: State)
    requires Shaped(c, q)
  {
    c.queue ==> forall j :: 0 <= j < |c.jobs| ==> (q.owner[j] != None <==> j < q.counter)
  }

  /** What a thread still has to record in bin `k`. */
  ghost function ThreadOwes(c: Config, t: Thread, k: nat): nat {
    if t.Running? && JobOk(t.job, c.limit) then Owes(t.job, c.limit)[k] else 0
  }

  /** What a job that nobody has claimed will record in bin `k`. */
  ghost function OpenOwes(c: Config, owner: seq<Option<(nat, nat)>>, j: int, k: nat): nat {
    if 0 <= j < |c.jobs| && j < |owner| && owner[j] == None && JobOk(c.jobs[j], c.limit) then Owes(c.jobs[j], c.limit)[k] else 0
  }

  ghost function AllOpen(c: Config, owner: seq<Option<(nat, nat)>>, k: nat): nat {
    Sum(j => OpenOwes(c, owner, j, k), |c.jobs|)
  }

  /** What the block holds in bin `k` that is not yet in the global histogram. */
  ghost function BlockHolds(c: Config, q: State, b: nat, k: nat): nat
    requires Shaped(c, q) && b < c.blocks && k <= c.limit
  {
    if BinCleared(c, q, b, k) && !BinFlushed(c, q, b, k) then q.bins[b][k] else 0
  }

  /** What the block holds or its threads still have to record. */
  ghost function BlockShare(c: Config, q: State, b: nat, k: nat): nat
    requires Shaped(c, q) && b < c.blocks && k <= c.limit
  {
    BlockHolds(c, q, b, k) + Sum(l => if 0 <= l < c.lanes then ThreadOwes(c, q.threads[b][l], k) else 0, c.lanes)
  }

  /** Flushed, held, owed and unclaimed counts of bin `k` over the whole device. */
  ghost function Accounted(c: Config, q: State, k: nat): nat
    requires Shaped(c, q) && k <= c.limit
  {
    q.global[k] + AllOpen(c, q.owner, k) + Sum(b => if 0 <= b < c.blocks then BlockShare(c, q, b, k) else 0, c.blocks)
  }

  /** What all jobs together record in bin `k`. */
  ghost function Total(c: Config, k: nat): nat {
    AllOpen(c, seq(|c.jobs|, _ => None), k)
  }

  /** The invariant: the account never changes, and every job has at most one owner. */
  ghost predicate Inv(c: Config, q: State) {
    && Shaped(c, q)
    && (forall b, l :: 0 <= b < c.blocks && 0 <= l < c.lanes ==> ThreadOk(c, q, b, l))
    && CounterOk(c, q)
    && (forall k :: 0 <= k <= c.limit ==> Accounted(c, q, k) == Total(c, k))
  }

  /** Two states that differ at most in one thread, its block's bins, the global bins, counter and owners. */
  ghost predicate OnlyAt(c: Config, q: State, r: State, b: nat, l: nat)
    requires Shaped(c, q) && Shaped(c, r) && b < c.blocks && l < c.lanes
  {
    && (forall d :: 0 <= d < c.blocks && d != b ==> r.threads[d] == q.threads[d] && r.bins[d] == q.bins[d])
    && (forall m :: 0 <= m < c.lanes && m != l ==> r.threads[b][m] == q.threads[b][m])
  }

  /** Then the account changes by what changes in that block, in the open jobs and in the global bin. */
  lemma AccountChange(c: Config, q: State, r: State, b: nat, l: nat, k: nat)
    requires Shaped(c, q) && Shaped(c, r) && b < c.blocks && l < c.lanes && k <= c.limit && OnlyAt(c, q, r, b, l)
    ensures Accounted(c, r, k) + Local(c, q, b, l, k) == Accounted(c, q, k) + Local(c, r, b, l, k)
  {
    hide BlockHolds, ThreadOwes, AllOpen;
    SumChange(m => if 0 <= m < c.lanes then ThreadOwes(c, q.threads[b][m], k) else 0,
              m => if 0 <= m < c.lanes then ThreadOwes(c, r.threads[b][m], k) else 0, c.lanes, l);
    forall d | 0 <= d < c.blocks && d != b ensures BlockShare(c, q, d, k) == BlockShare(c, r, d, k) {
      SameBlock(c, q, r, d, k);
    }
    ShareParts(c, q, b, k);
    ShareParts(c, r, b, k);
    hide BlockShare;
    SumChange(d => if 0 <= d < c.blocks then BlockShare(c, q, d, k) else 0,
              d => if 0 <= d < c.blocks then BlockShare(c, r, d, k) else 0, c.blocks, b);
  }

  lemma ShareParts(c: Config, q: State, b: nat, k: nat)
    requires Shaped(c, q) && b < c.blocks && k <= c.limit
    ensures BlockShare(c, q, b, k) == BlockHolds(c, q, b, k) +
            Sum(m => if 0 <= m < c.lanes then ThreadOwes(c, q.threads[b][m], k) else 0, c.lanes)
  {
  }

  lemma SameBlock(c: Config, q: State, r: State, d: nat, k: nat)
    requires Shaped(c, q) && Shaped(c, r) && d < c.blocks && k <= c.limit
    requires r.threads[d] == q.threads[d] && r.bins[d] == q.bins[d]
    ensures BlockShare(c, q, d, k) == BlockShare(c, r, d, k)
  {
    SumSame(m => if 0 <= m < c.lanes then ThreadOwes(c, q.threads[d][m], k) else 0,
            m => if 0 <= m < c.lanes then ThreadOwes(c, r.threads[d][m], k) else 0, c.lanes);
  }

  /** The part of the account a step of one thread can touch. */
  ghost function Local(c: Config, q: State, b: nat, l: nat, k: nat): nat
    requires Shaped(c, q) && b < c.blocks && l < c.lanes && k <= c.limit
  {
    BlockHolds(c, q, b, k) + ThreadOwes(c, q.threads[b][l], k) + AllOpen(c, q.owner, k) + q.global[k]
  }

  lemma StepShape(c: Config, q: State, r: State, b: nat, l: nat)
    requires Shaped(c, q) && b < c.blocks && l < c.lanes && ThreadStep(c, q, r, b, l)
    ensures Shaped(c, r) && OnlyAt(c, q, r, b, l)
  {
    hide JobOk, Advance, Halted, AllCleared, AllFinished, Claim;
    match q.threads[b][l] {
      case Claiming => ClaimShape(c, q, b, l);
      case Running(id, job) => if !Halted(job) { JobShape(c, q, r, b, l, id, job); }
      case _ =>
    }
  }

  lemma ClaimShape(c: Config, q: State, b: nat, l: nat)
    requires Shaped(c, q) && b < c.blocks && l < c.lanes
    ensures Shaped(c, Claim(c, q, b, l)) && OnlyAt(c, q, Claim(c, q, b, l), b, l)
  {
    hide JobOk;
  }

  lemma JobShape(c: Config, q: State, r: State, b: nat, l: nat, id: nat, job: Job)
    requires Shaped(c, q) && b < c.blocks && l < c.lanes && JobOk(job, c.limit) && !Halted(job) && JobStep(c, q, r, b, l, id, job)
    ensures var (next, length) := Advance(job, c.limit);
            && Shaped(c, r) && OnlyAt(c, q, r, b, l) && r.threads[b][l] == Running(id, next)
            && r.owner == q.owner && r.global == q.global && r.counter == q.counter
            && (forall k :: 0 <= k <= c.limit ==> r.bins[b][k] == q.bins[b][k] + if length == Some(k) then 1 else 0)
  {
    hide JobOk, Advance, Halted;
    var (next, length) := Advance(job, c.limit);
    var moved := SetThread(q, b, l, Running(id, next));
    assert Shaped(c, moved) && moved.threads[b][l] == Running(id, next);
    match length {
      case None =>
      case Some(k) => assert r == SetBin(moved, b, k, q.bins[b][k] + 1);
    }
  }

  lemma ClearingBalances(c: Config, q: State, r: State, b: nat, l: nat, k: nat)
    requires Inv(c, q) && b < c.blocks && l < c.lanes && k <= c.limit && q.threads[b][l].Clearing?
    requires ThreadStep(c, q, r, b, l)
    ensures Shaped(c, r) && Local(c, r, b, l, k) == Local(c, q, b, l, k)
  {
    hide Accounted, AllOpen, JobOk;
    var i := q.threads[b][l].index;
    assert ThreadOk(c, q, b, l);
    if k % c.lanes == l && i <= k < i + c.lanes {
      StridesMeet(i, k, c.lanes);
    }
  }

  lemma FlushingBalances(c: Config, q: State, r: State, b: nat, l: nat, k: nat)
    requires Inv(c, q) && b < c.blocks && l < c.lanes && k <= c.limit && q.threads[b][l].Flushing?
    requires ThreadStep(c, q, r, b, l)
    ensures Shaped(c, r) && Local(c, r, b, l, k) == Local(c, q, b, l, k)
  {
    hide Accounted, AllOpen, JobOk;
    var i := q.threads[b][l].next;
    assert ThreadOk(c, q, b, l);
    if k % c.lanes == l && i <= k < i + c.lanes {
      StridesMeet(i, k, c.lanes);
    }
  }

  lemma WaitingBalances(c: Config, q: State, r: State, b: nat, l: nat, k: nat)
    requires Inv(c, q) && b < c.blocks && l < c.lanes && k <= c.limit && (q.threads[b][l].Finished? || q.threads[b][l].Cleared?)
    requires ThreadStep(c, q, r, b, l)
    ensures Shaped(c, r) && Local(c, r, b, l, k) == Local(c, q, b, l, k)
  {
    hide Accounted, AllOpen, JobOk;
    if k < l { Residue(k, 0, k, c.lanes); }
  }

  lemma ClaimBalances(c: Config, q: State, r: State, b: nat, l: nat, k: nat)
    requires Inv(c, q) && b < c.blocks && l < c.lanes && k <= c.limit && q.threads[b][l].Claiming?
    requires ThreadStep(c, q, r, b, l)
    ensures Shaped(c, r) && Local(c, r, b, l, k) == Local(c, q, b, l, k)
  {
    hide Accounted, JobOk;
    StepShape(c, q, r, b, l);
    var j := Wanted(c, q, b, l);
    assert ThreadOk(c, q, b, l);
    if j < |c.jobs| {
      assert q.owner[j] == None;
      SumChange(i => OpenOwes(c, q.owner, i, k), i => OpenOwes(c, r.owner, i, k), |c.jobs|, j);
    }
  }

  /** While a thread of the block is searching, the shared histogram is clear of both walks. */
  lemma SearchingHolds(c: Config, q: State, b: nat, l: nat, k: nat)
    requires Inv(c, q) && b < c.blocks && l < c.lanes && k <= c.limit && q.threads[b][l].Running?
    ensures BinCleared(c, q, b, k) && !BinFlushed(c, q, b, k)
  {
    hide Accounted, JobOk;
    assert ThreadOk(c, q, b, l) && ThreadOk(c, q, b, k % c.lanes);
    assert !PastWork(q.threads[b][l]);
  }

  /** The same after the thread's step: it neither clears nor flushes. */
  lemma SearchingStays(c: Config, q: State, r: State, b: nat, l: nat, k: nat)
    requires Shaped(c, q) && Shaped(c, r) && b < c.blocks && l < c.lanes && k <= c.limit
    requires OnlyAt(c, q, r, b, l) && BinCleared(c, q, b, k) && !BinFlushed(c, q, b, k)
    requires r.threads[b][l].Running? || r.threads[b][l].Claiming? || r.threads[b][l].Finished?
    ensures BlockHolds(c, r, b, k) == r.bins[b][k] && BlockHolds(c, q, b, k) == q.bins[b][k]
  {
    hide JobOk;
  }

  lemma RunningBalances(c: Config, q: State, r: State, b: nat, l: nat, k: nat)
    requires Inv(c, q) && b < c.blocks && l < c.lanes && k <= c.limit && q.threads[b][l].Running?
    requires ThreadStep(c, q, r, b, l)
    ensures Shaped(c, r) && Local(c, r, b, l, k) == Local(c, q, b, l, k)
  {
    hide Accounted, BlockHolds, BinCleared, BinFlushed, AllOpen, JobOk, Owes, Advance, Steps, Halted;
    var job := q.threads[b][l].job;
    assert ThreadOk(c, q, b, l);
    StepShape(c, q, r, b, l);
    SearchingHolds(c, q, b, l, k);
    SearchingStays(c, q, r, b, l, k);
    if Halted(job) {
      HaltedOwesNothing(job, c.limit);
    } else {
      AdvanceConserves(job, c.limit);
      JobShape(c, q, r, b, l, q.threads[b][l].id, job);
    }
  }

  lemma StepBalances(c: Config, q: State, r: State, b: nat, l: nat, k: nat)
    requires Inv(c, q) && b < c.blocks && l < c.lanes && k <= c.limit && ThreadStep(c, q, r, b, l)
    ensures Shaped(c, r) && Accounted(c, r, k) == Total(c, k)
  {
    StepShape(c, q, r, b, l);
    match q.threads[b][l] {
      case Clearing(_) => ClearingBalances(c, q, r, b, l, k);
      case Cleared => WaitingBalances(c, q, r, b, l, k);
      case Claiming => ClaimBalances(c, q, r, b, l, k);
      case Running(_, _) => RunningBalances(c, q, r, b, l, k);
      case Finished => WaitingBalances(c, q, r, b, l, k);
      case Flushing(_) => FlushingBalances(c, q, r, b, l, k);
      case Done =>
    }
    AccountChange(c, q, r, b, l, k);
  }

  /** Barriers once passed stay passed, and owners stay. */
  lemma StepKeepsBarriers(c: Config, q: State, r: State, b: nat, l: nat)
    requires Inv(c, q) && b < c.blocks && l < c.lanes && ThreadStep(c, q, r, b, l) && Shaped(c, r)
    ensures AllCleared(q, b) ==> AllCleared(r, b)
    ensures AllFinished(q, b) ==> AllFinished(r, b)
    ensures q.counter <= r.counter
    ensures forall j :: 0 <= j < |c.jobs| && q.owner[j] != None ==> r.owner[j] == q.owner[j]
  {
    hide Accounted, JobOk, Advance;
    StepShape(c, q, r, b, l);
    assert ThreadOk(c, q, b, l);
    assert r.threads[b][l].Clearing? ==> q.threads[b][l].Clearing?;
  }

  /** Different threads have different ids. */
  lemma IdsDiffer(c: Config, b: nat, l: nat, d: nat, m: nat)
    requires l < c.lanes && m < c.lanes && (b != d || l != m)
    ensures c.Id(b, l) != c.Id(d, m)
  {
    Multiple(c.lanes, b - d);
    assert c.lanes * (b - d) == b * c.lanes - d * c.lanes;
  }

  /** The thread that moves is in order afterwards. */
  lemma MoverOk(c: Config, q: State, r: State, b: nat, l: nat)
    requires Inv(c, q) && b < c.blocks && l < c.lanes && ThreadStep(c, q, r, b, l)
    ensures Shaped(c, r) && ThreadOk(c, r, b, l) && CounterOk(c, r)
  {
    hide Accounted, JobOk, Advance, Owes, Steps, Halted;
    StepShape(c, q, r, b, l);
    StepKeepsBarriers(c, q, r, b, l);
    assert ThreadOk(c, q, b, l);
    match q.threads[b][l] {
      case Clearing(i) => StrideKeepsLane(i, c.lanes);
      case Cleared =>
      case Claiming =>
      case Running(id, job) => if !Halted(job) { AdvanceConserves(job, c.limit); }
      case Finished => Residue(l, 0, l, c.lanes);
      case Flushing(i) => StrideKeepsLane(i, c.lanes);
      case Done =>
    }
  }

  /** A step of one thread leaves every thread in a state the protocol allows. */
  lemma StepKeepsThreads(c: Config, q: State, r: State, b: nat, l: nat, d: nat, m: nat)
    requires Inv(c, q) && b < c.blocks && l < c.lanes && ThreadStep(c, q, r, b, l) && d < c.blocks && m < c.lanes
    ensures Shaped(c, r) && ThreadOk(c, r, d, m)
  {
    StepShape(c, q, r, b, l);
    if d == b && m == l {
      MoverOk(c, q, r, b, l);
    } else {
      StepKeepsBarriers(c, q, r, b, l);
      OtherOwners(c, q, r, b, l, d, m);
      hide Accounted, JobOk, ThreadStep;
      assert ThreadOk(c, q, d, m);
      assert r.threads[d][m] == q.threads[d][m];
      if d != b { assert r.threads[d] == q.threads[d]; }
    }
  }

  /** A fixed claim concerns only the thread's own job. */
  lemma OtherOwners(c: Config, q: State, r: State, b: nat, l: nat, d: nat, m: nat)
    requires Shaped(c, q) && b < c.blocks && l < c.lanes && ThreadStep(c, q, r, b, l) && (d != b || m != l) && m < c.lanes
    ensures Shaped(c, r)
    ensures !c.queue && c.Id(d, m) < |c.jobs| ==> r.owner[c.Id(d, m)] == q.owner[c.Id(d, m)]
  {
    hide JobOk, Advance;
    StepShape(c, q, r, b, l);
    IdsDiffer(c, b, l, d, m);
  }

  /** Every step of any thread keeps the invariant. */
  lemma NextKeepsInv(c: Config, q: State, r: State)
    requires Inv(c, q) && Next(c, q, r)
    ensures Inv(c, r)
  {
    hide JobOk, ThreadStep, Accounted, ThreadOk;
    var b, l :| 0 <= b < c.blocks && 0 <= l < c.lanes && ThreadStep(c, q, r, b, l);
    StepShape(c, q, r, b, l);
    MoverOk(c, q, r, b, l);
    forall d, m | 0 <= d < c.blocks && 0 <= m < c.lanes ensures ThreadOk(c, r, d, m) {
      StepKeepsThreads(c, q, r, b, l, d, m);
    }
    forall k | 0 <= k <= c.limit ensures Accounted(c, r, k) == Total(c, k) {
      StepBalances(c, q, r, b, l, k);
    }
  }
}
