/**
 * Runs of the counting kernels: every job is started once, every bin is flushed once, a finished run
 * holds the sequential totals, and no run gets stuck.
 */
module BlockRuns {
  import opened BlockProtocol
  import opened CsrGraphs
  import opened Jobs
  import opened Sums

  lemma InitThread(c: Config, q: State, b: nat, l: nat)
    requires Init(c, q) && b < c.blocks && l < c.lanes
    ensures q.threads[b][l] == Clearing(l) && ThreadOk(c, q, b, l)
  {
    hide JobOk;
    assert q.threads[b][l] == Clearing(l);
    Residue(l, 0, l, c.lanes);
    if !c.queue && c.Id(b, l) < |c.jobs| {
      assert q.owner[c.Id(b, l)] == None;
    }
  }

  lemma InitShare(c: Config, q: State, b: nat, k: nat)
    requires Init(c, q) && b < c.blocks && k <= c.limit
    ensures BlockShare(c, q, b, k) == 0
  {
    hide JobOk, Owes;
    forall m | 0 <= m < c.lanes ensures ThreadOwes(c, q.threads[b][m], k) == 0 {
      InitThread(c, q, b, m);
    }
    SumZero(m => if 0 <= m < c.lanes then ThreadOwes(c, q.threads[b][m], k) else 0, c.lanes);
    InitThread(c, q, b, k % c.lanes);
    LaneFirst(k, c.lanes);
  }

  lemma InitInv(c: Config, q: State)
    requires Init(c, q)
    ensures Inv(c, q)
  {
    hide ThreadOk, BlockShare, JobOk, AllOpen;
    forall b, l | 0 <= b < c.blocks && 0 <= l < c.lanes ensures ThreadOk(c, q, b, l) {
      InitThread(c, q, b, l);
    }
    assert q.owner == seq(|c.jobs|, _ => None);
    forall k | 0 <= k <= c.limit ensures Accounted(c, q, k) == Total(c, k) {
      forall b | 0 <= b < c.blocks ensures BlockShare(c, q, b, k) == 0 {
        InitShare(c, q, b, k);
      }
      SumZero(b => if 0 <= b < c.blocks then BlockShare(c, q, b, k) else 0, c.blocks);
    }
  }

  lemma LaneFirst(k: nat, lanes: nat)
    requires lanes > 0
    ensures k % lanes <= k
  {
  }

  /** A run: from an initial state, any thread steps at any time. */
  ghost predicate IsRun(c: Config, run: seq<State>) {
    && 0 < |run| && Init(c, run[0])
    && forall i :: 0 < i < |run| ==> StepAt(c, run, i)
  }

  ghost predicate StepAt(c: Config, run: seq<State>, i: nat)
    requires 0 < i < |run|
  {
    Next(c, run[i - 1], run[i])
  }

  lemma {:induction false} RunKeepsInv(c: Config, run: seq<State>, i: nat)
    requires IsRun(c, run) && i < |run|
    ensures Inv(c, run[i])
  {
    hide Inv, Init, Next;
    if i == 0 {
      InitInv(c, run[0]);
    } else {
      RunKeepsInv(c, run, i - 1);
      assert StepAt(c, run, i);
      NextKeepsInv(c, run[i - 1], run[i]);
    }
  }

  /** All threads have flushed their lanes. */
  ghost predicate AllDone(c: Config, q: State)
    requires Shaped(c, q)
  {
    forall b, l :: 0 <= b < c.blocks && 0 <= l < c.lanes ==> q.threads[b][l].Done?
  }

  ghost predicate IsFinishedRun(c: Config, run: seq<State>) {
    IsRun(c, run) && Shaped(c, run[|run| - 1]) && AllDone(c, run[|run| - 1])
  }

  // ---- What a finished run has counted ----

  lemma QuotientBelow(j: nat, blocks: nat, lanes: nat)
    requires lanes > 0 && j < blocks * lanes
    ensures j / lanes < blocks
  {
    var b := j / lanes;
    assert lanes * b <= j;
    assert lanes * (b - blocks) == lanes * b - blocks * lanes;
    Multiple(lanes, b - blocks);
  }

  /** At the end every job has had an owner. */
  lemma AllClaimed(c: Config, q: State, j: nat)
    requires Inv(c, q) && AllDone(c, q) && j < |c.jobs|
    ensures q.owner[j] != None
  {
    hide Accounted, JobOk;
    if c.queue {
      assert ThreadOk(c, q, 0, 0);
    } else {
      var b, l := j / c.lanes, j % c.lanes;
      assert c.Id(b, l) == j;
      QuotientBelow(j, c.blocks, c.lanes);
      assert ThreadOk(c, q, b, l);
    }
  }

  /** Whatever the schedule, when all threads are done the global histogram is the sequential one. */
  lemma FinishedRunCounts(c: Config, run: seq<State>, k: nat)
    requires IsFinishedRun(c, run) && k <= c.limit
    ensures run[|run| - 1].global[k] == Total(c, k)
  {
    hide JobOk, Owes, Init, Next, Total;
    var last := run[|run| - 1];
    RunKeepsInv(c, run, |run| - 1);
    forall b | 0 <= b < c.blocks ensures BlockShare(c, last, b, k) == 0 {
      SumZero(m => if 0 <= m < c.lanes then ThreadOwes(c, last.threads[b][m], k) else 0, c.lanes);
      assert last.threads[b][k % c.lanes].Done?;
    }
    SumZero(b => if 0 <= b < c.blocks then BlockShare(c, last, b, k) else 0, c.blocks);
    forall j | 0 <= j < |c.jobs| ensures OpenOwes(c, last.owner, j, k) == 0 {
      AllClaimed(c, last, j);
    }
    SumZero(j => OpenOwes(c, last.owner, j, k), |c.jobs|);
  }

  // ---- Every job is started once ----

  /** Some thread turns from claiming to searching job `j`. */
  ghost predicate Starts(c: Config, q: State, r: State, j: nat) {
    && Shaped(c, q) && Shaped(c, r)
    && exists b, l :: 0 <= b < c.blocks && 0 <= l < c.lanes && StartsAt(q.threads[b][l], r.threads[b][l], j)
  }

  predicate StartsAt(before: Thread, after: Thread, j: nat) {
    before.Claiming? && after.Running? && after.id == j
  }

  predicate Owned(q: State, j: nat) {
    j < |q.owner| && q.owner[j] != None
  }

  /** A job is started by the step that gives it its owner, and by no other. */
  lemma StartsWhenClaimed(c: Config, q: State, r: State, j: nat)
    requires Inv(c, q) && Next(c, q, r) && j < |c.jobs|
    ensures Starts(c, q, r, j) <==> !Owned(q, j) && Owned(r, j)
    ensures Owned(q, j) ==> Owned(r, j) && r.owner[j] == q.owner[j]
  {
    hide Accounted, JobOk, Advance, ThreadStep;
    var b, l :| 0 <= b < c.blocks && 0 <= l < c.lanes && ThreadStep(c, q, r, b, l);
    StepShape(c, q, r, b, l);
    StepKeepsBarriers(c, q, r, b, l);
    MoverStarts(c, q, r, b, l, j);
    if StartsAt(q.threads[b][l], r.threads[b][l], j) {
      assert Starts(c, q, r, j);
    }
    if Starts(c, q, r, j) {
      var d, m :| 0 <= d < c.blocks && 0 <= m < c.lanes && StartsAt(q.threads[d][m], r.threads[d][m], j);
      assert d == b && m == l;
    }
  }

  lemma MoverStarts(c: Config, q: State, r: State, b: nat, l: nat, j: nat)
    requires Inv(c, q) && b < c.blocks && l < c.lanes && ThreadStep(c, q, r, b, l) && Shaped(c, r) && j < |c.jobs|
    ensures StartsAt(q.threads[b][l], r.threads[b][l], j) <==> !Owned(q, j) && Owned(r, j)
  {
    hide Accounted, JobOk, Advance, Halted;
    assert ThreadOk(c, q, b, l);
    if q.threads[b][l].Running? && !Halted(q.threads[b][l].job) {
      JobShape(c, q, r, b, l, q.threads[b][l].id, q.threads[b][l].job);
    }
  }

  /** A flag that is first false, at the end true, and never taken back, is raised at one place. */
  lemma RaisedOnce(flags: seq<bool>) returns (at: nat)
    requires |flags| > 0 && !flags[0] && flags[|flags| - 1]
    requires forall i :: 0 < i < |flags| ==> flags[i - 1] ==> flags[i]
    ensures 0 < at < |flags| && forall i :: 0 <= i < |flags| ==> (flags[i] <==> at <= i)
  {
    at := 0;
    while !flags[at]
      invariant at < |flags| && forall i :: 0 <= i < at ==> !flags[i]
      decreases |flags| - at
    {
      at := at + 1;
    }
    var j := at;
    while j + 1 < |flags|
      invariant at <= j < |flags| && forall i :: at <= i <= j ==> flags[i]
    {
      j := j + 1;
      assert flags[j - 1];
    }
  }

  /** In a finished run every job is started at exactly one step. */
  lemma JobsStartOnce(c: Config, run: seq<State>, j: nat) returns (at: nat)
    requires IsFinishedRun(c, run) && j < |c.jobs|
    ensures 0 < at < |run| && forall i :: 0 < i < |run| ==> (Starts(c, run[i - 1], run[i], j) <==> i == at)
  {
    hide Inv, Next, Starts, Init;
    var flags := seq(|run|, i requires 0 <= i < |run| => Owned(run[i], j));
    forall i | 0 < i < |run| ensures (flags[i - 1] ==> flags[i]) && (Starts(c, run[i - 1], run[i], j) <==> !flags[i - 1] && flags[i]) {
      RunKeepsInv(c, run, i - 1);
      assert StepAt(c, run, i);
      StartsWhenClaimed(c, run[i - 1], run[i], j);
    }
    NoneOwned(c, run[0], j);
    RunKeepsInv(c, run, |run| - 1);
    AllClaimed(c, run[|run| - 1], j);
    at := RaisedOnce(flags);
  }

  lemma NoneOwned(c: Config, q: State, j: nat)
    requires Init(c, q) && j < |c.jobs|
    ensures !Owned(q, j)
  {
    assert q.owner[j] == None;
  }

  /** Owners stay for the rest of the run. */
  lemma {:induction false} OwnersStay(c: Config, run: seq<State>, i: nat, j: nat, job: nat)
    requires IsRun(c, run) && i <= j < |run| && job < |c.jobs| && Owned(run[i], job)
    ensures Owned(run[j], job) && run[j].owner[job] == run[i].owner[job]
  {
    hide Inv, Next, Starts, Init;
    if i < j {
      OwnersStay(c, run, i, j - 1, job);
      RunKeepsInv(c, run, j - 1);
      assert StepAt(c, run, j);
      StartsWhenClaimed(c, run[j - 1], run[j], job);
    }
  }

  lemma RunnerOwns(c: Config, q: State, b: nat, l: nat)
    requires Inv(c, q) && b < c.blocks && l < c.lanes && q.threads[b][l].Running?
    ensures q.threads[b][l].id < |c.jobs| && |q.owner| == |c.jobs| && q.owner[q.threads[b][l].id] == Some((b, l))
  {
    hide JobOk;
    assert ThreadOk(c, q, b, l);
  }

  /** No job is ever searched by two threads, at whatever times of the run. */
  lemma JobsAreExclusive(c: Config, run: seq<State>, i: nat, j: nat, b: nat, l: nat, d: nat, m: nat)
    requires IsRun(c, run) && i <= j < |run| && Shaped(c, run[i]) && Shaped(c, run[j])
    requires b < c.blocks && l < c.lanes && d < c.blocks && m < c.lanes
    requires run[i].threads[b][l].Running? && run[j].threads[d][m].Running?
    requires run[i].threads[b][l].id == run[j].threads[d][m].id
    ensures b == d && l == m
  {
    hide Inv, Init, Next, JobOk;
    RunKeepsInv(c, run, i);
    RunKeepsInv(c, run, j);
    RunnerOwns(c, run[i], b, l);
    RunnerOwns(c, run[j], d, m);
    OwnersStay(c, run, i, j, run[i].threads[b][l].id);
  }

  // ---- Every bin of every block is flushed once ----

  /** The thread of the bin's lane adds bin `k` of block `b` to the global histogram. */
  ghost predicate Flushes(c: Config, q: State, r: State, b: nat, k: nat)
    requires b < c.blocks && k <= c.limit
  {
    && Shaped(c, q) && Shaped(c, r)
    && q.threads[b][k % c.lanes] == Flushing(k) && r.threads[b][k % c.lanes] == Flushing(k + c.lanes)
    && r.global[k] == q.global[k] + q.bins[b][k]
  }

  ghost predicate IsFlushed(c: Config, q: State, b: nat, k: nat)
    requires b < c.blocks && k <= c.limit
  {
    Shaped(c, q) && BinFlushed(c, q, b, k)
  }

  /** A bin counts as flushed from the step on that adds it to the global histogram. */
  lemma FlushedWhenAdded(c: Config, q: State, r: State, b: nat, k: nat)
    requires Inv(c, q) && Next(c, q, r) && b < c.blocks && k <= c.limit
    ensures Flushes(c, q, r, b, k) <==> !IsFlushed(c, q, b, k) && IsFlushed(c, r, b, k)
    ensures IsFlushed(c, q, b, k) ==> IsFlushed(c, r, b, k)
  {
    hide Accounted, JobOk, Advance, ThreadStep;
    var d, m :| 0 <= d < c.blocks && 0 <= m < c.lanes && ThreadStep(c, q, r, d, m);
    StepShape(c, q, r, d, m);
    if d == b && m == k % c.lanes {
      MoverFlushes(c, q, r, b, k);
    } else {
      assert r.threads[b][k % c.lanes] == q.threads[b][k % c.lanes];
    }
  }

  lemma MoverFlushes(c: Config, q: State, r: State, b: nat, k: nat)
    requires Inv(c, q) && b < c.blocks && k <= c.limit && ThreadStep(c, q, r, b, k % c.lanes) && Shaped(c, r)
    ensures !IsFlushed(c, q, b, k) && IsFlushed(c, r, b, k) ==> Flushes(c, q, r, b, k)
    ensures IsFlushed(c, q, b, k) ==> IsFlushed(c, r, b, k)
  {
    hide Accounted, JobOk, Advance, Halted;
    var l := k % c.lanes;
    var t := q.threads[b][l];
    assert ThreadOk(c, q, b, l);
    LaneFirst(k, c.lanes);
    if t.Running? && !Halted(t.job) {
      JobShape(c, q, r, b, l, t.id, t.job);
    } else if t.Flushing? && t.next <= k < t.next + c.lanes {
      StridesMeet(t.next, k, c.lanes);
    }
  }

  lemma NoneFlushed(c: Config, q: State, b: nat, k: nat)
    requires Init(c, q) && b < c.blocks && k <= c.limit
    ensures !IsFlushed(c, q, b, k)
  {
    assert q.threads[b][k % c.lanes] == Clearing(k % c.lanes);
  }

  /** In a finished run every bin of every block is flushed at exactly one step. */
  lemma BinsFlushOnce(c: Config, run: seq<State>, b: nat, k: nat) returns (at: nat)
    requires IsFinishedRun(c, run) && b < c.blocks && k <= c.limit
    ensures 0 < at < |run| && forall i :: 0 < i < |run| ==> (Flushes(c, run[i - 1], run[i], b, k) <==> i == at)
  {
    hide Inv, Next, Flushes, Init;
    var flags := seq(|run|, i requires 0 <= i < |run| => IsFlushed(c, run[i], b, k));
    forall i | 0 < i < |run| ensures (flags[i - 1] ==> flags[i]) && (Flushes(c, run[i - 1], run[i], b, k) <==> !flags[i - 1] && flags[i]) {
      RunKeepsInv(c, run, i - 1);
      assert StepAt(c, run, i);
      FlushedWhenAdded(c, run[i - 1], run[i], b, k);
    }
    NoneFlushed(c, run[0], b, k);
    assert IsFlushed(c, run[|run| - 1], b, k);
    at := RaisedOnce(flags);
  }

  // ---- No run gets stuck ----

  /** In a reachable state a thread is either done, able to step, or waiting at a barrier. */
  ghost predicate CanStep(c: Config, q: State, b: nat, l: nat)
    requires Shaped(c, q) && b < c.blocks && l < c.lanes
  {
    exists r :: ThreadStep(c, q, r, b, l)
  }

  lemma StepUnlessBlocked(c: Config, q: State, b: nat, l: nat)
    requires Inv(c, q) && b < c.blocks && l < c.lanes
    ensures CanStep(c, q, b, l) <==>
            var t := q.threads[b][l];
            !t.Done? && (t.Cleared? ==> AllCleared(q, b)) && (t.Finished? ==> AllFinished(q, b))
  {
    hide Accounted, JobOk, Advance, Halted;
    var t := q.threads[b][l];
    match t {
      case Clearing(i) =>
        var r := if i <= c.limit then SetBin(SetThread(q, b, l, Clearing(i + c.lanes)), b, i, 0) else SetThread(q, b, l, Cleared);
        assert ThreadStep(c, q, r, b, l);
      case Cleared =>
        if AllCleared(q, b) { assert ThreadStep(c, q, SetThread(q, b, l, Claiming), b, l); }
      case Claiming =>
        assert ThreadStep(c, q, Claim(c, q, b, l), b, l);
      case Running(id, job) =>
        RunningSteps(c, q, b, l);
      case Finished =>
        if AllFinished(q, b) { assert ThreadStep(c, q, SetThread(q, b, l, Flushing(l)), b, l); }
      case Flushing(i) =>
        var row: seq<nat> := q.global;
        var r := if i <= c.limit then
                   SetThread(q, b, l, Flushing(i + c.lanes)).(global := row[i := row[i] + q.bins[b][i]])
                 else SetThread(q, b, l, Done);
        assert ThreadStep(c, q, r, b, l);
      case Done =>
    }
  }

  lemma RunningSteps(c: Config, q: State, b: nat, l: nat)
    requires Inv(c, q) && b < c.blocks && l < c.lanes && q.threads[b][l].Running?
    ensures CanStep(c, q, b, l)
  {
    hide Accounted, JobOk, Advance, Halted, Owes, Steps;
    var Running(id, job) := q.threads[b][l];
    assert ThreadOk(c, q, b, l);
    if Halted(job) {
      assert ThreadStep(c, q, SetThread(q, b, l, if c.queue then Claiming else Finished), b, l);
    } else {
      AdvanceConserves(job, c.limit);
      var (next, length) := Advance(job, c.limit);
      var moved := SetThread(q, b, l, Running(id, next));
      var r := match length case None => moved case Some(k) => SetBin(moved, b, k, q.bins[b][k] + 1);
      assert JobStep(c, q, r, b, l, id, job);
      assert ThreadStep(c, q, r, b, l);
    }
  }

  /** No run gets stuck: until every thread is done, some thread can step. */
  lemma NoDeadlock(c: Config, run: seq<State>)
    requires IsRun(c, run)
    ensures var last := run[|run| - 1];
            Shaped(c, last) &&
            (AllDone(c, last) || exists b, l :: 0 <= b < c.blocks && 0 <= l < c.lanes && CanStep(c, last, b, l))
  {
    var q := run[|run| - 1];
    RunKeepsInv(c, run, |run| - 1);
    hide ThreadOk, Accounted, CanStep, JobOk;
    if b, l :| 0 <= b < c.blocks && 0 <= l < c.lanes && !q.threads[b][l].Done? {
      BlockMoves(c, q, b, l);
    }
  }

  /** A block with a thread that is not done has one that can step. */
  lemma BlockMoves(c: Config, q: State, b: nat, l: nat)
    requires Inv(c, q) && b < c.blocks && l < c.lanes && !q.threads[b][l].Done?
    ensures exists m :: 0 <= m < c.lanes && CanStep(c, q, b, m)
  {
    hide Accounted, CanStep, JobOk;
    StepUnlessBlocked(c, q, b, l);
    var t := q.threads[b][l];
    if t.Cleared? && !AllCleared(q, b) {
      var m :| 0 <= m < c.lanes && q.threads[b][m].Clearing?;
      StepUnlessBlocked(c, q, b, m);
    } else if t.Finished? && !AllFinished(q, b) {
      var m :| 0 <= m < c.lanes && !PastWork(q.threads[b][m]);
      assert ThreadOk(c, q, b, l);
      StepUnlessBlocked(c, q, b, m);
    }
  }
}
