/** Every run of a counting kernel ends: each step uses up work. */
module BlockEnds {
  import opened BlockProtocol
  import opened BlockRuns
  import opened CsrGraphs
  import opened Jobs
  import opened Sums

  /** A bound on the steps a thread can take without claiming another job. */
  ghost function ThreadWork(c: Config, t: Thread): nat {
    match t
    case Clearing(i) => c.limit + 6 + if i <= c.limit then c.limit + 1 - i else 0
    case Cleared => c.limit + 5
    case Claiming => c.limit + 4
    case Running(id, job) => c.limit + 5 + if JobOk(job, c.limit) then Steps(job, c.limit) else 0
    case Finished => c.limit + 3
    case Flushing(i) => 1 + if i <= c.limit then c.limit + 1 - i else 0
    case Done => 0
  }

  /** The steps an unclaimed job will need, its claim included. */
  ghost function OpenWork(c: Config, owner: seq<Option<(nat, nat)>>, j: int): nat {
    if 0 <= j < |c.jobs| && j < |owner| && owner[j] == None && JobOk(c.jobs[j], c.limit) then 2 + Steps(c.jobs[j], c.limit) else 0
  }

  ghost function JobsWork(c: Config, owner: seq<Option<(nat, nat)>>): nat {
    Sum(j => OpenWork(c, owner, j), |c.jobs|)
  }

  ghost function BlockWork(c: Config, q: State, b: nat): nat
    requires Shaped(c, q) && b < c.blocks
  {
    Sum(l => if 0 <= l < c.lanes then ThreadWork(c, q.threads[b][l]) else 0, c.lanes)
  }

  ghost function Work(c: Config, q: State): nat
    requires Shaped(c, q)
  {
    JobsWork(c, q.owner) + Sum(b => if 0 <= b < c.blocks then BlockWork(c, q, b) else 0, c.blocks)
  }

  lemma WorkChange(c: Config, q: State, r: State, b: nat, l: nat)
    requires Shaped(c, q) && Shaped(c, r) && b < c.blocks && l < c.lanes && OnlyAt(c, q, r, b, l)
    ensures Work(c, r) + ThreadWork(c, q.threads[b][l]) + JobsWork(c, q.owner) ==
            Work(c, q) + ThreadWork(c, r.threads[b][l]) + JobsWork(c, r.owner)
  {
    hide ThreadWork, JobsWork, JobOk;
    SumChange(m => if 0 <= m < c.lanes then ThreadWork(c, q.threads[b][m]) else 0,
              m => if 0 <= m < c.lanes then ThreadWork(c, r.threads[b][m]) else 0, c.lanes, l);
    forall d | 0 <= d < c.blocks && d != b ensures BlockWork(c, q, d) == BlockWork(c, r, d) {
      SumSame(m => if 0 <= m < c.lanes then ThreadWork(c, q.threads[d][m]) else 0,
              m => if 0 <= m < c.lanes then ThreadWork(c, r.threads[d][m]) else 0, c.lanes);
    }
    WorkParts(c, q, b);
    WorkParts(c, r, b);
    hide BlockWork;
    SumChange(d => if 0 <= d < c.blocks then BlockWork(c, q, d) else 0,
              d => if 0 <= d < c.blocks then BlockWork(c, r, d) else 0, c.blocks, b);
  }

  lemma WorkParts(c: Config, q: State, b: nat)
    requires Shaped(c, q) && b < c.blocks
    ensures BlockWork(c, q, b) == Sum(m => if 0 <= m < c.lanes then ThreadWork(c, q.threads[b][m]) else 0, c.lanes)
  {
  }

  lemma StepWorks(c: Config, q: State, r: State, b: nat, l: nat)
    requires Inv(c, q) && b < c.blocks && l < c.lanes && ThreadStep(c, q, r, b, l) && Shaped(c, r)
    ensures ThreadWork(c, r.threads[b][l]) + JobsWork(c, r.owner) < ThreadWork(c, q.threads[b][l]) + JobsWork(c, q.owner)
  {
    hide Accounted, JobOk, Advance, Steps, Halted, Owes, JobsWork;
    assert ThreadOk(c, q, b, l);
    match q.threads[b][l] {
      case Clearing(i) =>
      case Cleared =>
      case Claiming => ClaimWorks(c, q, r, b, l);
      case Running(id, job) =>
        if !Halted(job) {
          AdvanceConserves(job, c.limit);
          JobShape(c, q, r, b, l, id, job);
        }
      case Finished =>
      case Flushing(i) =>
      case Done =>
    }
  }

  lemma ClaimWorks(c: Config, q: State, r: State, b: nat, l: nat)
    requires Inv(c, q) && b < c.blocks && l < c.lanes && ThreadStep(c, q, r, b, l) && Shaped(c, r) && q.threads[b][l].Claiming?
    ensures ThreadWork(c, r.threads[b][l]) + JobsWork(c, r.owner) < ThreadWork(c, q.threads[b][l]) + JobsWork(c, q.owner)
  {
    hide Accounted, JobOk, Steps;
    var j := Wanted(c, q, b, l);
    assert ThreadOk(c, q, b, l);
    if j < |c.jobs| {
      assert q.owner[j] == None;
      SumChange(i => OpenWork(c, q.owner, i), i => OpenWork(c, r.owner, i), |c.jobs|, j);
    }
  }

  /** Every step uses up work. */
  lemma NextWorks(c: Config, q: State, r: State)
    requires Inv(c, q) && Next(c, q, r)
    ensures Shaped(c, q) && Shaped(c, r) && Work(c, r) < Work(c, q)
  {
    hide ThreadStep, Work, ThreadWork, JobsWork, OnlyAt, Accounted, JobOk;
    var b, l :| 0 <= b < c.blocks && 0 <= l < c.lanes && ThreadStep(c, q, r, b, l);
    StepShape(c, q, r, b, l);
    StepWorks(c, q, r, b, l);
    WorkChange(c, q, r, b, l);
  }

  lemma InvShaped(c: Config, q: State)
    requires Inv(c, q)
    ensures Shaped(c, q)
  {
  }

  /** So no run is longer than the work of its first state allows. */
  lemma {:induction false} RunsEnd(c: Config, run: seq<State>, i: nat)
    requires IsRun(c, run) && i < |run|
    ensures Shaped(c, run[0]) && Shaped(c, run[i]) && i + Work(c, run[i]) <= Work(c, run[0])
  {
    hide Work, Shaped, Inv, Init, Next;
    if i == 0 {
      RunKeepsInv(c, run, 0);
      InvShaped(c, run[0]);
    } else {
      RunsEnd(c, run, i - 1);
      RunKeepsInv(c, run, i - 1);
      assert StepAt(c, run, i);
      NextWorks(c, run[i - 1], run[i]);
    }
  }
}
