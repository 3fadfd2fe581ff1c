/**
 * A team of threads working through the changed edges of one phase.  Every thread claims the next owner,
 * searches step by step with a stack and a count buffer of its own, adds the signed counts to its row and
 * claims again; any thread may make the next step.
 */
module PhaseTeam {
  import opened CsrGraphs
  import opened CycleSearch
  import opened EdgeOwnership
  import opened StackMachine
  import opened Sums

  datatype Config = Config(g: Csr, changes: seq<Edge>, limit: nat, sign: int, threads: nat) {
    ghost predicate Valid() {
      g.Valid() && limit >= 2 && threads > 0 && (sign == 1 || sign == -1)
    }

    function Of(owner: nat): Search
      requires owner < |changes|
    {
      AnchoredSearch(g, changes, owner, limit)
    }
  }

  datatype Worker = Idle | Searching(owner: nat, stack: Stack, counts: seq<nat>) | Finished

  /** `next` is the first owner nobody has claimed. */
  datatype State = State(next: nat, workers: seq<Worker>, rows: seq<seq<int>>)

  ghost predicate Shaped(c: Config, q: State) {
    && c.Valid() && |q.workers| == |q.rows| == c.threads && q.next <= |c.changes|
    && forall t :: 0 <= t < c.threads ==> |q.rows[t]| == c.limit + 1
  }

  // ---- Steps ----

  /** The search of an owner begins beyond its edge; an edge that leaves the graph has nothing to search. */
  ghost function FirstStack(c: Config, owner: nat): Stack
    requires c.Valid() && owner < |c.changes|
  {
    var e := c.changes[owner];
    if EdgeInRange(c.g, e) then Stack(Anchor(e), [0, c.g.Begin(e.target)]) else Stack([], [])
  }

  /** The row after adding the signed counts of one owner. */
  function AddSigned(row: seq<int>, sign: int, counts: seq<nat>): (r: seq<int>)
    requires |row| == |counts|
    ensures |r| == |row|
  {
    seq(|row|, k requires 0 <= k < |row| => if k >= 2 then row[k] + sign * counts[k] else row[k])
  }

  ghost predicate Init(c: Config, q: State) {
    && Shaped(c, q) && q.next == 0
    && (forall t :: 0 <= t < c.threads ==> q.workers[t] == Idle)
    && (forall t, k :: 0 <= t < c.threads && 0 <= k <= c.limit ==> q.rows[t][k] == 0)
  }

  /** The stack of a worker is one of its owner's search, with nothing kept below the edge. */
  ghost predicate StackFits(c: Config, owner: nat, stack: Stack)
    requires c.Valid()
  {
    && owner < |c.changes|
    && if EdgeInRange(c.g, c.changes[owner]) then StackOk(c.Of(owner), stack, 1) else stack.path == []
  }

  /** One step of thread `t`. */
  ghost predicate WorkerStep(c: Config, q: State, r: State, t: nat)
    requires Shaped(c, q) && t < c.threads
  {
    match q.workers[t]
    case Idle =>
      if q.next < |c.changes| then
        r == q.(next := q.next + 1, workers := q.workers[t := Searching(q.next, FirstStack(c, q.next), seq(c.limit + 1, _ => 0))])
      else r == q.(workers := q.workers[t := Finished])
    case Searching(owner, stack, counts) =>
      && StackFits(c, owner, stack) && |counts| == c.limit + 1
      && if |stack.path| <= 1 then
           r == q.(workers := q.workers[t := Idle], rows := q.rows[t := AddSigned(q.rows[t], c.sign, counts)])
         else
           PopOk(c.Of(owner), stack, 1);
           var (next, length) := Step(c.Of(owner), stack);
           && (length.Some? ==> length.value <= c.limit)
           && r == q.(workers := q.workers[t := Searching(owner, next, Counted(counts, length))])
    case Finished => false
  }

  function Counted(counts: seq<nat>, length: Option<nat>): (r: seq<nat>)
    requires length.Some? ==> length.value < |counts|
    ensures |r| == |counts|
  {
    if length.Some? then counts[length.value := counts[length.value] + 1] else counts
  }

  ghost predicate Next(c: Config, q: State, r: State) {
    Shaped(c, q) && exists t :: 0 <= t < c.threads && WorkerStep(c, q, r, t)
  }

  // ---- What every step keeps ----

  ghost predicate WorkerOk(c: Config, q: State, t: nat)
    requires Shaped(c, q) && t < c.threads
  {
    && (forall k :: 0 <= k <= c.limit ==> c.sign * q.rows[t][k] >= 0)
    && match q.workers[t]
       case Idle => true
       case Searching(owner, stack, counts) =>
         owner < q.next && StackFits(c, owner, stack) && |stack.path| <= c.limit && |counts| == c.limit + 1
       case Finished => q.next == |c.changes|
  }

  /** What the thread has in its row, in its buffer and still to find, in bin `k`. */
  ghost function Share(c: Config, q: State, t: nat, k: nat): nat
    requires Shaped(c, q) && t < c.threads && k <= c.limit
  {
    Signed(c, q.rows[t], k) + Held(c, q.workers[t], k)
  }

  ghost function Signed(c: Config, row: seq<int>, k: nat): nat
    requires k < |row|
  {
    if c.sign * row[k] >= 0 then c.sign * row[k] else 0
  }

  ghost function Held(c: Config, w: Worker, k: nat): nat
    requires c.Valid()
  {
    match w
    case Searching(owner, stack, counts) =>
      (if k < |counts| then counts[k] else 0) +
      if StackFits(c, owner, stack) && EdgeInRange(c.g, c.changes[owner]) then Pending(c.Of(owner), stack, 1)[k] else 0
    case _ => 0
  }

  ghost function Shares(c: Config, q: State, k: nat): nat
    requires Shaped(c, q) && k <= c.limit
  {
    Sum(t => if 0 <= t < c.threads then Share(c, q, t, k) else 0, c.threads)
  }

  /** No owner is searched by two threads. */
  ghost predicate Exclusive(q: State) {
    forall t, u :: 0 <= t < u < |q.workers| && q.workers[t].Searching? && q.workers[u].Searching? ==>
      q.workers[t].owner != q.workers[u].owner
  }

  /** Rows, buffers and unfinished searches together are the histogram of the claimed owners. */
  ghost predicate Inv(c: Config, q: State) {
    && Shaped(c, q) && Exclusive(q)
    && (forall t :: 0 <= t < c.threads ==> WorkerOk(c, q, t))
    && forall k :: 2 <= k <= c.limit ==> Shares(c, q, k) == PhaseTally(c.g, c.changes, c.limit, q.next)[k]
  }

  lemma StepShape(c: Config, q: State, r: State, t: nat)
    requires Shaped(c, q) && t < c.threads && WorkerStep(c, q, r, t)
    ensures Shaped(c, r) && q.next <= r.next
    ensures forall u :: 0 <= u < c.threads && u != t ==> r.workers[u] == q.workers[u] && r.rows[u] == q.rows[u]
  {
    hide StackOk;
  }

  lemma SharesChange(c: Config, q: State, r: State, t: nat, k: nat)
    requires Shaped(c, q) && Shaped(c, r) && t < c.threads && k <= c.limit
    requires forall u :: 0 <= u < c.threads && u != t ==> r.workers[u] == q.workers[u] && r.rows[u] == q.rows[u]
    ensures Shares(c, r, k) + Share(c, q, t, k) == Shares(c, q, k) + Share(c, r, t, k)
  {
    hide Held, Signed;
    SumChange(u => if 0 <= u < c.threads then Share(c, q, u, k) else 0,
              u => if 0 <= u < c.threads then Share(c, r, u, k) else 0, c.threads, t);
  }

  lemma FirstStackOwes(c: Config, owner: nat)
    requires c.Valid() && owner < |c.changes|
    ensures StackFits(c, owner, FirstStack(c, owner)) && |FirstStack(c, owner).path| <= c.limit
    ensures EdgeInRange(c.g, c.changes[owner]) ==>
              Pending(c.Of(owner), FirstStack(c, owner), 1) == AnchoredTally(c.g, c.changes, owner, c.limit)
    ensures !EdgeInRange(c.g, c.changes[owner]) ==> AnchoredTally(c.g, c.changes, owner, c.limit) == multiset{}
  {
    if EdgeInRange(c.g, c.changes[owner]) {
      StartOk(c.Of(owner), FirstStack(c, owner), 1);
    }
  }

  lemma ClaimBalances(c: Config, q: State, r: State, t: nat, k: nat)
    requires Inv(c, q) && t < c.threads && q.workers[t].Idle? && WorkerStep(c, q, r, t) && 2 <= k <= c.limit
    ensures Shaped(c, r) && WorkerOk(c, r, t)
    ensures Shares(c, r, k) == PhaseTally(c.g, c.changes, c.limit, r.next)[k]
  {
    hide StackOk, Pending, AnchoredTally, Shares;
    assert WorkerOk(c, q, t);
    StepShape(c, q, r, t);
    SharesChange(c, q, r, t, k);
    if q.next < |c.changes| {
      FirstStackOwes(c, q.next);
      hide FirstStack;
    }
  }

  /** One step of a search moves one count from what is still to find into the buffer. */
  lemma SearchConserves(c: Config, owner: nat, stack: Stack, counts: seq<nat>, k: nat)
    requires c.Valid() && StackFits(c, owner, stack) && 1 < |stack.path| <= c.limit && |counts| == c.limit + 1 && k <= c.limit
    ensures EdgeInRange(c.g, c.changes[owner])
    ensures StackOk(c.Of(owner), stack, 1) && |stack.cursors| == |stack.path|
    ensures AtSlot(c.Of(owner), stack.path, stack.cursors[|stack.path| - 1])
    ensures var (next, length) := Step(c.Of(owner), stack);
            && StackFits(c, owner, next) && |next.path| <= c.limit && (length.Some? ==> length.value <= c.limit)
            && Held(c, Searching(owner, stack, counts), k) == Held(c, Searching(owner, next, Counted(counts, length)), k)
            && PendingSteps(c.Of(owner), next, 1) < PendingSteps(c.Of(owner), stack, 1)
  {
    StackLengths(c.Of(owner), stack);
    hide Pending, PendingSteps, StackOk, Held, Counted, Step;
    StepConserves(c.Of(owner), stack, 1);
    StepFits(c.Of(owner), stack, 1);
    LengthFits(c.Of(owner), stack, c.limit);
    var (next, length) := Step(c.Of(owner), stack);
    HeldParts(c, owner, stack, counts, k);
    HeldParts(c, owner, next, Counted(counts, length), k);
    CountedBin(counts, length, k);
  }

  lemma HeldParts(c: Config, owner: nat, stack: Stack, counts: seq<nat>, k: nat)
    requires c.Valid() && StackFits(c, owner, stack) && EdgeInRange(c.g, c.changes[owner]) && k < |counts|
    ensures Held(c, Searching(owner, stack, counts), k) == counts[k] + Pending(c.Of(owner), stack, 1)[k]
  {
    hide Pending, StackOk;
  }

  lemma CountedBin(counts: seq<nat>, length: Option<nat>, k: nat)
    requires k < |counts| && (length.Some? ==> length.value < |counts|)
    ensures |Counted(counts, length)| == |counts| && Counted(counts, length)[k] == counts[k] + Recorded(length)[k]
  {
  }

  lemma StackLengths(s: Search, stack: Stack)
    requires StackOk(s, stack, 1)
    ensures |stack.cursors| == |stack.path| && (|stack.path| <= 1 ==> Pending(s, stack, 1) == multiset{})
  {
  }

  lemma SearchBalances(c: Config, q: State, r: State, t: nat, k: nat)
    requires Inv(c, q) && t < c.threads && q.workers[t].Searching? && |q.workers[t].stack.path| > 1
    requires WorkerStep(c, q, r, t) && 2 <= k <= c.limit
    ensures Shaped(c, r) && WorkerOk(c, r, t) && r.next == q.next && Shares(c, r, k) == Shares(c, q, k)
  {
    hide StackOk, Pending, Shares, Held, StackFits, Step;
    var Searching(owner, stack, counts) := q.workers[t];
    assert WorkerOk(c, q, t);
    SearchConserves(c, owner, stack, counts, k);
    StepShape(c, q, r, t);
    SharesChange(c, q, r, t, k);
  }

  lemma DepositBalances(c: Config, q: State, r: State, t: nat, k: nat)
    requires Inv(c, q) && t < c.threads && q.workers[t].Searching? && |q.workers[t].stack.path| <= 1
    requires WorkerStep(c, q, r, t) && 2 <= k <= c.limit
    ensures Shaped(c, r) && WorkerOk(c, r, t) && r.next == q.next && Shares(c, r, k) == Shares(c, q, k)
  {
    hide StackOk, Pending, Shares;
    var Searching(owner, stack, counts) := q.workers[t];
    assert WorkerOk(c, q, t);
    if EdgeInRange(c.g, c.changes[owner]) {
      StackLengths(c.Of(owner), stack);
    }
    StepShape(c, q, r, t);
    forall j | 0 <= j <= c.limit ensures c.sign * r.rows[t][j] == c.sign * q.rows[t][j] + if j >= 2 then counts[j] else 0 {
      assert c.sign == 1 || c.sign == -1;
    }
    SharesChange(c, q, r, t, k);
  }

  lemma OtherWorkers(c: Config, q: State, r: State, t: nat, u: nat)
    requires Inv(c, q) && t < c.threads && WorkerStep(c, q, r, t) && u < c.threads && u != t
    ensures Shaped(c, r) && WorkerOk(c, r, u)
  {
    hide StackOk, Shares;
    StepShape(c, q, r, t);
    assert WorkerOk(c, q, u) && WorkerOk(c, q, t);
  }

  /** A claimed owner is new to all threads. */
  lemma StaysExclusive(c: Config, q: State, r: State, t: nat)
    requires Inv(c, q) && t < c.threads && WorkerStep(c, q, r, t)
    ensures Exclusive(r)
  {
    hide StackOk, Shares;
    StepShape(c, q, r, t);
    assert WorkerOk(c, q, t);
    forall u | 0 <= u < c.threads ensures q.workers[u].Searching? ==> q.workers[u].owner < q.next {
      assert WorkerOk(c, q, u);
    }
  }

  /** Every step of any thread keeps the account, and no owner is searched twice at a time. */
  lemma NextKeepsInv(c: Config, q: State, r: State)
    requires Inv(c, q) && Next(c, q, r)
    ensures Inv(c, r)
  {
    hide WorkerStep, WorkerOk, Shares, PhaseTally, Exclusive;
    var t :| 0 <= t < c.threads && WorkerStep(c, q, r, t);
    StepShape(c, q, r, t);
    forall k | 2 <= k <= c.limit ensures WorkerOk(c, r, t) && Shares(c, r, k) == PhaseTally(c.g, c.changes, c.limit, r.next)[k] {
      StepBalances(c, q, r, t, k);
    }
    assert WorkerOk(c, r, t) by { StepBalances(c, q, r, t, 2); }
    StaysExclusive(c, q, r, t);
    forall u | 0 <= u < c.threads ensures WorkerOk(c, r, u) {
      if u != t { OtherWorkers(c, q, r, t, u); }
    }
  }

  lemma StepBalances(c: Config, q: State, r: State, t: nat, k: nat)
    requires Inv(c, q) && t < c.threads && WorkerStep(c, q, r, t) && 2 <= k <= c.limit
    ensures Shaped(c, r) && WorkerOk(c, r, t) && Shares(c, r, k) == PhaseTally(c.g, c.changes, c.limit, r.next)[k]
  {
    hide StackFits, Shares, PhaseTally, FirstStack;
    match q.workers[t]
    case Idle => ClaimBalances(c, q, r, t, k);
    case Searching(_, stack, _) =>
      if |stack.path| <= 1 { DepositBalances(c, q, r, t, k); } else { SearchBalances(c, q, r, t, k); }
    case Finished =>
  }

  // ---- Runs ----

  ghost predicate IsRun(c: Config, run: seq<State>) {
    && 0 < |run| && Init(c, run[0])
    && forall i :: 0 < i < |run| ==> StepAt(c, run, i)
  }

  ghost predicate StepAt(c: Config, run: seq<State>, i: nat)
    requires 0 < i < |run|
  {
    Next(c, run[i - 1], run[i])
  }

  ghost predicate AllFinished(q: State) {
    forall t :: 0 <= t < |q.workers| ==> q.workers[t].Finished?
  }

  lemma InitInv(c: Config, q: State)
    requires Init(c, q)
    ensures Inv(c, q)
  {
    forall k | 2 <= k <= c.limit ensures Shares(c, q, k) == 0 {
      SumZero(t => if 0 <= t < c.threads then Share(c, q, t, k) else 0, c.threads);
    }
  }

  lemma {:induction false} RunKeepsInv(c: Config, run: seq<State>, i: nat)
    requires IsRun(c, run) && i < |run|
    ensures Inv(c, run[i])
  {
    hide Init, Inv, Next;
    if i == 0 {
      InitInv(c, run[0]);
    } else {
      RunKeepsInv(c, run, i - 1);
      assert StepAt(c, run, i);
      NextKeepsInv(c, run[i - 1], run[i]);
    }
  }

  /** Whatever the interleaving, the rows of a finished team are the signed histogram of the phase. */
  lemma FinishedRunCounts(c: Config, run: seq<State>, k: nat)
    requires IsRun(c, run) && AllFinished(run[|run| - 1]) && 2 <= k <= c.limit
    ensures var rows := run[|run| - 1].rows;
            && |rows| == c.threads && (forall t :: 0 <= t < c.threads ==> |rows[t]| == c.limit + 1)
            && Column(rows, k, c.threads) == c.sign * PhaseTally(c.g, c.changes, c.limit, |c.changes|)[k]
  {
    hide Init, PhaseTally;
    var q := run[|run| - 1];
    RunKeepsInv(c, run, |run| - 1);
    assert WorkerOk(c, q, 0);
    forall t | 0 <= t < c.threads ensures Share(c, q, t, k) == c.sign * q.rows[t][k] {
      assert WorkerOk(c, q, t);
    }
    ColumnIsSum(c, q, k, t => if 0 <= t < c.threads then Share(c, q, t, k) else 0, c.threads);
    assert c.sign == 1 || c.sign == -1;
  }

  /** The sum of one bin over the first `n` rows. */
  function Column(rows: seq<seq<int>>, k: nat, n: nat): int
    requires n <= |rows| && forall t :: 0 <= t < n ==> k < |rows[t]|
  {
    if n == 0 then 0 else Column(rows, k, n - 1) + rows[n - 1][k]
  }

  lemma {:induction false} ColumnIsSum(c: Config, q: State, k: nat, f: int -> nat, n: nat)
    requires Shaped(c, q) && k <= c.limit && n <= c.threads && forall t :: 0 <= t < n ==> f(t) == c.sign * q.rows[t][k]
    ensures c.sign * Column(q.rows, k, n) == Sum(f, n)
  {
    if n > 0 {
      ColumnIsSum(c, q, k, f, n - 1);
      assert c.sign == 1 || c.sign == -1;
    }
  }

  lemma CanStep(c: Config, q: State, t: nat)
    requires Inv(c, q) && t < c.threads && !q.workers[t].Finished?
    ensures exists r :: Next(c, q, r)
  {
    hide StackOk, Shares, PhaseTally, Held;
    assert WorkerOk(c, q, t);
    match q.workers[t]
    case Idle =>
      var r := if q.next < |c.changes| then
                 q.(next := q.next + 1, workers := q.workers[t := Searching(q.next, FirstStack(c, q.next), seq(c.limit + 1, _ => 0))])
               else q.(workers := q.workers[t := Finished]);
      assert WorkerStep(c, q, r, t) && Next(c, q, r);
    case Searching(owner, stack, counts) =>
      if |stack.path| <= 1 {
        var r := q.(workers := q.workers[t := Idle], rows := q.rows[t := AddSigned(q.rows[t], c.sign, counts)]);
        assert WorkerStep(c, q, r, t) && Next(c, q, r);
      } else {
        SearchConserves(c, owner, stack, counts, 0);
        var (next, length) := Step(c.Of(owner), stack);
        var r := q.(workers := q.workers[t := Searching(owner, next, Counted(counts, length))]);
        assert WorkerStep(c, q, r, t) && Next(c, q, r);
      }
  }

  /** Until all threads are finished some thread can step. */
  lemma NoDeadlock(c: Config, q: State)
    requires Inv(c, q)
    ensures AllFinished(q) || exists r :: Next(c, q, r)
  {
    hide WorkerOk, Shares, PhaseTally, Next;
    if t :| 0 <= t < |q.workers| && !q.workers[t].Finished? {
      CanStep(c, q, t);
    }
  }

  // ---- Every run ends ----

  ghost function WorkerWork(c: Config, w: Worker): nat
    requires c.Valid()
  {
    match w
    case Idle => 1
    case Searching(owner, stack, _) =>
      2 + if StackFits(c, owner, stack) && EdgeInRange(c.g, c.changes[owner]) then PendingSteps(c.Of(owner), stack, 1) else 0
    case Finished => 0
  }

  /** The steps the owners from `owner` on need, their claims included. */
  ghost function OwnersWork(c: Config, owner: nat): nat
    requires c.Valid() && owner <= |c.changes|
    decreases |c.changes| - owner
  {
    if owner == |c.changes| then 0
    else WorkerWork(c, Searching(owner, FirstStack(c, owner), [])) + OwnersWork(c, owner + 1)
  }

  ghost function Work(c: Config, q: State): nat
    requires Shaped(c, q)
  {
    OwnersWork(c, q.next) + Sum(t => if 0 <= t < c.threads then WorkerWork(c, q.workers[t]) else 0, c.threads)
  }

  lemma NextWorks(c: Config, q: State, r: State)
    requires Inv(c, q) && Next(c, q, r)
    ensures Shaped(c, q) && Shaped(c, r) && Work(c, r) < Work(c, q)
  {
    hide StackOk, Shares, PhaseTally, PendingSteps, Pending, FirstStack;
    var t :| 0 <= t < c.threads && WorkerStep(c, q, r, t);
    assert WorkerOk(c, q, t);
    StepShape(c, q, r, t);
    SumChange(u => if 0 <= u < c.threads then WorkerWork(c, q.workers[u]) else 0,
              u => if 0 <= u < c.threads then WorkerWork(c, r.workers[u]) else 0, c.threads, t);
    if q.workers[t].Searching? && |q.workers[t].stack.path| > 1 {
      SearchConserves(c, q.workers[t].owner, q.workers[t].stack, q.workers[t].counts, 0);
    }
  }

  lemma InvShaped(c: Config, q: State)
    requires Inv(c, q)
    ensures Shaped(c, q)
  {
  }

  /** No run is longer than the work of its first state. */
  lemma {:induction false} RunsEnd(c: Config, run: seq<State>, i: nat)
    requires IsRun(c, run) && i < |run|
    ensures Shaped(c, run[0]) && Shaped(c, run[i]) && i + Work(c, run[i]) <= Work(c, run[0])
  {
    hide Work, Shaped, Inv, Init, Next;
    if i == 0 {
      RunKeepsInv(c, run, 0);
      InvShaped(c, run[0]);
    } else {
      RunsEnd(c, run, i - 1);
      RunKeepsInv(c, run, i - 1);
      assert StepAt(c, run, i);
      NextWorks(c, run[i - 1], run[i]);
    }
  }

  lemma RunGoesOn(c: Config, run: seq<State>, r: State)
    requires IsRun(c, run) && Next(c, run[|run| - 1], r)
    ensures IsRun(c, run + [r])
  {
    hide Next, Init;
    var longer := run + [r];
    forall i | 0 < i < |longer| ensures StepAt(c, longer, i) {
      if i < |run| { assert StepAt(c, run, i); }
    }
  }

  /** Every run can be continued until all threads are finished. */
  lemma {:induction false} RunsCanFinish(c: Config, run: seq<State>) returns (more: seq<State>)
    requires IsRun(c, run) && Shaped(c, run[|run| - 1])
    ensures IsRun(c, more) && run <= more && AllFinished(more[|more| - 1])
    decreases Work(c, run[|run| - 1])
  {
    hide Next, Work, Inv, Init, Shaped;
    var q := run[|run| - 1];
    RunKeepsInv(c, run, |run| - 1);
    if AllFinished(q) {
      return run;
    }
    NoDeadlock(c, q);
    var r :| Next(c, q, r);
    NextWorks(c, q, r);
    RunGoesOn(c, run, r);
    more := RunsCanFinish(c, run + [r]);
  }

  /** There are runs: one begins for every phase. */
  lemma RunsBegin(c: Config) returns (run: seq<State>)
    requires c.Valid()
    ensures IsRun(c, run) && Shaped(c, run[|run| - 1])
  {
    var zeros: seq<int> := seq(c.limit + 1, _ => 0);
    run := [State(0, seq(c.threads, _ => Idle), seq(c.threads, _ => zeros))];
  }
}
