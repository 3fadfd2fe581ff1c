/**
 * The owned-cycle kernel on values: one thread per changed edge, each with its own stack, all adding to one
 * array of counts.  Any thread that is not finished may make the next iteration.
 */
module OwnedLaunch {
  import opened CsrGraphs
  import opened CycleSearch
  import opened EdgeOwnership
  import opened StackMachine
  import opened OwnedCycleKernel

  datatype Config = Config(g: Csr, changes: seq<Edge>, limit: nat) {
    ghost predicate Valid() {
      g.Valid() && limit >= 2 && forall i :: 0 <= i < |changes| ==> EdgeInRange(g, changes[i])
    }

    function Of(i: nat): Search
      requires i < |changes|
    {
      AnchoredSearch(g, changes, i, limit)
    }
  }

  datatype State = State(stacks: seq<Stack>, counts: Histogram)

  ghost predicate ThreadOk(c: Config, stacks: seq<Stack>, i: nat)
    requires c.Valid() && i < |c.changes| == |stacks|
  {
    StackOk(c.Of(i), stacks[i], 1)
  }

  ghost predicate Ok(c: Config, stacks: seq<Stack>) {
    c.Valid() && |stacks| == |c.changes| && forall i :: 0 <= i < |stacks| ==> ThreadOk(c, stacks, i)
  }

  predicate Finished(stacks: seq<Stack>) {
    forall i :: 0 <= i < |stacks| ==> |stacks[i].path| <= 1
  }

  ghost predicate Init(c: Config, q: State) {
    && c.Valid() && |q.stacks| == |c.changes| && q.counts == multiset{}
    && forall i :: 0 <= i < |q.stacks| ==> Starts(c, q.stacks, i)
  }

  ghost predicate Starts(c: Config, stacks: seq<Stack>, i: nat)
    requires c.Valid() && i < |c.changes| == |stacks|
  {
    assert EdgeInRange(c.g, c.changes[i]);
    stacks[i] == StartStack(c.Of(i), c.changes[i])
  }

  /** Thread `i` makes one iteration of its loop. */
  ghost predicate Iterates(c: Config, q: State, r: State, i: nat) {
    && Ok(c, q.stacks) && i < |q.stacks| && |q.stacks[i].path| > 1
    && ThreadOk(c, q.stacks, i)
    && (PopOk(c.Of(i), q.stacks[i], 1);
        var (next, length) := Step(c.Of(i), q.stacks[i]);
        r == State(q.stacks[i := next], q.counts + Recorded(length)))
  }

  /** What the threads before `n` still owe. */
  ghost function PendingBefore(c: Config, stacks: seq<Stack>, n: nat): Histogram
    requires Ok(c, stacks) && n <= |stacks|
  {
    if n == 0 then multiset{}
    else
      assert ThreadOk(c, stacks, n - 1);
      PendingBefore(c, stacks, n - 1) + Pending(c.Of(n - 1), stacks[n - 1], 1)
  }

  ghost function StepsBefore(c: Config, stacks: seq<Stack>, n: nat): nat
    requires Ok(c, stacks) && n <= |stacks|
  {
    if n == 0 then 0
    else
      assert ThreadOk(c, stacks, n - 1);
      StepsBefore(c, stacks, n - 1) + PendingSteps(c.Of(n - 1), stacks[n - 1], 1)
  }

  /** Recorded and pending counts together are the histogram of the phase. */
  ghost predicate Inv(c: Config, q: State) {
    Ok(c, q.stacks) && q.counts + PendingBefore(c, q.stacks, |q.stacks|) == PhaseTally(c.g, c.changes, c.limit, |c.changes|)
  }

  lemma StackChanged(c: Config, stacks: seq<Stack>, i: nat, st: Stack)
    requires Ok(c, stacks) && i < |stacks| && StackOk(c.Of(i), st, 1)
    ensures Ok(c, stacks[i := st])
  {
    var changed := stacks[i := st];
    forall j | 0 <= j < |changed| ensures ThreadOk(c, changed, j) {
      assert ThreadOk(c, stacks, j);
    }
  }

  lemma {:induction false} OthersUnchanged(c: Config, stacks: seq<Stack>, i: nat, st: Stack, n: nat)
    requires Ok(c, stacks) && n <= i < |stacks| && Ok(c, stacks[i := st])
    ensures PendingBefore(c, stacks[i := st], n) == PendingBefore(c, stacks, n)
    ensures StepsBefore(c, stacks[i := st], n) == StepsBefore(c, stacks, n)
  {
    if n > 0 {
      OthersUnchanged(c, stacks, i, st, n - 1);
      assert stacks[i := st][n - 1] == stacks[n - 1];
    }
  }

  lemma {:induction false} PendingChanged(c: Config, stacks: seq<Stack>, i: nat, st: Stack, n: nat)
    requires Ok(c, stacks) && i < n <= |stacks| && Ok(c, stacks[i := st]) && ThreadOk(c, stacks, i) && StackOk(c.Of(i), st, 1)
    ensures PendingBefore(c, stacks, n) + Pending(c.Of(i), st, 1) ==
            PendingBefore(c, stacks[i := st], n) + Pending(c.Of(i), stacks[i], 1)
    ensures StepsBefore(c, stacks, n) + PendingSteps(c.Of(i), st, 1) ==
            StepsBefore(c, stacks[i := st], n) + PendingSteps(c.Of(i), stacks[i], 1)
  {
    hide Pending, PendingSteps, StackOk, Ok, PendingBefore, StepsBefore;
    LastThread(c, stacks, n);
    LastThread(c, stacks[i := st], n);
    if n - 1 == i {
      OthersUnchanged(c, stacks, i, st, n - 1);
    } else {
      PendingChanged(c, stacks, i, st, n - 1);
      assert stacks[i := st][n - 1] == stacks[n - 1];
      AddBoth(PendingBefore(c, stacks, n - 1), Pending(c.Of(i), st, 1), PendingBefore(c, stacks[i := st], n - 1),
              Pending(c.Of(i), stacks[i], 1), Pending(c.Of(n - 1), stacks[n - 1], 1));
    }
  }

  lemma LastThread(c: Config, stacks: seq<Stack>, n: nat)
    requires Ok(c, stacks) && 0 < n <= |stacks|
    ensures |c.changes| == |stacks| && c.Valid() && ThreadOk(c, stacks, n - 1)
    ensures PendingBefore(c, stacks, n) == PendingBefore(c, stacks, n - 1) + Pending(c.Of(n - 1), stacks[n - 1], 1)
    ensures StepsBefore(c, stacks, n) == StepsBefore(c, stacks, n - 1) + PendingSteps(c.Of(n - 1), stacks[n - 1], 1)
  {
    assert ThreadOk(c, stacks, n - 1);
  }

  lemma AddBoth(a: Histogram, b: Histogram, c: Histogram, d: Histogram, x: Histogram)
    requires a + b == c + d
    ensures a + x + b == c + x + d
  {
    forall k ensures (a + x + b)[k] == (c + x + d)[k] {
      assert (a + b)[k] == (c + d)[k];
    }
  }

  lemma Exchange(counts: Histogram, before: Histogram, after: Histogram, owed: Histogram, left: Histogram, recorded: Histogram)
    requires before + left == after + owed && owed == recorded + left
    ensures counts + before == counts + recorded + after
  {
    forall k ensures (counts + before)[k] == (counts + recorded + after)[k] {
      assert (before + left)[k] == (after + owed)[k];
    }
  }

  /** Every iteration of every thread keeps the total and uses up one step. */
  lemma IterationKeepsInv(c: Config, q: State, r: State, i: nat)
    requires Inv(c, q) && Iterates(c, q, r, i)
    ensures Inv(c, r) && StepsBefore(c, r.stacks, |r.stacks|) < StepsBefore(c, q.stacks, |q.stacks|)
  {
    hide Pending, PendingSteps, PendingBefore, StepsBefore, Step;
    assert ThreadOk(c, q.stacks, i);
    StepConserves(c.Of(i), q.stacks[i], 1);
    var next := Step(c.Of(i), q.stacks[i]).0;
    StackChanged(c, q.stacks, i, next);
    PendingChanged(c, q.stacks, i, next, |q.stacks|);
    Exchange(q.counts, PendingBefore(c, q.stacks, |q.stacks|), PendingBefore(c, r.stacks, |q.stacks|),
             Pending(c.Of(i), q.stacks[i], 1), Pending(c.Of(i), next, 1), Recorded(Step(c.Of(i), q.stacks[i]).1));
  }

  lemma {:induction false} StartsOwe(c: Config, q: State, n: nat)
    requires Init(c, q) && n <= |q.stacks|
    ensures Ok(c, q.stacks) && PendingBefore(c, q.stacks, n) == PhaseTally(c.g, c.changes, c.limit, n)
  {
    hide Pending, StackOk, AnchoredTally, StartStack;
    forall i | 0 <= i < |q.stacks| ensures ThreadOk(c, q.stacks, i) && Pending(c.Of(i), q.stacks[i], 1) == AnchoredTally(c.g, c.changes, i, c.limit) {
      StartOwes(c, q.stacks, i);
    }
    if n > 0 {
      StartsOwe(c, q, n - 1);
    }
  }

  lemma StartOwes(c: Config, stacks: seq<Stack>, i: nat)
    requires c.Valid() && i < |c.changes| == |stacks| && Starts(c, stacks, i)
    ensures ThreadOk(c, stacks, i) && Pending(c.Of(i), stacks[i], 1) == AnchoredTally(c.g, c.changes, i, c.limit)
  {
    assert EdgeInRange(c.g, c.changes[i]);
    StartIsOk(c.Of(i), c.changes[i]);
  }

  lemma InitHasInv(c: Config, q: State)
    requires Init(c, q)
    ensures Inv(c, q)
  {
    StartsOwe(c, q, |q.stacks|);
  }

  /** When all threads are finished the counts are the histogram of the phase. */
  lemma FinishedCounts(c: Config, q: State)
    requires Inv(c, q) && Finished(q.stacks)
    ensures c.Valid() && q.counts == PhaseTally(c.g, c.changes, c.limit, |c.changes|)
  {
    NothingLeft(c, q.stacks, |q.stacks|);
  }

  lemma {:induction false} NothingLeft(c: Config, stacks: seq<Stack>, n: nat)
    requires Ok(c, stacks) && n <= |stacks| && Finished(stacks)
    ensures PendingBefore(c, stacks, n) == multiset{}
  {
    if n > 0 {
      assert ThreadOk(c, stacks, n - 1);
      NothingLeft(c, stacks, n - 1);
    }
  }
}
