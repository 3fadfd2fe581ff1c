/**
 * The search as a tree of tasks: tasks above the cutoff spawn one task per branch, tasks at the cutoff
 * search their subtree themselves, and every thread records into its own histogram.  Any task may make
 * the next step: start on any thread, read one slot of its row, or make one step of its serial search.
 */
module TaskTree {
  import opened CsrGraphs
  import opened CycleSearch
  import opened CycleTotals
  import opened Merging
  import opened StackMachine

  datatype Config = Config(g: Csr, cap: Option<nat>, cutoff: nat, threads: nat) {
    predicate Valid() {
      g.Valid() && cutoff >= 1 && threads > 0
    }
  }

  /**
   * A task owns its path.  An active one reads the row of the path on its thread and spawns; a counting
   * one searches below the path, with the recursion of the serial search as a stack.
   */
  datatype Task =
    | Waiting(path: seq<nat>)
    | Active(path: seq<nat>, slot: nat, thread: nat)
    | Counting(path: seq<nat>, stack: Stack, thread: nat)

  /** `nextRoot` is the first root without a task. */
  datatype State = State(nextRoot: nat, tasks: seq<Task>, locals: seq<Histogram>)

  function SearchOf(c: Config, path: seq<nat>): Search
    requires path != []
  {
    RootSearch(c.g, c.cap, path[0])
  }

  ghost predicate TaskOk(c: Config, t: Task) {
    && t.path != [] && SearchOf(c, t.path).Valid() && SearchOf(c, t.path).IsPath(t.path)
    && (t.Active? ==> AtSlot(SearchOf(c, t.path), t.path, t.slot) && t.thread < c.threads)
    && (t.Counting? ==> StackOk(SearchOf(c, t.path), t.stack, |t.path| - 1) && t.thread < c.threads)
  }

  ghost predicate Ok(c: Config, q: State) {
    && c.Valid() && q.nextRoot <= c.g.Order() && |q.locals| == c.threads
    && forall i :: 0 <= i < |q.tasks| ==> TaskOk(c, q.tasks[i])
  }

  // ---- Steps ----

  function Without(tasks: seq<Task>, i: nat): seq<Task>
    requires i < |tasks|
  {
    tasks[..i] + tasks[i + 1..]
  }

  function Record(q: State, thread: nat, h: Histogram): State
    requires thread < |q.locals|
  {
    q.(locals := q.locals[thread := q.locals[thread] + h])
  }

  /** The producer makes a task for the next root. */
  ghost predicate SpawnRoot(c: Config, q: State, r: State) {
    q.nextRoot < c.g.Order() && r == q.(nextRoot := q.nextRoot + 1, tasks := q.tasks + [Waiting([q.nextRoot])])
  }

  /** A serial search begins with the row of its path unread. */
  function FirstStack(s: Search, path: seq<nat>): Stack
    requires s.Valid() && s.IsPath(path)
  {
    Stack(path, seq(|path|, _ => s.First(path)))
  }

  /** A thread takes a waiting task: at the cutoff it starts the serial search, before that the row. */
  ghost predicate StartTask(c: Config, q: State, r: State, i: nat, thread: nat)
    requires Ok(c, q) && i < |q.tasks| && thread < c.threads
  {
    var t := q.tasks[i];
    && TaskOk(c, t) && t.Waiting?
    && var s := SearchOf(c, t.path);
       if |t.path| >= c.cutoff then r == q.(tasks := q.tasks[i := Counting(t.path, FirstStack(s, t.path), thread)])
       else r == q.(tasks := q.tasks[i := Active(t.path, s.First(t.path), thread)])
  }

  /** An active task handles one slot: it records a closed cycle, spawns a task, or skips. */
  ghost predicate AdvanceTask(c: Config, q: State, r: State, i: nat)
    requires Ok(c, q) && i < |q.tasks|
  {
    var t := q.tasks[i];
    && TaskOk(c, t) && t.Active?
    && var s := SearchOf(c, t.path);
       if t.slot == s.Limit(t.path) then r == q.(tasks := Without(q.tasks, i))
       else
         var moved := q.(tasks := q.tasks[i := Active(t.path, t.slot + 1, t.thread)]);
         if Closes(s, t.path, t.slot) then r == Record(moved, t.thread, multiset{|t.path|})
         else if Descends(s, t.path, t.slot) then
           r == moved.(tasks := moved.tasks + [Waiting(t.path + [s.g.targets[t.slot]])])
         else r == moved
  }

  /** A counting task makes one step of its serial search, or is finished and goes. */
  ghost predicate CountTask(c: Config, q: State, r: State, i: nat)
    requires Ok(c, q) && i < |q.tasks|
  {
    var t := q.tasks[i];
    && TaskOk(c, t) && t.Counting?
    && var s := SearchOf(c, t.path);
       if |t.stack.path| < |t.path| then r == q.(tasks := Without(q.tasks, i))
       else
         PopOk(s, t.stack, |t.path| - 1);
         var (next, length) := Step(s, t.stack);
         r == Record(q.(tasks := q.tasks[i := Counting(t.path, next, t.thread)]), t.thread, Recorded(length))
  }

  ghost predicate Next(c: Config, q: State, r: State) {
    Ok(c, q) &&
    (SpawnRoot(c, q, r)
     || (exists i, thread :: 0 <= i < |q.tasks| && 0 <= thread < c.threads && StartTask(c, q, r, i, thread))
     || (exists i :: 0 <= i < |q.tasks| && AdvanceTask(c, q, r, i))
     || (exists i :: 0 <= i < |q.tasks| && CountTask(c, q, r, i)))
  }

  ghost predicate Init(c: Config, q: State) {
    c.Valid() && q == State(0, [], seq(c.threads, _ => multiset{}))
  }

  // ---- Conservation ----

  ghost function TaskOwes(c: Config, t: Task): Histogram
    requires c.Valid()
  {
    if !TaskOk(c, t) then multiset{}
    else
      match t
      case Waiting(path) => Subtree(SearchOf(c, path), path)
      case Active(path, slot, _) => Owed(SearchOf(c, path), path, slot)
      case Counting(path, stack, _) => Pending(SearchOf(c, path), stack, |path| - 1)
  }

  ghost function TasksOwe(c: Config, tasks: seq<Task>): Histogram
    requires c.Valid()
  {
    if tasks == [] then multiset{} else TasksOwe(c, tasks[..|tasks| - 1]) + TaskOwes(c, tasks[|tasks| - 1])
  }

  lemma TasksOweSnoc(c: Config, tasks: seq<Task>, t: Task)
    requires c.Valid()
    ensures TasksOwe(c, tasks + [t]) == TasksOwe(c, tasks) + TaskOwes(c, t)
  {
    assert (tasks + [t])[..|tasks|] == tasks;
  }

  lemma {:induction false} TasksOweWithout(c: Config, tasks: seq<Task>, i: nat)
    requires c.Valid() && i < |tasks|
    ensures TasksOwe(c, tasks) == TasksOwe(c, Without(tasks, i)) + TaskOwes(c, tasks[i])
  {
    hide TaskOwes, TasksOwe, Config.Valid;
    var last := |tasks| - 1;
    var front := tasks[..last];
    assert front + [tasks[last]] == tasks;
    TasksOweSnoc(c, front, tasks[last]);
    if i < last {
      TasksOweWithout(c, front, i);
      assert Without(tasks, i) == Without(front, i) + [tasks[last]];
      TasksOweSnoc(c, Without(front, i), tasks[last]);
    } else {
      assert Without(tasks, i) == front;
    }
  }

  lemma TasksOweUpdate(c: Config, tasks: seq<Task>, i: nat, t: Task)
    requires c.Valid() && i < |tasks|
    ensures TasksOwe(c, tasks[i := t]) == TasksOwe(c, Without(tasks, i)) + TaskOwes(c, t)
  {
    TasksOweWithout(c, tasks[i := t], i);
    assert Without(tasks[i := t], i) == Without(tasks, i);
  }

  /** Recorded plus owed counts are those of the roots with a task. */
  ghost predicate Inv(c: Config, q: State) {
    Ok(c, q) && Merged(q.locals) + TasksOwe(c, q.tasks) == StaticBefore(c.g, c.cap, q.nextRoot)
  }

  lemma SpawnKeepsInv(c: Config, q: State, r: State)
    requires Inv(c, q) && SpawnRoot(c, q, r)
    ensures Inv(c, r)
  {
    TasksOweSnoc(c, q.tasks, Waiting([q.nextRoot]));
    assert TaskOk(c, Waiting([q.nextRoot]));
  }

  lemma StartKeepsInv(c: Config, q: State, r: State, i: nat, thread: nat)
    requires Inv(c, q) && i < |q.tasks| && thread < c.threads && StartTask(c, q, r, i, thread)
    ensures Inv(c, r)
  {
    hide TasksOwe, Merged, StaticBefore;
    var t := q.tasks[i];
    var s := SearchOf(c, t.path);
    TasksOweWithout(c, q.tasks, i);
    if |t.path| >= c.cutoff {
      StartOk(s, FirstStack(s, t.path), |t.path| - 1);
      TasksOweUpdate(c, q.tasks, i, Counting(t.path, FirstStack(s, t.path), thread));
    } else {
      TasksOweUpdate(c, q.tasks, i, Active(t.path, s.First(t.path), thread));
    }
  }

  lemma SameLength(s: Search, st: Stack, floor: nat)
    requires StackOk(s, st, floor)
    ensures |st.cursors| == |st.path| && (|st.path| <= floor ==> Pending(s, st, floor) == multiset{})
  {
  }

  /** A step of the serial search conserves recorded plus owed counts of its task. */
  lemma CountConserves(c: Config, t: Task)
    requires c.Valid() && TaskOk(c, t) && t.Counting? && |t.stack.path| >= |t.path|
    ensures var s := SearchOf(c, t.path);
            && |t.stack.cursors| == |t.stack.path| && AtSlot(s, t.stack.path, t.stack.cursors[|t.stack.path| - 1])
            && var (next, length) := Step(s, t.stack);
               && TaskOk(c, Counting(t.path, next, t.thread))
               && TaskOwes(c, t) == Recorded(length) + TaskOwes(c, Counting(t.path, next, t.thread))
  {
    hide Step, Pending, PendingSteps, StackOk;
    SameLength(SearchOf(c, t.path), t.stack, |t.path| - 1);
    StepConserves(SearchOf(c, t.path), t.stack, |t.path| - 1);
  }

  lemma MoveRecorded(merged: Histogram, rest: Histogram, recorded: Histogram, left: Histogram)
    ensures merged + (rest + (recorded + left)) == (merged + recorded) + (rest + left)
  {
  }

  lemma CountKeepsInv(c: Config, q: State, r: State, i: nat)
    requires Inv(c, q) && i < |q.tasks| && CountTask(c, q, r, i)
    ensures Inv(c, r)
  {
    hide TasksOwe, Merged, StaticBefore, Step, StackOk, Pending;
    var t := q.tasks[i];
    TasksOweWithout(c, q.tasks, i);
    SameLength(SearchOf(c, t.path), t.stack, |t.path| - 1);
    if |t.stack.path| >= |t.path| {
      CountConserves(c, t);
      hide TaskOwes, TaskOk;
      var (next, length) := Step(SearchOf(c, t.path), t.stack);
      var rest := TasksOwe(c, Without(q.tasks, i));
      TasksOweUpdate(c, q.tasks, i, Counting(t.path, next, t.thread));
      MergedUpdate(q.locals, t.thread, Recorded(length));
      MoveRecorded(Merged(q.locals), rest, Recorded(length), TaskOwes(c, Counting(t.path, next, t.thread)));
    }
  }

  lemma AdvanceKeepsInv(c: Config, q: State, r: State, i: nat)
    requires Inv(c, q) && i < |q.tasks| && AdvanceTask(c, q, r, i)
    ensures Inv(c, r)
  {
    hide TasksOwe, Merged, StaticBefore, Owed, Subtree, Branch, StackOk;
    var t := q.tasks[i];
    var s := SearchOf(c, t.path);
    TasksOweWithout(c, q.tasks, i);
    RowStarts(s, t.path);
    if t.slot < s.Limit(t.path) {
      RowGoesOn(s, t.path, t.slot);
      var moved := q.tasks[i := Active(t.path, t.slot + 1, t.thread)];
      TasksOweUpdate(c, q.tasks, i, Active(t.path, t.slot + 1, t.thread));
      SlotOutcome(s, t.path, t.slot);
      if Closes(s, t.path, t.slot) {
        MergedUpdate(q.locals, t.thread, multiset{|t.path|});
      } else if Descends(s, t.path, t.slot) {
        TasksOweSnoc(c, moved, Waiting(t.path + [s.g.targets[t.slot]]));
      }
    }
  }

  lemma NextKeepsInv(c: Config, q: State, r: State)
    requires Inv(c, q) && Next(c, q, r)
    ensures Inv(c, r)
  {
    hide Inv;
    if SpawnRoot(c, q, r) {
      SpawnKeepsInv(c, q, r);
    } else if i, thread :| 0 <= i < |q.tasks| && 0 <= thread < c.threads && StartTask(c, q, r, i, thread) {
      StartKeepsInv(c, q, r, i, thread);
    } else if i :| 0 <= i < |q.tasks| && AdvanceTask(c, q, r, i) {
      AdvanceKeepsInv(c, q, r, i);
    } else {
      var i :| 0 <= i < |q.tasks| && CountTask(c, q, r, i);
      CountKeepsInv(c, q, r, i);
    }
  }

  // ---- Runs ----

  ghost predicate IsRun(c: Config, run: seq<State>) {
    && 0 < |run| && Init(c, run[0])
    && forall i :: 0 < i < |run| ==> StepAt(c, run, i)
  }

  ghost predicate StepAt(c: Config, run: seq<State>, i: nat)
    requires 0 < i < |run|
  {
    Next(c, run[i - 1], run[i])
  }

  lemma {:induction false} RunKeepsInv(c: Config, run: seq<State>, i: nat)
    requires IsRun(c, run) && i < |run|
    ensures Inv(c, run[i])
  {
    hide Inv, Next, Init;
    if i == 0 {
      InitHasInv(c, run[0]);
    } else {
      RunKeepsInv(c, run, i - 1);
      assert StepAt(c, run, i);
      NextKeepsInv(c, run[i - 1], run[i]);
    }
  }

  lemma InitHasInv(c: Config, q: State)
    requires Init(c, q)
    ensures Inv(c, q)
  {
    MergedEmpty(c.threads);
  }

  /** A task's path is no longer than the cutoff; shorter ones spawn, and those of the cutoff length search. */
  ghost predicate AboveCutoff(c: Config, tasks: seq<Task>) {
    forall t :: t in tasks ==>
      && |t.path| <= c.cutoff && (t.Active? ==> |t.path| < c.cutoff) && (t.Counting? ==> |t.path| == c.cutoff)
  }

  lemma StartsAboveCutoff(c: Config, q: State, r: State, i: nat, thread: nat)
    requires Ok(c, q) && i < |q.tasks| && thread < c.threads && AboveCutoff(c, q.tasks) && StartTask(c, q, r, i, thread)
    ensures AboveCutoff(c, r.tasks)
  {
    hide Ok, TaskOk;
    assert q.tasks[i] in q.tasks;
    forall t | t in r.tasks ensures t == r.tasks[i] || t in q.tasks {}
  }

  lemma AdvancesAboveCutoff(c: Config, q: State, r: State, i: nat)
    requires Ok(c, q) && i < |q.tasks| && AboveCutoff(c, q.tasks) && AdvanceTask(c, q, r, i)
    ensures AboveCutoff(c, r.tasks)
  {
    hide Ok, Closes, Descends;
    var t := q.tasks[i];
    assert t in q.tasks;
    forall x | x in r.tasks
      ensures x in q.tasks || x == Active(t.path, t.slot + 1, t.thread) || (x.Waiting? && |x.path| == |t.path| + 1) {}
  }

  lemma CountsAboveCutoff(c: Config, q: State, r: State, i: nat)
    requires Ok(c, q) && i < |q.tasks| && AboveCutoff(c, q.tasks) && CountTask(c, q, r, i)
    ensures AboveCutoff(c, r.tasks)
  {
    hide Ok, StackOk, Step;
    var t := q.tasks[i];
    assert t in q.tasks;
    forall x | x in r.tasks ensures x in q.tasks || (x.Counting? && x.path == t.path) {}
  }

  lemma NextAboveCutoff(c: Config, q: State, r: State)
    requires AboveCutoff(c, q.tasks) && Next(c, q, r)
    ensures AboveCutoff(c, r.tasks)
  {
    hide StartTask, AdvanceTask, CountTask, TaskOk;
    if SpawnRoot(c, q, r) {
      forall t | t in r.tasks ensures t in q.tasks || t == Waiting([q.nextRoot]) {}
    } else if i, thread :| 0 <= i < |q.tasks| && 0 <= thread < c.threads && StartTask(c, q, r, i, thread) {
      StartsAboveCutoff(c, q, r, i, thread);
    } else if i :| 0 <= i < |q.tasks| && AdvanceTask(c, q, r, i) {
      AdvancesAboveCutoff(c, q, r, i);
    } else {
      var i :| 0 <= i < |q.tasks| && CountTask(c, q, r, i);
      CountsAboveCutoff(c, q, r, i);
    }
  }

  /** So along every run exactly the branches above the cutoff become tasks of their own. */
  lemma {:induction false} TasksStayAboveCutoff(c: Config, run: seq<State>, i: nat)
    requires IsRun(c, run) && i < |run|
    ensures forall t :: t in run[i].tasks ==>
              |t.path| <= c.cutoff && (t.Active? ==> |t.path| < c.cutoff) && (t.Counting? ==> |t.path| == c.cutoff)
  {
    hide Next;
    if i > 0 {
      TasksStayAboveCutoff(c, run, i - 1);
      assert StepAt(c, run, i);
      NextAboveCutoff(c, run[i - 1], run[i]);
    }
  }

  /** Whatever the schedule and the cutoff, the merged histograms are the serial count. */
  lemma FinishedRunCounts(c: Config, run: seq<State>)
    requires IsRun(c, run)
    requires run[|run| - 1].tasks == [] && run[|run| - 1].nextRoot == c.g.Order()
    ensures c.Valid() && Merged(run[|run| - 1].locals) == StaticBefore(c.g, c.cap, c.g.Order())
  {
    RunKeepsInv(c, run, |run| - 1);
  }

  /** Until the count is complete some step is possible. */
  lemma NoDeadlock(c: Config, q: State)
    requires Inv(c, q)
    ensures (q.tasks == [] && q.nextRoot == c.g.Order()) || exists r :: Next(c, q, r)
  {
    if q.nextRoot < c.g.Order() {
      var r := q.(nextRoot := q.nextRoot + 1, tasks := q.tasks + [Waiting([q.nextRoot])]);
      assert SpawnRoot(c, q, r) && Next(c, q, r);
    } else if q.tasks != [] {
      assert TaskOk(c, q.tasks[0]);
      match q.tasks[0] {
        case Waiting(_) => StartPossible(c, q);
        case Active(_, _, _) => AdvancePossible(c, q);
        case Counting(_, _, _) => CountPossible(c, q);
      }
    }
  }

  lemma StartPossible(c: Config, q: State)
    requires Ok(c, q) && q.tasks != [] && q.tasks[0].Waiting?
    ensures exists r :: Next(c, q, r)
  {
    var t := q.tasks[0];
    assert TaskOk(c, t);
    var s := SearchOf(c, t.path);
    var r := if |t.path| >= c.cutoff then q.(tasks := q.tasks[0 := Counting(t.path, FirstStack(s, t.path), 0)])
             else q.(tasks := q.tasks[0 := Active(t.path, s.First(t.path), 0)]);
    assert StartTask(c, q, r, 0, 0);
    assert Next(c, q, r);
  }

  lemma AdvancePossible(c: Config, q: State)
    requires Ok(c, q) && q.tasks != [] && q.tasks[0].Active?
    ensures exists r :: Next(c, q, r)
  {
    var t := q.tasks[0];
    assert TaskOk(c, t);
    var s := SearchOf(c, t.path);
    var r;
    if t.slot == s.Limit(t.path) {
      r := q.(tasks := Without(q.tasks, 0));
    } else {
      var moved := q.(tasks := q.tasks[0 := Active(t.path, t.slot + 1, t.thread)]);
      r := if Closes(s, t.path, t.slot) then Record(moved, t.thread, multiset{|t.path|})
           else if Descends(s, t.path, t.slot) then moved.(tasks := moved.tasks + [Waiting(t.path + [s.g.targets[t.slot]])])
           else moved;
    }
    assert AdvanceTask(c, q, r, 0);
    assert Next(c, q, r);
  }

  lemma CountPossible(c: Config, q: State)
    requires Ok(c, q) && q.tasks != [] && q.tasks[0].Counting?
    ensures exists r :: Next(c, q, r)
  {
    var t := q.tasks[0];
    assert TaskOk(c, t);
    var s := SearchOf(c, t.path);
    if |t.stack.path| < |t.path| {
      var r := q.(tasks := Without(q.tasks, 0));
      assert CountTask(c, q, r, 0) && Next(c, q, r);
    } else {
      PopOk(s, t.stack, |t.path| - 1);
      var (next, length) := Step(s, t.stack);
      var r := Record(q.(tasks := q.tasks[0 := Counting(t.path, next, t.thread)]), t.thread, Recorded(length));
      assert CountTask(c, q, r, 0) && Next(c, q, r);
    }
  }

  // ---- Every run ends ----

  ghost function TaskWork(c: Config, t: Task): nat
    requires c.Valid()
  {
    if !TaskOk(c, t) then 0
    else
      var s := SearchOf(c, t.path);
      match t
      case Waiting(path) => 2 * Steps(s, path, s.First(path)) + 1
      case Active(path, slot, _) => 2 * Steps(s, path, slot)
      case Counting(path, stack, _) => PendingSteps(s, stack, |path| - 1) + 1
  }

  ghost function TasksWork(c: Config, tasks: seq<Task>): nat
    requires c.Valid()
  {
    if tasks == [] then 0 else TasksWork(c, tasks[..|tasks| - 1]) + TaskWork(c, tasks[|tasks| - 1])
  }

  ghost function RootsWork(c: Config, root: nat): nat
    requires c.Valid() && root <= c.g.Order()
    decreases c.g.Order() - root
  {
    if root == c.g.Order() then 0 else TaskWork(c, Waiting([root])) + 1 + RootsWork(c, root + 1)
  }

  ghost function Work(c: Config, q: State): nat
    requires Ok(c, q)
  {
    TasksWork(c, q.tasks) + RootsWork(c, q.nextRoot)
  }

  lemma TasksWorkSnoc(c: Config, tasks: seq<Task>, t: Task)
    requires c.Valid()
    ensures TasksWork(c, tasks + [t]) == TasksWork(c, tasks) + TaskWork(c, t)
  {
    assert (tasks + [t])[..|tasks|] == tasks;
  }

  lemma {:induction false} TasksWorkWithout(c: Config, tasks: seq<Task>, i: nat)
    requires c.Valid() && i < |tasks|
    ensures TasksWork(c, tasks) == TasksWork(c, Without(tasks, i)) + TaskWork(c, tasks[i])
  {
    hide TaskWork;
    var last := |tasks| - 1;
    if i < last {
      TasksWorkWithout(c, tasks[..last], i);
      assert Without(tasks, i) == Without(tasks[..last], i) + [tasks[last]];
      TasksWorkSnoc(c, Without(tasks[..last], i), tasks[last]);
    } else {
      assert Without(tasks, i) == tasks[..last];
    }
  }

  lemma TasksWorkUpdate(c: Config, tasks: seq<Task>, i: nat, t: Task)
    requires c.Valid() && i < |tasks|
    ensures TasksWork(c, tasks[i := t]) == TasksWork(c, Without(tasks, i)) + TaskWork(c, t)
  {
    TasksWorkWithout(c, tasks[i := t], i);
    assert Without(tasks[i := t], i) == Without(tasks, i);
  }

  lemma SpawnWorks(c: Config, q: State, r: State)
    requires Inv(c, q) && Inv(c, r) && SpawnRoot(c, q, r)
    ensures Work(c, r) < Work(c, q)
  {
    TasksWorkSnoc(c, q.tasks, Waiting([q.nextRoot]));
  }

  lemma StartWorks(c: Config, q: State, r: State, i: nat, thread: nat)
    requires Inv(c, q) && Inv(c, r) && i < |q.tasks| && thread < c.threads && StartTask(c, q, r, i, thread)
    ensures Work(c, r) < Work(c, q)
  {
    hide TasksWork, TasksOwe, Merged, StaticBefore;
    var t := q.tasks[i];
    var s := SearchOf(c, t.path);
    TasksWorkWithout(c, q.tasks, i);
    StartOk(s, FirstStack(s, t.path), |t.path| - 1);
    TasksWorkUpdate(c, q.tasks, i, r.tasks[i]);
  }

  lemma CountWorks(c: Config, q: State, r: State, i: nat)
    requires Inv(c, q) && Inv(c, r) && i < |q.tasks| && CountTask(c, q, r, i)
    ensures Work(c, r) < Work(c, q)
  {
    hide TasksWork, TasksOwe, Merged, StaticBefore, StackOk, Step;
    var t := q.tasks[i];
    TasksWorkWithout(c, q.tasks, i);
    if |t.stack.path| >= |t.path| {
      StepConserves(SearchOf(c, t.path), t.stack, |t.path| - 1);
      TasksWorkUpdate(c, q.tasks, i, r.tasks[i]);
    }
  }

  lemma AdvanceWorks(c: Config, q: State, r: State, i: nat)
    requires Inv(c, q) && Inv(c, r) && i < |q.tasks| && AdvanceTask(c, q, r, i)
    ensures Work(c, r) < Work(c, q)
  {
    hide TasksWork, TasksOwe, Merged, StaticBefore;
    var t := q.tasks[i];
    var s := SearchOf(c, t.path);
    TasksWorkWithout(c, q.tasks, i);
    if t.slot < s.Limit(t.path) {
      var moved := Active(t.path, t.slot + 1, t.thread);
      TasksWorkUpdate(c, q.tasks, i, moved);
      SlotOutcome(s, t.path, t.slot);
      if Descends(s, t.path, t.slot) && !Closes(s, t.path, t.slot) {
        TasksWorkSnoc(c, q.tasks[i := moved], Waiting(t.path + [s.g.targets[t.slot]]));
      }
    }
  }

  /** Every step uses up work, so no run is longer than the work of its first state allows. */
  lemma {:induction false} RunsEnd(c: Config, run: seq<State>, i: nat)
    requires IsRun(c, run) && i < |run|
    ensures Ok(c, run[0]) && Ok(c, run[i]) && i + Work(c, run[i]) <= Work(c, run[0])
  {
    hide StaticBefore, TasksOwe, Merged, Work, Next, Init, TaskOk;
    RunKeepsInv(c, run, 0);
    RunKeepsInv(c, run, i);
    if i > 0 {
      RunsEnd(c, run, i - 1);
      RunKeepsInv(c, run, i - 1);
      assert StepAt(c, run, i);
      NextWorks(c, run[i - 1], run[i]);
    }
  }

  lemma NextWorks(c: Config, q: State, r: State)
    requires Inv(c, q) && Inv(c, r) && Next(c, q, r)
    ensures Work(c, r) < Work(c, q)
  {
    hide Inv, Work;
    if SpawnRoot(c, q, r) {
      SpawnWorks(c, q, r);
    } else if i, thread :| 0 <= i < |q.tasks| && 0 <= thread < c.threads && StartTask(c, q, r, i, thread) {
      StartWorks(c, q, r, i, thread);
    } else if i :| 0 <= i < |q.tasks| && AdvanceTask(c, q, r, i) {
      AdvanceWorks(c, q, r, i);
    } else {
      var i :| 0 <= i < |q.tasks| && CountTask(c, q, r, i);
      CountWorks(c, q, r, i);
    }
  }

  lemma RunGoesOn(c: Config, run: seq<State>, r: State)
    requires IsRun(c, run) && Next(c, run[|run| - 1], r)
    ensures IsRun(c, run + [r])
  {
    hide Next, Init;
    var longer := run + [r];
    forall i | 0 < i < |longer| ensures StepAt(c, longer, i) {
      if i < |run| { assert StepAt(c, run, i); }
    }
  }

  /** Every run can be continued until no task is left. */
  lemma {:induction false} RunsCanFinish(c: Config, run: seq<State>) returns (more: seq<State>)
    requires IsRun(c, run) && Ok(c, run[|run| - 1])
    ensures IsRun(c, more) && run <= more
    ensures more[|more| - 1].tasks == [] && more[|more| - 1].nextRoot == c.g.Order()
    decreases Work(c, run[|run| - 1])
  {
    hide Next, Work, Init, Merged, TasksOwe, StaticBefore, TaskOk;
    var q := run[|run| - 1];
    RunKeepsInv(c, run, |run| - 1);
    if q.tasks == [] && q.nextRoot == c.g.Order() {
      return run;
    }
    NoDeadlock(c, q);
    var r :| Next(c, q, r);
    NextKeepsInv(c, q, r);
    NextWorks(c, q, r);
    RunGoesOn(c, run, r);
    more := RunsCanFinish(c, run + [r]);
  }
}
