/**
 * The kernels as the host launches them: which jobs a launch carries, how many blocks it gets, and what
 * the host reads back.
 */
module DeviceLaunch {
  import opened BlockProtocol
  import opened CsrGraphs
  import opened CycleSearch
  import opened CycleTotals
  import opened CycleUnions
  import opened Jobs
  import opened StartEvents
  import opened Sums
  import opened TemporalTotals
  import opened WorkItems
  import SliceProtocol
  import SliceRuns
  import StackMachine
  import TemporalKernel
  import TemporalSearch
  import TemporalStack

  // ---- The device ----

  /** Some run of the launch on shared memory finishes with these bins. */
  ghost predicate Outcome(c: Config, bins: seq<nat>) {
    exists run: seq<SliceProtocol.Device> :: SliceRuns.IsFinishedRun(c, run) && run[|run| - 1].global == bins
  }

  /** A device answers a launch with the bins of some finished run; its scheduler may pick any. */
  ghost predicate IsDevice(device: Config -> seq<nat>) {
    forall c: Config :: c.Valid() ==> Outcome(c, device(c))
  }

  /** Every launch has an outcome. */
  lemma OutcomeExists(c: Config) returns (bins: seq<nat>)
    requires c.Valid()
    ensures Outcome(c, bins)
  {
    var begun := SliceRuns.RunsBegin(c);
    SliceRuns.RunFits(c, begun, |begun| - 1);
    var run := SliceRuns.RunsCanFinish(c, begun);
    bins := run[|run| - 1].global;
  }

  lemma HasOutcome(c: Config)
    requires c.Valid()
    ensures exists bins :: Outcome(c, bins)
  {
    var bins := OutcomeExists(c);
  }

  ghost function SomeOutcome(c: Config): (bins: seq<nat>)
    ensures c.Valid() ==> Outcome(c, bins)
  {
    if c.Valid() then
      HasOutcome(c);
      var bins :| Outcome(c, bins);
      bins
    else []
  }

  /** So there is a device. */
  lemma DevicesExist() returns (device: Config -> seq<nat>)
    ensures IsDevice(device)
  {
    device := (c: Config) => SomeOutcome(c);
  }

  /** All outcomes of a launch are the same. */
  lemma OutcomeIsTotal(c: Config, bins: seq<nat>)
    requires Outcome(c, bins)
    ensures |bins| == c.limit + 1 && forall k :: 0 <= k <= c.limit ==> bins[k] == Total(c, k)
  {
    hide Total, SliceRuns.Begins, SliceRuns.StepAt;
    var run: seq<SliceProtocol.Device> :| SliceRuns.IsFinishedRun(c, run) && run[|run| - 1].global == bins;
    SliceRuns.FinishedRunCounts(c, run, 0);
    forall k | 0 <= k <= c.limit ensures bins[k] == Total(c, k) {
      SliceRuns.FinishedRunCounts(c, run, k);
    }
  }

  // ---- The host's side ----

  /** The bins from 2 on become the histogram; empty bins are left out. */
  method ReadBack(bins: seq<nat>) returns (histogram: Histogram)
    requires |bins| >= 2
    ensures forall k: nat :: histogram[k] == if 2 <= k < |bins| then bins[k] else 0
  {
    histogram := multiset{};
    for length := 2 to |bins|
      invariant forall k: nat :: histogram[k] == if 2 <= k < length then bins[k] else 0
    {
      if bins[length] != 0 {
        histogram := histogram[length := histogram[length] + bins[length]];
      }
    }
  }

  /** The blocks of `lanes` threads that give each of `count` jobs a thread. */
  method GridBlocks(count: nat, lanes: nat) returns (blocks: nat)
    requires lanes > 0
    ensures count <= blocks * lanes < count + lanes
  {
    blocks := (count + lanes - 1) / lanes;
    assert (count + lanes - 1) == lanes * blocks + (count + lanes - 1) % lanes;
  }

  /** The persistent launch: as many blocks as stay resident, but no more than jobs; `None` for a zero setting. */
  method PlanQueue(count: nat, lanes: nat, blocksPerUnit: nat, units: nat) returns (blocks: Option<nat>)
    ensures blocks == None <==> lanes == 0 || blocksPerUnit == 0 || units == 0
    ensures blocks.Some? ==> blocks.value <= count && blocks.value <= blocksPerUnit * units && (count > 0 ==> blocks.value > 0)
    ensures blocks.Some? ==> blocks.value == count || blocks.value == blocksPerUnit * units
  {
    if lanes == 0 || blocksPerUnit == 0 || units == 0 {
      return None;
    }
    Multiple(blocksPerUnit, units);
    if count == 0 {
      return Some(0);
    }
    var resident := blocksPerUnit * units;
    return Some(if resident < count then resident else count);
  }

  /** The bins of one launch. */
  method Launch(device: Config -> seq<nat>, c: Config) returns (histogram: Histogram)
    requires IsDevice(device) && c.Valid() && c.limit >= 2
    ensures forall k: nat :: histogram[k] == if 2 <= k <= c.limit then Total(c, k) else 0
  {
    hide Outcome, Total, JobOk;
    OutcomeIsTotal(c, device(c));
    histogram := ReadBack(device(c));
  }

  // ---- Jobs of the static kernels ----

  /** A thread's stack for one root. */
  function RootJob(g: Csr, limit: nat, root: nat): Job
    requires g.Valid() && root < g.Order()
  {
    StackJob(RootSearch(g, Some(limit), root), StackMachine.Stack([root], [g.Begin(root)]), 0)
  }

  function RootJobs(g: Csr, limit: nat): (jobs: seq<Job>)
    requires g.Valid()
  {
    seq(g.Order(), root requires 0 <= root < g.Order() => RootJob(g, limit, root))
  }

  lemma RootJobOk(g: Csr, limit: nat, root: nat)
    requires g.Valid() && root < g.Order() && limit >= 2
    ensures RootSearch(g, Some(limit), root).IsPath([root])
    ensures JobOk(RootJob(g, limit, root), limit)
    ensures Owes(RootJob(g, limit, root), limit) == Subtree(RootSearch(g, Some(limit), root), [root])
  {
    hide StackMachine.StackOk, StackMachine.Pending, Subtree;
    StackMachine.StartOk(RootSearch(g, Some(limit), root), StackMachine.Stack([root], [g.Begin(root)]), 0);
  }

  lemma {:induction false} RootsSum(f: int -> nat, g: Csr, limit: nat, n: nat, k: nat)
    requires g.Valid() && n <= g.Order()
    requires forall j :: 0 <= j < n ==> RootSearch(g, Some(limit), j).IsPath([j]) && f(j) == Subtree(RootSearch(g, Some(limit), j), [j])[k]
    ensures Sum(f, n) == StaticBefore(g, Some(limit), n)[k]
  {
    hide Subtree;
    if n > 0 {
      RootsSum(f, g, limit, n - 1, k);
    }
  }

  /** A launch with one job per root, by queue or one thread each, totals to the static histogram. */
  lemma RootsTotal(g: Csr, c: Config, k: nat)
    requires g.Valid() && c.limit >= 2 && c.jobs == RootJobs(g, c.limit)
    ensures Total(c, k) == StaticBefore(g, Some(c.limit), g.Order())[k]
  {
    hide JobOk, Owes, Subtree, StaticBefore;
    var none := seq(|c.jobs|, _ => None);
    var f: int -> nat := j => OpenOwes(c, none, j, k);
    forall j | 0 <= j < g.Order()
      ensures RootSearch(g, Some(c.limit), j).IsPath([j]) && f(j) == Subtree(RootSearch(g, Some(c.limit), j), [j])[k]
    {
      RootJobOk(g, c.limit, j);
    }
    RootsSum(f, g, c.limit, g.Order(), k);
  }

  /** The static histogram has no lengths outside the bins. */
  lemma {:induction false} StaticBounds(g: Csr, limit: nat, n: nat, k: nat)
    requires g.Valid() && n <= g.Order() && limit >= 2 && k in StaticBefore(g, Some(limit), n)
    ensures 2 <= k <= limit
  {
    if k in StaticBefore(g, Some(limit), n - 1) {
      StaticBounds(g, limit, n - 1, k);
    } else {
      var s := RootSearch(g, Some(limit), n - 1);
      OwedBounds(s, [n - 1], s.First([n - 1]), k);
    }
  }

  /** One launch over the roots. */
  method LaunchRoots(device: Config -> seq<nat>, g: Csr, cap: nat, queue: bool, blocks: nat, lanes: nat) returns (histogram: Histogram)
    requires IsDevice(device) && g.Valid() && cap >= 2 && blocks > 0 && lanes > 0 && (!queue ==> g.Order() <= blocks * lanes)
    ensures histogram == StaticBefore(g, Some(cap), g.Order())
  {
    hide JobOk, Outcome, Total, StaticBefore, Owes;
    var c := Config(RootJobs(g, cap), queue, cap, blocks, lanes);
    forall j | 0 <= j < |c.jobs| ensures JobOk(c.jobs[j], cap) {
      RootJobOk(g, cap, j);
    }
    histogram := Launch(device, c);
    forall k: nat ensures histogram[k] == StaticBefore(g, Some(cap), g.Order())[k] {
      RootsTotal(g, c, k);
      if k in StaticBefore(g, Some(cap), g.Order()) {
        StaticBounds(g, cap, g.Order(), k);
      }
    }
  }

  lemma {:induction false} NoEdgesNoCycles(g: Csr, cap: Option<nat>, n: nat)
    requires g.Valid() && n <= g.Order() && (n == 0 || |g.targets| == 0)
    ensures StaticBefore(g, cap, n) == multiset{}
  {
    if n > 0 {
      NoEdgesNoCycles(g, cap, n - 1);
    }
  }

  /** The fixed launch: one thread per root; `None` for a cap below 2. */
  method CountSimpleCycles(device: Config -> seq<nat>, g: Csr, cap: nat) returns (r: Option<Histogram>)
    requires IsDevice(device) && g.Valid()
    ensures r == if cap < 2 then None else Some(StaticBefore(g, Some(cap), g.Order()))
  {
    if cap < 2 {
      return None;
    }
    if g.Order() == 0 || |g.targets| == 0 {
      NoEdgesNoCycles(g, Some(cap), g.Order());
      return Some(multiset{});
    }
    var blocks := GridBlocks(g.Order(), BLOCK_SIZE);
    var histogram := LaunchRoots(device, g, cap, false, blocks, BLOCK_SIZE);
    return Some(histogram);
  }

  const BLOCK_SIZE: nat := 128

  /** The persistent launch; `None` for a cap below 2 or, when there is an edge, a zero setting. */
  method CountSimpleCyclesQueue(device: Config -> seq<nat>, g: Csr, cap: nat, lanes: nat, blocksPerUnit: nat, units: nat)
    returns (r: Option<Histogram>)
    requires IsDevice(device) && g.Valid()
    ensures r == if cap < 2 || (|g.targets| > 0 && (lanes == 0 || blocksPerUnit == 0 || units == 0)) then None
                 else Some(StaticBefore(g, Some(cap), g.Order()))
  {
    if cap < 2 {
      return None;
    }
    assert |g.targets| > 0 ==> g.targets[0] < g.Order();
    if g.Order() == 0 || |g.targets| == 0 {
      NoEdgesNoCycles(g, Some(cap), g.Order());
      return Some(multiset{});
    }
    var blocks := PlanQueue(g.Order(), lanes, blocksPerUnit, units);
    if blocks == None {
      return None;
    }
    var histogram := LaunchRoots(device, g, cap, true, blocks.value, lanes);
    return Some(histogram);
  }

  // ---- Jobs of the event kernels ----

  /** A window without an end holds no timestamp, as a window of negative width. */
  function WidthOnDevice(start: int, width: int): int {
    if NoWindow(start, width) then -1 else width
  }

  /** A thread's stack for one start event of the time-window kernel. */
  function WindowJob(g: Csr, times: seq<seq<int>>, width: int, limit: nat, e: StartEvent): Job
    requires Timed(g, times) && EventInRange(g, e)
  {
    StackJob(EventSearch(g, times, WidthOnDevice(e.start, width), Some(limit), e),
             StackMachine.Stack([e.root, e.first], [g.Begin(e.first), g.Begin(e.first)]), 1)
  }

  lemma WindowJobOk(g: Csr, times: seq<seq<int>>, width: int, limit: nat, e: StartEvent)
    requires Timed(g, times) && EventInRange(g, e) && limit >= 2
    ensures JobOk(WindowJob(g, times, width, limit, e), limit)
    ensures Owes(WindowJob(g, times, width, limit, e), limit) == Fitting(WindowTally(g, times, width, Some(limit)), width)(e)
    ensures forall k :: k in Fitting(WindowTally(g, times, width, Some(limit)), width)(e) ==> 2 <= k <= limit
  {
    hide StackMachine.StackOk, StackMachine.Pending;
    var s := EventSearch(g, times, WidthOnDevice(e.start, width), Some(limit), e);
    StackMachine.StartOk(s, StackMachine.Stack([e.root, e.first], [g.Begin(e.first), g.Begin(e.first)]), 1);
    if NoWindow(e.start, width) {
      NothingInWindow(s, [e.root, e.first], g.Begin(e.first));
    }
    forall k | k in Subtree(s, [e.root, e.first]) ensures 2 <= k <= limit {
      OwedBounds(s, [e.root, e.first], g.Begin(e.first), k);
    }
  }

  lemma {:induction false} NothingInWindow(s: Search, p: seq<nat>, slot: nat)
    requires AtSlot(s, p, slot) && s.rule.InWindow? && s.rule.width < 0
    ensures Owed(s, p, slot) == multiset{}
    decreases s.Limit(p) - slot
  {
    if slot < s.Limit(p) {
      NothingInWindow(s, p, slot + 1);
    }
  }

  /** A thread's stack for one start event of the temporal kernel; without a window end it is finished at once. */
  function EventJob(g: Csr, times: seq<seq<int>>, width: int, limit: nat, e: StartEvent): Job
    requires TimesSorted(g, times) && EventInRange(g, e)
  {
    var s := TemporalSearch.Temporal(g, times, e.root, e.start + width, Some(limit));
    if NoWindow(e.start, width) then TemporalJob(s, TemporalStack.Stack([], []), 0)
    else TemporalJob(s, TemporalKernel.StartStack(s, e.first, e.start), 1)
  }

  lemma EventJobOk(g: Csr, times: seq<seq<int>>, width: int, limit: nat, e: StartEvent)
    requires TimesSorted(g, times) && EventInRange(g, e) && limit >= 2
    ensures JobOk(EventJob(g, times, width, limit, e), limit)
    ensures Owes(EventJob(g, times, width, limit, e), limit) == Fitting(TemporalTally(g, times, width, Some(limit)), width)(e)
    ensures forall k :: k in Fitting(TemporalTally(g, times, width, Some(limit)), width)(e) ==> 2 <= k <= limit
  {
    hide TemporalStack.StackOk, TemporalStack.Pending, TemporalSearch.Subtree;
    var s := TemporalSearch.Temporal(g, times, e.root, e.start + width, Some(limit));
    EventBounds(g, times, width, limit, e);
    EmptyStack(s);
    TemporalKernel.StartOk(s, e.first, e.start);
  }

  lemma EventBounds(g: Csr, times: seq<seq<int>>, width: int, limit: nat, e: StartEvent)
    requires TimesSorted(g, times) && EventInRange(g, e) && limit >= 2
    ensures forall k :: k in TemporalTally(g, times, width, Some(limit))(e) ==> 2 <= k <= limit
  {
    var s := TemporalSearch.Temporal(g, times, e.root, e.start + width, Some(limit));
    forall k | k in TemporalTally(g, times, width, Some(limit))(e) ensures 2 <= k <= limit {
      TemporalSearch.OwedBounds(s, [e.root, e.first], e.start, g.Begin(e.first), k);
    }
  }

  lemma EmptyStack(s: TemporalSearch.Temporal)
    requires s.Valid()
    ensures TemporalStack.StackOk(s, TemporalStack.Stack([], []), 0)
    ensures TemporalStack.Pending(s, TemporalStack.Stack([], []), 0) == multiset{}
  {
  }

  /** Job `j` of the launch is a stack that owes what event `j` yields, in the bins of the launch. */
  ghost predicate JobsOf(c: Config, tally: StartEvent -> Histogram, events: seq<StartEvent>) {
    && |c.jobs| == |events|
    && forall j :: 0 <= j < |events| ==>
         && JobOk(c.jobs[j], c.limit) && Owes(c.jobs[j], c.limit) == tally(events[j])
         && forall k :: k in tally(events[j]) ==> 2 <= k <= c.limit
  }

  lemma {:induction false} ListedSum(f: int -> nat, tally: StartEvent -> Histogram, events: seq<StartEvent>, k: nat)
    requires forall j :: 0 <= j < |events| ==> f(j) == tally(events[j])[k]
    ensures Sum(f, |events|) == ListSum(tally, events)[k]
  {
    if events != [] {
      ListedSum(f, tally, events[..|events| - 1], k);
    }
  }

  lemma {:induction false} ListedBounds(tally: StartEvent -> Histogram, events: seq<StartEvent>, limit: nat, k: nat)
    requires forall j :: 0 <= j < |events| ==> forall i :: i in tally(events[j]) ==> 2 <= i <= limit
    requires k in ListSum(tally, events)
    ensures 2 <= k <= limit
  {
    var front, last := events[..|events| - 1], events[|events| - 1];
    if k in ListSum(tally, front) {
      ListedBounds(tally, front, limit, k);
    } else {
      assert k in tally(events[|events| - 1]);
    }
  }

  /** A launch with one job per event totals to the sum over the events. */
  lemma EventsTotal(c: Config, tally: StartEvent -> Histogram, events: seq<StartEvent>, k: nat)
    requires JobsOf(c, tally, events)
    ensures Total(c, k) == ListSum(tally, events)[k]
  {
    hide JobOk, Owes;
    var none := seq(|c.jobs|, _ => None);
    var f: int -> nat := j => OpenOwes(c, none, j, k);
    ListedSum(f, tally, events, k);
  }

  /** One launch over start events, one thread each. */
  method LaunchEvents(device: Config -> seq<nat>, c: Config, ghost tally: StartEvent -> Histogram, ghost events: seq<StartEvent>)
    returns (histogram: Histogram)
    requires IsDevice(device) && c.Valid() && c.limit >= 2 && JobsOf(c, tally, events)
    ensures histogram == ListSum(tally, events)
  {
    hide JobOk, Outcome, Total, Owes, ListSum;
    histogram := Launch(device, c);
    forall k: nat ensures histogram[k] == ListSum(tally, events)[k] {
      EventsTotal(c, tally, events, k);
      if k in ListSum(tally, events) {
        ListedBounds(tally, events, c.limit, k);
      }
    }
  }

  /**
   * The time-window run: every start event has a thread; `None` for a negative width or a cap below 2.  An
   * event whose window has no end counts nothing, where the sequential runs refuse.
   */
  method CountTimeWindowCycles(device: Config -> seq<nat>, g: Csr, times: seq<seq<int>>, width: int, cap: nat) returns (r: Option<Histogram>)
    requires IsDevice(device) && Timed(g, times)
    ensures r == if width < 0 || cap < 2 then None
                 else Some(EventSum(Fitting(WindowTally(g, times, width, Some(cap)), width), g, times, g.Order()))
    ensures r.Some? && !(exists v, slot, j :: g.InRow(v, slot) && 0 <= j < |times[slot]| && times[slot][j] + width > 0x7FFF_FFFF_FFFF_FFFF) ==>
              r.value == WindowTotal(g, times, width, Some(cap))
  {
    hide JobOk, Owes, WindowTally, ListSum, AllEvents, Outcome, AllRun, EventsEnd, Fitting, EventSum;
    if width < 0 || cap < 2 {
      return None;
    }
    WindowsEndExactly(g, times, width);
    var events := BuildStartEvents(g, times);
    ghost var tally := WindowTally(g, times, width, Some(cap));
    SumOfFitting(tally, g, times, width);
    if events == [] {
      ListSumNone(Fitting(tally, width));
      return Some(multiset{});
    }
    forall i | 0 <= i < |events| ensures EventInRange(g, events[i]) {
      EventsInRange(g, times, g.Order(), events[i]);
    }
    var blocks := GridBlocks(|events|, BLOCK_SIZE);
    var jobs := seq(|events|, i requires 0 <= i < |events| => WindowJob(g, times, width, cap, events[i]));
    var c := Config(jobs, false, cap, blocks, BLOCK_SIZE);
    forall j | 0 <= j < |events|
      ensures JobOk(jobs[j], cap) && Owes(jobs[j], cap) == Fitting(tally, width)(events[j])
      ensures forall k :: k in Fitting(tally, width)(events[j]) ==> 2 <= k <= cap
    {
      WindowJobOk(g, times, width, cap, events[j]);
    }
    var histogram := LaunchEvents(device, c, Fitting(tally, width), events);
    return Some(histogram);
  }

  /** Over all events the threads sum to the total when every window has an end. */
  lemma SumOfFitting(tally: StartEvent -> Histogram, g: Csr, times: seq<seq<int>>, width: int)
    requires Timed(g, times)
    ensures ListSum(Fitting(tally, width), AllEvents(g, times, g.Order())) == EventSum(Fitting(tally, width), g, times, g.Order())
    ensures WindowsEnd(g, times, width) ==> EventSum(Fitting(tally, width), g, times, g.Order()) == EventSum(tally, g, times, g.Order())
  {
    hide AllRun, EventsEnd, Fitting;
    AllEventsSum(Fitting(tally, width), g, times, g.Order());
    AllEventsSum(tally, g, times, g.Order());
    AllEventsEnd(g, times, width, g.Order());
    if WindowsEnd(g, times, width) {
      FittingIsAll(tally, width, AllEvents(g, times, g.Order()));
    }
  }

  /** The kept events of a filtered run all have windows with an end, and they yield the total. */
  lemma SumOfKept(g: Csr, times: seq<seq<int>>, width: int, cap: Option<nat>)
    requires TimesSorted(g, times) && WindowsEnd(g, times, width)
    ensures var tally := TemporalTally(g, times, width, cap);
            ListSum(Fitting(tally, width), Kept(g, times, width, AllEvents(g, times, g.Order()))) == EventSum(Fitting(tally, width), g, times, g.Order())
  {
    hide AllRun, Fitting, TemporalTally, AllEvents, Kept;
    var all, tally := AllEvents(g, times, g.Order()), TemporalTally(g, times, width, cap);
    AllEventsEnd(g, times, width, g.Order());
    var kept := Kept(g, times, width, all);
    forall i | 0 <= i < |kept| ensures WindowEnds(kept[i], width) {
      assert kept[i] in kept;
      KeptExactly(g, times, width, all, kept[i]);
    }
    FittingIsAll(tally, width, kept);
    KeptLosesNothing(g, times, width, cap, all);
    AllEventsSum(tally, g, times, g.Order());
    SumOfFitting(tally, g, times, width);
  }

  /**
   * With or without the filter the device counts all temporal cycles; `None` for a negative width, a cap
   * below 2 and, with the filter, for a window without an end.
   */
  method CountTemporalCycles(device: Config -> seq<nat>, g: Csr, times: seq<seq<int>>, inG: Csr, inTimes: seq<seq<int>>, width: int, cap: nat, filter: bool)
    returns (r: Option<Histogram>)
    requires IsDevice(device) && ViewOk(g, times, inG, inTimes)
    ensures r == None <==>
            width < 0 || cap < 2 ||
            (filter && exists v, slot, j :: g.InRow(v, slot) && 0 <= j < |times[slot]| && times[slot][j] + width > 0x7FFF_FFFF_FFFF_FFFF)
    ensures r.Some? ==> r.value == EventSum(Fitting(TemporalTally(g, times, width, Some(cap)), width), g, times, g.Order())
    ensures r.Some? && !(exists v, slot, j :: g.InRow(v, slot) && 0 <= j < |times[slot]| && times[slot][j] + width > 0x7FFF_FFFF_FFFF_FFFF) ==>
              r.value == TemporalTotal(g, times, width, Some(cap))
  {
    hide JobOk, Owes, TemporalTally, ListSum, AllEvents, Outcome, Kept, AllRun, EventsEnd, Fitting, EventSum;
    if width < 0 || cap < 2 {
      return None;
    }
    WindowsEndExactly(g, times, width);
    var built := BuildTemporalStartEvents(g, times, inG, inTimes, width, filter);
    if built == None {
      return None;
    }
    var events := built.value.events;
    ghost var tally := TemporalTally(g, times, width, Some(cap));
    SumOfFitting(tally, g, times, width);
    if filter {
      SumOfKept(g, times, width, Some(cap));
    }
    if events == [] {
      ListSumNone(Fitting(tally, width));
      return Some(multiset{});
    }
    forall i | 0 <= i < |events| ensures EventInRange(g, events[i]) {
      assert events[i] in events;
      KeptExactly(g, times, width, AllEvents(g, times, g.Order()), events[i]);
      EventsInRange(g, times, g.Order(), events[i]);
    }
    var histogram := LaunchTemporal(device, g, times, width, cap, events);
    return Some(histogram);
  }

  method LaunchTemporal(device: Config -> seq<nat>, g: Csr, times: seq<seq<int>>, width: int, cap: nat, events: seq<StartEvent>)
    returns (histogram: Histogram)
    requires IsDevice(device) && TimesSorted(g, times) && cap >= 2 && events != []
    requires forall i :: 0 <= i < |events| ==> EventInRange(g, events[i])
    ensures histogram == ListSum(Fitting(TemporalTally(g, times, width, Some(cap)), width), events)
  {
    hide JobOk, Owes, TemporalTally, ListSum, Outcome, Fitting;
    ghost var tally := Fitting(TemporalTally(g, times, width, Some(cap)), width);
    var blocks := GridBlocks(|events|, BLOCK_SIZE);
    var jobs := seq(|events|, i requires 0 <= i < |events| => EventJob(g, times, width, cap, events[i]));
    var c := Config(jobs, false, cap, blocks, BLOCK_SIZE);
    forall j | 0 <= j < |events|
      ensures JobOk(jobs[j], cap) && Owes(jobs[j], cap) == tally(events[j])
      ensures forall k :: k in tally(events[j]) ==> 2 <= k <= cap
    {
      EventJobOk(g, times, width, cap, events[j]);
    }
    histogram := LaunchEvents(device, c, tally, events);
  }
}
