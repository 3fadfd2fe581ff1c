/** The body of the owned-cycle kernel, run on the shared pools: each part is a step of the launch. */
module OwnedSteps {
  import opened CycleSearch
  import opened EdgeBatches
  import opened OwnedCycleKernel
  import opened OwnedLaunch
  import opened OwnedSlices
  import opened Slices
  import opened StackMachine

  /** The pools are the memory of the launch. */
  ghost predicate Backs(m: Memory, paths: array<nat>, cursors: array<nat>, visited: array<bool>)
    reads paths, cursors, visited
  {
    m == Memory(paths[..], cursors[..], visited[..]) && paths != cursors
  }

  /** The array of counts holds the histogram. */
  ghost predicate Tallies(h: Histogram, counts: seq<nat>, limit: nat) {
    |counts| == limit + 1 && forall k :: 0 <= k <= limit ==> counts[k] == h[k]
  }

  /** What a thread does before its loop. */
  method PrepareThread(c: Config, ghost d: Device, i: nat, paths: array<nat>, cursors: array<nat>, visited: array<bool>)
    returns (ghost e: Device)
    requires Inside(c, d) && i < |c.changes| && d.lanes[i] == Waiting && Backs(d.memory, paths, cursors, visited)
    modifies paths, cursors, visited
    ensures LaneStep(c, d, e, i) && e.lanes[i] == Looping(1) && e.counts == d.counts && Backs(e.memory, paths, cursors, visited)
  {
    hide Flags, HoldsTail, Inv, NoRepeats, Outside, StackOk, Pending;
    assert LaneOk(c, d, i);
    WaitingSees(c, d, i);
    SliceInside(c, d, i);
    Prepare(c.Of(i), c.changes[i], c.limit, paths, cursors, visited, Base(c, i), FlagBase(c, i));
    e := Device(d.lanes[i := Looping(1)], d.counts, Memory(paths[..], cursors[..], visited[..]));
  }

  /** The loop body of a thread, with the atomic increment of the counts. */
  method IterateThread(c: Config, ghost d: Device, i: nat, depth: nat, paths: array<nat>, cursors: array<nat>, visited: array<bool>, counts: array<nat>)
    returns (deeper: nat, ghost e: Device)
    requires Inside(c, d) && i < |c.changes| && d.lanes[i] == Looping(depth) && depth > 0 && StrictlySorted(c.changes)
    requires Backs(d.memory, paths, cursors, visited) && counts != paths && counts != cursors && Tallies(d.counts, counts[..], c.limit)
    modifies paths, cursors, visited, counts
    ensures LaneStep(c, d, e, i) && e.lanes[i] == Looping(deeper)
    ensures Backs(e.memory, paths, cursors, visited) && Tallies(e.counts, counts[..], c.limit)
  {
    hide Flags, HoldsTail, Inv, NoRepeats, Outside, StackOk, Step, Seen, StrictlySorted;
    LoopingSees(c, d, i);
    SliceInside(c, d, i);
    ghost var st := Seen(c, d, i);
    StepKeepsShape(c, i, st);
    LengthFits(c.Of(i), st, c.limit);
    ghost var next := Step(c.Of(i), st).0;
    var below, length := Iterate(c.Of(i), c.changes, i, c.limit, paths, cursors, visited, Base(c, i), FlagBase(c, i), depth, st);
    deeper := below;
    e := Device(d.lanes[i := Looping(deeper)], d.counts + Recorded(length), Memory(paths[..], cursors[..], visited[..]));
    assert Loops(c, d, e, i, st);
    if length.Some? {
      AtomicAdd(counts, length.value);
    }
  }
}
