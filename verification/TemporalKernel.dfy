/** One device thread of the temporal kernel, in its slices of the shared path and frame arrays. */
module TemporalKernel {
  import opened CsrGraphs
  import opened Slices
  import opened TemporalSearch
  import opened TemporalStack
  import JohnsonKernel
  import CycleSearch

  /** The slices hold the stack; below the floor only the path is kept. */
  ghost predicate Holds(paths: seq<nat>, frames: seq<Frame>, base: nat, st: Stack, floor: nat) {
    && |st.path| == |st.frames| && base + |st.path| <= |paths| && base + |st.path| <= |frames|
    && paths[base..base + |st.path|] == st.path
    && forall d :: floor <= d < |st.path| ==> frames[base + d] == st.frames[d]
  }

  /** What thread `i` writes into its slices leaves the stack of thread `j` in place. */
  lemma OthersHold(paths: seq<nat>, frames: seq<Frame>, newPaths: seq<nat>, newFrames: seq<Frame>, i: nat, j: nat, limit: nat, st: Stack, floor: nat)
    requires Outside(paths, newPaths, i * limit, limit) && Outside(frames, newFrames, i * limit, limit)
    requires i != j && |st.path| <= limit && Holds(paths, frames, j * limit, st, floor)
    ensures Holds(newPaths, newFrames, j * limit, st, floor)
  {
    OtherSlice(paths, newPaths, i, j, limit, |st.path|);
    SlicesApart(i, j, limit);
  }

  lemma TopHeld(paths: seq<nat>, frames: seq<Frame>, base: nat, st: Stack, floor: nat)
    requires Holds(paths, frames, base, st, floor) && |st.path| > floor
    ensures base + |st.path| <= |paths| && base + |st.path| <= |frames| && |st.frames| == |st.path|
    ensures paths[base..base + |st.path|] == st.path && paths[base + |st.path| - 1] == st.path[|st.path| - 1]
    ensures frames[base + |st.path| - 1] == Top(st) && Holds(paths, frames, base, Pop(st), floor)
  {
    assert paths[base..base + |st.path|][|st.path| - 1] == paths[base + |st.path| - 1];
    assert paths[base..base + |st.path| - 1] == paths[base..base + |st.path|][..|st.path| - 1];
  }

  lemma TopReplaced(paths: seq<nat>, frames: seq<Frame>, base: nat, st: Stack, floor: nat, f: Frame, limit: nat)
    requires Holds(paths, frames, base, st, floor) && floor < |st.path| <= limit && base + limit <= |frames|
    ensures Holds(paths, frames[base + |st.path| - 1 := f], base, WithTop(st, f), floor)
    ensures Outside(frames, frames[base + |st.path| - 1 := f], base, limit)
  {
  }

  lemma Pushed(s: Temporal, paths: seq<nat>, frames: seq<Frame>, base: nat, st: Stack, floor: nat, next: nat, arrival: int, limit: nat)
    requires Holds(paths, frames, base, st, floor) && floor < |st.path| < limit && base + limit <= |frames| && base + limit <= |paths|
    requires s.Valid() && next < s.g.Order()
    ensures var at := base + |st.path|;
            && Holds(paths[at := next], frames[at := Frame(s.g.Begin(next), 0, 0, 0, arrival)], base, Push(s, st, next, arrival), floor)
            && Outside(paths, paths[at := next], base, limit)
            && Outside(frames, frames[at := Frame(s.g.Begin(next), 0, 0, 0, arrival)], base, limit)
  {
    var at := base + |st.path|;
    assert paths[at := next][base..at + 1] == paths[base..at] + [next];
  }

  /** One iteration of the loop: the new depth and the recorded length, if any. */
  method Iterate(s: Temporal, paths: array<nat>, frames: array<Frame>, base: nat, depth: nat, ghost st: Stack, ghost floor: nat)
    returns (deeper: nat, length: Option<nat>)
    requires s.cap.Some? && |st.path| == |st.frames| == depth > floor && FrameOk(s, st.path, Top(st))
    requires depth <= s.cap.value && base + s.cap.value <= paths.Length && base + s.cap.value <= frames.Length
    requires Holds(paths[..], frames[..], base, st, floor)
    modifies paths, frames
    ensures Step(s, st).1 == length && |Step(s, st).0.path| == deeper <= s.cap.value
    ensures Holds(paths[..], frames[..], base, Step(s, st).0, floor)
    ensures Outside(old(paths[..]), paths[..], base, s.cap.value)
    ensures Outside(old(frames[..]), frames[..], base, s.cap.value)
  {
    hide Holds;
    ghost var pathsBefore, framesBefore := paths[..], frames[..];
    TopHeld(pathsBefore, framesBefore, base, st, floor);
    var g, current, f := s.g, paths[base + depth - 1], frames[base + depth - 1];
    if f.time < f.end {
      deeper, length := ReadEvent(s, paths, frames, base, depth, st, floor);
      return;
    }
    if f.cursor >= g.End(current) {
      return depth - 1, None;
    }
    var slot := f.cursor;
    var begin, end := s.From(slot, f.arrival), s.To(slot, f.arrival);
    var taken := if begin >= end then f.(cursor := slot + 1) else Frame(slot + 1, slot, begin, end, f.arrival);
    TopReplaced(pathsBefore, framesBefore, base, st, floor, taken, s.cap.value);
    frames[base + depth - 1] := taken;
    assert frames[..] == framesBefore[base + depth - 1 := taken] && paths[..] == pathsBefore;
    return depth, None;
  }

  /** Takes the next unread event of the slot in use. */
  method ReadEvent(s: Temporal, paths: array<nat>, frames: array<Frame>, base: nat, depth: nat, ghost st: Stack, ghost floor: nat)
    returns (deeper: nat, length: Option<nat>)
    requires s.cap.Some? && |st.path| == |st.frames| == depth > floor && FrameOk(s, st.path, Top(st)) && Top(st).time < Top(st).end
    requires depth <= s.cap.value && base + s.cap.value <= paths.Length && base + s.cap.value <= frames.Length
    requires Holds(paths[..], frames[..], base, st, floor)
    modifies paths, frames
    ensures Step(s, st).1 == length && |Step(s, st).0.path| == deeper <= s.cap.value
    ensures Holds(paths[..], frames[..], base, Step(s, st).0, floor)
    ensures Outside(old(paths[..]), paths[..], base, s.cap.value)
    ensures Outside(old(frames[..]), frames[..], base, s.cap.value)
  {
    hide Holds, Outside;
    ghost var pathsBefore, framesBefore := paths[..], frames[..];
    TopHeld(pathsBefore, framesBefore, base, st, floor);
    var f := frames[base + depth - 1];
    var rest := f.(time := f.time + 1);
    TopReplaced(pathsBefore, framesBefore, base, st, floor, rest, s.cap.value);
    PathsKept(pathsBefore, base, s.cap.value);
    frames[base + depth - 1] := rest;
    ghost var advanced := frames[..];
    assert advanced == framesBefore[base + depth - 1 := rest] && paths[..] == pathsBefore;
    var arrival, next := s.times[f.active][f.time], s.g.targets[f.active];
    if next == s.root && depth >= 2 {
      return depth, Some(depth);
    }
    var onPath := JohnsonKernel.PathContains(paths, base, depth, next);
    if depth >= s.cap.value || onPath {
      return depth, None;
    }
    Pushed(s, pathsBefore, advanced, base, WithTop(st, rest), floor, next, arrival, s.cap.value);
    paths[base + depth] := next;
    frames[base + depth] := Frame(s.g.Begin(next), 0, 0, 0, arrival);
    assert paths[..] == pathsBefore[base + depth := next];
    assert frames[..] == advanced[base + depth := Frame(s.g.Begin(next), 0, 0, 0, arrival)];
    OutsideTwice(framesBefore, advanced, frames[..], base, s.cap.value);
    return depth + 1, None;
  }

  lemma PathsKept(paths: seq<nat>, base: nat, limit: nat)
    ensures Outside(paths, paths, base, limit)
  {
  }

  /** The stack of a start event: the root below, the first vertex with its row unread on top. */
  function StartStack(s: Temporal, first: nat, start: int): Stack
    requires s.Valid() && first < s.g.Order()
  {
    Stack([s.root, first], [Frame(0, 0, 0, 0, start), Frame(s.g.Begin(first), 0, 0, 0, start)])
  }

  lemma StartOk(s: Temporal, first: nat, start: int)
    requires s.Valid() && first < s.g.Order()
    ensures StackOk(s, StartStack(s, first, start), 1)
    ensures Pending(s, StartStack(s, first, start), 1) == Subtree(s, [s.root, first], start)
  {
    assert [s.root, first][..2] == [s.root, first];
  }

  lemma NothingPending(s: Temporal, st: Stack)
    requires StackOk(s, st, 1) && |st.path| <= 1
    ensures Pending(s, st, 1) == multiset{}
  {
  }

  /** Writes the path of a stack, and its frames from the floor on. */
  method Load(st: Stack, floor: nat, limit: nat, paths: array<nat>, frames: array<Frame>, base: nat)
    requires floor <= |st.path| == |st.frames| <= limit
    requires base + limit <= paths.Length && base + limit <= frames.Length
    modifies paths, frames
    ensures Holds(paths[..], frames[..], base, st, floor)
    ensures Outside(old(paths[..]), paths[..], base, limit) && Outside(old(frames[..]), frames[..], base, limit)
  {
    for d := 0 to |st.path|
      invariant forall i :: 0 <= i < d ==> paths[base + i] == st.path[i]
      invariant forall i :: floor <= i < d ==> frames[base + i] == st.frames[i]
      invariant Outside(old(paths[..]), paths[..], base, limit) && Outside(old(frames[..]), frames[..], base, limit)
    {
      paths[base + d] := st.path[d];
      if d >= floor {
        frames[base + d] := st.frames[d];
      }
    }
    assert paths[..][base..base + |st.path|] == st.path;
  }

  /** The thread's loop records exactly the temporal cycles of its start event. */
  method RunThread(s: Temporal, first: nat, start: int, paths: array<nat>, frames: array<Frame>, base: nat)
    returns (recorded: CycleSearch.Histogram)
    requires s.Valid() && first < s.g.Order() && s.cap.Some? && s.cap.value >= 2
    requires base + s.cap.value <= paths.Length && base + s.cap.value <= frames.Length
    modifies paths, frames
    ensures recorded == Subtree(s, [s.root, first], start)
    ensures Outside(old(paths[..]), paths[..], base, s.cap.value)
    ensures Outside(old(frames[..]), frames[..], base, s.cap.value)
  {
    hide Holds, Outside, Pending, PendingSteps, Subtree, Step;
    recorded := multiset{};
    ghost var st := StartStack(s, first, start);
    StartOk(s, first, start);
    Load(StartStack(s, first, start), 1, s.cap.value, paths, frames, base);
    var depth := 2;
    while depth > 1
      invariant StackOk(s, st, 1) && |st.path| == depth && 1 <= depth <= s.cap.value
      invariant Holds(paths[..], frames[..], base, st, 1)
      invariant recorded + Pending(s, st, 1) == Subtree(s, [s.root, first], start)
      invariant Outside(old(paths[..]), paths[..], base, s.cap.value)
      invariant Outside(old(frames[..]), frames[..], base, s.cap.value)
      decreases PendingSteps(s, st, 1)
    {
      StepConserves(s, st, 1);
      ghost var next, pathsBefore, framesBefore := Step(s, st).0, paths[..], frames[..];
      var deeper, length := Iterate(s, paths, frames, base, depth, st, 1);
      OutsideTwice(old(paths[..]), pathsBefore, paths[..], base, s.cap.value);
      OutsideTwice(old(frames[..]), framesBefore, frames[..], base, s.cap.value);
      if length.Some? {
        recorded := recorded + multiset{length.value};
      }
      depth, st := deeper, next;
    }
    NothingPending(s, st);
  }
}
