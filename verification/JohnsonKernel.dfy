/**
 * One device thread of the static and time-window kernels: an explicit stack kept in the thread's
 * slices of the shared path and cursor arrays.
 */
module JohnsonKernel {
  import opened CsrGraphs
  import opened CycleSearch
  import opened Slices
  import opened StackMachine

  /** The linear scan of the thread's path. */
  method PathContains(paths: array<nat>, base: nat, depth: nat, vertex: nat) returns (found: bool)
    requires base + depth <= paths.Length
    ensures found <==> vertex in paths[base..base + depth]
  {
    for index := 0 to depth
      invariant vertex !in paths[base..base + index]
    {
      if paths[base + index] == vertex {
        assert paths[base..base + depth][index] == vertex;
        return true;
      }
      assert paths[base..base + index + 1] == paths[base..base + index] + [paths[base + index]];
    }
    return false;
  }

  /** The slices hold the stack; below the floor only the path is kept. */
  ghost predicate Holds(paths: seq<nat>, cursors: seq<nat>, base: nat, st: Stack, floor: nat) {
    && |st.path| == |st.cursors| && base + |st.path| <= |paths| && base + |st.path| <= |cursors|
    && paths[base..base + |st.path|] == st.path
    && forall d :: floor <= d < |st.path| ==> cursors[base + d] == st.cursors[d]
  }

  /** What thread `i` writes into its slices leaves the stack of thread `j` in place. */
  lemma OthersHold(paths: seq<nat>, cursors: seq<nat>, newPaths: seq<nat>, newCursors: seq<nat>, i: nat, j: nat, limit: nat, st: Stack, floor: nat)
    requires Outside(paths, newPaths, i * limit, limit) && Outside(cursors, newCursors, i * limit, limit)
    requires i != j && |st.path| <= limit && Holds(paths, cursors, j * limit, st, floor)
    ensures Holds(newPaths, newCursors, j * limit, st, floor)
  {
    OtherSlice(paths, newPaths, i, j, limit, |st.path|);
    SlicesApart(i, j, limit);
  }

  lemma TopHeld(paths: seq<nat>, cursors: seq<nat>, base: nat, st: Stack, floor: nat)
    requires Holds(paths, cursors, base, st, floor) && |st.path| > floor
    ensures base + |st.path| <= |paths| && base + |st.path| <= |cursors| && |st.cursors| == |st.path|
    ensures paths[base..base + |st.path|] == st.path && paths[base + |st.path| - 1] == st.path[|st.path| - 1]
    ensures cursors[base + |st.path| - 1] == st.cursors[|st.path| - 1] && Holds(paths, cursors, base, Pop(st), floor)
  {
    assert paths[base..base + |st.path|][|st.path| - 1] == paths[base + |st.path| - 1];
    assert paths[base..base + |st.path| - 1] == paths[base..base + |st.path|][..|st.path| - 1];
  }

  lemma Advanced(paths: seq<nat>, cursors: seq<nat>, base: nat, st: Stack, floor: nat, limit: nat)
    requires Holds(paths, cursors, base, st, floor) && floor < |st.path| <= limit && base + limit <= |cursors|
    ensures var at := base + |st.path| - 1;
            && Holds(paths, cursors[at := cursors[at] + 1], base, Advance(st), floor)
            && Outside(cursors, cursors[at := cursors[at] + 1], base, limit) && Outside(cursors, cursors, base, limit)
            && Outside(paths, paths, base, limit)
  {
  }

  lemma Pushed(s: Search, paths: seq<nat>, cursors: seq<nat>, base: nat, st: Stack, floor: nat, next: nat, limit: nat)
    requires Holds(paths, cursors, base, st, floor) && floor < |st.path| < limit && base + limit <= |cursors| && base + limit <= |paths|
    requires s.Valid() && next < s.g.Order()
    ensures var at := base + |st.path|;
            && Holds(paths[at := next], cursors[at := s.g.Begin(next)], base, Push(s, st, next), floor)
            && Outside(paths, paths[at := next], base, limit) && Outside(cursors, cursors[at := s.g.Begin(next)], base, limit)
  {
    var at := base + |st.path|;
    assert paths[at := next][base..at + 1] == paths[base..at] + [next];
  }

  /** One iteration of the loop: the new depth and the recorded length, if any. */
  method Iterate(s: Search, paths: array<nat>, cursors: array<nat>, base: nat, depth: nat, ghost st: Stack, ghost floor: nat)
    returns (deeper: nat, length: Option<nat>)
    requires s.cap.Some? && |st.path| == |st.cursors| == depth > floor && AtSlot(s, st.path, st.cursors[depth - 1])
    requires depth <= s.cap.value && base + s.cap.value <= paths.Length && base + s.cap.value <= cursors.Length
    requires paths != cursors && Holds(paths[..], cursors[..], base, st, floor)
    modifies paths, cursors
    ensures Step(s, st).1 == length && |Step(s, st).0.path| == deeper <= s.cap.value
    ensures Holds(paths[..], cursors[..], base, Step(s, st).0, floor)
    ensures Outside(old(paths[..]), paths[..], base, s.cap.value) && Outside(old(cursors[..]), cursors[..], base, s.cap.value)
  {
    hide Holds, Outside;
    ghost var pathsBefore, cursorsBefore := paths[..], cursors[..];
    TopHeld(pathsBefore, cursorsBefore, base, st, floor);
    Advanced(pathsBefore, cursorsBefore, base, st, floor, s.cap.value);
    var g := s.g;
    var current := paths[base + depth - 1];
    var slot := cursors[base + depth - 1];
    if slot >= g.End(current) {
      return depth - 1, None;
    }
    var next := g.targets[slot];
    cursors[base + depth - 1] := slot + 1;
    ghost var advanced: seq<nat> := cursors[..];
    assert advanced == cursorsBefore[base + depth - 1 := cursorsBefore[base + depth - 1] + 1] && paths[..] == pathsBefore;
    if !s.Takes(current, slot) {
      return depth, None;
    }
    if next == s.root && depth >= 2 {
      return depth, Some(depth);
    }
    var onPath := PathContains(paths, base, depth, next);
    if depth >= s.cap.value || onPath {
      return depth, None;
    }
    Descend(s, paths, cursors, base, depth, next, Advance(st), floor);
    OutsideTwice(cursorsBefore, advanced, cursors[..], base, s.cap.value);
    return depth + 1, None;
  }

  /** The next level: the vertex and the start of its row. */
  method Descend(s: Search, paths: array<nat>, cursors: array<nat>, base: nat, depth: nat, next: nat, ghost st: Stack, ghost floor: nat)
    requires s.Valid() && s.cap.Some? && next < s.g.Order() && |st.path| == depth && floor < depth < s.cap.value
    requires base + s.cap.value <= paths.Length && base + s.cap.value <= cursors.Length
    requires paths != cursors && Holds(paths[..], cursors[..], base, st, floor)
    modifies paths, cursors
    ensures Holds(paths[..], cursors[..], base, Push(s, st, next), floor)
    ensures Outside(old(paths[..]), paths[..], base, s.cap.value) && Outside(old(cursors[..]), cursors[..], base, s.cap.value)
  {
    hide Holds, Outside;
    ghost var pathsBefore, cursorsBefore := paths[..], cursors[..];
    Pushed(s, pathsBefore, cursorsBefore, base, st, floor, next, s.cap.value);
    paths[base + depth] := next;
    cursors[base + depth] := s.g.Begin(next);
    assert paths[..] == pathsBefore[base + depth := next] && cursors[..] == cursorsBefore[base + depth := s.g.Begin(next)];
  }

  /** The thread's loop records exactly what the recursive search below `start` records. */
  method RunThread(s: Search, start: seq<nat>, paths: array<nat>, cursors: array<nat>, base: nat) returns (recorded: Histogram)
    requires s.Valid() && s.IsPath(start) && s.cap.Some? && |start| <= s.cap.value
    requires base + s.cap.value <= paths.Length && base + s.cap.value <= cursors.Length && paths != cursors
    modifies paths, cursors
    ensures recorded == Subtree(s, start)
    ensures Outside(old(paths[..]), paths[..], base, s.cap.value) && Outside(old(cursors[..]), cursors[..], base, s.cap.value)
  {
    hide Holds, Outside, Pending, PendingSteps, Subtree;
    recorded := multiset{};
    var depth := |start|;
    var floor, first := |start| - 1, Stack(start, seq(|start|, _ => s.First(start)));
    StartOk(s, first, floor);
    Load(first, floor, s.cap.value, paths, cursors, base);
    ghost var st := first;
    while depth > floor
      invariant StackOk(s, st, floor) && |st.path| == depth && floor <= depth <= s.cap.value
      invariant Holds(paths[..], cursors[..], base, st, floor)
      invariant recorded + Pending(s, st, floor) == Subtree(s, start)
      invariant Outside(old(paths[..]), paths[..], base, s.cap.value)
      invariant Outside(old(cursors[..]), cursors[..], base, s.cap.value)
      decreases PendingSteps(s, st, floor)
    {
      StepConserves(s, st, floor);
      ghost var next, pathsBefore, cursorsBefore := Step(s, st).0, paths[..], cursors[..];
      var deeper, length := Iterate(s, paths, cursors, base, depth, st, floor);
      OutsideTwice(old(paths[..]), pathsBefore, paths[..], base, s.cap.value);
      OutsideTwice(old(cursors[..]), cursorsBefore, cursors[..], base, s.cap.value);
      if length.Some? {
        recorded := recorded + multiset{length.value};
      }
      depth, st := deeper, next;
    }
    NothingPending(s, st, floor);
  }

  /** Writes the path of a stack, and its cursors from the floor on. */
  method Load(st: Stack, floor: nat, limit: nat, paths: array<nat>, cursors: array<nat>, base: nat)
    requires floor <= |st.path| == |st.cursors| <= limit
    requires base + limit <= paths.Length && base + limit <= cursors.Length && paths != cursors
    modifies paths, cursors
    ensures Holds(paths[..], cursors[..], base, st, floor)
    ensures Outside(old(paths[..]), paths[..], base, limit) && Outside(old(cursors[..]), cursors[..], base, limit)
  {
    for d := 0 to |st.path|
      invariant forall i :: 0 <= i < d ==> paths[base + i] == st.path[i]
      invariant forall i :: floor <= i < d ==> cursors[base + i] == st.cursors[i]
      invariant Outside(old(paths[..]), paths[..], base, limit) && Outside(old(cursors[..]), cursors[..], base, limit)
    {
      paths[base + d] := st.path[d];
      if d >= floor {
        cursors[base + d] := st.cursors[d];
      }
    }
    assert paths[..][base..base + |st.path|] == st.path;
  }

  lemma NothingPending(s: Search, st: Stack, floor: nat)
    requires StackOk(s, st, floor) && |st.path| <= floor
    ensures Pending(s, st, floor) == multiset{}
  {
  }
}
