/**
 * The device form of the anchored search: one thread per changed edge, with an explicit stack and
 * visited flags in the thread's slices of shared pools.
 */
module OwnedCycleKernel {
  import opened CsrGraphs
  import opened CycleSearch
  import opened EdgeBatches
  import opened EdgeOwnership
  import opened DynamicUpdate
  import opened StackMachine
  import opened Slices
  import JohnsonKernel

  /** Binary search in the sorted changes: the position of the edge, or -1. */
  method FindChange(changes: seq<Edge>, source: nat, target: nat) returns (id: int)
    requires StrictlySorted(changes)
    ensures -1 <= id < |changes|
    ensures if id >= 0 then changes[id] == Edge(source, target) else Edge(source, target) !in changes
  {
    var low, high := 0, |changes| - 1;
    while low <= high
      invariant 0 <= low <= high + 1 <= |changes|
      invariant forall i :: 0 <= i < low ==> EdgeLess(changes[i], Edge(source, target))
      invariant forall i :: high < i < |changes| ==> EdgeLess(Edge(source, target), changes[i])
      decreases high - low
    {
      var mid := (low + high) / 2;
      var e := changes[mid];
      if e.source < source || (e.source == source && e.target < target) {
        low := mid + 1;
      } else if e.source > source || (e.source == source && e.target > target) {
        high := mid - 1;
      } else {
        return mid;
      }
    }
    return -1;
  }

  /** In a sorted list an edge has one id, so the search answers the ownership test. */
  lemma FoundIsForbidden(changes: seq<Edge>, e: Edge, id: int, owner: nat)
    requires StrictlySorted(changes) && -1 <= id < |changes|
    requires if id >= 0 then changes[id] == e else e !in changes
    ensures 0 <= id < owner <==> ForbiddenBefore(changes, e, owner)
  {
    forall i, j | 0 <= i < j < |changes| ensures changes[i] != changes[j] {
      assert EdgeLess(changes[i], changes[j]);
    }
  }

  /** The slices hold the stack without its first level, the source of the changed edge. */
  ghost predicate HoldsTail(paths: seq<nat>, cursors: seq<nat>, base: nat, st: Stack) {
    && |st.path| == |st.cursors| > 0 && base + |st.path| - 1 <= |paths| && base + |st.path| - 1 <= |cursors|
    && forall d :: 1 <= d < |st.path| ==> paths[base + d - 1] == st.path[d] && cursors[base + d - 1] == st.cursors[d]
  }

  /** The thread's flags are those of the path. */
  ghost predicate Flags(visited: seq<bool>, base: nat, order: int, path: seq<nat>) {
    base + order <= |visited| && forall v :: 0 <= v < order ==> (visited[base + v] <==> v in path)
  }

  /** Beyond the changed edge itself no vertex repeats. */
  ghost predicate NoRepeats(path: seq<nat>) {
    forall i :: 2 <= i < |path| ==> path[i] !in path[..i]
  }

  /** What thread `i` writes into its slices leaves the stack of thread `j` in place. */
  lemma OthersHold(paths: seq<nat>, cursors: seq<nat>, newPaths: seq<nat>, newCursors: seq<nat>, i: nat, j: nat, limit: nat, st: Stack)
    requires Outside(paths, newPaths, i * limit, limit) && Outside(cursors, newCursors, i * limit, limit)
    requires i != j && |st.path| <= limit && HoldsTail(paths, cursors, j * limit, st)
    ensures HoldsTail(newPaths, newCursors, j * limit, st)
  {
    SlicesApart(i, j, limit);
  }

  /** And the flags of thread `j`. */
  lemma OthersFlagged(visited: seq<bool>, after: seq<bool>, i: nat, j: nat, order: int, path: seq<nat>)
    requires order >= 0 && Outside(visited, after, i * order, order) && i != j && Flags(visited, j * order, order, path)
    ensures Flags(after, j * order, order, path)
  {
    SlicesApart(i, j, order);
  }

  lemma FlagsInRange(visited: seq<bool>, base: nat, order: int, path: seq<nat>)
    requires Flags(visited, base, order, path)
    ensures base + order <= |visited| && forall v :: 0 <= v < order ==> (visited[base + v] <==> v in path)
  {
  }

  lemma FlagsPop(visited: seq<bool>, base: nat, order: int, path: seq<nat>)
    requires Flags(visited, base, order, path) && NoRepeats(path) && |path| >= 2 && path[|path| - 1] < order
    ensures |path| >= 3 ==> Flags(visited[base + path[|path| - 1] := false], base, order, path[..|path| - 1])
    ensures NoRepeats(path[..|path| - 1])
  {
    var front := path[..|path| - 1];
    assert |path| >= 3 ==> path[|path| - 1] !in path[..|path| - 1];
    forall v ensures v in path <==> v in front || v == path[|path| - 1] {}
    forall i | 2 <= i < |front| ensures front[i] !in front[..i] {
      assert front[..i] == path[..i];
    }
  }

  lemma FlagsPush(visited: seq<bool>, base: nat, order: int, path: seq<nat>, next: nat)
    requires Flags(visited, base, order, path) && NoRepeats(path) && next < order && next !in path
    ensures Flags(visited[base + next := true], base, order, path + [next]) && NoRepeats(path + [next])
  {
    forall i | 2 <= i < |path + [next]| ensures (path + [next])[i] !in (path + [next])[..i] {
      assert (path + [next])[..i] == path[..i];
    }
  }

  lemma TailSteps(s: Search, paths: seq<nat>, cursors: seq<nat>, base: nat, limit: nat, st: Stack)
    requires HoldsTail(paths, cursors, base, st) && |st.path| >= 2 && |st.path| - 1 < limit
    requires base + limit <= |paths| && base + limit <= |cursors|
    ensures var top := base + |st.path| - 2;
            && paths[top] == st.path[|st.path| - 1] && cursors[top] == st.cursors[|st.path| - 1]
            && HoldsTail(paths, cursors, base, Pop(st))
            && HoldsTail(paths, cursors[top := cursors[top] + 1], base, Advance(st))
            && Outside(paths, paths, base, limit) && Outside(cursors, cursors, base, limit)
            && Outside(cursors, cursors[top := cursors[top] + 1], base, limit)
  {
  }

  lemma TailPush(s: Search, paths: seq<nat>, cursors: seq<nat>, base: nat, limit: nat, st: Stack, next: nat)
    requires s.Valid() && next < s.g.Order() && HoldsTail(paths, cursors, base, st) && |st.path| < limit
    requires base + limit <= |paths| && base + limit <= |cursors|
    ensures var top := base + |st.path| - 1;
            && HoldsTail(paths[top := next], cursors[top := s.g.Begin(next)], base, Push(s, st, next))
            && Outside(paths, paths[top := next], base, limit)
            && forall before :: Outside(before, cursors, base, limit) ==> Outside(before, cursors[top := s.g.Begin(next)], base, limit)
  {
  }

  /** One iteration of the loop, at level `depth` of the stack without its source. */
  method Iterate(s: Search, changes: seq<Edge>, work: nat, limit: nat, paths: array<nat>, cursors: array<nat>, visited: array<bool>,
                 base: nat, flags: nat, depth: nat, ghost st: Stack) returns (deeper: nat, length: Option<nat>)
    requires work < |changes| && s == AnchoredSearch(s.g, changes, work, limit) && StrictlySorted(changes)
    requires |st.path| == |st.cursors| == depth + 1 >= 2 && AtSlot(s, st.path, st.cursors[depth]) && depth < limit
    requires st.path[1] == changes[work].target && NoRepeats(st.path)
    requires base + limit <= paths.Length && base + limit <= cursors.Length && paths != cursors
    requires HoldsTail(paths[..], cursors[..], base, st) && Flags(visited[..], flags, s.g.Order(), st.path)
    modifies paths, cursors, visited
    ensures Step(s, st).1 == length && |Step(s, st).0.path| == deeper + 1 && deeper < limit
    ensures HoldsTail(paths[..], cursors[..], base, Step(s, st).0) && NoRepeats(Step(s, st).0.path)
    ensures deeper > 0 ==> Step(s, st).0.path[1] == changes[work].target
    ensures deeper > 0 ==> Flags(visited[..], flags, s.g.Order(), Step(s, st).0.path)
    ensures Outside(old(paths[..]), paths[..], base, limit) && Outside(old(cursors[..]), cursors[..], base, limit)
    ensures Outside(old(visited[..]), visited[..], flags, s.g.Order())
  {
    hide Flags, NoRepeats, StrictlySorted, EdgeLess, ForbiddenBefore, HoldsTail, Outside;
    var g, source, target := s.g, changes[work].source, changes[work].target;
    ghost var marks, pathsBefore, cursorsBefore := visited[..], paths[..], cursors[..];
    TailSteps(s, pathsBefore, cursorsBefore, base, limit, st);
    FlagsInRange(marks, flags, g.Order(), st.path);
    var current, slot := paths[base + depth - 1], cursors[base + depth - 1];
    OutsideUpdate(marks, flags, g.Order(), flags + current, false);
    if slot >= g.End(current) {
      FlagsPop(marks, flags, g.Order(), st.path);
      visited[flags + current] := false;
      assert visited[..] == marks[flags + current := false];
      return depth - 1, None;
    }
    var next := g.targets[slot];
    cursors[base + depth - 1] := slot + 1;
    ghost var advanced: seq<nat> := cursors[..];
    assert advanced == cursorsBefore[base + depth - 1 := cursorsBefore[base + depth - 1] + 1];
    var id := FindChange(changes, current, next);
    FoundIsForbidden(changes, Edge(current, next), id, work);
    if id >= 0 && id < work {
      return depth, None;
    }
    if next == source {
      return depth, Some(depth + 1);
    }
    if next == target || visited[flags + next] {
      return depth, None;
    }
    if depth + 1 < limit {
      FlagsPush(marks, flags, g.Order(), st.path, next);
      OutsideUpdate(marks, flags, g.Order(), flags + next, true);
      visited[flags + next] := true;
      assert visited[..] == marks[flags + next := true];
      TailPush(s, paths[..], advanced, base, limit, Advance(st), next);
      paths[base + depth] := next;
      cursors[base + depth] := g.Begin(next);
      assert paths[..] == pathsBefore[base + depth := next];
      assert cursors[..] == advanced[base + depth := g.Begin(next)];
      return depth + 1, None;
    }
    return depth, None;
  }

  /** The stack the thread starts with: the changed edge, its target's row unread. */
  ghost function StartStack(s: Search, e: Edge): Stack
    requires s.Valid() && e.target < s.g.Order()
  {
    Stack(Anchor(e), [0, s.g.Begin(e.target)])
  }

  lemma StartIsOk(s: Search, e: Edge)
    requires s.Valid() && s.root == e.source && e.target < s.g.Order()
    ensures StackOk(s, StartStack(s, e), 1) && Pending(s, StartStack(s, e), 1) == Subtree(s, Anchor(e))
  {
    assert Anchor(e)[..2] == Anchor(e);
  }

  lemma StartHolds(s: Search, e: Edge, paths: seq<nat>, cursors: seq<nat>, visited: seq<bool>, base: nat, flags: nat)
    requires s.Valid() && s.root == e.source && e.target < s.g.Order()
    requires base < |paths| && base < |cursors| && paths[base] == e.target && cursors[base] == s.g.Begin(e.target)
    requires Flags(visited, flags, s.g.Order(), Anchor(e))
    ensures StackOk(s, StartStack(s, e), 1) && Pending(s, StartStack(s, e), 1) == Subtree(s, Anchor(e))
    ensures HoldsTail(paths, cursors, base, StartStack(s, e)) && NoRepeats(Anchor(e))
  {
    StartIsOk(s, e);
  }

  /** Marks the ends of the changed edge and puts its target on the stack. */
  method Prepare(s: Search, e: Edge, limit: nat, paths: array<nat>, cursors: array<nat>, visited: array<bool>, base: nat, flags: nat)
    requires s.Valid() && s.root == e.source && e.target < s.g.Order() && limit >= 2
    requires base + limit <= paths.Length && base + limit <= cursors.Length && paths != cursors
    requires Flags(visited[..], flags, s.g.Order(), [])
    modifies paths, cursors, visited
    ensures StackOk(s, StartStack(s, e), 1) && Pending(s, StartStack(s, e), 1) == Subtree(s, Anchor(e))
    ensures HoldsTail(paths[..], cursors[..], base, StartStack(s, e)) && NoRepeats(Anchor(e))
    ensures Flags(visited[..], flags, s.g.Order(), Anchor(e))
    ensures Outside(old(paths[..]), paths[..], base, limit) && Outside(old(cursors[..]), cursors[..], base, limit)
    ensures Outside(old(visited[..]), visited[..], flags, s.g.Order())
  {
    visited[flags + e.source] := true;
    visited[flags + e.target] := true;
    paths[base] := e.target;
    cursors[base] := s.g.Begin(e.target);
    StartHolds(s, e, paths[..], cursors[..], visited[..], base, flags);
  }

  /** The lengths of one record, as one atomic increment. */
  method AtomicAdd(counts: array<nat>, length: nat)
    requires length < counts.Length
    modifies counts
    ensures Adds(old(counts[..]), counts[..], multiset{length})
  {
    counts[length] := counts[length] + 1;
  }

  ghost predicate ThreadState(s: Search, changes: seq<Edge>, work: nat, limit: nat, paths: seq<nat>, cursors: seq<nat>, visited: seq<bool>,
                              base: nat, flags: nat, depth: nat, st: Stack)
  {
    && StackOk(s, st, 1) && s.IsPath(st.path) && |st.cursors| == |st.path| == depth + 1 && depth < limit && work < |changes|
    && HoldsTail(paths, cursors, base, st) && NoRepeats(st.path)
    && (depth > 0 ==> st.path[1] == changes[work].target && Flags(visited, flags, s.g.Order(), st.path))
  }

  /** One thread adds exactly the cycles owned by its changed edge, and writes only its own slices. */
  method CountOwnedCycles(g: Csr, changes: seq<Edge>, work: nat, limit: nat,
                          paths: array<nat>, cursors: array<nat>, visited: array<bool>, counts: array<nat>, base: nat, flags: nat)
    requires g.Valid() && work < |changes| && EdgeInRange(g, changes[work]) && StrictlySorted(changes) && limit >= 2
    requires base + limit <= paths.Length && base + limit <= cursors.Length && counts.Length > limit
    requires paths != cursors && paths != counts && cursors != counts && Flags(visited[..], flags, g.Order(), [])
    modifies paths, cursors, visited, counts
    ensures Adds(old(counts[..]), counts[..], AnchoredTally(g, changes, work, limit))
    ensures Outside(old(paths[..]), paths[..], base, limit) && Outside(old(cursors[..]), cursors[..], base, limit)
    ensures Outside(old(visited[..]), visited[..], flags, g.Order())
  {
    hide Flags, HoldsTail, NoRepeats, Outside, Adds, StackOk, Pending, PendingSteps, StrictlySorted, Subtree, Step;
    var s := AnchoredSearch(g, changes, work, limit);
    ghost var got: Histogram := multiset{};
    ghost var st := StartStack(s, changes[work]);
    AddsNothing(counts[..]);
    Prepare(s, changes[work], limit, paths, cursors, visited, base, flags);
    var depth := 1;
    while depth > 0
      invariant ThreadState(s, changes, work, limit, paths[..], cursors[..], visited[..], base, flags, depth, st)
      invariant got + Pending(s, st, 1) == Subtree(s, Anchor(changes[work]))
      invariant Adds(old(counts[..]), counts[..], got)
      invariant Outside(old(paths[..]), paths[..], base, limit) && Outside(old(cursors[..]), cursors[..], base, limit)
      invariant Outside(old(visited[..]), visited[..], flags, g.Order())
      decreases PendingSteps(s, st, 1)
    {
      StepConserves(s, st, 1);
      ghost var next, before, counted := Step(s, st).0, (paths[..], cursors[..], visited[..]), counts[..];
      var deeper, length := Iterate(s, changes, work, limit, paths, cursors, visited, base, flags, depth, st);
      OutsideTwice(old(paths[..]), before.0, paths[..], base, limit);
      OutsideTwice(old(cursors[..]), before.1, cursors[..], base, limit);
      OutsideTwice(old(visited[..]), before.2, visited[..], flags, g.Order());
      if length.Some? {
        LengthFits(s, st, limit);
        AtomicAdd(counts, length.value);
        AddsBoth(old(counts[..]), counted, counts[..], got, multiset{length.value});
        got := got + multiset{length.value};
      }
      depth, st := deeper, next;
      StackShape(s, st);
    }
    JohnsonKernel.NothingPending(s, st, 1);
    assert got == Subtree(s, Anchor(changes[work]));
  }

  lemma StackShape(s: Search, st: Stack)
    requires StackOk(s, st, 1)
    ensures |st.cursors| == |st.path| > 0 && s.IsPath(st.path)
  {
  }
}
