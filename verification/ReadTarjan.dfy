/**
 * The static Read-Tarjan search: follow a path back to the root, look for an alternate path at every
 * vertex on the way, and branch as soon as there is one.  Paths are stored in reverse, the root first.
 */
module ReadTarjan {
  import opened CsrGraphs
  import opened Clipping
  import opened CycleSearch
  import opened CycleTotals

  /** What holds between any two steps: the path is blocked and every other blocked vertex is dead. */
  ghost predicate State(s: Search, current: seq<nat>, blocked: seq<bool>) {
    && s.Valid() && s.rule == AboveRoot && s.cap == None
    && |blocked| == s.g.Order() && !blocked[s.root] && s.IsPath(current)
    && (forall i :: 0 < i < |current| ==> current[i] != s.root && blocked[current[i]])
    && Dead(s, current, blocked)
  }

  /** From a blocked vertex off the path only blocked vertices can be reached. */
  ghost predicate Dead(s: Search, current: seq<nat>, blocked: seq<bool>)
    requires s.Valid() && |blocked| == s.g.Order()
  {
    forall v, w :: 0 <= v < |blocked| && blocked[v] && v !in current && Linked(s, v, w) ==> 0 <= w < |blocked| && blocked[w]
  }

  /** A path to the root over unblocked vertices, in reverse; it takes an edge to the root at once. */
  ghost predicate Route(s: Search, blocked: seq<bool>, path: seq<nat>)
    requires s.Valid() && |blocked| == s.g.Order()
  {
    && 1 <= |path| && path[0] == s.root
    && (forall i :: 1 <= i < |path| ==> path[i] < s.g.Order() && path[i] > s.root && !blocked[path[i]])
    && (forall i, j :: 0 <= i < j < |path| ==> path[i] != path[j])
    && (forall i :: 1 <= i < |path| ==> Linked(s, path[i], path[i - 1]))
    && (forall i :: 2 <= i < |path| ==> !Linked(s, path[i], s.root))
  }

  /** What following the link from the end of `current` to `next` contributes. */
  ghost function Towards(s: Search, current: seq<nat>, next: nat): Histogram
    requires s.Valid() && s.IsPath(current)
  {
    if next == s.root then multiset{|current|}
    else if next < s.g.Order() then Subtree(s, current + [next])
    else multiset{}
  }

  // ---- Lemmas about the state ----

  lemma BlockedOwesNothing(s: Search, current: seq<nat>, blocked: seq<bool>, slot: nat)
    requires State(s, current, blocked) && AtSlot(s, current, slot) && slot < s.Limit(current)
    requires blocked[s.g.targets[slot]]
    ensures Branch(s, current, slot) == multiset{}
  {
    var next := s.g.targets[slot];
    if s.Takes(s.Last(current), slot) && next !in current {
      var dead := set v | 0 <= v < |blocked| && blocked[v] && v !in current;
      SealedOwesNothing(s, current, current + [next], dead, s.g.Begin(next));
    }
  }

  /** The path grows by an unblocked vertex. */
  lemma Extend(s: Search, current: seq<nat>, blocked: seq<bool>, v: nat)
    requires State(s, current, blocked) && v < s.g.Order() && v != s.root && !blocked[v]
    ensures State(s, current + [v], blocked[v := true])
  {
    var next := current + [v];
    assert forall i :: 0 < i < |current| ==> next[i] == current[i];
    assert v in next;
  }

  /** A failed search leaves a region that cannot reach the root. */
  ghost predicate Exhausted(s: Search, visited: seq<bool>, blocked: seq<bool>)
    requires s.Valid() && |visited| == |blocked| == s.g.Order()
  {
    forall v, w :: 0 <= v < |visited| && visited[v] && Linked(s, v, w) ==>
      w != s.root && 0 <= w < |visited| && (visited[w] || blocked[w])
  }

  ghost function Merge(visited: seq<bool>, blocked: seq<bool>): (r: seq<bool>)
    requires |visited| == |blocked|
    ensures |r| == |blocked| && forall v :: 0 <= v < |r| ==> (r[v] <==> blocked[v] || visited[v])
  {
    seq(|blocked|, v requires 0 <= v < |blocked| => blocked[v] || visited[v])
  }

  lemma MarkDead(s: Search, current: seq<nat>, visited: seq<bool>, blocked: seq<bool>)
    requires State(s, current, blocked) && |visited| == |blocked| && Exhausted(s, visited, blocked) && !visited[s.root]
    ensures State(s, current, Merge(visited, blocked))
  {
  }

  /** A route never enters an exhausted region, so it survives the marking. */
  lemma {:induction false} RouteAvoids(s: Search, visited: seq<bool>, blocked: seq<bool>, path: seq<nat>, i: nat)
    requires s.Valid() && |visited| == |blocked| == s.g.Order() && Exhausted(s, visited, blocked)
    requires Route(s, blocked, path) && 1 <= i < |path|
    ensures !visited[path[i]]
  {
    assert Linked(s, path[i], path[i - 1]);
    if i > 1 {
      RouteAvoids(s, visited, blocked, path, i - 1);
    }
  }

  lemma RouteSurvives(s: Search, visited: seq<bool>, blocked: seq<bool>, path: seq<nat>)
    requires s.Valid() && |visited| == |blocked| == s.g.Order() && Exhausted(s, visited, blocked)
    requires Route(s, blocked, path)
    ensures Route(s, Merge(visited, blocked), path)
  {
    forall i | 1 <= i < |path| ensures !Merge(visited, blocked)[path[i]] {
      RouteAvoids(s, visited, blocked, path, i);
    }
  }

  /** When only one slot contributes, the subtree is that branch. */
  lemma {:induction false} OnlyBranch(s: Search, current: seq<nat>, slot: nat, only: nat)
    requires AtSlot(s, current, slot) && slot <= only < s.Limit(current)
    requires forall x :: slot <= x < s.Limit(current) && x != only ==> Branch(s, current, x) == multiset{}
    ensures Owed(s, current, slot) == Branch(s, current, only)
    decreases s.Limit(current) - slot
  {
    if slot == only {
      NoBranches(s, current, slot + 1);
    } else {
      OnlyBranch(s, current, slot + 1, only);
    }
  }

  lemma {:induction false} NoBranches(s: Search, current: seq<nat>, slot: nat)
    requires AtSlot(s, current, slot)
    requires forall x :: slot <= x < s.Limit(current) ==> Branch(s, current, x) == multiset{}
    ensures Owed(s, current, slot) == multiset{}
    decreases s.Limit(current) - slot
  {
    if slot < s.Limit(current) {
      NoBranches(s, current, slot + 1);
    }
  }

  /** The branch of a slot that a path may follow. */
  lemma BranchIsTowards(s: Search, current: seq<nat>, blocked: seq<bool>, slot: nat)
    requires State(s, current, blocked) && AtSlot(s, current, slot) && slot < s.Limit(current)
    requires s.g.targets[slot] >= s.root && !blocked[s.g.targets[slot]]
    requires s.g.targets[slot] == s.root ==> |current| >= 2
    ensures Branch(s, current, slot) == Towards(s, current, s.g.targets[slot])
  {
    var next := s.g.targets[slot];
    forall i | 0 <= i < |current| && next != s.root ensures current[i] != next {}
  }

  /** What a successful depth-first search from `v` returns: a route over vertices not seen before. */
  ghost predicate FreshRoute(s: Search, seen: seq<bool>, blocked: seq<bool>, path: seq<nat>, v: nat)
    requires s.Valid() && |blocked| == |seen| == s.g.Order()
  {
    && Route(s, blocked, path) && 2 <= |path| && path[|path| - 1] == v
    && forall i :: 1 <= i < |path| ==> !seen[path[i]]
  }

  /** Everything newly visited is exhausted: its links lead to visited or blocked vertices. */
  ghost predicate NewlyExhausted(s: Search, seen: seq<bool>, visited: seq<bool>, blocked: seq<bool>)
    requires s.Valid() && |seen| == |visited| == |blocked| == s.g.Order()
  {
    forall v, w :: 0 <= v < |visited| && visited[v] && !seen[v] && Linked(s, v, w) ==>
      w != s.root && 0 <= w < |visited| && (visited[w] || blocked[w])
  }

  /** Every slot of `v` before `limit` leads below the root or to a visited or blocked vertex. */
  ghost predicate Tried(s: Search, v: nat, limit: nat, visited: seq<bool>, blocked: seq<bool>)
    requires s.Valid() && |visited| == |blocked| == s.g.Order()
  {
    forall slot :: s.g.InRow(v, slot) && slot < limit ==>
      var w := s.g.targets[slot]; w < s.root || (w > s.root && (visited[w] || blocked[w]))
  }

  ghost predicate Grows(seen: seq<bool>, visited: seq<bool>) {
    |seen| == |visited| && forall v :: 0 <= v < |seen| && seen[v] ==> visited[v]
  }

  ghost function Unseen(visited: seq<bool>): set<nat> {
    set v | 0 <= v < |visited| && !visited[v]
  }

  /** A vertex whose slots are all tried is exhausted too. */
  lemma FinishVertex(s: Search, seen: seq<bool>, visited: seq<bool>, blocked: seq<bool>, v: nat)
    requires s.Valid() && s.rule == AboveRoot && |seen| == |visited| == |blocked| == s.g.Order()
    requires v < |seen| && NewlyExhausted(s, seen[v := true], visited, blocked)
    requires Tried(s, v, s.g.End(v), visited, blocked)
    ensures NewlyExhausted(s, seen, visited, blocked)
  {
    forall u, w | 0 <= u < |visited| && visited[u] && !seen[u] && Linked(s, u, w)
      ensures w != s.root && 0 <= w < |visited| && (visited[w] || blocked[w])
    {
      if u == v {
        var slot :| s.g.InRow(v, slot) && s.Takes(v, slot) && s.g.targets[slot] == w;
      }
    }
  }

  lemma StartVertex(s: Search, v: nat, visited: seq<bool>, blocked: seq<bool>)
    requires s.Valid() && |visited| == |blocked| == s.g.Order() && v < |visited|
    ensures Tried(s, v, s.g.Begin(v), visited, blocked) && NewlyExhausted(s, visited, visited, blocked)
  {
  }

  lemma EdgeRoute(s: Search, seen: seq<bool>, blocked: seq<bool>, v: nat, slot: nat)
    requires s.Valid() && s.rule == AboveRoot && |seen| == |blocked| == s.g.Order()
    requires s.root < v < |seen| && !seen[v] && !blocked[v] && s.g.InRow(v, slot) && s.g.targets[slot] == s.root
    ensures FreshRoute(s, seen, blocked, [s.root, v], v)
  {
    assert s.Takes(v, slot);
  }

  /** Going one vertex back along a route. */
  lemma StepBack(s: Search, seen: seq<bool>, before: seq<bool>, blocked: seq<bool>, path: seq<nat>, v: nat, slot: nat)
    requires s.Valid() && s.rule == AboveRoot && s.g.Sorted() && |seen| == |before| == |blocked| == s.g.Order()
    requires s.root < v < |seen| && !seen[v] && !blocked[v] && Grows(seen[v := true], before)
    requires s.g.InRow(v, slot) && s.g.targets[slot] > s.root && Tried(s, v, slot, before, blocked)
    requires FreshRoute(s, before, blocked, path, s.g.targets[slot])
    ensures FreshRoute(s, seen, blocked, path + [v], v)
  {
    assert s.Takes(v, slot) && Linked(s, v, s.g.targets[slot]);
    LinkLater(s, v, slot);
    hide Linked, Tried, Csr.Sorted;
    RouteGrows(s, seen, before, blocked, path, s.g.targets[slot], v);
  }

  /** A route continues backwards to a vertex that was not seen, with a link to its start and none to the root. */
  lemma RouteGrows(s: Search, seen: seq<bool>, before: seq<bool>, blocked: seq<bool>, path: seq<nat>, w: nat, v: nat)
    requires s.Valid() && |seen| == |before| == |blocked| == s.g.Order() && FreshRoute(s, before, blocked, path, w)
    requires s.root < v < |seen| && !seen[v] && !blocked[v] && Grows(seen[v := true], before)
    requires Linked(s, v, w) && !Linked(s, v, s.root)
    ensures FreshRoute(s, seen, blocked, path + [v], v)
  {
    hide Linked;
    assert before[v] by {
      assert seen[v := true][v];
    }
    forall i | 1 <= i < |path| ensures !seen[path[i]] && path[i] != v {
      assert !before[path[i]];
    }
  }

  lemma TriedMore(s: Search, v: nat, slot: nat, before: seq<bool>, after: seq<bool>, blocked: seq<bool>)
    requires s.Valid() && |before| == |after| == |blocked| == s.g.Order()
    requires Tried(s, v, slot, before, blocked) && Grows(before, after) && s.g.InRow(v, slot)
    requires var w := s.g.targets[slot]; w < s.root || (w > s.root && (after[w] || blocked[w]))
    ensures Tried(s, v, slot + 1, after, blocked)
  {
  }

  lemma ExhaustedMore(s: Search, seen: seq<bool>, before: seq<bool>, after: seq<bool>, blocked: seq<bool>)
    requires s.Valid() && |seen| == |before| == |after| == |blocked| == s.g.Order()
    requires NewlyExhausted(s, seen, before, blocked) && NewlyExhausted(s, before, after, blocked) && Grows(before, after)
    ensures NewlyExhausted(s, seen, after, blocked)
  {
    forall v, w | 0 <= v < |after| && after[v] && !seen[v] && Linked(s, v, w)
      ensures w != s.root && 0 <= w < |after| && (after[w] || blocked[w])
    {
      if before[v] {}
    }
  }

  /** Depth-first search for the root; in sorted rows an edge to the root is met before any other use. */
  method FindPathDfs(g: Csr, root: nat, vertex: nat, visited: array<bool>, blocked: seq<bool>)
    returns (found: bool, path: seq<nat>)
    requires g.Valid() && g.Sorted() && root < vertex < g.Order() == visited.Length == |blocked|
    requires !visited[vertex] && !blocked[vertex] && !visited[root]
    modifies visited
    ensures Grows(old(visited[..]), visited[..]) && visited[vertex] && !visited[root]
    ensures found ==> FreshRoute(Search(g, root, AboveRoot, None), old(visited[..]), blocked, path, vertex)
    ensures !found ==> NewlyExhausted(Search(g, root, AboveRoot, None), old(visited[..]), visited[..], blocked)
    decreases Unseen(visited[..])
  {
    ghost var s, seen := Search(g, root, AboveRoot, None), visited[..];
    assert vertex in Unseen(seen);
    visited[vertex] := true;
    assert visited[..] == seen[vertex := true];
    hide NewlyExhausted, Tried, Route;
    StartVertex(s, vertex, visited[..], blocked);
    for slot := g.Begin(vertex) to g.End(vertex)
      invariant Grows(seen[vertex := true], visited[..]) && !visited[root]
      invariant Tried(s, vertex, slot, visited[..], blocked)
      invariant NewlyExhausted(s, seen[vertex := true], visited[..], blocked)
    {
      var next := g.targets[slot];
      ghost var before := visited[..];
      assert g.InRow(vertex, slot);
      if next == root {
        EdgeRoute(s, seen, blocked, vertex, slot);
        return true, [root, vertex];
      }
      if next > root && !visited[next] && !blocked[next] {
        found, path := FindPathDfs(g, root, next, visited, blocked);
        if found {
          StepBack(s, seen, before, blocked, path, vertex, slot);
          path := path + [vertex];
          return;
        }
        ExhaustedMore(s, seen[vertex := true], before, visited[..], blocked);
      }
      TriedMore(s, vertex, slot, before, visited[..], blocked);
    }
    FinishVertex(s, seen, visited[..], blocked, vertex);
    return false, [];
  }

  /** Past a vertex above the root, a sorted row has no edge to the root any more. */
  lemma LinkLater(s: Search, v: nat, slot: nat)
    requires s.Valid() && s.g.Sorted() && s.g.InRow(v, slot) && s.g.targets[slot] > s.root
    requires forall x :: s.g.InRow(v, x) && x < slot ==> s.g.targets[x] != s.root
    ensures !Linked(s, v, s.root)
  {
    forall x | s.g.InRow(v, x) ensures s.g.targets[x] != s.root {
      if x > slot {
        assert s.g.targets[slot] < s.g.targets[x];
      }
    }
  }

  /** The first vertex of a path stored in reverse; a path always has one. */
  function PathEnd(path: seq<nat>): nat {
    if path == [] then 0 else path[|path| - 1]
  }

  /** The path can be followed from the end of `current`. */
  ghost predicate Follows(s: Search, current: seq<nat>, blocked: seq<bool>, path: seq<nat>)
    requires State(s, current, blocked)
  {
    && Route(s, blocked, path) && Linked(s, s.Last(current), PathEnd(path))
    && (PathEnd(path) == s.root ==> |current| >= 2)
  }

  /** Some slot of `v` before `limit` is a self-loop. */
  ghost predicate LoopBefore(g: Csr, v: nat, limit: nat)
    requires g.Valid()
  {
    exists slot :: g.InRow(v, slot) && slot < limit && g.targets[slot] == v
  }

  ghost predicate HasLoop(g: Csr, v: nat)
    requires g.Valid() && v < g.Order()
  {
    LoopBefore(g, v, g.End(v))
  }

  /** The path search from the root itself: in its sorted row the self-loop comes before any greater vertex. */
  method FindPathFromRoot(g: Csr, root: nat) returns (path: seq<nat>)
    requires g.Valid() && g.Sorted() && root < g.Order() && HasLoop(g, root)
    ensures path == [root, root]
  {
    ghost var x :| g.InRow(root, x) && g.targets[x] == root;
    var slot := g.Begin(root);
    while g.targets[slot] != root
      invariant g.Begin(root) <= slot <= x
      decreases x - slot
    {
      assert g.InRow(root, slot) && g.targets[slot] < root;
      slot := slot + 1;
    }
    return [root, root];
  }

  /** A failed search marks everything it visited as dead; from the root it finds the self-loop. */
  method FindPath(g: Csr, root: nat, start: nat, blocked: seq<bool>, ghost current: seq<nat>)
    returns (found: bool, path: seq<nat>, after: seq<bool>)
    requires g.Valid() && g.Sorted() && root <= start < g.Order() && State(Search(g, root, AboveRoot, None), current, blocked)
    requires !blocked[start] && (start == root ==> HasLoop(g, root))
    ensures State(Search(g, root, AboveRoot, None), current, after) && Grows(blocked, after)
    ensures forall r :: Route(Search(g, root, AboveRoot, None), blocked, r) ==> Route(Search(g, root, AboveRoot, None), after, r)
    ensures found ==> after == blocked && 2 <= |path| && PathEnd(path) == start
    ensures found && start > root ==> Route(Search(g, root, AboveRoot, None), after, path)
    ensures start == root ==> found && path == [root, root]
    ensures !found ==> after[start]
  {
    ghost var s := Search(g, root, AboveRoot, None);
    if start == root {
      path := FindPathFromRoot(g, root);
      return true, path, blocked;
    }
    var visited := new bool[g.Order()](_ => false);
    ghost var none := visited[..];
    found, path := FindPathDfs(g, root, start, visited, blocked);
    after := blocked;
    if !found {
      ghost var marks := visited[..];
      assert Exhausted(s, marks, blocked);
      for vertex := 0 to |blocked|
        invariant |after| == |blocked| && visited[..] == marks
        invariant forall v :: 0 <= v < |blocked| ==> (after[v] <==> blocked[v] || (v < vertex && marks[v]))
      {
        if visited[vertex] {
          after := after[vertex := true];
        }
      }
      assert after == Merge(marks, blocked);
      MarkDead(s, current, marks, blocked);
      forall r | Route(s, blocked, r) ensures Route(s, after, r) {
        RouteSurvives(s, marks, blocked, r);
      }
    }
  }

  /** Every slot before `limit` leads to `next`, below the root, or to a blocked vertex. */
  ghost predicate Hopeless(s: Search, v: nat, limit: nat, blocked: seq<bool>, next: nat)
    requires s.Valid() && |blocked| == s.g.Order()
  {
    forall slot :: s.g.InRow(v, slot) && slot < limit ==>
      var w := s.g.targets[slot]; w == next || w < s.root || blocked[w]
  }

  /** Without an alternate path, only the followed link contributes. */
  lemma NoAlternate(s: Search, current: seq<nat>, blocked: seq<bool>, path: seq<nat>)
    requires State(s, current, blocked) && Follows(s, current, blocked, path) && s.g.Simple()
    requires Hopeless(s, s.Last(current), s.Limit(current), blocked, PathEnd(path))
    ensures Subtree(s, current) == Towards(s, current, PathEnd(path))
  {
    var v, next := s.Last(current), PathEnd(path);
    var only :| s.g.InRow(v, only) && s.Takes(v, only) && s.g.targets[only] == next;
    forall x | s.First(current) <= x < s.Limit(current) && x != only ensures Branch(s, current, x) == multiset{} {
      assert s.g.InRow(v, x);
      assert s.g.targets[x] != next;
      if s.g.targets[x] >= s.root {
        BlockedOwesNothing(s, current, blocked, x);
      }
    }
    OnlyBranch(s, current, s.First(current), only);
    BranchIsTowards(s, current, blocked, only);
  }

  /** Looks for a second way back from the end of `current`; failed attempts mark dead vertices. */
  method FindAlternate(g: Csr, root: nat, previous: nat, blocked: seq<bool>, path: seq<nat>, ghost current: seq<nat>)
    returns (alternate: Option<seq<nat>>, after: seq<bool>)
    requires g.Valid() && g.Sorted() && State(Search(g, root, AboveRoot, None), current, blocked)
    requires current[|current| - 1] == previous
    requires Follows(Search(g, root, AboveRoot, None), current, blocked, path)
    requires Linked(Search(g, root, AboveRoot, None), previous, root) ==> PathEnd(path) == root
    ensures State(Search(g, root, AboveRoot, None), current, after)
    ensures Follows(Search(g, root, AboveRoot, None), current, after, path)
    ensures alternate.Some? ==> Follows(Search(g, root, AboveRoot, None), current, after, alternate.value)
    ensures |after| == g.Order()
    ensures alternate.Some? ==> PathEnd(alternate.value) != PathEnd(path)
    ensures alternate == None ==> Subtree(Search(g, root, AboveRoot, None), current) ==
                                  Towards(Search(g, root, AboveRoot, None), current, PathEnd(path))
  {
    ghost var s := Search(g, root, AboveRoot, None);
    var next := PathEnd(path);
    after := blocked;
    SortedIsSimple(g);
    for slot := g.Begin(previous) to g.End(previous)
      invariant State(s, current, after) && Follows(s, current, after, path)
      invariant Hopeless(s, previous, slot, after, next)
    {
      var candidate := g.targets[slot];
      assert g.InRow(previous, slot);
      if candidate == root {
        assert s.Takes(previous, slot) && candidate == next;
      }
      ghost var before := after;
      if candidate != next && candidate > root && !after[candidate] {
        var found, other, dead := FindPath(g, root, candidate, after, current);
        after := dead;
        if found {
          assert s.Takes(previous, slot);
          return Some(other), after;
        }
      }
      HopelessMore(s, previous, slot, before, after, next);
    }
    NoAlternate(s, current, after, path);
    return None, after;
  }

  lemma HopelessMore(s: Search, v: nat, slot: nat, before: seq<bool>, after: seq<bool>, next: nat)
    requires s.Valid() && |before| == |after| == s.g.Order()
    requires Hopeless(s, v, slot, before, next) && Grows(before, after) && s.g.InRow(v, slot)
    requires var w := s.g.targets[slot]; w == next || w < s.root || after[w]
    ensures Hopeless(s, v, slot + 1, after, next)
  {
  }

  /** A route can be followed once its last vertex joins the path. */
  lemma Advance(s: Search, current: seq<nat>, blocked: seq<bool>, path: seq<nat>)
    requires State(s, current, blocked) && Follows(s, current, blocked, path) && PathEnd(path) != s.root
    ensures var previous := PathEnd(path);
            && |path| >= 2 && s.IsPath(current + [previous]) && previous < |blocked|
            && previous in s.Free(current) && s.Free(current + [previous]) < s.Free(current)
            && State(s, current + [previous], blocked[previous := true])
            && Follows(s, current + [previous], blocked[previous := true], path[..|path| - 1])
            && (Linked(s, previous, s.root) ==> path[|path| - 2] == s.root)
            && Towards(s, current, previous) == Subtree(s, current + [previous])
  {
    var previous := PathEnd(path);
    assert Linked(s, PathEnd(path), path[|path| - 2]);
    Extend(s, current, blocked, previous);
    forall i | 0 <= i < |current| ensures current[i] != previous {}
    assert previous in s.Free(current) && previous !in s.Free(current + [previous]);
  }

  /** One branch is part of what its row owes. */
  lemma {:induction false} BranchWithin(s: Search, current: seq<nat>, slot: nat, x: nat)
    requires AtSlot(s, current, slot) && slot <= x < s.Limit(current)
    ensures Branch(s, current, x) <= Owed(s, current, slot)
    decreases x - slot
  {
    if slot < x {
      BranchWithin(s, current, slot + 1, x);
    }
  }

  lemma {:induction false} BranchesWithin(s: Search, current: seq<nat>, slot: nat, x: nat, y: nat)
    requires AtSlot(s, current, slot) && slot <= x < y < s.Limit(current)
    ensures Branch(s, current, x) + Branch(s, current, y) <= Owed(s, current, slot)
    decreases x - slot
  {
    if slot < x {
      BranchesWithin(s, current, slot + 1, x, y);
    } else {
      BranchWithin(s, current, slot + 1, y);
    }
  }

  /** The slot a followed path starts with, and its branch. */
  lemma FollowedSlot(s: Search, current: seq<nat>, blocked: seq<bool>, path: seq<nat>) returns (slot: nat)
    requires State(s, current, blocked) && Follows(s, current, blocked, path)
    ensures s.First(current) <= slot < s.Limit(current) && s.g.targets[slot] == PathEnd(path)
    ensures Branch(s, current, slot) == Towards(s, current, PathEnd(path))
  {
    slot :| s.g.InRow(s.Last(current), slot) && s.Takes(s.Last(current), slot) && s.g.targets[slot] == PathEnd(path);
    BranchIsTowards(s, current, blocked, slot);
  }

  /** Following a path always ends in at least one cycle. */
  lemma {:induction false} FollowingFinds(s: Search, current: seq<nat>, blocked: seq<bool>, path: seq<nat>)
    requires State(s, current, blocked) && Follows(s, current, blocked, path)
    ensures Towards(s, current, PathEnd(path)) != multiset{}
    decreases |path|
  {
    var previous := PathEnd(path);
    if previous != s.root {
      Advance(s, current, blocked, path);
      FollowingFinds(s, current + [previous], blocked[previous := true], path[..|path| - 1]);
      var slot := FollowedSlot(s, current + [previous], blocked[previous := true], path[..|path| - 1]);
      BranchWithin(s, current + [previous], s.First(current + [previous]), slot);
    }
  }

  /** Two paths that part at once end in at least two cycles. */
  lemma TwoPathsFindTwo(s: Search, current: seq<nat>, blocked: seq<bool>, a: seq<nat>, b: seq<nat>)
    requires State(s, current, blocked) && Follows(s, current, blocked, a) && Follows(s, current, blocked, b)
    requires PathEnd(a) != PathEnd(b)
    ensures |Subtree(s, current)| >= 2
  {
    var x := FollowedSlot(s, current, blocked, a);
    var y := FollowedSlot(s, current, blocked, b);
    FollowingFinds(s, current, blocked, a);
    FollowingFinds(s, current, blocked, b);
    var parts := Branch(s, current, x) + Branch(s, current, y);
    if x < y {
      BranchesWithin(s, current, s.First(current), x, y);
    } else {
      BranchesWithin(s, current, s.First(current), y, x);
    }
    assert |Subtree(s, current) - parts| == |Subtree(s, current)| - |parts|;
    assert |parts| >= 2;
  }

  ghost predicate Differ(a: Option<seq<nat>>, b: Option<seq<nat>>) {
    a.Some? && b.Some? && PathEnd(a.value) != PathEnd(b.value)
  }

  lemma TwoMore(s: Search, current: seq<nat>, blocked: seq<bool>, a: Option<seq<nat>>, b: Option<seq<nat>>,
                cap: Option<nat>, before: Histogram, after: Histogram)
    requires State(s, current, blocked)
    requires a.Some? ==> Follows(s, current, blocked, a.value)
    requires b.Some? ==> Follows(s, current, blocked, b.value)
    requires after == before + Clip(Subtree(s, current), cap)
    ensures cap == None && Differ(a, b) ==> |after| >= |before| + 2
  {
    if cap == None && Differ(a, b) {
      ClipNone(Subtree(s, current));
      TwoPathsFindTwo(s, current, blocked, a.value, b.value);
    }
  }

  lemma LoopsInRow(g: Csr, v: nat, slot: nat)
    requires g.Valid() && v < g.Order() && g.Begin(v) <= slot <= g.End(v)
    ensures slot == g.Begin(v) ==> !LoopBefore(g, v, slot)
    ensures slot == g.End(v) ==> (LoopBefore(g, v, slot) <==> HasLoop(g, v))
  {
  }

  lemma LoopsAtSlot(g: Csr, v: nat, slot: nat)
    requires g.Valid() && g.InRow(v, slot)
    ensures LoopBefore(g, v, slot + 1) <==> LoopBefore(g, v, slot) || g.targets[slot] == v
    ensures g.targets[slot] == v ==> HasLoop(g, v)
  {
  }

  lemma NoLoops(g: Csr)
    requires g.Valid()
    ensures g.LoopFree() <==> forall v :: 0 <= v < g.Order() ==> !HasLoop(g, v)
  {
    if forall v :: 0 <= v < g.Order() ==> !HasLoop(g, v) {
      forall v, slot | g.InRow(v, slot) ensures g.targets[slot] != v {
        assert !HasLoop(g, v);
      }
    }
  }

  class ReadTarjanSearch {
    const g: Csr
    const cap: Option<nat>
    var root: nat
    var current: seq<nat>
    var histogram: Histogram

    constructor (g: Csr, cap: Option<nat>)
      ensures this.g == g && this.cap == cap && histogram == multiset{}
    {
      this.g, this.cap, root, current, histogram := g, cap, 0, [], multiset{};
    }

    /** The search without the cap: the cap only filters what is recorded. */
    function Query(): Search
      reads this
    {
      Search(g, root, AboveRoot, None)
    }

    /**
     * Branches on every successor of the last path vertex; refused at a root with a self-loop.  Two given
     * paths that part at once are two cycles.
     */
    method CyclesReadTarjan(edgeVertex: nat, blockedState: seq<bool>, mainPath: Option<seq<nat>>, alternatePath: Option<seq<nat>>)
      returns (ok: bool)
      requires g.Valid() && g.Sorted() && WithinCap(cap, 2) && State(Query(), current, blockedState)
      requires current[|current| - 1] == edgeVertex
      requires mainPath.Some? ==> Follows(Query(), current, blockedState, mainPath.value)
      requires alternatePath.Some? ==> Follows(Query(), current, blockedState, alternatePath.value)
      requires MainReady(Query(), edgeVertex, g.Begin(edgeVertex), mainPath)
      modifies `histogram, `current
      ensures current == old(current)
      ensures ok <==> |current| >= 2 || !HasLoop(g, root)
      ensures ok ==> histogram == old(histogram) + Clip(Subtree(Query(), current), cap)
      ensures ok && cap == None && Differ(mainPath, alternatePath) ==> |histogram| >= |old(histogram)| + 2
      decreases Query().Free(current), 4
    {
      hide State, Follows, MainReady, Clip, Differ, HasLoop;
      ok := BranchOnRow(edgeVertex, blockedState, mainPath, alternatePath);
      if ok {
        TwoMore(Query(), current, blockedState, mainPath, alternatePath, cap, old(histogram), histogram);
      }
    }

    method BranchOnRow(edgeVertex: nat, blockedState: seq<bool>, mainPath: Option<seq<nat>>, alternatePath: Option<seq<nat>>)
      returns (ok: bool)
      requires g.Valid() && g.Sorted() && WithinCap(cap, 2) && State(Query(), current, blockedState)
      requires current[|current| - 1] == edgeVertex
      requires mainPath.Some? ==> Follows(Query(), current, blockedState, mainPath.value)
      requires alternatePath.Some? ==> Follows(Query(), current, blockedState, alternatePath.value)
      requires MainReady(Query(), edgeVertex, g.Begin(edgeVertex), mainPath)
      modifies `histogram, `current
      ensures current == old(current)
      ensures ok <==> |current| >= 2 || !HasLoop(g, root)
      ensures ok ==> histogram == old(histogram) + Clip(Subtree(Query(), current), cap)
      decreases Query().Free(current), 3
    {
      hide State, Follows, MainReady, Clip, LoopBefore, Subtree, Branch, Owed, HasLoop;
      ghost var s, full, got := Query(), current, multiset{};
      var main, alternate := mainPath, alternatePath;
      Shape(s, full, blockedState);
      LoopsInRow(g, edgeVertex, g.Begin(edgeVertex));
      RowStarts(s, full);
      NothingClipped(cap);
      for slot := g.Begin(edgeVertex) to g.End(edgeVertex)
        invariant current == full
        invariant main.Some? ==> Follows(s, full, blockedState, main.value)
        invariant alternate.Some? ==> Follows(s, full, blockedState, alternate.value)
        invariant MainReady(s, edgeVertex, slot, main)
        invariant histogram == old(histogram) + Clip(got, cap) && got + Owed(s, full, slot) == Subtree(s, full)
        invariant |full| == 1 ==> !LoopBefore(g, root, slot)
      {
        LoopsAtSlot(g, edgeVertex, slot);
        ghost var before := histogram;
        main, alternate, ok := BranchOn(edgeVertex, slot, blockedState, main, alternate);
        if !ok {
          return;
        }
        RecordBranch(s, full, slot, cap, old(histogram), before, histogram, got);
        got := got + Branch(s, full, slot);
      }
      ok := true;
      LoopsInRow(g, edgeVertex, g.End(edgeVertex));
      assert got == Subtree(s, full);
    }

    /** The histogram takes lengths from 2 on; a longer path than the cap is not recorded. */
    method Record() returns (ok: bool)
      requires current != [] && WithinCap(cap, 2)
      modifies `histogram
      ensures ok <==> |current| >= 2
      ensures ok ==> histogram == old(histogram) + if WithinCap(cap, |current|) then multiset{|current|} else multiset{}
    {
      if cap == None || |current| <= cap.value {
        if |current| < 2 {
          return false;
        }
        histogram := histogram + multiset{|current|};
      }
      return true;
    }

    /** The path towards one successor: the main path, the alternate path, or one still to be found. */
    method ChoosePath(edgeVertex: nat, slot: nat, blockedState: seq<bool>, mainPath: Option<seq<nat>>, alternatePath: Option<seq<nat>>)
      returns (found: bool, path: seq<nat>, main: Option<seq<nat>>, alternate: Option<seq<nat>>)
      requires g.Valid() && g.Sorted() && State(Query(), current, blockedState)
      requires current[|current| - 1] == edgeVertex && g.InRow(edgeVertex, slot)
      requires g.targets[slot] >= root && !blockedState[g.targets[slot]]
      requires mainPath.Some? ==> Follows(Query(), current, blockedState, mainPath.value)
      requires alternatePath.Some? ==> Follows(Query(), current, blockedState, alternatePath.value)
      requires MainReady(Query(), edgeVertex, slot, mainPath)
      ensures !found ==> Branch(Query(), current, slot) == multiset{}
      ensures found ==> PathEnd(path) == g.targets[slot]
      ensures found && |current| == 1 && g.targets[slot] == root ==> path == [root, root]
      ensures found && (|current| >= 2 || g.targets[slot] != root) ==>
                Follows(Query(), current, blockedState, path) && Branch(Query(), current, slot) == Towards(Query(), current, PathEnd(path))
      ensures |current| == 1 && g.targets[slot] == root ==> found
      ensures main.Some? ==> Follows(Query(), current, blockedState, main.value)
      ensures alternate.Some? ==> Follows(Query(), current, blockedState, alternate.value)
      ensures MainReady(Query(), edgeVertex, slot + 1, main)
    {
      hide State, Follows, MainReady, Route, Towards, Branch, HasLoop;
      found, path, main, alternate := true, [], mainPath, alternatePath;
      ghost var s := Query();
      Shape(s, current, blockedState);
      var next := g.targets[slot];
      MainStays(s, edgeVertex, slot, mainPath);
      assert s.Takes(edgeVertex, slot);
      if main.Some? && next == PathEnd(main.value) {
        path, main := main.value, None;
        RootIsLater(s, current, blockedState, path);
      } else if alternate.Some? && next == PathEnd(alternate.value) {
        path, alternate := alternate.value, None;
        RootIsLater(s, current, blockedState, path);
      } else {
        if next == root {
          RootIsMain(s, edgeVertex, slot, main);
          LoopsAtSlot(g, root, slot);
        }
        ghost var dead;
        found, path, dead := FindPath(g, root, next, blockedState, current);
        if !found {
          BlockedOwesNothing(s, current, dead, slot);
          return;
        }
        if next > root {
          FoundFollows(s, current, blockedState, slot, path);
        }
      }
      if next > root || |current| >= 2 {
        SlotFollows(s, current, blockedState, slot, path);
      }
    }

    /** One successor of the last path vertex. */
    method BranchOn(edgeVertex: nat, slot: nat, blockedState: seq<bool>, mainPath: Option<seq<nat>>, alternatePath: Option<seq<nat>>)
      returns (main: Option<seq<nat>>, alternate: Option<seq<nat>>, ok: bool)
      requires g.Valid() && g.Sorted() && WithinCap(cap, 2) && State(Query(), current, blockedState)
      requires current[|current| - 1] == edgeVertex && g.InRow(edgeVertex, slot)
      requires mainPath.Some? ==> Follows(Query(), current, blockedState, mainPath.value)
      requires alternatePath.Some? ==> Follows(Query(), current, blockedState, alternatePath.value)
      requires MainReady(Query(), edgeVertex, slot, mainPath)
      modifies `histogram, `current
      ensures current == old(current)
      ensures ok <==> !(|current| == 1 && g.targets[slot] == root)
      ensures ok ==> histogram == old(histogram) + Clip(Branch(Query(), current, slot), cap)
      ensures main.Some? ==> Follows(Query(), current, blockedState, main.value)
      ensures alternate.Some? ==> Follows(Query(), current, blockedState, alternate.value)
      ensures MainReady(Query(), edgeVertex, slot + 1, main)
      decreases Query().Free(current), 2
    {
      hide State, Follows, MainReady, Route, Towards, Clip, Branch;
      main, alternate, ok := mainPath, alternatePath, true;
      Shape(Query(), current, blockedState);
      NothingClipped(cap);
      MainStays(Query(), edgeVertex, slot, mainPath);
      var next := g.targets[slot];
      if next < root {
        NotTaken(Query(), current, slot);
        return;
      }
      if blockedState[next] {
        BlockedOwesNothing(Query(), current, blockedState, slot);
        return;
      }
      var found, path;
      found, path, main, alternate := ChoosePath(edgeVertex, slot, blockedState, mainPath, alternatePath);
      if !found {
        return;
      }
      ghost var branched;
      ok, branched := FollowPath(edgeVertex, blockedState, path);
    }

    /** Follows the path until a vertex with an alternate path, or to the root. */
    method FollowUntilBranch(edgeVertex: nat, blockedState: seq<bool>, path0: seq<nat>)
      returns (branchVertex: nat, blocked: seq<bool>, path: seq<nat>, alternate: Option<seq<nat>>)
      requires g.Valid() && g.Sorted() && State(Query(), current, blockedState)
      requires current[|current| - 1] == edgeVertex && Follows(Query(), current, blockedState, path0)
      modifies `current
      ensures old(current) <= current && State(Query(), current, blocked) && Follows(Query(), current, blocked, path)
      ensures PathEnd(path0) != root ==> |current| >= 2
      ensures current[|current| - 1] == branchVertex
      ensures alternate == None ==> PathEnd(path) == root && Towards(Query(), current, root) == old(Towards(Query(), current, PathEnd(path0)))
      ensures alternate.Some? ==> Subtree(Query(), current) == old(Towards(Query(), current, PathEnd(path0)))
      ensures alternate.Some? ==> Follows(Query(), current, blocked, alternate.value) && PathEnd(alternate.value) != PathEnd(path)
      ensures alternate.Some? ==> |current| >= 2 && MainReady(Query(), branchVertex, g.Begin(branchVertex), Some(path))
      ensures alternate.Some? ==> Query().Free(current) < old(Query().Free(current))
    {
      hide State, Follows, MainReady, Towards, Subtree;
      branchVertex, blocked, path, alternate := edgeVertex, blockedState, path0, None;
      ghost var s, start := Query(), current;
      Shape(s, current, blocked);
      ghost var owed := Towards(s, start, PathEnd(path0));
      while PathEnd(path) != root && alternate == None
        invariant start <= current && s.IsPath(current) && State(s, current, blocked) && Follows(s, current, blocked, path)
        invariant current[|current| - 1] == branchVertex
        invariant alternate == None ==> Towards(s, current, PathEnd(path)) == owed
        invariant alternate.Some? ==> Subtree(s, current) == owed && Follows(s, current, blocked, alternate.value)
        invariant alternate.Some? ==> MainReady(s, branchVertex, g.Begin(branchVertex), Some(path))
        invariant alternate.Some? ==> PathEnd(alternate.value) != PathEnd(path) && |current| >= 2
        invariant s.Free(current) <= s.Free(start) && (alternate.Some? ==> s.Free(current) < s.Free(start))
        invariant |current| >= 2 || path == path0
        decreases |path|
      {
        var previous := PathEnd(path);
        Advance(s, current, blocked, path);
        path := path[..|path| - 1];
        current := current + [previous];
        blocked := blocked[previous := true];
        branchVertex := previous;
        alternate, blocked := FindAlternate(g, root, previous, blocked, path, current);
        MainIsReady(s, previous, path);
      }
    }

    /** There is an alternate path exactly when the followed link leads to two cycles or more. */
    method Approach(edgeVertex: nat, blockedState: seq<bool>, path0: seq<nat>)
      returns (branchVertex: nat, blocked: seq<bool>, path: seq<nat>, alternate: Option<seq<nat>>)
      requires g.Valid() && g.Sorted() && State(Query(), current, blockedState)
      requires current[|current| - 1] == edgeVertex && Follows(Query(), current, blockedState, path0)
      modifies `current
      ensures old(current) <= current && State(Query(), current, blocked) && Follows(Query(), current, blocked, path)
      ensures PathEnd(path0) != root ==> |current| >= 2
      ensures current[|current| - 1] == branchVertex
      ensures alternate == None ==> PathEnd(path) == root && Towards(Query(), current, root) == old(Towards(Query(), current, PathEnd(path0)))
      ensures alternate.Some? ==> Subtree(Query(), current) == old(Towards(Query(), current, PathEnd(path0)))
      ensures alternate.Some? ==> Follows(Query(), current, blocked, alternate.value) && PathEnd(alternate.value) != PathEnd(path)
      ensures alternate.Some? ==> |current| >= 2 && MainReady(Query(), branchVertex, g.Begin(branchVertex), Some(path))
      ensures alternate.Some? ==> Query().Free(current) < old(Query().Free(current))
      ensures alternate.Some? <==> |old(Towards(Query(), current, PathEnd(path0)))| >= 2
    {
      hide State, Follows, MainReady, Towards, Subtree;
      branchVertex, blocked, path, alternate := FollowUntilBranch(edgeVertex, blockedState, path0);
      Shape(Query(), current, blocked);
      if alternate.Some? {
        TwoPathsFindTwo(Query(), current, blocked, path, alternate.value);
      } else {
        TowardsRoot(Query(), current, None);
      }
    }

    /**
     * Records the cycles of a path and its alternates; it branches exactly when there are two cycles or more.
     * The path of a self-loop of the root is refused: its length is 1.
     */
    method FollowPath(edgeVertex: nat, blockedState: seq<bool>, path0: seq<nat>) returns (ok: bool, ghost branched: bool)
      requires g.Valid() && g.Sorted() && WithinCap(cap, 2) && State(Query(), current, blockedState)
      requires current[|current| - 1] == edgeVertex
      requires if |current| == 1 && PathEnd(path0) == root then path0 == [root, root] else Follows(Query(), current, blockedState, path0)
      modifies `histogram, `current
      ensures current == old(current)
      ensures ok <==> !(|current| == 1 && PathEnd(path0) == root)
      ensures ok ==> histogram == old(histogram) + Clip(Towards(Query(), current, PathEnd(path0)), cap)
      ensures ok ==> Towards(Query(), current, PathEnd(path0)) != multiset{}
      ensures ok ==> (branched <==> |Towards(Query(), current, PathEnd(path0))| >= 2)
      ensures ok && cap == None ==> |histogram| >= |old(histogram)| + if branched then 2 else 1
      decreases Query().Free(current), 1
    {
      hide State, Follows, MainReady, Towards, Clip, Subtree, HasLoop, Differ;
      Shape(Query(), current, blockedState);
      ghost var s, start, owed := Query(), current, Towards(Query(), current, PathEnd(path0));
      ClipNone(owed);
      branched := false;
      if PathEnd(path0) == root {
        TowardsRoot(s, current, cap);
        ok := Record();
        return;
      }
      FollowingFinds(s, start, blockedState, path0);
      branched := FollowOn(edgeVertex, blockedState, path0);
      ok := true;
    }

    /** Follows a path that still has vertices above the root. */
    method FollowOn(edgeVertex: nat, blockedState: seq<bool>, path0: seq<nat>) returns (ghost branched: bool)
      requires g.Valid() && g.Sorted() && WithinCap(cap, 2) && State(Query(), current, blockedState)
      requires current[|current| - 1] == edgeVertex && Follows(Query(), current, blockedState, path0) && PathEnd(path0) != root
      modifies `histogram, `current
      ensures current == old(current)
      ensures histogram == old(histogram) + Clip(Towards(Query(), current, PathEnd(path0)), cap)
      ensures branched <==> |Towards(Query(), current, PathEnd(path0))| >= 2
      decreases Query().Free(current), 0
    {
      hide State, Follows, MainReady, Towards, Clip, Subtree, HasLoop, Differ;
      var restoreSize := |current|;
      ghost var s := Query();
      var branchVertex, blocked, path, alternate := Approach(edgeVertex, blockedState, path0);
      Shape(s, current, blocked);
      branched := alternate.Some?;
      if alternate.Some? {
        var _ := CyclesReadTarjan(branchVertex, blocked, Some(path), alternate);
      } else {
        TowardsRoot(s, current, cap);
        var _ := Record();
      }
      current := current[..restoreSize];
    }

    /** The static run: one search per root; refused exactly when some vertex has a self-loop. */
    method Run() returns (ok: bool)
      requires g.Valid() && g.Sorted() && histogram == multiset{} && WithinCap(cap, 2)
      modifies this
      ensures ok <==> g.LoopFree()
      ensures ok ==> histogram == StaticBefore(g, cap, g.Order())
    {
      hide State, Clip, Subtree, HasLoop, Csr.LoopFree;
      NoLoops(g);
      for next := 0 to g.Order()
        invariant histogram == StaticBefore(g, cap, next)
        invariant forall v :: 0 <= v < next ==> !HasLoop(g, v)
      {
        root, current := next, [next];
        var blocked := seq(g.Order(), _ => false);
        Fresh(Query(), blocked);
        ok := CyclesReadTarjan(next, blocked, None, None);
        if !ok {
          return;
        }
        ClippedRoot(g, cap, next);
      }
      ok := true;
    }
  }

  lemma Fresh(s: Search, blocked: seq<bool>)
    requires s.Valid() && s.rule == AboveRoot && s.cap == None
    requires |blocked| == s.g.Order() && forall v :: 0 <= v < |blocked| ==> !blocked[v]
    ensures State(s, [s.root], blocked) && MainReady(s, s.root, s.g.Begin(s.root), None)
  {
  }

  lemma ClippedRoot(g: Csr, cap: Option<nat>, root: nat)
    requires g.Valid() && root < g.Order() && WithinCap(cap, 2)
    ensures Clip(Subtree(Search(g, root, AboveRoot, None), [root]), cap) == Subtree(RootSearch(g, cap, root), [root])
  {
    BoundedIsClipped(RootSearch(g, cap, root), [root], g.Begin(root));
  }

  lemma Shape(s: Search, current: seq<nat>, blocked: seq<bool>)
    requires State(s, current, blocked)
    ensures s.Valid() && s.IsPath(current) && |blocked| == s.g.Order() && s.rule == AboveRoot && s.cap == None
    ensures !blocked[s.root] && (s.Last(current) == s.root <==> |current| == 1)
  {
  }

  /** What a slot records is moved from owed to recorded. */
  lemma RecordBranch(s: Search, p: seq<nat>, slot: nat, cap: Option<nat>, start: Histogram, before: Histogram, after: Histogram, got: Histogram)
    requires AtSlot(s, p, slot) && slot < s.Limit(p)
    requires before == start + Clip(got, cap) && got + Owed(s, p, slot) == Subtree(s, p)
    requires after == before + Clip(Branch(s, p, slot), cap)
    ensures after == start + Clip(got + Branch(s, p, slot), cap)
    ensures got + Branch(s, p, slot) + Owed(s, p, slot + 1) == Subtree(s, p)
  {
    hide Clip, Branch;
    ClipSum(got, Branch(s, p, slot), cap);
    RowGoesOn(s, p, slot);
  }

  lemma NothingClipped(cap: Option<nat>)
    ensures Clip(multiset{}, cap) == multiset{}
  {
  }

  lemma ClipNone(h: Histogram)
    ensures Clip(h, None) == h
  {
    hide Clip;
  }

  lemma TowardsRoot(s: Search, current: seq<nat>, cap: Option<nat>)
    requires s.Valid() && s.IsPath(current)
    ensures Clip(Towards(s, current, s.root), cap) == if WithinCap(cap, |current|) then multiset{|current|} else multiset{}
    ensures |Towards(s, current, s.root)| == 1
  {
  }

  /** Taking the main path out is harmless once its slot is passed. */
  lemma MainStays(s: Search, v: nat, slot: nat, main: Option<seq<nat>>)
    requires s.Valid() && s.rule == AboveRoot && s.g.Sorted() && s.g.InRow(v, slot)
    requires MainReady(s, v, slot, main)
    ensures MainReady(s, v, slot + 1, main)
    ensures main.Some? && s.g.targets[slot] == PathEnd(main.value) ==> MainReady(s, v, slot + 1, None)
  {
    RootSlots(s, v, slot);
  }

  /** A path that goes to the root at once is followed from beyond the root. */
  lemma RootIsLater(s: Search, current: seq<nat>, blocked: seq<bool>, path: seq<nat>)
    requires State(s, current, blocked) && Follows(s, current, blocked, path)
    ensures PathEnd(path) == s.root ==> |current| >= 2
  {
  }

  /** A slot below the root contributes nothing. */
  lemma NotTaken(s: Search, current: seq<nat>, slot: nat)
    requires AtSlot(s, current, slot) && slot < s.Limit(current) && s.rule == AboveRoot && s.g.targets[slot] < s.root
    ensures Branch(s, current, slot) == multiset{}
  {
  }

  /** The root is only ever reached along the main path. */
  lemma RootIsMain(s: Search, v: nat, slot: nat, main: Option<seq<nat>>)
    requires s.Valid() && s.g.InRow(v, slot) && MainReady(s, v, slot, main)
    requires main.Some? ==> s.g.targets[slot] != PathEnd(main.value)
    ensures s.g.targets[slot] == s.root ==> v == s.root
  {
  }

  /** A path found from a slot's target can be followed. */
  lemma FoundFollows(s: Search, current: seq<nat>, blocked: seq<bool>, slot: nat, path: seq<nat>)
    requires State(s, current, blocked) && AtSlot(s, current, slot) && slot < s.Limit(current)
    requires s.g.targets[slot] > s.root && Route(s, blocked, path) && PathEnd(path) == s.g.targets[slot]
    ensures Follows(s, current, blocked, path)
  {
    assert s.g.InRow(s.Last(current), slot) && s.Takes(s.Last(current), slot);
  }

  /** The branch of a slot is what its path leads to. */
  lemma SlotFollows(s: Search, current: seq<nat>, blocked: seq<bool>, slot: nat, path: seq<nat>)
    requires State(s, current, blocked) && AtSlot(s, current, slot) && slot < s.Limit(current)
    requires s.g.targets[slot] >= s.root && !blocked[s.g.targets[slot]]
    requires Follows(s, current, blocked, path) && PathEnd(path) == s.g.targets[slot]
    ensures Branch(s, current, slot) == Towards(s, current, PathEnd(path))
  {
    BranchIsTowards(s, current, blocked, slot);
  }

  /** A vertex has one slot for the root, and the search may follow it. */
  lemma RootSlots(s: Search, v: nat, slot: nat)
    requires s.Valid() && s.rule == AboveRoot && s.g.Sorted() && s.g.InRow(v, slot)
    ensures s.g.targets[slot] == s.root ==> forall x :: s.g.InRow(v, x) && s.g.targets[x] == s.root ==> x == slot
  {
    SortedIsSimple(s.g);
  }

  lemma MainIsReady(s: Search, v: nat, path: seq<nat>)
    requires s.Valid() && s.rule == AboveRoot && v < s.g.Order() && |path| >= 1
    requires Linked(s, v, s.root) ==> PathEnd(path) == s.root
    ensures MainReady(s, v, s.g.Begin(v), Some(path))
  {
    forall x | s.g.InRow(v, x) && s.g.targets[x] == s.root ensures Linked(s, v, s.root) {
      assert s.Takes(v, x);
    }
  }

  /** While an edge to the root is still to come, the main path is the one that takes it. */
  ghost predicate MainReady(s: Search, v: nat, slot: nat, main: Option<seq<nat>>)
    requires s.Valid()
  {
    v != s.root ==> forall x :: s.g.InRow(v, x) && x >= slot && s.g.targets[x] == s.root ==>
      main.Some? && PathEnd(main.value) == s.root
  }
}
