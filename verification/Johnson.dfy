/**
 * Johnson's search with blocked vertices and blocked lists, for the static search (links to
 * vertices above the root) and for the time-window search (links active for one start event).
 */
module Johnson {
  import opened CsrGraphs
  import opened CycleSearch
  import opened CycleTotals
  import opened StartEvents

  /**
   * What holds between any two steps.  `level[v]` bounds from above the path positions at which the
   * walks from a blocked vertex `v` end; `open` holds the vertices whose lists are being drained.
   */
  ghost predicate Consistent(s: Search, path: seq<nat>, blocked: seq<bool>, lists: seq<seq<nat>>,
                             level: seq<int>, open: set<nat>)
  {
    && s.Valid() && |blocked| == |lists| == |level| == s.g.Order()
    && OnPath(s, path, blocked, level, open)
    && ListsExplain(s, lists)
    && BlockedStuck(s, path, blocked, lists, level)
    && (forall w :: 0 <= w < |lists| && !blocked[w] && w !in open ==> lists[w] == [])
    && (forall w :: w in open ==> w < |level| && !blocked[w] && level[w] == |path| - 1)
    && (forall v :: 0 <= v < |level| ==> level[v] <= |path| - 1)
    && (forall i, w :: 0 <= i < |path| && 0 <= w < |lists| && path[i] in lists[w] ==> level[w] <= i)
  }

  /** The path repeats no vertex and everything on it but the root is blocked. */
  ghost predicate OnPath(s: Search, path: seq<nat>, blocked: seq<bool>, level: seq<int>, open: set<nat>)
    requires s.Valid() && |blocked| == |level| == s.g.Order()
  {
    && (path != [] ==> s.IsPath(path))
    && (forall i :: 0 <= i < |path| ==> level[path[i]] == i)
    && (forall i :: 0 <= i < |path| && path[i] != s.root && path[i] !in open ==> blocked[path[i]])
  }

  /** A vertex waits only in the lists of its own successors. */
  ghost predicate ListsExplain(s: Search, lists: seq<seq<nat>>)
    requires s.Valid() && |lists| == s.g.Order()
  {
    forall w, u :: 0 <= w < |lists| && u in lists[w] ==> u < |lists| && w != s.root && Linked(s, u, w)
  }

  /** A blocked vertex off the path has no link to the root and waits for all its successors. */
  ghost predicate BlockedStuck(s: Search, path: seq<nat>, blocked: seq<bool>, lists: seq<seq<nat>>, level: seq<int>)
    requires s.Valid() && |blocked| == |lists| == |level| == s.g.Order()
  {
    forall v, w :: 0 <= v < |blocked| && blocked[v] && v != s.root && v !in path && Linked(s, v, w) && w < |lists| ==>
      w != s.root && v in lists[w] && level[w] <= level[v]
  }

  ghost function Lower(level: seq<int>, bound: int): (r: seq<int>)
    ensures |r| == |level|
    ensures forall v :: 0 <= v < |level| ==> r[v] == if level[v] <= bound then level[v] else bound
  {
    seq(|level|, v requires 0 <= v < |level| => if level[v] <= bound then level[v] else bound)
  }

  lemma Shape(s: Search, path: seq<nat>, blocked: seq<bool>, lists: seq<seq<nat>>, level: seq<int>, open: set<nat>)
    requires Consistent(s, path, blocked, lists, level, open)
    ensures s.Valid() && |blocked| == |lists| == |level| == s.g.Order() && (path != [] ==> s.IsPath(path))
  {
  }

  /** Entering an unblocked vertex keeps the invariant. */
  lemma Enter(s: Search, path: seq<nat>, blocked: seq<bool>, lists: seq<seq<nat>>, level: seq<int>, v: nat)
    requires Consistent(s, path, blocked, lists, level, {})
    requires v < s.g.Order() && !blocked[v] && v !in path && (path == [] ==> v == s.root)
    ensures Consistent(s, path + [v], blocked[v := true], lists, level[v := |path|], {})
  {
  }

  /** The list of `w` once `v` has joined it, when it has to wait for `w`. */
  ghost predicate Joined(s: Search, v: nat, w: nat, before: seq<nat>, after: seq<nat>)
    requires s.Valid()
  {
    if w != s.root && Linked(s, v, w) then after == if v in before then before else before + [v] else after == before
  }

  /** Leaving a vertex below which nothing was found keeps the invariant. */
  lemma LeaveBlocked(s: Search, path: seq<nat>, v: nat, blocked: seq<bool>, lists: seq<seq<nat>>, after: seq<seq<nat>>,
                     level: seq<int>)
    requires Consistent(s, path + [v], blocked, lists, level, {})
    requires |after| == |lists|
    requires forall w :: 0 <= w < |lists| ==> Joined(s, v, w, lists[w], after[w])
    requires forall w :: 0 <= w < |lists| && Linked(s, v, w) ==> if w == s.root then v == s.root else blocked[w]
    ensures Consistent(s, path, blocked, after, Lower(level, |path| - 1), {})
  {
    var full := path + [v];
    assert full[|path|] == v && level[v] == |path|;
    forall i | 0 <= i < |path| ensures path[i] == full[i] && path[i] != v {
      assert level[full[i]] == i;
    }
    forall w | 0 <= w < |after| && !blocked[w] ensures after[w] == [] {
      assert Joined(s, v, w, lists[w], after[w]);
    }
  }

  /** Before the exiting vertex is released: it is the only one opened. */
  lemma Open(s: Search, path: seq<nat>, v: nat, blocked: seq<bool>, lists: seq<seq<nat>>, level: seq<int>)
    requires Consistent(s, path + [v], blocked, lists, level, {}) && v < |blocked|
    ensures Consistent(s, path + [v], blocked[v := false], lists, level, {v})
  {
    var full := path + [v];
    assert full[|path|] == v;
  }

  /** Taking a vertex out of an opened list: it is free, or it is off the path and can be opened. */
  lemma Pop(s: Search, path: seq<nat>, blocked: seq<bool>, lists: seq<seq<nat>>, level: seq<int>, open: set<nat>,
            v: nat, rest: seq<nat>, u: nat)
    requires Consistent(s, path, blocked, lists, level, open)
    requires path != [] && s.Last(path) in open
    requires v in open && lists[v] == rest + [u]
    ensures u < |blocked|
    ensures !blocked[u] ==> Consistent(s, path, blocked, lists[v := rest], level, open)
    ensures blocked[u] ==> u !in path && u !in open && Consistent(s, path, blocked[u := false], lists[v := rest], level, open + {u})
  {
    assert u in lists[v];
    forall x | x in lists[v] && x != u ensures x in rest {}
    var lists' := lists[v := rest];
    forall w, x | 0 <= w < |lists'| && x in lists'[w] ensures x in lists[w] {}
    assert ListsExplain(s, lists');
    if blocked[u] {
      forall i | 0 <= i < |path| ensures path[i] != u {}
      assert Linked(s, u, v) && level[u] == |path| - 1;
      var blocked' := blocked[u := false];
      assert OnPath(s, path, blocked', level, open + {u});
      assert BlockedStuck(s, path, blocked', lists', level);
    } else {
      assert BlockedStuck(s, path, blocked, lists', level);
    }
  }

  /** A drained vertex off the path needs no exemption any more. */
  lemma Close(s: Search, path: seq<nat>, blocked: seq<bool>, lists: seq<seq<nat>>, level: seq<int>, open: set<nat>, u: nat)
    requires Consistent(s, path, blocked, lists, level, open + {u})
    requires u !in path && lists[u] == []
    ensures Consistent(s, path, blocked, lists, level, open)
  {
  }

  /** Leaving a released vertex keeps the invariant. */
  lemma LeaveFree(s: Search, path: seq<nat>, v: nat, blocked: seq<bool>, lists: seq<seq<nat>>, level: seq<int>)
    requires Consistent(s, path + [v], blocked, lists, level, {v})
    requires lists[v] == []
    ensures Consistent(s, path, blocked, lists, Lower(level, |path| - 1), {})
  {
    var full := path + [v];
    assert full[|path|] == v;
    forall i | 0 <= i < |path| ensures path[i] == full[i] {}
  }

  /**
   * The path of a search is `lead + walk`.  Only when the start edge of a time-window search is a
   * self-loop the lead is the root and the walk starts at the root again; otherwise it is empty.
   */
  ghost predicate Leads(root: nat, lead: seq<nat>, walk: seq<nat>, path: seq<nat>) {
    path == lead + walk && (lead == [] || lead == [root])
  }

  /** Following a link to a blocked vertex would find nothing. */
  lemma BlockedBranch(s: Search, lead: seq<nat>, walk: seq<nat>, path: seq<nat>, blocked: seq<bool>, lists: seq<seq<nat>>, level: seq<int>, slot: nat)
    requires Consistent(s, walk, blocked, lists, level, {}) && AtSlot(s, path, slot) && slot < s.Limit(path)
    requires Leads(s.root, lead, walk, path) && walk != []
    requires var next := s.g.targets[slot]; next != s.root && blocked[next]
    ensures Branch(s, path, slot) == multiset{}
  {
    var next := s.g.targets[slot];
    if s.Takes(s.Last(path), slot) && next !in path && s.MayGrow(|path|) {
      var dead := set v | 0 <= v < |blocked| && blocked[v] && v != s.root && v !in path;
      forall v, w | v in dead && Linked(s, v, w) ensures w != s.root && (w in dead || w in path) {
        assert v !in walk;
        assert v in lists[w];
        assert blocked[w];
      }
      SealedOwesNothing(s, path, path + [next], dead, s.g.Begin(next));
    }
  }

  /** `walk` follows links and ends at the root. */
  ghost predicate LeadsToRoot(s: Search, walk: seq<nat>)
    requires s.Valid()
  {
    && 2 <= |walk| && walk[|walk| - 1] == s.root
    && forall i :: 0 < i < |walk| ==> LinkedAt(s, walk, i)
  }

  ghost predicate LinkedAt(s: Search, walk: seq<nat>, i: nat)
    requires s.Valid() && 0 < i < |walk|
  {
    Linked(s, walk[i - 1], walk[i])
  }

  /** Every walk from a blocked vertex off the path to the root meets the path before it reaches the root. */
  lemma {:induction false} BlockedWalksMeetPath(s: Search, path: seq<nat>, blocked: seq<bool>, lists: seq<seq<nat>>, level: seq<int>, walk: seq<nat>)
      returns (at: nat)
    requires Consistent(s, path, blocked, lists, level, {}) && LeadsToRoot(s, walk)
    requires walk[0] < |blocked| && blocked[walk[0]] && walk[0] != s.root && walk[0] !in path
    ensures 0 < at < |walk| - 1 && walk[at] in path && walk[at] != s.root && blocked[walk[at]]
    ensures forall i :: 0 <= i < at ==> walk[i] !in path && walk[i] != s.root
    decreases |walk|
  {
    assert LinkedAt(s, walk, 1);
    var next := walk[1];
    LinkedInRange(s, walk[0], next);
    assert walk[0] in lists[next] && blocked[next];
    if next in path {
      return 1;
    }
    forall i | 0 < i < |walk[1..]| ensures LinkedAt(s, walk[1..], i) {
      assert LinkedAt(s, walk, i + 1);
    }
    var rest := BlockedWalksMeetPath(s, path, blocked, lists, level, walk[1..]);
    return rest + 1;
  }

  lemma LinkedInRange(s: Search, v: int, w: int)
    requires s.Valid() && Linked(s, v, w)
    ensures 0 <= w < s.g.Order()
  {
  }

  ghost function Waiting(blocked: seq<bool>): set<nat> {
    set v | 0 <= v < |blocked| && blocked[v]
  }

  /** `Linked` by one of the slots before `limit`. */
  ghost predicate LinkedBefore(s: Search, v: int, w: int, limit: int)
    requires s.Valid()
  {
    exists slot :: s.g.InRow(v, slot) && slot < limit && s.Takes(v, slot) && s.g.targets[slot] == w
  }

  /** Every slot of `v` before `limit` that can be followed leads to a blocked vertex. */
  ghost predicate Explored(s: Search, v: nat, limit: nat, blocked: seq<bool>)
    requires s.Valid() && |blocked| == s.g.Order()
  {
    forall slot :: s.g.InRow(v, slot) && slot < limit && s.Takes(v, slot) ==>
      if s.g.targets[slot] == s.root then v == s.root else blocked[s.g.targets[slot]]
  }

  lemma ExploredMore(s: Search, v: nat, slot: nat, before: seq<bool>, after: seq<bool>)
    requires s.Valid() && |before| == |after| == s.g.Order()
    requires Explored(s, v, slot, before) && Waiting(before) <= Waiting(after)
    requires s.g.InRow(v, slot)
    requires s.Takes(v, slot) ==> if s.g.targets[slot] == s.root then v == s.root else after[s.g.targets[slot]]
    ensures Explored(s, v, slot + 1, after)
  {
    forall w | 0 <= w < |before| && before[w] ensures after[w] {
      assert w in Waiting(before);
    }
  }

  lemma LinkedMore(s: Search, v: nat, slot: nat)
    requires s.Valid() && s.g.InRow(v, slot)
    ensures forall w :: LinkedBefore(s, v, w, slot + 1) <==> LinkedBefore(s, v, w, slot) || (s.Takes(v, slot) && s.g.targets[slot] == w)
  {
    forall w | LinkedBefore(s, v, w, slot + 1) && !(s.Takes(v, slot) && s.g.targets[slot] == w) ensures LinkedBefore(s, v, w, slot) {}
    if s.Takes(v, slot) { assert LinkedBefore(s, v, s.g.targets[slot], slot + 1); }
  }

  class JohnsonSearch {
    const g: Csr
    const cap: Option<nat>
    const blocked: array<bool>
    const blockedList: array<seq<nat>>
    var root: nat
    var rule: Rule
    var path: seq<nat>
    var histogram: Histogram
    ghost var level: seq<int>
    ghost var lead: seq<nat>
    ghost var walk: seq<nat>

    constructor (g: Csr, cap: Option<nat>)
      requires g.Valid()
      ensures this.g == g && this.cap == cap && histogram == multiset{}
      ensures blocked.Length == blockedList.Length == g.Order() && fresh(blocked) && fresh(blockedList)
    {
      this.g, this.cap := g, cap;
      blocked := new bool[g.Order()](_ => false);
      blockedList := new seq<nat>[g.Order()](_ => []);
      root, rule, path, histogram, level, lead, walk := 0, AboveRoot, [], multiset{}, [], [], [];
    }

    function Query(): Search
      reads this
    {
      Search(g, root, rule, cap)
    }

    ghost predicate Holds(open: set<nat>)
      reads this, blocked, blockedList
    {
      Consistent(Query(), walk, blocked[..], blockedList[..], level, open)
    }

    ghost predicate Valid()
      reads this, blocked, blockedList
    {
      Holds({}) && Leads(root, lead, walk, path)
    }

    /** Releases `v` and everything that was waiting for it; nothing on the path is released. */
    method Unblock(v: nat, ghost open: set<nat>)
      requires v < blocked.Length == blockedList.Length && v !in open
      requires walk != [] && walk[|walk| - 1] in open + {v}
      requires Consistent(Query(), walk, blocked[..][v := false], blockedList[..], level, open + {v})
      modifies blocked, blockedList
      ensures Holds(open + {v}) && blockedList[v] == []
      ensures forall w :: 0 <= w < blocked.Length && blocked[w] ==> old(blocked[w])
      ensures forall w :: 0 <= w < blocked.Length && !old(blocked[w]) && w != v ==> blockedList[w] == old(blockedList[w])
      decreases Waiting(blocked[..][v := false])
    {
      hide Consistent;
      blocked[v] := false;
      assert blocked[..] == old(blocked[..])[v := false];
      while blockedList[v] != []
        invariant Holds(open + {v})
        invariant forall w :: 0 <= w < blocked.Length && blocked[w] ==> w != v && old(blocked[w])
        invariant forall w :: 0 <= w < blocked.Length && !old(blocked[w]) && w != v ==> blockedList[w] == old(blockedList[w])
        decreases |blockedList[v]|
      {
        var last := |blockedList[v]| - 1;
        var dependent := blockedList[v][last];
        ghost var lists := blockedList[..];
        Pop(Query(), walk, blocked[..], lists, level, open + {v}, v, lists[v][..last], dependent);
        blockedList[v] := blockedList[v][..last];
        assert blockedList[..] == lists[v := lists[v][..last]];
        if blocked[dependent] {
          assert dependent in Waiting(old(blocked[..])[v := false]);
          Unblock(dependent, open + {v});
          Close(Query(), walk, blocked[..], blockedList[..], level, open + {v}, dependent);
        }
      }
    }

    /** Makes `v` wait for every successor but the root. */
    method AddToBlockedLists(v: nat)
      requires Query().Valid() && v < g.Order() == blockedList.Length
      modifies blockedList
      ensures forall w :: 0 <= w < blockedList.Length ==> Joined(Query(), v, w, old(blockedList[w]), blockedList[w])
    {
      for slot := g.Begin(v) to g.End(v)
        invariant forall w :: 0 <= w < blockedList.Length ==>
          blockedList[w] == (if w != root && LinkedBefore(Query(), v, w, slot) && v !in old(blockedList[w])
                             then old(blockedList[w]) + [v] else old(blockedList[w]))
      {
        hide LinkedBefore;
        var next := g.targets[slot];
        LinkedMore(Query(), v, slot);
        if Query().Takes(v, slot) && next != root {
          if v !in blockedList[next] {
            blockedList[next] := blockedList[next] + [v];
          }
        }
      }
      assert forall w :: Linked(Query(), v, w) <==> LinkedBefore(Query(), v, w, g.End(v));
    }

    /** The start of a visit: the vertex joins the path and is blocked. */
    method Push(v: nat)
      requires Valid() && v < blocked.Length && !blocked[v] && v !in walk
      requires walk == [] ==> v == root
      modifies `path, `walk, `level, blocked
      ensures Valid() && path == old(path) + [v] && walk == old(walk) + [v] && Query().Valid() && Query().IsPath(path)
      ensures blocked[..] == old(blocked[..])[v := true]
    {
      hide ListsExplain, BlockedStuck;
      Enter(Query(), walk, blocked[..], blockedList[..], level, v);
      level := level[v := |walk|];
      path, walk := path + [v], walk + [v];
      blocked[v] := true;
      assert blocked[..] == old(blocked[..])[v := true];
      PathShape(Query(), lead, walk, path, blocked[..], blockedList[..], level);
    }

    /** The end of a visit: release the last path vertex if a cycle was found, otherwise let it wait. */
    method Leave(found: bool)
      requires Valid() && walk != [] && Query().Valid() && Query().IsPath(path)
      requires blocked.Length == blockedList.Length == g.Order()
      requires !found ==> Explored(Query(), path[|path| - 1], g.End(path[|path| - 1]), blocked[..])
      modifies `path, `walk, `level, blocked, blockedList
      ensures Valid() && path == old(path)[..|old(path)| - 1] && walk == old(walk)[..|old(walk)| - 1]
      ensures !found ==> blocked[..] == old(blocked[..])
    {
      hide Consistent;
      var v := path[|path| - 1];
      ghost var s, rest := Query(), walk[..|walk| - 1];
      assert walk == rest + [v];
      if found {
        Open(s, rest, v, blocked[..], blockedList[..], level);
        assert {} + {v} == {v};
        Unblock(v, {});
        LeaveFree(s, rest, v, blocked[..], blockedList[..], level);
      } else {
        ghost var lists := blockedList[..];
        AddToBlockedLists(v);
        LeaveBlocked(s, rest, v, blocked[..], lists, blockedList[..], level);
      }
      level := Lower(level, |walk| - 2);
      path, walk := path[..|path| - 1], rest;
    }

    /** Follows one slot of the last path vertex. */
    method Follow(slot: nat) returns (found: bool)
      requires Valid() && walk != [] && cap == None && AtSlot(Query(), path, slot) && slot < Query().Limit(path)
      requires blocked.Length == blockedList.Length == g.Order()
      modifies `path, `walk, `histogram, `level, blocked, blockedList
      ensures Valid() && path == old(path) && walk == old(walk)
      ensures histogram == old(histogram) + Branch(Query(), path, slot)
      ensures found <==> Branch(Query(), path, slot) != multiset{}
      ensures !found ==> Waiting(old(blocked[..])) <= Waiting(blocked[..])
      ensures !found && Query().Takes(path[|path| - 1], slot) ==>
                if g.targets[slot] == root then path == [root] else blocked[g.targets[slot]]
      decreases Query().Free(walk), 1
    {
      hide Consistent, Subtree;
      var next := g.targets[slot];
      found := false;
      ghost var s := Query();
      BranchParts(s, path, slot);
      if !Query().Takes(path[|path| - 1], slot) {
        return;
      }
      if next == root && |path| >= 2 {
        histogram := histogram + multiset{|path|};
        found := true;
      } else if next != root && blocked[next] {
        BlockedBranch(s, lead, walk, path, blocked[..], blockedList[..], level, slot);
      } else if next != root {
        FreeIsOff(s, lead, walk, path, blocked[..], blockedList[..], level, next);
        found := Circuit(next);
      } else {
        RootAlone(s, lead, walk, path, blocked[..], blockedList[..], level);
      }
    }

    /** Follows every slot of the last path vertex. */
    method Scan() returns (found: bool)
      requires Valid() && walk != [] && cap == None && Query().Valid() && Query().IsPath(path)
      requires blocked.Length == blockedList.Length == g.Order()
      modifies `path, `walk, `histogram, `level, blocked, blockedList
      ensures Valid() && path == old(path) && walk == old(walk)
      ensures histogram == old(histogram) + Subtree(Query(), path)
      ensures found <==> Subtree(Query(), path) != multiset{}
      ensures !found ==> Waiting(old(blocked[..])) <= Waiting(blocked[..])
      ensures !found ==> Explored(Query(), path[|path| - 1], g.End(path[|path| - 1]), blocked[..])
      decreases Query().Free(walk), 2
    {
      hide Consistent, Subtree, Owed, Branch;
      found := false;
      var v := path[|path| - 1];
      ghost var s, full, got: Histogram := Query(), path, multiset{};
      RowStarts(s, full);
      for slot := g.Begin(v) to g.End(v)
        invariant Valid() && path == full && walk == old(walk)
        invariant histogram == old(histogram) + got && got + Owed(s, full, slot) == Subtree(s, full)
        invariant found <==> got != multiset{}
        invariant !found ==> Waiting(old(blocked[..])) <= Waiting(blocked[..])
        invariant !found ==> Explored(s, v, slot, blocked[..])
      {
        ghost var before := blocked[..];
        RowGoesOn(s, full, slot);
        var below := Follow(slot);
        got := got + Branch(s, full, slot);
        if below {
          found := true;
        }
        if !found {
          ExploredMore(s, v, slot, before, blocked[..]);
        }
      }
    }

    /** Records exactly the cycles below `path + [v]`; `found` says whether there was one. */
    method Circuit(v: nat) returns (found: bool)
      requires Valid() && cap == None && v < blocked.Length && !blocked[v] && v !in walk
      requires walk == [] ==> v == root
      modifies `path, `walk, `histogram, `level, blocked, blockedList
      ensures Valid() && path == old(path) && walk == old(walk) && Query().Valid() && Query().IsPath(path + [v])
      ensures histogram == old(histogram) + Subtree(Query(), path + [v])
      ensures found <==> Subtree(Query(), path + [v]) != multiset{}
      ensures !found ==> blocked[v] && Waiting(old(blocked[..])) <= Waiting(blocked[..])
      decreases Query().Free(walk), 0
    {
      hide Consistent, Subtree, Leads, Search.Free, Explored;
      Shape(Query(), walk, blocked[..], blockedList[..], level, {});
      WalkGrows(Query(), walk, v);
      Push(v);
      assert v in Waiting(blocked[..]);
      found := Scan();
      Leave(found);
      assert path == old(path) && walk == old(walk);
    }

    /** One slot of the length-bounded search. */
    method FollowBounded(slot: nat) returns (found: bool)
      requires AtSlot(Query(), path, slot) && slot < Query().Limit(path) && Marks(path, blocked[..], g.Order())
      modifies `path, `histogram, blocked
      ensures path == old(path) && blocked[..] == old(blocked[..])
      ensures histogram == old(histogram) + Branch(Query(), path, slot)
      ensures found <==> Branch(Query(), path, slot) != multiset{}
      decreases Query().Free(path), 1
    {
      var next := g.targets[slot];
      found := false;
      if !Query().Takes(path[|path| - 1], slot) {
        return;
      }
      if next == root && |path| >= 2 {
        histogram := histogram + multiset{|path|};
        found := true;
      } else if next != root && !blocked[next] && Query().MayGrow(|path|) {
        found := CircuitBounded(next);
      }
    }

    /** The length-bounded search: a vertex is blocked exactly while it is on the path. */
    method CircuitBounded(v: nat) returns (found: bool)
      requires Query().Valid() && Query().IsPath(path + [v]) && v !in path && Marks(path, blocked[..], g.Order())
      modifies `path, `histogram, blocked
      ensures path == old(path) && blocked[..] == old(blocked[..])
      ensures histogram == old(histogram) + Subtree(Query(), path + [v])
      ensures found <==> Subtree(Query(), path + [v]) != multiset{}
      decreases Query().Free(path), 0
    {
      hide Marks, Subtree;
      ghost var short, marks := path, blocked[..];
      assert (path + [v])[|path|] == v;
      MarkOne(short, marks, g.Order(), v);
      path := path + [v];
      blocked[v] := true;
      assert blocked[..] == marks[v := true];
      assert v in Query().Free(short) && v !in Query().Free(path);
      found := ScanBounded();
      blocked[v] := false;
      assert blocked[..] == marks[v := true][v := false];
      path := path[..|path| - 1];
      assert path == short;
    }

    /** All slots of the last vertex, one after another. */
    method ScanBounded() returns (found: bool)
      requires Query().Valid() && Query().IsPath(path) && Marks(path, blocked[..], g.Order())
      modifies `path, `histogram, blocked
      ensures path == old(path) && blocked[..] == old(blocked[..])
      ensures histogram == old(histogram) + Subtree(Query(), path)
      ensures found <==> Subtree(Query(), path) != multiset{}
      decreases Query().Free(path), 2
    {
      hide Marks, Subtree, Owed, Branch;
      var v := path[|path| - 1];
      found := false;
      ghost var s, full, marks, got: Histogram := Query(), path, blocked[..], multiset{};
      RowStarts(s, full);
      for slot := g.Begin(v) to g.End(v)
        invariant path == full && blocked[..] == marks
        invariant histogram == old(histogram) + got && got + Owed(s, full, slot) == Subtree(s, full)
        invariant found <==> got != multiset{}
      {
        RowGoesOn(s, full, slot);
        var below := FollowBounded(slot);
        got := got + Branch(s, full, slot);
        found := found || below;
      }
      assert got == Subtree(s, full);
    }

    /** Forgets everything the last search left behind. */
    method Reset(root: nat, rule: Rule, path: seq<nat>, ghost lead: seq<nat>, ghost walk: seq<nat>)
      requires g.Valid() && blocked.Length == blockedList.Length == g.Order()
      requires Search(g, root, rule, cap).Valid() && walk <= [root] && Leads(root, lead, walk, path)
      modifies `root, `rule, `path, `lead, `walk, `level, blocked, blockedList
      ensures Query() == Search(g, root, rule, cap) && this.path == path && this.walk == walk
      ensures Valid() && forall v :: 0 <= v < blocked.Length ==> !blocked[v]
    {
      this.root, this.rule, this.path := root, rule, path;
      this.lead, this.walk := lead, walk;
      forall v | 0 <= v < blocked.Length { blocked[v] := false; }
      forall v | 0 <= v < blockedList.Length { blockedList[v] := []; }
      level := seq(blocked.Length, _ => |walk| - 1);
    }

    /** The static run: one search per root, bounded or not. */
    method RunStatic()
      requires g.Valid() && blocked.Length == blockedList.Length == g.Order() && histogram == multiset{}
      modifies this, blocked, blockedList
      ensures histogram == StaticBefore(g, cap, g.Order())
    {
      hide Consistent, Subtree;
      for next := 0 to g.Order()
        invariant histogram == StaticBefore(g, cap, next)
      {
        Reset(next, AboveRoot, [], [], []);
        assert [] + [next] == [next];
        if cap.Some? {
          var _ := CircuitBounded(next);
        } else {
          var _ := Circuit(next);
        }
      }
    }

    /** The time-window run: one search per start event, those of self-loops included; refused when a window without an end is needed. */
    method RunTimeWindow(times: seq<seq<int>>, width: int) returns (ok: bool)
      requires Timed(g, times) && blocked.Length == blockedList.Length == g.Order() && histogram == multiset{} && cap == None
      modifies this, blocked, blockedList
      ensures ok <==> AllRun(g, times, width, true, g.Order())
      ensures ok ==> histogram == WindowTotal(g, times, width, cap)
    {
      hide WindowTally, RowSum, RowRuns;
      ghost var f := WindowTally(g, times, width, cap);
      for next := 0 to g.Order()
        invariant histogram == EventSum(f, g, times, next) && AllRun(g, times, width, true, next)
      {
        ok := RunRow(times, width, next);
        if !ok {
          return;
        }
      }
      return true;
    }

    /** The start events of one root. */
    method RunRow(times: seq<seq<int>>, width: int, start: nat) returns (ok: bool)
      requires Timed(g, times) && blocked.Length == blockedList.Length == g.Order() && cap == None && start < g.Order()
      modifies this, blocked, blockedList
      ensures ok <==> RowRuns(g, times, width, true, start, g.End(start))
      ensures ok ==> histogram == old(histogram) + RowSum(WindowTally(g, times, width, cap), g, times, start, g.End(start))
    {
      hide WindowTally, SlotSum, SlotRuns;
      ghost var f := WindowTally(g, times, width, cap);
      for slot := g.Begin(start) to g.End(start)
        invariant histogram == old(histogram) + RowSum(f, g, times, start, slot) && RowRuns(g, times, width, true, start, slot)
      {
        ok := RunSlot(times, width, start, slot);
        if !ok {
          return;
        }
      }
      return true;
    }

    /** The start events of one edge. */
    method RunSlot(times: seq<seq<int>>, width: int, start: nat, slot: nat) returns (ok: bool)
      requires Timed(g, times) && blocked.Length == blockedList.Length == g.Order()
      requires cap == None && g.InRow(start, slot)
      modifies this, blocked, blockedList
      ensures ok <==> SlotRuns(g, times, width, true, slot, |times[slot]|)
      ensures ok ==> histogram == old(histogram) +
                                  SlotSum(WindowTally(g, times, width, cap), g, times, start, slot, |times[slot]|)
    {
      hide Subtree, WindowTally, SlotSum, SlotRuns;
      var first := g.targets[slot];
      ghost var f := WindowTally(g, times, width, cap);
      NoEvent(f, g, times, width, true, start, slot);
      for j := 0 to |times[slot]|
        invariant histogram == old(histogram) + SlotSum(f, g, times, start, slot, j) && SlotRuns(g, times, width, true, slot, j)
      {
        EventRuns(g, times, width, true, slot, j);
        if NoWindow(times[slot][j], width) && g.Begin(first) < g.End(first) {
          return false;
        }
        NextWindowEvent(Search(g, start, InWindow(times, times[slot][j], width), cap), g, times, width, cap, start, slot, j);
        RunEvent(InWindow(times, times[slot][j], width), start, first);
      }
      return true;
    }

    /** One start event: the path holds its root, and the search begins at its first vertex. */
    method RunEvent(window: Rule, start: nat, first: nat)
      requires Search(g, start, window, cap).Valid() && blocked.Length == blockedList.Length == g.Order()
      requires cap == None && first < g.Order()
      modifies this, blocked, blockedList
      ensures Search(g, start, window, cap).IsPath([start, first])
      ensures histogram == old(histogram) + Subtree(Search(g, start, window, cap), [start, first])
    {
      hide Consistent, Subtree, Leads;
      ghost var lead, walk := if first == start then [start] else [], if first == start then [] else [start];
      LeadsFirst(start, first, lead, walk);
      Reset(start, window, [start], lead, walk);
      assert [start] + [first] == [start, first];
      var _ := Circuit(first);
    }
  }

  /** Only a self-loop makes the walk start at the root again. */
  lemma LeadsFirst(root: nat, first: nat, lead: seq<nat>, walk: seq<nat>)
    requires lead == (if first == root then [root] else []) && walk == (if first == root then [] else [root])
    ensures Leads(root, lead, walk, [root]) && walk <= [root] && first !in walk && (walk == [] ==> first == root)
  {
  }

  lemma WalkGrows(s: Search, walk: seq<nat>, v: nat)
    requires v < s.g.Order() && v !in walk
    ensures s.Free(walk + [v]) < s.Free(walk)
  {
    assert v in s.Free(walk) && v !in s.Free(walk + [v]);
  }

  /** The parts of the path that the walk tells. */
  lemma PathShape(s: Search, lead: seq<nat>, walk: seq<nat>, path: seq<nat>, blocked: seq<bool>, lists: seq<seq<nat>>, level: seq<int>)
    requires Consistent(s, walk, blocked, lists, level, {}) && Leads(s.root, lead, walk, path) && walk != []
    ensures s.Valid() && s.IsPath(path) && path[|path| - 1] == walk[|walk| - 1]
  {
  }

  /** An unblocked vertex other than the root is not on the path. */
  lemma FreeIsOff(s: Search, lead: seq<nat>, walk: seq<nat>, path: seq<nat>, blocked: seq<bool>, lists: seq<seq<nat>>, level: seq<int>, v: nat)
    requires Consistent(s, walk, blocked, lists, level, {}) && Leads(s.root, lead, walk, path)
    requires v < |blocked| && !blocked[v] && v != s.root
    ensures v !in path && v !in walk
  {
  }

  /** A path of one vertex is the root. */
  lemma RootAlone(s: Search, lead: seq<nat>, walk: seq<nat>, path: seq<nat>, blocked: seq<bool>, lists: seq<seq<nat>>, level: seq<int>)
    requires Consistent(s, walk, blocked, lists, level, {}) && Leads(s.root, lead, walk, path) && walk != [] && |path| < 2
    ensures path == [s.root]
  {
  }

  /** What a slot contributes, by the tests of the search. */
  lemma BranchParts(s: Search, p: seq<nat>, slot: nat)
    requires AtSlot(s, p, slot) && slot < s.Limit(p) && s.cap == None
    ensures var next := s.g.targets[slot];
            && (!s.Takes(s.Last(p), slot) ==> Branch(s, p, slot) == multiset{})
            && (s.Takes(s.Last(p), slot) && next == s.root && |p| >= 2 ==> Branch(s, p, slot) == multiset{|p|})
            && (s.Takes(s.Last(p), slot) && next != s.root && next !in p ==> Branch(s, p, slot) == Subtree(s, p + [next]))
            && (next == s.root && p == [s.root] ==> Branch(s, p, slot) == multiset{})
  {
  }
}
