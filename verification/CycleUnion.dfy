/**
 * The cycle union of a start event: the vertices that lie between the start edge and the root when
 * only edges with an event in the window are kept and the order of the events is ignored.
 */
module CycleUnions {
  import opened CsrGraphs
  import opened StartEvents
  import opened TemporalSearch
  import opened TemporalTotals
  import opened TemporalSets
  import opened TemporalCycles
  import opened GraphViews
  import CycleSearch

  // ---- Reachability over active edges ----

  datatype Window = Window(g: Csr, times: seq<seq<int>>, start: int, width: int) {

    ghost predicate Valid() {
      TimesSorted(g, times)
    }

    predicate ActiveSlot(slot: nat)
      requires slot < |times|
    {
      CycleSearch.HasTimestamp(times[slot], start, width, false)
    }

    /** Some edge from `v` to `w` has an event after the start and within the window. */
    ghost predicate Active(v: int, w: int)
      requires Valid()
    {
      exists slot :: g.InRow(v, slot) && g.targets[slot] == w && ActiveSlot(slot)
    }

    ghost predicate IsWalk(q: seq<nat>)
      requires Valid()
    {
      0 < |q| && forall i :: 0 < i < |q| ==> Active(q[i - 1], q[i])
    }

    ghost predicate WalkBetween(q: seq<nat>, v: nat, w: nat)
      requires Valid()
    {
      IsWalk(q) && q[0] == v && q[|q| - 1] == w
    }

    /** A walk over active edges leads from `v` to `w`. */
    ghost predicate Reaches(v: nat, w: nat)
      requires Valid()
    {
      exists q :: WalkBetween(q, v, w)
    }
  }

  lemma ReachesItself(a: Window, v: nat)
    requires a.Valid()
    ensures a.Reaches(v, v)
  {
    assert a.WalkBetween([v], v, v);
  }

  lemma ReachesNext(a: Window, v: nat, w: nat, x: nat)
    requires a.Valid() && a.Reaches(v, w) && a.Active(w, x)
    ensures a.Reaches(v, x)
  {
    var q :| a.WalkBetween(q, v, w);
    assert a.WalkBetween(q + [x], v, x);
  }

  lemma ReachesBefore(a: Window, v: nat, w: nat, x: nat)
    requires a.Valid() && a.Active(v, w) && a.Reaches(w, x)
    ensures a.Reaches(v, x)
  {
    var q :| a.WalkBetween(q, w, x);
    var more := [v] + q;
    forall i | 0 < i < |more| ensures a.Active(more[i - 1], more[i]) {
      if i > 1 { assert a.Active(q[i - 2], q[i - 1]); }
    }
    assert a.WalkBetween(more, v, x);
  }

  /** A marked set that contains `v` and is closed under active edges contains all that `v` reaches. */
  lemma {:induction false} ClosedContains(a: Window, marked: seq<bool>, q: seq<nat>)
    requires a.Valid() && |marked| == a.g.Order() && a.IsWalk(q) && q[0] < |marked| && marked[q[0]]
    requires forall v: nat, w: nat :: v < |marked| && w < |marked| && marked[v] && a.Active(v, w) ==> marked[w]
    ensures q[|q| - 1] < |marked| && marked[q[|q| - 1]]
  {
    if |q| > 1 {
      ClosedContains(a, marked, q[..|q| - 1]);
      assert a.Active(q[|q| - 2], q[|q| - 1]);
    }
  }

  // ---- Breadth-first search ----

  function HasEventAfter(times: seq<int>, start: int, end: int): bool
    requires Nondecreasing(times)
  {
    UpperBound(times, start) < UpperBound(times, end)
  }

  lemma EventAfterIsTimestamp(times: seq<int>, start: int, width: int)
    requires Nondecreasing(times)
    ensures HasEventAfter(times, start, start + width) <==> CycleSearch.HasTimestamp(times, start, width, false)
  {
    if HasEventAfter(times, start, start + width) {
      assert start < times[UpperBound(times, start)] <= start + width;
    }
  }

  ghost function Unmarked(marked: seq<bool>): set<nat> {
    set v | 0 <= v < |marked| && !marked[v]
  }

  /** Marks are reachable; what is marked and no longer queued has all its neighbours marked. */
  ghost predicate Spread(a: Window, from: nat, marked: seq<bool>, queue: seq<nat>)
    requires a.Valid()
  {
    && |marked| == a.g.Order() && from < |marked| && marked[from]
    && (forall v :: 0 <= v < |marked| && marked[v] ==> a.Reaches(from, v))
    && (forall v :: v in queue ==> v < |marked| && marked[v])
    && (forall v, w :: 0 <= v < |marked| && 0 <= w < |marked| && marked[v] && v !in queue && a.Active(v, w) ==> marked[w])
  }

  /** The same while the row of `current` has been read up to `slot`. */
  ghost predicate Spreading(a: Window, from: nat, marked: seq<bool>, queue: seq<nat>, current: nat, slot: nat)
    requires a.Valid()
  {
    && |marked| == a.g.Order() && from < |marked| && marked[from]
    && (forall v :: 0 <= v < |marked| && marked[v] ==> a.Reaches(from, v))
    && (forall v :: v in queue ==> v < |marked| && marked[v])
    && (forall v, w :: 0 <= v < |marked| && 0 <= w < |marked| && marked[v] && v !in queue && v != current && a.Active(v, w) ==> marked[w])
    && current < |marked| && marked[current]
    && (forall x :: a.g.InRow(current, x) && x < slot && a.ActiveSlot(x) ==> marked[a.g.targets[x]])
  }

  lemma MarkMore(a: Window, from: nat, marked: seq<bool>, queue: seq<nat>, current: nat, slot: nat)
    requires a.Valid() && Spreading(a, from, marked, queue, current, slot) && a.g.InRow(current, slot) && a.ActiveSlot(slot)
    ensures var next := a.g.targets[slot];
            Spreading(a, from, marked[next := true], if marked[next] then queue else queue + [next], current, slot + 1)
  {
    var next := a.g.targets[slot];
    assert a.Active(current, next);
    ReachesNext(a, from, current, next);
    if marked[next] {
      assert marked[next := true] == marked;
    }
  }

  /** Marks and queues the unmarked ends of the active edges of `current`. */
  method ReadRow(a: Window, ghost from: nat, current: nat, reachable: array<bool>, queue: seq<nat>) returns (longer: seq<nat>)
    requires a.Valid() && current < a.g.Order() && reachable.Length == a.g.Order()
    requires Spreading(a, from, reachable[..], queue, current, a.g.Begin(current))
    modifies reachable
    ensures Spreading(a, from, reachable[..], longer, current, a.g.End(current))
    ensures Unmarked(reachable[..]) < old(Unmarked(reachable[..])) || (Unmarked(reachable[..]) == old(Unmarked(reachable[..])) && longer == queue)
  {
    hide Spreading, Unmarked, CycleSearch.HasTimestamp;
    longer := queue;
    for slot := a.g.Begin(current) to a.g.End(current)
      invariant Spreading(a, from, reachable[..], longer, current, slot)
      invariant Unmarked(reachable[..]) < old(Unmarked(reachable[..])) || (Unmarked(reachable[..]) == old(Unmarked(reachable[..])) && longer == queue)
    {
      assert a.g.InRow(current, slot);
      EventAfterIsTimestamp(a.times[slot], a.start, a.width);
      ghost var marked := reachable[..];
      var next := a.g.targets[slot];
      if HasEventAfter(a.times[slot], a.start, a.start + a.width) {
        MarkMore(a, from, marked, longer, current, slot);
        MarkShrinks(marked, next);
        if !reachable[next] {
          reachable[next] := true;
          longer := longer + [next];
        }
        assert reachable[..] == marked[next := true];
      } else {
        SkipSlot(a, from, marked, longer, current, slot);
      }
    }
  }

  lemma MarkShrinks(marked: seq<bool>, next: nat)
    requires next < |marked|
    ensures if marked[next] then marked[next := true] == marked else Unmarked(marked[next := true]) < Unmarked(marked)
  {
    if !marked[next] {
      assert next in Unmarked(marked) && next !in Unmarked(marked[next := true]);
    }
  }

  /** The vertices that `from` reaches over active edges, found breadth first. */
  method BreadthFirst(a: Window, from: nat) returns (reachable: array<bool>)
    requires a.Valid() && from < a.g.Order()
    ensures fresh(reachable) && reachable.Length == a.g.Order()
    ensures forall v :: 0 <= v < reachable.Length ==> (reachable[v] <==> a.Reaches(from, v))
  {
    hide Spread, Spreading, Unmarked;
    reachable := new bool[a.g.Order()](_ => false);
    reachable[from] := true;
    var queue := [from];
    SpreadStarts(a, from, reachable[..]);
    while queue != []
      invariant Spread(a, from, reachable[..], queue)
      decreases Unmarked(reachable[..]), |queue|
    {
      var current, rest := queue[0], queue[1..];
      assert queue == [current] + rest;
      PopQueue(a, from, reachable[..], rest, current);
      queue := ReadRow(a, from, current, reachable, rest);
      RowRead(a, from, reachable[..], queue, current);
    }
    AllReached(a, from, reachable[..]);
  }

  lemma SpreadStarts(a: Window, from: nat, marked: seq<bool>)
    requires a.Valid() && |marked| == a.g.Order() && from < |marked|
    requires forall v :: 0 <= v < |marked| ==> (marked[v] <==> v == from)
    ensures Spread(a, from, marked, [from])
  {
    ReachesItself(a, from);
  }

  lemma PopQueue(a: Window, from: nat, marked: seq<bool>, queue: seq<nat>, current: nat)
    requires a.Valid() && Spread(a, from, marked, [current] + queue)
    ensures current < a.g.Order() && Spreading(a, from, marked, queue, current, a.g.Begin(current))
  {
    var whole := [current] + queue;
    assert whole[0] == current && current in whole;
    forall v | v in queue ensures v in whole {}
    forall v | v in whole && v != current ensures v in queue {}
    assert current < |marked| && marked[current];
  }

  lemma SkipSlot(a: Window, from: nat, marked: seq<bool>, queue: seq<nat>, current: nat, slot: nat)
    requires a.Valid() && Spreading(a, from, marked, queue, current, slot) && slot < |a.times| && !a.ActiveSlot(slot)
    ensures Spreading(a, from, marked, queue, current, slot + 1)
  {
  }

  lemma RowRead(a: Window, from: nat, marked: seq<bool>, queue: seq<nat>, current: nat)
    requires a.Valid() && current < a.g.Order() && Spreading(a, from, marked, queue, current, a.g.End(current))
    ensures Spread(a, from, marked, queue)
  {
    forall w: nat | w < |marked| && a.Active(current, w) ensures marked[w] {
      var slot :| a.g.InRow(current, slot) && a.g.targets[slot] == w && a.ActiveSlot(slot);
    }
  }

  lemma AllReached(a: Window, from: nat, marked: seq<bool>)
    requires a.Valid() && Spread(a, from, marked, [])
    ensures |marked| == a.g.Order() && forall v :: 0 <= v < |marked| ==> (marked[v] <==> a.Reaches(from, v))
  {
    forall v: nat | v < |marked| && a.Reaches(from, v) ensures marked[v] {
      var q :| a.WalkBetween(q, from, v);
      ClosedContains(a, marked, q);
    }
  }

  // ---- Reversing ----

  /** The windows of the two halves of a view. */
  ghost predicate Reversed(a: Window, b: Window) {
    && a.Valid() && b.Valid() && a.start == b.start && a.width == b.width
    && Transposed(a.g, a.times, b.g, b.times)
  }

  lemma ActiveReversed(a: Window, b: Window, v: nat, w: nat)
    requires Reversed(a, b) && a.Active(v, w)
    ensures b.Active(w, v)
  {
    var slot :| a.g.InRow(v, slot) && a.g.targets[slot] == w && a.ActiveSlot(slot);
    assert Partner(b.g, b.times, w, v, a.times[slot]);
    var x :| b.g.InRow(w, x) && b.g.targets[x] == v && b.times[x] == a.times[slot];
    assert b.ActiveSlot(x);
  }

  lemma {:induction false} WalkReversed(a: Window, b: Window, q: seq<nat>)
    requires Reversed(a, b) && a.IsWalk(q)
    ensures b.Reaches(q[|q| - 1], q[0])
  {
    if |q| == 1 {
      ReachesItself(b, q[0]);
    } else {
      WalkReversed(a, b, q[..|q| - 1]);
      assert a.Active(q[|q| - 2], q[|q| - 1]);
      ActiveReversed(a, b, q[|q| - 2], q[|q| - 1]);
      ReachesBefore(b, q[|q| - 1], q[|q| - 2], q[0]);
    }
  }

  /** Searching the incoming half from the root finds what reaches the root. */
  lemma ReachesReversed(a: Window, b: Window, v: nat, w: nat)
    requires Reversed(a, b)
    ensures a.Reaches(v, w) <==> b.Reaches(w, v)
  {
    if a.Reaches(v, w) {
      var q :| a.WalkBetween(q, v, w);
      WalkReversed(a, b, q);
    }
    if b.Reaches(w, v) {
      var q :| b.WalkBetween(q, w, v);
      WalkReversed(b, a, q);
    }
  }

  // ---- The union ----

  /** The vertex lies on some walk from the first vertex to the root. */
  ghost predicate Between(a: Window, root: nat, first: nat, v: nat)
    requires a.Valid()
  {
    a.Reaches(first, v) && a.Reaches(v, root)
  }

  class CycleUnion {
    const included: array<bool>
    var includedCount: nat

    ghost function Members(): set<nat>
      reads this, included
    {
      set v | 0 <= v < included.Length && included[v]
    }

    ghost predicate Valid()
      reads this, included
    {
      includedCount == |Members()|
    }

    constructor (order: nat)
      ensures Valid() && fresh(included) && included.Length == order && Members() == {}
    {
      included := new bool[order](_ => false);
      includedCount := 0;
      new;
      assert Members() == {};
    }

    method Include(v: nat)
      requires Valid() && v < included.Length
      modifies this, included
      ensures Valid() && Members() == old(Members()) + {v}
    {
      ghost var before := Members();
      if !included[v] {
        included[v] := true;
        includedCount := includedCount + 1;
        assert v !in before && Members() == before + {v};
      } else {
        assert v in before && Members() == before + {v};
      }
    }
  }

  /** The views of one start event: outgoing edges and their transpose. */
  ghost predicate ViewOk(g: Csr, times: seq<seq<int>>, inG: Csr, inTimes: seq<seq<int>>) {
    TimesSorted(g, times) && TimesSorted(inG, inTimes) && Transposed(g, times, inG, inTimes)
  }

  /** The union of one start event; `None` for a negative width, a window without an end, or a vertex out of range. */
  method ComputeCycleUnion(g: Csr, times: seq<seq<int>>, inG: Csr, inTimes: seq<seq<int>>, e: StartEvent, width: int)
    returns (r: Option<CycleUnion>)
    requires ViewOk(g, times, inG, inTimes)
    ensures r == None <==> width < 0 || e.start + width > 0x7FFF_FFFF_FFFF_FFFF || e.root >= g.Order() || e.first >= g.Order()
    ensures r.Some? ==> fresh(r.value) && fresh(r.value.included) && r.value.Valid() && r.value.included.Length == g.Order()
    ensures r.Some? ==> forall v: nat :: v in r.value.Members() <==>
              v < g.Order() && Between(Window(g, times, e.start, width), e.root, e.first, v)
  {
    if NoWindow(e.start, width) || e.root >= g.Order() || e.first >= g.Order() {
      return None;
    }
    var out, into := Window(g, times, e.start, width), Window(inG, inTimes, e.start, width);
    var forward := BreadthFirst(out, e.first);
    var reverse := BreadthFirst(into, e.root);
    var members := new CycleUnion(g.Order());
    for v := 0 to g.Order()
      invariant members.Valid() && members.included.Length == g.Order()
      invariant fresh(members) && fresh(members.included) && members.included != forward && members.included != reverse
      invariant forall w :: 0 <= w < g.Order() ==> (forward[w] <==> out.Reaches(e.first, w)) && (reverse[w] <==> into.Reaches(e.root, w))
      invariant forall w: nat :: w in members.Members() <==> w < v && Between(out, e.root, e.first, w)
    {
      ReachesReversed(out, into, v, e.root);
      if forward[v] && reverse[v] {
        members.Include(v);
      }
    }
    return Some(members);
  }

  /** The union is empty exactly when the root is out of reach of the first vertex. */
  lemma UnionEmptyIff(a: Window, root: nat, first: nat, members: set<nat>)
    requires a.Valid() && root < a.g.Order() && first < a.g.Order()
    requires forall v: nat :: v in members <==> v < a.g.Order() && Between(a, root, first, v)
    ensures |members| == 0 <==> !a.Reaches(first, root)
  {
    if v :| v in members {
      var p :| a.WalkBetween(p, first, v);
      var q :| a.WalkBetween(q, v, root);
      JoinWalks(a, p, q);
    }
    if a.Reaches(first, root) {
      ReachesItself(a, root);
      assert root in members;
    }
  }

  lemma {:induction false} JoinWalks(a: Window, p: seq<nat>, q: seq<nat>)
    requires a.Valid() && a.IsWalk(p) && a.IsWalk(q) && p[|p| - 1] == q[0]
    ensures a.Reaches(p[0], q[|q| - 1])
  {
    if |q| == 1 {
      assert a.WalkBetween(p, p[0], q[0]);
    } else {
      JoinWalks(a, p, q[..|q| - 1]);
      assert a.Active(q[|q| - 2], q[|q| - 1]);
      ReachesNext(a, p[0], q[|q| - 2], q[|q| - 1]);
    }
  }

  // ---- Which vertices and events those are ----

  /** An edge is active when it has an event after the start and within the window. */
  lemma ActiveEvents(a: Window, v: int, w: int)
    requires a.Valid()
    ensures a.Active(v, w) <==>
            exists slot, j :: a.g.InRow(v, slot) && a.g.targets[slot] == w && 0 <= j < |a.times[slot]| &&
              a.start < a.times[slot][j] <= a.start + a.width
  {
    if slot, j :| a.g.InRow(v, slot) && a.g.targets[slot] == w && 0 <= j < |a.times[slot]| && a.start < a.times[slot][j] <= a.start + a.width {
      assert a.ActiveSlot(slot);
    }
  }

  /** A vertex reached has a walk to it, each step of which has an event after the start and within the window. */
  lemma ReachedByWalk(a: Window, v: nat, w: nat) returns (q: seq<nat>)
    requires a.Valid() && a.Reaches(v, w)
    ensures q != [] && q[0] == v && q[|q| - 1] == w
    ensures forall i :: 0 < i < |q| ==>
              exists slot, j :: a.g.InRow(q[i - 1], slot) && a.g.targets[slot] == q[i] && 0 <= j < |a.times[slot]| &&
                a.start < a.times[slot][j] <= a.start + a.width
  {
    hide Window.Active;
    q :| a.WalkBetween(q, v, w);
    forall i | 0 < i < |q|
      ensures exists slot, j :: a.g.InRow(q[i - 1], slot) && a.g.targets[slot] == q[i] && 0 <= j < |a.times[slot]| &&
                a.start < a.times[slot][j] <= a.start + a.width
    {
      ActiveEvents(a, q[i - 1], q[i]);
    }
  }

  /** And where such a walk leads is reached. */
  lemma WalkReaches(a: Window, q: seq<nat>)
    requires a.Valid() && q != []
    requires forall i :: 0 < i < |q| ==>
               exists slot, j :: a.g.InRow(q[i - 1], slot) && a.g.targets[slot] == q[i] && 0 <= j < |a.times[slot]| &&
                 a.start < a.times[slot][j] <= a.start + a.width
    ensures a.Reaches(q[0], q[|q| - 1])
  {
    hide Window.Active;
    forall i | 0 < i < |q| ensures a.Active(q[i - 1], q[i]) {
      ActiveEvents(a, q[i - 1], q[i]);
    }
    assert a.WalkBetween(q, q[0], q[|q| - 1]);
  }

  /** A vertex of the union lies on a walk from the first vertex to the root, with an event of the window at every step. */
  lemma BetweenHasWalks(a: Window, root: nat, first: nat, v: nat) returns (p: seq<nat>, q: seq<nat>)
    requires a.Valid() && Between(a, root, first, v)
    ensures p != [] && p[0] == first && p[|p| - 1] == v && q != [] && q[0] == v && q[|q| - 1] == root
    ensures forall i :: 0 < i < |p| ==>
              exists slot, j :: a.g.InRow(p[i - 1], slot) && a.g.targets[slot] == p[i] && 0 <= j < |a.times[slot]| &&
                a.start < a.times[slot][j] <= a.start + a.width
    ensures forall i :: 0 < i < |q| ==>
              exists slot, j :: a.g.InRow(q[i - 1], slot) && a.g.targets[slot] == q[i] && 0 <= j < |a.times[slot]| &&
                a.start < a.times[slot][j] <= a.start + a.width
  {
    p := ReachedByWalk(a, first, v);
    q := ReachedByWalk(a, v, root);
  }

  /** And every vertex between two such walks is one of the union. */
  lemma WalksAreBetween(a: Window, p: seq<nat>, q: seq<nat>)
    requires a.Valid() && p != [] && q != [] && p[|p| - 1] == q[0]
    requires forall i :: 0 < i < |p| ==>
               exists slot, j :: a.g.InRow(p[i - 1], slot) && a.g.targets[slot] == p[i] && 0 <= j < |a.times[slot]| &&
                 a.start < a.times[slot][j] <= a.start + a.width
    requires forall i :: 0 < i < |q| ==>
               exists slot, j :: a.g.InRow(q[i - 1], slot) && a.g.targets[slot] == q[i] && 0 <= j < |a.times[slot]| &&
                 a.start < a.times[slot][j] <= a.start + a.width
    ensures Between(a, q[|q| - 1], p[0], q[0])
  {
    hide Window.Active;
    WalkReaches(a, p);
    forall i | 0 < i < |q| ensures a.Active(q[i - 1], q[i]) {
      ActiveEvents(a, q[i - 1], q[i]);
    }
    assert a.WalkBetween(q, q[0], q[|q| - 1]);
  }

  // ---- The union holds every cycle of its start event ----

  /** Along a temporal cycle the edges after the first are active. */
  lemma CycleIsActive(g: Csr, times: seq<seq<int>>, width: int, cap: Option<nat>, h: seq<Hop>, i: nat)
    requires TimesSorted(g, times) && IsTemporalCycle(g, times, width, cap, h) && 0 < i < |h|
    ensures Window(g, times, EventTime(times, h[0]), width).Active(g.targets[h[i - 1].slot], g.targets[h[i].slot])
  {
    var a := Window(g, times, EventTime(times, h[0]), width);
    TimesRise(g, times, h, 0, i);
    TimesRise(g, times, h, i, |h| - 1);
    assert ChainedAt(g, times, h, i);
    assert times[h[i].slot][h[i].event] == EventTime(times, h[i]);
    assert a.ActiveSlot(h[i].slot);
  }

  lemma {:induction false} CycleReaches(g: Csr, times: seq<seq<int>>, width: int, cap: Option<nat>, h: seq<Hop>, i: nat, j: nat)
    requires TimesSorted(g, times) && IsTemporalCycle(g, times, width, cap, h) && i <= j < |h|
    ensures Window(g, times, EventTime(times, h[0]), width).Reaches(g.targets[h[i].slot], g.targets[h[j].slot])
    decreases j - i
  {
    var a := Window(g, times, EventTime(times, h[0]), width);
    if i == j {
      ReachesItself(a, g.targets[h[i].slot]);
    } else {
      CycleReaches(g, times, width, cap, h, i, j - 1);
      CycleIsActive(g, times, width, cap, h, j);
      ReachesNext(a, g.targets[h[i].slot], g.targets[h[j - 1].slot], g.targets[h[j].slot]);
    }
  }

  /** Every vertex of every temporal cycle lies in the union of the cycle's start event. */
  lemma UnionHoldsCycles(g: Csr, times: seq<seq<int>>, width: int, cap: Option<nat>, h: seq<Hop>, i: nat)
    requires TimesSorted(g, times) && IsTemporalCycle(g, times, width, cap, h) && i < |h|
    ensures var root, first := g.targets[h[|h| - 1].slot], g.targets[h[0].slot];
            g.InRow(root, h[0].slot) && Between(Window(g, times, EventTime(times, h[0]), width), root, first, g.targets[h[i].slot])
  {
    CycleReaches(g, times, width, cap, h, 0, i);
    CycleReaches(g, times, width, cap, h, i, |h| - 1);
  }

  /** An increasing walk to the root is a walk over active edges. */
  lemma {:induction false} CanReachIsReaches(s: Temporal, a: Window, v: nat, t: int)
    requires s.Valid() && a.Valid() && a.g == s.g && a.times == s.times && a.start + a.width == s.windowEnd && a.start <= t
    requires CanReach(s, v, t)
    ensures a.Reaches(v, s.root)
    decreases if t < s.windowEnd then s.windowEnd - t else 0
  {
    var slot, j :| s.g.InRow(v, slot) && s.Later(slot, t, j) &&
      (s.g.targets[slot] == s.root || CanReach(s, s.g.targets[slot], s.times[slot][j]));
    var next := s.g.targets[slot];
    assert a.ActiveSlot(slot) && a.Active(v, next);
    if next == s.root {
      ReachesItself(a, next);
    } else {
      CanReachIsReaches(s, a, next, s.times[slot][j]);
    }
    ReachesBefore(a, v, next, s.root);
  }

  /** A start event with an empty union has no temporal cycle. */
  lemma DroppedHasNoCycle(g: Csr, times: seq<seq<int>>, width: int, cap: Option<nat>, e: StartEvent)
    requires TimesSorted(g, times) && !Window(g, times, e.start, width).Reaches(e.first, e.root)
    ensures TemporalTally(g, times, width, cap)(e) == multiset{}
  {
    if EventInRange(g, e) {
      var s := Temporal(g, times, e.root, e.start + width, cap);
      if CanReach(s, e.first, e.start) {
        CanReachIsReaches(s, Window(g, times, e.start, width), e.first, e.start);
      }
      OutOfReach(s, [e.root, e.first], e.start, g.Begin(e.first));
    }
  }

  // ---- Built views ----

  /** The view of a graph with sorted timestamps serves every search, self-loops aside. */
  lemma BuiltViewIsOk(graph: TemporalGraph, view: GraphView)
    requires graph.InRange() && Views(graph, view)
    requires forall e, i, j :: e in graph.edges && 0 <= i <= j < |e.times| ==> e.times[i] <= e.times[j]
    ensures ViewOk(OutGraph(view), OutTimes(view), InGraph(view), InTimes(view))
    ensures (forall e :: e in graph.edges ==> e.source != e.target) ==> OutGraph(view).LoopFree()
  {
    hide Views;
    var g, times, inG, inTimes := OutGraph(view), OutTimes(view), InGraph(view), InTimes(view);
    ViewEdges(graph, view);
    ViewIsTransposed(graph, view);
    InShape(graph, view);
    forall slot | 0 <= slot < |times| ensures Nondecreasing(times[slot]) {
      var v := SlotSource(g, slot, g.Order());
      assert TemporalEdge(v, g.targets[slot], times[slot]) in graph.edges;
    }
    forall slot | 0 <= slot < |inTimes| ensures Nondecreasing(inTimes[slot]) {
      var w := SlotSource(inG, slot, inG.Order());
      assert Partner(g, times, inG.targets[slot], w, inTimes[slot]);
    }
    if forall e :: e in graph.edges ==> e.source != e.target {
      forall v: nat, slot | g.InRow(v, slot) ensures g.targets[slot] != v {
        assert TemporalEdge(v, g.targets[slot], times[slot]) in graph.edges;
      }
    }
  }
}
