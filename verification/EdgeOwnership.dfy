/**
 * Cycles through changed edges.  A search anchored at a changed edge `u -> v` walks from `v` back to
 * `u` and refuses the changed edges with smaller ids; over all changed edges this counts every cycle
 * that uses one of them once.
 */
module EdgeOwnership {
  import opened CsrGraphs
  import opened CycleSearch
  import opened CycleSets
  import opened Rotations

  /** A list of changed edges without duplicates; self-loops and vertices outside the graph are allowed. */
  ghost predicate ChangesFit(g: Csr, changes: seq<Edge>) {
    g.Valid() && forall i, j :: 0 <= i < j < |changes| ==> changes[i] != changes[j]
  }

  /** An edge of the graph that a simple cycle can use. */
  ghost predicate IsProper(g: Csr, e: Edge)
    requires g.Valid()
  {
    g.HasEdge(e) && e.source != e.target
  }

  function AnchoredSearch(g: Csr, changes: seq<Edge>, i: nat, limit: nat): Search
    requires i < |changes|
  {
    Search(g, changes[i].source, OwnedBy(changes, i), Some(limit))
  }

  function Anchor(e: Edge): seq<nat> {
    [e.source, e.target]
  }

  ghost predicate EdgeInRange(g: Csr, e: Edge) {
    e.source < g.Order() && e.target < g.Order()
  }

  /** What the search anchored at change `i` records. */
  ghost function AnchoredTally(g: Csr, changes: seq<Edge>, i: nat, limit: nat): Histogram
    requires g.Valid() && i < |changes|
  {
    if EdgeInRange(g, changes[i]) then Subtree(AnchoredSearch(g, changes, i, limit), Anchor(changes[i])) else multiset{}
  }

  /** What the searches anchored at the first `n` changes record. */
  ghost function PhaseTally(g: Csr, changes: seq<Edge>, limit: nat, n: nat): Histogram
    requires g.Valid() && n <= |changes|
  {
    if n == 0 then multiset{} else PhaseTally(g, changes, limit, n - 1) + AnchoredTally(g, changes, n - 1, limit)
  }

  /** Change `i` is the one with the smallest id on the cycle. */
  ghost predicate Owner(changes: seq<Edge>, c: seq<nat>, i: nat) {
    i < |changes| && UsesEdge(c, changes[i]) && forall j :: 0 <= j < i ==> !UsesEdge(c, changes[j])
  }

  ghost function OwnedCycles(g: Csr, changes: seq<Edge>, i: nat, limit: nat): set<seq<nat>>
    requires g.Valid()
  {
    set c | c in SimpleCycles(g, Some(limit)) && Owner(changes, c, i)
  }

  ghost predicate UsesSome(changes: seq<Edge>, c: seq<nat>, n: nat) {
    exists i :: 0 <= i < |changes| && i < n && UsesEdge(c, changes[i])
  }

  /** The simple cycles that use one of the first `n` changes. */
  ghost function Touched(g: Csr, changes: seq<Edge>, limit: nat, n: nat): set<seq<nat>>
    requires g.Valid()
  {
    set c | c in SimpleCycles(g, Some(limit)) && UsesSome(changes, c, n)
  }

  // ---- What an anchored search finds ----

  /**
   * A closed walk anchored at change `i` that avoids the earlier changes after its first step.  No vertex
   * from the third on occurred before; the first two are the ends of the change, and equal for a self-loop.
   */
  ghost predicate AnchoredWalk(g: Csr, changes: seq<Edge>, i: nat, limit: nat, d: seq<nat>)
    requires g.Valid() && i < |changes|
  {
    && 2 <= |d| <= limit && d[0] == changes[i].source && d[1] == changes[i].target
    && (forall a, b :: 0 <= a < b < |d| && 2 <= b ==> d[a] != d[b])
    && (forall k :: 0 <= k < |d| ==> d[k] < g.Order())
    && (forall k :: 1 <= k < |d| ==> MayCross(g, changes, i, Edge(d[k], After(d, k))))
  }

  /** An edge of the graph that the search of owner `i` may follow. */
  ghost predicate MayCross(g: Csr, changes: seq<Edge>, i: nat, e: Edge)
    requires g.Valid()
  {
    g.HasEdge(e) && !ForbiddenBefore(changes, e, i)
  }

  lemma AnchoredLinks(g: Csr, changes: seq<Edge>, i: nat, limit: nat, v: nat, w: nat)
    requires g.Valid() && i < |changes| && EdgeInRange(g, changes[i])
    ensures AnchoredSearch(g, changes, i, limit).Valid()
    ensures Linked(AnchoredSearch(g, changes, i, limit), v, w) <==> MayCross(g, changes, i, Edge(v, w))
  {
    var s := AnchoredSearch(g, changes, i, limit);
    if g.HasEdge(Edge(v, w)) && !ForbiddenBefore(changes, Edge(v, w), i) {
      var slot :| g.InRow(v, slot) && g.targets[slot] == w;
      assert s.Takes(v, slot);
    }
  }

  ghost predicate LinksMatch(g: Csr, changes: seq<Edge>, i: nat, s: Search)
    requires g.Valid() && s.Valid()
  {
    forall v: nat, w: nat :: Linked(s, v, w) <==> MayCross(g, changes, i, Edge(v, w))
  }

  lemma CompletionIsAnchored(g: Csr, changes: seq<Edge>, i: nat, limit: nat, s: Search, d: seq<nat>)
    requires g.Valid() && i < |changes| && EdgeInRange(g, changes[i]) && s == AnchoredSearch(g, changes, i, limit) && s.Valid()
    requires LinksMatch(g, changes, i, s) && limit >= 2 && Completes(s, Anchor(changes[i]), d)
    ensures AnchoredWalk(g, changes, i, limit, d)
  {
    hide MayCross, Linked;
    assert d[0] == Anchor(changes[i])[0] && d[1] == Anchor(changes[i])[1];
    forall k | 1 <= k < |d| ensures MayCross(g, changes, i, Edge(d[k], After(d, k))) {
      if k + 1 < |d| { assert Linked(s, d[k + 1 - 1], d[k + 1]); }
    }
    forall k | 2 <= k < |d| ensures d[k] < g.Order() {
      assert Linked(s, d[k - 1], d[k]);
      LinkedInRange(s, d[k - 1], d[k]);
    }
    forall a, b | 0 <= a < b < |d| && 2 <= b ensures d[a] != d[b] {
      assert d[b] !in d[..b] && d[a] == d[..b][a];
    }
  }

  lemma AnchoredIsCompletion(g: Csr, changes: seq<Edge>, i: nat, limit: nat, s: Search, d: seq<nat>)
    requires g.Valid() && i < |changes| && EdgeInRange(g, changes[i]) && s == AnchoredSearch(g, changes, i, limit) && s.Valid()
    requires LinksMatch(g, changes, i, s) && AnchoredWalk(g, changes, i, limit, d)
    ensures Completes(s, Anchor(changes[i]), d)
  {
    hide MayCross, Linked;
    assert Anchor(changes[i]) <= d;
    forall k | 2 <= k < |d| ensures Linked(s, d[k - 1], d[k]) {
      assert After(d, k - 1) == d[k] && MayCross(g, changes, i, Edge(d[k - 1], After(d, k - 1)));
    }
    assert After(d, |d| - 1) == d[0] && MayCross(g, changes, i, Edge(d[|d| - 1], After(d, |d| - 1)));
  }

  lemma AnchoredCompletions(g: Csr, changes: seq<Edge>, i: nat, limit: nat, d: seq<nat>)
    requires g.Valid() && i < |changes| && EdgeInRange(g, changes[i]) && limit >= 2
    ensures AnchoredSearch(g, changes, i, limit).Valid()
    ensures Completes(AnchoredSearch(g, changes, i, limit), Anchor(changes[i]), d) <==> AnchoredWalk(g, changes, i, limit, d)
  {
    hide MayCross, Linked, Completes, AnchoredWalk;
    var s, p := AnchoredSearch(g, changes, i, limit), Anchor(changes[i]);
    forall v: nat, w: nat ensures Linked(s, v, w) <==> MayCross(g, changes, i, Edge(v, w)) {
      AnchoredLinks(g, changes, i, limit, v, w);
    }
    if Completes(s, p, d) {
      CompletionIsAnchored(g, changes, i, limit, s, d);
    }
    if AnchoredWalk(g, changes, i, limit, d) {
      AnchoredIsCompletion(g, changes, i, limit, s, d);
    }
  }

  lemma LinkedInRange(s: Search, v: int, w: int)
    requires s.Valid() && Linked(s, v, w)
    ensures 0 <= w < s.g.Order()
  {
  }

  /** Anchored at an edge of the graph, these are the cycles that start with it and are owned by it. */
  lemma AnchoredAreOwned(g: Csr, changes: seq<Edge>, i: nat, limit: nat, d: seq<nat>)
    requires ChangesFit(g, changes) && i < |changes| && IsProper(g, changes[i])
    ensures AnchoredWalk(g, changes, i, limit, d) <==>
            && IsCycle(g, d) && |d| <= limit && d[0] == changes[i].source && d[1] == changes[i].target
            && Owner(changes, d, i)
  {
    if AnchoredWalk(g, changes, i, limit, d) {
      WalkIsOwned(g, changes, i, limit, d);
    }
    if IsCycle(g, d) && |d| <= limit && d[0] == changes[i].source && d[1] == changes[i].target && Owner(changes, d, i) {
      OwnedIsWalk(g, changes, i, limit, d);
    }
  }

  lemma WalkShape(g: Csr, changes: seq<Edge>, i: nat, limit: nat, d: seq<nat>)
    requires g.Valid() && i < |changes| && IsProper(g, changes[i]) && AnchoredWalk(g, changes, i, limit, d)
    ensures 2 <= |d| <= limit && Distinct(d) && d[0] == changes[i].source && After(d, 0) == d[1] == changes[i].target
  {
    hide MayCross, Csr.HasEdge;
  }

  lemma WalkIsOwned(g: Csr, changes: seq<Edge>, i: nat, limit: nat, d: seq<nat>)
    requires ChangesFit(g, changes) && i < |changes| && IsProper(g, changes[i]) && AnchoredWalk(g, changes, i, limit, d)
    ensures IsCycle(g, d) && Owner(changes, d, i)
  {
    hide MayCross, IsCycle, Csr.HasEdge;
    WalkShape(g, changes, i, limit, d);
    forall k | 0 <= k < |d|
      ensures g.HasEdge(Edge(d[k], After(d, k))) && forall j :: 0 <= j < i ==> changes[j] != Edge(d[k], After(d, k))
    {
      if k >= 1 {
        assert MayCross(g, changes, i, Edge(d[k], After(d, k)));
        NotForbidden(g, changes, Edge(d[k], After(d, k)), i);
      }
    }
    CycleByEdges(g, d);
    assert UsesEdge(d, changes[i]);
  }

  lemma NotForbidden(g: Csr, changes: seq<Edge>, e: Edge, i: nat)
    requires g.Valid() && i < |changes| && MayCross(g, changes, i, e)
    ensures g.HasEdge(e) && forall j :: 0 <= j < i ==> changes[j] != e
  {
    hide Csr.HasEdge;
  }

  lemma OwnedIsWalk(g: Csr, changes: seq<Edge>, i: nat, limit: nat, d: seq<nat>)
    requires g.Valid() && i < |changes| && IsCycle(g, d) && |d| <= limit && Owner(changes, d, i)
    requires d[0] == changes[i].source && d[1] == changes[i].target
    ensures AnchoredWalk(g, changes, i, limit, d)
  {
    hide Csr.HasEdge;
    CycleByEdges(g, d);
    forall k | 0 <= k < |d| ensures MayCross(g, changes, i, Edge(d[k], After(d, k))) {
      forall j | 0 <= j < i ensures changes[j] != Edge(d[k], After(d, k)) {
        assert !UsesEdge(d, changes[j]);
      }
    }
  }

  /** The walks the search of change `i` finds; none when the change is not between vertices of the graph. */
  ghost function Anchored(g: Csr, changes: seq<Edge>, i: nat, limit: nat): set<seq<nat>>
    requires g.Valid() && i < |changes|
  {
    if EdgeInRange(g, changes[i]) then Found(AnchoredSearch(g, changes, i, limit), Anchor(changes[i]), g.Begin(changes[i].target))
    else {}
  }

  /** They are the anchored walks, whether or not the change is an edge of the graph. */
  lemma AnchoredExactly(g: Csr, changes: seq<Edge>, i: nat, limit: nat, d: seq<nat>)
    requires g.Valid() && i < |changes| && limit >= 2
    ensures d in Anchored(g, changes, i, limit) <==> AnchoredWalk(g, changes, i, limit, d)
  {
    if EdgeInRange(g, changes[i]) {
      AnchoredCompletions(g, changes, i, limit, d);
      FoundExactly(AnchoredSearch(g, changes, i, limit), Anchor(changes[i]), d);
    }
  }

  /** And the search counts each of them once. */
  lemma AnchoredTallyIsLengths(g: Csr, changes: seq<Edge>, i: nat, limit: nat)
    requires g.Valid() && g.Simple() && i < |changes|
    ensures AnchoredTally(g, changes, i, limit) == Lengths(Anchored(g, changes, i, limit))
  {
    var e := changes[i];
    if EdgeInRange(g, e) {
      OwedIsLengths(AnchoredSearch(g, changes, i, limit), Anchor(e), g.Begin(e.target));
    } else {
      LengthsEmpty<nat>();
    }
  }

  lemma OwnerRotates(changes: seq<Edge>, c: seq<nat>, k: nat, i: nat)
    requires k <= |c|
    ensures Owner(changes, Rotate(c, k), i) <==> Owner(changes, c, i)
  {
    forall j | 0 <= j < |changes| ensures UsesEdge(Rotate(c, k), changes[j]) <==> UsesEdge(c, changes[j]) {
      RotateUsesSame(c, k, changes[j]);
    }
  }

  /** Rotation to the smallest vertex maps the anchored walks onto the owned simple cycles. */
  lemma AnchoredToOwned(g: Csr, changes: seq<Edge>, i: nat, limit: nat)
    requires ChangesFit(g, changes) && i < |changes| && limit >= 2 && IsProper(g, changes[i])
    ensures [] !in Anchored(g, changes, i, limit)
    ensures Canonicals(Anchored(g, changes, i, limit)) == OwnedCycles(g, changes, i, limit)
  {
    var anchored := Anchored(g, changes, i, limit);
    AnchoredExactly(g, changes, i, limit, []);
    forall d | d in anchored ensures Canonical(d) in OwnedCycles(g, changes, i, limit) {
      AnchoredExactly(g, changes, i, limit, d);
      AnchoredAreOwned(g, changes, i, limit, d);
      CanonicalInOwned(g, changes, i, limit, d);
    }
    forall c | c in OwnedCycles(g, changes, i, limit) ensures c in Canonicals(anchored) {
      var d := AnchorOwned(g, changes, i, limit, c);
      AnchoredAreOwned(g, changes, i, limit, d);
      AnchoredExactly(g, changes, i, limit, d);
    }
  }

  lemma CanonicalInOwned(g: Csr, changes: seq<Edge>, i: nat, limit: nat, d: seq<nat>)
    requires g.Valid() && IsCycle(g, d) && |d| <= limit && limit >= 2 && Owner(changes, d, i)
    ensures Canonical(d) in OwnedCycles(g, changes, i, limit)
  {
    var k := MinIndex(d);
    RotateCycle(g, d, k);
    CanonicalIsMinRooted(d);
    SimpleCyclesExactly(g, Some(limit), Canonical(d));
    OwnerRotates(changes, d, k, i);
  }

  lemma AnchorOwned(g: Csr, changes: seq<Edge>, i: nat, limit: nat, c: seq<nat>) returns (d: seq<nat>)
    requires g.Valid() && limit >= 2 && c in OwnedCycles(g, changes, i, limit)
    ensures IsCycle(g, d) && |d| <= limit && Owner(changes, d, i) && Canonical(d) == c
    ensures d[0] == changes[i].source && d[1] == changes[i].target
  {
    SimpleCyclesExactly(g, Some(limit), c);
    var k :| 0 <= k < |c| && c[k] == changes[i].source && After(c, k) == changes[i].target;
    d := Rotate(c, k);
    RotateCycle(g, c, k);
    RotateAfter(c, k, 0);
    OwnerRotates(changes, c, k, i);
    CanonicalOfRotation(c, k);
  }

  /** A search anchored at an edge of the graph counts the simple cycles owned by that edge. */
  lemma AnchoredTallyIsOwned(g: Csr, changes: seq<Edge>, i: nat, limit: nat)
    requires ChangesFit(g, changes) && i < |changes| && limit >= 2 && g.Simple() && IsProper(g, changes[i])
    ensures AnchoredTally(g, changes, i, limit) == Lengths(OwnedCycles(g, changes, i, limit))
  {
    hide AnchoredTally, Lengths, Anchored, OwnedCycles, AnchoredWalk, IsProper, Canonicals, Csr.Valid, Csr.Simple;
    var anchored, e := Anchored(g, changes, i, limit), changes[i];
    AnchoredTallyIsLengths(g, changes, i, limit);
    forall d | d in anchored ensures 0 < |d| && Distinct(d) && d[0] == e.source {
      AnchoredExactly(g, changes, i, limit, d);
      WalkShape(g, changes, i, limit, d);
    }
    CanonicalsKeepLengths(anchored, e.source);
    AnchoredToOwned(g, changes, i, limit);
  }

  // ---- All changes together ----

  /** The walks anchored at the first `n` changes of which no simple cycle is one: missing edges and self-loops. */
  ghost function PhantomsBefore(g: Csr, changes: seq<Edge>, limit: nat, n: nat): set<seq<nat>>
    requires g.Valid() && n <= |changes|
  {
    if n == 0 then {}
    else PhantomsBefore(g, changes, limit, n - 1) + if IsProper(g, changes[n - 1]) then {} else Anchored(g, changes, n - 1, limit)
  }

  /** All those walks of a list of changes. */
  ghost function Phantoms(g: Csr, changes: seq<Edge>, limit: nat): set<seq<nat>>
    requires g.Valid()
  {
    PhantomsBefore(g, changes, limit, |changes|)
  }

  lemma {:induction false} PhantomsBeforeExactly(g: Csr, changes: seq<Edge>, limit: nat, n: nat, d: seq<nat>)
    requires g.Valid() && n <= |changes| && limit >= 2
    ensures d in PhantomsBefore(g, changes, limit, n) <==>
            exists i :: 0 <= i < |changes| && i < n && !IsProper(g, changes[i]) && AnchoredWalk(g, changes, i, limit, d)
  {
    hide AnchoredWalk, IsProper, Anchored;
    if n > 0 {
      PhantomsBeforeExactly(g, changes, limit, n - 1, d);
      AnchoredExactly(g, changes, n - 1, limit, d);
    }
  }

  /** A phantom is a closed walk over a changed edge that is missing or a self-loop, and over edges of the graph otherwise. */
  lemma PhantomsExactly(g: Csr, changes: seq<Edge>, limit: nat, d: seq<nat>)
    requires g.Valid() && limit >= 2
    ensures d in Phantoms(g, changes, limit) <==>
            exists i :: 0 <= i < |changes| && !IsProper(g, changes[i]) && AnchoredWalk(g, changes, i, limit, d)
  {
    PhantomsBeforeExactly(g, changes, limit, |changes|, d);
  }

  /** Every cycle through a change is counted by exactly one owner, and every phantom once; nothing else is counted. */
  lemma {:induction false} PhaseIsTouched(g: Csr, changes: seq<Edge>, limit: nat, n: nat)
    requires ChangesFit(g, changes) && n <= |changes| && limit >= 2 && g.Simple()
    ensures PhaseTally(g, changes, limit, n) ==
            Lengths(Touched(g, changes, limit, n)) + Lengths(PhantomsBefore(g, changes, limit, n))
  {
    hide AnchoredTally, Lengths, OwnedCycles, Touched, Anchored, IsProper;
    if n > 0 {
      PhaseIsTouched(g, changes, limit, n - 1);
      TouchedStep(g, changes, limit, n);
      LengthsUnion(Touched(g, changes, limit, n - 1), OwnedCycles(g, changes, n - 1, limit));
      LengthsEmpty<nat>();
      if IsProper(g, changes[n - 1]) {
        AnchoredTallyIsOwned(g, changes, n - 1, limit);
        assert PhantomsBefore(g, changes, limit, n) == PhantomsBefore(g, changes, limit, n - 1);
      } else {
        ImproperOwnsNothing(g, changes, n - 1, limit);
        AnchoredTallyIsLengths(g, changes, n - 1, limit);
        PhantomsApart(g, changes, limit, n);
        LengthsUnion(PhantomsBefore(g, changes, limit, n - 1), Anchored(g, changes, n - 1, limit));
      }
    } else {
      NoneTouched(g, changes, limit);
      LengthsEmpty<nat>();
    }
  }

  lemma NoneTouched(g: Csr, changes: seq<Edge>, limit: nat)
    requires g.Valid()
    ensures Touched(g, changes, limit, 0) == {}
  {
  }

  /** The first two vertices of a walk tell its change. */
  lemma PhantomsApart(g: Csr, changes: seq<Edge>, limit: nat, n: nat)
    requires ChangesFit(g, changes) && 0 < n <= |changes| && limit >= 2
    ensures PhantomsBefore(g, changes, limit, n - 1) !! Anchored(g, changes, n - 1, limit)
  {
    var before, here := PhantomsBefore(g, changes, limit, n - 1), Anchored(g, changes, n - 1, limit);
    forall d | d in here ensures d !in before {
      AnchoredExactly(g, changes, n - 1, limit, d);
      PhantomsBeforeExactly(g, changes, limit, n - 1, d);
      assert forall i :: 0 <= i < n - 1 ==> changes[i] != changes[n - 1];
    }
  }

  lemma TouchedStep(g: Csr, changes: seq<Edge>, limit: nat, n: nat)
    requires g.Valid() && 0 < n <= |changes|
    ensures Touched(g, changes, limit, n) == Touched(g, changes, limit, n - 1) + OwnedCycles(g, changes, n - 1, limit)
    ensures Touched(g, changes, limit, n - 1) !! OwnedCycles(g, changes, n - 1, limit)
  {
    forall c ensures UsesSome(changes, c, n) <==> UsesSome(changes, c, n - 1) || Owner(changes, c, n - 1) {
      if UsesSome(changes, c, n) && !UsesSome(changes, c, n - 1) {
        assert UsesEdge(c, changes[n - 1]);
      }
    }
  }

  lemma ImproperOwnsNothing(g: Csr, changes: seq<Edge>, i: nat, limit: nat)
    requires g.Valid() && i < |changes| && limit >= 2 && !IsProper(g, changes[i])
    ensures OwnedCycles(g, changes, i, limit) == {}
  {
    forall c | c in SimpleCycles(g, Some(limit)) ensures !Owner(changes, c, i) {
      SimpleCyclesExactly(g, Some(limit), c);
      UsedEdgeExists(g, c, changes[i]);
    }
  }

  /** A simple cycle uses edges of the graph, and no self-loop. */
  lemma UsedEdgeExists(g: Csr, c: seq<nat>, e: Edge)
    requires g.Valid() && IsCycle(g, c)
    ensures UsesEdge(c, e) ==> IsProper(g, e)
  {
    CycleByEdges(g, c);
    forall k | 0 <= k < |c| && c[k] == e.source && After(c, k) == e.target ensures IsProper(g, e) {
      assert e == Edge(c[k], After(c, k));
    }
  }
}
