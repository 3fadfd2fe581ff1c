/** The incremental update, and when it equals a full recount. */
module StaticUpdate {
  import opened CsrGraphs
  import opened CycleSearch
  import opened CycleSets
  import opened Rotations
  import opened EdgeBatches
  import opened EdgeOwnership
  import opened DirectedGraphs
  import opened DynamicUpdate

  /** Changes are between different vertices of the graph. */
  ghost predicate BatchFits(g: Csr, batch: EdgeBatch) {
    && (forall e :: e in batch.deletions ==> EdgeFits(g, e))
    && (forall e :: e in batch.insertions ==> EdgeFits(g, e))
  }

  ghost predicate EdgeFits(g: Csr, e: Edge) {
    e.source < g.Order() && e.target < g.Order() && e.source != e.target
  }

  /** Deletions are present; an inserted edge that is present is also deleted. */
  ghost predicate BatchMatches(g: Csr, batch: EdgeBatch)
    requires g.Valid()
  {
    && (forall e :: e in batch.deletions ==> g.HasEdge(e))
    && (forall e :: e in batch.insertions && g.HasEdge(e) ==> e in batch.deletions)
  }

  /** The full recount: the histogram of the simple cycles up to the limit. */
  ghost function Recount(g: Csr, limit: nat): Histogram
    requires g.Valid()
  {
    Lengths(SimpleCycles(g, Some(limit)))
  }

  ghost predicate Uses(c: seq<nat>, edges: seq<Edge>) {
    exists e :: e in edges && UsesEdge(c, e)
  }

  /** Cycles that survive the deletions but pass an edge inserted on top of itself. */
  ghost function Lost(g: Csr, batch: EdgeBatch, limit: nat): set<seq<nat>>
    requires g.Valid()
  {
    set c | c in SimpleCycles(g, Some(limit)) && !Uses(c, batch.deletions) && Uses(c, batch.insertions)
  }

  /** What the delete phase subtracts though it is no cycle: walks over deletions that are missing or self-loops. */
  ghost function DeletedPhantoms(initial: Csr, batch: EdgeBatch, limit: nat): set<seq<nat>>
    requires initial.Valid()
  {
    Phantoms(initial, SortAndDedup(batch.deletions), limit)
  }

  /** What the insert phase adds though it is no cycle: walks over inserted self-loops. */
  ghost function InsertedPhantoms(final: Csr, batch: EdgeBatch, limit: nat): set<seq<nat>>
    requires final.Valid()
  {
    Phantoms(final, SortAndDedup(batch.insertions), limit)
  }

  /** The cycles of `g` that avoid the given edges. */
  ghost function Avoiding(g: Csr, edges: seq<Edge>, limit: nat): set<seq<nat>>
    requires g.Valid()
  {
    set c | c in SimpleCycles(g, Some(limit)) && !Uses(c, edges)
  }

  /** A phase counts the cycles through its edges, and phantoms. */
  lemma PhaseSplits(g: Csr, edges: seq<Edge>, limit: nat)
    requires g.Canonical() && limit >= 2
    ensures var changes := SortAndDedup(edges);
            PhaseTally(g, changes, limit, |changes|) + Lengths(Avoiding(g, edges, limit)) ==
            Recount(g, limit) + Lengths(Phantoms(g, changes, limit))
  {
    hide PhaseTally, Lengths, PhantomsBefore, SortAndDedup, Touched, Avoiding;
    var changes := SortAndDedup(edges);
    SortedIsSimple(g);
    PhaseIsTouched(g, changes, limit, |changes|);
    TouchedOrAvoiding(g, edges, changes, limit);
    LengthsUnion(Touched(g, changes, limit, |changes|), Avoiding(g, edges, limit));
  }

  /** A cycle either uses one of the edges or avoids them all. */
  lemma TouchedOrAvoiding(g: Csr, edges: seq<Edge>, changes: seq<Edge>, limit: nat)
    requires g.Valid() && forall e :: e in changes <==> e in edges
    ensures Touched(g, changes, limit, |changes|) !! Avoiding(g, edges, limit)
    ensures Touched(g, changes, limit, |changes|) + Avoiding(g, edges, limit) == SimpleCycles(g, Some(limit))
  {
    hide UsesEdge, SimpleCycles;
    forall c ensures UsesSome(changes, c, |changes|) <==> Uses(c, edges) {
      if e :| e in edges && UsesEdge(c, e) {
        assert e in changes;
      }
      if i :| 0 <= i < |changes| && UsesEdge(c, changes[i]) {
        assert changes[i] in changes;
      }
    }
  }

  /** The cycles that survive the deletions, seen from both graphs. */
  lemma Survivors(initial: Csr, final: Csr, batch: EdgeBatch, limit: nat)
    requires initial.Canonical() && FinalGraph(initial, batch, final) && limit >= 2
    ensures Avoiding(initial, batch.deletions, limit) == Avoiding(final, batch.insertions, limit) + Lost(initial, batch, limit)
    ensures Avoiding(final, batch.insertions, limit) !! Lost(initial, batch, limit)
  {
    forall c ensures c in Avoiding(final, batch.insertions, limit) <==>
                     c in Avoiding(initial, batch.deletions, limit) && !Uses(c, batch.insertions)
    {
      SimpleCyclesExactly(initial, Some(limit), c);
      SimpleCyclesExactly(final, Some(limit), c);
      if !Uses(c, batch.insertions) {
        SurvivingCycle(initial, final, batch, c);
      }
    }
  }

  /** Without inserted edges, the cycles of the new graph are those of the old one without deleted edges. */
  lemma SurvivingCycle(initial: Csr, final: Csr, batch: EdgeBatch, c: seq<nat>)
    requires initial.Canonical() && FinalGraph(initial, batch, final)
    requires !Uses(c, batch.insertions)
    ensures IsCycle(final, c) <==> IsCycle(initial, c) && !Uses(c, batch.deletions)
  {
    CycleByEdges(initial, c);
    CycleByEdges(final, c);
    forall i | 0 <= i < |c|
      ensures final.HasEdge(Edge(c[i], After(c, i))) <==>
              initial.HasEdge(Edge(c[i], After(c, i))) && Edge(c[i], After(c, i)) !in batch.deletions
    {
      var e := Edge(c[i], After(c, i));
      assert UsesEdge(c, e);
      assert final.HasEdge(e) <==> EdgeAfter(initial, batch, e);
    }
  }

  lemma {:induction false} NoPhantoms(g: Csr, changes: seq<Edge>, limit: nat, n: nat)
    requires g.Valid() && n <= |changes|
    requires forall i :: 0 <= i < n ==> IsProper(g, changes[i])
    ensures PhantomsBefore(g, changes, limit, n) == {}
  {
    if n > 0 {
      NoPhantoms(g, changes, limit, n - 1);
    }
  }

  /** What the update computes for any batch: the recount, plus lost cycles and inserted phantoms, minus deleted phantoms. */
  lemma UpdateError(initial: Csr, final: Csr, base: Histogram, batch: EdgeBatch, limit: nat, k: nat)
    requires initial.Canonical() && FinalGraph(initial, batch, final)
    requires 2 <= k <= limit && base[k] == Recount(initial, limit)[k]
    ensures UpdatedBin(initial, final, base, batch, limit, k) + Lengths(DeletedPhantoms(initial, batch, limit))[k] ==
            Recount(final, limit)[k] + Lengths(Lost(initial, batch, limit))[k] + Lengths(InsertedPhantoms(final, batch, limit))[k]
  {
    PhaseSplits(initial, batch.deletions, limit);
    PhaseSplits(final, batch.insertions, limit);
    Survivors(initial, final, batch, limit);
    LengthsUnion(Avoiding(final, batch.insertions, limit), Lost(initial, batch, limit));
    hide Lengths, PhaseTally, Phantoms, SortAndDedup;
    var kept, lost := Lengths(Avoiding(final, batch.insertions, limit)), Lengths(Lost(initial, batch, limit));
    assert (DeletionTally(initial, batch, limit) + (kept + lost))[k] ==
           (Recount(initial, limit) + Lengths(DeletedPhantoms(initial, batch, limit)))[k];
    assert (InsertionTally(final, batch, limit) + kept)[k] ==
           (Recount(final, limit) + Lengths(InsertedPhantoms(final, batch, limit)))[k];
  }

  /** On a batch that matches the graph nothing is lost and nothing is a phantom. */
  lemma MatchingBatch(initial: Csr, final: Csr, batch: EdgeBatch, limit: nat)
    requires initial.Canonical() && FinalGraph(initial, batch, final) && BatchFits(initial, batch) && BatchMatches(initial, batch) && limit >= 2
    ensures Lost(initial, batch, limit) == DeletedPhantoms(initial, batch, limit) == InsertedPhantoms(final, batch, limit) == {}
  {
    NothingLost(initial, batch, limit);
    PresentDeletions(initial, batch, limit);
    ProperInsertions(initial, final, batch, limit);
  }

  /** The recount has no bins below 2 or beyond the limit. */
  lemma RecountBins(g: Csr, limit: nat, k: nat)
    requires g.Valid() && limit >= 2 && !(2 <= k <= limit)
    ensures Recount(g, limit)[k] == 0
  {
    LengthsBin(SimpleCycles(g, Some(limit)), k);
    forall c | c in SimpleCycles(g, Some(limit)) ensures |c| != k {
      SimpleCyclesExactly(g, Some(limit), c);
    }
    assert (set c | c in SimpleCycles(g, Some(limit)) && |c| == k) == {};
  }

  /** The update of a matching batch turns the recount of the old graph into that of the new one. */
  lemma UpdateEqualsRecount(initial: Csr, final: Csr, base: Histogram, batch: EdgeBatch, limit: nat, k: nat)
    requires initial.Canonical() && FinalGraph(initial, batch, final)
    requires BatchFits(initial, batch) && BatchMatches(initial, batch)
    requires limit >= 2 && base[k] == Recount(initial, limit)[k]
    ensures UpdatedBin(initial, final, base, batch, limit, k) == Recount(final, limit)[k]
  {
    if 2 <= k <= limit {
      UpdateError(initial, final, base, batch, limit, k);
      MatchingBatch(initial, final, batch, limit);
      LengthsEmpty<nat>();
    } else {
      RecountBins(initial, limit, k);
      RecountBins(final, limit, k);
    }
  }

  /** Sets of walks with lengths from 2 to the limit have no other bins. */
  lemma WalkBins(walks: set<seq<nat>>, limit: nat, k: nat)
    requires !(2 <= k <= limit) && forall d :: d in walks ==> 2 <= |d| <= limit
    ensures Lengths(walks)[k] == 0
  {
    LengthsBin(walks, k);
    assert (set d | d in walks && |d| == k) == {};
  }

  lemma LostBins(g: Csr, batch: EdgeBatch, limit: nat, k: nat)
    requires g.Valid() && limit >= 2 && !(2 <= k <= limit)
    ensures Lengths(Lost(g, batch, limit))[k] == 0
  {
    forall c | c in Lost(g, batch, limit) ensures 2 <= |c| <= limit {
      SimpleCyclesExactly(g, Some(limit), c);
    }
    WalkBins(Lost(g, batch, limit), limit, k);
  }

  lemma PhantomBins(g: Csr, changes: seq<Edge>, limit: nat, k: nat)
    requires g.Valid() && limit >= 2 && !(2 <= k <= limit)
    ensures Lengths(Phantoms(g, changes, limit))[k] == 0
  {
    forall d | d in Phantoms(g, changes, limit) ensures 2 <= |d| <= limit {
      PhantomsExactly(g, changes, limit, d);
    }
    WalkBins(Phantoms(g, changes, limit), limit, k);
  }

  /** The error of the update, in every bin. */
  lemma ErrorInEveryBin(initial: Csr, final: Csr, batch: EdgeBatch, limit: nat, k: nat)
    requires initial.Canonical() && FinalGraph(initial, batch, final) && limit >= 2
    ensures UpdatedBin(initial, final, Recount(initial, limit), batch, limit, k) + Lengths(DeletedPhantoms(initial, batch, limit))[k] ==
            Recount(final, limit)[k] + Lengths(Lost(initial, batch, limit))[k] + Lengths(InsertedPhantoms(final, batch, limit))[k]
  {
    hide Lengths, Lost, Phantoms, SortAndDedup, Recount;
    if 2 <= k <= limit {
      UpdateError(initial, final, Recount(initial, limit), batch, limit, k);
    } else {
      RecountBins(initial, limit, k);
      RecountBins(final, limit, k);
      LostBins(initial, batch, limit, k);
      PhantomBins(initial, SortAndDedup(batch.deletions), limit, k);
      PhantomBins(final, SortAndDedup(batch.insertions), limit, k);
    }
  }

  /** Starting from the recount of the old graph, the update yields that of the new one. */
  ghost predicate UpdateIsRecount(initial: Csr, final: Csr, batch: EdgeBatch, limit: nat)
    requires initial.Valid() && final.Valid()
  {
    forall k: nat :: UpdatedBin(initial, final, Recount(initial, limit), batch, limit, k) == Recount(final, limit)[k]
  }

  /** For every batch: the update is a recount exactly when deleted phantoms balance lost cycles and inserted phantoms. */
  lemma UpdateEqualsRecountIff(initial: Csr, final: Csr, batch: EdgeBatch, limit: nat)
    requires initial.Canonical() && FinalGraph(initial, batch, final) && limit >= 2
    ensures UpdateIsRecount(initial, final, batch, limit) <==>
                 Lengths(Lost(initial, batch, limit)) + Lengths(InsertedPhantoms(final, batch, limit)) ==
                 Lengths(DeletedPhantoms(initial, batch, limit))
  {
    hide Lengths, Lost, DeletedPhantoms, InsertedPhantoms, Recount, UpdatedBin, EdgeAfter, Csr.HasEdge;
    var lost, inserted := Lengths(Lost(initial, batch, limit)), Lengths(InsertedPhantoms(final, batch, limit));
    var deleted := Lengths(DeletedPhantoms(initial, batch, limit));
    forall k: nat
      ensures UpdatedBin(initial, final, Recount(initial, limit), batch, limit, k) + deleted[k] == Recount(final, limit)[k] + (lost + inserted)[k]
    {
      ErrorInEveryBin(initial, final, batch, limit, k);
    }
    if UpdateIsRecount(initial, final, batch, limit) {
      forall k: nat ensures (lost + inserted)[k] == deleted[k] {
        assert UpdatedBin(initial, final, Recount(initial, limit), batch, limit, k) == Recount(final, limit)[k];
      }
      assert lost + inserted == deleted;
    }
  }

  lemma LengthsOnlyOfNothing(cycles: set<seq<nat>>)
    ensures Lengths(cycles) == multiset{} <==> cycles == {}
  {
    if c :| c in cycles {
      LengthsRemove(cycles, c);
      assert |c| in Lengths(cycles);
    } else {
      assert cycles == {};
    }
  }

  /** A batch of proper changes has no inserted phantoms. */
  lemma ProperInsertions(initial: Csr, final: Csr, batch: EdgeBatch, limit: nat)
    requires initial.Canonical() && FinalGraph(initial, batch, final) && BatchFits(initial, batch)
    ensures InsertedPhantoms(final, batch, limit) == {}
  {
    var insertions := SortAndDedup(batch.insertions);
    forall i | 0 <= i < |insertions| ensures IsProper(final, insertions[i]) {
      assert insertions[i] in insertions && EdgeFits(initial, insertions[i]) && EdgeAfter(initial, batch, insertions[i]);
    }
    NoPhantoms(final, insertions, limit, |insertions|);
  }

  /**
   * When all deletions are present, the update is right exactly when no cycle keeps an inserted edge: every
   * cycle of the old graph that uses an inserted edge also uses a deleted one.
   */
  lemma RightIffInsertionsAreNew(initial: Csr, final: Csr, batch: EdgeBatch, limit: nat)
    requires initial.Canonical() && FinalGraph(initial, batch, final) && BatchFits(initial, batch) && limit >= 2
    requires forall e :: e in batch.deletions ==> initial.HasEdge(e)
    ensures UpdateIsRecount(initial, final, batch, limit) <==>
            forall c :: IsCycle(initial, c) && MinRooted(c) && |c| <= limit && Uses(c, batch.insertions) ==> Uses(c, batch.deletions)
  {
    hide Lengths, UpdateIsRecount, Uses, IsCycle, MinRooted, SortAndDedup, Recount;
    UpdateEqualsRecountIff(initial, final, batch, limit);
    ProperInsertions(initial, final, batch, limit);
    PresentDeletions(initial, batch, limit);
    LengthsEmpty<nat>();
    var lost := Lost(initial, batch, limit);
    LengthsOnlyOfNothing(lost);
    forall c ensures c in lost <==> IsCycle(initial, c) && MinRooted(c) && |c| <= limit && Uses(c, batch.insertions) && !Uses(c, batch.deletions) {
      SimpleCyclesExactly(initial, Some(limit), c);
    }
    assert lost == {} <==> forall c :: c !in lost;
  }

  /** Present deletions between different vertices have no phantoms. */
  lemma PresentDeletions(initial: Csr, batch: EdgeBatch, limit: nat)
    requires initial.Canonical() && BatchFits(initial, batch) && forall e :: e in batch.deletions ==> initial.HasEdge(e)
    ensures DeletedPhantoms(initial, batch, limit) == {}
  {
    var deletions := SortAndDedup(batch.deletions);
    forall i | 0 <= i < |deletions| ensures IsProper(initial, deletions[i]) {
      assert deletions[i] in deletions && EdgeFits(initial, deletions[i]);
    }
    NoPhantoms(initial, deletions, limit, |deletions|);
  }

  /** Some listed edge is missing, and a walk that starts with it closes. */
  ghost predicate MissingCloses(g: Csr, deletions: seq<Edge>, limit: nat)
    requires g.Valid()
  {
    exists i, d :: 0 <= i < |deletions| && !g.HasEdge(deletions[i]) && AnchoredWalk(g, deletions, i, limit, d)
  }

  /**
   * When every present insertion is also deleted, the update is right exactly when no missing deletion closes
   * a walk: from its target back to its source, over edges that are no smaller deletions, within the limit.
   */
  lemma RightIffDeletionsClose(initial: Csr, final: Csr, batch: EdgeBatch, limit: nat)
    requires initial.Canonical() && FinalGraph(initial, batch, final) && BatchFits(initial, batch) && limit >= 2
    requires forall e :: e in batch.insertions && initial.HasEdge(e) ==> e in batch.deletions
    ensures UpdateIsRecount(initial, final, batch, limit) <==> !MissingCloses(initial, SortAndDedup(batch.deletions), limit)
  {
    hide Lengths, UpdateIsRecount, AnchoredWalk, SortAndDedup, Recount, Csr.HasEdge, PhantomsBefore;
    var deletions := SortAndDedup(batch.deletions);
    UpdateEqualsRecountIff(initial, final, batch, limit);
    ProperInsertions(initial, final, batch, limit);
    NothingLost(initial, batch, limit);
    LengthsEmpty<nat>();
    var phantoms := DeletedPhantoms(initial, batch, limit);
    LengthsOnlyOfNothing(phantoms);
    assert UpdateIsRecount(initial, final, batch, limit) <==> phantoms == {};
    forall i | 0 <= i < |deletions| ensures IsProper(initial, deletions[i]) <==> initial.HasEdge(deletions[i]) {
      assert deletions[i] in deletions && EdgeFits(initial, deletions[i]);
    }
    if d :| d in phantoms {
      PhantomsExactly(initial, deletions, limit, d);
    }
    if MissingCloses(initial, deletions, limit) {
      var i, d :| 0 <= i < |deletions| && !initial.HasEdge(deletions[i]) && AnchoredWalk(initial, deletions, i, limit, d);
      PhantomsExactly(initial, deletions, limit, d);
    }
  }

  /** A cycle that uses a present insertion uses a deletion. */
  lemma NothingLost(initial: Csr, batch: EdgeBatch, limit: nat)
    requires initial.Canonical() && limit >= 2
    requires forall e :: e in batch.insertions && initial.HasEdge(e) ==> e in batch.deletions
    ensures Lost(initial, batch, limit) == {}
  {
    forall c | c in SimpleCycles(initial, Some(limit)) && !Uses(c, batch.deletions) ensures !Uses(c, batch.insertions) {
      SimpleCyclesExactly(initial, Some(limit), c);
      forall e | e in batch.insertions ensures !UsesEdge(c, e) {
        UsedEdgeExists(initial, c, e);
      }
    }
  }

  /** Deleting an edge that is not there subtracts a cycle that never existed. */
  lemma MissingDeletionUndercounts()
    ensures var g, batch := Csr([0, 0, 1], [0]), EdgeBatch([Edge(0, 1)], []);
            && g.Canonical() && BatchFits(g, batch) && FinalGraph(g, batch, g)
            && UpdatedBin(g, g, Recount(g, 2), batch, 2, 2) == Recount(g, 2)[2] as int - 1
  {
    var g, deletion := Csr([0, 0, 1], [0]), Edge(0, 1);
    var batch := EdgeBatch([deletion], []);
    OneSorted(deletion);
    var s, p := AnchoredSearch(g, [deletion], 0, 2), Anchor(deletion);
    assert g.InRow(1, 0) && s.Takes(1, 0);
    assert Branch(s, p, 0) == multiset{2} && Owed(s, p, 1) == multiset{};
    assert AnchoredTally(g, [deletion], 0, 2) == multiset{2};
    assert PhaseTally(g, [deletion], 2, 0) == multiset{};
    assert PhaseTally(g, [deletion], 2, 1) == multiset{2};
  }

  /** Inserting an edge that is already there counts its cycles a second time. */
  lemma PresentInsertionOvercounts()
    ensures var g, batch := Csr([0, 1, 2], [1, 0]), EdgeBatch([], [Edge(0, 1)]);
            && g.Canonical() && BatchFits(g, batch) && FinalGraph(g, batch, g)
            && UpdatedBin(g, g, Recount(g, 2), batch, 2, 2) == Recount(g, 2)[2] + 1
  {
    var g, insertion := Csr([0, 1, 2], [1, 0]), Edge(0, 1);
    var batch := EdgeBatch([], [insertion]);
    OneSorted(insertion);
    var s, p := AnchoredSearch(g, [insertion], 0, 2), Anchor(insertion);
    assert g.InRow(0, 0) && g.InRow(1, 1) && s.Takes(1, 1);
    assert Branch(s, p, 1) == multiset{2} && Owed(s, p, 2) == multiset{};
    assert AnchoredTally(g, [insertion], 0, 2) == multiset{2};
    assert PhaseTally(g, [insertion], 2, 0) == multiset{};
    assert PhaseTally(g, [insertion], 2, 1) == multiset{2};
  }

  /** Inserting a self-loop adds a cycle of length 2 that is none. */
  lemma SelfLoopInsertionOvercounts()
    ensures var g, final, batch := Csr([0, 0], []), Csr([0, 1], [0]), EdgeBatch([], [Edge(0, 0)]);
            && g.Canonical() && InsertionsFit(g.Order(), batch) && BatchMatches(g, batch) && FinalGraph(g, batch, final)
            && UpdatedBin(g, final, Recount(g, 2), batch, 2, 2) == Recount(final, 2)[2] + 1
  {
    hide AnchoredTally, FinalGraph, Recount, SortAndDedup;
    var g, final, insertion := Csr([0, 0], []), Csr([0, 1], [0]), Edge(0, 0);
    OneSorted(insertion);
    OneLoopInserted(g, final, EdgeBatch([], [insertion]));
    OneLoop(final);
    assert PhaseTally(final, [insertion], 2, 0) == multiset{};
    assert PhaseTally(final, [insertion], 2, 1) == multiset{2};
    OneVertexNoCycles(g);
    OneVertexNoCycles(final);
  }

  lemma OneLoopInserted(g: Csr, final: Csr, batch: EdgeBatch)
    requires g == Csr([0, 0], []) && final == Csr([0, 1], [0]) && batch == EdgeBatch([], [Edge(0, 0)])
    ensures g.Canonical() && FinalGraph(g, batch, final)
  {
    assert final.InRow(0, 0);
  }

  /** Anchored at the self-loop of one vertex, the search closes at once. */
  lemma OneLoop(g: Csr)
    requires g == Csr([0, 1], [0])
    ensures g.Canonical() && AnchoredTally(g, [Edge(0, 0)], 0, 2) == multiset{2}
  {
    var s, p := AnchoredSearch(g, [Edge(0, 0)], 0, 2), Anchor(Edge(0, 0));
    assert g.InRow(0, 0) && s.Takes(0, 0);
    assert Branch(s, p, 0) == multiset{2} && Owed(s, p, 1) == multiset{};
  }

  /** One vertex has no simple cycle, with or without a self-loop. */
  lemma OneVertexNoCycles(g: Csr)
    requires g.Valid() && g.Order() == 1
    ensures Recount(g, 2)[2] == 0
  {
    forall c ensures c !in SimpleCycles(g, Some(2)) {
      SimpleCyclesExactly(g, Some(2), c);
      assert !(2 <= |c| && c[0] != c[1] && c[0] < 1 && c[1] < 1);
    }
    assert SimpleCycles(g, Some(2)) == {};
    LengthsEmpty<nat>();
  }

  lemma OneSorted(e: Edge)
    ensures SortAndDedup([e]) == [e] && SortAndDedup([]) == []
  {
    assert [e][..0] == [];
  }

  /** Subtract the cycles through deleted edges, add those through inserted edges of the new graph. */
  method UpdateStaticHistogram(initial: Csr, base: Histogram, batch: EdgeBatch, limit: nat)
    returns (r: UpdateResult, ghost final: Csr)
    requires initial.Canonical() && InsertionsFit(initial.Order(), batch)
    ensures r.InvalidCap? <==> limit < 2
    ensures final.Valid() && (limit >= 2 ==> FinalGraph(initial, batch, final))
    ensures r.Updated? ==> forall k: nat :: r.histogram[k] == UpdatedBin(initial, final, base, batch, limit, k)
    ensures r.NegativeCount? ==> exists k: nat :: UpdatedBin(initial, final, base, batch, limit, k) < 0
    ensures limit >= 2 && BatchFits(initial, batch) && BatchMatches(initial, batch) && base == Recount(initial, limit) ==>
              r == Updated(Recount(final, limit))
  {
    hide PhaseTally, Csr.HasEdge, EdgeAfter;
    if limit < 2 {
      return InvalidCap, initial;
    }
    var normalized := Normalize(batch);
    BatchAfter(initial, batch);
    var delta := new int[limit + 1](_ => 0);
    AccumulatePhase(initial, normalized.deletions, limit, -1, delta);
    var result := ApplyBatch(initial, normalized);
    final := result;
    AccumulatePhase(result, normalized.insertions, limit, 1, delta);
    r := ApplyHistogramDelta(base, delta[..], limit);
    forall k: nat ensures Shifted(base, delta[..], limit, k) == UpdatedBin(initial, final, base, batch, limit, k) {}
    if BatchFits(initial, batch) && BatchMatches(initial, batch) && base == Recount(initial, limit) {
      forall k: nat ensures UpdatedBin(initial, final, base, batch, limit, k) == Recount(final, limit)[k] {
        UpdateEqualsRecount(initial, final, base, batch, limit, k);
      }
    }
  }
}
