/** Random batches of edge changes: the random generator may answer anything in the range it is asked for. */
module BatchGenerator {
  import opened CsrGraphs
  import opened CycleSearch
  import opened EdgeBatches
  import opened DirectedGraphs
  import opened DynamicUpdate
  import opened StaticUpdate

  datatype BatchParams = BatchParams(deletions: nat, insertions: nat, locality: Option<nat>)

  datatype Generated = Batch(batch: EdgeBatch) | TooFewVertices | TooFewEdges | TooFewNonEdges

  /** Any answer in the range; nothing more is known of the generator. */
  method Draw(low: nat, high: nat) returns (x: nat)
    requires low <= high
    ensures low <= x <= high
  {
    x :| low <= x <= high;
  }

  ghost predicate NoDuplicates(edges: seq<Edge>) {
    forall i, j :: 0 <= i < j < |edges| ==> edges[i] != edges[j]
  }

  // ---- Lists without duplicates ----

  lemma {:induction false} InsertGrows(edges: seq<Edge>, e: Edge)
    requires StrictlySorted(edges) && e !in edges
    ensures |InsertEdge(edges, e)| == |edges| + 1
  {
    if edges != [] && EdgeLess(edges[0], e) {
      InsertGrows(edges[1..], e);
    }
  }

  /** Normalizing a list without duplicates keeps its size. */
  lemma {:induction false} DedupKeepsSize(edges: seq<Edge>)
    requires NoDuplicates(edges)
    ensures |SortAndDedup(edges)| == |edges|
  {
    if edges != [] {
      var front, last := edges[..|edges| - 1], edges[|edges| - 1];
      DedupKeepsSize(front);
      assert last !in front;
      InsertGrows(SortAndDedup(front), last);
    }
  }

  /** A list has no duplicates exactly when its multiset has none. */
  lemma {:induction false} NoDuplicatesByCount(edges: seq<Edge>)
    ensures NoDuplicates(edges) <==> forall e :: multiset(edges)[e] <= 1
  {
    if edges != [] {
      var front, last := edges[..|edges| - 1], edges[|edges| - 1];
      NoDuplicatesByCount(front);
      assert edges == front + [last];
      assert multiset(edges) == multiset(front) + multiset{last};
      assert last in front <==> multiset(front)[last] > 0;
      if NoDuplicates(edges) {
        assert last !in front;
      }
      if forall e :: multiset(edges)[e] <= 1 {
        assert multiset(edges)[last] == multiset(front)[last] + 1;
        forall e ensures multiset(front)[e] <= 1 {
          assert multiset(front)[e] <= multiset(edges)[e];
        }
      }
    }
  }

  // ---- Sampling ----

  /** The edges of the graph inside the window. */
  ghost function WindowEdges(g: Csr, low: nat, high: nat): (edges: set<Edge>)
    requires g.Valid()
    ensures forall e :: e in edges <==> g.HasEdge(e) && low <= e.source < high && low <= e.target < high
  {
    var edges := set source, slot | 0 <= source < g.Order() && g.Begin(source) <= slot < g.End(source) &&
                   low <= source < high && low <= g.targets[slot] < high :: Edge(source, g.targets[slot]);
    assert forall e :: g.HasEdge(e) && low <= e.source < high && low <= e.target < high ==> e in edges by {
      forall e | g.HasEdge(e) && low <= e.source < high && low <= e.target < high ensures e in edges {
        var slot :| g.InRow(e.source, slot) && g.targets[slot] == e.target;
        assert e == Edge(e.source, g.targets[slot]);
      }
    }
    edges
  }

  /** A list of those edges without duplicates is as long as there are such edges. */
  lemma {:induction false} ListedOnce(list: seq<Edge>, edges: set<Edge>)
    requires NoDuplicates(list) && forall e :: e in list <==> e in edges
    ensures |list| == |edges|
  {
    if list == [] {
      assert edges == {};
    } else {
      var front, last := list[..|list| - 1], list[|list| - 1];
      assert list == front + [last];
      ListedOnce(front, edges - {last});
    }
  }

  /** The edges of the rows before `source`, and of that row before `slot`. */
  ghost predicate Seen(g: Csr, e: Edge, source: nat, slot: nat)
    requires g.Valid()
  {
    exists x :: g.InRow(e.source, x) && g.targets[x] == e.target && (e.source < source || (e.source == source && x < slot))
  }

  ghost predicate Collected(g: Csr, list: seq<Edge>, source: nat, slot: nat)
    requires g.Valid()
  {
    NoDuplicates(list) && forall e :: e in list <==> Seen(g, e, source, slot)
  }

  lemma CollectMore(g: Csr, list: seq<Edge>, source: nat, slot: nat)
    requires g.Valid() && g.Simple() && Collected(g, list, source, slot) && g.InRow(source, slot)
    ensures Collected(g, list + [Edge(source, g.targets[slot])], source, slot + 1)
  {
    var added := Edge(source, g.targets[slot]);
    assert !Seen(g, added, source, slot);
    forall e ensures e in list + [added] <==> Seen(g, e, source, slot + 1) {
      if e == added {
        assert g.InRow(e.source, slot);
      }
    }
  }

  method CollectEdges(g: Csr) returns (existing: seq<Edge>)
    requires g.Valid() && g.Simple()
    ensures NoDuplicates(existing) && forall e :: e in existing <==> g.HasEdge(e)
  {
    existing := [];
    for source := 0 to g.Order()
      invariant Collected(g, existing, source, 0)
    {
      assert forall e :: Seen(g, e, source, 0) <==> Seen(g, e, source, g.Begin(source));
      for slot := g.Begin(source) to g.End(source)
        invariant Collected(g, existing, source, slot)
      {
        CollectMore(g, existing, source, slot);
        existing := existing + [Edge(source, g.targets[slot])];
      }
      assert forall e :: Seen(g, e, source + 1, 0) <==> Seen(g, e, source, g.End(source));
    }
    assert forall e :: Seen(g, e, g.Order(), 0) <==> g.HasEdge(e);
  }

  method FilterWindow(g: Csr, existing: seq<Edge>, low: nat, high: nat) returns (candidates: seq<Edge>)
    requires g.Valid() && NoDuplicates(existing) && forall e :: e in existing <==> g.HasEdge(e)
    ensures NoDuplicates(candidates) && forall e :: e in candidates <==> e in WindowEdges(g, low, high)
  {
    candidates := [];
    for i := 0 to |existing|
      invariant NoDuplicates(candidates) && forall e :: e in candidates <==> e in existing[..i] && low <= e.source < high && low <= e.target < high
    {
      assert existing[..i + 1] == existing[..i] + [existing[i]];
      if low <= existing[i].source < high && low <= existing[i].target < high {
        assert existing[i] !in existing[..i];
        candidates := candidates + [existing[i]];
      }
    }
    assert existing[..|existing|] == existing;
  }

  /** Shuffles in place, one random swap per position. */
  method Shuffle(a: array<Edge>)
    modifies a
    ensures multiset(a[..]) == multiset(old(a[..]))
  {
    var i := a.Length;
    while i > 1
      invariant 0 <= i <= a.Length
      invariant multiset(a[..]) == multiset(old(a[..]))
    {
      i := i - 1;
      var j := Draw(0, i);
      a[i], a[j] := a[j], a[i];
    }
  }

  /** `count` different edges of the window; `None` when there are not that many. */
  method SampleDeletions(g: Csr, existing: seq<Edge>, low: nat, high: nat, count: nat) returns (r: Option<seq<Edge>>)
    requires g.Valid() && NoDuplicates(existing) && forall e :: e in existing <==> g.HasEdge(e)
    ensures r == None <==> |WindowEdges(g, low, high)| < count
    ensures r.Some? ==> |r.value| == count && NoDuplicates(r.value)
    ensures r.Some? ==> forall e :: e in r.value ==> g.HasEdge(e) && low <= e.source < high && low <= e.target < high
  {
    var candidates := FilterWindow(g, existing, low, high);
    ListedOnce(candidates, WindowEdges(g, low, high));
    if |candidates| < count {
      return None;
    }
    var a := new Edge[|candidates|](i requires 0 <= i < |candidates| => candidates[i]);
    assert a[..] == candidates;
    Shuffle(a);
    NoDuplicatesByCount(candidates);
    NoDuplicatesByCount(a[..]);
    forall e ensures e in a[..] <==> e in candidates {
      assert e in a[..] <==> e in multiset(a[..]);
      assert e in candidates <==> e in multiset(candidates);
    }
    forall e | e in a[..count] ensures e in a[..] {}
    return Some(a[..count]);
  }

  /** The new edges among the drawn pairs: no self-loop, no edge of the graph, none drawn before. */
  ghost function Accepted(g: Csr, draws: seq<Edge>): seq<Edge>
    requires g.Valid()
  {
    if draws == [] then []
    else
      var before, e := Accepted(g, draws[..|draws| - 1]), draws[|draws| - 1];
      if e.source == e.target || g.HasEdge(e) || e in before then before else before + [e]
  }

  /** Every drawn pair that is neither a self-loop nor an edge is accepted, once. */
  lemma {:induction false} AcceptedExactly(g: Csr, draws: seq<Edge>, e: Edge)
    requires g.Valid()
    ensures multiset(Accepted(g, draws))[e] == if e in draws && e.source != e.target && !g.HasEdge(e) then 1 else 0
  {
    hide Csr.HasEdge;
    if draws != [] {
      var front, last := draws[..|draws| - 1], draws[|draws| - 1];
      AcceptedExactly(g, front, e);
      assert draws == front + [last];
      assert e in Accepted(g, front) <==> multiset(Accepted(g, front))[e] > 0;
    }
  }

  lemma NothingDrawn(g: Csr)
    requires g.Valid()
    ensures Accepted(g, []) == []
  {
  }

  /**
   * `count` different non-edges of the window: the accepted ones among the drawn pairs, refused
   * exactly when the allowed number of draws did not hold that many.
   */
  method SampleInsertions(g: Csr, existing: seq<Edge>, low: nat, high: nat, count: nat)
    returns (r: Option<seq<Edge>>, ghost draws: seq<Edge>)
    requires g.Valid() && low < high && forall e :: e in existing <==> g.HasEdge(e)
    ensures |draws| <= 1000 * (count + 1) + 100 * (high - low) && forall e :: e in draws ==> low <= e.source < high && low <= e.target < high
    ensures r == None <==> |draws| == 1000 * (count + 1) + 100 * (high - low) && |Accepted(g, draws)| < count
    ensures r.Some? ==> r.value == Accepted(g, draws) && |r.value| == count && NoDuplicates(r.value)
    ensures r.Some? ==> forall e :: e in r.value ==> !g.HasEdge(e) && e.source != e.target && low <= e.source < high && low <= e.target < high
  {
    var chosen: seq<Edge> := [];
    var attempts, limit := 0, 1000 * (count + 1) + 100 * (high - low);
    draws := [];
    while |chosen| < count
      invariant |chosen| <= count && attempts == |draws| <= limit && NoDuplicates(chosen) && chosen == Accepted(g, draws)
      invariant forall e :: e in draws ==> low <= e.source < high && low <= e.target < high
      invariant forall e :: e in chosen ==> !g.HasEdge(e) && e.source != e.target && low <= e.source < high && low <= e.target < high
      decreases limit - attempts
    {
      attempts := attempts + 1;
      if attempts > limit {
        return None, draws;
      }
      var source := Draw(low, high - 1);
      var target := Draw(low, high - 1);
      var e := Edge(source, target);
      assert (draws + [e])[..|draws|] == draws;
      draws := draws + [e];
      if source == target || e in existing || e in chosen {
        continue;
      }
      chosen := chosen + [e];
    }
    return Some(chosen), draws;
  }

  /** The changes lie in a window of the requested size. */
  ghost predicate WindowFits(order: nat, locality: Option<nat>, low: nat, high: nat) {
    && low + 2 <= high <= order
    && high - low == if locality.Some? && locality.value < order then (if locality.value < 2 then 2 else locality.value) else order
  }

  /** The vertex range all changes stay in: everything, or a random stretch of the requested size. */
  method ChooseWindow(order: nat, locality: Option<nat>) returns (low: nat, high: nat)
    requires order >= 2
    ensures WindowFits(order, locality, low, high)
  {
    low, high := 0, order;
    if locality.Some? && locality.value < order {
      var window := if locality.value < 2 then 2 else locality.value;
      if window < order {
        low := Draw(0, order - window);
        high := low + window;
      }
    }
  }

  /** What a generated batch promises, inside the window from `low` to `high`. */
  ghost predicate Fulfils(g: Csr, params: BatchParams, low: nat, high: nat, batch: EdgeBatch)
    requires g.Valid()
  {
    && |batch.deletions| == params.deletions && |batch.insertions| == params.insertions
    && StrictlySorted(batch.deletions) && StrictlySorted(batch.insertions)
    && (forall e :: e in batch.deletions ==> g.HasEdge(e) && low <= e.source < high && low <= e.target < high)
    && (forall e :: e in batch.insertions ==> !g.HasEdge(e) && e.source != e.target && low <= e.source < high && low <= e.target < high)
  }

  /** Which batch or refusal belongs to a window and a list of drawn pairs; there is exactly one kind. */
  ghost predicate Explains(g: Csr, params: BatchParams, low: nat, high: nat, draws: seq<Edge>, r: Generated)
    requires g.Valid()
  {
    if params.deletions == 0 && params.insertions == 0 then r == Batch(EdgeBatch([], []))
    else if g.Order() < 2 then r.TooFewVertices?
    else
      && WindowFits(g.Order(), params.locality, low, high)
      && |draws| <= 1000 * (params.insertions + 1) + 100 * (high - low) && (forall e :: e in draws ==> low <= e.source < high && low <= e.target < high)
      && if |WindowEdges(g, low, high)| < params.deletions then r.TooFewEdges?
         else if |Accepted(g, draws)| < params.insertions then r.TooFewNonEdges? && |draws| == 1000 * (params.insertions + 1) + 100 * (high - low)
         else r.Batch? && Fulfils(g, params, low, high, r.batch) && forall e :: e in r.batch.insertions <==> e in Accepted(g, draws)
  }

  lemma NormalizedFulfils(g: Csr, params: BatchParams, low: nat, high: nat, deletions: seq<Edge>, insertions: seq<Edge>)
    requires g.Valid() && |deletions| == params.deletions && |insertions| == params.insertions
    requires NoDuplicates(deletions) && NoDuplicates(insertions)
    requires forall e :: e in deletions ==> g.HasEdge(e) && low <= e.source < high && low <= e.target < high
    requires forall e :: e in insertions ==> !g.HasEdge(e) && e.source != e.target && low <= e.source < high && low <= e.target < high
    ensures Fulfils(g, params, low, high, Normalize(EdgeBatch(deletions, insertions)))
    ensures forall e :: e in Normalize(EdgeBatch(deletions, insertions)).insertions <==> e in insertions
  {
    DedupKeepsSize(deletions);
    DedupKeepsSize(insertions);
  }

  method GenerateBatch(g: Csr, params: BatchParams) returns (r: Generated, ghost low: nat, ghost high: nat, ghost draws: seq<Edge>)
    requires g.Valid() && g.Simple()
    ensures Explains(g, params, low, high, draws, r)
    ensures r.TooFewVertices? <==> g.Order() < 2 && params.deletions + params.insertions > 0
    ensures r.Batch? ==> |r.batch.deletions| == params.deletions && |r.batch.insertions| == params.insertions
    ensures r.Batch? ==> forall e :: e in r.batch.deletions ==> g.HasEdge(e) && low <= e.source < high && low <= e.target < high
    ensures r.Batch? ==> forall e :: e in r.batch.insertions ==>
              !g.HasEdge(e) && e.source != e.target && low <= e.source < high && low <= e.target < high
    ensures g.Order() >= 2 && params.deletions + params.insertions > 0 ==>
              && low + 2 <= high <= g.Order()
              && high - low == if params.locality == None || params.locality.value >= g.Order() then g.Order()
                               else if params.locality.value < 2 then 2
                               else params.locality.value
    ensures |draws| <= 1000 * (params.insertions + 1) + 100 * (high - low)
    ensures r.TooFewNonEdges? ==> |draws| == 1000 * (params.insertions + 1) + 100 * (high - low)
  {
    hide Accepted, WindowEdges, SortAndDedup, Csr.HasEdge;
    low, high, draws := 0, 0, [];
    if params.deletions == 0 && params.insertions == 0 {
      return Batch(EdgeBatch([], [])), low, high, draws;
    }
    if g.Order() < 2 {
      return TooFewVertices, low, high, draws;
    }
    var existing := CollectEdges(g);
    var from, to := ChooseWindow(g.Order(), params.locality);
    low, high := from, to;
    var deletions: seq<Edge> := [];
    if params.deletions > 0 {
      var sampled := SampleDeletions(g, existing, from, to, params.deletions);
      if sampled == None {
        return TooFewEdges, low, high, draws;
      }
      deletions := sampled.value;
    }
    var insertions: seq<Edge> := [];
    NothingDrawn(g);
    if params.insertions > 0 {
      var sampled, pairs := SampleInsertions(g, existing, from, to, params.insertions);
      draws := pairs;
      if sampled == None {
        return TooFewNonEdges, low, high, draws;
      }
      insertions := sampled.value;
    }
    NormalizedFulfils(g, params, low, high, deletions, insertions);
    r := Batch(Normalize(EdgeBatch(deletions, insertions)));
  }

  /** A generated batch meets the precondition of the update. */
  lemma GeneratedMatches(g: Csr, params: BatchParams, low: nat, high: nat, batch: EdgeBatch)
    requires g.Valid() && g.LoopFree() && Fulfils(g, params, low, high, batch) && high <= g.Order()
    ensures BatchFits(g, batch) && BatchMatches(g, batch) && InsertionsFit(g.Order(), batch)
  {
    forall e | e in batch.deletions ensures EdgeFits(g, e) {
      var slot :| g.InRow(e.source, slot) && g.targets[slot] == e.target;
    }
  }

  /** Whatever the generator draws, updating by the generated batch equals a recount; without a batch there is no update. */
  method GenerateThenUpdate(g: Csr, params: BatchParams, limit: nat, base: Histogram)
    returns (generated: Generated, r: Option<Histogram>, ghost final: Csr, ghost low: nat, ghost high: nat, ghost draws: seq<Edge>)
    requires g.Canonical() && g.LoopFree() && limit >= 2 && base == Recount(g, limit)
    ensures Explains(g, params, low, high, draws, generated)
    ensures final.Valid() && if generated.Batch? then FinalGraph(g, generated.batch, final) && r == Some(Recount(final, limit)) else r == None
    ensures params.deletions + params.insertions == 0 ==> r == Some(base)
  {
    final := g;
    SortedIsSimple(g);
    generated, low, high, draws := GenerateBatch(g, params);
    if !generated.Batch? {
      r := None;
      return;
    }
    if params.deletions + params.insertions == 0 {
      high := g.Order();
    }
    GeneratedMatches(g, params, low, high, generated.batch);
    var updated, after := UpdateStaticHistogram(g, base, generated.batch, limit);
    final := after;
    if params.deletions + params.insertions == 0 {
      forall e: Edge ensures after.HasEdge(e) <==> g.HasEdge(e) {
        assert after.HasEdge(e) <==> EdgeAfter(g, generated.batch, e);
      }
      CanonicalUnique(after, g);
    }
    r := Some(updated.histogram);
  }
}
