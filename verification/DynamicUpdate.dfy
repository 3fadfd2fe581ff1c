/** The incremental update of a histogram under a batch of edge changes. */
module DynamicUpdate {
  import opened CsrGraphs
  import opened CycleSearch
  import opened EdgeBatches
  import opened EdgeOwnership
  import opened DirectedGraphs

  // ---- Counting the cycles owned by one change ----

  /** `index` holds the smallest id of every changed edge. */
  ghost predicate Indexes(index: map<Edge, nat>, changes: seq<Edge>) {
    forall e, owner: nat :: (e in index && index[e] < owner) <==> ForbiddenBefore(changes, e, owner)
  }

  method BuildIndex(changes: seq<Edge>) returns (index: map<Edge, nat>)
    ensures Indexes(index, changes)
  {
    index := map[];
    for id := 0 to |changes|
      invariant forall e :: e in index <==> e in changes[..id]
      invariant forall e :: e in index ==> index[e] < id && changes[index[e]] == e
      invariant forall e, j :: e in index && 0 <= j < index[e] ==> changes[j] != e
    {
      assert changes[..id + 1] == changes[..id] + [changes[id]];
      if changes[id] !in index {
        index := index[changes[id] := id];
      }
    }
    forall e, owner: nat ensures (e in index && index[e] < owner) <==> ForbiddenBefore(changes, e, owner) {
      assert changes[..|changes|] == changes;
      if ForbiddenBefore(changes, e, owner) {
        var id :| 0 <= id < |changes| && id < owner && changes[id] == e;
        assert e in changes && index[e] <= id;
      }
    }
  }

  /** Every bin of `counts` grows by the histogram's bin. */
  ghost predicate Adds(before: seq<nat>, after: seq<nat>, h: Histogram) {
    |after| == |before| && forall k :: 0 <= k < |before| ==> after[k] == before[k] + h[k]
  }

  lemma AddsNothing(a: seq<nat>)
    ensures Adds(a, a, multiset{})
  {
  }

  lemma AddsBoth(a: seq<nat>, b: seq<nat>, c: seq<nat>, g: Histogram, h: Histogram)
    requires Adds(a, b, g) && Adds(b, c, h)
    ensures Adds(a, c, g + h)
  {
  }

  /** The marks of the vertices on the path; the buffer may be larger than the graph. */
  ghost predicate BufferMarks(path: seq<nat>, visited: seq<bool>) {
    forall w :: 0 <= w < |visited| ==> (visited[w] <==> w in path)
  }

  /** The anchored search: records the closed walks that extend `path`, and clears its own marks. */
  method SearchFrom(g: Csr, index: map<Edge, nat>, owner: nat, limit: nat, u: nat, v: nat, current: nat, pathSize: nat,
                    visited: array<bool>, counts: array<nat>, ghost s: Search, ghost path: seq<nat>)
    requires s.Valid() && s.g == g && s.root == u && s.cap == Some(limit)
    requires s.rule.OwnedBy? && s.rule.owner == owner && Indexes(index, s.rule.changes)
    requires s.IsPath(path) && 2 <= |path| <= limit && path[1] == v && s.Last(path) == current && pathSize + 1 == |path|
    requires visited.Length >= g.Order() && BufferMarks(path, visited[..]) && counts.Length > limit
    modifies visited, counts
    ensures visited[..] == old(visited[..])
    ensures Adds(old(counts[..]), counts[..], Subtree(s, path))
    decreases s.Free(path), 1
  {
    hide Adds, BufferMarks;
    ghost var got, marks := multiset{}, visited[..];
    AddsNothing(counts[..]);
    for slot := g.Begin(current) to g.End(current)
      invariant visited[..] == marks && got + Owed(s, path, slot) == Subtree(s, path)
      invariant Adds(old(counts[..]), counts[..], got)
    {
      ghost var before := counts[..];
      SearchSlot(g, index, owner, limit, u, v, current, pathSize, slot, visited, counts, s, path);
      AddsBoth(old(counts[..]), before, counts[..], got, Branch(s, path, slot));
      got := got + Branch(s, path, slot);
    }
    assert got == Subtree(s, path);
  }

  /** One slot of the anchored search. */
  method SearchSlot(g: Csr, index: map<Edge, nat>, owner: nat, limit: nat, u: nat, v: nat, current: nat, pathSize: nat,
                    slot: nat, visited: array<bool>, counts: array<nat>, ghost s: Search, ghost path: seq<nat>)
    requires s.Valid() && s.g == g && s.root == u && s.cap == Some(limit)
    requires s.rule.OwnedBy? && s.rule.owner == owner && Indexes(index, s.rule.changes)
    requires s.IsPath(path) && 2 <= |path| <= limit && path[1] == v && s.Last(path) == current && pathSize + 1 == |path|
    requires visited.Length >= g.Order() && BufferMarks(path, visited[..]) && counts.Length > limit
    requires g.InRow(current, slot)
    modifies visited, counts
    ensures visited[..] == old(visited[..])
    ensures Adds(old(counts[..]), counts[..], Branch(s, path, slot))
    decreases s.Free(path), 0
  {
    var next := g.targets[slot];
    var e := Edge(current, next);
    if e in index && index[e] < owner {
      return;
    }
    if next == u {
      var length := pathSize + 1;
      if length >= 2 && length <= limit {
        counts[length] := counts[length] + 1;
      }
      return;
    }
    if next == v || visited[next] {
      return;
    }
    if pathSize + 1 < limit {
      assert next in s.Free(path) && next !in s.Free(path + [next]);
      visited[next] := true;
      SearchFrom(g, index, owner, limit, u, v, next, pathSize + 1, visited, counts, s, path + [next]);
      visited[next] := false;
    }
  }

  /** The buffer shared by all changes holds no mark. */
  ghost predicate Clear(visited: seq<bool>) {
    forall w :: 0 <= w < |visited| ==> !visited[w]
  }

  /** Counts the cycles owned by one change, none below a limit of 2; the shared buffer is left clear again. */
  method CountCyclesThroughEdge(g: Csr, changes: seq<Edge>, owner: nat, index: map<Edge, nat>, limit: nat,
                                visited: array<bool>, counts: array<nat>)
    requires g.Valid() && owner < |changes| && Indexes(index, changes)
    requires visited.Length >= g.Order() && Clear(visited[..]) && counts.Length > limit
    modifies visited, counts
    ensures Clear(visited[..])
    ensures Adds(old(counts[..]), counts[..], if limit < 2 then multiset{} else AnchoredTally(g, changes, owner, limit))
  {
    var source, target := changes[owner].source, changes[owner].target;
    if limit < 2 || target >= g.Order() || source >= g.Order() {
      AddsNothing(counts[..]);
      return;
    }
    visited[source] := true;
    visited[target] := true;
    SearchFrom(g, index, owner, limit, source, target, target, 1, visited, counts,
               AnchoredSearch(g, changes, owner, limit), Anchor(changes[owner]));
    visited[source] := false;
    visited[target] := false;
  }

  // ---- One phase ----

  /** Every bin from 2 to the limit moves by `sign` times the histogram's bin. */
  ghost predicate Moves(before: seq<int>, after: seq<int>, sign: int, h: Histogram) {
    |after| == |before| && forall k :: 0 <= k < |before| ==> after[k] == before[k] + if k >= 2 then sign * h[k] else 0
  }

  lemma MovesNothing(a: seq<int>, sign: int)
    ensures Moves(a, a, sign, multiset{})
  {
  }

  lemma MovesBoth(a: seq<int>, b: seq<int>, c: seq<int>, sign: int, g: Histogram, h: Histogram)
    requires Moves(a, b, sign, g) && Moves(b, c, sign, h)
    ensures Moves(a, c, sign, g + h)
  {
    forall k | 0 <= k < |a| && k >= 2 ensures c[k] == a[k] + sign * (g + h)[k] {
      assert (g + h)[k] == g[k] + h[k];
      assert sign * (g[k] + h[k]) == sign * g[k] + sign * h[k];
    }
  }

  /** The counts of one owner enter the signed delta. */
  method AddCounts(limit: nat, sign: int, counts: array<nat>, delta: array<int>, ghost h: Histogram)
    requires limit >= 2 && counts.Length == delta.Length == limit + 1
    requires forall k :: 0 <= k <= limit ==> counts[k] == h[k]
    modifies delta
    ensures Moves(old(delta[..]), delta[..], sign, h)
  {
    for length := 2 to limit + 1
      invariant forall k :: 0 <= k < delta.Length ==>
                  delta[k] == old(delta[k]) + if 2 <= k < length then sign * h[k] else 0
    {
      delta[length] := delta[length] + sign * counts[length];
    }
  }

  method AccumulatePhase(g: Csr, changes: seq<Edge>, limit: nat, sign: int, delta: array<int>)
    requires g.Valid() && limit >= 2 && delta.Length == limit + 1
    modifies delta
    ensures Moves(old(delta[..]), delta[..], sign, PhaseTally(g, changes, limit, |changes|))
  {
    hide Moves, Adds, AnchoredTally;
    var index := BuildIndex(changes);
    var counts := new nat[limit + 1];
    var visited := new bool[g.Order()](_ => false);
    MovesNothing(delta[..], sign);
    for owner := 0 to |changes|
      invariant Clear(visited[..]) && Moves(old(delta[..]), delta[..], sign, PhaseTally(g, changes, limit, owner))
    {
      ghost var before, h := delta[..], AnchoredTally(g, changes, owner, limit);
      forall k | 0 <= k < counts.Length { counts[k] := 0; }
      ghost var zeros := counts[..];
      CountCyclesThroughEdge(g, changes, owner, index, limit, visited, counts);
      AddsToZero(zeros, counts[..], h);
      AddCounts(limit, sign, counts, delta, h);
      MovesBoth(old(delta[..]), before, delta[..], sign, PhaseTally(g, changes, limit, owner), h);
    }
  }

  lemma AddsToZero(zeros: seq<nat>, after: seq<nat>, h: Histogram)
    requires Adds(zeros, after, h) && forall k :: 0 <= k < |zeros| ==> zeros[k] == 0
    ensures |after| == |zeros| && forall k :: 0 <= k < |after| ==> after[k] == h[k]
  {
  }

  // ---- The update ----

  datatype UpdateResult = Updated(histogram: Histogram) | NegativeCount | InvalidCap

  /** The bins after adding a signed delta. */
  ghost function Shifted(base: Histogram, delta: seq<int>, limit: nat, k: nat): int {
    base[k] + if 2 <= k <= limit && k < |delta| then delta[k] else 0
  }

  /** Adds the delta bin by bin; bins beyond the cap are kept, a negative bin is an error. */
  method ApplyHistogramDelta(base: Histogram, delta: seq<int>, limit: nat) returns (r: UpdateResult)
    ensures r.Updated? ==> forall k: nat :: r.histogram[k] == Shifted(base, delta, limit, k)
    ensures r.NegativeCount? <==> exists k: nat :: Shifted(base, delta, limit, k) < 0
    ensures !r.InvalidCap?
  {
    var totals: map<nat, int> := map k | k in base :: base[k];
    var length := 2;
    while length <= limit && length < |delta|
      invariant forall k: nat :: (if k in totals then totals[k] else 0) ==
                                 base[k] + if 2 <= k < length && k <= limit && k < |delta| then delta[k] else 0
    {
      if delta[length] != 0 {
        totals := totals[length := (if length in totals then totals[length] else 0) + delta[length]];
      }
      length := length + 1;
    }
    var result: Histogram := multiset{};
    var pending := totals.Keys;
    while pending != {}
      invariant pending <= totals.Keys
      invariant forall k :: k in totals && k !in pending ==> totals[k] >= 0
      invariant forall k: nat :: result[k] == if k in totals && k !in pending then totals[k] else 0
    {
      var k :| k in pending;
      if totals[k] < 0 {
        assert Shifted(base, delta, limit, k) < 0;
        return NegativeCount;
      }
      result := result[k := totals[k]];
      pending := pending - {k};
    }
    forall k: nat ensures result[k] == Shifted(base, delta, limit, k) >= 0 {}
    return Updated(result);
  }

  /** The canonical graph after the batch; `CanonicalUnique` says there is only one. */
  ghost predicate FinalGraph(initial: Csr, batch: EdgeBatch, final: Csr)
    requires initial.Valid()
  {
    final.Canonical() && final.Order() == initial.Order() && forall e: Edge :: final.HasEdge(e) <==> EdgeAfter(initial, batch, e)
  }

  ghost function DeletionTally(g: Csr, batch: EdgeBatch, limit: nat): Histogram
    requires g.Valid()
  {
    var deletions := SortAndDedup(batch.deletions);
    PhaseTally(g, deletions, limit, |deletions|)
  }

  ghost function InsertionTally(g: Csr, batch: EdgeBatch, limit: nat): Histogram
    requires g.Valid()
  {
    var insertions := SortAndDedup(batch.insertions);
    PhaseTally(g, insertions, limit, |insertions|)
  }

  /** What the update computes for one bin. */
  ghost function UpdatedBin(initial: Csr, final: Csr, base: Histogram, batch: EdgeBatch, limit: nat, k: nat): int
    requires initial.Valid() && final.Valid()
  {
    base[k] as int +
    if 2 <= k <= limit then InsertionTally(final, batch, limit)[k] as int - DeletionTally(initial, batch, limit)[k] else 0
  }

  /** Normalizing a batch does not change what it does. */
  lemma BatchAfter(initial: Csr, batch: EdgeBatch)
    requires initial.Valid() && InsertionsFit(initial.Order(), batch)
    ensures InsertionsFit(initial.Order(), Normalize(batch))
    ensures forall e: Edge :: EdgeAfter(initial, Normalize(batch), e) <==> EdgeAfter(initial, batch, e)
  {
  }
}
