/** The incremental update with both phases counted on the device. */
module DeviceUpdate {
  import opened CsrGraphs
  import opened CycleSearch
  import opened EdgeBatches
  import opened EdgeOwnership
  import opened DirectedGraphs
  import opened DynamicUpdate
  import opened StaticUpdate
  import OwnedLaunch
  import OwnedRuns
  import OwnedSlices

  /** The device does not check the ends of a changed edge. */
  ghost predicate ChangesInRange(g: Csr, changes: seq<Edge>) {
    forall e :: e in changes ==> EdgeInRange(g, e)
  }

  /** Some run of the launch on shared memory finishes with these counts. */
  ghost predicate Outcome(c: OwnedLaunch.Config, bins: seq<nat>) {
    && |bins| == c.limit + 1
    && exists run: seq<OwnedSlices.Device> ::
         && OwnedRuns.IsRun(c, run) && OwnedRuns.AllDone(run[|run| - 1])
         && forall k :: 0 <= k <= c.limit ==> bins[k] == run[|run| - 1].counts[k]
  }

  /** A device answers a launch with the counts of some finished run; its scheduler may pick any. */
  ghost predicate IsDevice(device: OwnedLaunch.Config -> seq<nat>) {
    forall c: OwnedLaunch.Config :: c.Valid() ==> Outcome(c, device(c))
  }

  /** Every launch has an outcome. */
  lemma OutcomeExists(c: OwnedLaunch.Config) returns (bins: seq<nat>)
    requires c.Valid()
    ensures Outcome(c, bins)
  {
    hide OwnedRuns.Begins, OwnedRuns.DeviceNext, OwnedSlices.Inside;
    var begun := OwnedRuns.RunsBegin(c);
    OwnedRuns.RunInside(c, begun, |begun| - 1);
    var run := OwnedRuns.RunsCanFinish(c, begun);
    bins := seq(c.limit + 1, k => run[|run| - 1].counts[k]);
  }

  lemma HasOutcome(c: OwnedLaunch.Config)
    requires c.Valid()
    ensures exists bins :: Outcome(c, bins)
  {
    var bins := OutcomeExists(c);
  }

  ghost function SomeOutcome(c: OwnedLaunch.Config): (bins: seq<nat>)
    ensures c.Valid() ==> Outcome(c, bins)
  {
    if c.Valid() then
      HasOutcome(c);
      var bins :| Outcome(c, bins);
      bins
    else []
  }

  /** So there is a device. */
  lemma DevicesExist() returns (device: OwnedLaunch.Config -> seq<nat>)
    ensures IsDevice(device)
  {
    device := (c: OwnedLaunch.Config) => SomeOutcome(c);
  }

  /** All outcomes of a launch are the counts of the phase. */
  lemma OutcomeIsPhase(c: OwnedLaunch.Config, bins: seq<nat>)
    requires Outcome(c, bins)
    ensures c.Valid() && |bins| == c.limit + 1
    ensures forall k :: 0 <= k <= c.limit ==> bins[k] == PhaseTally(c.g, c.changes, c.limit, |c.changes|)[k]
  {
    hide PhaseTally, OwnedRuns.DeviceNext, OwnedRuns.Begins;
    var run: seq<OwnedSlices.Device> :|
      && OwnedRuns.IsRun(c, run) && OwnedRuns.AllDone(run[|run| - 1])
      && forall k :: 0 <= k <= c.limit ==> bins[k] == run[|run| - 1].counts[k];
    OwnedRuns.FinishedRunCounts(c, run);
  }

  /** One thread per change; the counts are those of the whole phase. */
  method CountOwnedCyclesDevice(device: OwnedLaunch.Config -> seq<nat>, g: Csr, changes: seq<Edge>, limit: nat) returns (result: seq<nat>)
    requires IsDevice(device) && g.Valid() && limit >= 2 && StrictlySorted(changes) && ChangesInRange(g, changes)
    ensures |result| == limit + 1 && forall k :: 0 <= k <= limit ==> result[k] == PhaseTally(g, changes, limit, |changes|)[k]
  {
    hide Outcome, PhaseTally;
    if |changes| == 0 || g.Order() == 0 {
      NoChanges(g, changes, limit, |changes|);
      return seq(limit + 1, _ => 0);
    }
    var c := OwnedLaunch.Config(g, changes, limit);
    forall i | 0 <= i < |changes| ensures EdgeInRange(g, changes[i]) {
      assert changes[i] in changes;
    }
    OutcomeIsPhase(c, device(c));
    return device(c);
  }

  lemma {:induction false} NoChanges(g: Csr, changes: seq<Edge>, limit: nat, n: nat)
    requires g.Valid() && n <= |changes| && (n == 0 || g.Order() == 0)
    ensures PhaseTally(g, changes, limit, n) == multiset{}
  {
    if n > 0 {
      NoChanges(g, changes, limit, n - 1);
    }
  }

  lemma NormalizedInRange(g: Csr, edges: seq<Edge>)
    requires ChangesInRange(g, edges)
    ensures ChangesInRange(g, SortAndDedup(edges)) && StrictlySorted(SortAndDedup(edges))
  {
  }

  /** The signed difference of the two phases. */
  method SubtractCounts(inserted: seq<nat>, deleted: seq<nat>, limit: nat) returns (delta: seq<int>)
    requires limit >= 2 && |inserted| == |deleted| == limit + 1
    ensures |delta| == limit + 1 && forall k :: 2 <= k <= limit ==> delta[k] == inserted[k] as int - deleted[k] as int
  {
    var a := new int[limit + 1](_ => 0);
    for length := 2 to limit + 1
      invariant forall k :: 2 <= k < length ==> a[k] == inserted[k] as int - deleted[k] as int
    {
      a[length] := inserted[length] as int - deleted[length] as int;
    }
    return a[..];
  }

  /** The update on the device: the result of the sequential update. */
  method UpdateStaticHistogramDevice(device: OwnedLaunch.Config -> seq<nat>, initial: Csr, base: Histogram, batch: EdgeBatch, limit: nat)
    returns (r: UpdateResult, ghost final: Csr)
    requires IsDevice(device)
    requires initial.Canonical() && ChangesInRange(initial, batch.deletions) && ChangesInRange(initial, batch.insertions)
    ensures r.InvalidCap? <==> limit < 2
    ensures final.Valid() && (limit >= 2 ==> FinalGraph(initial, batch, final))
    ensures r.Updated? ==> forall k: nat :: r.histogram[k] == UpdatedBin(initial, final, base, batch, limit, k)
    ensures r.NegativeCount? ==> exists k: nat :: UpdatedBin(initial, final, base, batch, limit, k) < 0
    ensures limit >= 2 && BatchFits(initial, batch) && BatchMatches(initial, batch) && base == Recount(initial, limit) ==>
              r == Updated(Recount(final, limit))
  {
    hide PhaseTally, Csr.HasEdge, EdgeAfter, ChangesInRange, IsDevice;
    if limit < 2 {
      return InvalidCap, initial;
    }
    InRangeFits(initial, batch);
    BatchAfter(initial, batch);
    NormalizedInRange(initial, batch.deletions);
    NormalizedInRange(initial, batch.insertions);
    var normalized := Normalize(batch);
    var deleted := CountOwnedCyclesDevice(device, initial, normalized.deletions, limit);
    var result := ApplyBatch(initial, normalized);
    final := result;
    SameOrderInRange(initial, result, normalized.insertions);
    var inserted := CountOwnedCyclesDevice(device, result, normalized.insertions, limit);
    var delta := SubtractCounts(inserted, deleted, limit);
    r := ApplyHistogramDelta(base, delta, limit);
    forall k: nat ensures Shifted(base, delta, limit, k) == UpdatedBin(initial, final, base, batch, limit, k) {}
    if BatchFits(initial, batch) && BatchMatches(initial, batch) && base == Recount(initial, limit) {
      forall k: nat ensures UpdatedBin(initial, final, base, batch, limit, k) == Recount(final, limit)[k] {
        UpdateEqualsRecount(initial, final, base, batch, limit, k);
      }
    }
  }

  lemma InRangeFits(g: Csr, batch: EdgeBatch)
    requires ChangesInRange(g, batch.insertions)
    ensures InsertionsFit(g.Order(), batch)
  {
  }

  lemma SameOrderInRange(a: Csr, b: Csr, changes: seq<Edge>)
    requires a.Order() == b.Order() && ChangesInRange(a, changes)
    ensures ChangesInRange(b, changes)
  {
  }
}
