/** The entry points of the counters.  `None` stands for an argument that is refused. */
module Engine {
  import opened CsrGraphs
  import opened CycleSearch
  import opened CycleSets
  import opened CycleTotals
  import opened StartEvents
  import opened TemporalTotals
  import opened EdgeBatches
  import opened DynamicUpdate
  import opened StaticUpdate
  import Johnson
  import ReadTarjan
  import TemporalJohnson
  import TemporalReadTarjan
  import ParallelUpdate
  import PhaseTeam
  import DeviceUpdate
  import OwnedLaunch

  /** The static run by blocked sets. */
  method CountSimpleCyclesJohnson(g: Csr, cap: Option<nat>) returns (r: Option<Histogram>)
    requires g.Valid()
    ensures r == if cap.Some? && cap.value < 2 then None else Some(StaticBefore(g, cap, g.Order()))
  {
    if cap.Some? && cap.value < 2 {
      return None;
    }
    var search := new Johnson.JohnsonSearch(g, cap);
    search.RunStatic();
    return Some(search.histogram);
  }

  /** The static run by path extension, over the sorted rows of the graph builder; it refuses self-loops. */
  method CountSimpleCyclesReadTarjan(g: Csr, cap: Option<nat>) returns (r: Option<Histogram>)
    requires g.Valid() && g.Sorted()
    ensures r == if (cap.Some? && cap.value < 2) || !g.LoopFree() then None else Some(StaticBefore(g, cap, g.Order()))
  {
    if cap.Some? && cap.value < 2 {
      return None;
    }
    var search := new ReadTarjan.ReadTarjanSearch(g, cap);
    var ok := search.Run();
    return if ok then Some(search.histogram) else None;
  }

  /** The uncapped time-window run; a negative width or a window without an end is refused once an edge is read in it. */
  method CountTimeWindowCyclesJohnson(g: Csr, times: seq<seq<int>>, width: int) returns (r: Option<Histogram>)
    requires Timed(g, times)
    ensures r == None <==>
            if width < 0 then exists v, slot, x :: g.InRow(v, slot) && times[slot] != [] && g.InRow(g.targets[slot], x)
            else exists v, slot, j, x :: g.InRow(v, slot) && 0 <= j < |times[slot]| && g.InRow(g.targets[slot], x) &&
                                         times[slot][j] + width > 0x7FFF_FFFF_FFFF_FFFF
    ensures r.Some? ==> r.value == WindowTotal(g, times, width, None)
  {
    LazyRunsExactly(g, times, width);
    var search := new Johnson.JohnsonSearch(g, None);
    var ok := search.RunTimeWindow(times, width);
    return if ok then Some(search.histogram) else None;
  }

  method CountTemporalCyclesJohnson(g: Csr, times: seq<seq<int>>, width: int, cap: Option<nat>) returns (r: Option<Histogram>)
    requires TimesSorted(g, times)
    ensures r == None <==>
            (cap.Some? && cap.value < 2) || width < 0 ||
            exists v, slot, j :: g.InRow(v, slot) && 0 <= j < |times[slot]| && times[slot][j] + width > 0x7FFF_FFFF_FFFF_FFFF
    ensures r.Some? ==> r.value == TemporalTotal(g, times, width, cap)
  {
    if (cap.Some? && cap.value < 2) || width < 0 {
      return None;
    }
    WindowsEndExactly(g, times, width);
    var search := new TemporalJohnson.TemporalJohnsonSearch(g, times, width, cap);
    var ok := search.Run();
    return if ok then Some(search.histogram) else None;
  }

  method CountTemporalCyclesReadTarjan(g: Csr, times: seq<seq<int>>, width: int, cap: Option<nat>) returns (r: Option<Histogram>)
    requires TimesSorted(g, times)
    ensures r == None <==>
            (cap.Some? && cap.value < 2) || width < 0 ||
            exists v, slot, j :: g.InRow(v, slot) && 0 <= j < |times[slot]| && times[slot][j] + width > 0x7FFF_FFFF_FFFF_FFFF
    ensures r.Some? ==> r.value == TemporalTotal(g, times, width, cap)
  {
    if (cap.Some? && cap.value < 2) || width < 0 {
      return None;
    }
    WindowsEndExactly(g, times, width);
    var search := new TemporalReadTarjan.TemporalReadTarjanSearch(g, times, width, cap);
    var ok := search.Run();
    return if ok then Some(search.histogram) else None;
  }

  /** Recomputation: the lengths of all simple cycles of the graph, each counted once. */
  method CountHistogram(g: Csr, cap: Option<nat>) returns (r: Option<Histogram>)
    requires g.Valid() && g.Simple()
    ensures r == if cap.Some? && cap.value < 2 then None else Some(Lengths(SimpleCycles(g, cap)))
  {
    r := CountSimpleCyclesJohnson(g, cap);
    if r.Some? {
      StaticIsLengths(g, cap, g.Order());
    }
  }

  /** Where an update runs. */
  datatype UpdateBackend =
    | Sequential
    | OpenMP(threads: nat, team: PhaseTeam.Config -> seq<seq<int>>)
    | Cuda(device: OwnedLaunch.Config -> seq<nat>)

  ghost predicate BackendFits(backend: UpdateBackend, g: Csr, batch: EdgeBatch) {
    match backend
    case Sequential => true
    case OpenMP(threads, team) => threads > 0 && ParallelUpdate.IsTeam(team)
    case Cuda(device) =>
      && DeviceUpdate.IsDevice(device)
      && forall e :: e in batch.deletions || e in batch.insertions ==> e.source < g.Order() && e.target < g.Order()
  }

  /** Updating on any backend equals recomputing after the batch. */
  method UpdateHistogram(backend: UpdateBackend, initial: Csr, prior: Histogram, batch: EdgeBatch, limit: nat)
    returns (r: UpdateResult, ghost final: Csr)
    requires initial.Canonical() && BackendFits(backend, initial, batch)
    requires forall e :: e in batch.insertions && e.source < initial.Order() ==> e.target < initial.Order()
    ensures r.InvalidCap? <==> limit < 2
    ensures final.Valid() && (limit >= 2 ==> FinalGraph(initial, batch, final))
    ensures limit >= 2 ==> forall e: Edge :: final.HasEdge(e) <==>
              (initial.HasEdge(e) && e !in batch.deletions) || (e.source < initial.Order() && e in batch.insertions)
    ensures r.Updated? ==> forall k: nat :: r.histogram[k] == UpdatedBin(initial, final, prior, batch, limit, k)
    ensures limit >= 2 && prior == Lengths(SimpleCycles(initial, Some(limit))) &&
            (forall e :: e in batch.deletions ==> initial.HasEdge(e) && e.source != e.target) &&
            (forall e :: e in batch.insertions ==> e.source < initial.Order() && e.source != e.target) &&
            (forall e :: e in batch.insertions && initial.HasEdge(e) ==> e in batch.deletions) ==>
              r == Updated(Lengths(SimpleCycles(final, Some(limit))))
  {
    DeletionsFit(initial, batch);
    match backend
    case Sequential =>
      r, final := UpdateStaticHistogram(initial, prior, batch, limit);
    case OpenMP(threads, team) =>
      r, final := ParallelUpdate.UpdateStaticHistogramParallel(team, initial, prior, batch, limit, threads);
    case Cuda(device) =>
      r, final := DeviceUpdate.UpdateStaticHistogramDevice(device, initial, prior, batch, limit);
  }

  /** Present edges lie in range. */
  lemma DeletionsFit(g: Csr, batch: EdgeBatch)
    requires g.Valid() && forall e :: e in batch.insertions && e.source < g.Order() ==> e.target < g.Order()
    ensures (forall e :: e in batch.deletions ==> g.HasEdge(e) && e.source != e.target) ==>
              (forall e :: e in batch.insertions ==> e.source < g.Order() && e.source != e.target) ==>
                BatchFits(g, batch)
  {
    forall e | g.HasEdge(e) ensures e.source < g.Order() && e.target < g.Order() {
      var slot :| g.InRow(e.source, slot) && g.targets[slot] == e.target;
    }
  }
}
