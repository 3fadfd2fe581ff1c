/** The read-only graph of all searches: outgoing and incoming adjacency over one timestamp array. */
module GraphViews {
  import opened CsrGraphs
  import opened DirectedGraphs
  import opened StartEvents

  /** A logical edge with its timestamps. */
  datatype TemporalEdge = TemporalEdge(source: nat, target: nat, times: seq<int>)

  datatype TemporalGraph = TemporalGraph(order: nat, edges: seq<TemporalEdge>) {
    ghost predicate InRange() {
      forall id :: 0 <= id < |edges| ==> edges[id].source < order && edges[id].target < order
    }

    /** No two logical edges join the same vertices; the parser merges them. */
    ghost predicate NoParallels() {
      forall i, j :: 0 <= i < j < |edges| ==> edges[i].source != edges[j].source || edges[i].target != edges[j].target
    }
  }

  /** The timestamps of an entry are those from `begin` up to `end` of the shared array. */
  datatype Entry = Entry(vertex: nat, edgeId: nat, begin: nat, end: nat)

  datatype GraphView = GraphView(outOffsets: seq<nat>, outgoing: seq<Entry>, inOffsets: seq<nat>, incoming: seq<Entry>, timestamps: seq<int>)

  function Vertices(entries: seq<Entry>): (r: seq<nat>)
    ensures |r| == |entries| && forall i :: 0 <= i < |r| ==> r[i] == entries[i].vertex
  {
    seq(|entries|, i requires 0 <= i < |entries| => entries[i].vertex)
  }

  function SlotTime(e: Entry, timestamps: seq<int>): seq<int> {
    if e.begin <= e.end <= |timestamps| then timestamps[e.begin..e.end] else []
  }

  function SlotTimes(entries: seq<Entry>, timestamps: seq<int>): (r: seq<seq<int>>)
    ensures |r| == |entries| && forall i :: 0 <= i < |r| ==> r[i] == SlotTime(entries[i], timestamps)
  {
    seq(|entries|, i requires 0 <= i < |entries| => SlotTime(entries[i], timestamps))
  }

  /** The view as the searches read it. */
  function OutGraph(view: GraphView): Csr {
    Csr(view.outOffsets, Vertices(view.outgoing))
  }

  function OutTimes(view: GraphView): seq<seq<int>> {
    SlotTimes(view.outgoing, view.timestamps)
  }

  function InGraph(view: GraphView): Csr {
    Csr(view.inOffsets, Vertices(view.incoming))
  }

  function InTimes(view: GraphView): seq<seq<int>> {
    SlotTimes(view.incoming, view.timestamps)
  }

  // ---- What the builder promises ----

  /** All timestamps of the first `n` edges, in edge order. */
  function TimesBefore(edges: seq<TemporalEdge>, n: nat): (r: seq<int>)
    requires n <= |edges|
  {
    if n == 0 then [] else TimesBefore(edges, n - 1) + edges[n - 1].times
  }

  ghost predicate IsOut(edges: seq<TemporalEdge>, v: nat, e: Entry) {
    && e.edgeId < |edges| && edges[e.edgeId].source == v && edges[e.edgeId].target == e.vertex
    && e.begin == |TimesBefore(edges, e.edgeId)| && e.end == |TimesBefore(edges, e.edgeId + 1)|
  }

  ghost predicate IsIn(edges: seq<TemporalEdge>, v: nat, e: Entry) {
    && e.edgeId < |edges| && edges[e.edgeId].target == v && edges[e.edgeId].source == e.vertex
    && e.begin == |TimesBefore(edges, e.edgeId)| && e.end == |TimesBefore(edges, e.edgeId + 1)|
  }

  predicate EntryLess(a: Entry, b: Entry) {
    a.vertex < b.vertex || (a.vertex == b.vertex && a.edgeId < b.edgeId)
  }

  /** By neighbour, then by edge id. */
  predicate Ordered(row: seq<Entry>) {
    forall i, j :: 0 <= i < j < |row| ==> EntryLess(row[i], row[j])
  }

  ghost predicate OutRow(edges: seq<TemporalEdge>, v: nat, row: seq<Entry>) {
    Ordered(row) && forall e :: e in row <==> IsOut(edges, v, e)
  }

  ghost predicate InRow(edges: seq<TemporalEdge>, v: nat, row: seq<Entry>) {
    Ordered(row) && forall e :: e in row <==> IsIn(edges, v, e)
  }

  ghost predicate OutRows(graph: TemporalGraph, view: GraphView, rows: seq<seq<Entry>>) {
    && |rows| == graph.order && Flattened(rows, view.outOffsets, view.outgoing)
    && forall v :: 0 <= v < graph.order ==> OutRow(graph.edges, v, rows[v])
  }

  ghost predicate InRows(graph: TemporalGraph, view: GraphView, rows: seq<seq<Entry>>) {
    && |rows| == graph.order && Flattened(rows, view.inOffsets, view.incoming)
    && forall v :: 0 <= v < graph.order ==> InRow(graph.edges, v, rows[v])
  }

  /** `view` lays out exactly the edges of `graph`, once by source and once by target. */
  ghost predicate Views(graph: TemporalGraph, view: GraphView) {
    && view.timestamps == TimesBefore(graph.edges, |graph.edges|)
    && (exists rows :: OutRows(graph, view, rows))
    && (exists rows :: InRows(graph, view, rows))
  }

  // ---- Building ----

  function InsertEntry(row: seq<Entry>, e: Entry): (r: seq<Entry>)
    requires Ordered(row) && forall x :: x in row ==> x.edgeId != e.edgeId
    ensures Ordered(r) && forall x :: x in r <==> x in row || x == e
  {
    if row == [] then [e]
    else if EntryLess(e, row[0]) then [e] + row
    else
      var rest := InsertEntry(row[1..], e);
      assert forall x :: x in row <==> x == row[0] || x in row[1..];
      assert row[0] in row && EntryLess(row[0], e);
      assert forall x :: x in row[1..] ==> EntryLess(row[0], x);
      assert forall j :: 0 <= j < |rest| ==> rest[j] in rest && EntryLess(row[0], rest[j]);
      [row[0]] + rest
  }

  ghost predicate IdsAscend(row: seq<Entry>) {
    forall i, j :: 0 <= i < j < |row| ==> row[i].edgeId < row[j].edgeId
  }

  /** The sorted row. */
  function SortEntries(row: seq<Entry>): (r: seq<Entry>)
    requires IdsAscend(row)
    ensures Ordered(r) && forall x :: x in r <==> x in row
  {
    if row == [] then []
    else
      assert forall x :: x in row <==> x in row[..|row| - 1] || x == row[|row| - 1];
      InsertEntry(SortEntries(row[..|row| - 1]), row[|row| - 1])
  }

  ghost predicate OutBucket(edges: seq<TemporalEdge>, v: nat, n: nat, row: seq<Entry>) {
    IdsAscend(row) && forall e :: e in row <==> IsOut(edges, v, e) && e.edgeId < n
  }

  ghost predicate InBucket(edges: seq<TemporalEdge>, v: nat, n: nat, row: seq<Entry>) {
    IdsAscend(row) && forall e :: e in row <==> IsIn(edges, v, e) && e.edgeId < n
  }

  lemma BucketsSkip(edges: seq<TemporalEdge>, v: nat, n: nat, row: seq<Entry>)
    requires n < |edges|
    ensures OutBucket(edges, v, n, row) && edges[n].source != v ==> OutBucket(edges, v, n + 1, row)
    ensures InBucket(edges, v, n, row) && edges[n].target != v ==> InBucket(edges, v, n + 1, row)
  {
  }

  lemma OutBucketTakes(edges: seq<TemporalEdge>, v: nat, row: seq<Entry>, e: Entry)
    requires e.edgeId < |edges| && OutBucket(edges, v, e.edgeId, row) && IsOut(edges, v, e)
    ensures OutBucket(edges, v, e.edgeId + 1, row + [e])
  {
    forall i | 0 <= i < |row| ensures row[i].edgeId < e.edgeId {
      assert row[i] in row;
    }
    forall x ensures x in row + [e] <==> IsOut(edges, v, x) && x.edgeId < e.edgeId + 1 {
      assert x in row + [e] <==> x in row || x == e;
    }
  }

  lemma InBucketTakes(edges: seq<TemporalEdge>, v: nat, row: seq<Entry>, e: Entry)
    requires e.edgeId < |edges| && InBucket(edges, v, e.edgeId, row) && IsIn(edges, v, e)
    ensures InBucket(edges, v, e.edgeId + 1, row + [e])
  {
    forall i | 0 <= i < |row| ensures row[i].edgeId < e.edgeId {
      assert row[i] in row;
    }
    forall x ensures x in row + [e] <==> IsIn(edges, v, x) && x.edgeId < e.edgeId + 1 {
      assert x in row + [e] <==> x in row || x == e;
    }
  }

  /** Distributes the edges over the buckets of their sources and targets. */
  method FillBuckets(graph: TemporalGraph, outgoing: array<seq<Entry>>, incoming: array<seq<Entry>>) returns (timestamps: seq<int>)
    requires graph.InRange() && outgoing.Length == incoming.Length == graph.order && outgoing != incoming
    requires forall v :: 0 <= v < graph.order ==> outgoing[v] == [] && incoming[v] == []
    modifies outgoing, incoming
    ensures timestamps == TimesBefore(graph.edges, |graph.edges|)
    ensures forall v :: 0 <= v < graph.order ==> OutBucket(graph.edges, v, |graph.edges|, outgoing[v])
    ensures forall v :: 0 <= v < graph.order ==> InBucket(graph.edges, v, |graph.edges|, incoming[v])
  {
    timestamps := [];
    for id := 0 to |graph.edges|
      invariant timestamps == TimesBefore(graph.edges, id)
      invariant forall v :: 0 <= v < graph.order ==> OutBucket(graph.edges, v, id, outgoing[v])
      invariant forall v :: 0 <= v < graph.order ==> InBucket(graph.edges, v, id, incoming[v])
    {
      hide OutBucket, InBucket;
      var edge, begin := graph.edges[id], |timestamps|;
      timestamps := timestamps + edge.times;
      forall v | 0 <= v < graph.order
        ensures edge.source != v ==> OutBucket(graph.edges, v, id + 1, outgoing[v])
        ensures edge.target != v ==> InBucket(graph.edges, v, id + 1, incoming[v])
      {
        BucketsSkip(graph.edges, v, id, outgoing[v]);
        BucketsSkip(graph.edges, v, id, incoming[v]);
      }
      var out, into := Entry(edge.target, id, begin, |timestamps|), Entry(edge.source, id, begin, |timestamps|);
      OutBucketTakes(graph.edges, edge.source, outgoing[edge.source], out);
      InBucketTakes(graph.edges, edge.target, incoming[edge.target], into);
      outgoing[edge.source] := outgoing[edge.source] + [out];
      incoming[edge.target] := incoming[edge.target] + [into];
    }
  }

  method BuildGraphView(graph: TemporalGraph) returns (view: GraphView)
    requires graph.InRange()
    ensures Views(graph, view)
  {
    var n := graph.order;
    var outgoing := new seq<Entry>[n](_ => []);
    var incoming := new seq<Entry>[n](_ => []);
    var timestamps := FillBuckets(graph, outgoing, incoming);
    SortBuckets(graph, outgoing, incoming);
    var outOffsets, outEntries := Flatten(outgoing[..]);
    var inOffsets, inEntries := Flatten(incoming[..]);
    view := GraphView(outOffsets, outEntries, inOffsets, inEntries, timestamps);
    assert OutRows(graph, view, outgoing[..]) && InRows(graph, view, incoming[..]);
  }

  method SortBuckets(graph: TemporalGraph, outgoing: array<seq<Entry>>, incoming: array<seq<Entry>>)
    requires outgoing.Length == incoming.Length == graph.order && outgoing != incoming
    requires forall v :: 0 <= v < graph.order ==> OutBucket(graph.edges, v, |graph.edges|, outgoing[v])
    requires forall v :: 0 <= v < graph.order ==> InBucket(graph.edges, v, |graph.edges|, incoming[v])
    modifies outgoing, incoming
    ensures forall v :: 0 <= v < graph.order ==> OutRow(graph.edges, v, outgoing[v]) && InRow(graph.edges, v, incoming[v])
  {
    hide OutBucket, InBucket, OutRow, InRow;
    var n := graph.order;
    for v := 0 to n
      invariant forall u :: 0 <= u < v ==> OutRow(graph.edges, u, outgoing[u]) && InRow(graph.edges, u, incoming[u])
      invariant forall u :: v <= u < n ==> OutBucket(graph.edges, u, |graph.edges|, outgoing[u])
      invariant forall u :: v <= u < n ==> InBucket(graph.edges, u, |graph.edges|, incoming[u])
    {
      SortedBuckets(graph.edges, v, outgoing[v], incoming[v]);
      outgoing[v] := SortEntries(outgoing[v]);
      incoming[v] := SortEntries(incoming[v]);
    }
  }

  lemma SortedBuckets(edges: seq<TemporalEdge>, v: nat, out: seq<Entry>, into: seq<Entry>)
    requires OutBucket(edges, v, |edges|, out) && InBucket(edges, v, |edges|, into)
    ensures IdsAscend(out) && IdsAscend(into)
    ensures OutRow(edges, v, SortEntries(out)) && InRow(edges, v, SortEntries(into))
  {
  }

  // ---- What the view shows ----

  function VertexRows(rows: seq<seq<Entry>>): (r: seq<seq<nat>>)
    ensures |r| == |rows| && forall v :: 0 <= v < |r| ==> r[v] == Vertices(rows[v])
  {
    seq(|rows|, v requires 0 <= v < |rows| => Vertices(rows[v]))
  }

  lemma VerticesFlattened(rows: seq<seq<Entry>>, offsets: seq<nat>, entries: seq<Entry>)
    requires Flattened(rows, offsets, entries)
    ensures Flattened(VertexRows(rows), offsets, Vertices(entries))
  {
    forall v | 0 <= v < |rows| ensures RowAt(VertexRows(rows), offsets, Vertices(entries), v) {
      assert RowAt(rows, offsets, entries, v);
      assert Vertices(entries)[offsets[v]..offsets[v + 1]] == Vertices(entries[offsets[v]..offsets[v + 1]]);
    }
  }

  lemma RowEntries(rows: seq<seq<Entry>>, offsets: seq<nat>, entries: seq<Entry>, v: nat)
    requires Flattened(rows, offsets, entries) && v < |rows|
    ensures offsets[v] <= offsets[v + 1] <= |entries|
    ensures forall slot :: offsets[v] <= slot < offsets[v + 1] ==> entries[slot] in rows[v]
    ensures forall i :: 0 <= i < |rows[v]| ==> offsets[v] + i < offsets[v + 1] && entries[offsets[v] + i] == rows[v][i]
  {
    assert RowAt(rows, offsets, entries, v);
    forall slot | offsets[v] <= slot < offsets[v + 1] ensures entries[slot] in rows[v] {
      assert entries[offsets[v]..offsets[v + 1]][slot - offsets[v]] == entries[slot];
    }
  }

  /** The entries of vertex `v` in one of the two halves of a view. */
  ghost predicate Holds(offsets: seq<nat>, entries: seq<Entry>, v: nat, e: Entry) {
    v + 1 < |offsets| && exists slot :: offsets[v] <= slot < offsets[v + 1] && slot < |entries| && entries[slot] == e
  }

  lemma HalfIsGraph(graph: TemporalGraph, rows: seq<seq<Entry>>, offsets: seq<nat>, entries: seq<Entry>)
    requires Flattened(rows, offsets, entries) && |rows| == graph.order && graph.InRange()
    requires forall v, e :: 0 <= v < |rows| && e in rows[v] ==> e.vertex < graph.order
    ensures Csr(offsets, Vertices(entries)).Valid() && Csr(offsets, Vertices(entries)).Packed()
    ensures Csr(offsets, Vertices(entries)).Order() == graph.order
  {
    VerticesFlattened(rows, offsets, entries);
    forall v, w | 0 <= v < |rows| && w in VertexRows(rows)[v] ensures w < |rows| {
      var i :| 0 <= i < |rows[v]| && rows[v][i].vertex == w;
      assert rows[v][i] in rows[v];
    }
    FlattenedIsGraph(VertexRows(rows), Csr(offsets, Vertices(entries)));
  }

  lemma RowsKeepOrder(rows: seq<seq<Entry>>, offsets: seq<nat>, entries: seq<Entry>, v: nat)
    requires Flattened(rows, offsets, entries) && v < |rows| && Ordered(rows[v])
    ensures offsets[v + 1] <= |entries|
    ensures forall a, b :: offsets[v] <= a < b < offsets[v + 1] ==> EntryLess(entries[a], entries[b])
  {
    assert RowAt(rows, offsets, entries, v);
    forall a, b | offsets[v] <= a < b < offsets[v + 1] ensures EntryLess(entries[a], entries[b]) {
      assert rows[v][a - offsets[v]] == entries[a] && rows[v][b - offsets[v]] == entries[b];
    }
  }

  lemma OutShape(graph: TemporalGraph, view: GraphView)
    requires graph.InRange() && Views(graph, view)
    ensures OutGraph(view).Valid() && OutGraph(view).Packed() && OutGraph(view).Order() == graph.order
  {
    var rows :| OutRows(graph, view, rows);
    HalfIsGraph(graph, rows, view.outOffsets, view.outgoing);
  }

  lemma OutSlot(graph: TemporalGraph, view: GraphView, v: nat, slot: int)
    requires graph.InRange() && Views(graph, view) && OutGraph(view).Valid() && OutGraph(view).Order() == graph.order
    requires OutGraph(view).InRow(v, slot)
    ensures IsOut(graph.edges, v, view.outgoing[slot])
  {
    hide IsOut;
    var rows :| OutRows(graph, view, rows);
    RowEntries(rows, view.outOffsets, view.outgoing, v);
  }

  lemma OutEntry(graph: TemporalGraph, view: GraphView, v: nat, e: Entry)
    requires Views(graph, view) && v < graph.order && IsOut(graph.edges, v, e)
    ensures Holds(view.outOffsets, view.outgoing, v, e)
  {
    hide IsOut;
    var rows :| OutRows(graph, view, rows);
    RowEntries(rows, view.outOffsets, view.outgoing, v);
    var i :| 0 <= i < |rows[v]| && rows[v][i] == e;
    assert view.outgoing[view.outOffsets[v] + i] == e;
  }

  /** The rows of the outgoing half are ordered by target, then by edge id. */
  lemma OutOrder(graph: TemporalGraph, view: GraphView, v: nat, a: int, b: int)
    requires graph.InRange() && Views(graph, view) && OutGraph(view).Valid() && OutGraph(view).Order() == graph.order
    requires OutGraph(view).InRow(v, a) && OutGraph(view).InRow(v, b) && a < b
    ensures var x, y := view.outgoing[a], view.outgoing[b]; x.vertex < y.vertex || (x.vertex == y.vertex && x.edgeId < y.edgeId)
  {
    hide IsOut;
    var rows :| OutRows(graph, view, rows);
    RowsKeepOrder(rows, view.outOffsets, view.outgoing, v);
  }

  lemma InShape(graph: TemporalGraph, view: GraphView)
    requires graph.InRange() && Views(graph, view)
    ensures InGraph(view).Valid() && InGraph(view).Packed() && InGraph(view).Order() == graph.order
  {
    var rows :| InRows(graph, view, rows);
    HalfIsGraph(graph, rows, view.inOffsets, view.incoming);
  }

  lemma InSlot(graph: TemporalGraph, view: GraphView, v: nat, slot: int)
    requires graph.InRange() && Views(graph, view) && InGraph(view).Valid() && InGraph(view).Order() == graph.order
    requires InGraph(view).InRow(v, slot)
    ensures IsIn(graph.edges, v, view.incoming[slot])
  {
    hide IsIn;
    var rows :| InRows(graph, view, rows);
    RowEntries(rows, view.inOffsets, view.incoming, v);
  }

  lemma InEntry(graph: TemporalGraph, view: GraphView, v: nat, e: Entry)
    requires Views(graph, view) && v < graph.order && IsIn(graph.edges, v, e)
    ensures Holds(view.inOffsets, view.incoming, v, e)
  {
    hide IsIn;
    var rows :| InRows(graph, view, rows);
    RowEntries(rows, view.inOffsets, view.incoming, v);
    var i :| 0 <= i < |rows[v]| && rows[v][i] == e;
    assert view.incoming[view.inOffsets[v] + i] == e;
  }

  // ---- Transposes ----

  /** Every slot of `a` has a partner in `b` with the ends exchanged and the same timestamps. */
  ghost predicate Mirrored(a: Csr, aTimes: seq<seq<int>>, b: Csr, bTimes: seq<seq<int>>)
    requires Timed(a, aTimes) && Timed(b, bTimes)
  {
    forall v: nat, slot :: a.InRow(v, slot) ==> Partner(b, bTimes, a.targets[slot], v, aTimes[slot])
  }

  ghost predicate Partner(b: Csr, bTimes: seq<seq<int>>, w: nat, v: nat, times: seq<int>)
    requires Timed(b, bTimes)
  {
    exists slot :: b.InRow(w, slot) && b.targets[slot] == v && bTimes[slot] == times
  }

  ghost predicate Transposed(a: Csr, aTimes: seq<seq<int>>, b: Csr, bTimes: seq<seq<int>>) {
    Timed(a, aTimes) && Timed(b, bTimes) && a.Order() == b.Order() && Mirrored(a, aTimes, b, bTimes) && Mirrored(b, bTimes, a, aTimes)
  }

  lemma HoldsIsPartner(g: Csr, offsets: seq<nat>, entries: seq<Entry>, timestamps: seq<int>, v: nat, e: Entry)
    requires g == Csr(offsets, Vertices(entries)) && g.Valid() && Holds(offsets, entries, v, e)
    ensures Partner(g, SlotTimes(entries, timestamps), v, e.vertex, SlotTime(e, timestamps))
  {
    var slot :| offsets[v] <= slot < offsets[v + 1] && slot < |entries| && entries[slot] == e;
    assert g.InRow(v, slot);
  }

  /** The two halves of a built view are transposes of each other, timestamps included. */
  lemma ViewIsTransposed(graph: TemporalGraph, view: GraphView)
    requires graph.InRange() && Views(graph, view)
    ensures Transposed(OutGraph(view), OutTimes(view), InGraph(view), InTimes(view))
  {
    hide Views, Partner;
    OutShape(graph, view);
    InShape(graph, view);
    forall v: nat, slot | OutGraph(view).InRow(v, slot)
      ensures Partner(InGraph(view), InTimes(view), view.outgoing[slot].vertex, v, OutTimes(view)[slot])
    {
      var e := view.outgoing[slot];
      OutSlot(graph, view, v, slot);
      assert IsIn(graph.edges, e.vertex, e.(vertex := v));
      InEntry(graph, view, e.vertex, e.(vertex := v));
      HoldsIsPartner(InGraph(view), view.inOffsets, view.incoming, view.timestamps, e.vertex, e.(vertex := v));
    }
    forall v: nat, slot | InGraph(view).InRow(v, slot)
      ensures Partner(OutGraph(view), OutTimes(view), view.incoming[slot].vertex, v, InTimes(view)[slot])
    {
      var e := view.incoming[slot];
      InSlot(graph, view, v, slot);
      assert IsOut(graph.edges, e.vertex, e.(vertex := v));
      OutEntry(graph, view, e.vertex, e.(vertex := v));
      HoldsIsPartner(OutGraph(view), view.outOffsets, view.outgoing, view.timestamps, e.vertex, e.(vertex := v));
    }
  }

  /** Those of the incoming half by source, then by edge id. */
  lemma InOrder(graph: TemporalGraph, view: GraphView, v: nat, a: int, b: int)
    requires graph.InRange() && Views(graph, view) && InGraph(view).Valid() && InGraph(view).Order() == graph.order
    requires InGraph(view).InRow(v, a) && InGraph(view).InRow(v, b) && a < b
    ensures var x, y := view.incoming[a], view.incoming[b]; x.vertex < y.vertex || (x.vertex == y.vertex && x.edgeId < y.edgeId)
  {
    hide IsIn;
    var rows :| InRows(graph, view, rows);
    RowsKeepOrder(rows, view.inOffsets, view.incoming, v);
  }

  /** Slot `a` of `v` in the outgoing half and slot `b` of `w` in the incoming half are the same logical edge. */
  ghost predicate Paired(view: GraphView, v: nat, a: int, w: nat, b: int)
    requires OutGraph(view).Valid() && InGraph(view).Valid()
  {
    && OutGraph(view).InRow(v, a) && InGraph(view).InRow(w, b)
    && view.outgoing[a].vertex == w && view.incoming[b].vertex == v
    && view.outgoing[a].edgeId == view.incoming[b].edgeId && OutTimes(view)[a] == InTimes(view)[b]
  }

  /** The slots of the two halves match one to one, parallel edges with equal timestamps included. */
  lemma HalvesPairUp(graph: TemporalGraph, view: GraphView)
    requires graph.InRange() && Views(graph, view)
    ensures OutGraph(view).Valid() && InGraph(view).Valid()
    ensures forall v: nat, a :: OutGraph(view).InRow(v, a) ==> exists w, b :: Paired(view, v, a, w, b)
    ensures forall w: nat, b :: InGraph(view).InRow(w, b) ==> exists v, a :: Paired(view, v, a, w, b)
    ensures forall v, a, w, b, u, c :: Paired(view, v, a, w, b) && Paired(view, v, a, u, c) ==> u == w && c == b
    ensures forall v, a, w, b, u, c :: Paired(view, v, a, w, b) && Paired(view, u, c, w, b) ==> u == v && c == a
  {
    hide Views, IsOut, IsIn;
    OutShape(graph, view);
    InShape(graph, view);
    forall v: nat, a | OutGraph(view).InRow(v, a) ensures exists w, b :: Paired(view, v, a, w, b) {
      OutHasPair(graph, view, v, a);
    }
    forall w: nat, b | InGraph(view).InRow(w, b) ensures exists v, a :: Paired(view, v, a, w, b) {
      InHasPair(graph, view, w, b);
    }
    forall v, a, w, b, u, c | Paired(view, v, a, w, b) && Paired(view, v, a, u, c) ensures u == w && c == b {
      OnePair(graph, view, v, a, w, b, u, c);
    }
    forall v, a, w, b, u, c | Paired(view, v, a, w, b) && Paired(view, u, c, w, b) ensures u == v && c == a {
      OnePairBack(graph, view, v, a, w, b, u, c);
    }
  }

  lemma OutHasPair(graph: TemporalGraph, view: GraphView, v: nat, a: int)
    requires graph.InRange() && Views(graph, view) && OutGraph(view).Valid() && InGraph(view).Valid()
    requires OutGraph(view).Order() == InGraph(view).Order() == graph.order && OutGraph(view).InRow(v, a)
    ensures exists w, b :: Paired(view, v, a, w, b)
  {
    hide Views;
    var e := view.outgoing[a];
    OutSlot(graph, view, v, a);
    assert IsIn(graph.edges, e.vertex, e.(vertex := v));
    InEntry(graph, view, e.vertex, e.(vertex := v));
    var b :| view.inOffsets[e.vertex] <= b < view.inOffsets[e.vertex + 1] && b < |view.incoming| && view.incoming[b] == e.(vertex := v);
    assert Paired(view, v, a, e.vertex, b);
  }

  lemma InHasPair(graph: TemporalGraph, view: GraphView, w: nat, b: int)
    requires graph.InRange() && Views(graph, view) && OutGraph(view).Valid() && InGraph(view).Valid()
    requires OutGraph(view).Order() == InGraph(view).Order() == graph.order && InGraph(view).InRow(w, b)
    ensures exists v, a :: Paired(view, v, a, w, b)
  {
    hide Views;
    var e := view.incoming[b];
    InSlot(graph, view, w, b);
    assert IsOut(graph.edges, e.vertex, e.(vertex := w));
    OutEntry(graph, view, e.vertex, e.(vertex := w));
    var a :| view.outOffsets[e.vertex] <= a < view.outOffsets[e.vertex + 1] && a < |view.outgoing| && view.outgoing[a] == e.(vertex := w);
    assert Paired(view, e.vertex, a, w, b);
  }

  /** A logical edge has one slot in the incoming half. */
  lemma OnePair(graph: TemporalGraph, view: GraphView, v: nat, a: int, w: nat, b: int, u: nat, c: int)
    requires graph.InRange() && Views(graph, view) && OutGraph(view).Valid() && InGraph(view).Valid()
    requires InGraph(view).Order() == graph.order && Paired(view, v, a, w, b) && Paired(view, v, a, u, c)
    ensures u == w && c == b
  {
    hide Views, IsIn;
    if b < c {
      InOrder(graph, view, w, b, c);
    } else if c < b {
      InOrder(graph, view, w, c, b);
    }
  }

  /** And one in the outgoing half. */
  lemma OnePairBack(graph: TemporalGraph, view: GraphView, v: nat, a: int, w: nat, b: int, u: nat, c: int)
    requires graph.InRange() && Views(graph, view) && OutGraph(view).Valid() && InGraph(view).Valid()
    requires OutGraph(view).Order() == graph.order && Paired(view, v, a, w, b) && Paired(view, u, c, w, b)
    ensures u == v && c == a
  {
    hide Views, IsOut;
    if a < c {
      OutOrder(graph, view, v, a, c);
    } else if c < a {
      OutOrder(graph, view, v, c, a);
    }
  }

  // ---- The logical edges ----

  lemma TimesGrow(edges: seq<TemporalEdge>, n: nat)
    requires n < |edges|
    ensures TimesBefore(edges, n + 1) == TimesBefore(edges, n) + edges[n].times
  {
  }

  lemma {:induction false} TimesSlice(edges: seq<TemporalEdge>, id: nat, n: nat)
    requires id < n <= |edges|
    ensures |TimesBefore(edges, id)| <= |TimesBefore(edges, id + 1)| <= |TimesBefore(edges, n)|
    ensures TimesBefore(edges, n)[|TimesBefore(edges, id)|..|TimesBefore(edges, id + 1)|] == edges[id].times
  {
    hide TimesBefore;
    TimesGrow(edges, id);
    if id + 1 < n {
      TimesSlice(edges, id, n - 1);
      TimesGrow(edges, n - 1);
      SliceOfFront(TimesBefore(edges, n - 1), edges[n - 1].times, |TimesBefore(edges, id)|, |TimesBefore(edges, id + 1)|);
    }
  }

  lemma SliceOfFront(front: seq<int>, back: seq<int>, a: nat, b: nat)
    requires a <= b <= |front|
    ensures (front + back)[a..b] == front[a..b]
  {
  }

  /** The entry of a logical edge in the row of its source. */
  function OutEntryOf(edges: seq<TemporalEdge>, id: nat): (e: Entry)
    requires id < |edges|
    ensures IsOut(edges, edges[id].source, e)
  {
    Entry(edges[id].target, id, |TimesBefore(edges, id)|, |TimesBefore(edges, id + 1)|)
  }

  /** Every slot is a logical edge with its timestamps, and every logical edge has a slot. */
  lemma ViewEdges(graph: TemporalGraph, view: GraphView)
    requires graph.InRange() && Views(graph, view)
    ensures Timed(OutGraph(view), OutTimes(view)) && OutGraph(view).Packed() && OutGraph(view).Order() == graph.order
    ensures forall v: nat, slot :: OutGraph(view).InRow(v, slot) ==>
              TemporalEdge(v, OutGraph(view).targets[slot], OutTimes(view)[slot]) in graph.edges
    ensures forall e :: e in graph.edges ==> Partner(OutGraph(view), OutTimes(view), e.source, e.target, e.times)
  {
    hide Partner;
    OutShape(graph, view);
    forall v: nat, slot | OutGraph(view).InRow(v, slot)
      ensures TemporalEdge(v, OutGraph(view).targets[slot], OutTimes(view)[slot]) in graph.edges
    {
      var e := view.outgoing[slot];
      OutSlot(graph, view, v, slot);
      TimesSlice(graph.edges, e.edgeId, |graph.edges|);
      assert graph.edges[e.edgeId] == TemporalEdge(v, e.vertex, OutTimes(view)[slot]);
    }
    forall e | e in graph.edges ensures Partner(OutGraph(view), OutTimes(view), e.source, e.target, e.times) {
      var id :| 0 <= id < |graph.edges| && graph.edges[id] == e;
      var entry := OutEntryOf(graph.edges, id);
      TimesSlice(graph.edges, id, |graph.edges|);
      OutEntry(graph, view, e.source, entry);
      HoldsIsPartner(OutGraph(view), view.outOffsets, view.outgoing, view.timestamps, e.source, entry);
    }
  }

  /** The rows are strictly ascending, as the searches rely on, exactly when no logical edge is repeated. */
  lemma CanonicalIffNoParallels(graph: TemporalGraph, view: GraphView)
    requires graph.InRange() && Views(graph, view)
    ensures OutGraph(view).Canonical() <==> graph.NoParallels()
  {
    hide Views;
    OutShape(graph, view);
    var g := OutGraph(view);
    if graph.NoParallels() {
      forall v: nat, a, b | g.InRow(v, a) && g.InRow(v, b) && a < b ensures g.targets[a] < g.targets[b] {
        OutSlot(graph, view, v, a);
        OutSlot(graph, view, v, b);
        OutOrder(graph, view, v, a, b);
      }
      assert g.Sorted();
    }
    if g.Canonical() {
      SortedIsSimple(g);
      forall i, j | 0 <= i < j < |graph.edges| && graph.edges[i].source == graph.edges[j].source
        ensures graph.edges[i].target != graph.edges[j].target
      {
        var a := SlotOfEdge(graph, view, i);
        var b := SlotOfEdge(graph, view, j);
        assert g.InRow(graph.edges[i].source, a) && g.InRow(graph.edges[j].source, b);
      }
    }
  }

  lemma SlotOfEdge(graph: TemporalGraph, view: GraphView, id: nat) returns (slot: nat)
    requires graph.InRange() && Views(graph, view) && id < |graph.edges|
    ensures OutGraph(view).Valid() && OutGraph(view).InRow(graph.edges[id].source, slot)
    ensures view.outgoing[slot].edgeId == id && view.outgoing[slot].vertex == graph.edges[id].target
  {
    hide Views;
    OutShape(graph, view);
    var v, entry := graph.edges[id].source, OutEntryOf(graph.edges, id);
    OutEntry(graph, view, v, entry);
    slot :| view.outOffsets[v] <= slot < view.outOffsets[v + 1] && slot < |view.outgoing| && view.outgoing[slot] == entry;
  }

  // ---- The mutable adjacency and back ----

  method BuildDirectedGraph(view: GraphView) returns (r: Csr)
    requires OutGraph(view).Valid()
    ensures r.Canonical() && r.Order() == OutGraph(view).Order()
    ensures forall e: Edge :: r.HasEdge(e) <==> OutGraph(view).HasEdge(e)
    ensures OutGraph(view).Canonical() ==> r == OutGraph(view)
  {
    var g := OutGraph(view);
    var adjacency: seq<seq<nat>> := [];
    for source := 0 to g.Order()
      invariant |adjacency| == source && forall v :: 0 <= v < source ==> adjacency[v] == g.Row(v)
    {
      var row: seq<nat> := [];
      for slot := g.Begin(source) to g.End(source)
        invariant row == g.targets[g.Begin(source)..slot]
      {
        row := row + [view.outgoing[slot].vertex];
      }
      adjacency := adjacency + [row];
    }
    forall v, w | 0 <= v < |adjacency| && w in adjacency[v] ensures w < |adjacency| {
      EdgeInRow(g, Edge(v, w));
    }
    r := BuildFromLists(adjacency);
    forall e: Edge ensures r.HasEdge(e) <==> g.HasEdge(e) {
      if e.source < g.Order() { EdgeInRow(g, e); }
    }
    if g.Canonical() {
      CanonicalUnique(r, g);
    }
  }

  ghost predicate FromSlot(g: Csr, e: TemporalEdge, slot: nat)
    requires g.Valid()
  {
    g.InRow(e.source, slot) && e.target == g.targets[slot] && e.times == [0]
  }

  /** Every edge becomes a logical edge with the single timestamp 0. */
  method ToGraphView(g: Csr) returns (view: GraphView)
    requires g.Canonical()
    ensures OutGraph(view) == g && OutTimes(view) == seq(|g.targets|, _ => [0])
  {
    var edges: seq<TemporalEdge> := [];
    for source := 0 to g.Order()
      invariant |edges| == g.offsets[source]
      invariant forall slot :: 0 <= slot < |edges| ==> FromSlot(g, edges[slot], slot)
    {
      for slot := g.Begin(source) to g.End(source)
        invariant |edges| == slot
        invariant forall x :: 0 <= x < |edges| ==> FromSlot(g, edges[x], x)
      {
        edges := edges + [TemporalEdge(source, g.targets[slot], [0])];
      }
    }
    var graph := TemporalGraph(g.Order(), edges);
    assert graph.InRange() by {
      forall id | 0 <= id < |edges| ensures edges[id].source < graph.order && edges[id].target < graph.order {
        assert FromSlot(g, edges[id], id);
      }
    }
    view := BuildGraphView(graph);
    SlotsAreView(g, graph, view);
  }

  ghost predicate AllFromSlots(g: Csr, edges: seq<TemporalEdge>)
    requires g.Valid()
  {
    |edges| == |g.targets| && forall slot :: 0 <= slot < |edges| ==> FromSlot(g, edges[slot], slot)
  }

  /** The logical edges are exactly the slots. */
  lemma SlotsAreEdges(g: Csr, edges: seq<TemporalEdge>, v: nat, w: nat)
    requires g.Canonical() && AllFromSlots(g, edges)
    ensures TemporalEdge(v, w, [0]) in edges <==> g.HasEdge(Edge(v, w))
    ensures forall e :: e in edges ==> e.times == [0]
  {
    if TemporalEdge(v, w, [0]) in edges {
      var id :| 0 <= id < |edges| && edges[id] == TemporalEdge(v, w, [0]);
      assert FromSlot(g, edges[id], id);
    }
    if g.HasEdge(Edge(v, w)) {
      var slot :| g.InRow(v, slot) && g.targets[slot] == w;
      assert FromSlot(g, edges[slot], slot);
      OneRow(g, edges[slot].source, v, slot);
    }
  }

  lemma SlotsAreView(g: Csr, graph: TemporalGraph, view: GraphView)
    requires g.Canonical() && graph.order == g.Order() && graph.InRange() && Views(graph, view) && AllFromSlots(g, graph.edges)
    ensures OutGraph(view) == g && OutTimes(view) == seq(|g.targets|, _ => [0])
  {
    hide Views, AllFromSlots;
    var h := OutGraph(view);
    NoSlotTwice(g, graph);
    CanonicalIffNoParallels(graph, view);
    ViewEdges(graph, view);
    forall e: Edge ensures h.HasEdge(e) <==> g.HasEdge(e) {
      SlotsAreEdges(g, graph.edges, e.source, e.target);
      if h.HasEdge(e) {
        var x :| h.InRow(e.source, x) && h.targets[x] == e.target;
        assert TemporalEdge(e.source, e.target, OutTimes(view)[x]) in graph.edges;
      }
      if g.HasEdge(e) {
        assert Partner(h, OutTimes(view), e.source, e.target, [0]);
      }
    }
    CanonicalUnique(h, g);
    forall x | 0 <= x < |h.targets| ensures OutTimes(view)[x] == [0] {
      var v := SlotSource(h, x, h.Order());
      SlotsAreEdges(g, graph.edges, v, h.targets[x]);
    }
  }

  lemma NoSlotTwice(g: Csr, graph: TemporalGraph)
    requires g.Canonical() && AllFromSlots(g, graph.edges)
    ensures graph.NoParallels()
  {
    SortedIsSimple(g);
    forall i, j | 0 <= i < j < |graph.edges| && graph.edges[i].source == graph.edges[j].source
      ensures graph.edges[i].target != graph.edges[j].target
    {
      assert FromSlot(g, graph.edges[i], i) && FromSlot(g, graph.edges[j], j);
    }
  }

  /** Converting to the read-only view and back gives the same graph. */
  method RoundTrip(g: Csr) returns (r: Csr)
    requires g.Canonical()
    ensures r == g
  {
    var view := ToGraphView(g);
    r := BuildDirectedGraph(view);
  }
}
