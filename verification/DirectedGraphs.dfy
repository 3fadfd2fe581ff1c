/** Building and changing the sorted adjacency that the incremental update works on. */
module DirectedGraphs {
  import opened CsrGraphs
  import opened EdgeBatches

  /** `items` holds the rows one after another and `offsets` says where each begins. */
  ghost predicate Flattened<T(!new)>(rows: seq<seq<T>>, offsets: seq<nat>, items: seq<T>) {
    && |offsets| == |rows| + 1 && offsets[0] == 0 && offsets[|rows|] == |items|
    && forall v :: 0 <= v < |rows| ==> RowAt(rows, offsets, items, v)
  }

  ghost predicate RowAt<T(!new)>(rows: seq<seq<T>>, offsets: seq<nat>, items: seq<T>, v: nat)
    requires v < |rows| && |offsets| > v + 1
  {
    offsets[v] <= offsets[v + 1] <= |items| && items[offsets[v]..offsets[v + 1]] == rows[v]
  }

  method Flatten<T(!new)>(rows: seq<seq<T>>) returns (offsets: seq<nat>, items: seq<T>)
    ensures Flattened(rows, offsets, items)
  {
    offsets, items := [0], [];
    for v := 0 to |rows|
      invariant |offsets| == v + 1 && offsets[0] == 0 && offsets[v] == |items|
      invariant forall u :: 0 <= u < v ==> RowAt(rows, offsets, items, u)
    {
      ghost var before, done := items, offsets;
      items := items + rows[v];
      offsets := offsets + [|items|];
      forall u | 0 <= u <= v ensures RowAt(rows, offsets, items, u) {
        if u < v {
          assert RowAt(rows, done, before, u);
          assert items[offsets[u]..offsets[u + 1]] == before[done[u]..done[u + 1]];
        }
      }
    }
  }

  ghost predicate RowsInRange(rows: seq<seq<nat>>) {
    forall v, w :: 0 <= v < |rows| && w in rows[v] ==> w < |rows|
  }

  /** Flattened rows form a graph with these rows. */
  lemma FlattenedIsGraph(rows: seq<seq<nat>>, g: Csr)
    requires Flattened(rows, g.offsets, g.targets) && RowsInRange(rows)
    ensures g.Valid() && g.Packed() && g.Order() == |rows|
    ensures forall v :: 0 <= v < |rows| ==> g.Row(v) == rows[v]
  {
    forall v | 0 <= v < g.Order() ensures g.RowFits(v) {
      assert RowAt(rows, g.offsets, g.targets, v);
    }
    forall slot | 0 <= slot < |g.targets| ensures g.targets[slot] < |rows| {
      var v := RowOf(rows, g.offsets, g.targets, slot, |rows|);
      assert rows[v][slot - g.offsets[v]] in rows[v];
    }
    forall v | 0 <= v < |rows| ensures g.Row(v) == rows[v] {
      assert RowAt(rows, g.offsets, g.targets, v);
    }
  }

  /** The row a slot belongs to. */
  lemma {:induction false} RowOf<T(!new)>(rows: seq<seq<T>>, offsets: seq<nat>, items: seq<T>, slot: nat, n: nat) returns (v: nat)
    requires Flattened(rows, offsets, items) && n <= |rows| && slot < offsets[n]
    ensures v < n && 0 <= slot - offsets[v] < |rows[v]| && slot < |items| && items[slot] == rows[v][slot - offsets[v]]
    decreases n
  {
    assert RowAt(rows, offsets, items, n - 1);
    if offsets[n - 1] <= slot {
      v := n - 1;
      assert items[slot] == items[offsets[v]..offsets[v + 1]][slot - offsets[v]];
    } else {
      v := RowOf(rows, offsets, items, slot, n - 1);
    }
  }

  /** Ascending rows make the canonical layout. */
  lemma AscendingRowsAreCanonical(g: Csr)
    requires g.Valid() && g.Packed() && forall v :: 0 <= v < g.Order() ==> Ascending(g.Row(v))
    ensures g.Canonical()
  {
    forall v, a, b | g.InRow(v, a) && g.InRow(v, b) && a < b ensures g.targets[a] < g.targets[b] {
      var row := g.Row(v);
      assert row[a - g.Begin(v)] == g.targets[a] && row[b - g.Begin(v)] == g.targets[b];
    }
  }

  lemma CanonicalRowsAscend(g: Csr, v: nat)
    requires g.Canonical() && v < g.Order()
    ensures Ascending(g.Row(v))
  {
    var row := g.Row(v);
    forall i, j | 0 <= i < j < |row| ensures row[i] < row[j] {
      assert g.InRow(v, g.Begin(v) + i) && g.InRow(v, g.Begin(v) + j);
    }
  }

  /** A packed graph is determined by its rows. */
  lemma {:induction false} RowsDetermine(a: Csr, b: Csr, n: nat)
    requires a.Valid() && b.Valid() && a.Packed() && b.Packed() && a.Order() == b.Order() && n <= a.Order()
    requires forall v :: 0 <= v < a.Order() ==> a.Row(v) == b.Row(v)
    ensures a.offsets[n] == b.offsets[n] <= |a.targets| && a.offsets[n] <= |b.targets|
    ensures a.offsets[..n + 1] == b.offsets[..n + 1] && a.targets[..a.offsets[n]] == b.targets[..a.offsets[n]]
  {
    if n > 0 {
      RowsDetermine(a, b, n - 1);
      assert a.RowFits(n - 1) && b.RowFits(n - 1);
      assert a.Row(n - 1) == b.Row(n - 1);
      assert a.targets[..a.offsets[n]] == a.targets[..a.offsets[n - 1]] + a.Row(n - 1);
      assert b.targets[..b.offsets[n]] == b.targets[..b.offsets[n - 1]] + b.Row(n - 1);
      assert a.offsets[..n + 1] == a.offsets[..n] + [a.offsets[n]];
      assert b.offsets[..n + 1] == b.offsets[..n] + [b.offsets[n]];
    }
  }

  /** Two canonical graphs with the same vertices and edges are the same graph. */
  lemma CanonicalUnique(a: Csr, b: Csr)
    requires a.Canonical() && b.Canonical() && a.Order() == b.Order()
    requires forall e: Edge :: a.HasEdge(e) <==> b.HasEdge(e)
    ensures a == b
  {
    forall v | 0 <= v < a.Order() ensures a.Row(v) == b.Row(v) {
      CanonicalRowsAscend(a, v);
      CanonicalRowsAscend(b, v);
      forall w: nat ensures w in a.Row(v) <==> w in b.Row(v) {
        EdgeInRow(a, Edge(v, w));
        EdgeInRow(b, Edge(v, w));
      }
      AscendingUnique(a.Row(v), b.Row(v));
    }
    RowsDetermine(a, b, a.Order());
    assert a.offsets[..a.Order() + 1] == a.offsets && b.offsets[..a.Order() + 1] == b.offsets;
    assert a.targets[..|a.targets|] == a.targets && b.targets[..|b.targets|] == b.targets;
  }

  /** Every row is sorted and stripped of repetitions, then the rows are laid out. */
  method BuildFromLists(adjacency: seq<seq<nat>>) returns (g: Csr)
    requires RowsInRange(adjacency)
    ensures g.Canonical() && g.Order() == |adjacency|
    ensures forall e: Edge :: g.HasEdge(e) <==> e.source < |adjacency| && e.target in adjacency[e.source]
  {
    var rows: seq<seq<nat>> := [];
    for v := 0 to |adjacency|
      invariant |rows| == v && forall u :: 0 <= u < v ==> rows[u] == SortUnique(adjacency[u])
    {
      rows := rows + [SortUnique(adjacency[v])];
    }
    g := LayOut(rows);
    forall e: Edge ensures g.HasEdge(e) <==> e.source < |adjacency| && e.target in adjacency[e.source] {
      if e.source < |adjacency| { EdgeInRow(g, e); }
    }
  }

  method LayOut(rows: seq<seq<nat>>) returns (g: Csr)
    requires RowsInRange(rows) && forall v :: 0 <= v < |rows| ==> Ascending(rows[v])
    ensures g.Canonical() && g.Order() == |rows| && forall v :: 0 <= v < |rows| ==> g.Row(v) == rows[v]
  {
    var offsets, targets := Flatten(rows);
    g := Csr(offsets, targets);
    FlattenedIsGraph(rows, g);
    AscendingRowsAreCanonical(g);
  }

  /** Inserted edges that start at a vertex of the graph also end at one. */
  ghost predicate InsertionsFit(n: int, batch: EdgeBatch) {
    forall e :: e in batch.insertions && e.source < n ==> e.target < n
  }

  /** The edges after the batch: deletions are removed before insertions are added. */
  ghost predicate EdgeAfter(base: Csr, batch: EdgeBatch, e: Edge)
    requires base.Valid()
  {
    (base.HasEdge(e) && e !in batch.deletions) || (e.source < base.Order() && e in batch.insertions)
  }

  /** The new row of one source vertex. */
  method RebuildRow(base: Csr, batch: EdgeBatch, source: nat) returns (row: seq<nat>)
    requires base.Valid() && source < base.Order()
    ensures Ascending(row) && forall w: nat :: w in row <==> EdgeAfter(base, batch, Edge(source, w))
  {
    var kept: seq<nat> := [];
    for slot := base.Begin(source) to base.End(source)
      invariant forall w: nat :: w in kept <==> w in base.targets[base.Begin(source)..slot] && Edge(source, w) !in batch.deletions
    {
      var target := base.targets[slot];
      assert base.targets[base.Begin(source)..slot + 1] == base.targets[base.Begin(source)..slot] + [target];
      if Edge(source, target) !in batch.deletions {
        kept := kept + [target];
      }
    }
    var added := kept;
    for k := 0 to |batch.insertions|
      invariant forall w: nat :: w in added <==> w in kept || Edge(source, w) in batch.insertions[..k]
    {
      assert batch.insertions[..k + 1] == batch.insertions[..k] + [batch.insertions[k]];
      if batch.insertions[k].source == source {
        added := added + [batch.insertions[k].target];
      }
    }
    assert batch.insertions[..|batch.insertions|] == batch.insertions;
    row := SortUnique(added);
    forall w: nat ensures w in row <==> EdgeAfter(base, batch, Edge(source, w)) {
      EdgeInRow(base, Edge(source, w));
    }
  }

  ghost predicate StartsAt(edges: seq<Edge>, v: nat) {
    exists e :: e in edges && e.source == v
  }

  lemma StartsAtSnoc(edges: seq<Edge>, e: Edge)
    ensures forall v :: StartsAt(edges + [e], v) <==> StartsAt(edges, v) || e.source == v
  {
    assert e in edges + [e];
    forall v | StartsAt(edges, v) ensures StartsAt(edges + [e], v) {
      var x :| x in edges && x.source == v;
      assert x in edges + [e];
    }
  }

  /** Marks the sources of the given edges. */
  method Touch(touched: array<bool>, edges: seq<Edge>)
    modifies touched
    ensures forall v :: 0 <= v < touched.Length ==>
              (touched[v] <==> old(touched[v]) || StartsAt(edges, v))
  {
    for k := 0 to |edges|
      invariant edges[..|edges|] == edges
      invariant forall v :: 0 <= v < touched.Length ==>
                  (touched[v] <==> old(touched[v]) || StartsAt(edges[..k], v))
    {
      assert edges[..k + 1] == edges[..k] + [edges[k]];
      StartsAtSnoc(edges[..k], edges[k]);
      if edges[k].source < touched.Length {
        touched[edges[k].source] := true;
      }
    }
  }

  /** A row no change starts at is unchanged. */
  lemma UntouchedRow(base: Csr, batch: EdgeBatch, source: nat, w: nat)
    requires base.Valid() && source < base.Order()
    requires !StartsAt(batch.deletions, source) && !StartsAt(batch.insertions, source)
    ensures w in base.Row(source) <==> EdgeAfter(base, batch, Edge(source, w))
  {
    EdgeInRow(base, Edge(source, w));
  }

  /** Only the rows that the batch touches are rebuilt; the others are copied. */
  method ApplyBatch(base: Csr, batch: EdgeBatch) returns (g: Csr)
    requires base.Canonical() && InsertionsFit(base.Order(), batch)
    ensures g.Canonical() && g.Order() == base.Order()
    ensures forall e: Edge :: g.HasEdge(e) <==> EdgeAfter(base, batch, e)
  {
    var n := base.Order();
    var touched := new bool[n](_ => false);
    Touch(touched, batch.deletions);
    Touch(touched, batch.insertions);
    var rows: seq<seq<nat>> := [];
    ghost var marks := touched[..];
    for source := 0 to n
      invariant |rows| == source && touched[..] == marks
      invariant forall v :: 0 <= v < source ==> Ascending(rows[v])
      invariant forall v, w: nat :: 0 <= v < source ==> (w in rows[v] <==> EdgeAfter(base, batch, Edge(v, w)))
    {
      var row;
      if touched[source] {
        row := RebuildRow(base, batch, source);
      } else {
        row := base.Row(source);
        CanonicalRowsAscend(base, source);
        forall w: nat ensures w in row <==> EdgeAfter(base, batch, Edge(source, w)) {
          UntouchedRow(base, batch, source, w);
        }
      }
      rows := rows + [row];
    }
    forall v, w | 0 <= v < |rows| && w in rows[v] ensures w < |rows| {
      assert EdgeAfter(base, batch, Edge(v, w));
    }
    g := LayOut(rows);
    forall e: Edge ensures g.HasEdge(e) <==> EdgeAfter(base, batch, e) {
      if e.source < n { EdgeInRow(g, e); }
    }
  }

  /** Binary search in one sorted row. */
  method HasEdge(g: Csr, source: nat, target: nat) returns (found: bool)
    requires g.Canonical()
    ensures found <==> g.HasEdge(Edge(source, target))
  {
    if source >= g.Order() {
      return false;
    }
    var low, high := g.offsets[source], g.End(source);
    while low < high
      invariant g.Begin(source) <= low <= high <= g.End(source)
      invariant forall slot :: g.InRow(source, slot) && slot < low ==> g.targets[slot] < target
      invariant forall slot :: g.InRow(source, slot) && slot >= high ==> g.targets[slot] >= target
    {
      var mid := low + (high - low) / 2;
      assert g.InRow(source, mid);
      if g.targets[mid] < target {
        low := mid + 1;
      } else {
        high := mid;
      }
    }
    found := low < g.End(source) && g.targets[low] == target;
    if found { assert g.InRow(source, low); }
    if g.HasEdge(Edge(source, target)) && low < g.End(source) { assert g.InRow(source, low); }
  }
}
