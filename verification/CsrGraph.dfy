/** Directed graphs in compressed sparse row form, the layout every search walks. */
module CsrGraphs {

  datatype Option<+T> = None | Some(value: T)

  /** A directed edge; a batch of changes lists edges in this form. */
  datatype Edge = Edge(source: nat, target: nat)

  /** Row `v` occupies the slots from `offsets[v]` up to, not including, `offsets[v + 1]`. */
  datatype Csr = Csr(offsets: seq<nat>, targets: seq<nat>) {

    /** Every row lies inside `targets` and every target is a vertex. */
    predicate Valid() {
      && |offsets| >= 1
      && (forall v :: 0 <= v < Order() ==> RowFits(v))
      && (forall slot :: 0 <= slot < |targets| ==> targets[slot] < Order())
    }

    predicate RowFits(v: nat)
      requires v < Order()
    {
      offsets[v] <= offsets[v + 1] <= |targets|
    }

    /** The number of vertices. */
    function Order(): int {
      |offsets| - 1
    }

    function Begin(v: nat): (slot: nat)
      requires Valid() && v < Order()
      ensures slot <= offsets[v + 1] <= |targets|
    {
      assert RowFits(v);
      offsets[v]
    }

    function End(v: nat): (slot: nat)
      requires Valid() && v < Order()
      ensures offsets[v] <= slot <= |targets|
    {
      assert RowFits(v);
      offsets[v + 1]
    }

    predicate InRow(v: int, slot: int)
      requires Valid()
      ensures InRow(v, slot) ==> 0 <= slot < |targets|
    {
      0 <= v < Order() && Begin(v) <= slot < End(v)
    }

    ghost predicate HasEdge(e: Edge)
      requires Valid()
    {
      exists slot :: InRow(e.source, slot) && targets[slot] == e.target
    }

    /** No row names a neighbour twice, so an edge is one slot. */
    ghost predicate Simple()
      requires Valid()
    {
      forall v, a, b :: InRow(v, a) && InRow(v, b) && targets[a] == targets[b] ==> a == b
    }

    /** Rows are strictly ascending, as the graph builder leaves them. */
    ghost predicate Sorted()
      requires Valid()
    {
      forall v, a, b :: InRow(v, a) && InRow(v, b) && a < b ==> targets[a] < targets[b]
    }

    /** The rows fill `targets` without gaps. */
    ghost predicate Packed()
      requires Valid()
    {
      offsets[0] == 0 && offsets[Order()] == |targets|
    }

    /** The layout the builders produce. */
    ghost predicate Canonical() {
      Valid() && Packed() && Sorted()
    }

    function Row(v: nat): seq<nat>
      requires Valid() && v < Order()
    {
      targets[Begin(v)..End(v)]
    }

    ghost predicate LoopFree()
      requires Valid()
    {
      forall v, slot :: InRow(v, slot) ==> targets[slot] != v
    }
  }

  lemma SortedIsSimple(g: Csr)
    requires g.Valid() && g.Sorted()
    ensures g.Simple()
  {
    forall v, a, b | g.InRow(v, a) && g.InRow(v, b) && g.targets[a] == g.targets[b] ensures a == b {
      if a < b {
      } else if b < a {
      }
    }
  }

  lemma EdgeInRow(g: Csr, e: Edge)
    requires g.Valid() && e.source < g.Order()
    ensures g.HasEdge(e) <==> e.target in g.Row(e.source)
  {
    var row := g.Row(e.source);
    if e.target in row {
      var i :| 0 <= i < |row| && row[i] == e.target;
      assert g.InRow(e.source, g.Begin(e.source) + i);
    }
    if g.HasEdge(e) {
      var slot :| g.InRow(e.source, slot) && g.targets[slot] == e.target;
      assert row[slot - g.Begin(e.source)] == e.target;
    }
  }

  /** Every slot of a packed graph lies in a row. */
  lemma {:induction false} SlotSource(g: Csr, slot: nat, n: nat) returns (v: nat)
    requires g.Valid() && g.offsets[0] == 0 && n <= g.Order() && slot < g.offsets[n]
    ensures v < n && g.InRow(v, slot)
    decreases n
  {
    if g.offsets[n - 1] <= slot {
      v := n - 1;
    } else {
      v := SlotSource(g, slot, n - 1);
    }
  }

  lemma {:induction false} OffsetsAscend(g: Csr, u: nat, v: nat)
    requires g.Valid() && u <= v <= g.Order()
    ensures g.offsets[u] <= g.offsets[v]
    decreases v
  {
    if u < v {
      OffsetsAscend(g, u, v - 1);
      assert g.RowFits(v - 1);
    }
  }

  /** A slot lies in one row. */
  lemma OneRow(g: Csr, u: nat, v: nat, slot: nat)
    requires g.Valid() && g.InRow(u, slot) && g.InRow(v, slot)
    ensures u == v
  {
    if u < v {
      OffsetsAscend(g, u + 1, v);
    } else if v < u {
      OffsetsAscend(g, v + 1, u);
    }
  }

  /** Exactly the vertices of the path are marked. */
  ghost predicate Marks(path: seq<nat>, marked: seq<bool>, order: int) {
    |marked| == order && forall w :: 0 <= w < order ==> (marked[w] <==> w in path)
  }

  lemma MarkOne(path: seq<nat>, marked: seq<bool>, order: int, v: nat)
    requires Marks(path, marked, order) && v < order && v !in path
    ensures |marked| == order && marked[v := true][v := false] == marked && Marks(path + [v], marked[v := true], order)
  {
  }
}
