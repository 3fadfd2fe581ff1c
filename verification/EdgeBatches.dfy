/** Batches of edge changes and their normal form. */
module EdgeBatches {
  import opened CsrGraphs

  datatype EdgeBatch = EdgeBatch(deletions: seq<Edge>, insertions: seq<Edge>)

  /** By source, then by target. */
  predicate EdgeLess(a: Edge, b: Edge) {
    a.source < b.source || (a.source == b.source && a.target < b.target)
  }

  predicate StrictlySorted(edges: seq<Edge>) {
    forall i, j :: 0 <= i < j < |edges| ==> EdgeLess(edges[i], edges[j])
  }

  function InsertEdge(edges: seq<Edge>, e: Edge): (r: seq<Edge>)
    requires StrictlySorted(edges)
    ensures StrictlySorted(r) && forall x :: x in r <==> x in edges || x == e
  {
    if edges == [] then [e]
    else if e == edges[0] then edges
    else if EdgeLess(e, edges[0]) then [e] + edges
    else
      var rest := InsertEdge(edges[1..], e);
      assert forall x :: x in edges <==> x == edges[0] || x in edges[1..];
      assert EdgeLess(edges[0], e) && forall x :: x in edges[1..] ==> EdgeLess(edges[0], x);
      assert forall j :: 0 <= j < |rest| ==> rest[j] in rest && EdgeLess(edges[0], rest[j]);
      [edges[0]] + rest
  }

  /** The list in ascending order without repetitions. */
  function SortAndDedup(edges: seq<Edge>): (r: seq<Edge>)
    ensures StrictlySorted(r) && forall x :: x in r <==> x in edges
  {
    if edges == [] then []
    else
      assert forall x :: x in edges <==> x in edges[..|edges| - 1] || x == edges[|edges| - 1];
      InsertEdge(SortAndDedup(edges[..|edges| - 1]), edges[|edges| - 1])
  }

  function Normalize(batch: EdgeBatch): (r: EdgeBatch) {
    EdgeBatch(SortAndDedup(batch.deletions), SortAndDedup(batch.insertions))
  }

  predicate Ascending(row: seq<nat>) {
    forall i, j :: 0 <= i < j < |row| ==> row[i] < row[j]
  }

  function InsertVertex(row: seq<nat>, v: nat): (r: seq<nat>)
    requires Ascending(row)
    ensures Ascending(r) && forall x :: x in r <==> x in row || x == v
  {
    if row == [] then [v]
    else if v == row[0] then row
    else if v < row[0] then [v] + row
    else
      var rest := InsertVertex(row[1..], v);
      assert forall x :: x in row <==> x == row[0] || x in row[1..];
      assert forall x :: x in row[1..] ==> row[0] < x;
      assert forall j :: 0 <= j < |rest| ==> rest[j] in rest && row[0] < rest[j];
      [row[0]] + rest
  }

  /** The row in ascending order without repetitions. */
  function SortUnique(row: seq<nat>): (r: seq<nat>)
    ensures Ascending(r) && forall x :: x in r <==> x in row
  {
    if row == [] then []
    else
      assert forall x :: x in row <==> x in row[..|row| - 1] || x == row[|row| - 1];
      InsertVertex(SortUnique(row[..|row| - 1]), row[|row| - 1])
  }

  /** Ascending lists of the same vertices are the same list. */
  lemma {:induction false} AscendingUnique(a: seq<nat>, b: seq<nat>)
    requires Ascending(a) && Ascending(b) && forall x :: x in a <==> x in b
    ensures a == b
  {
    assert a != [] ==> a[0] in b;
    assert b != [] ==> b[0] in a;
    if a != [] {
      assert a[0] == b[0];
      forall x ensures x in a[1..] <==> x in b[1..] {
        assert x in a <==> x == a[0] || x in a[1..];
        assert x in b <==> x == b[0] || x in b[1..];
        assert a[0] !in a[1..] && b[0] !in b[1..];
      }
      AscendingUnique(a[1..], b[1..]);
    }
  }
}
