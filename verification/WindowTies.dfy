/**
 * When all edges happen at the same time the tie-break at the start of a window decides alone: a cycle is
 * counted for the start event at its largest vertex and for no other, so the run is the static one.
 */
module WindowTies {
  import opened CsrGraphs
  import opened CycleSearch
  import opened CycleSets
  import opened CycleTotals
  import opened Rotations
  import opened StartEvents
  import opened WindowCycles

  /** Every edge has the single timestamp `t`. */
  ghost predicate AllAt(g: Csr, times: seq<seq<int>>, t: int) {
    Timed(g, times) && forall slot :: 0 <= slot < |times| ==> times[slot] == [t]
  }

  /** Written from its largest vertex. */
  ghost predicate MaxRooted(c: seq<nat>) {
    0 < |c| && forall i :: 0 < i < |c| ==> c[i] < c[0]
  }

  lemma LinkAt(g: Csr, times: seq<seq<int>>, t: int, width: int, root: nat, v: nat, w: nat)
    requires AllAt(g, times, t) && width >= 0
    ensures LinkInWindow(g, times, t, width, root, v, w) <==> g.HasEdge(Edge(v, w)) && v < root
  {
    if LinkInWindow(g, times, t, width, root, v, w) {
      var slot, j :| g.InRow(v, slot) && g.targets[slot] == w && 0 <= j < |times[slot]| &&
        t <= times[slot][j] <= t + width && (times[slot][j] == t ==> v < root);
      assert times[slot] == [t] && times[slot][j] == t;
    }
    if g.HasEdge(Edge(v, w)) && v < root {
      var slot :| g.InRow(v, slot) && g.targets[slot] == w;
      assert times[slot] == [t] && times[slot][0] == t;
    }
  }

  /** A simple cycle written from its largest vertex, with the one event of its first edge. */
  ghost predicate TiedForms(g: Csr, times: seq<seq<int>>, cap: Option<nat>, w: WindowCycle)
    requires Timed(g, times)
  {
    && IsCycle(g, w.vertices) && MaxRooted(w.vertices) && WithinCap(cap, |w.vertices|)
    && w.slot < |times| && w.event == 0 && g.InRow(w.vertices[0], w.slot) && g.targets[w.slot] == w.vertices[1]
  }

  lemma StepAt(g: Csr, times: seq<seq<int>>, t: int, width: int, c: seq<nat>, i: nat)
    requires AllAt(g, times, t) && width >= 0 && 0 < i < |c|
    ensures StepsInWindow(g, times, t, width, c, i) <==> g.HasEdge(Edge(c[i], After(c, i))) && c[i] < c[0]
  {
    LinkAt(g, times, t, width, c[0], c[i], After(c, i));
  }

  /** The time-window cycles are then the simple cycles from their largest vertex. */
  lemma TiedCycles(g: Csr, times: seq<seq<int>>, t: int, width: int, cap: Option<nat>, w: WindowCycle)
    requires AllAt(g, times, t) && width >= 0
    ensures IsWindowCycle(g, times, width, cap, w) <==> TiedForms(g, times, cap, w)
  {
    hide StepsInWindow, Csr.HasEdge, IsCycle, After;
    var c := w.vertices;
    CycleByEdges(g, c);
    if 2 <= |c| && w.slot < |times| {
      assert times[w.slot] == [t];
      forall i | 0 < i < |c| ensures StepsInWindow(g, times, t, width, c, i) <==> g.HasEdge(Edge(c[i], After(c, i))) && c[i] < c[0] {
        StepAt(g, times, t, width, c, i);
      }
      if IsWindowCycle(g, times, width, cap, w) {
        forall i | 0 < i < |c| ensures StepsInWindow(g, times, t, width, c, i) {
          assert StepsInWindow(g, times, times[w.slot][w.event], width, c, i);
        }
        WindowIsTied(g, times, t, width, cap, w);
      }
    }
  }

  lemma WindowIsTied(g: Csr, times: seq<seq<int>>, t: int, width: int, cap: Option<nat>, w: WindowCycle)
    requires AllAt(g, times, t) && IsWindowCycle(g, times, width, cap, w)
    requires forall i :: 0 < i < |w.vertices| ==> g.HasEdge(Edge(w.vertices[i], After(w.vertices, i))) && w.vertices[i] < w.vertices[0]
    ensures TiedForms(g, times, cap, w)
  {
    hide StepsInWindow, Csr.HasEdge, IsCycle, After;
    FirstEdge(g, w.vertices, w.slot);
    CycleByEdges(g, w.vertices);
    assert times[w.slot] == [t];
  }

  lemma FirstEdge(g: Csr, c: seq<nat>, slot: nat)
    requires g.Valid() && 2 <= |c| && g.InRow(c[0], slot) && g.targets[slot] == c[1]
    ensures g.HasEdge(Edge(c[0], After(c, 0))) && c[0] < g.Order()
  {
  }

  /** A position of the largest vertex. */
  lemma LargestAt(c: seq<nat>) returns (k: nat)
    requires 0 < |c|
    ensures k < |c| && forall i :: 0 <= i < |c| ==> c[i] <= c[k]
  {
    k := 0;
    for n := 1 to |c|
      invariant k < |c| && forall i :: 0 <= i < n ==> c[i] <= c[k]
    {
      if c[n] > c[k] { k := n; }
    }
  }

  lemma CycleDistinct(g: Csr, c: seq<nat>)
    requires g.Valid() && IsCycle(g, c)
    ensures 2 <= |c| && Distinct(c)
  {
  }

  /** A cycle has one form from its largest vertex. */
  lemma SameLargest(a: seq<nat>, b: seq<nat>)
    requires MaxRooted(a) && MaxRooted(b) && Distinct(a) && Distinct(b) && Canonical(a) == Canonical(b)
    ensures a == b
  {
    var i := RotatedCanonical(a);
    var j := RotatedCanonical(b);
    RotateAfter(a, MinIndex(a), j);
    RotateAfter(b, MinIndex(b), i);
    CanonicalInjective(a, b);
  }

  /** The form from the largest vertex, of a cycle written from its smallest. */
  lemma TiedForm(g: Csr, times: seq<seq<int>>, t: int, width: int, cap: Option<nat>, c: seq<nat>) returns (w: WindowCycle)
    requires AllAt(g, times, t) && width >= 0 && IsCycle(g, c) && MinRooted(c) && WithinCap(cap, |c|)
    ensures |w.vertices| == |c| && Canonical(w.vertices) == c && IsWindowCycle(g, times, width, cap, w)
  {
    hide IsWindowCycle, IsCycle, Canonical, Rotate;
    CycleDistinct(g, c);
    var k := LargestAt(c);
    var d := Rotate(c, k);
    RotateCycle(g, c, k);
    CanonicalOfRotation(c, k);
    RotateLargest(c, k);
    CycleByEdges(g, d);
    assert g.HasEdge(Edge(d[0], After(d, 0)));
    var slot :| g.InRow(d[0], slot) && g.targets[slot] == After(d, 0);
    w := WindowCycle(slot, 0, d);
    TiedCycles(g, times, t, width, cap, w);
  }

  lemma RotateLargest(c: seq<nat>, k: nat)
    requires k < |c| && Distinct(c) && forall i :: 0 <= i < |c| ==> c[i] <= c[k]
    ensures MaxRooted(Rotate(c, k))
  {
    forall i | 0 < i < |c| ensures Rotate(c, k)[i] < Rotate(c, k)[0] {
      RotateAfter(c, k, i);
      RotateAfter(c, k, 0);
      assert Source(|c|, k, i) != k;
    }
  }

  /** Two sets that the canonical form matches one to one have the same size. */
  lemma {:induction false} SameSize(a: set<WindowCycle>, b: set<seq<nat>>)
    requires forall w :: w in a ==> w.vertices != [] && Canonical(w.vertices) in b
    requires forall v, w :: v in a && w in a && Canonical(v.vertices) == Canonical(w.vertices) ==> v == w
    requires forall c :: c in b ==> exists w :: w in a && Canonical(w.vertices) == c
    ensures |a| == |b|
  {
    hide Canonical;
    if w :| w in a {
      forall c | c in b - {Canonical(w.vertices)} ensures exists v :: v in a - {w} && Canonical(v.vertices) == c {
        var v :| v in a && Canonical(v.vertices) == c;
        assert v in a - {w};
      }
      SameSize(a - {w}, b - {Canonical(w.vertices)});
    } else if c :| c in b {
      assert false;
    }
  }

  lemma TiedOnce(g: Csr, times: seq<seq<int>>, t: int, width: int, cap: Option<nat>, v: WindowCycle, w: WindowCycle)
    requires AllAt(g, times, t) && g.Simple() && width >= 0
    requires IsWindowCycle(g, times, width, cap, v) && IsWindowCycle(g, times, width, cap, w)
    requires Canonical(v.vertices) == Canonical(w.vertices)
    ensures v == w
  {
    TiedCycles(g, times, t, width, cap, v);
    TiedCycles(g, times, t, width, cap, w);
    CycleDistinct(g, v.vertices);
    CycleDistinct(g, w.vertices);
    hide IsWindowCycle, IsCycle, Canonical;
    SameLargest(v.vertices, w.vertices);
  }

  lemma TiedIsCycle(g: Csr, times: seq<seq<int>>, t: int, width: int, cap: Option<nat>, w: WindowCycle)
    requires AllAt(g, times, t) && width >= 0 && IsWindowCycle(g, times, width, cap, w)
    ensures var c := w.vertices; c != [] && IsCycle(g, Canonical(c)) && MinRooted(Canonical(c)) && WithinCap(cap, |c|)
  {
    TiedCycles(g, times, t, width, cap, w);
    CycleDistinct(g, w.vertices);
    RotateCycle(g, w.vertices, MinIndex(w.vertices));
    CanonicalIsMinRooted(w.vertices);
  }

  lemma TiedBin(g: Csr, times: seq<seq<int>>, t: int, width: int, cap: Option<nat>, k: nat)
    requires AllAt(g, times, t) && g.Simple() && width >= 0 && WithinCap(cap, 2)
    ensures WindowTotal(g, times, width, cap)[k] == StaticBefore(g, cap, g.Order())[k]
  {
    hide IsWindowCycle, AllWindowCycles, IsCycle, MinRooted, Canonical, Lengths, WindowTotal;
    var a := set w | w in AllWindowCycles(g, times, width, cap) && |w.vertices| == k;
    var b := set c | c in SimpleCycles(g, cap) && |c| == k;
    forall w | w in a ensures IsWindowCycle(g, times, width, cap, w) && w.vertices != [] && Canonical(w.vertices) in b {
      AllWindowCyclesExactly(g, times, width, cap, w);
      TiedIsCycle(g, times, t, width, cap, w);
      SimpleCyclesExactly(g, cap, Canonical(w.vertices));
    }
    forall v, w | v in a && w in a && Canonical(v.vertices) == Canonical(w.vertices) ensures v == w {
      TiedOnce(g, times, t, width, cap, v, w);
    }
    forall c | c in b ensures exists w :: w in a && Canonical(w.vertices) == c {
      SimpleCyclesExactly(g, cap, c);
      var w := TiedForm(g, times, t, width, cap, c);
      AllWindowCyclesExactly(g, times, width, cap, w);
      assert w in a;
    }
    SameSize(a, b);
    WindowTotalCounts(g, times, width, cap, k);
    StaticIsLengths(g, cap, g.Order());
    LengthsBin(SimpleCycles(g, cap), k);
    assert SimpleCycles(g, cap) == CyclesBefore(g, cap, g.Order());
  }

  /** On a graph without parallel edges whose edges all have the one timestamp `t` the time-window run is the static one. */
  lemma TiedIsStatic(g: Csr, times: seq<seq<int>>, t: int, width: int, cap: Option<nat>)
    requires g.Valid() && g.Simple() && |times| == |g.targets| && (forall slot :: 0 <= slot < |times| ==> times[slot] == [t])
    requires width >= 0 && (cap.Some? ==> cap.value >= 2)
    ensures WindowTotal(g, times, width, cap) == StaticBefore(g, cap, g.Order())
  {
    hide WindowTotal, StaticBefore;
    forall k: nat ensures WindowTotal(g, times, width, cap)[k] == StaticBefore(g, cap, g.Order())[k] {
      TiedBin(g, times, t, width, cap, k);
    }
  }
}
