/** The time-window total is the number of time-window cycles, each counted once per start event. */
module WindowCycles {
  import opened CsrGraphs
  import opened CycleSearch
  import opened CycleSets
  import opened CycleTotals
  import opened StartEvents

  /** A start event, as a slot and the position of its timestamp, and the vertices of a cycle through its edge. */
  datatype WindowCycle = WindowCycle(slot: nat, event: nat, vertices: seq<nat>)

  /** An edge from `v` to `w` has a timestamp in the window that `start` opens; below the root the start itself counts too. */
  ghost predicate LinkInWindow(g: Csr, times: seq<seq<int>>, start: int, width: int, root: nat, v: nat, w: nat)
    requires Timed(g, times)
  {
    exists slot, j :: g.InRow(v, slot) && g.targets[slot] == w && 0 <= j < |times[slot]| &&
      start <= times[slot][j] <= start + width && (times[slot][j] == start ==> v < root)
  }

  ghost predicate StepsInWindow(g: Csr, times: seq<seq<int>>, start: int, width: int, c: seq<nat>, i: nat)
    requires Timed(g, times) && 0 < i < |c|
  {
    LinkInWindow(g, times, start, width, c[0], c[i], if i + 1 < |c| then c[i + 1] else c[0])
  }

  /**
   * A time-window cycle: it leaves its first vertex over the edge of the start event, every further edge
   * has some timestamp in the window, in any order, and no vertex from the third on occurred before.
   */
  ghost predicate IsWindowCycle(g: Csr, times: seq<seq<int>>, width: int, cap: Option<nat>, w: WindowCycle)
    requires Timed(g, times)
  {
    var c := w.vertices;
    && 2 <= |c| && WithinCap(cap, |c|)
    && w.slot < |times| && w.event < |times[w.slot]| && g.InRow(c[0], w.slot) && g.targets[w.slot] == c[1]
    && (forall i, j :: 0 <= i < j < |c| && 2 <= j ==> c[i] != c[j])
    && (forall i :: 0 < i < |c| ==> StepsInWindow(g, times, times[w.slot][w.event], width, c, i))
  }

  /** Without self-loops those are simple cycles of the graph. */
  lemma WindowCyclesAreSimple(g: Csr, times: seq<seq<int>>, width: int, cap: Option<nat>, w: WindowCycle)
    requires Timed(g, times) && g.LoopFree() && IsWindowCycle(g, times, width, cap, w)
    ensures IsCycle(g, w.vertices)
  {
    var c := w.vertices;
    forall i | 0 < i < |c| ensures g.HasEdge(Edge(c[i - 1], c[i])) {
      if i > 1 { assert StepsInWindow(g, times, times[w.slot][w.event], width, c, i - 1); }
    }
    assert StepsInWindow(g, times, times[w.slot][w.event], width, c, |c| - 1);
    assert g.HasEdge(Edge(c[0], c[1])) && g.HasEdge(Edge(c[|c| - 1], c[0]));
    forall i | 0 <= i < |c| ensures c[i] < g.Order() {
      if i > 0 { assert g.HasEdge(Edge(c[i - 1], c[i])); }
    }
  }

  /** The search of event `j` of a slot of `root`. */
  function SlotSearch(g: Csr, times: seq<seq<int>>, width: int, cap: Option<nat>, root: nat, slot: nat, j: nat): Search
    requires Timed(g, times) && slot < |times| && j < |times[slot]|
  {
    EventSearch(g, times, width, cap, StartEvent(root, g.targets[slot], times[slot][j]))
  }

  lemma SlotSearchLinks(g: Csr, times: seq<seq<int>>, width: int, cap: Option<nat>, root: nat, slot: nat, j: nat, v: nat, w: nat)
    requires Timed(g, times) && root < g.Order() && slot < |times| && j < |times[slot]|
    ensures Linked(SlotSearch(g, times, width, cap, root, slot, j), v, w) <==> LinkInWindow(g, times, times[slot][j], width, root, v, w)
  {
    var s := SlotSearch(g, times, width, cap, root, slot, j);
    if Linked(s, v, w) {
      var x :| g.InRow(v, x) && s.Takes(v, x) && g.targets[x] == w;
      var k :| 0 <= k < |times[x]| && times[slot][j] <= times[x][k] <= times[slot][j] + width && (times[x][k] == times[slot][j] ==> v < root);
      assert g.InRow(v, x) && times[x][k] <= times[slot][j] + width;
    }
    if LinkInWindow(g, times, times[slot][j], width, root, v, w) {
      var x, k :| g.InRow(v, x) && g.targets[x] == w && 0 <= k < |times[x]| &&
        times[slot][j] <= times[x][k] <= times[slot][j] + width && (times[x][k] == times[slot][j] ==> v < root);
      assert s.Takes(v, x);
    }
  }

  /** The completions of a start event are the window cycles that begin with it. */
  lemma StartCompletions(g: Csr, times: seq<seq<int>>, width: int, cap: Option<nat>, root: nat, slot: nat, j: nat, c: seq<nat>)
    requires Timed(g, times) && g.InRow(root, slot) && j < |times[slot]| && WithinCap(cap, 2)
    ensures var s := SlotSearch(g, times, width, cap, root, slot, j);
            s.Valid() && s.IsPath([root, g.targets[slot]]) &&
            (Completes(s, [root, g.targets[slot]], c) <==> IsWindowCycle(g, times, width, cap, WindowCycle(slot, j, c)) && c[0] == root)
  {
    hide Linked, LinkInWindow;
    var s, p := SlotSearch(g, times, width, cap, root, slot, j), [root, g.targets[slot]];
    forall v: nat, w: nat ensures Linked(s, v, w) <==> LinkInWindow(g, times, times[slot][j], width, root, v, w) {
      SlotSearchLinks(g, times, width, cap, root, slot, j, v, w);
    }
    if Completes(s, p, c) {
      assert c[0] == p[0] && c[1] == p[1];
      forall i, k | 0 <= i < k < |c| && 2 <= k ensures c[i] != c[k] {
        assert c[k] !in c[..k] && c[i] == c[..k][i];
      }
      forall i | 0 < i < |c| ensures StepsInWindow(g, times, times[slot][j], width, c, i) {
        if i + 1 < |c| { assert Linked(s, c[i + 1 - 1], c[i + 1]); }
      }
    }
    if IsWindowCycle(g, times, width, cap, WindowCycle(slot, j, c)) && c[0] == root {
      assert p <= c;
      forall i | 2 <= i < |c| ensures Linked(s, c[i - 1], c[i]) {
        assert StepsInWindow(g, times, times[slot][j], width, c, i - 1);
      }
      assert StepsInWindow(g, times, times[slot][j], width, c, |c| - 1);
    }
  }

  // ---- The cycles of a run ----

  /** The cycles, each with its start event. */
  ghost function Marked(slot: nat, event: nat, cycles: set<seq<nat>>): set<WindowCycle> {
    set c | c in cycles :: WindowCycle(slot, event, c)
  }

  /** The cycles of the first `n` events of a slot. */
  ghost function SlotCycles(g: Csr, times: seq<seq<int>>, width: int, cap: Option<nat>, root: nat, slot: nat, n: nat): set<WindowCycle>
    requires Timed(g, times) && g.InRow(root, slot) && n <= |times[slot]|
  {
    if n == 0 then {}
    else
      SlotCycles(g, times, width, cap, root, slot, n - 1) +
      Marked(slot, n - 1, Found(SlotSearch(g, times, width, cap, root, slot, n - 1), [root, g.targets[slot]], g.Begin(g.targets[slot])))
  }

  ghost function RowCycles(g: Csr, times: seq<seq<int>>, width: int, cap: Option<nat>, root: nat, limit: nat): set<WindowCycle>
    requires Timed(g, times) && root < g.Order() && g.Begin(root) <= limit <= g.End(root)
    decreases limit
  {
    if limit == g.Begin(root) then {}
    else RowCycles(g, times, width, cap, root, limit - 1) + SlotCycles(g, times, width, cap, root, limit - 1, |times[limit - 1]|)
  }

  ghost function RootsCycles(g: Csr, times: seq<seq<int>>, width: int, cap: Option<nat>, n: nat): set<WindowCycle>
    requires Timed(g, times) && n <= g.Order()
  {
    if n == 0 then {} else RootsCycles(g, times, width, cap, n - 1) + RowCycles(g, times, width, cap, n - 1, g.End(n - 1))
  }

  /** The cycles a time-window run finds. */
  ghost function AllWindowCycles(g: Csr, times: seq<seq<int>>, width: int, cap: Option<nat>): set<WindowCycle>
    requires Timed(g, times)
  {
    RootsCycles(g, times, width, cap, g.Order())
  }

  // ---- Which cycles those are ----

  lemma EventFinds(g: Csr, times: seq<seq<int>>, width: int, cap: Option<nat>, root: nat, slot: nat, j: nat, w: WindowCycle)
    requires Timed(g, times) && g.InRow(root, slot) && j < |times[slot]| && WithinCap(cap, 2)
    ensures var s := SlotSearch(g, times, width, cap, root, slot, j);
            AtSlot(s, [root, g.targets[slot]], g.Begin(g.targets[slot])) &&
            (w in Marked(slot, j, Found(s, [root, g.targets[slot]], g.Begin(g.targets[slot]))) <==>
             IsWindowCycle(g, times, width, cap, w) && w.vertices[0] == root && w.slot == slot && w.event == j)
  {
    hide IsWindowCycle, Completes, Found;
    StartCompletions(g, times, width, cap, root, slot, j, w.vertices);
    FoundExactly(SlotSearch(g, times, width, cap, root, slot, j), [root, g.targets[slot]], w.vertices);
    assert w == WindowCycle(w.slot, w.event, w.vertices);
  }

  lemma {:induction false} SlotExactly(g: Csr, times: seq<seq<int>>, width: int, cap: Option<nat>, root: nat, slot: nat, n: nat, w: WindowCycle)
    requires Timed(g, times) && g.InRow(root, slot) && n <= |times[slot]| && WithinCap(cap, 2)
    ensures w in SlotCycles(g, times, width, cap, root, slot, n) <==>
            IsWindowCycle(g, times, width, cap, w) && w.vertices[0] == root && w.slot == slot && w.event < n
  {
    hide IsWindowCycle, Marked, Found;
    if n > 0 {
      SlotExactly(g, times, width, cap, root, slot, n - 1, w);
      EventFinds(g, times, width, cap, root, slot, n - 1, w);
    }
  }

  lemma {:induction false} RowExactly(g: Csr, times: seq<seq<int>>, width: int, cap: Option<nat>, root: nat, limit: nat, w: WindowCycle)
    requires Timed(g, times) && root < g.Order() && g.Begin(root) <= limit <= g.End(root) && WithinCap(cap, 2)
    ensures w in RowCycles(g, times, width, cap, root, limit) <==>
            IsWindowCycle(g, times, width, cap, w) && w.vertices[0] == root && w.slot < limit
    decreases limit
  {
    if limit > g.Begin(root) {
      RowExactly(g, times, width, cap, root, limit - 1, w);
      SlotExactly(g, times, width, cap, root, limit - 1, |times[limit - 1]|, w);
    }
  }

  lemma {:induction false} RootsExactly(g: Csr, times: seq<seq<int>>, width: int, cap: Option<nat>, n: nat, w: WindowCycle)
    requires Timed(g, times) && n <= g.Order() && WithinCap(cap, 2)
    ensures w in RootsCycles(g, times, width, cap, n) <==> IsWindowCycle(g, times, width, cap, w) && w.vertices[0] < n
  {
    if n > 0 {
      RootsExactly(g, times, width, cap, n - 1, w);
      RowExactly(g, times, width, cap, n - 1, g.End(n - 1), w);
    }
  }

  /** The run finds exactly the time-window cycles. */
  lemma AllWindowCyclesExactly(g: Csr, times: seq<seq<int>>, width: int, cap: Option<nat>, w: WindowCycle)
    requires Timed(g, times) && WithinCap(cap, 2)
    ensures w in AllWindowCycles(g, times, width, cap) <==> IsWindowCycle(g, times, width, cap, w)
  {
    RootsExactly(g, times, width, cap, g.Order(), w);
  }

  /**
   * The events of a cycle that the run finds: its first edge has the start event, and from every further vertex
   * an edge leads to the next one with a timestamp inside the window, at its start only below the root.
   */
  lemma WindowCycleHasEvents(g: Csr, times: seq<seq<int>>, width: int, cap: Option<nat>, slot: nat, event: nat, c: seq<nat>, i: nat)
    requires Timed(g, times) && (cap.Some? ==> cap.value >= 2) && WindowCycle(slot, event, c) in AllWindowCycles(g, times, width, cap)
    requires i < |c|
    ensures 2 <= |c| && (cap.Some? ==> |c| <= cap.value) && forall k, m :: 0 <= k < m < |c| && 2 <= m ==> c[k] != c[m]
    ensures slot < |times| && event < |times[slot]| && g.InRow(c[0], slot) && g.targets[slot] == c[1]
    ensures var start := times[slot][event];
            i > 0 ==>
              exists x, j :: g.InRow(c[i], x) && g.targets[x] == (c + [c[0]])[i + 1] && 0 <= j < |times[x]| &&
                start <= times[x][j] <= start + width && (times[x][j] == start ==> c[i] < c[0])
  {
    hide AllWindowCycles, StepsInWindow;
    AllWindowCyclesExactly(g, times, width, cap, WindowCycle(slot, event, c));
    if i > 0 {
      StepEvents(g, times, times[slot][event], width, c, i);
    }
  }

  /** And the run finds every cycle with such events. */
  lemma EventsMakeWindowCycle(g: Csr, times: seq<seq<int>>, width: int, cap: Option<nat>, slot: nat, event: nat, c: seq<nat>)
    requires Timed(g, times) && 2 <= |c| && (cap.Some? ==> |c| <= cap.value)
    requires forall k, m :: 0 <= k < m < |c| && 2 <= m ==> c[k] != c[m]
    requires slot < |times| && event < |times[slot]| && g.InRow(c[0], slot) && g.targets[slot] == c[1]
    requires var start := times[slot][event];
             forall i :: 0 < i < |c| ==>
               exists x, j :: g.InRow(c[i], x) && g.targets[x] == (c + [c[0]])[i + 1] && 0 <= j < |times[x]| &&
                 start <= times[x][j] <= start + width && (times[x][j] == start ==> c[i] < c[0])
    ensures WindowCycle(slot, event, c) in AllWindowCycles(g, times, width, cap)
  {
    hide AllWindowCycles, StepsInWindow;
    forall i | 0 < i < |c| ensures StepsInWindow(g, times, times[slot][event], width, c, i) {
      StepEvents(g, times, times[slot][event], width, c, i);
    }
    AllWindowCyclesExactly(g, times, width, cap, WindowCycle(slot, event, c));
  }

  lemma StepEvents(g: Csr, times: seq<seq<int>>, start: int, width: int, c: seq<nat>, i: nat)
    requires Timed(g, times) && 0 < i < |c|
    ensures StepsInWindow(g, times, start, width, c, i) <==>
            exists x, j :: g.InRow(c[i], x) && g.targets[x] == (c + [c[0]])[i + 1] && 0 <= j < |times[x]| &&
              start <= times[x][j] <= start + width && (times[x][j] == start ==> c[i] < c[0])
  {
  }

  // ---- Counting them ----

  /** How many of the cycles have length `k`. */
  ghost function Bin(cycles: set<WindowCycle>, k: nat): nat {
    |set w | w in cycles && |w.vertices| == k|
  }

  lemma BinUnion(a: set<WindowCycle>, b: set<WindowCycle>, k: nat)
    requires a !! b
    ensures Bin(a + b, k) == Bin(a, k) + Bin(b, k)
  {
    var x, y := set w | w in a && |w.vertices| == k, set w | w in b && |w.vertices| == k;
    assert (set w | w in a + b && |w.vertices| == k) == x + y && x !! y;
  }

  lemma {:induction false} BinMarked(slot: nat, event: nat, cycles: set<seq<nat>>, k: nat)
    ensures Bin(Marked(slot, event, cycles), k) == Lengths(cycles)[k]
    decreases cycles
  {
    hide Lengths;
    if c :| c in cycles {
      BinMarked(slot, event, cycles - {c}, k);
      LengthsRemove(cycles, c);
      assert Marked(slot, event, cycles) == Marked(slot, event, cycles - {c}) + {WindowCycle(slot, event, c)};
      BinUnion(Marked(slot, event, cycles - {c}), {WindowCycle(slot, event, c)}, k);
      BinOne(WindowCycle(slot, event, c), k);
    } else {
      assert cycles == {} && Marked(slot, event, cycles) == {};
      LengthsEmpty<nat>();
    }
  }

  lemma BinOne(w: WindowCycle, k: nat)
    ensures Bin({w}, k) == if |w.vertices| == k then 1 else 0
  {
    var only := {w};
    var bin := set v | v in only && |v.vertices| == k;
    if |w.vertices| == k {
      assert bin == {w} && |{w}| == 1;
    } else {
      assert bin == {};
    }
  }

  lemma {:induction false} SlotSumCounts(g: Csr, times: seq<seq<int>>, width: int, cap: Option<nat>, root: nat, slot: nat, n: nat, k: nat)
    requires Timed(g, times) && g.Simple() && g.InRow(root, slot) && n <= |times[slot]| && WithinCap(cap, 2)
    ensures SlotSum(WindowTally(g, times, width, cap), g, times, root, slot, n)[k] ==
            Bin(SlotCycles(g, times, width, cap, root, slot, n), k)
  {
    hide Lengths, IsWindowCycle, Bin, Marked, Found, Owed;
    if n > 0 {
      var s, p := SlotSearch(g, times, width, cap, root, slot, n - 1), [root, g.targets[slot]];
      assert s.g == g && s.IsPath(p);
      var found := Found(s, p, g.Begin(g.targets[slot]));
      var before, here := SlotCycles(g, times, width, cap, root, slot, n - 1), Marked(slot, n - 1, found);
      SlotSumCounts(g, times, width, cap, root, slot, n - 1, k);
      OwedIsLengths(s, p, g.Begin(g.targets[slot]));
      BinMarked(slot, n - 1, found, k);
      forall w | w in here ensures w !in before {
        EventFinds(g, times, width, cap, root, slot, n - 1, w);
        SlotExactly(g, times, width, cap, root, slot, n - 1, w);
      }
      BinUnion(before, here, k);
    } else {
      NoCycles(k);
    }
  }

  lemma NoCycles(k: nat)
    ensures Bin({}, k) == 0
  {
  }

  lemma {:induction false} RowSumCounts(g: Csr, times: seq<seq<int>>, width: int, cap: Option<nat>, root: nat, limit: nat, k: nat)
    requires Timed(g, times) && g.Simple() && root < g.Order() && g.Begin(root) <= limit <= g.End(root) && WithinCap(cap, 2)
    ensures RowSum(WindowTally(g, times, width, cap), g, times, root, limit)[k] == Bin(RowCycles(g, times, width, cap, root, limit), k)
    decreases limit
  {
    hide IsWindowCycle, SlotCycles, WindowTally, Bin;
    if limit > g.Begin(root) {
      var before, here := RowCycles(g, times, width, cap, root, limit - 1),
                          SlotCycles(g, times, width, cap, root, limit - 1, |times[limit - 1]|);
      RowSumCounts(g, times, width, cap, root, limit - 1, k);
      SlotSumCounts(g, times, width, cap, root, limit - 1, |times[limit - 1]|, k);
      forall w | w in here ensures w !in before {
        SlotExactly(g, times, width, cap, root, limit - 1, |times[limit - 1]|, w);
        RowExactly(g, times, width, cap, root, limit - 1, w);
      }
      BinUnion(before, here, k);
    } else {
      NoCycles(k);
    }
  }

  lemma {:induction false} EventSumCounts(g: Csr, times: seq<seq<int>>, width: int, cap: Option<nat>, n: nat, k: nat)
    requires Timed(g, times) && g.Simple() && n <= g.Order() && WithinCap(cap, 2)
    ensures EventSum(WindowTally(g, times, width, cap), g, times, n)[k] == Bin(RootsCycles(g, times, width, cap, n), k)
  {
    hide IsWindowCycle, RowCycles, WindowTally, RowSum, Bin;
    if n > 0 {
      var before, here := RootsCycles(g, times, width, cap, n - 1), RowCycles(g, times, width, cap, n - 1, g.End(n - 1));
      EventSumCounts(g, times, width, cap, n - 1, k);
      RowSumCounts(g, times, width, cap, n - 1, g.End(n - 1), k);
      forall w | w in here ensures w !in before {
        RowExactly(g, times, width, cap, n - 1, g.End(n - 1), w);
        RootsExactly(g, times, width, cap, n - 1, w);
      }
      BinUnion(before, here, k);
    } else {
      NoCycles(k);
    }
  }

  /** Every time-window run counts each time-window cycle once per start event, and nothing else. */
  lemma WindowTotalCounts(g: Csr, times: seq<seq<int>>, width: int, cap: Option<nat>, k: nat)
    requires Timed(g, times) && g.Simple() && WithinCap(cap, 2)
    ensures WindowTotal(g, times, width, cap)[k] == |set w | w in AllWindowCycles(g, times, width, cap) && |w.vertices| == k|
  {
    EventSumCounts(g, times, width, cap, g.Order(), k);
  }
}
