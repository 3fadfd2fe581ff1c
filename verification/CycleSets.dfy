/**
 * What the exhaustive search means: the histogram it owes is the histogram of a set of cycles, and
 * that set is described without reference to any search.
 */
module CycleSets {
  import opened CsrGraphs
  import opened CycleSearch
  import opened CycleTotals

  // ---- Histograms of sets of cycles ----

  /** How many cycles of each length the set holds. */
  ghost function Lengths<T>(cycles: set<seq<T>>): Histogram {
    if cycles == {} then multiset{}
    else
      var c :| c in cycles;
      Lengths(cycles - {c}) + multiset{|c|}
  }

  lemma LengthsEmpty<T>()
    ensures Lengths<T>({}) == multiset{}
  {
  }

  lemma {:induction false} LengthsRemove<T>(cycles: set<seq<T>>, c: seq<T>)
    requires c in cycles
    ensures Lengths(cycles) == Lengths(cycles - {c}) + multiset{|c|}
  {
    var d :| d in cycles && Lengths(cycles) == Lengths(cycles - {d}) + multiset{|d|};
    if d != c {
      LengthsRemove(cycles - {d}, c);
      LengthsRemove(cycles - {c}, d);
      assert cycles - {d} - {c} == cycles - {c} - {d};
    }
  }

  lemma {:induction false} LengthsUnion<T>(a: set<seq<T>>, b: set<seq<T>>)
    requires a !! b
    ensures Lengths(a + b) == Lengths(a) + Lengths(b)
  {
    if c :| c in a {
      LengthsUnion(a - {c}, b);
      LengthsRemove(a, c);
      LengthsRemove(a + b, c);
      assert a + b - {c} == a - {c} + b;
    } else {
      assert a + b == b;
    }
  }

  /** The bin of length `k` is the number of cycles of length `k`. */
  lemma {:induction false} LengthsBin<T>(cycles: set<seq<T>>, k: nat)
    ensures Lengths(cycles)[k] == |set c | c in cycles && |c| == k|
  {
    hide Lengths;
    var bin := set c | c in cycles && |c| == k;
    if c :| c in cycles {
      LengthsRemove(cycles, c);
      LengthsBin(cycles - {c}, k);
      var rest := set d | d in cycles - {c} && |d| == k;
      if |c| == k {
        assert bin == rest + {c} && c !in rest;
      } else {
        assert bin == rest;
      }
    } else {
      assert cycles == {} && bin == {};
      LengthsEmpty<T>();
    }
  }

  // ---- The cycles a search finds ----

  /** The cycles recorded below the slots of the last row from `slot` on. */
  ghost function Found(s: Search, p: seq<nat>, slot: nat): set<seq<nat>>
    requires AtSlot(s, p, slot)
    decreases s.Free(p), s.Limit(p) - slot
  {
    if slot == s.Limit(p) then {} else FoundAt(s, p, slot) + Found(s, p, slot + 1)
  }

  ghost function FoundAt(s: Search, p: seq<nat>, slot: nat): set<seq<nat>>
    requires AtSlot(s, p, slot) && slot < s.Limit(p)
    decreases s.Free(p), s.Limit(p) - slot, 0
  {
    var next := s.g.targets[slot];
    if !s.Takes(s.Last(p), slot) then {}
    else if next == s.root && |p| >= 2 then {p}
    else if next in p || !s.MayGrow(|p|) then {}
    else
      assert next in s.Free(p) && next !in s.Free(p + [next]);
      Found(s, p + [next], s.g.Begin(next))
  }

  /** Where a recorded cycle leaves the path tells which slot recorded it. */
  ghost predicate Through(s: Search, p: seq<nat>, slot: nat, c: seq<nat>)
    requires AtSlot(s, p, slot) && slot < s.Limit(p)
  {
    var next := s.g.targets[slot];
    p <= c && if next == s.root && |p| >= 2 then c == p else |p| < |c| && c[|p|] == next
  }

  lemma {:induction false} FoundThrough(s: Search, p: seq<nat>, slot: nat, c: seq<nat>)
    requires AtSlot(s, p, slot) && c in Found(s, p, slot)
    ensures exists x :: slot <= x < s.Limit(p) && Through(s, p, x, c) && c in FoundAt(s, p, x)
    decreases s.Free(p), s.Limit(p) - slot
  {
    if c in FoundAt(s, p, slot) {
      FoundAtThrough(s, p, slot, c);
    } else {
      FoundThrough(s, p, slot + 1, c);
    }
  }

  lemma {:induction false} FoundAtThrough(s: Search, p: seq<nat>, slot: nat, c: seq<nat>)
    requires AtSlot(s, p, slot) && slot < s.Limit(p) && c in FoundAt(s, p, slot)
    ensures Through(s, p, slot, c)
    decreases s.Free(p), s.Limit(p) - slot, 0
  {
    var next := s.g.targets[slot];
    if !(next == s.root && |p| >= 2) {
      assert next in s.Free(p) && next !in s.Free(p + [next]);
      FoundThrough(s, p + [next], s.g.Begin(next), c);
    }
  }

  /** Nothing is recorded twice: what is owed is the histogram of the set of found cycles. */
  lemma {:induction false} OwedIsLengths(s: Search, p: seq<nat>, slot: nat)
    requires AtSlot(s, p, slot) && s.g.Simple()
    ensures Owed(s, p, slot) == Lengths(Found(s, p, slot))
    decreases s.Free(p), s.Limit(p) - slot
  {
    if slot < s.Limit(p) {
      var here, later := FoundAt(s, p, slot), Found(s, p, slot + 1);
      forall c | c in here && c in later ensures false {
        FoundAtThrough(s, p, slot, c);
        FoundThrough(s, p, slot + 1, c);
        var x :| slot < x < s.Limit(p) && Through(s, p, x, c);
        assert s.g.InRow(s.Last(p), slot) && s.g.InRow(s.Last(p), x);
      }
      LengthsUnion(here, later);
      OwedIsLengths(s, p, slot + 1);
      BranchIsLengths(s, p, slot);
    }
  }

  lemma {:induction false} BranchIsLengths(s: Search, p: seq<nat>, slot: nat)
    requires AtSlot(s, p, slot) && slot < s.Limit(p) && s.g.Simple()
    ensures Branch(s, p, slot) == Lengths(FoundAt(s, p, slot))
    decreases s.Free(p), s.Limit(p) - slot, 0
  {
    var next := s.g.targets[slot];
    if s.Takes(s.Last(p), slot) {
      if next == s.root && |p| >= 2 {
        LengthsRemove({p}, p);
      } else if next !in p && s.MayGrow(|p|) {
        assert next in s.Free(p) && next !in s.Free(p + [next]);
        OwedIsLengths(s, p + [next], s.g.Begin(next));
      }
    }
  }

  // ---- Which cycles those are ----

  /** `c` continues `p` without repeating a vertex, along links, and closes at the root. */
  ghost predicate Completes(s: Search, p: seq<nat>, c: seq<nat>)
    requires s.Valid()
  {
    && 2 <= |c| && 1 <= |p| && p <= c
    && (forall i :: |p| <= i < |c| ==> c[i] !in c[..i])
    && (forall i :: |p| <= i < |c| ==> Linked(s, c[i - 1], c[i]))
    && Linked(s, c[|c| - 1], s.root)
    && (|p| < |c| && s.cap.Some? ==> |c| <= s.cap.value)
  }

  lemma CompletesStep(s: Search, p: seq<nat>, c: seq<nat>)
    requires s.Valid() && s.IsPath(p) && p < c
    requires c[|p|] < s.g.Order()
    ensures Completes(s, p, c) <==>
            c[|p|] !in p && Linked(s, s.Last(p), c[|p|]) && s.MayGrow(|p|) && Completes(s, p + [c[|p|]], c)
  {
    var q := p + [c[|p|]];
    assert q <= c && c[..|p|] == p;
  }

  /** A search finds exactly the completions of its path. */
  lemma {:induction false} FoundExactly(s: Search, p: seq<nat>, c: seq<nat>)
    requires s.Valid() && s.IsPath(p)
    ensures c in Found(s, p, s.First(p)) <==> Completes(s, p, c)
    decreases s.Free(p), 1
  {
    if c in Found(s, p, s.First(p)) {
      FoundThrough(s, p, s.First(p), c);
      var x :| s.First(p) <= x < s.Limit(p) && Through(s, p, x, c) && c in FoundAt(s, p, x);
      assert s.g.InRow(s.Last(p), x);
      FoundAtExactly(s, p, x, c);
    }
    if Completes(s, p, c) {
      var w := if c == p then s.root else c[|p|];
      assert Linked(s, s.Last(p), w);
      var x :| s.g.InRow(s.Last(p), x) && s.Takes(s.Last(p), x) && s.g.targets[x] == w;
      if c != p { assert p[0] in c[..|p|]; }
      FoundAtExactly(s, p, x, c);
      FoundGrows(s, p, s.First(p), x, c);
    }
  }

  lemma {:induction false} FoundGrows(s: Search, p: seq<nat>, slot: nat, x: nat, c: seq<nat>)
    requires AtSlot(s, p, slot) && slot <= x < s.Limit(p) && c in FoundAt(s, p, x)
    ensures c in Found(s, p, slot)
    decreases x - slot
  {
    if slot < x {
      FoundGrows(s, p, slot + 1, x, c);
    }
  }

  /** One usable slot finds exactly the completions that leave the path through it. */
  lemma {:induction false} FoundAtExactly(s: Search, p: seq<nat>, slot: nat, c: seq<nat>)
    requires AtSlot(s, p, slot) && slot < s.Limit(p)
    ensures c in FoundAt(s, p, slot) <==> s.Takes(s.Last(p), slot) && Through(s, p, slot, c) && Completes(s, p, c)
    decreases s.Free(p), 0
  {
    var next := s.g.targets[slot];
    assert s.g.InRow(s.Last(p), slot);
    if s.Takes(s.Last(p), slot) {
      assert Linked(s, s.Last(p), next);
      if p < c && c[|p|] == next {
        CompletesStep(s, p, c);
      }
      if !(next == s.root && |p| >= 2) && next !in p && s.MayGrow(|p|) {
        assert next in s.Free(p) && next !in s.Free(p + [next]);
        FoundExactly(s, p + [next], c);
      }
    }
  }

  // ---- Static simple cycles ----

  /** A simple cycle, written from any of its vertices. */
  ghost predicate IsCycle(g: Csr, c: seq<nat>)
    requires g.Valid()
  {
    && 2 <= |c|
    && (forall i :: 0 <= i < |c| ==> c[i] < g.Order())
    && (forall i, j :: 0 <= i < j < |c| ==> c[i] != c[j])
    && (forall i :: 0 < i < |c| ==> g.HasEdge(Edge(c[i - 1], c[i])))
    && g.HasEdge(Edge(c[|c| - 1], c[0]))
  }

  /** Written from its smallest vertex: one form per cycle. */
  ghost predicate MinRooted(c: seq<nat>) {
    0 < |c| && forall i :: 0 < i < |c| ==> c[0] < c[i]
  }

  /** The simple cycles of the roots below `n`, each once. */
  ghost function CyclesBefore(g: Csr, cap: Option<nat>, n: nat): set<seq<nat>>
    requires g.Valid() && n <= g.Order()
  {
    if n == 0 then {}
    else CyclesBefore(g, cap, n - 1) + Found(RootSearch(g, cap, n - 1), [n - 1], g.Begin(n - 1))
  }

  /** All simple cycles up to the cap. */
  ghost function SimpleCycles(g: Csr, cap: Option<nat>): set<seq<nat>>
    requires g.Valid()
  {
    CyclesBefore(g, cap, g.Order())
  }

  lemma RootSearchLinks(g: Csr, cap: Option<nat>, root: nat, v: nat, w: nat)
    requires g.Valid() && root < g.Order()
    ensures Linked(RootSearch(g, cap, root), v, w) <==> g.HasEdge(Edge(v, w)) && root <= w
  {
    var s := RootSearch(g, cap, root);
    if g.HasEdge(Edge(v, w)) && root <= w {
      var slot :| g.InRow(v, slot) && g.targets[slot] == w;
      assert s.Takes(v, slot);
    }
  }

  /** The completions of a lone root are the min-rooted cycles of that root. */
  lemma RootCompletions(g: Csr, cap: Option<nat>, root: nat, c: seq<nat>)
    requires g.Valid() && root < g.Order()
    requires cap.Some? ==> cap.value >= 2
    ensures Completes(RootSearch(g, cap, root), [root], c) <==>
            IsCycle(g, c) && MinRooted(c) && c[0] == root && WithinCap(cap, |c|)
  {
    var s := RootSearch(g, cap, root);
    forall v: nat, w: nat ensures Linked(s, v, w) <==> g.HasEdge(Edge(v, w)) && root <= w {
      RootSearchLinks(g, cap, root, v, w);
    }
    if Completes(s, [root], c) {
      forall i | 0 < i < |c| ensures g.HasEdge(Edge(c[i - 1], c[i])) && root <= c[i] < g.Order() {
        assert Linked(s, c[i - 1], c[i]);
      }
      forall i, j | 0 <= i < j < |c| ensures c[i] != c[j] {
        assert c[j] !in c[..j] && c[i] == c[..j][i];
      }
    }
    if IsCycle(g, c) && MinRooted(c) && c[0] == root && WithinCap(cap, |c|) {
      assert [root] <= c;
    }
  }

  /** The search of one root finds the min-rooted cycles of that root. */
  lemma RootFinds(g: Csr, cap: Option<nat>, root: nat, c: seq<nat>)
    requires g.Valid() && root < g.Order()
    requires cap.Some? ==> cap.value >= 2
    ensures c in Found(RootSearch(g, cap, root), [root], g.Begin(root)) <==>
            IsCycle(g, c) && MinRooted(c) && c[0] == root && WithinCap(cap, |c|)
  {
    hide IsCycle, Completes, Found;
    RootCompletions(g, cap, root, c);
    FoundExactly(RootSearch(g, cap, root), [root], c);
  }

  /** The search from all roots finds every simple cycle, in its min-rooted form. */
  lemma {:induction false} CyclesBeforeExactly(g: Csr, cap: Option<nat>, n: nat, c: seq<nat>)
    requires g.Valid() && n <= g.Order()
    requires cap.Some? ==> cap.value >= 2
    ensures c in CyclesBefore(g, cap, n) <==> IsCycle(g, c) && MinRooted(c) && c[0] < n && WithinCap(cap, |c|)
  {
    hide Found, IsCycle;
    if n > 0 {
      CyclesBeforeExactly(g, cap, n - 1, c);
      RootFinds(g, cap, n - 1, c);
    }
  }

  lemma SimpleCyclesExactly(g: Csr, cap: Option<nat>, c: seq<nat>)
    requires g.Valid()
    requires cap.Some? ==> cap.value >= 2
    ensures c in SimpleCycles(g, cap) <==> IsCycle(g, c) && MinRooted(c) && WithinCap(cap, |c|)
  {
    CyclesBeforeExactly(g, cap, g.Order(), c);
  }

  /** The static run counts each simple cycle once and nothing else. */
  lemma {:induction false} StaticIsLengths(g: Csr, cap: Option<nat>, n: nat)
    requires g.Valid() && g.Simple() && n <= g.Order()
    requires cap.Some? ==> cap.value >= 2
    ensures StaticBefore(g, cap, n) == Lengths(CyclesBefore(g, cap, n))
  {
    hide Lengths, Found, Owed, IsCycle, MinRooted;
    if n > 0 {
      var s, before := RootSearch(g, cap, n - 1), CyclesBefore(g, cap, n - 1);
      StaticIsLengths(g, cap, n - 1);
      OwedIsLengths(s, [n - 1], g.Begin(n - 1));
      forall c | c in before ensures c !in Found(s, [n - 1], g.Begin(n - 1)) {
        CyclesBeforeExactly(g, cap, n - 1, c);
        RootFinds(g, cap, n - 1, c);
      }
      LengthsUnion(before, Found(s, [n - 1], g.Begin(n - 1)));
    } else {
      LengthsEmpty<nat>();
    }
  }
}
