/**
 * Splitting the static search: cycles shorter than the cutoff are counted at once, and every path of
 * the cutoff length that can still close or grow becomes an independent work item.
 */
module BranchSplit {
  import opened CsrGraphs
  import opened Clipping
  import opened CycleSearch
  import opened CycleSets
  import opened CycleTotals
  import opened StackMachine

  /** Some slot of the last vertex closes a cycle or can be followed. */
  ghost predicate HasWork(s: Search, p: seq<nat>)
    requires s.Valid() && s.IsPath(p)
  {
    exists slot :: s.g.InRow(s.Last(p), slot) && (Closes(s, p, slot) || Descends(s, p, slot))
  }

  /** The work items below `p` from `slot` on, in the order the search meets them. */
  ghost function Prefixes(s: Search, p: seq<nat>, slot: nat, cutoff: nat): seq<seq<nat>>
    requires AtSlot(s, p, slot)
    decreases s.Free(p), s.Limit(p) - slot
  {
    if slot == s.Limit(p) then [] else PrefixesAt(s, p, slot, cutoff) + Prefixes(s, p, slot + 1, cutoff)
  }

  ghost function PrefixesAt(s: Search, p: seq<nat>, slot: nat, cutoff: nat): seq<seq<nat>>
    requires AtSlot(s, p, slot) && slot < s.Limit(p)
    decreases s.Free(p), s.Limit(p) - slot, 0
  {
    if !Descends(s, p, slot) then []
    else
      var next := s.g.targets[slot];
      assert next in s.Free(p) && next !in s.Free(p + [next]);
      if |p| + 1 < cutoff then Prefixes(s, p + [next], s.g.Begin(next), cutoff)
      else if HasWork(s, p + [next]) then [p + [next]]
      else []
  }

  // ---- What the items are ----

  /** A path without further work has no cycle below it. */
  lemma NoWorkNoCycle(s: Search, p: seq<nat>)
    requires s.Valid() && s.IsPath(p) && !HasWork(s, p)
    ensures Subtree(s, p) == multiset{}
  {
    NoWorkBelow(s, p, s.First(p));
  }

  lemma {:induction false} NoWorkBelow(s: Search, p: seq<nat>, slot: nat)
    requires AtSlot(s, p, slot) && !HasWork(s, p)
    ensures Owed(s, p, slot) == multiset{}
    decreases s.Limit(p) - slot
  {
    if slot < s.Limit(p) {
      assert s.g.InRow(s.Last(p), slot);
      SlotOutcome(s, p, slot);
      NoWorkBelow(s, p, slot + 1);
    }
  }

  ghost predicate IsItem(s: Search, p: seq<nat>, cutoff: nat, item: seq<nat>) {
    |item| == cutoff && p <= item && s.IsPath(item)
  }

  lemma {:induction false} PrefixesAreItems(s: Search, p: seq<nat>, slot: nat, cutoff: nat, i: nat)
    requires AtSlot(s, p, slot) && |p| < cutoff && i < |Prefixes(s, p, slot, cutoff)|
    ensures IsItem(s, p, cutoff, Prefixes(s, p, slot, cutoff)[i])
    decreases s.Free(p), s.Limit(p) - slot
  {
    var here := PrefixesAt(s, p, slot, cutoff);
    var next := s.g.targets[slot];
    if i < |here| {
      assert next in s.Free(p) && next !in s.Free(p + [next]);
      if |p| + 1 < cutoff {
        PrefixesAreItems(s, p + [next], s.g.Begin(next), cutoff, i);
      }
    } else {
      PrefixesAreItems(s, p, slot + 1, cutoff, i - |here|);
    }
  }

  ghost predicate ItemFits(g: Csr, item: seq<nat>) {
    item != [] && forall i :: 0 <= i < |item| ==> item[i] < g.Order()
  }

  ghost predicate AllFit(g: Csr, items: seq<seq<nat>>) {
    g.Valid() && forall i :: 0 <= i < |items| ==> ItemFits(g, items[i])
  }

  /** What the device finds when it continues from the items. */
  ghost function ItemsOwe(g: Csr, cap: Option<nat>, items: seq<seq<nat>>): Histogram
    requires AllFit(g, items)
  {
    if items == [] then multiset{}
    else
      var item := items[|items| - 1];
      assert ItemFits(g, item);
      ItemsOwe(g, cap, items[..|items| - 1]) + Subtree(RootSearch(g, cap, item[0]), item)
  }

  lemma ItemsOweSnoc(g: Csr, cap: Option<nat>, items: seq<seq<nat>>, item: seq<nat>)
    requires AllFit(g, items) && ItemFits(g, item)
    ensures AllFit(g, items + [item])
    ensures RootSearch(g, cap, item[0]).Valid() && RootSearch(g, cap, item[0]).IsPath(item)
    ensures ItemsOwe(g, cap, items + [item]) == ItemsOwe(g, cap, items) + Subtree(RootSearch(g, cap, item[0]), item)
  {
    hide Subtree;
    assert (items + [item])[..|items + [item]| - 1] == items;
  }

  lemma NoItems(g: Csr, cap: Option<nat>)
    requires g.Valid()
    ensures AllFit(g, []) && ItemsOwe(g, cap, []) == multiset{}
  {
  }

  lemma LastFits(g: Csr, items: seq<seq<nat>>)
    requires AllFit(g, items) && items != []
    ensures AllFit(g, items[..|items| - 1]) && ItemFits(g, items[|items| - 1])
  {
  }

  lemma {:induction false} ItemsOweJoin(g: Csr, cap: Option<nat>, a: seq<seq<nat>>, b: seq<seq<nat>>)
    requires AllFit(g, a) && AllFit(g, b)
    ensures AllFit(g, a + b) && ItemsOwe(g, cap, a + b) == ItemsOwe(g, cap, a) + ItemsOwe(g, cap, b)
  {
    hide AllFit, ItemFits, ItemsOwe, Subtree;
    if b == [] {
      assert a + b == a;
      ValidOf(g, a);
      NoItems(g, cap);
    } else {
      var front, item := b[..|b| - 1], b[|b| - 1];
      LastFits(g, b);
      ItemsOweJoin(g, cap, a, front);
      ItemsOweSnoc(g, cap, a + front, item);
      ItemsOweSnoc(g, cap, front, item);
      assert front + [item] == b && a + front + [item] == a + b;
    }
  }

  lemma ValidOf(g: Csr, items: seq<seq<nat>>)
    requires AllFit(g, items)
    ensures g.Valid()
  {
  }

  /** The short cycles and the continuations of all items make up the whole subtree. */
  lemma {:induction false} SplitConserves(s: Search, p: seq<nat>, slot: nat, cutoff: nat)
    requires AtSlot(s, p, slot) && s.rule == AboveRoot && |p| < cutoff
    ensures AllFit(s.g, Prefixes(s, p, slot, cutoff))
    ensures Owed(s, p, slot) == Clip(Owed(s, p, slot), Some(cutoff - 1)) + ItemsOwe(s.g, s.cap, Prefixes(s, p, slot, cutoff))
    decreases s.Free(p), s.Limit(p) - slot
  {
    hide Clip, ItemsOwe, AllFit, Owed, Branch, Prefixes, PrefixesAt;
    if slot < s.Limit(p) {
      SlotStep(s, p, slot, cutoff);
      SplitSlot(s, p, slot, cutoff);
      SplitConserves(s, p, slot + 1, cutoff);
      ClipSum(Branch(s, p, slot), Owed(s, p, slot + 1), Some(cutoff - 1));
      ItemsOweJoin(s.g, s.cap, PrefixesAt(s, p, slot, cutoff), Prefixes(s, p, slot + 1, cutoff));
    } else {
      RowEnds(s, p, cutoff);
      NoItems(s.g, s.cap);
    }
  }

  lemma OneItem(s: Search, p: seq<nat>)
    requires s.Valid() && s.IsPath(p) && s.rule == AboveRoot
    ensures AllFit(s.g, [p]) && ItemsOwe(s.g, s.cap, [p]) == Subtree(s, p)
  {
    hide Subtree;
    NoItems(s.g, s.cap);
    ItemsOweSnoc(s.g, s.cap, [], p);
    assert [] + [p] == [p] && s == RootSearch(s.g, s.cap, p[0]);
  }

  lemma {:induction false} SplitSlot(s: Search, p: seq<nat>, slot: nat, cutoff: nat)
    requires AtSlot(s, p, slot) && slot < s.Limit(p) && s.rule == AboveRoot && |p| < cutoff
    ensures AllFit(s.g, PrefixesAt(s, p, slot, cutoff))
    ensures Branch(s, p, slot) ==
            Clip(Branch(s, p, slot), Some(cutoff - 1)) + ItemsOwe(s.g, s.cap, PrefixesAt(s, p, slot, cutoff))
    decreases s.Free(p), s.Limit(p) - slot, 0
  {
    hide Clip, ItemsOwe, AllFit;
    NoItems(s.g, s.cap);
    SlotOutcome(s, p, slot);
    if Descends(s, p, slot) {
      var next := s.g.targets[slot];
      assert next in s.Free(p) && next !in s.Free(p + [next]);
      if |p| + 1 < cutoff {
        SplitConserves(s, p + [next], s.g.Begin(next), cutoff);
      } else {
        forall k | k in Branch(s, p, slot) ensures k >= cutoff {
          OwedBounds(s, p + [next], s.g.Begin(next), k);
        }
        if HasWork(s, p + [next]) {
          OneItem(s, p + [next]);
        } else {
          NoWorkNoCycle(s, p + [next]);
        }
      }
    }
  }

  // ---- Every long cycle extends exactly one item ----

  lemma PrefixesAtThrough(s: Search, p: seq<nat>, slot: nat, cutoff: nat, i: nat)
    requires AtSlot(s, p, slot) && slot < s.Limit(p) && |p| < cutoff && i < |PrefixesAt(s, p, slot, cutoff)|
    ensures IsItem(s, p, cutoff, PrefixesAt(s, p, slot, cutoff)[i])
    ensures PrefixesAt(s, p, slot, cutoff)[i][|p|] == s.g.targets[slot]
  {
    var next := s.g.targets[slot];
    assert next in s.Free(p) && next !in s.Free(p + [next]);
    if |p| + 1 < cutoff {
      PrefixesAreItems(s, p + [next], s.g.Begin(next), cutoff, i);
    }
  }

  lemma {:induction false} PrefixesThrough(s: Search, p: seq<nat>, slot: nat, cutoff: nat, i: nat)
    requires AtSlot(s, p, slot) && |p| < cutoff && i < |Prefixes(s, p, slot, cutoff)|
    ensures IsItem(s, p, cutoff, Prefixes(s, p, slot, cutoff)[i])
    ensures exists x :: slot <= x < s.Limit(p) && Prefixes(s, p, slot, cutoff)[i][|p|] == s.g.targets[x]
    decreases s.Limit(p) - slot
  {
    var here := PrefixesAt(s, p, slot, cutoff);
    if i < |here| {
      PrefixesAtThrough(s, p, slot, cutoff, i);
    } else {
      PrefixesThrough(s, p, slot + 1, cutoff, i - |here|);
    }
  }

  /** No item is emitted twice. */
  lemma {:induction false} ItemsDistinct(s: Search, p: seq<nat>, slot: nat, cutoff: nat, i: nat, j: nat)
    requires AtSlot(s, p, slot) && |p| < cutoff && s.g.Simple() && i < j < |Prefixes(s, p, slot, cutoff)|
    ensures Prefixes(s, p, slot, cutoff)[i] != Prefixes(s, p, slot, cutoff)[j]
    decreases s.Free(p), s.Limit(p) - slot
  {
    var here, next := PrefixesAt(s, p, slot, cutoff), s.g.targets[slot];
    if j < |here| {
      assert next in s.Free(p) && next !in s.Free(p + [next]);
      ItemsDistinct(s, p + [next], s.g.Begin(next), cutoff, i, j);
    } else if i < |here| {
      PrefixesAtThrough(s, p, slot, cutoff, i);
      PrefixesThrough(s, p, slot + 1, cutoff, j - |here|);
      assert s.g.InRow(s.Last(p), slot);
      forall x | slot < x < s.Limit(p) ensures s.g.targets[x] != next {
        assert s.g.InRow(s.Last(p), x);
      }
    } else {
      ItemsDistinct(s, p, slot + 1, cutoff, i - |here|, j - |here|);
    }
  }

  /** The device finds `c` when it continues from `item`. */
  ghost predicate FoundFrom(s: Search, item: seq<nat>, c: seq<nat>) {
    s.Valid() && s.IsPath(item) && c in Found(s, item, s.First(item))
  }

  lemma FindingMeansWork(s: Search, p: seq<nat>, c: seq<nat>)
    requires FoundFrom(s, p, c)
    ensures p <= c && HasWork(s, p)
  {
    FoundThrough(s, p, s.First(p), c);
    var x :| s.First(p) <= x < s.Limit(p) && Through(s, p, x, c) && c in FoundAt(s, p, x);
    assert s.g.InRow(s.Last(p), x);
  }

  /** A cycle of at least the cutoff length is found from the item that is its prefix. */
  lemma {:induction false} LongCycleHasItem(s: Search, p: seq<nat>, slot: nat, cutoff: nat, c: seq<nat>)
    requires AtSlot(s, p, slot) && |p| < cutoff <= |c| && c in Found(s, p, slot)
    ensures c[..cutoff] in Prefixes(s, p, slot, cutoff) && FoundFrom(s, c[..cutoff], c)
    decreases s.Free(p), s.Limit(p) - slot
  {
    if c in FoundAt(s, p, slot) {
      var next := s.g.targets[slot];
      assert next in s.Free(p) && next !in s.Free(p + [next]);
      if |p| + 1 < cutoff {
        LongCycleHasItem(s, p + [next], s.g.Begin(next), cutoff, c);
      } else {
        FindingMeansWork(s, p + [next], c);
        assert c[..cutoff] == p + [next] && PrefixesAt(s, p, slot, cutoff) == [p + [next]];
      }
    } else {
      LongCycleHasItem(s, p, slot + 1, cutoff, c);
    }
  }

  // ---- All roots ----

  /** The items of the roots below `n`. */
  ghost function AllPrefixes(g: Csr, cap: Option<nat>, cutoff: nat, n: nat): seq<seq<nat>>
    requires g.Valid() && n <= g.Order()
  {
    if n == 0 then []
    else AllPrefixes(g, cap, cutoff, n - 1) + Prefixes(RootSearch(g, cap, n - 1), [n - 1], g.Begin(n - 1), cutoff)
  }

  /** The cutoff splits the run: the shorter cycles are counted, the items owe all the others. */
  lemma {:induction false} SplitIsPartition(g: Csr, cap: Option<nat>, cutoff: nat, n: nat)
    requires g.Valid() && n <= g.Order() && cutoff >= 2
    ensures AllFit(g, AllPrefixes(g, cap, cutoff, n))
    ensures StaticBefore(g, cap, n) ==
            Clip(StaticBefore(g, cap, n), Some(cutoff - 1)) + ItemsOwe(g, cap, AllPrefixes(g, cap, cutoff, n))
  {
    hide Clip, ItemsOwe, AllFit;
    if n > 0 {
      var s := RootSearch(g, cap, n - 1);
      SplitIsPartition(g, cap, cutoff, n - 1);
      SplitConserves(s, [n - 1], g.Begin(n - 1), cutoff);
      ClipSum(StaticBefore(g, cap, n - 1), Subtree(s, [n - 1]), Some(cutoff - 1));
      ItemsOweJoin(g, cap, AllPrefixes(g, cap, cutoff, n - 1), Prefixes(s, [n - 1], g.Begin(n - 1), cutoff));
    } else {
      NoItems(g, cap);
    }
  }

  lemma {:induction false} ItemOfRoot(g: Csr, cap: Option<nat>, cutoff: nat, n: nat, i: nat)
    requires g.Valid() && n <= g.Order() && cutoff >= 2 && i < |AllPrefixes(g, cap, cutoff, n)|
    ensures var item := AllPrefixes(g, cap, cutoff, n)[i]; |item| == cutoff && item[0] < n
  {
    var before := AllPrefixes(g, cap, cutoff, n - 1);
    if i < |before| {
      ItemOfRoot(g, cap, cutoff, n - 1, i);
    } else {
      PrefixesAreItems(RootSearch(g, cap, n - 1), [n - 1], g.Begin(n - 1), cutoff, i - |before|);
    }
  }

  lemma {:induction false} AllItemsDistinct(g: Csr, cap: Option<nat>, cutoff: nat, n: nat, i: nat, j: nat)
    requires g.Valid() && g.Simple() && n <= g.Order() && cutoff >= 2 && i < j < |AllPrefixes(g, cap, cutoff, n)|
    ensures AllPrefixes(g, cap, cutoff, n)[i] != AllPrefixes(g, cap, cutoff, n)[j]
  {
    var s, before := RootSearch(g, cap, n - 1), AllPrefixes(g, cap, cutoff, n - 1);
    if j < |before| {
      AllItemsDistinct(g, cap, cutoff, n - 1, i, j);
    } else if i < |before| {
      ItemOfRoot(g, cap, cutoff, n - 1, i);
      PrefixesAreItems(s, [n - 1], g.Begin(n - 1), cutoff, j - |before|);
    } else {
      ItemsDistinct(s, [n - 1], g.Begin(n - 1), cutoff, i - |before|, j - |before|);
    }
  }

  lemma {:induction false} SomeItem(g: Csr, cap: Option<nat>, cutoff: nat, n: nat, c: seq<nat>)
    requires g.Valid() && n <= g.Order() && cutoff >= 2 && c in CyclesBefore(g, cap, n) && |c| >= cutoff
    ensures c[..cutoff] in AllPrefixes(g, cap, cutoff, n) && FoundFrom(RootSearch(g, cap, c[0]), c[..cutoff], c)
  {
    if c in CyclesBefore(g, cap, n - 1) {
      SomeItem(g, cap, cutoff, n - 1, c);
    } else {
      var s := RootSearch(g, cap, n - 1);
      LongCycleHasItem(s, [n - 1], g.Begin(n - 1), cutoff, c);
      assert c[..cutoff][0] == n - 1;
    }
  }

  /** Every cycle of at least the cutoff length extends exactly one item and is found from it. */
  lemma LongCycleExtendsOneItem(g: Csr, cap: Option<nat>, cutoff: nat, c: seq<nat>) returns (i: nat)
    requires g.Valid() && g.Simple() && cutoff >= 2 && c in SimpleCycles(g, cap) && |c| >= cutoff
    ensures var items := AllPrefixes(g, cap, cutoff, g.Order());
            && i < |items| && FoundFrom(RootSearch(g, cap, c[0]), items[i], c)
            && forall j :: 0 <= j < |items| && items[j] <= c ==> j == i
  {
    var items := AllPrefixes(g, cap, cutoff, g.Order());
    SomeItem(g, cap, cutoff, g.Order(), c);
    i :| 0 <= i < |items| && items[i] == c[..cutoff];
    forall j | 0 <= j < |items| && items[j] <= c ensures j == i {
      ItemOfRoot(g, cap, cutoff, g.Order(), j);
      if j < i {
        AllItemsDistinct(g, cap, cutoff, g.Order(), j, i);
      } else if i < j {
        AllItemsDistinct(g, cap, cutoff, g.Order(), i, j);
      }
    }
  }

  // ---- Which paths are items ----

  /** In terms of edges: the last vertex has one to the root, or one to a new vertex above it while the path may grow. */
  lemma HasWorkExactly(s: Search, p: seq<nat>)
    requires s.Valid() && s.IsPath(p) && s.rule == AboveRoot
    ensures HasWork(s, p) <==>
            || (|p| >= 2 && s.g.HasEdge(Edge(p[|p| - 1], p[0])))
            || ((s.cap.Some? ==> |p| < s.cap.value) && exists w :: w > p[0] && w !in p && s.g.HasEdge(Edge(p[|p| - 1], w)))
  {
    var last := s.Last(p);
    if HasWork(s, p) {
      var slot :| s.g.InRow(last, slot) && (Closes(s, p, slot) || Descends(s, p, slot));
      assert s.g.HasEdge(Edge(last, s.g.targets[slot]));
    }
    if |p| >= 2 && s.g.HasEdge(Edge(last, p[0])) {
      var slot :| s.g.InRow(last, slot) && s.g.targets[slot] == p[0];
      assert Closes(s, p, slot);
    }
    if (s.cap.Some? ==> |p| < s.cap.value) && exists w :: w > p[0] && w !in p && s.g.HasEdge(Edge(last, w)) {
      var w :| w > p[0] && w !in p && s.g.HasEdge(Edge(last, w));
      var slot :| s.g.InRow(last, slot) && s.g.targets[slot] == w;
      assert Descends(s, p, slot);
    }
  }

  /** The path goes on from `p` along edges to new vertices above the root, as far as the cap allows. */
  ghost predicate Continues(s: Search, p: seq<nat>, q: seq<nat>)
    requires s.Valid()
  {
    && 0 < |p| && p <= q && (|p| < |q| && s.cap.Some? ==> |q| <= s.cap.value)
    && forall i :: |p| <= i < |q| ==> q[i] !in q[..i] && q[i] > s.root && s.g.HasEdge(Edge(q[i - 1], q[i]))
  }

  lemma ContinuesStep(s: Search, p: seq<nat>, q: seq<nat>)
    requires s.Valid() && s.IsPath(p) && p < q
    ensures Continues(s, p, q) <==>
            && q[|p|] !in p && q[|p|] > s.root && s.g.HasEdge(Edge(s.Last(p), q[|p|])) && s.MayGrow(|p|)
            && Continues(s, p + [q[|p|]], q)
  {
    assert q[..|p|] == p && p + [q[|p|]] <= q;
  }

  lemma {:induction false} SomePrefixSlot(s: Search, p: seq<nat>, slot: nat, cutoff: nat, q: seq<nat>)
    requires AtSlot(s, p, slot)
    ensures q in Prefixes(s, p, slot, cutoff) <==> exists x :: slot <= x < s.Limit(p) && q in PrefixesAt(s, p, x, cutoff)
    decreases s.Limit(p) - slot
  {
    hide Prefixes, PrefixesAt;
    if slot < s.Limit(p) {
      SlotStep(s, p, slot, cutoff);
      SomePrefixSlot(s, p, slot + 1, cutoff, q);
    } else {
      RowEnds(s, p, cutoff);
    }
  }

  lemma DescendsExactly(s: Search, p: seq<nat>, slot: nat)
    requires AtSlot(s, p, slot) && slot < s.Limit(p) && s.rule == AboveRoot
    ensures s.g.InRow(s.Last(p), slot)
    ensures Descends(s, p, slot) <==> s.g.targets[slot] > s.root && s.g.targets[slot] !in p && s.MayGrow(|p|)
  {
    assert p[0] in p;
  }

  /** The items below a path are its continuations of the cutoff length that have work. */
  lemma {:induction false} PrefixesExactly(s: Search, p: seq<nat>, cutoff: nat, q: seq<nat>)
    requires s.Valid() && s.IsPath(p) && s.rule == AboveRoot && |p| < cutoff
    ensures q in Prefixes(s, p, s.First(p), cutoff) <==> |q| == cutoff && s.IsPath(q) && Continues(s, p, q) && HasWork(s, q)
    decreases s.Free(p)
  {
    hide HasWork, Continues, Prefixes, Descends;
    SomePrefixSlot(s, p, s.First(p), cutoff, q);
    if q in Prefixes(s, p, s.First(p), cutoff) {
      var x :| s.First(p) <= x < s.Limit(p) && q in PrefixesAt(s, p, x, cutoff);
      SlotPrefixes(s, p, x, cutoff, q);
    }
    if |q| == cutoff && s.IsPath(q) && Continues(s, p, q) && HasWork(s, q) {
      ContinuesPast(s, p, q);
      ContinuesStep(s, p, q);
      var x :| s.g.InRow(s.Last(p), x) && s.g.targets[x] == q[|p|];
      SlotPrefixes(s, p, x, cutoff, q);
    }
  }

  lemma ContinuesPast(s: Search, p: seq<nat>, q: seq<nat>)
    requires s.Valid() && Continues(s, p, q)
    ensures p <= q
  {
  }

  /** One slot emits the items that leave the path through it. */
  lemma {:induction false} SlotPrefixes(s: Search, p: seq<nat>, x: nat, cutoff: nat, q: seq<nat>)
    requires AtSlot(s, p, x) && x < s.Limit(p) && s.rule == AboveRoot && |p| < cutoff
    ensures q in PrefixesAt(s, p, x, cutoff) <==>
            |q| == cutoff && s.IsPath(q) && Continues(s, p, q) && HasWork(s, q) && q[|p|] == s.g.targets[x]
    decreases s.Free(p), 0
  {
    var next := s.g.targets[x];
    DescendsExactly(s, p, x);
    assert s.g.HasEdge(Edge(s.Last(p), next));
    if p < q && q[|p|] == next {
      ContinuesStep(s, p, q);
    }
    hide HasWork;
    if Descends(s, p, x) {
      assert next in s.Free(p) && next !in s.Free(p + [next]);
      if |p| + 1 < cutoff {
        PrefixesExactly(s, p + [next], cutoff, q);
      } else if |q| == cutoff && p + [next] <= q {
        assert q == p + [next];
      }
    }
  }

  lemma {:induction false} RootItems(g: Csr, cap: Option<nat>, cutoff: nat, n: nat, p: seq<nat>)
    requires g.Valid() && n <= g.Order() && cutoff >= 2
    ensures p in AllPrefixes(g, cap, cutoff, n) <==>
            && |p| == cutoff && p[0] < n && RootSearch(g, cap, p[0]).IsPath(p)
            && Continues(RootSearch(g, cap, p[0]), [p[0]], p) && HasWork(RootSearch(g, cap, p[0]), p)
  {
    hide HasWork, Prefixes, Continues;
    if n > 0 {
      RootItems(g, cap, cutoff, n - 1, p);
      PrefixesExactly(RootSearch(g, cap, n - 1), [n - 1], cutoff, p);
      if Continues(RootSearch(g, cap, n - 1), [n - 1], p) {
        ContinuesPast(RootSearch(g, cap, n - 1), [n - 1], p);
      }
    }
  }

  /**
   * The items are exactly the paths of the cutoff length over distinct vertices above their first, within the
   * cap, from whose end an edge leads back to the first, or to a new vertex above it that the cap still allows.
   */
  lemma ItemsExactly(g: Csr, cap: Option<nat>, cutoff: nat, p: seq<nat>)
    requires g.Valid() && cutoff >= 2
    ensures p in AllPrefixes(g, cap, cutoff, g.Order()) <==>
            && |p| == cutoff && (cap.Some? ==> cutoff <= cap.value)
            && (forall i :: 0 < i < |p| ==> p[0] < p[i] && g.HasEdge(Edge(p[i - 1], p[i])))
            && (forall i, j :: 0 <= i < j < |p| ==> p[i] != p[j])
            && (g.HasEdge(Edge(p[|p| - 1], p[0]))
                || ((cap.Some? ==> cutoff < cap.value) && exists w :: w > p[0] && w !in p && g.HasEdge(Edge(p[|p| - 1], w))))
  {
    hide HasWork, AllPrefixes;
    RootItems(g, cap, cutoff, g.Order(), p);
    if |p| == cutoff {
      var s := RootSearch(g, cap, p[0]);
      DistinctContinues(g, cap, p);
      if p[0] < g.Order() && s.IsPath(p) {
        HasWorkExactly(s, p);
      }
    }
  }

  lemma DistinctContinues(g: Csr, cap: Option<nat>, p: seq<nat>)
    requires g.Valid() && |p| >= 2
    ensures p[0] < g.Order() && RootSearch(g, cap, p[0]).IsPath(p) && Continues(RootSearch(g, cap, p[0]), [p[0]], p) <==>
            && (cap.Some? ==> |p| <= cap.value)
            && (forall i :: 0 < i < |p| ==> p[0] < p[i] && g.HasEdge(Edge(p[i - 1], p[i])))
            && (forall i, j :: 0 <= i < j < |p| ==> p[i] != p[j])
  {
    var s := RootSearch(g, cap, p[0]);
    if p[0] < g.Order() && Continues(s, [p[0]], p) {
      forall i, j | 0 <= i < j < |p| ensures p[i] != p[j] {
        assert p[j] !in p[..j] && p[i] == p[..j][i];
      }
    }
    if forall i :: 0 < i < |p| ==> p[0] < p[i] && g.HasEdge(Edge(p[i - 1], p[i])) {
      forall i | 0 <= i < |p| ensures p[i] < g.Order() {
        if i > 0 { assert g.HasEdge(Edge(p[i - 1], p[i])); } else { assert g.HasEdge(Edge(p[0], p[1])); }
      }
      assert [p[0]] <= p;
    }
  }

  // ---- The splitter ----

  /** What `Expand` adds to the items below a path. */
  ghost function ItemsBelow(s: Search, p: seq<nat>, cutoff: nat): seq<seq<nat>>
    requires s.Valid() && s.IsPath(p)
  {
    if |p| < cutoff then Prefixes(s, p, s.First(p), cutoff)
    else if HasWork(s, p) then [p]
    else []
  }

  datatype Split = Split(closed: Histogram, items: seq<seq<nat>>)

  lemma SubtreeStarts(s: Search, p: seq<nat>, cutoff: nat)
    requires s.Valid() && s.IsPath(p) && cutoff > 0
    ensures Subtree(s, p) == Owed(s, p, s.First(p)) && Clip(multiset{}, Some(cutoff - 1)) == multiset{}
  {
  }

  lemma SlotStep(s: Search, p: seq<nat>, slot: nat, cutoff: nat)
    requires AtSlot(s, p, slot) && slot < s.Limit(p)
    ensures Owed(s, p, slot) == Branch(s, p, slot) + Owed(s, p, slot + 1)
    ensures Prefixes(s, p, slot, cutoff) == PrefixesAt(s, p, slot, cutoff) + Prefixes(s, p, slot + 1, cutoff)
  {
  }

  lemma RowEnds(s: Search, p: seq<nat>, cutoff: nat)
    requires s.Valid() && s.IsPath(p)
    ensures Owed(s, p, s.Limit(p)) == multiset{} && Prefixes(s, p, s.Limit(p), cutoff) == []
  {
  }

  class BranchSplitter {
    const g: Csr
    const cutoff: nat
    const cap: Option<nat>
    const visited: array<bool>
    var path: seq<nat>
    var closed: Histogram
    var items: seq<seq<nat>>

    constructor (g: Csr, cutoff: nat, cap: Option<nat>)
      requires g.Valid()
      ensures this.g == g && this.cutoff == cutoff && this.cap == cap && visited.Length == g.Order() && fresh(visited)
      ensures closed == multiset{} && items == []
    {
      this.g, this.cutoff, this.cap := g, cutoff, cap;
      visited := new bool[g.Order()];
      path, closed, items := [], multiset{}, [];
    }

    ghost predicate Valid(s: Search)
      reads this, visited
    {
      && s.Valid() && s.g == g && s.cap == cap && s.rule == AboveRoot
      && s.IsPath(path) && |path| <= cutoff && Marks(path, visited[..], g.Order())
    }

    method PrefixHasWork(s: Search) returns (work: bool)
      requires Valid(s)
      ensures work <==> HasWork(s, path)
      ensures work <==>
              || (|path| >= 2 && g.HasEdge(Edge(path[|path| - 1], path[0])))
              || ((cap.Some? ==> |path| < cap.value) && exists w :: w > path[0] && w !in path && g.HasEdge(Edge(path[|path| - 1], w)))
    {
      HasWorkExactly(s, path);
      var current := path[|path| - 1];
      for slot := g.Begin(current) to g.End(current)
        invariant forall x :: s.g.InRow(current, x) && x < slot ==> !Closes(s, path, x) && !Descends(s, path, x)
      {
        var next := g.targets[slot];
        assert s.g.InRow(current, slot);
        if next == s.root && |path| >= 2 {
          assert Closes(s, path, slot);
          return true;
        }
        if next > s.root && !visited[next] && !(cap.Some? && |path| >= cap.value) {
          assert Descends(s, path, slot);
          return true;
        }
      }
      return false;
    }

    /** Counts the cycles below the path that are shorter than the cutoff and emits the items. */
    method Expand(s: Search)
      requires Valid(s)
      modifies `path, `closed, `items, visited
      ensures path == old(path) && visited[..] == old(visited[..])
      ensures items == old(items) + ItemsBelow(s, path, cutoff)
      ensures closed == old(closed) + Clip(Subtree(s, path), Some(cutoff - 1))
      decreases s.Free(path), 1
    {
      if |path| < cutoff {
        ExpandRow(s);
        return;
      }
      LongOnly(s, path, cutoff);
      var work := PrefixHasWork(s);
      if work {
        items := items + [path];
      }
    }

    /** The branches of a path that is shorter than the cutoff. */
    method ExpandRow(s: Search)
      requires Valid(s) && |path| < cutoff
      modifies `path, `closed, `items, visited
      ensures path == old(path) && visited[..] == old(visited[..])
      ensures items == old(items) + Prefixes(s, path, s.First(path), cutoff)
      ensures closed == old(closed) + Clip(Subtree(s, path), Some(cutoff - 1))
      decreases s.Free(path), 1, 0
    {
      hide Marks, Clip, Prefixes, PrefixesAt, Owed, Branch, Subtree;
      ghost var full, marks := path, visited[..];
      var current := path[|path| - 1];
      ghost var emitted, short := [], multiset{};
      SubtreeStarts(s, full, cutoff);
      for slot := g.Begin(current) to g.End(current)
        invariant Valid(s) && path == full && visited[..] == marks
        invariant items == old(items) + emitted && emitted + Prefixes(s, full, slot, cutoff) == Prefixes(s, full, s.First(full), cutoff)
        invariant closed == old(closed) + Clip(short, Some(cutoff - 1))
        invariant short + Owed(s, full, slot) == Subtree(s, full)
      {
        ExpandSlot(s, slot);
        SlotStep(s, full, slot, cutoff);
        ClipSum(short, Branch(s, full, slot), Some(cutoff - 1));
        emitted, short := emitted + PrefixesAt(s, full, slot, cutoff), short + Branch(s, full, slot);
      }
      RowEnds(s, full, cutoff);
    }

    method ExpandSlot(s: Search, slot: nat)
      requires Valid(s) && |path| < cutoff && g.InRow(path[|path| - 1], slot)
      modifies `path, `closed, `items, visited
      ensures path == old(path) && visited[..] == old(visited[..])
      ensures items == old(items) + PrefixesAt(s, path, slot, cutoff)
      ensures closed == old(closed) + Clip(Branch(s, path, slot), Some(cutoff - 1))
      decreases s.Free(path), 0
    {
      hide Clip, HasWork;
      ghost var full, marks := path, visited[..];
      var next := g.targets[slot];
      SlotOutcome(s, full, slot);
      if next == s.root && |path| >= 2 {
        closed := closed + multiset{|path|};
        return;
      }
      if next <= s.root || visited[next] || (cap.Some? && |path| >= cap.value) {
        return;
      }
      assert next in s.Free(full) && next !in s.Free(full + [next]);
      visited[next] := true;
      path := path + [next];
      Expand(s);
      path := path[..|path| - 1];
      visited[next] := false;
      assert path == full && visited[..] == marks;
    }

    /** The search of one root, on a cleared buffer. */
    method ExpandRoot(root: nat)
      requires g.Valid() && visited.Length == g.Order() && cutoff >= 2 && root < g.Order()
      modifies this, visited
      ensures items == old(items) + Prefixes(RootSearch(g, cap, root), [root], g.Begin(root), cutoff)
      ensures closed == old(closed) + Clip(Subtree(RootSearch(g, cap, root), [root]), Some(cutoff - 1))
    {
      forall v | 0 <= v < visited.Length { visited[v] := false; }
      path := [root];
      visited[root] := true;
      Expand(RootSearch(g, cap, root));
    }
  }

  lemma LongOnly(s: Search, p: seq<nat>, cutoff: nat)
    requires s.Valid() && s.IsPath(p) && |p| >= cutoff > 0
    ensures Clip(Subtree(s, p), Some(cutoff - 1)) == multiset{}
  {
    hide Clip;
    forall k | k in Subtree(s, p) ensures k >= cutoff {
      OwedBounds(s, p, s.First(p), k);
    }
  }

  /**
   * The split of the static search; `None` for a cutoff or cap below 2.  The closed cycles and the
   * continuations of the items add up to the undivided run.
   */
  method SplitStaticSearch(g: Csr, cutoff: nat, cap: Option<nat>) returns (r: Option<Split>)
    requires g.Valid()
    ensures r == None <==> cutoff < 2 || (cap.Some? && cap.value < 2)
    ensures r.Some? ==> r.value.closed == Clip(StaticBefore(g, cap, g.Order()), Some(cutoff - 1))
    ensures r.Some? ==> r.value.items == AllPrefixes(g, cap, cutoff, g.Order()) && AllFit(g, r.value.items)
    ensures r.Some? ==> r.value.closed + ItemsOwe(g, cap, r.value.items) == StaticBefore(g, cap, g.Order())
  {
    hide Clip, AllFit, ItemsOwe, Subtree, Prefixes;
    if cutoff < 2 || (cap.Some? && cap.value < 2) {
      return None;
    }
    var splitter := new BranchSplitter(g, cutoff, cap);
    ClipSum(multiset{}, multiset{}, Some(cutoff - 1));
    for root := 0 to g.Order()
      invariant splitter.items == AllPrefixes(g, cap, cutoff, root)
      invariant splitter.closed == Clip(StaticBefore(g, cap, root), Some(cutoff - 1))
    {
      splitter.ExpandRoot(root);
      ClipSum(StaticBefore(g, cap, root), Subtree(RootSearch(g, cap, root), [root]), Some(cutoff - 1));
    }
    SplitIsPartition(g, cap, cutoff, g.Order());
    r := Some(Split(splitter.closed, splitter.items));
  }
}
