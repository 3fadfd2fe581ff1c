/**
 * What a bundle means: the arrival times of all strictly increasing ways to pick one event per edge
 * along a path.
 */
module Assignments {
  import opened TemporalSearch
  import opened Bundles

  // ---- Multisets of values over a set ----

  /** The values of `f` on the set, with multiplicities. */
  ghost function Image<T>(items: set<T>, f: T -> int): multiset<int> {
    if items == {} then multiset{}
    else
      var x :| x in items;
      Image(items - {x}, f) + multiset{f(x)}
  }

  lemma {:induction false} ImageRemove<T>(items: set<T>, f: T -> int, x: T)
    requires x in items
    ensures Image(items, f) == Image(items - {x}, f) + multiset{f(x)}
  {
    var y :| y in items && Image(items, f) == Image(items - {y}, f) + multiset{f(y)};
    if y != x {
      ImageRemove(items - {y}, f, x);
      ImageRemove(items - {x}, f, y);
      assert items - {y} - {x} == items - {x} - {y};
    }
  }

  lemma ImageEmpty<T>(f: T -> int)
    ensures Image({}, f) == multiset{}
  {
  }

  lemma {:induction false} ImageUnion<T>(a: set<T>, b: set<T>, f: T -> int)
    requires a !! b
    ensures Image(a + b, f) == Image(a, f) + Image(b, f)
  {
    hide Image;
    if x :| x in a {
      ImageUnion(a - {x}, b, f);
      ImageRemove(a, f, x);
      ImageRemove(a + b, f, x);
      assert a + b - {x} == a - {x} + b;
    } else {
      ImageEmpty(f);
      assert a == {} && a + b == b;
    }
  }

  /** The items with one value. */
  ghost function Fibre<T>(items: set<T>, f: T -> int, t: int): set<T> {
    set x | x in items && f(x) == t
  }

  /** A value occurs as often as there are items with it. */
  lemma {:induction false} ImageCounts<T>(items: set<T>, f: T -> int, t: int)
    ensures Image(items, f)[t] == |Fibre(items, f, t)|
  {
    hide Image;
    if x :| x in items {
      var rest := Fibre(items - {x}, f, t);
      ImageRemove(items, f, x);
      ImageCounts(items - {x}, f, t);
      if f(x) == t {
        assert Fibre(items, f, t) == rest + {x} && x !in rest;
      } else {
        assert Fibre(items, f, t) == rest;
      }
    } else {
      ImageEmpty(f);
      assert items == {} && Fibre(items, f, t) == {};
    }
  }

  // ---- Increasing assignments ----

  /** The time of the last picked event; the start before any is picked. */
  ghost function LastTime(s: Temporal, start: int, slots: seq<nat>, picks: seq<nat>): int {
    if picks == [] then start
    else
      var i := |picks| - 1;
      if i < |slots| && slots[i] < |s.times| && picks[i] < |s.times[slots[i]]| then s.times[slots[i]][picks[i]] else start
  }

  /** One event per slot, strictly later from slot to slot, all after the start and inside the window. */
  ghost predicate Increasing(s: Temporal, start: int, slots: seq<nat>, picks: seq<nat>)
    requires s.Valid()
  {
    |picks| == |slots| && forall i :: 0 <= i < |picks| ==> PickedLater(s, start, slots, picks, i)
  }

  ghost predicate PickedLater(s: Temporal, start: int, slots: seq<nat>, picks: seq<nat>, i: nat)
    requires s.Valid() && i < |picks| == |slots|
  {
    slots[i] < |s.times| && s.Later(slots[i], LastTime(s, start, slots, picks[..i]), picks[i])
  }

  ghost predicate SlotsExist(s: Temporal, slots: seq<nat>) {
    forall i :: 0 <= i < |slots| ==> slots[i] < |s.times|
  }

  /** All increasing assignments along the slots. */
  ghost function Ways(s: Temporal, start: int, slots: seq<nat>): set<seq<nat>>
    requires s.Valid() && SlotsExist(s, slots)
  {
    if slots == [] then {[]}
    else
      var front, last := slots[..|slots| - 1], slots[|slots| - 1];
      Longer(s, last, Ways(s, start, front), LastOf(s, start, front))
  }

  ghost function LastOf(s: Temporal, start: int, slots: seq<nat>): seq<nat> -> int {
    picks => LastTime(s, start, slots, picks)
  }

  /** The ways continued by one later event of `slot`. */
  ghost function Longer(s: Temporal, slot: nat, ways: set<seq<nat>>, last: seq<nat> -> int): set<seq<nat>>
    requires s.Valid() && slot < |s.times|
  {
    set w, j: nat | w in ways && j < |s.times[slot]| && s.Later(slot, last(w), j) :: w + [j]
  }

  /** `Ways` holds exactly the increasing assignments. */
  lemma {:induction false} WaysExactly(s: Temporal, start: int, slots: seq<nat>, picks: seq<nat>)
    requires s.Valid() && SlotsExist(s, slots)
    ensures picks in Ways(s, start, slots) <==> Increasing(s, start, slots, picks)
  {
    if slots == [] {
      assert Increasing(s, start, [], picks) <==> picks == [];
    } else if picks != [] {
      var front, last, w, j := slots[..|slots| - 1], slots[|slots| - 1], picks[..|picks| - 1], picks[|picks| - 1];
      WaysExactly(s, start, front, w);
      IncreasingStep(s, start, slots, picks);
      assert w + [j] == picks;
      if picks in Ways(s, start, slots) {
        var v, k: nat :| v in Ways(s, start, front) && s.Later(last, LastTime(s, start, front, v), k) && v + [k] == picks;
        assert v == w && k == j;
      }
    }
  }

  lemma IncreasingStep(s: Temporal, start: int, slots: seq<nat>, picks: seq<nat>)
    requires s.Valid() && SlotsExist(s, slots) && slots != [] && picks != []
    ensures var front, last, w, j := slots[..|slots| - 1], slots[|slots| - 1], picks[..|picks| - 1], picks[|picks| - 1];
            Increasing(s, start, slots, picks) <==>
            Increasing(s, start, front, w) && s.Later(last, LastTime(s, start, front, w), j)
  {
    var front, w := slots[..|slots| - 1], picks[..|picks| - 1];
    if |picks| == |slots| {
      forall i | 0 <= i < |w| ensures PickedLater(s, start, slots, picks, i) <==> PickedLater(s, start, front, w, i) {
        assert picks[..i] == w[..i];
        LastTimeFront(s, start, slots, w[..i]);
      }
      LastTimeFront(s, start, slots, w);
      assert picks[..|w|] == w && slots[|w|] == slots[|slots| - 1];
      assert PickedLater(s, start, slots, picks, |w|) <==>
             s.Later(slots[|slots| - 1], LastTime(s, start, front, w), picks[|picks| - 1]);
    }
  }

  lemma LastTimeFront(s: Temporal, start: int, slots: seq<nat>, picks: seq<nat>)
    requires |picks| < |slots|
    ensures LastTime(s, start, slots, picks) == LastTime(s, start, slots[..|slots| - 1], picks)
  {
  }

  // ---- Arrival times step by step ----

  /** The times that may follow any of the given times. */
  ghost function OnwardOf(s: Temporal, slot: nat, times: multiset<int>): multiset<int>
    requires s.Valid() && slot < |s.times|
    decreases |times|
  {
    if exists t :: t in times then
      var t :| t in times;
      OnwardOf(s, slot, times - multiset{t}) + Onward(s, slot, t)
    else multiset{}
  }

  lemma {:induction false} OnwardOfRemove(s: Temporal, slot: nat, times: multiset<int>, t: int)
    requires s.Valid() && slot < |s.times| && t in times
    ensures OnwardOf(s, slot, times) == OnwardOf(s, slot, times - multiset{t}) + Onward(s, slot, t)
    decreases |times|
  {
    hide Onward;
    var u :| u in times && OnwardOf(s, slot, times) == OnwardOf(s, slot, times - multiset{u}) + Onward(s, slot, u);
    if u != t {
      OnwardOfRemove(s, slot, times - multiset{u}, t);
      OnwardOfRemove(s, slot, times - multiset{t}, u);
      assert times - multiset{u} - multiset{t} == times - multiset{t} - multiset{u};
    }
  }

  lemma OnwardOfEmpty(s: Temporal, slot: nat)
    requires s.Valid() && slot < |s.times|
    ensures OnwardOf(s, slot, multiset{}) == multiset{}
  {
  }

  lemma {:induction false} OnwardOfSum(s: Temporal, slot: nat, a: multiset<int>, b: multiset<int>)
    requires s.Valid() && slot < |s.times|
    ensures OnwardOf(s, slot, a + b) == OnwardOf(s, slot, a) + OnwardOf(s, slot, b)
    decreases |a|
  {
    hide OnwardOf, Onward;
    if t :| t in a {
      OnwardOfSum(s, slot, a - multiset{t}, b);
      OnwardOfRemove(s, slot, a, t);
      OnwardOfRemove(s, slot, a + b, t);
      assert a + b - multiset{t} == a - multiset{t} + b;
    } else {
      OnwardOfEmpty(s, slot);
      assert a == multiset{} && a + b == b by {
        forall t ensures a[t] == 0 {
          assert t !in a;
        }
      }
    }
  }

  lemma {:induction false} OnwardOfCopies(s: Temporal, slot: nat, times: multiset<int>, count: nat)
    requires s.Valid() && slot < |s.times|
    ensures OnwardOf(s, slot, Copies(times, count)) == Copies(OnwardOf(s, slot, times), count)
  {
    hide OnwardOf;
    if count > 0 {
      OnwardOfCopies(s, slot, times, count - 1);
      OnwardOfSum(s, slot, times, Copies(times, count - 1));
    } else {
      OnwardOfEmpty(s, slot);
    }
  }

  lemma OnwardOfOne(s: Temporal, slot: nat, t: int)
    requires s.Valid() && slot < |s.times|
    ensures OnwardOf(s, slot, multiset{t}) == Onward(s, slot, t)
  {
    hide Onward;
    OnwardOfRemove(s, slot, multiset{t}, t);
    OnwardOfEmpty(s, slot);
    assert multiset{t} - multiset{t} == multiset{};
  }

  /** Extending a bundle extends each of its times. */
  lemma {:induction false} OnwardAllIsOnwardOf(s: Temporal, slot: nat, arrivals: seq<Arrival>)
    requires s.Valid() && slot < |s.times|
    ensures OnwardAll(s, slot, arrivals) == OnwardOf(s, slot, Arrivals(arrivals))
  {
    hide OnwardOf, Onward, Copies;
    if arrivals != [] {
      var front, last := arrivals[..|arrivals| - 1], arrivals[|arrivals| - 1];
      OnwardAllIsOnwardOf(s, slot, front);
      OnwardOfSum(s, slot, Arrivals(front), Copies(multiset{last.timestamp}, last.count));
      OnwardOfCopies(s, slot, multiset{last.timestamp}, last.count);
      OnwardOfOne(s, slot, last.timestamp);
    } else {
      OnwardOfEmpty(s, slot);
    }
  }

  // ---- Ways and their times ----

  /** The ways through `w` that end with one of the events `a` up to `b`. */
  ghost function Picks(w: seq<nat>, a: nat, b: nat): set<seq<nat>> {
    set j: nat | a <= j < b :: w + [j]
  }

  lemma {:induction false} PicksTimes(s: Temporal, start: int, slots: seq<nat>, w: seq<nat>, a: nat, b: nat)
    requires s.Valid() && slots != [] && |w| == |slots| - 1
    requires slots[|slots| - 1] < |s.times| && a <= b <= |s.times[slots[|slots| - 1]]|
    ensures Image(Picks(w, a, b), LastOf(s, start, slots)) == multiset(s.times[slots[|slots| - 1]][a..b])
    decreases b
  {
    hide Image;
    var times, f := s.times[slots[|slots| - 1]], LastOf(s, start, slots);
    if a == b {
      ImageEmpty(f);
      assert Picks(w, a, b) == {} && times[a..b] == [];
    } else {
      var last: seq<nat> := w + [b - 1];
      PicksTimes(s, start, slots, w, a, b - 1);
      assert last !in Picks(w, a, b - 1) && Picks(w, a, b) == Picks(w, a, b - 1) + {last} by {
        forall j | a <= j < b - 1 ensures w + [j] != last {
          assert (w + [j])[|w|] == j && last[|w|] == b - 1;
        }
      }
      ImageRemove(Picks(w, a, b), f, last);
      assert Picks(w, a, b) - {last} == Picks(w, a, b - 1);
      assert times[a..b] == times[a..b - 1] + [times[b - 1]];
    }
  }

  /** Continuing all ways yields the onward times of their last times. */
  lemma {:induction false} LongerTimes(s: Temporal, start: int, slots: seq<nat>, ways: set<seq<nat>>)
    requires s.Valid() && SlotsExist(s, slots) && slots != [] && forall w :: w in ways ==> |w| == |slots| - 1
    ensures var front, last := slots[..|slots| - 1], slots[|slots| - 1];
            Image(Longer(s, last, ways, LastOf(s, start, front)), LastOf(s, start, slots)) ==
            OnwardOf(s, last, Image(ways, LastOf(s, start, front)))
    decreases |ways|
  {
    hide Image, OnwardOf;
    var front, last := slots[..|slots| - 1], slots[|slots| - 1];
    var f, g := LastOf(s, start, front), LastOf(s, start, slots);
    if w :| w in ways {
      var t, rest := f(w), ways - {w};
      var more := Picks(w, s.From(last, t), s.To(last, t));
      LongerTimes(s, start, slots, rest);
      PicksTimes(s, start, slots, w, s.From(last, t), s.To(last, t));
      LongerSplits(s, last, ways, f, w);
      ImageUnion(Longer(s, last, rest, f), more, g);
      ImageRemove(ways, f, w);
      OnwardOfSum(s, last, Image(rest, f), multiset{t});
      OnwardOfOne(s, last, t);
    } else {
      assert ways == {} && Longer(s, last, ways, f) == {};
      ImageEmpty(f);
      ImageEmpty(g);
      OnwardOfEmpty(s, last);
    }
  }

  lemma LongerSplits(s: Temporal, slot: nat, ways: set<seq<nat>>, f: seq<nat> -> int, w: seq<nat>)
    requires s.Valid() && slot < |s.times| && w in ways
    ensures var more := Picks(w, s.From(slot, f(w)), s.To(slot, f(w)));
            Longer(s, slot, ways, f) == Longer(s, slot, ways - {w}, f) + more && Longer(s, slot, ways - {w}, f) !! more
  {
    var rest, more := ways - {w}, Picks(w, s.From(slot, f(w)), s.To(slot, f(w)));
    forall x | x in Longer(s, slot, ways, f) ensures x in Longer(s, slot, rest, f) + more {
      var v, j: nat :| v in ways && j < |s.times[slot]| && s.Later(slot, f(v), j) && x == v + [j];
      s.RangeIsLater(slot, f(v), j);
    }
    forall x | x in more ensures x in Longer(s, slot, ways, f) && x !in Longer(s, slot, rest, f) {
      var j: nat :| s.From(slot, f(w)) <= j < s.To(slot, f(w)) && x == w + [j];
      s.RangeIsLater(slot, f(w), j);
      assert x[..|x| - 1] == w;
      forall v, k: nat | v in rest ensures v + [k] != x {
        assert (v + [k])[..|v + [k]| - 1] == v && v != w;
      }
    }
  }

  lemma {:induction false} WaysLength(s: Temporal, start: int, slots: seq<nat>)
    requires s.Valid() && SlotsExist(s, slots)
    ensures forall w :: w in Ways(s, start, slots) ==> |w| == |slots|
  {
    forall w | w in Ways(s, start, slots) ensures |w| == |slots| {
      WaysExactly(s, start, slots, w);
    }
  }

  /** The arrival times at the end of the slots, one per increasing assignment. */
  ghost function Reached(s: Temporal, start: int, slots: seq<nat>): multiset<int>
    requires s.Valid() && SlotsExist(s, slots)
  {
    Image(Ways(s, start, slots), LastOf(s, start, slots))
  }

  /** The increasing assignments that end at time `t`. */
  ghost function WaysAt(s: Temporal, start: int, slots: seq<nat>, t: int): set<seq<nat>>
    requires s.Valid() && SlotsExist(s, slots)
  {
    Fibre(Ways(s, start, slots), LastOf(s, start, slots), t)
  }

  /** A time is reached as often as there are increasing assignments that end at it. */
  lemma ReachedCounts(s: Temporal, start: int, slots: seq<nat>, t: int)
    requires s.Valid() && SlotsExist(s, slots)
    ensures forall w :: w in WaysAt(s, start, slots, t) <==> Increasing(s, start, slots, w) && LastTime(s, start, slots, w) == t
    ensures Reached(s, start, slots)[t] == |WaysAt(s, start, slots, t)|
  {
    hide Ways, Increasing, Image;
    forall w ensures w in Ways(s, start, slots) <==> Increasing(s, start, slots, w) {
      WaysExactly(s, start, slots, w);
    }
    ImageCounts(Ways(s, start, slots), LastOf(s, start, slots), t);
  }

  lemma ReachedNothing(s: Temporal, start: int)
    requires s.Valid()
    ensures Reached(s, start, []) == multiset{start}
  {
    var none: set<seq<nat>> := {[]};
    ImageRemove(none, LastOf(s, start, []), []);
    assert none - {[]} == {};
  }

  /** One more slot: the times after the ones reached so far. */
  lemma ReachedStep(s: Temporal, start: int, slots: seq<nat>, slot: nat)
    requires s.Valid() && SlotsExist(s, slots) && slot < |s.times|
    ensures SlotsExist(s, slots + [slot])
    ensures Reached(s, start, slots + [slot]) == OnwardOf(s, slot, Reached(s, start, slots))
  {
    hide Image, OnwardOf;
    var more := slots + [slot];
    assert more[..|more| - 1] == slots;
    WaysLength(s, start, slots);
    LongerTimes(s, start, more, Ways(s, start, slots));
  }

  /**
   * The bundle of a path: its arrival times are those of all increasing assignments along the slots,
   * once per copy of the start event.
   */
  ghost predicate BundleOf(s: Temporal, start: int, count: nat, slots: seq<nat>, arrivals: seq<Arrival>) {
    && s.Valid() && SlotsExist(s, slots) && Ascending(arrivals)
    && Arrivals(arrivals) == Copies(Reached(s, start, slots), count)
  }

  lemma BundleStarts(s: Temporal, start: int, count: nat)
    requires s.Valid()
    ensures BundleOf(s, start, count, [], [Arrival(start, count)])
  {
    hide Copies, Reached;
    ReachedNothing(s, start);
    ArrivalsEmpty();
    ArrivalsSnoc([], Arrival(start, count));
    assert [] + [Arrival(start, count)] == [Arrival(start, count)];
  }

  /** Extending the bundle of a path gives the bundle of the longer path. */
  lemma BundleExtends(s: Temporal, start: int, count: nat, slots: seq<nat>, arrivals: seq<Arrival>, slot: nat, bundle: seq<Arrival>)
    requires BundleOf(s, start, count, slots, arrivals) && slot < |s.times|
    requires Ascending(bundle) && Arrivals(bundle) == OnwardAll(s, slot, arrivals)
    ensures BundleOf(s, start, count, slots + [slot], bundle)
  {
    hide Copies, Reached, OnwardOf, OnwardAll, Arrivals;
    OnwardAllIsOnwardOf(s, slot, arrivals);
    OnwardOfCopies(s, slot, Reached(s, start, slots), count);
    ReachedStep(s, start, slots, slot);
  }
}
