/**
 * The exhaustive depth-first search that all counters are compared with.
 *
 * A search extends a vertex path that starts at the root.  `Owed(s, p, slot)` is the histogram
 * that is still to be recorded below path `p` when the row of its last vertex has been read up to
 * `slot`; `Owed` from the start of the row is the whole subtree of `p`.
 */
module CycleSearch {
  import opened CsrGraphs

  /** A cycle-length histogram without zero bins: `h[k]` cycles of length `k`. */
  type Histogram = multiset<nat>

  /** What one step of a search adds: a cycle length, or nothing. */
  ghost function Recorded(length: Option<nat>): Histogram {
    if length.Some? then multiset{length.value} else multiset{}
  }

  /** Which slots a search may follow. */
  datatype Rule =
    | AboveRoot
    | InWindow(times: seq<seq<int>>, start: int, width: int)
    | OwnedBy(changes: seq<Edge>, owner: nat)

  /** The ids of the changed edges are their positions; the first match counts. */
  predicate ForbiddenBefore(changes: seq<Edge>, e: Edge, owner: nat) {
    exists id :: 0 <= id < |changes| && id < owner && changes[id] == e
  }

  /** Some timestamp lies in the window; the start itself counts only when `inclusive`. */
  predicate HasTimestamp(times: seq<int>, start: int, width: int, inclusive: bool) {
    exists j :: 0 <= j < |times| && (if inclusive then start <= times[j] else start < times[j]) && times[j] <= start + width
  }

  datatype Search = Search(g: Csr, root: nat, rule: Rule, cap: Option<nat>) {

    predicate Valid() {
      && g.Valid()
      && root < g.Order()
      && (rule.InWindow? ==> |rule.times| == |g.targets|)
    }

    /** The slot is one the search may follow from `v`. */
    predicate Takes(v: nat, slot: nat)
      requires Valid() && g.InRow(v, slot)
    {
      match rule
      case AboveRoot => g.targets[slot] >= root
      case InWindow(times, start, width) => HasTimestamp(times[slot], start, width, root > v)
      case OwnedBy(changes, owner) => !ForbiddenBefore(changes, Edge(v, g.targets[slot]), owner)
    }

    /** A path may still grow from length `size`. */
    predicate MayGrow(size: nat) {
      cap.Some? ==> size < cap.value
    }

    /** A vertex path of this search. */
    predicate IsPath(p: seq<nat>) {
      && 0 < |p|
      && p[0] == root
      && forall i :: 0 <= i < |p| ==> p[i] < g.Order()
    }

    function Last(p: seq<nat>): nat
      requires 0 < |p|
    {
      p[|p| - 1]
    }

    function First(p: seq<nat>): nat
      requires Valid() && IsPath(p)
    {
      g.Begin(Last(p))
    }

    function Limit(p: seq<nat>): nat
      requires Valid() && IsPath(p)
    {
      g.End(Last(p))
    }

    ghost function Free(p: seq<nat>): set<nat> {
      set v | 0 <= v < g.Order() && v !in p
    }
  }

  ghost predicate AtSlot(s: Search, p: seq<nat>, slot: nat) {
    s.Valid() && s.IsPath(p) && s.First(p) <= slot <= s.Limit(p)
  }

  /** What is recorded below the slots of the last row from `slot` on. */
  ghost function Owed(s: Search, p: seq<nat>, slot: nat): Histogram
    requires AtSlot(s, p, slot)
    decreases s.Free(p), s.Limit(p) - slot
  {
    if slot == s.Limit(p) then multiset{} else Branch(s, p, slot) + Owed(s, p, slot + 1)
  }

  /** What one slot of the last row contributes. */
  ghost function Branch(s: Search, p: seq<nat>, slot: nat): Histogram
    requires AtSlot(s, p, slot) && slot < s.Limit(p)
    decreases s.Free(p), s.Limit(p) - slot, 0
  {
    var next := s.g.targets[slot];
    if !s.Takes(s.Last(p), slot) then multiset{}
    else if next == s.root && |p| >= 2 then multiset{|p|}
    else if next in p || !s.MayGrow(|p|) then multiset{}
    else
      assert next in s.Free(p) && next !in s.Free(p + [next]);
      Owed(s, p + [next], s.g.Begin(next))
  }

  /** The whole subtree below `p`. */
  ghost function Subtree(s: Search, p: seq<nat>): Histogram
    requires s.Valid() && s.IsPath(p)
  {
    Owed(s, p, s.First(p))
  }

  /** A row is read slot by slot. */
  lemma RowStarts(s: Search, p: seq<nat>)
    requires s.Valid() && s.IsPath(p)
    ensures Subtree(s, p) == Owed(s, p, s.First(p)) && Owed(s, p, s.Limit(p)) == multiset{}
  {
  }

  lemma RowGoesOn(s: Search, p: seq<nat>, slot: nat)
    requires AtSlot(s, p, slot) && slot < s.Limit(p)
    ensures Owed(s, p, slot) == Branch(s, p, slot) + Owed(s, p, slot + 1)
  {
  }

  /** Some slot the search may follow leads from `v` to `w`. */
  ghost predicate Linked(s: Search, v: int, w: int)
    requires s.Valid()
  {
    exists slot :: s.g.InRow(v, slot) && s.Takes(v, slot) && s.g.targets[slot] == w
  }

  /** Every link out of `dead` leads into `dead` or back onto the path `p`, and none to the root. */
  ghost predicate Sealed(s: Search, p: seq<nat>, dead: set<nat>)
    requires s.Valid()
  {
    forall v, w :: v in dead && Linked(s, v, w) ==> w != s.root && (w in dead || w in p)
  }

  /** A sealed region contributes nothing, whatever path enters it. */
  lemma {:induction false} SealedOwesNothing(s: Search, p: seq<nat>, q: seq<nat>, dead: set<nat>, slot: nat)
    requires AtSlot(s, q, slot)
    requires Sealed(s, p, dead) && p <= q && s.Last(q) in dead
    ensures Owed(s, q, slot) == multiset{}
    decreases s.Free(q), s.Limit(q) - slot
  {
    if slot < s.Limit(q) {
      var v, next := s.Last(q), s.g.targets[slot];
      assert s.g.InRow(v, slot);
      if s.Takes(v, slot) {
        assert Linked(s, v, next);
        if next !in q {
          assert next in s.Free(q) && next !in s.Free(q + [next]);
          if s.MayGrow(|q|) {
            SealedOwesNothing(s, p, q + [next], dead, s.g.Begin(next));
          }
        }
      }
      SealedOwesNothing(s, p, q, dead, slot + 1);
    }
  }

  /** A length below `p` is at least that of `p`, and within the cap when `p` is. */
  lemma {:induction false} OwedBounds(s: Search, p: seq<nat>, slot: nat, k: nat)
    requires AtSlot(s, p, slot) && k in Owed(s, p, slot)
    ensures 2 <= k && |p| <= k
    ensures s.cap.Some? && |p| <= s.cap.value ==> k <= s.cap.value
    decreases s.Free(p), s.Limit(p) - slot
  {
    var next := s.g.targets[slot];
    if k in Branch(s, p, slot) {
      if !(next == s.root && |p| >= 2) {
        assert next in s.Free(p) && next !in s.Free(p + [next]);
        OwedBounds(s, p + [next], s.g.Begin(next), k);
      }
    } else {
      OwedBounds(s, p, slot + 1, k);
    }
  }

  /** The length is not beyond the cap. */
  ghost predicate WithinCap(cap: Option<nat>, length: nat) {
    cap.Some? ==> length <= cap.value
  }
}
