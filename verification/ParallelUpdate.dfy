/** The incremental update with the changed edges of each phase divided among a team of threads. */
module ParallelUpdate {
  import opened CsrGraphs
  import opened CycleSearch
  import opened EdgeBatches
  import opened EdgeOwnership
  import opened DirectedGraphs
  import opened DynamicUpdate
  import opened StaticUpdate
  import PhaseTeam

  /** Some run of the team finishes with these rows. */
  ghost predicate Outcome(c: PhaseTeam.Config, rows: seq<seq<int>>) {
    exists run: seq<PhaseTeam.State> ::
      PhaseTeam.IsRun(c, run) && PhaseTeam.AllFinished(run[|run| - 1]) && run[|run| - 1].rows == rows
  }

  /** A team answers a phase with the rows of some finished run; its scheduler may pick any. */
  ghost predicate IsTeam(team: PhaseTeam.Config -> seq<seq<int>>) {
    forall c: PhaseTeam.Config :: c.Valid() ==> Outcome(c, team(c))
  }

  lemma OutcomeExists(c: PhaseTeam.Config)
    requires c.Valid()
    ensures exists rows :: Outcome(c, rows)
  {
    var run := PhaseTeam.RunsBegin(c);
    run := PhaseTeam.RunsCanFinish(c, run);
    assert Outcome(c, run[|run| - 1].rows);
  }

  ghost function SomeOutcome(c: PhaseTeam.Config): (rows: seq<seq<int>>)
    ensures c.Valid() ==> Outcome(c, rows)
  {
    if c.Valid() then
      OutcomeExists(c);
      var rows :| Outcome(c, rows);
      rows
    else []
  }

  /** There is a team. */
  lemma TeamsExist() returns (team: PhaseTeam.Config -> seq<seq<int>>)
    ensures IsTeam(team)
  {
    team := (c: PhaseTeam.Config) => SomeOutcome(c);
  }

  /** Whatever finished run the team made, its columns are the signed counts of the phase. */
  lemma OutcomeIsPhase(c: PhaseTeam.Config, rows: seq<seq<int>>)
    requires Outcome(c, rows)
    ensures c.Valid() && |rows| == c.threads && forall t :: 0 <= t < c.threads ==> |rows[t]| == c.limit + 1
    ensures forall k :: 2 <= k <= c.limit ==>
              PhaseTeam.Column(rows, k, c.threads) == c.sign * PhaseTally(c.g, c.changes, c.limit, |c.changes|)[k]
  {
    hide PhaseTally, PhaseTeam.Init, PhaseTeam.Next, PhaseTeam.Column;
    var run: seq<PhaseTeam.State> :|
      PhaseTeam.IsRun(c, run) && PhaseTeam.AllFinished(run[|run| - 1]) && run[|run| - 1].rows == rows;
    PhaseTeam.RunKeepsInv(c, run, |run| - 1);
    forall k | 2 <= k <= c.limit
      ensures PhaseTeam.Column(rows, k, c.threads) == c.sign * PhaseTally(c.g, c.changes, c.limit, |c.changes|)[k]
    {
      PhaseTeam.FinishedRunCounts(c, run, k);
    }
  }

  /** The reduction: the rows of all threads enter the delta. */
  method Reduce(limit: nat, rows: seq<seq<int>>, delta: array<int>)
    requires delta.Length == limit + 1 && forall t :: 0 <= t < |rows| ==> |rows[t]| == limit + 1
    modifies delta
    ensures forall k :: 0 <= k <= limit ==> delta[k] == old(delta[k]) + if k >= 2 then PhaseTeam.Column(rows, k, |rows|) else 0
  {
    for t := 0 to |rows|
      invariant forall k :: 0 <= k <= limit ==> delta[k] == old(delta[k]) + if k >= 2 then PhaseTeam.Column(rows, k, t) else 0
    {
      ghost var before := delta[..];
      var length := 2;
      while length <= limit
        invariant 2 <= length
        invariant forall k :: 0 <= k <= limit ==> delta[k] == before[k] + if 2 <= k < length then rows[t][k] else 0
      {
        delta[length] := delta[length] + rows[t][length];
        length := length + 1;
      }
    }
  }

  /** One phase on a team of threads. */
  method AccumulatePhaseParallel(team: PhaseTeam.Config -> seq<seq<int>>, g: Csr, changes: seq<Edge>, limit: nat, sign: int,
                                 threads: nat, delta: array<int>)
    requires IsTeam(team) && g.Valid() && limit >= 2 && delta.Length == limit + 1 && threads > 0 && (sign == 1 || sign == -1)
    modifies delta
    ensures Moves(old(delta[..]), delta[..], sign, PhaseTally(g, changes, limit, |changes|))
  {
    hide Outcome, PhaseTally, PhaseTeam.Column;
    if |changes| == 0 {
      NoPhase(g, changes, limit);
      return;
    }
    var c := PhaseTeam.Config(g, changes, limit, sign, threads);
    OutcomeIsPhase(c, team(c));
    Reduce(limit, team(c), delta);
  }

  lemma NoPhase(g: Csr, changes: seq<Edge>, limit: nat)
    requires g.Valid() && changes == []
    ensures PhaseTally(g, changes, limit, |changes|) == multiset{}
  {
  }

  /** The update with both phases on several threads: the result of the sequential update. */
  method UpdateStaticHistogramParallel(team: PhaseTeam.Config -> seq<seq<int>>, initial: Csr, base: Histogram, batch: EdgeBatch, limit: nat,
                                       threads: nat)
    returns (r: UpdateResult, ghost final: Csr)
    requires IsTeam(team) && initial.Canonical() && InsertionsFit(initial.Order(), batch) && threads > 0
    ensures r.InvalidCap? <==> limit < 2
    ensures final.Valid() && (limit >= 2 ==> FinalGraph(initial, batch, final))
    ensures r.Updated? ==> forall k: nat :: r.histogram[k] == UpdatedBin(initial, final, base, batch, limit, k)
    ensures r.NegativeCount? ==> exists k: nat :: UpdatedBin(initial, final, base, batch, limit, k) < 0
    ensures limit >= 2 && BatchFits(initial, batch) && BatchMatches(initial, batch) && base == Recount(initial, limit) ==>
              r == Updated(Recount(final, limit))
  {
    hide PhaseTally, Csr.HasEdge, EdgeAfter, IsTeam;
    if limit < 2 {
      return InvalidCap, initial;
    }
    var normalized := Normalize(batch);
    BatchAfter(initial, batch);
    var delta := new int[limit + 1](_ => 0);
    AccumulatePhaseParallel(team, initial, normalized.deletions, limit, -1, threads, delta);
    var result := ApplyBatch(initial, normalized);
    final := result;
    AccumulatePhaseParallel(team, result, normalized.insertions, limit, 1, threads, delta);
    r := ApplyHistogramDelta(base, delta[..], limit);
    forall k: nat ensures Shifted(base, delta[..], limit, k) == UpdatedBin(initial, final, base, batch, limit, k) {}
    if BatchFits(initial, batch) && BatchMatches(initial, batch) && base == Recount(initial, limit) {
      forall k: nat ensures UpdatedBin(initial, final, base, batch, limit, k) == Recount(final, limit)[k] {
        UpdateEqualsRecount(initial, final, base, batch, limit, k);
      }
    }
  }
}
