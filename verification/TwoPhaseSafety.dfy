/** What two-phase commit guarantees over whole runs: atomicity, outcomes, conservation, solvency. */
module TwoPhaseSafety {
  import opened Sums
  import opened TwoPhase

  datatype Move = Move(g: Gid, step: Step)

  ghost predicate Init(s: System) {
    s.txs == map[] && forall shard :: shard in s.nodes ==> s.nodes[shard].legs == map[]
  }

  ghost predicate Run(states: seq<System>, moves: seq<Move>) {
    && |states| == |moves| + 1
    && Init(states[0])
    && forall i :: 0 <= i < |moves| ==>
         Enabled(states[i], moves[i].g, moves[i].step) && states[i + 1] == Next(states[i], moves[i].g, moves[i].step)
  }

  lemma {:induction false} RunKeepsInv(states: seq<System>, moves: seq<Move>)
    requires Run(states, moves)
    ensures Inv(states[|moves|])
    decreases |moves|
  {
    if moves != [] {
      var n := |moves| - 1;
      RunKeepsInv(states[..n + 1], moves[..n]);
      StepKeepsInv(states[n], moves[n].g, moves[n].step);
    }
  }

  // In every run, through lost answers, coordinator deaths, any number of concurrent transactions and
  // uniform resolution of orphans, no transaction is half committed and half rolled back.
  lemma NeverSplit(states: seq<System>, moves: seq<Move>, g: Gid, a: ShardId, b: ShardId)
    requires Run(states, moves)
    ensures !(Has(states[|moves|], g, a, Committed) && Has(states[|moves|], g, b, Aborted))
  {
    RunKeepsInv(states, moves);
    var s := states[|moves|];
    if Has(s, g, a, Committed) {
      assert g in s.txs && !NoLegIs(s, g, Committed);
    }
  }

  // What the answer of `Do` means, however much later it is looked at.
  lemma ResultsMean(states: seq<System>, moves: seq<Move>, g: Gid)
    requires Run(states, moves) && g in states[|moves|].txs && states[|moves|].txs[g].coord.Ended?
    ensures var s := states[|moves|];
            match s.txs[g].coord.result
            case Success => forall shard :: shard in s.txs[g].parts ==> Has(s, g, shard, Committed)
            case PhaseOneError => NoLegIs(s, g, Committed)
            case PhaseTwoError => Complete(s, g)
  {
    RunKeepsInv(states, moves);
  }

  // ---- orphans ----

  ghost predicate Split(s: System, g: Gid) {
    !NoLegIs(s, g, Committed) && !NoLegIs(s, g, Aborted)
  }

  function PreparedShards(s: System, g: Gid): set<ShardId> {
    set shard | shard in s.nodes && Has(s, g, shard, Prepared)
  }

  ghost predicate Abandoned(s: System, g: Gid) {
    g in s.txs && (s.txs[g].coord.Dead? || (s.txs[g].coord.Ended? && s.txs[g].coord.result != Success))
  }

  /** Whatever a failed or dead coordinator left behind can be resolved, all legs alike. */
  ghost function Resolve(s: System, g: Gid): (t: System)
    requires Inv(s) && Abandoned(s, g)
    ensures Inv(t) && g in t.txs && t.txs[g] == s.txs[g] && PreparedShards(t, g) == {}
    ensures !NoLegIs(s, g, Committed) || s.txs[g].coord == Ended(PhaseTwoError) ==>
              forall shard :: shard in s.txs[g].parts ==> Has(t, g, shard, Committed)
    decreases PreparedShards(s, g)
  {
    var orphans := PreparedShards(s, g);
    if orphans == {} then
      CompleteIsCommitted(s, g);
      s
    else
      var shard := Pick(orphans);
      var step := if NoLegIs(s, g, Committed) && s.txs[g].coord != Ended(PhaseTwoError) then ResolveRollback(shard) else ResolveCommit(shard);
      StepKeepsInv(s, g, step);
      ResolveShrinks(s, g, step, shard);
      Resolve(Next(s, g, step), g)
  }

  lemma CompleteIsCommitted(s: System, g: Gid)
    requires g in s.txs && PreparedShards(s, g) == {}
    ensures Complete(s, g) ==> forall shard :: shard in s.txs[g].parts ==> Has(s, g, shard, Committed)
  {
    assert forall shard :: Has(s, g, shard, Prepared) ==> shard in PreparedShards(s, g);
  }

  lemma ResolveShrinks(s: System, g: Gid, step: Step, shard: ShardId)
    requires Inv(s) && Enabled(s, g, step) && (step == ResolveRollback(shard) || step == ResolveCommit(shard))
    ensures var t := Next(s, g, step);
            && t.txs == s.txs
            && shard in PreparedShards(s, g)
            && PreparedShards(t, g) == PreparedShards(s, g) - {shard}
            && (step.ResolveCommit? ==> !NoLegIs(t, g, Committed))
            && (step.ResolveRollback? ==> NoLegIs(t, g, Committed))
  {
    var t := Next(s, g, step);
    if step.ResolveCommit? {
      assert Has(t, g, shard, Committed);
    }
  }
}
