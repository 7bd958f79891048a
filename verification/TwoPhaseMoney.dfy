/** Conservation of money under two-phase commit, and when the transfer's legs balance at all. */
module TwoPhaseMoney {
  import opened Common
  import opened Sums
  import opened TwoPhase
  import opened TwoPhaseSafety

  ghost function LedgerTotal(ledger: map<Tenant, int>): int {
    Sum(ledger.Keys, t => if t in ledger then ledger[t] else 0)
  }

  ghost function Money(nodes: Nodes): int {
    Sum(nodes.Keys, shard => if shard in nodes then LedgerTotal(nodes[shard].ledger) else 0)
  }

  function PreparedDelta(n: Node, g: Gid): int {
    if IsPrepared(n, g) then Delta(n.legs[g].effect) else 0
  }

  function LegDelta(n: Node, g: Gid): int {
    if g in n.legs then Delta(n.legs[g].effect) else 0
  }

  /** What the legs of g that are still prepared will add when they commit. */
  ghost function PreparedSum(nodes: Nodes, g: Gid): int {
    Sum(nodes.Keys, shard => if shard in nodes then PreparedDelta(nodes[shard], g) else 0)
  }

  /** What all legs of g together add. */
  ghost function EffectSum(nodes: Nodes, g: Gid): int {
    Sum(nodes.Keys, shard => if shard in nodes then LegDelta(nodes[shard], g) else 0)
  }

  ghost predicate Decided(s: System, g: Gid) {
    !NoLegIs(s, g, Committed)
  }

  ghost function Owing(s: System, g: Gid): int {
    if Decided(s, g) then PreparedSum(s.nodes, g) else 0
  }

  /** All ledgers, counting the prepared legs of every transaction one of whose legs has committed. */
  ghost function DecidedTotal(s: System): int {
    Money(s.nodes) + Sum(s.txs.Keys, g => Owing(s, g))
  }

  lemma ApplyTotal(ledger: map<Tenant, int>, e: Effect)
    ensures LedgerTotal(Apply(ledger, e)) == LedgerTotal(ledger) + Delta(e)
  {
    var after := Apply(ledger, e);
    var was, now := t => if t in ledger then ledger[t] else 0, t => if t in after then after[t] else 0;
    if e.Add? && e.tenant in ledger {
      assert after.Keys == ledger.Keys;
      SumChange(ledger.Keys, was, now, e.tenant);
    } else if e.Add? {
      assert after.Keys == ledger.Keys + {e.tenant};
      SumAdd(ledger.Keys, now, e.tenant);
      SumAgree(ledger.Keys, was, now);
    }
  }

  lemma MoneyChange(nodes: Nodes, shard: ShardId, n: Node)
    requires shard in nodes
    ensures Money(nodes[shard := n]) == Money(nodes) - LedgerTotal(nodes[shard].ledger) + LedgerTotal(n.ledger)
  {
    var after := nodes[shard := n];
    assert after.Keys == nodes.Keys;
    SumChange(nodes.Keys, i => if i in nodes then LedgerTotal(nodes[i].ledger) else 0,
              i => if i in after then LedgerTotal(after[i].ledger) else 0, shard);
  }

  lemma PreparedChange(nodes: Nodes, shard: ShardId, n: Node, g: Gid)
    requires shard in nodes
    ensures PreparedSum(nodes[shard := n], g) == PreparedSum(nodes, g) - PreparedDelta(nodes[shard], g) + PreparedDelta(n, g)
  {
    var after := nodes[shard := n];
    assert after.Keys == nodes.Keys;
    SumChange(nodes.Keys, i => if i in nodes then PreparedDelta(nodes[i], g) else 0,
              i => if i in after then PreparedDelta(after[i], g) else 0, shard);
  }

  lemma OtherOwingSame(s: System, g: Gid, step: Step, h: Gid)
    requires Enabled(s, g, step) && h != g
    ensures Owing(Next(s, g, step), h) == Owing(s, h)
  {
    var t := Next(s, g, step);
    StepFrame(s, g, step, h);
    SumAgree(s.nodes.Keys, i => if i in s.nodes then PreparedDelta(s.nodes[i], h) else 0,
             i => if i in t.nodes then PreparedDelta(t.nodes[i], h) else 0);
    assert NoLegIs(s, h, Committed) <==> NoLegIs(t, h, Committed);
  }

  // Before the first commit every leg is prepared, so the two sums are the same.
  lemma UndecidedSums(s: System, g: Gid)
    requires NoLegIs(s, g, Committed) && NoLegIs(s, g, Aborted)
    ensures PreparedSum(s.nodes, g) == EffectSum(s.nodes, g)
  {
    forall i | i in s.nodes
      ensures PreparedDelta(s.nodes[i], g) == LegDelta(s.nodes[i], g)
    {
      if g in s.nodes[i].legs {
        assert !Has(s, g, i, Committed) && !Has(s, g, i, Aborted);
      }
    }
    SumAgree(s.nodes.Keys, i => if i in s.nodes then PreparedDelta(s.nodes[i], g) else 0,
             i => if i in s.nodes then LegDelta(s.nodes[i], g) else 0);
  }

  ghost predicate Decides(s: System, g: Gid, step: Step)
    requires Enabled(s, g, step)
  {
    !Decided(s, g) && Decided(Next(s, g, step), g)
  }

  /** The step that commits leg g on this shard. */
  predicate Commits(s: System, g: Gid, step: Step, shard: ShardId) {
    (step.CommitLeg? || step.ResolveCommit?) && step.shard == shard
    && (step.CommitLeg? ==> !step.reply.ErrorBefore?)
    && shard in s.nodes && IsPrepared(s.nodes[shard], g)
  }

  // A committing leg moves its delta from what the transaction owes into the ledger; the first leg to
  // commit brings the whole transaction's effect with it.
  lemma CommitTotal(s: System, g: Gid, step: Step, shard: ShardId)
    requires Inv(s) && Enabled(s, g, step) && Commits(s, g, step, shard)
    ensures var t := Next(s, g, step);
            && Decided(t, g)
            && Money(t.nodes) == Money(s.nodes) + PreparedDelta(s.nodes[shard], g)
            && Owing(t, g) == PreparedSum(s.nodes, g) - PreparedDelta(s.nodes[shard], g)
            && (!Decided(s, g) ==> PreparedSum(s.nodes, g) == EffectSum(s.nodes, g))
  {
    var t, n := Next(s, g, step), CommitOn(s.nodes[shard], g);
    assert t.nodes == s.nodes[shard := n];
    assert Has(t, g, shard, Committed);
    ApplyTotal(s.nodes[shard].ledger, s.nodes[shard].legs[g].effect);
    MoneyChange(s.nodes, shard, n);
    PreparedChange(s.nodes, shard, n, g);
    if !Decided(s, g) {
      UndecidedSums(s, g);
    }
  }

  lemma NothingCommittedYet(s: System, g: Gid, step: Step)
    requires Inv(s) && Enabled(s, g, step) && (step.PrepareLeg? || step.RollbackLeg? || step.ResolveRollback?)
    ensures NoLegIs(s, g, Committed)
  {
    if step.PrepareLeg? {
      var c := s.txs[g].coord;
      forall i | i in s.nodes
        ensures !Has(s, g, i, Committed)
      {
        assert g in s.nodes[i].legs ==> i in c.todo + c.prepared;
      }
    }
  }

  // A step that commits nothing decides nothing and moves nothing.
  lemma QuietTotal(s: System, g: Gid, step: Step)
    requires Inv(s) && Enabled(s, g, step) && forall shard :: !Commits(s, g, step, shard)
    ensures var t := Next(s, g, step);
            && Money(t.nodes) == Money(s.nodes)
            && (Decided(t, g) <==> Decided(s, g))
            && Owing(t, g) == Owing(s, g)
  {
    var t := Next(s, g, step);
    if t.nodes != s.nodes {
      var shard := step.shard;
      assert !Commits(s, g, step, shard);
      assert t.nodes == s.nodes[shard := t.nodes[shard]];
      MoneyChange(s.nodes, shard, t.nodes[shard]);
      NothingCommittedYet(s, g, step);
      assert NoLegIs(t, g, Committed);
    }
  }

  // The total changes only when a transaction is decided, and then by what its legs add together.
  lemma StepTotal(s: System, g: Gid, step: Step)
    requires Inv(s) && Enabled(s, g, step)
    ensures DecidedTotal(Next(s, g, step)) == DecidedTotal(s) + if Decides(s, g, step) then EffectSum(s.nodes, g) else 0
  {
    var t := Next(s, g, step);
    forall h | h in s.txs && h != g {
      OtherOwingSame(s, g, step, h);
    }
    var was, now := h => Owing(s, h), h => Owing(t, h);
    if step.Start? {
      assert t.txs.Keys == s.txs.Keys + {g};
      SumAdd(s.txs.Keys, now, g);
      SumAgree(s.txs.Keys, was, now);
    } else {
      assert t.txs.Keys == s.txs.Keys;
      SumChange(s.txs.Keys, was, now, g);
    }
    if shard :| Commits(s, g, step, shard) {
      CommitTotal(s, g, step, shard);
    } else {
      QuietTotal(s, g, step);
    }
  }

  // If every transaction that gets decided has legs that balance, no run creates or destroys money:
  // every ledger change not yet matched by its other leg is a prepared leg that can only commit.
  lemma {:induction false} RunConserves(states: seq<System>, moves: seq<TwoPhaseSafety.Move>)
    requires Run(states, moves)
    requires forall i :: 0 <= i < |moves| ==>
      Enabled(states[i], moves[i].g, moves[i].step)
      && (Decides(states[i], moves[i].g, moves[i].step) ==> EffectSum(states[i].nodes, moves[i].g) == 0)
    ensures DecidedTotal(states[|moves|]) == Money(states[0].nodes)
    decreases |moves|
  {
    if moves == [] {
      assert states[0].txs.Keys == {};
    } else {
      var n := |moves| - 1;
      RunConserves(states[..n + 1], moves[..n]);
      RunKeepsInv(states[..n + 1], moves[..n]);
      StepTotal(states[n], moves[n].g, moves[n].step);
    }
  }

  // Once no decided transaction has a leg left to commit, the ledgers alone hold all the money.
  lemma NothingOwing(s: System)
    requires forall g, shard :: g in s.txs && Decided(s, g) ==> !Has(s, g, shard, Prepared)
    ensures DecidedTotal(s) == Money(s.nodes)
  {
    forall g | g in s.txs
      ensures Owing(s, g) == 0
    {
      if Decided(s, g) {
        forall i | i in s.nodes
          ensures PreparedDelta(s.nodes[i], g) == 0
        {
          assert !Has(s, g, i, Prepared);
        }
        SumZero(s.nodes.Keys, i => if i in s.nodes then PreparedDelta(s.nodes[i], g) else 0);
      }
    }
    SumZero(s.txs.Keys, g => Owing(s, g));
  }

  // ---- the transfer of `shardctl transfer 2pc` ----

  datatype Transfer = Transfer(src: ShardId, dst: ShardId, from: Tenant, to: Tenant, cents: int)

  /** The credit leg is left out when both tenants share a shard. */
  function PartsOf(t: Transfer): Parts {
    if t.src == t.dst then map[t.src := Debit(t.from, t.cents)]
    else map[t.src := Debit(t.from, t.cents), t.dst := Credit(t.to, t.cents)]
  }

  /** Exactly when the legs of a transfer cancel, once they all exist. */
  ghost predicate Balances(s: System, g: Gid, t: Transfer)
    requires g in s.txs && s.txs[g].parts == PartsOf(t) && Complete(s, g)
  {
    assert t.src in PartsOf(t);
    t.cents == 0 || (t.src != t.dst <==> s.nodes[t.src].legs[g].effect.Add?)
  }

  // Committing a transfer conserves money exactly when it moves nothing, or its tenants live on two
  // shards and the debit matched its row, or they share a shard and the debit matched no row.
  lemma TransferBalancesIff(s: System, g: Gid, t: Transfer)
    requires Inv(s) && g in s.txs && s.txs[g].parts == PartsOf(t) && Complete(s, g)
    ensures EffectSum(s.nodes, g) == 0 <==> Balances(s, g, t)
  {
    var f := i => if i in s.nodes then LegDelta(s.nodes[i], g) else 0;
    assert t.src in PartsOf(t);
    SumRemove(s.nodes.Keys, f, t.src);
    var rest := s.nodes.Keys - {t.src};
    forall i | i in s.nodes && i != t.src && i != t.dst
      ensures f(i) == 0
    {
      assert g in s.nodes[i].legs ==> i in PartsOf(t);
    }
    if t.src != t.dst {
      assert t.dst in PartsOf(t);
      SumRemove(rest, f, t.dst);
      SumZero(rest - {t.dst}, f);
    } else {
      SumZero(rest, f);
    }
  }

  // The debit matches its row exactly when the balance covers it; an uncovered debit still prepares.
  lemma DebitMatchesIffCovered(n: Node, g: Gid, t: Tenant, c: int)
    requires CanPrepare(n, g, Debit(t, c))
    ensures PrepareOn(n, g, Debit(t, c)).legs[g].effect.Add? <==> t in n.ledger && n.ledger[t] >= c
  {
  }

  /** Every statement that runs changes its row: no debit of the run finds its balance too low. */
  predicate Covered(s: System, g: Gid, step: Step) {
    step.PrepareLeg? && g in s.txs && step.shard in s.nodes && step.shard in s.txs[g].parts ==>
      match s.txs[g].parts[step.shard]
      case Debit(t, c) => t in s.nodes[step.shard].ledger && s.nodes[step.shard].ledger[t] >= c
      case Credit(_, _) => true
  }

  ghost predicate AllLegsAdd(s: System) {
    forall shard, g :: shard in s.nodes && g in s.nodes[shard].legs ==> s.nodes[shard].legs[g].effect.Add?
  }

  lemma StepKeepsAdds(s: System, g: Gid, step: Step)
    requires Enabled(s, g, step) && Covered(s, g, step) && AllLegsAdd(s)
    ensures AllLegsAdd(Next(s, g, step))
  {
  }

  ghost predicate Planned(s: System, plan: Gid -> Transfer) {
    forall g :: g in s.txs ==> s.txs[g].parts == PartsOf(plan(g)) && plan(g).src != plan(g).dst
  }

  ghost predicate TransferRun(states: seq<System>, moves: seq<TwoPhaseSafety.Move>, plan: Gid -> Transfer) {
    && Run(states, moves)
    && (forall i :: 0 <= i < |moves| ==> Covered(states[i], moves[i].g, moves[i].step))
    && (forall i :: 0 <= i < |moves| ==> Planned(states[i], plan))
  }

  // Any number of interleaved transfers between tenants on different shards, none of which finds its
  // source balance too low, conserve the money in all ledgers plus that of the legs still to commit.
  lemma {:induction false} TransfersConserve(states: seq<System>, moves: seq<TwoPhaseSafety.Move>, plan: Gid -> Transfer)
    requires TransferRun(states, moves, plan)
    ensures AllLegsAdd(states[|moves|])
    ensures DecidedTotal(states[|moves|]) == Money(states[0].nodes)
    decreases |moves|
  {
    if moves == [] {
      assert states[0].txs.Keys == {};
    } else {
      var n := |moves| - 1;
      TransfersConserve(states[..n + 1], moves[..n], plan);
      RunKeepsInv(states[..n + 1], moves[..n]);
      TransferStep(states[n], moves[n].g, moves[n].step, plan);
    }
  }

  lemma TransferStep(s: System, g: Gid, step: Step, plan: Gid -> Transfer)
    requires Inv(s) && Enabled(s, g, step) && Planned(s, plan) && Covered(s, g, step) && AllLegsAdd(s)
    ensures AllLegsAdd(Next(s, g, step)) && DecidedTotal(Next(s, g, step)) == DecidedTotal(s)
  {
    StepTotal(s, g, step);
    StepKeepsAdds(s, g, step);
    if Decides(s, g, step) {
      DecidingIsComplete(s, g, step);
      TransferBalancesIff(s, g, plan(g));
      assert plan(g).src in s.txs[g].parts;
    }
  }

  lemma DecidingIsComplete(s: System, g: Gid, step: Step)
    requires Inv(s) && Enabled(s, g, step) && Decides(s, g, step)
    ensures g in s.txs && Complete(s, g)
  {
    if !step.CommitLeg? && !step.ResolveCommit? {
      assert forall shard :: !Commits(s, g, step, shard);
      QuietTotal(s, g, step);
    }
  }

  // ---- balances ----

  predicate Locks(leg: Leg) {
    leg.status.Prepared? && leg.effect.Add?
  }

  /** Row locks in terms of what is kept: one prepared change per row, and no balance leaves its range. */
  ghost predicate Solvent(n: Node) {
    && (forall t :: t in n.ledger ==> 0 <= n.ledger[t] <= INT64_MAX)
    && (forall g :: g in n.legs && Locks(n.legs[g]) ==>
          0 <= Balance(n, n.legs[g].effect.tenant) + n.legs[g].effect.delta <= INT64_MAX)
    && (forall g, h :: g in n.legs && h in n.legs && g != h && Locks(n.legs[g]) && Locks(n.legs[h]) ==>
          n.legs[g].effect.tenant != n.legs[h].effect.tenant)
  }

  lemma PrepareKeepsSolvent(n: Node, g: Gid, w: Work)
    requires Solvent(n) && CanPrepare(n, g, w) && w.cents >= 0
    ensures Solvent(PrepareOn(n, g, w))
  {
  }

  lemma CommitKeepsSolvent(n: Node, g: Gid)
    requires Solvent(n) && IsPrepared(n, g)
    ensures Solvent(CommitOn(n, g))
  {
  }

  // No step of any transaction moving non-negative amounts overdraws a balance or overflows it.
  lemma StepKeepsSolvent(s: System, g: Gid, step: Step)
    requires Enabled(s, g, step) && forall shard :: shard in s.nodes ==> Solvent(s.nodes[shard])
    requires g in s.txs ==> forall shard :: shard in s.txs[g].parts ==> s.txs[g].parts[shard].cents >= 0
    ensures forall shard :: shard in s.nodes ==> shard in Next(s, g, step).nodes && Solvent(Next(s, g, step).nodes[shard])
  {
    var t := Next(s, g, step);
    if t.nodes != s.nodes {
      var shard := step.shard;
      if step.PrepareLeg? {
        PrepareKeepsSolvent(s.nodes[shard], g, s.txs[g].parts[shard]);
      } else if step.CommitLeg? || step.ResolveCommit? {
        CommitKeepsSolvent(s.nodes[shard], g);
      }
      assert t.nodes == s.nodes[shard := t.nodes[shard]];
      assert Solvent(t.nodes[shard]);
    }
  }
}
