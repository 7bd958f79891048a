/** What rolling orphans back does to money, over later runs. */
module TwoPhaseOrphanMoney {
  import opened Common
  import opened Sums
  import opened TwoPhase
  import opened TwoPhaseSafety
  import opened TwoPhaseMoney
  import opened TwoPhaseOrphans

  function CommittedDelta(n: Node, g: Gid): int {
    if g in n.legs && n.legs[g].status.Committed? then Delta(n.legs[g].effect) else 0
  }

  function AbortedDelta(n: Node, g: Gid): int {
    if g in n.legs && n.legs[g].status.Aborted? then Delta(n.legs[g].effect) else 0
  }

  /** What a transaction has put into the ledgers so far. */
  ghost function CommittedSum(nodes: Nodes, g: Gid): int {
    Sum(nodes.Keys, shard => if shard in nodes then CommittedDelta(nodes[shard], g) else 0)
  }

  ghost function AbortedSum(nodes: Nodes, g: Gid): int {
    Sum(nodes.Keys, shard => if shard in nodes then AbortedDelta(nodes[shard], g) else 0)
  }

  /** What a transaction has created or, below zero, destroyed: what it put in and still owes once decided. */
  ghost function Account(s: System, g: Gid): int {
    CommittedSum(s.nodes, g) + Owing(s, g)
  }

  /** The ledgers without what the known transactions put into them. */
  ghost function Base(s: System): int {
    Money(s.nodes) - Sum(s.txs.Keys, g => CommittedSum(s.nodes, g))
  }

  // The decided total is a constant plus every transaction's account.
  lemma TotalIsBasePlusAccounts(s: System)
    ensures DecidedTotal(s) == Base(s) + Sum(s.txs.Keys, g => Account(s, g))
  {
    SumPlus(s.txs.Keys, g => CommittedSum(s.nodes, g), g => Owing(s, g), g => Account(s, g));
  }

  lemma CommittedChange(nodes: Nodes, shard: ShardId, n: Node, g: Gid)
    requires shard in nodes
    ensures CommittedSum(nodes[shard := n], g) == CommittedSum(nodes, g) - CommittedDelta(nodes[shard], g) + CommittedDelta(n, g)
  {
    var after := nodes[shard := n];
    assert after.Keys == nodes.Keys;
    SumChange(nodes.Keys, i => if i in nodes then CommittedDelta(nodes[i], g) else 0,
              i => if i in after then CommittedDelta(after[i], g) else 0, shard);
  }

  lemma OtherCommittedSame(s: System, t: System, h: Gid)
    requires SameTx(s, t, h)
    ensures CommittedSum(t.nodes, h) == CommittedSum(s.nodes, h)
  {
    var was, now := i => if i in s.nodes then CommittedDelta(s.nodes[i], h) else 0, i => if i in t.nodes then CommittedDelta(t.nodes[i], h) else 0;
    forall i | i in s.nodes.Keys
      ensures was(i) == now(i)
    {
      assert i in s.nodes;
    }
    SumAgree(s.nodes.Keys, was, now);
  }

  lemma NoLegsNothingCommitted(nodes: Nodes, g: Gid)
    requires forall shard :: shard in nodes ==> g !in nodes[shard].legs
    ensures CommittedSum(nodes, g) == 0
  {
    var f := i => if i in nodes then CommittedDelta(nodes[i], g) else 0;
    forall i | i in nodes.Keys
      ensures f(i) == 0
    {
      assert i in nodes;
    }
    SumZero(nodes.Keys, f);
  }

  // A step puts into the ledgers exactly what it adds to its own transaction's committed legs.
  lemma OwnCommitted(s: System, g: Gid, step: Step)
    requires Enabled(s, g, step)
    ensures var t := Next(s, g, step);
            Money(t.nodes) - Money(s.nodes) == CommittedSum(t.nodes, g) - CommittedSum(s.nodes, g)
  {
    var t := Next(s, g, step);
    if t.nodes != s.nodes {
      var shard := step.shard;
      var n := t.nodes[shard];
      assert t.nodes == s.nodes[shard := n];
      MoneyChange(s.nodes, shard, n);
      CommittedChange(s.nodes, shard, n, g);
      if step.CommitLeg? || step.ResolveCommit? {
        ApplyTotal(s.nodes[shard].ledger, s.nodes[shard].legs[g].effect);
      }
    }
  }

  lemma StepKeepsBase(s: System, g: Gid, step: Step)
    requires Enabled(s, g, step)
    ensures Base(Next(s, g, step)) == Base(s)
  {
    var t := Next(s, g, step);
    OwnCommitted(s, g, step);
    var was, now := h => CommittedSum(s.nodes, h), h => CommittedSum(t.nodes, h);
    forall h | h != g
      ensures now(h) == was(h)
    {
      StepFrame(s, g, step, h);
      OtherCommittedSame(s, t, h);
    }
    if step.Start? {
      assert t.txs.Keys == s.txs.Keys + {g};
      NoLegsNothingCommitted(s.nodes, g);
      SumAdd(s.txs.Keys, now, g);
      SumAgree(s.txs.Keys, was, now);
    } else {
      assert t.txs.Keys == s.txs.Keys;
      SumChange(s.txs.Keys, was, now, g);
    }
  }

  lemma RolledCommittedSame(n: Node, m: Node, g: Gid)
    requires RolledNode(n, m)
    ensures CommittedDelta(m, g) == CommittedDelta(n, g)
  {
    assert g in n.legs <==> g in m.legs;
  }

  lemma RolledKeepsBase(s: System, t: System)
    requires RolledLegs(s, t)
    ensures Base(t) == Base(s)
  {
    forall i | i in s.nodes
      ensures t.nodes[i].ledger == s.nodes[i].ledger
    {
      assert RolledNode(s.nodes[i], t.nodes[i]);
    }
    SumAgree(s.nodes.Keys, i => if i in s.nodes then LedgerTotal(s.nodes[i].ledger) else 0,
             i => if i in t.nodes then LedgerTotal(t.nodes[i].ledger) else 0);
    forall g
      ensures CommittedSum(t.nodes, g) == CommittedSum(s.nodes, g)
    {
      forall i | i in s.nodes {
        RolledCommittedSame(s.nodes[i], t.nodes[i], g);
      }
      SumAgree(s.nodes.Keys, i => if i in s.nodes then CommittedDelta(s.nodes[i], g) else 0,
               i => if i in t.nodes then CommittedDelta(t.nodes[i], g) else 0);
    }
    SumAgree(s.txs.Keys, g => CommittedSum(s.nodes, g), g => CommittedSum(t.nodes, g));
  }

  // So over any later run, however orphans were rolled back before it, the decided total differs from
  // a constant by the accounts alone.
  lemma {:induction false} AccountsExplainTotal(s: System, t: System, moves: seq<Move>, u: System)
    requires RolledLegs(s, t) && Follow(t, moves) == Some(u)
    ensures DecidedTotal(u) == Base(s) + Sum(u.txs.Keys, g => Account(u, g))
  {
    RolledKeepsBase(s, t);
    FollowKeepsBase(t, moves, u);
    TotalIsBasePlusAccounts(u);
  }

  lemma {:induction false} FollowKeepsBase(t: System, moves: seq<Move>, u: System)
    requires Follow(t, moves) == Some(u)
    ensures Base(u) == Base(t)
    decreases |moves|
  {
    if moves != [] {
      var n := |moves| - 1;
      var prev := Follow(t, moves[..n]).value;
      FollowKeepsBase(t, moves[..n], prev);
      StepKeepsBase(prev, moves[n].g, moves[n].step);
    }
  }

  // ---- one leg rolled back from a transaction whose legs all exist ----

  /** The legs of g have the same effects as before. */
  ghost predicate SameEffects(s: System, u: System, g: Gid) {
    && u.nodes.Keys == s.nodes.Keys
    && forall shard :: shard in s.nodes ==>
         (g in s.nodes[shard].legs <==> g in u.nodes[shard].legs)
         && (g in s.nodes[shard].legs ==> u.nodes[shard].legs[g].effect == s.nodes[shard].legs[g].effect)
  }

  /** The leg on this shard is the only aborted one, and a coordinator past its prepares owns the rest. */
  ghost predicate OnlyAborted(u: System, g: Gid, shard: ShardId) {
    && g in u.txs
    && (forall o :: Has(u, g, o, Aborted) <==> o == shard)
    && (u.txs[g].coord.Preparing? ==> u.txs[g].coord.todo == {})
    && (!NoLegIs(u, g, Committed) ==> !u.txs[g].coord.Preparing? && !u.txs[g].coord.RollingBack?)
  }

  ghost predicate Since(s: System, u: System, g: Gid, shard: ShardId) {
    Torn(u, g) && (Doomed(u, g) ==> SameEffects(s, u, g) && OnlyAborted(u, g, shard))
  }

  lemma RollBackSince(s: System, g: Gid, shard: ShardId)
    requires Inv(s) && g in s.txs && Has(s, g, shard, Prepared) && Complete(s, g)
    ensures Since(s, RollBack(s, g, shard), g, shard)
  {
    var t := RollBack(s, g, shard);
    RollBackRolls(s, g, shard);
    RolledIsTorn(s, t, g);
    if Doomed(t, g) {
      CompleteHasNoAborted(s, g);
      forall o
        ensures Has(t, g, o, Aborted) <==> o == shard
      {
        RolledStatus(s, t, g, o);
      }
      DoomedIsDecidedLate(s, t, g, shard);
    }
  }

  lemma CompleteHasNoAborted(s: System, g: Gid)
    requires Inv(s) && g in s.txs && Complete(s, g)
    ensures NoLegIs(s, g, Aborted)
  {
    forall o | o in s.nodes
      ensures !Has(s, g, o, Aborted)
    {
      if g in s.nodes[o].legs {
        assert o in s.txs[g].parts;
      }
    }
  }

  lemma DoomedIsDecidedLate(s: System, t: System, g: Gid, shard: ShardId)
    requires Inv(s) && g in s.txs && Has(s, g, shard, Prepared) && Complete(s, g) && t == RollBack(s, g, shard)
    ensures t.txs[g].coord.Preparing? ==> t.txs[g].coord.todo == {}
    ensures !NoLegIs(t, g, Committed) ==> !t.txs[g].coord.Preparing? && !t.txs[g].coord.RollingBack?
  {
    var c := s.txs[g].coord;
    if c.Preparing? {
      assert c.todo <= s.txs[g].parts.Keys;
      forall o | o in s.txs[g].parts
        ensures o !in c.todo
      {
        assert o in s.nodes && g in s.nodes[o].legs;
      }
      forall o | o in t.nodes
        ensures !Has(t, g, o, Committed)
      {
        if g in s.nodes[o].legs {
          assert o in c.todo + c.prepared;
        }
      }
    } else if c.RollingBack? {
      assert forall o :: Has(t, g, o, Committed) ==> Has(s, g, o, Committed);
    }
  }

  lemma OtherStepSince(s: System, u: System, g: Gid, shard: ShardId, h: Gid, step: Step)
    requires Since(s, u, g, shard) && h != g && Enabled(u, h, step)
    ensures Since(s, Next(u, h, step), g, shard)
  {
    var v := Next(u, h, step);
    StepFrame(u, h, step, g);
    assert forall o, status :: Has(v, g, o, status) <==> Has(u, g, o, status);
  }

  lemma OwnStepKeepsAborted(s: System, u: System, g: Gid, shard: ShardId, step: Step)
    requires Since(s, u, g, shard) && Doomed(u, g) && Enabled(u, g, step)
    ensures var v := Next(u, g, step);
            SameEffects(s, v, g) && OnlyAborted(v, g, shard)
  {
    var v := Next(u, g, step);
    forall o
      ensures Has(v, g, o, Aborted) <==> Has(u, g, o, Aborted)
    {
    }
    if !NoLegIs(u, g, Committed) {
      var o :| o in u.nodes && Has(u, g, o, Committed);
      assert Has(v, g, o, Committed);
    }
  }

  lemma OwnStepSince(s: System, u: System, g: Gid, shard: ShardId, step: Step)
    requires Since(s, u, g, shard) && Enabled(u, g, step)
    ensures Since(s, Next(u, g, step), g, shard)
  {
    var v := Next(u, g, step);
    assert Has(u, g, shard, Aborted) ==> Has(v, g, shard, Aborted);
    if !Doomed(u, g) {
      OwnStepKeepsSafe(u, g, step);
    } else {
      OwnStepKeepsAborted(s, u, g, shard, step);
    }
  }

  lemma {:induction false} FollowSince(s: System, t: System, g: Gid, shard: ShardId, moves: seq<Move>, u: System)
    requires Since(s, t, g, shard) && Follow(t, moves) == Some(u)
    ensures Since(s, u, g, shard)
    decreases |moves|
  {
    if moves != [] {
      var n := |moves| - 1;
      var prev := Follow(t, moves[..n]).value;
      FollowSince(s, t, g, shard, moves[..n], prev);
      if moves[n].g == g {
        OwnStepSince(s, prev, g, shard, moves[n].step);
      } else {
        OtherStepSince(s, prev, g, shard, moves[n].g, moves[n].step);
      }
    }
  }

  lemma NothingCommittedSum(u: System, g: Gid)
    requires NoLegIs(u, g, Committed)
    ensures CommittedSum(u.nodes, g) == 0
  {
    var f := i => if i in u.nodes then CommittedDelta(u.nodes[i], g) else 0;
    forall i | i in u.nodes.Keys
      ensures f(i) == 0
    {
      assert !Has(u, g, i, Committed);
    }
    SumZero(u.nodes.Keys, f);
  }

  lemma MissingLeg(s: System, u: System, g: Gid, shard: ShardId)
    requires SameEffects(s, u, g) && OnlyAborted(u, g, shard) && shard in s.nodes
    ensures CommittedSum(u.nodes, g) + PreparedSum(u.nodes, g) == EffectSum(s.nodes, g) - LegDelta(s.nodes[shard], g)
  {
    var keys := s.nodes.Keys;
    var committed := i => if i in u.nodes then CommittedDelta(u.nodes[i], g) else 0;
    var prepared := i => if i in u.nodes then PreparedDelta(u.nodes[i], g) else 0;
    var left := i => if i in s.nodes && i != shard then LegDelta(s.nodes[i], g) else 0;
    var all := i => if i in s.nodes then LegDelta(s.nodes[i], g) else 0;
    forall i | i in keys
      ensures left(i) == committed(i) + prepared(i)
    {
      assert Has(u, g, i, Aborted) <==> i == shard;
    }
    SumPlus(keys, committed, prepared, left);
    SumChange(keys, all, left, shard);
  }

  // In every later run, with any other transactions in it, the account of a transaction that had all its
  // legs and lost one to a blind rollback stays empty until it is split; from then on it is out by
  // exactly what its legs were to add together without the lost one.
  lemma SplitAccountIs(s: System, g: Gid, shard: ShardId, u: System)
    requires Inv(s) && g in s.txs && Has(s, g, shard, Prepared) && Complete(s, g)
    requires Leads(RollBack(s, g, shard), u)
    ensures Account(u, g) == if Split(u, g) then EffectSum(s.nodes, g) - PreparedDelta(s.nodes[shard], g) else 0
  {
    var t := RollBack(s, g, shard);
    var moves :| Follow(t, moves) == Some(u);
    RollBackSince(s, g, shard);
    FollowSince(s, t, g, shard, moves, u);
    if NoLegIs(u, g, Committed) {
      NothingCommittedSum(u, g);
    } else {
      MissingLeg(s, u, g, shard);
    }
  }

  // So for a transaction whose legs balance, some later run loses or creates money exactly when the lost
  // leg moves some and the rollback was not safe.
  lemma BlindRollbackMoneyIff(s: System, g: Gid, shard: ShardId)
    requires Inv(s) && g in s.txs && Has(s, g, shard, Prepared) && Complete(s, g) && AmountsFit(s, g)
    requires EffectSum(s.nodes, g) == 0
    ensures (exists u :: Leads(RollBack(s, g, shard), u) && Account(u, g) != 0) <==>
            && PreparedDelta(s.nodes[shard], g) != 0
            && (!NoLegIs(s, g, Committed) || StillCommits(s, g, {shard}))
  {
    var t := RollBack(s, g, shard);
    BlindRollbackSafeIff(s, g, shard);
    forall u | Leads(t, u)
      ensures Account(u, g) == if Split(u, g) then 0 - PreparedDelta(s.nodes[shard], g) else 0
    {
      SplitAccountIs(s, g, shard, u);
    }
  }
}
