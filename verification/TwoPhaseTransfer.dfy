/** The transfer of `shardctl` by two-phase commit, account by account. */
module TwoPhaseTransfer {
  import opened Common
  import opened TwoPhase
  import opened TwoPhaseDo
  import TwoPhaseMoney

  /** The sender's row loses the amount if it covers it; no other row changes. */
  ghost predicate TakenFrom(before: map<Tenant, int>, after: map<Tenant, int>, from: Tenant, cents: int) {
    && after.Keys == before.Keys
    && forall t :: t in before ==>
         after[t] == if t == from && before[t] >= cents then before[t] - cents else before[t]
  }

  /** The receiver's row gains the amount, starting from nothing if it is new; no other row changes. */
  ghost predicate GivenTo(before: map<Tenant, int>, after: map<Tenant, int>, to: Tenant, cents: int) {
    && after.Keys == before.Keys + {to}
    && after[to] == (if to in before then before[to] else 0) + cents
    && forall t :: t in before && t != to ==> after[t] == before[t]
  }

  /** Every server answers every statement, and would run its part. */
  ghost predicate AllGoesWell(nodes: Nodes, g: Gid, x: TwoPhaseMoney.Transfer, a: Answers) {
    && x.src in nodes && a.prepare(x.src).Executed? && a.commit(x.src).Executed? && Accepts(nodes[x.src], g, Debit(x.from, x.cents))
    && (x.src != x.dst ==>
          x.dst in nodes && a.prepare(x.dst).Executed? && a.commit(x.dst).Executed? && Accepts(nodes[x.dst], g, Credit(x.to, x.cents)))
  }

  /** Each of the two shards is before or after its own part, and no other ledger moves. */
  ghost predicate OwnPartsOnly(before: Nodes, now: Nodes, x: TwoPhaseMoney.Transfer) {
    && now.Keys == before.Keys
    && (forall s :: s in now && now[s].ledger != before[s].ledger ==> s == x.src || s == x.dst)
    && (x.src in now && now[x.src].ledger != before[x.src].ledger ==>
          TakenFrom(before[x.src].ledger, now[x.src].ledger, x.from, x.cents))
    && (x.dst in now && x.dst != x.src && now[x.dst].ledger != before[x.dst].ledger ==>
          GivenTo(before[x.dst].ledger, now[x.dst].ledger, x.to, x.cents))
  }

  /** The amount is taken from the sender, if covered, and given to a receiver on another shard. */
  ghost predicate Moved(before: Nodes, now: Nodes, x: TwoPhaseMoney.Transfer) {
    && now.Keys == before.Keys && x.src in now && x.dst in now
    && TakenFrom(before[x.src].ledger, now[x.src].ledger, x.from, x.cents)
    && (x.src != x.dst ==> GivenTo(before[x.dst].ledger, now[x.dst].ledger, x.to, x.cents))
  }

  /**
   Runs the transfer's one or two parts. Success moves the amount, a phase-one error nothing, and anything
   else leaves each of the two shards before or after its own part.
   */
  method Transfer(tpc: TwoPC, g: Gid, x: TwoPhaseMoney.Transfer, a: Answers, budget: nat) returns (r: Option<Result>)
    requires Inv(tpc.View()) && Enabled(tpc.View(), g, Start(TwoPhaseMoney.PartsOf(x))) && budget > 0
    modifies tpc
    ensures Inv(tpc.View()) && OwnPartsOnly(old(tpc.nodes), tpc.nodes, x)
    ensures budget > 4 ==> (r == Some(Success) <==> AllGoesWell(old(tpc.nodes), g, x, a))
    ensures r == Some(Success) ==> Moved(old(tpc.nodes), tpc.nodes, x)
    ensures r == Some(PhaseOneError) ==> forall s :: s in tpc.nodes ==> tpc.nodes[s].ledger == old(tpc.nodes)[s].ledger
  {
    var parts := TwoPhaseMoney.PartsOf(x);
    ghost var recorded, culprit, steps;
    ghost var before := tpc.nodes;
    r, recorded, culprit, steps := tpc.Do(g, parts, a, budget);
    TransferEnds(before, tpc.nodes, g, parts, x, a, r, recorded, culprit);
    PartsAre(x, parts);
  }

  lemma TransferEnds(before: Nodes, now: Nodes, g: Gid, parts: Parts, x: TwoPhaseMoney.Transfer, a: Answers,
                     r: Option<Result>, recorded: set<ShardId>, culprit: ShardId)
    requires AllWorked(before, now, g, parts) && parts == TwoPhaseMoney.PartsOf(x)
    requires r == Some(PhaseOneError) ==> LeftByPhaseOne(before, now, g, parts, recorded, culprit, a)
    requires r.Some? && r != Some(PhaseOneError) ==> LeftByPhaseTwo(before, now, g, parts, a)
    requires r == Some(Success) ==> forall s :: s in parts ==> a.commit(s).Executed?
    requires r == Some(PhaseTwoError) ==> culprit in parts && !a.commit(culprit).Executed?
    ensures OwnPartsOnly(before, now, x)
    ensures r.Some? ==> (r == Some(Success) <==> AllGoesWell(before, g, x, a))
    ensures r == Some(Success) ==> Moved(before, now, x)
    ensures r == Some(PhaseOneError) ==> forall s :: s in now ==> now[s].ledger == before[s].ledger
  {
    OwnParts(before, now, g, parts, x);
    match r
    case Some(PhaseOneError) => NothingMoved(before, now, g, parts, x, recorded, culprit, a);
    case Some(Success) => AllMoved(before, now, g, parts, x, a);
    case Some(PhaseTwoError) => assert culprit == x.src || culprit == x.dst;
    case None =>
  }

  ghost predicate AllWorked(before: Nodes, now: Nodes, g: Gid, parts: Parts) {
    now.Keys == before.Keys && forall s :: s in now ==> Worked(before[s], now[s], g, parts, s)
  }

  lemma DebitPays(ledger: map<Tenant, int>, t: Tenant, c: int)
    ensures TakenFrom(ledger, Paid(ledger, Debit(t, c)), t, c)
  {
  }

  lemma CreditPays(ledger: map<Tenant, int>, t: Tenant, c: int)
    ensures GivenTo(ledger, Paid(ledger, Credit(t, c)), t, c)
  {
  }

  lemma OwnParts(before: Nodes, now: Nodes, g: Gid, parts: Parts, x: TwoPhaseMoney.Transfer)
    requires AllWorked(before, now, g, parts) && parts == TwoPhaseMoney.PartsOf(x)
    ensures OwnPartsOnly(before, now, x)
  {
    PartsAre(x, parts);
    if x.src in now {
      DebitPays(before[x.src].ledger, x.from, x.cents);
    }
    if x.dst in now {
      CreditPays(before[x.dst].ledger, x.to, x.cents);
    }
    forall s | s in now && now[s].ledger != before[s].ledger
      ensures s in parts.Keys
    {
      assert Worked(before[s], now[s], g, parts, s);
    }
  }

  lemma NothingMoved(before: Nodes, now: Nodes, g: Gid, parts: Parts, x: TwoPhaseMoney.Transfer, recorded: set<ShardId>,
                     culprit: ShardId, a: Answers)
    requires AllWorked(before, now, g, parts) && parts == TwoPhaseMoney.PartsOf(x)
    requires LeftByPhaseOne(before, now, g, parts, recorded, culprit, a)
    ensures forall s :: s in now ==> now[s].ledger == before[s].ledger
    ensures !AllGoesWell(before, g, x, a)
  {
    PartsAre(x, parts);
    assert culprit in parts.Keys;
    forall s | s in now
      ensures now[s].ledger == before[s].ledger
    {
      assert Worked(before[s], now[s], g, parts, s) && !LegIs(now, g, s, Committed);
    }
  }

  lemma AllMoved(before: Nodes, now: Nodes, g: Gid, parts: Parts, x: TwoPhaseMoney.Transfer, a: Answers)
    requires AllWorked(before, now, g, parts) && parts == TwoPhaseMoney.PartsOf(x)
    requires LeftByPhaseTwo(before, now, g, parts, a) && forall s :: s in parts ==> a.commit(s).Executed?
    ensures Moved(before, now, x) && AllGoesWell(before, g, x, a)
  {
    PartsAre(x, parts);
    CommittedPays(before, now, g, parts, x.src, a);
    CommittedPays(before, now, g, parts, x.dst, a);
    DebitPays(before[x.src].ledger, x.from, x.cents);
    CreditPays(before[x.dst].ledger, x.to, x.cents);
  }

  lemma CommittedPays(before: Nodes, now: Nodes, g: Gid, parts: Parts, s: ShardId, a: Answers)
    requires AllWorked(before, now, g, parts) && s in parts && a.commit(s).Executed? && LeftByPhaseTwo(before, now, g, parts, a)
    ensures s in before && a.prepare(s).Executed? && Accepts(before[s], g, parts[s])
    ensures now[s].ledger == Paid(before[s].ledger, parts[s])
  {
    assert s in now && LegIs(now, g, s, Committed) && Worked(before[s], now[s], g, parts, s);
  }

  lemma PartsAre(x: TwoPhaseMoney.Transfer, parts: Parts)
    requires parts == TwoPhaseMoney.PartsOf(x)
    ensures parts.Keys == {x.src, x.dst} && |parts.Keys| <= 2
    ensures parts[x.src] == Debit(x.from, x.cents) && (x.src != x.dst ==> parts[x.dst] == Credit(x.to, x.cents))
  {
    if x.src == x.dst {
      assert parts.Keys == {x.src};
    } else {
      assert parts.Keys == {x.src} + {x.dst};
    }
  }
}
