/**
 `shardctl orphans -resolve`: ROLLBACK PREPARED for every prepared leg the cluster lists, whoever owns
 it. What this does to a transaction shows only in what happens later, because the list contains the
 legs of live coordinators too. This module says exactly which rollbacks can tear a transaction apart
 in some later run, and which never do.
 */
module TwoPhaseOrphans {
  import opened Common
  import opened Sums
  import opened TwoPhase
  import opened TwoPhaseSafety

  // ---- later runs ----

  /** The state after these moves of any transactions, None if one of them was not enabled. */
  ghost function Follow(s: System, moves: seq<Move>): Option<System> {
    if moves == [] then Some(s)
    else
      var n := |moves| - 1;
      var prev := Follow(s, moves[..n]);
      if prev.Some? && Enabled(prev.value, moves[n].g, moves[n].step) then Some(Next(prev.value, moves[n].g, moves[n].step)) else None
  }

  ghost predicate Leads(s: System, t: System) {
    exists moves :: Follow(s, moves) == Some(t)
  }

  /** Some later run splits the transaction. */
  ghost predicate CanSplit(s: System, g: Gid) {
    exists t :: Leads(s, t) && Split(t, g)
  }

  lemma LeadsToItself(s: System)
    ensures Leads(s, s)
  {
    assert Follow(s, []) == Some(s);
  }

  lemma LeadsOn(s: System, t: System, g: Gid, step: Step)
    requires Leads(s, t) && Enabled(t, g, step)
    ensures Leads(s, Next(t, g, step))
  {
    var moves :| Follow(s, moves) == Some(t);
    var more := moves + [Move(g, step)];
    assert more[..|moves|] == moves;
    assert Follow(s, more) == Some(Next(t, g, step));
  }

  // ---- a transaction with a leg rolled back behind its coordinator's back ----

  /** Some leg is aborted; nothing else is assumed about what the coordinator believes. */
  ghost predicate Torn(t: System, g: Gid) {
    && g in t.txs && !NoLegIs(t, g, Aborted)
    && (t.txs[g].coord.Preparing? ==>
          var c := t.txs[g].coord;
          && c.todo + c.prepared == t.txs[g].parts.Keys && c.todo !! c.prepared
          && forall shard :: shard in c.todo && shard in t.nodes ==> g !in t.nodes[shard].legs)
  }

  /**
   The coordinator is alive and has a leg left to commit: it is committing and a leg it has not tried is
   still prepared, or it is preparing, every shard it has yet to prepare has a pool, and a leg is left.
   */
  ghost predicate CanStillCommit(t: System, g: Gid)
    requires g in t.txs
  {
    match t.txs[g].coord
    case Preparing(todo, prepared) => todo <= t.nodes.Keys && (todo != {} || exists o :: o in prepared && Has(t, g, o, Prepared))
    case Committing(left, _) => exists o :: o in left && Has(t, g, o, Prepared)
    case _ => false
  }

  ghost predicate Doomed(t: System, g: Gid)
    requires g in t.txs
  {
    !NoLegIs(t, g, Committed) || CanStillCommit(t, g)
  }

  // ---- never doomed, never split ----

  lemma OtherStepKeepsSafe(t: System, g: Gid, h: Gid, step: Step)
    requires Torn(t, g) && !Doomed(t, g) && h != g && Enabled(t, h, step)
    ensures Torn(Next(t, h, step), g) && !Doomed(Next(t, h, step), g)
  {
    var u := Next(t, h, step);
    StepFrame(t, h, step, g);
    assert forall o, status :: Has(u, g, o, status) <==> Has(t, g, o, status);
  }

  lemma OwnStepKeepsSafe(t: System, g: Gid, step: Step)
    requires Torn(t, g) && !Doomed(t, g) && Enabled(t, g, step)
    ensures Torn(Next(t, g, step), g) && !Doomed(Next(t, g, step), g)
  {
    var u := Next(t, g, step);
    var a :| a in t.nodes && Has(t, g, a, Aborted);
    assert Has(u, g, a, Aborted);
  }

  lemma {:induction false} SafeForever(t: System, g: Gid, moves: seq<Move>, u: System)
    requires Torn(t, g) && !Doomed(t, g) && Follow(t, moves) == Some(u)
    ensures Torn(u, g) && !Doomed(u, g)
    decreases |moves|
  {
    if moves != [] {
      var n := |moves| - 1;
      var prev := Follow(t, moves[..n]).value;
      SafeForever(t, g, moves[..n], prev);
      if moves[n].g == g {
        OwnStepKeepsSafe(prev, g, moves[n].step);
      } else {
        OtherStepKeepsSafe(prev, g, moves[n].g, moves[n].step);
      }
    }
  }

  // Only a doomed transaction is ever split, whatever was done to the others.
  lemma SplitsOnlyIfDoomed(t: System, g: Gid)
    requires Torn(t, g) && !Doomed(t, g)
    ensures !CanSplit(t, g)
  {
    forall u | Leads(t, u)
      ensures !Split(u, g)
    {
      var moves :| Follow(t, moves) == Some(u);
      SafeForever(t, g, moves, u);
    }
  }

  // ---- doomed, and some run splits it ----

  /** Every other transaction that still holds a row is one the machine can finish. */
  ghost predicate OthersFine(t: System, g: Gid) {
    && (forall shard, h :: shard in t.nodes && h in t.nodes[shard].legs ==> h in t.txs)
    && (forall h :: h in t.txs && h != g ==> TxInv(t, h) || NoLegIs(t, h, Prepared))
  }

  lemma OtherStepKeepsFine(t: System, g: Gid, h: Gid, step: Step)
    requires OthersFine(t, g) && Enabled(t, h, step) && (h != g && h in t.txs ==> TxInv(t, h))
    ensures OthersFine(Next(t, h, step), g)
  {
    var u := Next(t, h, step);
    forall k | k in u.txs && k != g
      ensures TxInv(u, k) || NoLegIs(u, k, Prepared)
    {
      if k == h {
        StepKeepsOwnTx(t, h, step);
      } else {
        StepFrame(t, h, step, k);
        if TxInv(t, k) {
          SameTxKeepsInv(t, u, k);
        } else {
          assert forall o :: Has(u, k, o, Prepared) <==> Has(t, k, o, Prepared);
        }
      }
    }
    forall shard, k | shard in u.nodes && k in u.nodes[shard].legs
      ensures k in u.txs
    {
      if k != h {
        StepFrame(t, h, step, k);
      }
    }
  }

  lemma OtherMove(start: System, t: System, g: Gid, h: Gid, step: Step)
    requires Leads(start, t) && OthersFine(t, g) && h != g && Enabled(t, h, step) && (h in t.txs ==> TxInv(t, h))
    ensures var u := Next(t, h, step);
            Leads(start, u) && OthersFine(u, g) && SameTx(t, u, g) && TxInv(u, h)
  {
    LeadsOn(start, t, h, step);
    OtherStepKeepsFine(t, g, h, step);
    StepFrame(t, h, step, g);
    StepKeepsOwnTx(t, h, step);
  }

  function PreparedOn(n: Node): set<Gid> {
    set h | h in n.legs && n.legs[h].status.Prepared?
  }

  // A prepared leg of another transaction can always be got rid of: its coordinator may die, and an
  // operator may then resolve the leg the way its transaction allows.
  lemma FreeLeg(start: System, t: System, g: Gid, o: ShardId, h: Gid) returns (u: System)
    requires Leads(start, t) && OthersFine(t, g) && h != g && o in t.nodes && IsPrepared(t.nodes[o], h)
    ensures Leads(start, u) && OthersFine(u, g) && SameTx(t, u, g)
    ensures PreparedOn(u.nodes[o]) == PreparedOn(t.nodes[o]) - {h}
  {
    assert Has(t, h, o, Prepared);
    var v := t;
    if !t.txs[h].coord.Dead? && !t.txs[h].coord.Ended? {
      OtherMove(start, t, g, h, Die);
      v := Next(t, h, Die);
    }
    assert v.nodes == t.nodes && Has(v, h, o, Prepared);
    u := FreeAbandoned(start, v, g, o, h);
  }

  lemma FreeAbandoned(start: System, v: System, g: Gid, o: ShardId, h: Gid) returns (u: System)
    requires Leads(start, v) && OthersFine(v, g) && h != g && h in v.txs && TxInv(v, h) && Has(v, h, o, Prepared)
    requires v.txs[h].coord.Dead? || v.txs[h].coord.Ended?
    ensures Leads(start, u) && OthersFine(u, g) && SameTx(v, u, g)
    ensures PreparedOn(u.nodes[o]) == PreparedOn(v.nodes[o]) - {h}
  {
    assert o in v.txs[h].parts;
    var step := if NoLegIs(v, h, Committed) && v.txs[h].coord != Ended(PhaseTwoError) then ResolveRollback(o) else ResolveCommit(o);
    OtherMove(start, v, g, h, step);
    u := Next(v, h, step);
  }

  // So a node can be cleared of every row lock that is not ours.
  lemma FreeNode(start: System, t: System, g: Gid, o: ShardId) returns (u: System)
    requires Leads(start, t) && OthersFine(t, g) && o in t.nodes && g !in t.nodes[o].legs
    ensures Leads(start, u) && OthersFine(u, g) && SameTx(t, u, g)
    ensures PreparedOn(u.nodes[o]) == {}
    decreases PreparedOn(t.nodes[o])
  {
    u := t;
    if PreparedOn(t.nodes[o]) != {} {
      var h := Pick(PreparedOn(t.nodes[o]));
      var v := FreeLeg(start, t, g, o, h);
      u := FreeNode(start, v, g, o);
    }
  }

  lemma Bound(s: set<int>) returns (b: int)
    ensures forall x :: x in s ==> x < b
    decreases s
  {
    b := 0;
    if s != {} {
      var k := Pick(s);
      var c := Bound(s - {k});
      b := if c > k then c else k + 1;
      assert forall x :: x in s ==> x == k || x in s - {k};
    }
  }

  lemma NothingPreparedNothingLocked(n: Node, h: Gid, w: Work)
    requires PreparedOn(n) == {} && h !in n.legs && Plan(n, w).Some?
    ensures CanPrepare(n, h, w)
  {
    assert forall k :: k in n.legs ==> k !in PreparedOn(n);
  }

  lemma StartSolo(start: System, t: System, g: Gid, o: ShardId, w: Work) returns (u: System, h: Gid)
    requires Leads(start, t) && OthersFine(t, g) && o in t.nodes && PreparedOn(t.nodes[o]) == {}
    requires Plan(t.nodes[o], w).Some?
    ensures h != g && h !in t.nodes[o].legs && CanPrepare(t.nodes[o], h, w)
    ensures Leads(start, u) && OthersFine(u, g) && SameTx(t, u, g) && h in u.txs && TxInv(u, h)
    ensures u.nodes == t.nodes[o := PrepareOn(t.nodes[o], h, w)] && u.txs[h].coord == Preparing({}, {o})
  {
    h := Bound(t.txs.Keys + {g});
    assert h !in t.txs.Keys + {g};
    NothingPreparedNothingLocked(t.nodes[o], h, w);
    OtherMove(start, t, g, h, Start(map[o := w]));
    var a := Next(t, h, Start(map[o := w]));
    OtherMove(start, a, g, h, PrepareLeg(o, Executed));
    u := Next(a, h, PrepareLeg(o, Executed));
    assert u.txs[h].coord == Preparing({o} - {o}, {} + {o});
  }

  // One more transaction, on one unlocked shard, can run from start to commit.
  lemma RunSolo(start: System, t: System, g: Gid, o: ShardId, w: Work) returns (u: System)
    requires Leads(start, t) && OthersFine(t, g) && o in t.nodes && PreparedOn(t.nodes[o]) == {}
    requires Plan(t.nodes[o], w).Some?
    ensures Leads(start, u) && OthersFine(u, g) && SameTx(t, u, g)
    ensures PreparedOn(u.nodes[o]) == {}
    ensures u.nodes[o].ledger == Apply(t.nodes[o].ledger, Plan(t.nodes[o], w).value)
  {
    var b, h := StartSolo(start, t, g, o, w);
    OtherMove(start, b, g, h, EnterPhaseTwo);
    var c := Next(b, h, EnterPhaseTwo);
    OtherMove(start, c, g, h, CommitLeg(o, Executed));
    u := Next(c, h, CommitLeg(o, Executed));
    assert u.nodes[o] == CommitOn(PrepareOn(t.nodes[o], h, w), h);
    assert forall k :: k in u.nodes[o].legs ==> k == h || (k in t.nodes[o].legs && k !in PreparedOn(t.nodes[o]));
  }

  // Other transfers can bring a balance to where a part's amount fits.
  lemma MakeRoom(start: System, t: System, g: Gid, o: ShardId, w: Work) returns (u: System)
    requires Leads(start, t) && OthersFine(t, g) && o in t.nodes && PreparedOn(t.nodes[o]) == {} && FitsInt64(w.cents)
    ensures Leads(start, u) && OthersFine(u, g) && SameTx(t, u, g)
    ensures PreparedOn(u.nodes[o]) == {} && Plan(u.nodes[o], w).Some?
  {
    u := t;
    if Plan(t.nodes[o], w).None? {
      u := RunSolo(start, t, g, o, Debit(w.tenant, Balance(t.nodes[o], w.tenant)));
      if Plan(u.nodes[o], w).None? {
        u := RunSolo(start, u, g, o, Credit(w.tenant, w.cents));
      }
    }
  }

  /** All amounts are int64 values, as the command's are. */
  ghost predicate AmountsFit(t: System, g: Gid)
    requires g in t.txs
  {
    forall shard :: shard in t.txs[g].parts ==> FitsInt64(t.txs[g].parts[shard].cents)
  }

  ghost predicate Ready(start: System, t: System, g: Gid) {
    Leads(start, t) && OthersFine(t, g) && Torn(t, g) && AmountsFit(t, g)
  }

  lemma OwnMove(start: System, t: System, g: Gid, step: Step)
    requires Ready(start, t, g) && Enabled(t, g, step) && Torn(Next(t, g, step), g)
    ensures Ready(start, Next(t, g, step), g)
  {
    LeadsOn(start, t, g, step);
    OtherStepKeepsFine(t, g, g, step);
  }

  lemma SameStaysReady(start: System, t: System, u: System, g: Gid)
    requires Ready(start, t, g) && Leads(start, u) && OthersFine(u, g) && SameTx(t, u, g)
    ensures Ready(start, u, g)
  {
    var a :| a in t.nodes && Has(t, g, a, Aborted);
    assert Has(u, g, a, Aborted);
  }

  // A coordinator that is still preparing can get its next leg prepared in some run.
  lemma PrepareSome(start: System, t: System, g: Gid, o: ShardId) returns (u: System)
    requires Ready(start, t, g) && t.txs[g].coord.Preparing? && o in t.txs[g].coord.todo && o in t.nodes
    ensures Ready(start, u, g) && u.nodes.Keys == t.nodes.Keys && Has(u, g, o, Prepared)
    ensures u.txs[g].coord == Preparing(t.txs[g].coord.todo - {o}, t.txs[g].coord.prepared + {o})
  {
    assert o in t.txs[g].parts;
    var w := t.txs[g].parts[o];
    var v := FreeNode(start, t, g, o);
    v := MakeRoom(start, v, g, o, w);
    SameStaysReady(start, t, v, g);
    NothingPreparedNothingLocked(v.nodes[o], g, w);
    u := PrepareNow(start, v, g, o);
  }

  lemma PrepareNow(start: System, v: System, g: Gid, o: ShardId) returns (u: System)
    requires Ready(start, v, g) && v.txs[g].coord.Preparing? && o in v.txs[g].coord.todo && o in v.nodes
    requires o in v.txs[g].parts && CanPrepare(v.nodes[o], g, v.txs[g].parts[o])
    ensures Ready(start, u, g) && u.nodes.Keys == v.nodes.Keys && Has(u, g, o, Prepared)
    ensures u.txs[g].coord == Preparing(v.txs[g].coord.todo - {o}, v.txs[g].coord.prepared + {o})
  {
    var step := PrepareLeg(o, Executed);
    u := Next(v, g, step);
    var a :| a in v.nodes && Has(v, g, a, Aborted);
    assert Has(u, g, a, Aborted);
    OwnMove(start, v, g, step);
  }

  // And so all of them, one after another.
  lemma PrepareAll(start: System, t: System, g: Gid) returns (u: System, o: ShardId)
    requires Ready(start, t, g) && t.txs[g].coord.Preparing? && CanStillCommit(t, g)
    ensures Ready(start, u, g) && u.txs[g].coord.Preparing? && u.txs[g].coord.todo == {}
    ensures o in u.txs[g].coord.prepared && Has(u, g, o, Prepared)
    decreases t.txs[g].coord.todo
  {
    var c := t.txs[g].coord;
    if c.todo == {} {
      u := t;
      o :| o in c.prepared && Has(t, g, o, Prepared);
    } else {
      var next := Pick(c.todo);
      var v := PrepareSome(start, t, g, next);
      assert next in v.txs[g].coord.prepared;
      u, o := PrepareAll(start, v, g);
    }
  }

  // The commit that splits it.
  lemma CommitSplits(start: System, t: System, g: Gid, o: ShardId)
    requires Ready(start, t, g) && t.txs[g].coord.Committing? && o in t.txs[g].coord.left && Has(t, g, o, Prepared)
    ensures CanSplit(start, g)
  {
    var u := Next(t, g, CommitLeg(o, Executed));
    LeadsOn(start, t, g, CommitLeg(o, Executed));
    var a :| a in t.nodes && Has(t, g, a, Aborted);
    assert Has(u, g, a, Aborted) && Has(u, g, o, Committed);
  }

  lemma DoomedCanSplit(t: System, g: Gid)
    requires Torn(t, g) && Doomed(t, g) && OthersFine(t, g) && AmountsFit(t, g)
    ensures CanSplit(t, g)
  {
    LeadsToItself(t);
    if NoLegIs(t, g, Committed) {
      if t.txs[g].coord.Committing? {
        var o :| o in t.txs[g].coord.left && Has(t, g, o, Prepared);
        CommitSplits(t, t, g, o);
      } else {
        var u, o := PrepareAll(t, t, g);
        var v := Next(u, g, EnterPhaseTwo);
        var a :| a in u.nodes && Has(u, g, a, Aborted);
        assert Has(v, g, a, Aborted);
        OwnMove(t, u, g, EnterPhaseTwo);
        assert v.nodes == u.nodes;
        CommitSplits(t, v, g, o);
      }
    } else {
      assert Split(t, g);
    }
  }

  // Over all later runs: a transaction with an aborted leg is split in some of them exactly when a leg
  // has committed or its coordinator is alive and has a leg left to commit.
  lemma CanSplitIffDoomed(t: System, g: Gid)
    requires Torn(t, g) && OthersFine(t, g) && AmountsFit(t, g)
    ensures CanSplit(t, g) <==> Doomed(t, g)
  {
    if Doomed(t, g) {
      DoomedCanSplit(t, g);
    } else {
      SplitsOnlyIfDoomed(t, g);
    }
  }

  // ---- rolling legs back ----

  /** t is s after some of its prepared legs were rolled back, of whichever transactions. */
  ghost predicate RolledLegs(s: System, t: System) {
    && t.txs == s.txs && t.nodes.Keys == s.nodes.Keys
    && forall shard :: shard in s.nodes ==> RolledNode(s.nodes[shard], t.nodes[shard])
  }

  ghost predicate RolledNode(n: Node, m: Node) {
    && m.ledger == n.ledger && m.legs.Keys == n.legs.Keys
    && forall g :: g in n.legs ==>
         m.legs[g] == n.legs[g] || (n.legs[g].status.Prepared? && m.legs[g] == n.legs[g].(status := Aborted))
  }

  /** The shards on which the transaction lost its leg. */
  ghost function Rolled(s: System, t: System, g: Gid): set<ShardId> {
    set shard | shard in s.nodes && Has(s, g, shard, Prepared) && !Has(t, g, shard, Prepared)
  }

  /** The coordinator is alive and, apart from these shards, has a leg left that it can commit. */
  ghost predicate StillCommits(s: System, g: Gid, rolled: set<ShardId>)
    requires g in s.txs
  {
    match s.txs[g].coord
    case Preparing(todo, prepared) => todo <= s.nodes.Keys && todo + (prepared - rolled) != {}
    case Committing(left, _) => exists o :: o in left - rolled && Has(s, g, o, Prepared)
    case _ => false
  }

  lemma RolledStatus(s: System, t: System, g: Gid, shard: ShardId)
    requires RolledLegs(s, t)
    ensures Has(t, g, shard, Committed) <==> Has(s, g, shard, Committed)
    ensures Has(t, g, shard, Prepared) <==> Has(s, g, shard, Prepared) && shard !in Rolled(s, t, g)
    ensures Has(t, g, shard, Aborted) <==> Has(s, g, shard, Aborted) || shard in Rolled(s, t, g)
  {
  }

  lemma RolledIsTorn(s: System, t: System, g: Gid)
    requires Inv(s) && g in s.txs && RolledLegs(s, t) && Rolled(s, t, g) != {}
    ensures Torn(t, g)
    ensures Doomed(t, g) <==> !NoLegIs(s, g, Committed) || StillCommits(s, g, Rolled(s, t, g))
  {
    forall shard {
      RolledStatus(s, t, g, shard);
    }
    var a := Pick(Rolled(s, t, g));
    assert Has(t, g, a, Aborted);
    if s.txs[g].coord.Preparing? {
      var c := s.txs[g].coord;
      assert forall o :: o in c.prepared && Has(t, g, o, Prepared) <==> o in c.prepared - Rolled(s, t, g);
      if c.prepared - Rolled(s, t, g) != {} {
        var o := Pick(c.prepared - Rolled(s, t, g));
        assert o in c.prepared && Has(t, g, o, Prepared);
      }
      assert c.todo + (c.prepared - Rolled(s, t, g)) != {} <==> c.todo != {} || c.prepared - Rolled(s, t, g) != {};
    }
  }

  lemma UntouchedSameTx(s: System, t: System, h: Gid)
    requires RolledLegs(s, t) && Rolled(s, t, h) == {}
    ensures SameTx(s, t, h)
  {
    forall shard | shard in s.nodes && h in s.nodes[shard].legs
      ensures t.nodes[shard].legs[h] == s.nodes[shard].legs[h]
    {
      assert shard !in Rolled(s, t, h);
    }
  }

  // A transaction none of whose legs was rolled back is never split, whatever happened to the others.
  lemma {:induction false} WholeStaysWhole(t: System, g: Gid, moves: seq<Move>, u: System)
    requires g in t.txs && TxInv(t, g) && Follow(t, moves) == Some(u)
    ensures g in u.txs && TxInv(u, g)
    decreases |moves|
  {
    if moves != [] {
      var n := |moves| - 1;
      var prev := Follow(t, moves[..n]).value;
      WholeStaysWhole(t, g, moves[..n], prev);
      if moves[n].g == g {
        StepKeepsOwnTx(prev, g, moves[n].step);
      } else {
        StepFrame(prev, moves[n].g, moves[n].step, g);
        SameTxKeepsInv(prev, u, g);
      }
    }
  }

  lemma WholeNeverSplits(t: System, g: Gid)
    requires g in t.txs && TxInv(t, g)
    ensures !CanSplit(t, g)
  {
    forall u | Leads(t, u)
      ensures !Split(u, g)
    {
      var moves :| Follow(t, moves) == Some(u);
      WholeStaysWhole(t, g, moves, u);
    }
  }

  // However far a pass over the orphans got, and whatever else it rolled back: a transaction can be
  // split in a later run only if the pass took a leg from it while another leg had committed or while
  // its live coordinator has one left to commit.
  lemma PassSplitsOnly(s: System, t: System, g: Gid)
    requires Inv(s) && g in s.txs && RolledLegs(s, t) && CanSplit(t, g)
    ensures Rolled(s, t, g) != {}
    ensures !NoLegIs(s, g, Committed) || StillCommits(s, g, Rolled(s, t, g))
  {
    if Rolled(s, t, g) == {} {
      UntouchedSameTx(s, t, g);
      SameTxKeepsInv(s, t, g);
      WholeNeverSplits(t, g);
    } else {
      RolledIsTorn(s, t, g);
      if !Doomed(t, g) {
        SplitsOnlyIfDoomed(t, g);
      }
    }
  }

  // The converse, when every other transaction lost all of its prepared legs or none.
  lemma PassSplits(s: System, t: System, g: Gid)
    requires Inv(s) && g in s.txs && RolledLegs(s, t) && Rolled(s, t, g) != {} && AmountsFit(s, g)
    requires forall h :: h in s.txs && h != g ==> Rolled(s, t, h) == {} || NoLegIs(t, h, Prepared)
    requires !NoLegIs(s, g, Committed) || StillCommits(s, g, Rolled(s, t, g))
    ensures CanSplit(t, g)
  {
    RolledIsTorn(s, t, g);
    forall h | h in t.txs && h != g
      ensures TxInv(t, h) || NoLegIs(t, h, Prepared)
    {
      if Rolled(s, t, h) == {} {
        UntouchedSameTx(s, t, h);
        SameTxKeepsInv(s, t, h);
      }
    }
    DoomedCanSplit(t, g);
  }

  function RollBack(s: System, g: Gid, shard: ShardId): System
    requires Has(s, g, shard, Prepared)
  {
    s.(nodes := s.nodes[shard := RollbackOn(s.nodes[shard], g)])
  }

  lemma RollBackRolls(s: System, g: Gid, shard: ShardId)
    requires Has(s, g, shard, Prepared)
    ensures RolledLegs(s, RollBack(s, g, shard)) && Rolled(s, RollBack(s, g, shard), g) == {shard}
    ensures forall h :: h != g ==> Rolled(s, RollBack(s, g, shard), h) == {}
  {
  }

  // Rolling one orphan back without asking whose it is: no later run splits its transaction exactly when
  // no leg of it has committed and no live coordinator has another leg left to commit.
  lemma BlindRollbackSafeIff(s: System, g: Gid, shard: ShardId)
    requires Inv(s) && g in s.txs && Has(s, g, shard, Prepared) && AmountsFit(s, g)
    ensures !CanSplit(RollBack(s, g, shard), g) <==> NoLegIs(s, g, Committed) && !StillCommits(s, g, {shard})
  {
    RollBackRolls(s, g, shard);
    if CanSplit(RollBack(s, g, shard), g) {
      PassSplitsOnly(s, RollBack(s, g, shard), g);
    }
    if !NoLegIs(s, g, Committed) || StillCommits(s, g, {shard}) {
      PassSplits(s, RollBack(s, g, shard), g);
    }
  }

  // A resolver that asks first takes only steps of the machine, so that every theorem about its runs
  // holds of runs with such a resolver in them.
  lemma CarefulRollbackIsAStep(s: System, g: Gid, shard: ShardId)
    requires Inv(s) && g in s.txs && Has(s, g, shard, Prepared) && NoLegIs(s, g, Committed)
    requires var c := s.txs[g].coord; c.Dead? || c.RollingBack? || c == Ended(PhaseOneError)
    ensures Enabled(s, g, ResolveRollback(shard)) && Next(s, g, ResolveRollback(shard)) == RollBack(s, g, shard)
    ensures Inv(RollBack(s, g, shard)) && !CanSplit(RollBack(s, g, shard), g)
  {
    assert Next(s, g, ResolveRollback(shard)).txs == s.txs;
    StepKeepsInv(s, g, ResolveRollback(shard));
    WholeNeverSplits(RollBack(s, g, shard), g);
  }

  /** A pass that reaches the end: every prepared leg of every shard is rolled back. */
  function RollbackEverything(s: System): System {
    s.(nodes := map shard | shard in s.nodes :: Node(s.nodes[shard].ledger,
      map g | g in s.nodes[shard].legs ::
        if IsPrepared(s.nodes[shard], g) then s.nodes[shard].legs[g].(status := Aborted) else s.nodes[shard].legs[g]))
  }

  // A complete pass leads to a split in some later run for exactly the transactions that had a leg to
  // lose and either a committed leg or a live coordinator still able to prepare the rest of its parts.
  lemma RollbackEverythingSplitsIff(s: System, g: Gid)
    requires Inv(s) && g in s.txs && AmountsFit(s, g)
    ensures CanSplit(RollbackEverything(s), g) <==>
            && !NoLegIs(s, g, Prepared)
            && (!NoLegIs(s, g, Committed)
                || (s.txs[g].coord.Preparing? && s.txs[g].coord.todo != {} && s.txs[g].coord.todo <= s.nodes.Keys))
  {
    var t := RollbackEverything(s);
    assert forall h, shard :: !Has(t, h, shard, Prepared);
    assert NoLegIs(s, g, Prepared) <==> Rolled(s, t, g) == {} by {
      assert forall shard :: shard in s.nodes ==> (Has(s, g, shard, Prepared) <==> shard in Rolled(s, t, g));
    }
    EverythingLeaves(s, g);
    if CanSplit(t, g) {
      PassSplitsOnly(s, t, g);
    }
    if Rolled(s, t, g) != {} && (!NoLegIs(s, g, Committed) || StillCommits(s, g, Rolled(s, t, g))) {
      PassSplits(s, t, g);
    }
  }

  lemma EverythingLeaves(s: System, g: Gid)
    requires Inv(s) && g in s.txs
    ensures RolledLegs(s, RollbackEverything(s))
    ensures StillCommits(s, g, Rolled(s, RollbackEverything(s), g)) <==>
            s.txs[g].coord.Preparing? && s.txs[g].coord.todo != {} && s.txs[g].coord.todo <= s.nodes.Keys
  {
    var rolled := Rolled(s, RollbackEverything(s), g);
    assert forall o :: Has(s, g, o, Prepared) <==> o in rolled;
    if s.txs[g].coord.Preparing? {
      var c := s.txs[g].coord;
      forall o | o in c.prepared
        ensures o in rolled
      {
        assert Has(s, g, o, Prepared);
      }
      assert c.todo + (c.prepared - rolled) == c.todo;
    }
  }

  // ---- the pass itself, one orphan at a time ----

  datatype Orphan = Orphan(shard: ShardId, g: Gid)

  predicate Listed(nodes: Nodes, o: Orphan) {
    o.shard in nodes && IsPrepared(nodes[o.shard], o.g)
  }

  /** One ROLLBACK PREPARED; it is an error, and does nothing, when the leg is no longer prepared. */
  function RollOne(nodes: Nodes, o: Orphan): Nodes {
    if Listed(nodes, o) then nodes[o.shard := RollbackOn(nodes[o.shard], o.g)] else nodes
  }

  function RollFirst(nodes: Nodes, orphans: seq<Orphan>, n: nat): Nodes
    requires n <= |orphans|
  {
    if n == 0 then nodes else RollOne(RollFirst(nodes, orphans, n - 1), orphans[n - 1])
  }

  // A pass that got through its first n orphans took exactly the legs it named, and nothing else.
  lemma {:induction false} RollFirstRolls(s: System, orphans: seq<Orphan>, n: nat)
    requires n <= |orphans|
    ensures var t := s.(nodes := RollFirst(s.nodes, orphans, n));
            && RolledLegs(s, t)
            && forall shard, g :: shard in Rolled(s, t, g) <==> Has(s, g, shard, Prepared) && Orphan(shard, g) in orphans[..n]
    decreases n
  {
    if n > 0 {
      RollFirstRolls(s, orphans, n - 1);
      var o := orphans[n - 1];
      var t := s.(nodes := RollFirst(s.nodes, orphans, n - 1));
      assert orphans[..n] == orphans[..n - 1] + [o];
      RollOneRolls(s, t, o);
    }
  }

  lemma RollOneRolls(s: System, t: System, o: Orphan)
    requires RolledLegs(s, t)
    ensures var u := t.(nodes := RollOne(t.nodes, o));
            && RolledLegs(s, u)
            && forall shard, g :: shard in Rolled(s, u, g) <==>
                 shard in Rolled(s, t, g) || (Has(s, g, shard, Prepared) && o == Orphan(shard, g))
  {
    var u := t.(nodes := RollOne(t.nodes, o));
    forall shard, g
      ensures shard in Rolled(s, u, g) <==> shard in Rolled(s, t, g) || (Has(s, g, shard, Prepared) && o == Orphan(shard, g))
    {
      RolledStatus(s, t, g, shard);
    }
  }

  // A pass over the whole list rolls back everything.
  lemma WholePassIsEverything(s: System, orphans: seq<Orphan>)
    requires forall o :: o in orphans <==> Listed(s.nodes, o)
    ensures s.(nodes := RollFirst(s.nodes, orphans, |orphans|)) == RollbackEverything(s)
  {
    var t, all := s.(nodes := RollFirst(s.nodes, orphans, |orphans|)), RollbackEverything(s);
    RollFirstRolls(s, orphans, |orphans|);
    assert orphans[..|orphans|] == orphans;
    forall shard | shard in s.nodes
      ensures t.nodes[shard] == all.nodes[shard]
    {
      assert RolledNode(s.nodes[shard], t.nodes[shard]);
      forall g | g in s.nodes[shard].legs
        ensures t.nodes[shard].legs[g] == all.nodes[shard].legs[g]
      {
        assert Has(s, g, shard, Prepared) <==> Orphan(shard, g) in orphans;
        assert Has(s, g, shard, Prepared) <==> shard in Rolled(s, t, g);
      }
    }
  }

  // ---- two states in which the next instant looks safe ----

  function LiveExample(coord: Coordinator, second: map<Gid, Leg>): System {
    System(map[0 := Node(map[1 := 5], map[7 := Leg(Add(1, -5), Prepared)]), 1 := Node(map[], second)],
           map[7 := Tx(map[0 := Debit(1, 5), 1 := Credit(2, 5)], coord)])
  }

  // Both legs prepared, none committed, the coordinator about to commit: rolling the debit back splits
  // nothing yet, and the credit commits next.
  lemma CommitterOvertaken()
    ensures var s := LiveExample(Committing({0, 1}, false), map[7 := Leg(Add(2, 5), Prepared)]);
            && Inv(s) && NoLegIs(s, 7, Committed)
            && Has(s, 7, 0, Prepared) && !Split(RollBack(s, 7, 0), 7) && CanSplit(RollBack(s, 7, 0), 7)
  {
    var s := LiveExample(Committing({0, 1}, false), map[7 := Leg(Add(2, 5), Prepared)]);
    assert TxInv(s, 7);
    assert 1 in {0, 1} - {0} && Has(s, 7, 1, Prepared);
    BlindRollbackSafeIff(s, 7, 0);
  }

  // One leg prepared, the coordinator about to prepare the other: a complete pass takes the first, and
  // the coordinator goes on to prepare and commit the second.
  lemma PreparerOvertaken()
    ensures var s := LiveExample(Preparing({1}, {0}), map[]);
            && Inv(s) && NoLegIs(s, 7, Committed)
            && !Split(RollbackEverything(s), 7) && CanSplit(RollbackEverything(s), 7)
  {
    var s := LiveExample(Preparing({1}, {0}), map[]);
    assert {1} + {0} == s.txs[7].parts.Keys;
    assert TxInv(s, 7);
    assert Has(s, 7, 0, Prepared);
    RollbackEverythingSplitsIff(s, 7);
  }
}
