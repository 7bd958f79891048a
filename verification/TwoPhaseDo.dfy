/** `TwoPC.Do` as the program runs it, proved to take only steps of the machine in TwoPhase. */
module TwoPhaseDo {
  import opened Common
  import opened Sums
  import opened TwoPhase
  import opened TwoPhaseOrphans

  /** The state after the steps of one transaction, None if one of them was not enabled. */
  ghost function After(s: System, g: Gid, steps: seq<Step>): Option<System> {
    if steps == [] then Some(s)
    else
      var n := |steps| - 1;
      var prev := After(s, g, steps[..n]);
      if prev.Some? && Enabled(prev.value, g, steps[n]) then Some(Next(prev.value, g, steps[n])) else None
  }

  lemma AfterOne(s: System, g: Gid, steps: seq<Step>, step: Step, t: System)
    requires After(s, g, steps) == Some(t) && Enabled(t, g, step)
    ensures After(s, g, steps + [step]) == Some(Next(t, g, step))
  {
    assert (steps + [step])[..|steps|] == steps;
  }

  lemma {:induction false} AfterKeepsInv(s: System, g: Gid, steps: seq<Step>, t: System)
    requires Inv(s) && After(s, g, steps) == Some(t)
    ensures Inv(t)
    decreases |steps|
  {
    if steps != [] {
      var n := |steps| - 1;
      var prev := After(s, g, steps[..n]).value;
      AfterKeepsInv(s, g, steps[..n], prev);
      StepKeepsInv(prev, g, steps[n]);
    }
  }

  lemma {:induction false} AfterFrame(s: System, g: Gid, steps: seq<Step>, t: System, h: Gid)
    requires After(s, g, steps) == Some(t) && h != g
    ensures SameTx(s, t, h)
    decreases |steps|
  {
    if steps != [] {
      var n := |steps| - 1;
      var prev := After(s, g, steps[..n]).value;
      AfterFrame(s, g, steps[..n], prev, h);
      StepFrame(prev, g, steps[n], h);
    }
  }

  /** Every node but those of order[..i] is as it was. */
  ghost predicate Untouched(before: Nodes, now: Nodes, order: seq<ShardId>, i: nat)
    requires i <= |order|
  {
    && now.Keys == before.Keys
    && forall shard :: shard in before && shard !in order[..i] ==> now[shard] == before[shard]
  }

  lemma StillAsBefore(before: Nodes, now: Nodes, order: seq<ShardId>, i: nat)
    requires i < |order| && Distinct(order) && Untouched(before, now, order, i)
    ensures order[i] in before <==> order[i] in now
    ensures order[i] in before ==> now[order[i]] == before[order[i]]
  {
    var shard := order[i];
    assert forall j :: 0 <= j < i ==> order[..i][j] == order[j] && order[j] != shard;
    assert shard !in order[..i];
  }

  lemma UntouchedNext(before: Nodes, mid: Nodes, after: Nodes, order: seq<ShardId>, i: nat)
    requires i < |order| && Untouched(before, mid, order, i) && SameElsewhere(mid, after, order[i])
    ensures Untouched(before, after, order, i + 1)
  {
    assert order[..i + 1] == order[..i] + [order[i]];
  }

  lemma PreparedNext(before: Nodes, mid: Nodes, after: Nodes, g: Gid, order: seq<ShardId>, i: nat, legs: seq<ShardId>)
    requires i < |order| && Distinct(order) && Untouched(before, mid, order, i) && SameElsewhere(mid, after, order[i])
    requires legs == order[..i] && AllPrepared(mid, g, legs)
    ensures Untouched(before, after, order, i + 1) && AllPrepared(after, g, legs)
    ensures order[i] in after && IsPrepared(after[order[i]], g) ==> AllPrepared(after, g, legs + [order[i]])
  {
    UntouchedNext(before, mid, after, order, i);
    assert forall k :: 0 <= k < i ==> legs[k] == order[k] && legs[k] != order[i];
  }

  ghost predicate AllPrepared(nodes: Nodes, g: Gid, legs: seq<ShardId>) {
    forall k :: 0 <= k < |legs| ==> legs[k] in nodes && IsPrepared(nodes[legs[k]], g)
  }

  lemma ElementsOfTail(s: seq<ShardId>, i: nat)
    requires i < |s| && Distinct(s)
    ensures s[i] in Elements(s[i..]) && Elements(s[i + 1..]) == Elements(s[i..]) - {s[i]}
  {
    assert s[i..][1..] == s[i + 1..];
  }

  lemma DistinctPrefix(s: seq<ShardId>, t: seq<ShardId>)
    requires s <= t && Distinct(t)
    ensures Distinct(s) && forall x :: x in s ==> x in t
  {
    assert forall i :: 0 <= i < |s| ==> s[i] == t[i];
  }

  lemma ElementsOfPrefix(s: seq<ShardId>, i: nat)
    requires i < |s|
    ensures Elements(s[..i + 1]) == Elements(s[..i]) + {s[i]} && s[..i + 1] == s[..i] + [s[i]]
  {
  }

  /** How each server answers each statement. */
  datatype Answers = Answers(prepare: ShardId -> Reply, commit: ShardId -> Reply, rollback: ShardId -> Reply)

  method ListOn(shard: ShardId, n: Node) returns (out: seq<Orphan>)
    ensures forall o :: o in out <==> o.shard == shard && IsPrepared(n, o.g)
  {
    out := [];
    var legs := ListKeys(n.legs);
    for i := 0 to |legs|
      invariant forall o :: o in out <==> o.shard == shard && IsPrepared(n, o.g) && o.g in legs[..i]
    {
      if IsPrepared(n, legs[i]) {
        out := out + [Orphan(shard, legs[i])];
      }
    }
    assert legs[..|legs|] == legs;
  }

  /** `Orphans`: every prepared leg, shard by shard in ascending order; an unreachable shard fails it. */
  method ListOrphans(nodes: Nodes, down: set<ShardId>) returns (out: Option<seq<Orphan>>)
    ensures out.None? <==> exists shard :: shard in nodes && shard in down
    ensures out.Some? ==> forall o :: o in out.value <==> Listed(nodes, o)
  {
    var shards := Ascending(nodes.Keys);
    var found: seq<Orphan> := [];
    ghost var done: set<ShardId> := {};
    for i := 0 to |shards|
      invariant forall j :: 0 <= j < i ==> shards[j] !in down && shards[j] in done
      invariant ListsOn(nodes, found, done)
    {
      var shard := shards[i];
      assert shard in shards;
      if shard in down {
        return None;
      }
      var here := ListOn(shard, nodes[shard]);
      ListsMore(nodes, found, done, shard, here);
      found, done := found + here, done + {shard};
    }
    forall shard | shard in nodes
      ensures shard in done && shard !in down
    {
      assert shard in shards;
    }
    out := Some(found);
  }

  ghost predicate ListsOn(nodes: Nodes, found: seq<Orphan>, done: set<ShardId>) {
    forall o :: o in found <==> Listed(nodes, o) && o.shard in done
  }

  lemma ListsMore(nodes: Nodes, found: seq<Orphan>, done: set<ShardId>, shard: ShardId, here: seq<Orphan>)
    requires ListsOn(nodes, found, done) && shard in nodes
    requires forall o :: o in here <==> o.shard == shard && IsPrepared(nodes[shard], o.g)
    ensures ListsOn(nodes, found + here, done + {shard})
  {
  }

  predicate SameElsewhere(before: Nodes, after: Nodes, shard: ShardId) {
    after.Keys == before.Keys && forall s :: s in before && s != shard ==> after[s] == before[s]
  }

  /** A part whose work and PREPARE go through and are answered. */
  predicate Prepares(nodes: Nodes, g: Gid, shard: ShardId, w: Work, reply: Reply) {
    reply.Executed? && shard in nodes && CanPrepare(nodes[shard], g, w)
  }

  /** Each of these parts prepares and is answered. */
  ghost predicate AllPrepare(nodes: Nodes, g: Gid, parts: Parts, legs: seq<ShardId>, a: Answers) {
    forall k :: 0 <= k < |legs| ==> legs[k] in parts && Prepares(nodes, g, legs[k], parts[legs[k]], a.prepare(legs[k]))
  }

  /** Phase one after n parts: all of them prepared and answered, everything else as it was. */
  ghost predicate PreparedSoFar(before: Nodes, now: Nodes, g: Gid, parts: Parts, shards: seq<ShardId>, n: nat, a: Answers)
    requires n <= |shards|
  {
    Untouched(before, now, shards, n) && AllPrepared(now, g, shards[..n]) && AllPrepare(before, g, parts, shards[..n], a)
  }

  /** Phase one stopped at part n: the earlier ones are prepared, and part n left a leg if it ran. */
  ghost predicate StoppedPreparing(before: Nodes, now: Nodes, g: Gid, parts: Parts, shards: seq<ShardId>, n: nat, a: Answers)
    requires n < |shards|
  {
    && Untouched(before, now, shards, n + 1)
    && AllPrepared(now, g, shards[..n]) && AllPrepare(before, g, parts, shards[..n], a)
    && shards[n] in parts && !Prepares(before, g, shards[n], parts[shards[n]], a.prepare(shards[n]))
    && (shards[n] in before ==>
          PrepareLeft(before[shards[n]], now[shards[n]], g, parts[shards[n]], a.prepare(shards[n])))
  }

  lemma OnePartMore(before: Nodes, mid: Nodes, after: Nodes, g: Gid, parts: Parts, shards: seq<ShardId>, n: nat, a: Answers, ok: bool)
    requires n < |shards| && Distinct(shards) && shards[n] in parts
    requires PreparedSoFar(before, mid, g, parts, shards, n, a) && SameElsewhere(mid, after, shards[n])
    requires ok <==> Prepares(mid, g, shards[n], parts[shards[n]], a.prepare(shards[n]))
    requires ok ==> shards[n] in after && IsPrepared(after[shards[n]], g)
    requires shards[n] in after ==> PrepareLeft(mid[shards[n]], after[shards[n]], g, parts[shards[n]], a.prepare(shards[n]))
    ensures ok ==> PreparedSoFar(before, after, g, parts, shards, n + 1, a)
    ensures !ok ==> StoppedPreparing(before, after, g, parts, shards, n, a)
  {
    StillAsBefore(before, mid, shards, n);
    PreparedNext(before, mid, after, g, shards, n, shards[..n]);
    assert shards[..n + 1] == shards[..n] + [shards[n]];
  }

  // ---- the same in terms of ledgers, statuses and answers alone ----

  /** No prepared leg holds the tenant's row. */
  ghost predicate RowFree(n: Node, t: Tenant) {
    forall h :: h in n.legs && n.legs[h].status == Prepared && n.legs[h].effect.Add? ==> n.legs[h].effect.tenant != t
  }

  /** The server would run the part and PREPARE it; a debit that its balance does not cover changes no row. */
  ghost predicate Accepts(n: Node, g: Gid, w: Work) {
    && g !in n.legs
    && match w
       case Debit(t, c) =>
         t in n.ledger && n.ledger[t] >= c ==>
           -0x8000_0000_0000_0000 <= n.ledger[t] - c <= 0x7fff_ffff_ffff_ffff && RowFree(n, t)
       case Credit(t, c) =>
         && -0x8000_0000_0000_0000 <= (if t in n.ledger then n.ledger[t] else 0) + c <= 0x7fff_ffff_ffff_ffff
         && RowFree(n, t)
  }

  lemma AcceptsIff(n: Node, g: Gid, w: Work)
    ensures Accepts(n, g, w) <==> CanPrepare(n, g, w)
  {
  }

  /** After PREPARE: the leg is there if the statement ran. */
  ghost predicate PrepareLeft(before: Node, after: Node, g: Gid, w: Work, reply: Reply) {
    if !reply.ErrorBefore? && Accepts(before, g, w) then g in after.legs && after.legs[g].status == Prepared else after == before
  }

  /** After ROLLBACK PREPARED: a prepared leg is aborted if the statement ran, whatever was answered. */
  ghost predicate RollbackLeft(before: Node, after: Node, g: Gid, reply: Reply) {
    if !reply.ErrorBefore? && g in before.legs && before.legs[g].status == Prepared
    then g in after.legs && after.legs[g].status == Aborted
    else after == before
  }

  /** After COMMIT PREPARED: a prepared leg is committed if the statement ran, whatever was answered. */
  ghost predicate CommitLeft(before: Node, after: Node, g: Gid, reply: Reply) {
    if !reply.ErrorBefore? && g in before.legs && before.legs[g].status == Prepared
    then g in after.legs && after.legs[g].status == Committed
    else after == before
  }

  ghost predicate RolledBack(before: Nodes, now: Nodes, g: Gid, legs: seq<ShardId>, i: nat, a: Answers)
    requires i <= |legs|
  {
    && Untouched(before, now, legs, i)
    && forall k :: 0 <= k < i && legs[k] in before ==> RollbackLeft(before[legs[k]], now[legs[k]], g, a.rollback(legs[k]))
  }

  ghost predicate CommitsTried(before: Nodes, now: Nodes, g: Gid, legs: seq<ShardId>, i: nat, a: Answers)
    requires i <= |legs|
  {
    && Untouched(before, now, legs, i)
    && forall k :: 0 <= k < i && legs[k] in before ==> CommitLeft(before[legs[k]], now[legs[k]], g, a.commit(legs[k]))
  }

  ghost predicate LegIs(nodes: Nodes, g: Gid, shard: ShardId, status: Status)
    requires shard in nodes
  {
    g in nodes[shard].legs && nodes[shard].legs[g].status == status
  }

  /**
   After a phase-one error: the recorded parts had prepared and were answered, the culprit was not. A leg is
   still prepared exactly where a recorded leg's rollback did not run, and at the culprit if its PREPARE did
   run; the other recorded legs are aborted, and nothing committed.
   */
  ghost predicate LeftByPhaseOne(before: Nodes, now: Nodes, g: Gid, parts: Parts, recorded: set<ShardId>, culprit: ShardId, a: Answers) {
    && now.Keys == before.Keys && recorded <= parts.Keys && culprit in parts && culprit !in recorded
    && (forall s :: s in recorded ==> s in before && a.prepare(s).Executed? && Accepts(before[s], g, parts[s]))
    && !(culprit in before && a.prepare(culprit).Executed? && Accepts(before[culprit], g, parts[culprit]))
    && (forall s :: s in now ==>
          (LegIs(now, g, s, Prepared) <==>
           (s in recorded && a.rollback(s).ErrorBefore?) ||
           (s == culprit && !a.prepare(s).ErrorBefore? && Accepts(before[s], g, parts[s]))))
    && (forall s :: s in now ==> (LegIs(now, g, s, Aborted) <==> s in recorded && !a.rollback(s).ErrorBefore?))
    && (forall s :: s in now ==> !LegIs(now, g, s, Committed))
  }

  /** After phase two: every part had prepared and was answered, and committed unless its COMMIT did not run. */
  ghost predicate LeftByPhaseTwo(before: Nodes, now: Nodes, g: Gid, parts: Parts, a: Answers) {
    && now.Keys == before.Keys
    && (forall s :: s in parts ==> s in before && a.prepare(s).Executed? && Accepts(before[s], g, parts[s]))
    && (forall s :: s in parts && s in now ==> LegIs(now, g, s, if a.commit(s).ErrorBefore? then Prepared else Committed))
    && (forall s :: s in now && s !in parts ==> now[s] == before[s])
  }

  lemma RollbackOutcome(before: Nodes, mid: Nodes, now: Nodes, g: Gid, parts: Parts, shards: seq<ShardId>, n: nat, a: Answers)
    requires n < |shards| && Distinct(shards) && StoppedPreparing(before, mid, g, parts, shards, n, a)
    requires forall s :: s in before ==> g !in before[s].legs
    requires RolledBack(mid, now, g, shards[..n], n, a)
    ensures LeftByPhaseOne(before, now, g, parts, Elements(shards[..n]), shards[n], a)
  {
    var legs, culprit := shards[..n], shards[n];
    assert forall k :: 0 <= k < n ==> legs[k] == shards[k] && legs[k] != culprit;
    forall s | s in legs
      ensures s in parts && s in before && a.prepare(s).Executed? && Accepts(before[s], g, parts[s])
    {
      var k :| 0 <= k < n && legs[k] == s;
      RecordedLeg(before, mid, now, g, parts, shards, n, k, a);
    }
    if culprit in before {
      AcceptsIff(before[culprit], g, parts[culprit]);
    }
    forall s | s in now
      ensures LegIs(now, g, s, Prepared) <==>
              (s in legs && a.rollback(s).ErrorBefore?) ||
              (s == culprit && !a.prepare(s).ErrorBefore? && Accepts(before[s], g, parts[s]))
      ensures LegIs(now, g, s, Aborted) <==> s in legs && !a.rollback(s).ErrorBefore?
      ensures !LegIs(now, g, s, Committed)
    {
      LegOutcome(before, mid, now, g, parts, shards, n, a, s);
    }
  }

  lemma LegOutcome(before: Nodes, mid: Nodes, now: Nodes, g: Gid, parts: Parts, shards: seq<ShardId>, n: nat, a: Answers, s: ShardId)
    requires n < |shards| && Distinct(shards) && StoppedPreparing(before, mid, g, parts, shards, n, a)
    requires RolledBack(mid, now, g, shards[..n], n, a) && s in now && g !in before[s].legs
    ensures LegIs(now, g, s, Prepared) <==>
            (s in shards[..n] && a.rollback(s).ErrorBefore?) ||
            (s == shards[n] && !a.prepare(s).ErrorBefore? && Accepts(before[s], g, parts[s]))
    ensures LegIs(now, g, s, Aborted) <==> s in shards[..n] && !a.rollback(s).ErrorBefore?
    ensures !LegIs(now, g, s, Committed)
  {
    var legs := shards[..n];
    assert legs[..n] == legs && forall k :: 0 <= k < n ==> legs[k] == shards[k];
    if s in legs {
      var k :| 0 <= k < n && legs[k] == s;
      RecordedLeg(before, mid, now, g, parts, shards, n, k, a);
    } else {
      assert now[s] == mid[s];
      assert shards[..n + 1] == legs + [shards[n]];
    }
  }

  lemma RecordedLeg(before: Nodes, mid: Nodes, now: Nodes, g: Gid, parts: Parts, shards: seq<ShardId>, n: nat, k: nat, a: Answers)
    requires k < n < |shards| && StoppedPreparing(before, mid, g, parts, shards, n, a)
    requires RolledBack(mid, now, g, shards[..n], n, a)
    ensures var s := shards[k];
            && s in parts && s in before && a.prepare(s).Executed? && Accepts(before[s], g, parts[s])
            && s in now && LegIs(now, g, s, if a.rollback(s).ErrorBefore? then Prepared else Aborted)
  {
    assert shards[..n][k] == shards[k];
    AcceptsIff(before[shards[k]], g, parts[shards[k]]);
  }

  lemma CommitOutcome(before: Nodes, mid: Nodes, now: Nodes, g: Gid, parts: Parts, shards: seq<ShardId>, a: Answers)
    requires Distinct(shards) && PreparedSoFar(before, mid, g, parts, shards, |shards|, a)
    requires forall s :: s in parts <==> s in shards
    requires CommitsTried(mid, now, g, shards, |shards|, a)
    ensures LeftByPhaseTwo(before, now, g, parts, a)
  {
    assert shards[..|shards|] == shards;
    forall s | s in parts
      ensures s in before && a.prepare(s).Executed? && Accepts(before[s], g, parts[s])
      ensures s in now && LegIs(now, g, s, if a.commit(s).ErrorBefore? then Prepared else Committed)
    {
      var k :| 0 <= k < |shards| && shards[k] == s;
      AcceptsIff(before[s], g, parts[s]);
    }
  }

  lemma RolledBackNext(before: Nodes, mid: Nodes, after: Nodes, g: Gid, legs: seq<ShardId>, i: nat, a: Answers)
    requires i < |legs| && Distinct(legs) && RolledBack(before, mid, g, legs, i, a) && SameElsewhere(mid, after, legs[i])
    requires legs[i] in mid ==> RollbackLeft(mid[legs[i]], after[legs[i]], g, a.rollback(legs[i]))
    ensures RolledBack(before, after, g, legs, i + 1, a)
  {
    StillAsBefore(before, mid, legs, i);
    UntouchedNext(before, mid, after, legs, i);
  }

  lemma CommitsTriedNext(before: Nodes, mid: Nodes, after: Nodes, g: Gid, legs: seq<ShardId>, i: nat, a: Answers)
    requires i < |legs| && Distinct(legs) && CommitsTried(before, mid, g, legs, i, a) && SameElsewhere(mid, after, legs[i])
    requires legs[i] in mid ==> CommitLeft(mid[legs[i]], after[legs[i]], g, a.commit(legs[i]))
    ensures CommitsTried(before, after, g, legs, i + 1, a)
  {
    StillAsBefore(before, mid, legs, i);
    UntouchedNext(before, mid, after, legs, i);
  }

  class TwoPC {
    var nodes: Nodes
    ghost var txs: map<Gid, Tx>

    ghost function View(): System
      reads this
    {
      System(nodes, txs)
    }

    /** The work of one part and PREPARE TRANSACTION; any error sends the coordinator into rollback. */
    method Prepare(ghost start: System, ghost done: seq<Step>, g: Gid, shard: ShardId, w: Work, reply: Reply)
      returns (ok: bool, ghost steps: seq<Step>)
      requires After(start, g, done) == Some(View()) && g in txs && txs[g].coord.Preparing?
      requires shard in txs[g].coord.todo && shard in txs[g].parts && txs[g].parts[shard] == w
      modifies this
      ensures After(start, g, steps) == Some(View())
      ensures g in txs && txs[g].parts == old(txs[g].parts)
      ensures txs[g].coord == if ok then Preparing(old(txs[g].coord.todo) - {shard}, old(txs[g].coord.prepared) + {shard})
                              else RollingBack(old(txs[g].coord.prepared))
      ensures ok <==> Prepares(old(nodes), g, shard, w, reply)
      ensures ok ==> shard in nodes && IsPrepared(nodes[shard], g)
      ensures SameElsewhere(old(nodes), nodes, shard)
      ensures shard in nodes ==> PrepareLeft(old(nodes)[shard], nodes[shard], g, w, reply)
    {
      if shard in nodes {
        AcceptsIff(nodes[shard], g, w);
      }
      ghost var before, step := View(), PrepareLeg(shard, reply);
      AfterOne(start, g, done, step, before);
      steps := done + [step];
      var ran := !reply.ErrorBefore? && shard in nodes && CanPrepare(nodes[shard], g, w);
      if ran {
        nodes := nodes[shard := PrepareOn(nodes[shard], g, w)];
      }
      ok := ran && reply.Executed?;
      txs := txs[g := NextTx(txs[g], step, ok)];
      assert View() == Next(before, g, step);
    }

    method CommitPrepared(ghost start: System, ghost done: seq<Step>, g: Gid, shard: ShardId, reply: Reply)
      returns (ok: bool, ghost steps: seq<Step>)
      requires After(start, g, done) == Some(View()) && g in txs && txs[g].coord.Committing? && shard in txs[g].coord.left
      modifies this
      ensures After(start, g, steps) == Some(View())
      ensures g in txs && txs[g].parts == old(txs[g].parts)
      ensures txs[g].coord == Committing(old(txs[g].coord.left) - {shard}, old(txs[g].coord.failed) || !ok)
      ensures ok <==> reply.Executed? && shard in old(nodes) && IsPrepared(old(nodes)[shard], g)
      ensures SameElsewhere(old(nodes), nodes, shard)
      ensures shard in nodes ==> CommitLeft(old(nodes)[shard], nodes[shard], g, reply)
    {
      ghost var before, step := View(), CommitLeg(shard, reply);
      AfterOne(start, g, done, step, before);
      steps := done + [step];
      var ran := !reply.ErrorBefore? && shard in nodes && IsPrepared(nodes[shard], g);
      if ran {
        nodes := nodes[shard := CommitOn(nodes[shard], g)];
      }
      ok := ran && reply.Executed?;
      txs := txs[g := NextTx(txs[g], step, ok)];
      assert View() == Next(before, g, step);
    }

    /** Errors are ignored. */
    method RollbackPrepared(ghost start: System, ghost done: seq<Step>, g: Gid, shard: ShardId, reply: Reply)
      returns (ghost steps: seq<Step>)
      requires After(start, g, done) == Some(View()) && g in txs && txs[g].coord.RollingBack? && shard in txs[g].coord.left
      modifies this
      ensures After(start, g, steps) == Some(View())
      ensures g in txs && txs[g].parts == old(txs[g].parts)
      ensures txs[g].coord == RollingBack(old(txs[g].coord.left) - {shard})
      ensures SameElsewhere(old(nodes), nodes, shard)
      ensures shard in nodes ==> RollbackLeft(old(nodes)[shard], nodes[shard], g, reply)
    {
      ghost var before, step := View(), RollbackLeg(shard, reply);
      AfterOne(start, g, done, step, before);
      steps := done + [step];
      if !reply.ErrorBefore? && shard in nodes && IsPrepared(nodes[shard], g) {
        nodes := nodes[shard := RollbackOn(nodes[shard], g)];
      }
      txs := txs[g := NextTx(txs[g], step, true)];
      assert View() == Next(before, g, step);
    }

    /** A step of the coordinator alone: entering phase two or returning. */
    ghost method Turn(start: System, done: seq<Step>, g: Gid, step: Step) returns (steps: seq<Step>)
      requires After(start, g, done) == Some(View()) && Enabled(View(), g, step) && (step.EnterPhaseTwo? || step.End?)
      modifies this`txs
      ensures After(start, g, steps) == Some(View())
      ensures g in txs && txs[g] == NextTx(old(txs[g]), step, false)
    {
      AfterOne(start, g, done, step, View());
      steps := done + [step];
      txs := txs[g := NextTx(txs[g], step, false)];
    }

    /** The coordinator process ends here; the legs stay as they are. */
    ghost method Perish(start: System, done: seq<Step>, g: Gid) returns (steps: seq<Step>)
      requires After(start, g, done) == Some(View()) && g in txs && !txs[g].coord.Ended? && !txs[g].coord.Dead?
      modifies this`txs
      ensures After(start, g, steps) == Some(View())
      ensures g in txs && txs[g] == Tx(old(txs[g].parts), Dead)
    {
      AfterOne(start, g, done, Die, View());
      steps := done + [Die];
      txs := txs[g := NextTx(txs[g], Die, false)];
    }

    /** The loop body of phase one, for the i-th part in the order chosen. */
    method PreparePart(ghost start: System, g: Gid, parts: Parts, a: Answers, shards: seq<ShardId>, i: nat,
                       ghost before: Nodes, ghost done: seq<Step>)
      returns (ok: bool, ghost steps: seq<Step>)
      requires After(start, g, done) == Some(View()) && g in txs && txs[g].parts == parts
      requires i < |shards| && Distinct(shards) && shards[i] in parts
      requires txs[g].coord == Preparing(Elements(shards[i..]), Elements(shards[..i]))
      requires PreparedSoFar(before, nodes, g, parts, shards, i, a)
      modifies this
      ensures After(start, g, steps) == Some(View()) && g in txs && txs[g].parts == parts
      ensures txs[g].coord == if ok then Preparing(Elements(shards[i + 1..]), Elements(shards[..i + 1]))
                              else RollingBack(Elements(shards[..i]))
      ensures ok ==> PreparedSoFar(before, nodes, g, parts, shards, i + 1, a)
      ensures !ok ==> StoppedPreparing(before, nodes, g, parts, shards, i, a)
    {
      ElementsOfTail(shards, i);
      ElementsOfPrefix(shards, i);
      ghost var mid := nodes;
      ok, steps := Prepare(start, done, g, shards[i], parts[shards[i]], a.prepare(shards[i]));
      OnePartMore(before, mid, nodes, g, parts, shards, i, a, ok);
    }

    /** Prepares part after part in the given order; stops at the first error or when the process dies. */
    method PhaseOne(ghost start: System, g: Gid, parts: Parts, shards: seq<ShardId>, a: Answers, budget: nat, ghost done: seq<Step>)
      returns (n: nat, ok: bool, life: nat, ghost steps: seq<Step>)
      requires After(start, g, done) == Some(View()) && budget > 0
      requires g in txs && txs[g] == Tx(parts, Preparing(Elements(shards), {}))
      requires Distinct(shards) && forall i :: 0 <= i < |shards| ==> shards[i] in parts
      modifies this
      ensures After(start, g, steps) == Some(View()) && g in txs && txs[g].parts == parts && n <= |shards|
      ensures life > 0 && ok ==> n == |shards| && txs[g].coord == Preparing({}, Elements(shards[..n]))
      ensures life > 0 && ok ==> PreparedSoFar(old(nodes), nodes, g, parts, shards, n, a)
      ensures life > 0 && !ok ==> txs[g].coord == RollingBack(Elements(shards[..n])) && n < |shards|
      ensures life > 0 && !ok ==> StoppedPreparing(old(nodes), nodes, g, parts, shards, n, a)
      ensures life == 0 ==> txs[g].coord.Dead? && budget <= |shards|
      ensures life > 0 ==> life >= budget - |shards|
    {
      n, ok, life, steps := 0, true, budget, done;
      assert shards[0..] == shards;
      while n < |shards|
        invariant n <= |shards| && life == budget - n && life > 0 && ok
        invariant After(start, g, steps) == Some(View()) && g in txs && txs[g].parts == parts
        invariant txs[g].coord == Preparing(Elements(shards[n..]), Elements(shards[..n]))
        invariant PreparedSoFar(old(nodes), nodes, g, parts, shards, n, a)
      {
        life := life - 1;
        if life == 0 {
          steps := Perish(start, steps, g);
          return;
        }
        ok, steps := PreparePart(start, g, parts, a, shards, n, old(nodes), steps);
        if !ok {
          return;
        }
        n := n + 1;
      }
    }

    method RollbackAll(ghost start: System, g: Gid, legs: seq<ShardId>, a: Answers, budget: nat, ghost done: seq<Step>)
      returns (life: nat, ghost steps: seq<Step>)
      requires After(start, g, done) == Some(View()) && budget > 0
      requires g in txs && txs[g].coord.RollingBack? && txs[g].coord.left == Elements(legs) && Distinct(legs)
      modifies this
      ensures After(start, g, steps) == Some(View()) && g in txs && txs[g].parts == old(txs[g].parts)
      ensures life > 0 ==> txs[g].coord == RollingBack({}) && RolledBack(old(nodes), nodes, g, legs, |legs|, a)
      ensures life == 0 ==> txs[g].coord.Dead? && budget <= |legs|
    {
      life, steps := budget, done;
      assert legs[0..] == legs;
      for i := 0 to |legs|
        invariant After(start, g, steps) == Some(View()) && g in txs && txs[g].parts == old(txs[g].parts) && life > 0 && life == budget - i
        invariant txs[g].coord.RollingBack? && txs[g].coord.left == Elements(legs[i..])
        invariant RolledBack(old(nodes), nodes, g, legs, i, a)
      {
        life := life - 1;
        if life == 0 {
          steps := Perish(start, steps, g);
          return;
        }
        ElementsOfTail(legs, i);
        ghost var before := nodes;
        steps := RollbackPrepared(start, steps, g, legs[i], a.rollback(legs[i]));
        RolledBackNext(old(nodes), before, nodes, g, legs, i, a);
      }
    }

    /** Commits leg after leg, collecting errors instead of stopping. */
    method PhaseTwo(ghost start: System, g: Gid, legs: seq<ShardId>, a: Answers, budget: nat, ghost done: seq<Step>)
      returns (errs: nat, life: nat, ghost culprit: ShardId, ghost steps: seq<Step>)
      requires After(start, g, done) == Some(View()) && budget > 0
      requires g in txs && txs[g].coord.Committing? && !txs[g].coord.failed && txs[g].coord.left == Elements(legs) && Distinct(legs)
      modifies this
      ensures After(start, g, steps) == Some(View()) && g in txs && txs[g].parts == old(txs[g].parts)
      ensures life > 0 ==> txs[g].coord == Committing({}, errs > 0)
      ensures life == 0 ==> txs[g].coord.Dead? && budget <= |legs|
      ensures errs > 0 && AllPrepared(old(nodes), g, legs) ==> culprit in legs && !a.commit(culprit).Executed?
      ensures life > 0 ==> CommitsTried(old(nodes), nodes, g, legs, |legs|, a)
      ensures life > 0 && errs == 0 ==> forall k :: 0 <= k < |legs| ==> a.commit(legs[k]).Executed?
    {
      errs, life, steps, culprit := 0, budget, done, 0;
      assert legs[0..] == legs;
      for i := 0 to |legs|
        invariant After(start, g, steps) == Some(View()) && g in txs && txs[g].parts == old(txs[g].parts) && life > 0
        invariant txs[g].coord.Committing? && txs[g].coord.left == Elements(legs[i..]) && (txs[g].coord.failed <==> errs > 0)
        invariant life == budget - i && CommitsTried(old(nodes), nodes, g, legs, i, a)
        invariant errs == 0 ==> forall k :: 0 <= k < i ==> a.commit(legs[k]).Executed?
        invariant errs > 0 && AllPrepared(old(nodes), g, legs) ==> culprit in legs && !a.commit(culprit).Executed?
      {
        life := life - 1;
        if life == 0 {
          steps := Perish(start, steps, g);
          return;
        }
        ElementsOfTail(legs, i);
        var ok;
        ghost var before := nodes;
        ok, steps := CommitPrepared(start, steps, g, legs[i], a.commit(legs[i]));
        StillAsBefore(old(nodes), before, legs, i);
        CommitsTriedNext(old(nodes), before, nodes, g, legs, i, a);
        if !ok {
          errs, culprit := errs + 1, legs[i];
        }
      }
    }

    /** Every part failed or every part is prepared: roll back or commit, then return. */
    method PhaseTwoAndReturn(ghost start: System, g: Gid, legs: seq<ShardId>, a: Answers, budget: nat, ghost done: seq<Step>)
      returns (r: Option<Result>, ghost culprit: ShardId, ghost steps: seq<Step>)
      requires After(start, g, done) == Some(View()) && budget > 0 && Distinct(legs)
      requires g in txs && txs[g].coord == Preparing({}, Elements(legs)) && AllPrepared(nodes, g, legs)
      modifies this
      ensures After(start, g, steps) == Some(View()) && g in txs
      ensures txs[g] == Tx(old(txs[g].parts), if r.None? then Dead else Ended(r.value))
      ensures r != Some(PhaseOneError) && (r == Some(PhaseTwoError) ==> culprit in legs && !a.commit(culprit).Executed?)
      ensures r.Some? ==> CommitsTried(old(nodes), nodes, g, legs, |legs|, a)
      ensures r == Some(Success) ==> forall k :: 0 <= k < |legs| ==> a.commit(legs[k]).Executed?
      ensures r.None? ==> budget <= |legs|
    {
      steps := Turn(start, done, g, EnterPhaseTwo);
      var errs, life;
      errs, life, culprit, steps := PhaseTwo(start, g, legs, a, budget, steps);
      if life == 0 {
        return None, culprit, steps;
      }
      steps := Turn(start, steps, g, End);
      r := Some(if errs == 0 then Success else PhaseTwoError);
    }

    method RollbackAndReturn(ghost start: System, g: Gid, legs: seq<ShardId>, a: Answers, budget: nat, ghost done: seq<Step>)
      returns (r: Option<Result>, ghost steps: seq<Step>)
      requires After(start, g, done) == Some(View()) && budget > 0 && Distinct(legs)
      requires g in txs && txs[g].coord == RollingBack(Elements(legs))
      modifies this
      ensures After(start, g, steps) == Some(View()) && g in txs
      ensures txs[g] == Tx(old(txs[g].parts), if r.None? then Dead else Ended(r.value))
      ensures r.Some? ==> r.value.PhaseOneError? && RolledBack(old(nodes), nodes, g, legs, |legs|, a)
      ensures r.None? ==> budget <= |legs|
    {
      var life;
      life, steps := RollbackAll(start, g, legs, a, budget, done);
      if life == 0 {
        return None, steps;
      }
      steps := Turn(start, steps, g, End);
      r := Some(PhaseOneError);
    }

    /**
     Runs the parts under one gid; the coordinator dies instead of its budget-th statement, which is the
     answer None. It performs only steps of the machine, touches no other transaction, and its answer
     means what it says. The culprit shows why it did not succeed: a part that did not prepare, or a
     commit that was not answered.
     */
    method Do(g: Gid, parts: Parts, a: Answers, budget: nat)
      returns (r: Option<Result>, ghost recorded: set<ShardId>, ghost culprit: ShardId, ghost steps: seq<Step>)
      requires Inv(View()) && Enabled(View(), g, Start(parts)) && budget > 0
      modifies this
      ensures After(old(View()), g, steps) == Some(View()) && Inv(View())
      ensures g in txs && txs[g] == Tx(parts, if r.None? then Dead else Ended(r.value))
      ensures forall h :: h != g ==> SameTx(old(View()), View(), h)
      ensures r == Some(Success) ==> forall shard :: shard in parts ==> Has(View(), g, shard, Committed)
      ensures r == Some(PhaseOneError) ==> NoLegIs(View(), g, Committed)
      ensures r == Some(PhaseTwoError) ==> Complete(View(), g)
      ensures NoLegIs(View(), g, Committed) || NoLegIs(View(), g, Aborted)
      ensures r == Some(PhaseOneError) ==> LeftByPhaseOne(old(nodes), nodes, g, parts, recorded, culprit, a)
      ensures r == Some(PhaseOneError) && (forall s :: s in recorded ==> !a.rollback(s).ErrorBefore?)
              && (a.prepare(culprit).ErrorBefore? || culprit !in nodes || !Accepts(old(nodes)[culprit], g, parts[culprit])) ==>
                forall s :: s in nodes ==> !LegIs(nodes, g, s, Prepared)
      ensures r.Some? && r != Some(PhaseOneError) ==> LeftByPhaseTwo(old(nodes), nodes, g, parts, a)
      ensures r == Some(Success) ==> forall s :: s in parts ==> a.commit(s).Executed?
      ensures r == Some(PhaseTwoError) ==> culprit in parts && !a.commit(culprit).Executed?
      ensures r.None? ==> budget <= 2 * |parts.Keys|
      ensures nodes.Keys == old(nodes).Keys
      ensures forall s :: s in nodes ==> s in old(nodes) && Worked(old(nodes)[s], nodes[s], g, parts, s)
    {
      r, recorded, culprit, steps := RunParts(View(), g, parts, a, budget);
      DoEnds(old(View()), g, steps, View());
      AfterWorked(old(View()), g, steps, View());
    }

    /**
     `shardctl orphans -resolve`: rolls back the listed legs one by one and stops at the first error;
     n statements were answered. Whether the n-th ran is the server's business.
     */
    method ResolveOrphans(orphans: seq<Orphan>, reply: nat -> Reply) returns (n: nat)
      modifies this`nodes
      ensures n <= |orphans|
      ensures n == |orphans| || reply(n).ErrorBefore? ==> nodes == RollFirst(old(nodes), orphans, n)
      ensures n < |orphans| && !reply(n).ErrorBefore? ==> nodes == RollFirst(old(nodes), orphans, n + 1)
      ensures n < |orphans| ==> !reply(n).Executed? || !Listed(RollFirst(old(nodes), orphans, n), orphans[n])
    {
      n := 0;
      while n < |orphans|
        invariant n <= |orphans| && nodes == RollFirst(old(nodes), orphans, n)
      {
        var o := orphans[n];
        var listed := Listed(nodes, o);
        if !reply(n).ErrorBefore? {
          nodes := RollOne(nodes, o);
        }
        if !listed || !reply(n).Executed? {
          return;
        }
        n := n + 1;
      }
    }

    method RunParts(ghost start: System, g: Gid, parts: Parts, a: Answers, budget: nat)
      returns (r: Option<Result>, ghost recorded: set<ShardId>, ghost culprit: ShardId, ghost steps: seq<Step>)
      requires start == View() && Enabled(start, g, Start(parts)) && budget > 0
      modifies this
      ensures After(start, g, steps) == Some(View())
      ensures g in txs && txs[g] == Tx(parts, if r.None? then Dead else Ended(r.value))
      ensures r == Some(PhaseOneError) ==> LeftByPhaseOne(start.nodes, nodes, g, parts, recorded, culprit, a)
      ensures r.Some? && r != Some(PhaseOneError) ==> LeftByPhaseTwo(start.nodes, nodes, g, parts, a)
      ensures r == Some(Success) ==> forall s :: s in parts ==> a.commit(s).Executed?
      ensures r == Some(PhaseTwoError) ==> culprit in parts && !a.commit(culprit).Executed?
      ensures r.None? ==> budget <= 2 * |parts.Keys|
    {
      AfterOne(start, g, [], Start(parts), start);
      txs := txs[g := Tx(parts, Preparing(parts.Keys, {}))];
      var shards := ListKeys(parts);
      assert Elements(shards) == parts.Keys && forall i :: 0 <= i < |shards| ==> shards[i] in shards;
      var n, ok, life;
      r := None;
      n, ok, life, steps := PhaseOne(start, g, parts, shards, a, budget, [] + [Start(parts)]);
      var legs := shards[..n];
      recorded, culprit := Elements(legs), 0;
      DistinctPrefix(legs, shards);
      if life == 0 {
        return;
      }
      ghost var mid := nodes;
      if ok {
        assert legs == shards;
        r, culprit, steps := PhaseTwoAndReturn(start, g, shards, a, life, steps);
        if r.Some? {
          CommitOutcome(start.nodes, mid, nodes, g, parts, shards, a);
        }
      } else {
        culprit := shards[n];
        r, steps := RollbackAndReturn(start, g, legs, a, life, steps);
        if r.Some? {
          RollbackOutcome(start.nodes, mid, nodes, g, parts, shards, n, a);
        }
      }
    }
  }

  /** What a part comes to on its shard's ledger when it commits. */
  ghost function Paid(ledger: map<Tenant, int>, w: Work): map<Tenant, int> {
    match w
    case Debit(t, c) => if t in ledger && ledger[t] >= c then ledger[t := ledger[t] - c] else ledger
    case Credit(t, c) => ledger[t := (if t in ledger then ledger[t] else 0) + c]
  }

  /** The change that a prepared leg keeps for its commit. */
  ghost function Planned(ledger: map<Tenant, int>, w: Work): Effect {
    match w
    case Debit(t, c) => if t in ledger && ledger[t] >= c then Add(t, -c) else Nothing
    case Credit(t, c) => Add(t, c)
  }

  /** One shard before and after its own part: the ledger moves when the leg commits and not before. */
  ghost predicate Worked(before: Node, after: Node, g: Gid, parts: Parts, shard: ShardId) {
    if g !in after.legs then after == before
    else
      && shard in parts
      && after.ledger == (if after.legs[g].status == Committed then Paid(before.ledger, parts[shard]) else before.ledger)
      && after.legs[g].effect == Planned(before.ledger, parts[shard])
  }

  lemma StepWorked(n: Node, s: System, g: Gid, step: Step, shard: ShardId)
    requires Enabled(s, g, step) && !step.Start? && shard in s.nodes && g in s.txs
    requires Worked(n, s.nodes[shard], g, s.txs[g].parts, shard)
    ensures shard in Next(s, g, step).nodes
    ensures Worked(n, Next(s, g, step).nodes[shard], g, s.txs[g].parts, shard)
  {
  }

  lemma {:induction false} AfterWorked(start: System, g: Gid, steps: seq<Step>, t: System)
    requires After(start, g, steps) == Some(t) && g !in start.txs && forall s :: s in start.nodes ==> g !in start.nodes[s].legs
    ensures t.nodes.Keys == start.nodes.Keys
    ensures g !in t.txs ==> t.nodes == start.nodes
    ensures g in t.txs ==> forall s :: s in t.nodes ==> Worked(start.nodes[s], t.nodes[s], g, t.txs[g].parts, s)
    decreases |steps|
  {
    if steps != [] {
      var n := |steps| - 1;
      var prev := After(start, g, steps[..n]).value;
      AfterWorked(start, g, steps[..n], prev);
      if g in prev.txs {
        forall s | s in t.nodes
          ensures Worked(start.nodes[s], t.nodes[s], g, t.txs[g].parts, s)
        {
          StepWorked(start.nodes[s], prev, g, steps[n], s);
        }
      }
    }
  }

  lemma DoEnds(start: System, g: Gid, steps: seq<Step>, t: System)
    requires Inv(start) && After(start, g, steps) == Some(t) && g in t.txs
    ensures Inv(t)
    ensures forall h :: h != g ==> SameTx(start, t, h)
    ensures t.txs[g].coord == Ended(Success) ==> forall shard :: shard in t.txs[g].parts ==> Has(t, g, shard, Committed)
    ensures t.txs[g].coord == Ended(PhaseOneError) ==> NoLegIs(t, g, Committed)
    ensures t.txs[g].coord == Ended(PhaseTwoError) ==> Complete(t, g)
    ensures NoLegIs(t, g, Committed) || NoLegIs(t, g, Aborted)
  {
    AfterKeepsInv(start, g, steps, t);
    forall h | h != g {
      AfterFrame(start, g, steps, t, h);
    }
  }
}
