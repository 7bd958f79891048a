/**
 Two-phase commit across shards: `TwoPC.Do`, `rollbackAll`, and what an operator may do with orphans.

 A node is one shard's ledger and, per transaction, the branch ("leg") PREPARE TRANSACTION left there.
 The leg's name on its shard is the transaction's gid with the shard number appended, so per shard a
 leg is identified by the gid alone. A prepared leg holds the lock of the row it changes, which is why
 its effect can be kept as a difference and added when it commits.

 The coordinator is a step machine: every statement may run or not, and may run and report an error,
 and the coordinator may die between any two steps.
 */
module TwoPhase {
  import opened Common

  type ShardId = int
  type Tenant = int
  type Gid = int

  datatype Effect = Nothing | Add(tenant: Tenant, delta: int)

  datatype Status = Prepared | Committed | Aborted

  datatype Leg = Leg(effect: Effect, status: Status)

  datatype Node = Node(ledger: map<Tenant, int>, legs: map<Gid, Leg>)

  type Nodes = map<ShardId, Node>

  datatype Work = Debit(tenant: Tenant, cents: int) | Credit(tenant: Tenant, cents: int)

  type Parts = map<ShardId, Work>

  function Balance(n: Node, t: Tenant): int {
    if t in n.ledger then n.ledger[t] else 0
  }

  function Delta(e: Effect): int {
    if e.Add? then e.delta else 0
  }

  /** What a part's statement does; None is an error. A debit that matches no row is not an error. */
  function Plan(n: Node, w: Work): Option<Effect> {
    match w
    case Debit(t, c) =>
      if t in n.ledger && n.ledger[t] >= c then
        if FitsInt64(n.ledger[t] - c) then Some(Add(t, -c)) else None
      else Some(Nothing)
    case Credit(t, c) => if FitsInt64(Balance(n, t) + c) then Some(Add(t, c)) else None
  }

  /** A prepared leg holds the row of this tenant. */
  predicate Locked(n: Node, t: Tenant) {
    exists g :: g in n.legs && Holds(n.legs[g], t)
  }

  predicate Holds(leg: Leg, t: Tenant) {
    leg.status.Prepared? && leg.effect.Add? && leg.effect.tenant == t
  }

  predicate CanPrepare(n: Node, g: Gid, w: Work) {
    var e := Plan(n, w);
    g !in n.legs && e.Some? && (e.value.Add? ==> !Locked(n, e.value.tenant))
  }

  function PrepareOn(n: Node, g: Gid, w: Work): Node
    requires CanPrepare(n, g, w)
  {
    n.(legs := n.legs[g := Leg(Plan(n, w).value, Prepared)])
  }

  predicate IsPrepared(n: Node, g: Gid) {
    g in n.legs && n.legs[g].status.Prepared?
  }

  function Apply(ledger: map<Tenant, int>, e: Effect): map<Tenant, int> {
    if e.Add? then ledger[e.tenant := (if e.tenant in ledger then ledger[e.tenant] else 0) + e.delta] else ledger
  }

  function CommitOn(n: Node, g: Gid): Node
    requires IsPrepared(n, g)
  {
    Node(Apply(n.ledger, n.legs[g].effect), n.legs[g := n.legs[g].(status := Committed)])
  }

  function RollbackOn(n: Node, g: Gid): Node
    requires IsPrepared(n, g)
  {
    n.(legs := n.legs[g := n.legs[g].(status := Aborted)])
  }

  // ---- the machine ----

  datatype Result = Success | PhaseOneError | PhaseTwoError

  datatype Coordinator =
    | Preparing(todo: set<ShardId>, prepared: set<ShardId>)
    | RollingBack(left: set<ShardId>)
    | Committing(left: set<ShardId>, failed: bool)
    | Ended(result: Result)
    | Dead

  datatype Tx = Tx(parts: Parts, coord: Coordinator)

  datatype System = System(nodes: Nodes, txs: map<Gid, Tx>)

  datatype Reply = Executed | ErrorAfter | ErrorBefore

  datatype Step =
    | Start(parts: Parts)
    | PrepareLeg(shard: ShardId, reply: Reply)
    | EnterPhaseTwo
    | CommitLeg(shard: ShardId, reply: Reply)
    | RollbackLeg(shard: ShardId, reply: Reply)
    | End
    | Die
    | ResolveCommit(shard: ShardId)
    | ResolveRollback(shard: ShardId)

  predicate Has(s: System, g: Gid, shard: ShardId, status: Status) {
    shard in s.nodes && g in s.nodes[shard].legs && s.nodes[shard].legs[g].status == status
  }

  ghost predicate NoLegIs(s: System, g: Gid, status: Status) {
    forall shard :: shard in s.nodes ==> !Has(s, g, shard, status)
  }

  /** Every part has a leg that is prepared or committed: the transaction can still be completed. */
  ghost predicate Complete(s: System, g: Gid)
    requires g in s.txs
  {
    forall shard :: shard in s.txs[g].parts ==> Has(s, g, shard, Prepared) || Has(s, g, shard, Committed)
  }

  /** The statement reached a server that could run it. */
  predicate Ran(s: System, g: Gid, step: Step)
    requires g in s.txs
  {
    match step
    case PrepareLeg(shard, reply) =>
      !reply.ErrorBefore? && shard in s.nodes && shard in s.txs[g].parts && CanPrepare(s.nodes[shard], g, s.txs[g].parts[shard])
    case CommitLeg(shard, reply) => !reply.ErrorBefore? && shard in s.nodes && IsPrepared(s.nodes[shard], g)
    case RollbackLeg(shard, reply) => !reply.ErrorBefore? && shard in s.nodes && IsPrepared(s.nodes[shard], g)
    case _ => false
  }

  ghost predicate Enabled(s: System, g: Gid, step: Step) {
    if step.Start? then g !in s.txs && (forall shard :: shard in s.nodes ==> g !in s.nodes[shard].legs)
    else
      g in s.txs &&
      var c := s.txs[g].coord;
      match step
      case PrepareLeg(shard, _) => c.Preparing? && shard in c.todo
      case EnterPhaseTwo => c.Preparing? && c.todo == {}
      case CommitLeg(shard, _) => c.Committing? && shard in c.left
      case RollbackLeg(shard, _) => c.RollingBack? && shard in c.left
      case End => (c.Committing? || c.RollingBack?) && c.left == {}
      case Die => !c.Ended? && !c.Dead?
      // Retrying a phase-two error, or finishing what a dead coordinator may have decided.
      case ResolveCommit(shard) =>
        (c.Dead? || c == Ended(PhaseTwoError)) && Has(s, g, shard, Prepared) && NoLegIs(s, g, Aborted) && Complete(s, g)
      case ResolveRollback(shard) =>
        (c.Dead? || c.RollingBack? || c == Ended(PhaseOneError)) && Has(s, g, shard, Prepared) && NoLegIs(s, g, Committed)
  }

  function NextCoord(c: Coordinator, step: Step, ok: bool): Coordinator {
    match step
    case PrepareLeg(shard, _) =>
      if !c.Preparing? then c
      else if ok then Preparing(c.todo - {shard}, c.prepared + {shard}) else RollingBack(c.prepared)
    case EnterPhaseTwo => if c.Preparing? then Committing(c.prepared, false) else c
    case CommitLeg(shard, _) => if c.Committing? then Committing(c.left - {shard}, c.failed || !ok) else c
    case RollbackLeg(shard, _) => if c.RollingBack? then RollingBack(c.left - {shard}) else c
    case End => Ended(if c.Committing? then if c.failed then PhaseTwoError else Success else PhaseOneError)
    case Die => Dead
    case _ => c
  }

  function NextTx(tx: Tx, step: Step, ok: bool): Tx {
    tx.(coord := NextCoord(tx.coord, step, ok))
  }

  ghost function NextNodes(s: System, g: Gid, step: Step): Nodes
    requires Enabled(s, g, step)
  {
    match step
    case PrepareLeg(shard, _) =>
      if Ran(s, g, step) then s.nodes[shard := PrepareOn(s.nodes[shard], g, s.txs[g].parts[shard])] else s.nodes
    case CommitLeg(shard, _) => if Ran(s, g, step) then s.nodes[shard := CommitOn(s.nodes[shard], g)] else s.nodes
    case RollbackLeg(shard, _) => if Ran(s, g, step) then s.nodes[shard := RollbackOn(s.nodes[shard], g)] else s.nodes
    case ResolveCommit(shard) => s.nodes[shard := CommitOn(s.nodes[shard], g)]
    case ResolveRollback(shard) => s.nodes[shard := RollbackOn(s.nodes[shard], g)]
    case _ => s.nodes
  }

  ghost function Next(s: System, g: Gid, step: Step): System
    requires Enabled(s, g, step)
  {
    var nodes := NextNodes(s, g, step);
    if step.Start? then System(nodes, s.txs[g := Tx(step.parts, Preparing(step.parts.Keys, {}))])
    else
      var ok := Ran(s, g, step) && (step.PrepareLeg? || step.CommitLeg? || step.RollbackLeg?) && step.reply.Executed?;
      System(nodes, s.txs[g := NextTx(s.txs[g], step, ok)])
  }

  // ---- what every step keeps ----

  /** A leg does what its part asked for; only a debit may have matched no row. */
  predicate Matches(e: Effect, w: Work) {
    match w
    case Debit(t, c) => e == Nothing || e == Add(t, -c)
    case Credit(t, c) => e == Add(t, c)
  }

  ghost predicate TxInv(s: System, g: Gid)
    requires g in s.txs
  {
    var c, parts := s.txs[g].coord, s.txs[g].parts;
    && (forall shard :: shard in s.nodes && g in s.nodes[shard].legs ==>
          shard in parts && Matches(s.nodes[shard].legs[g].effect, parts[shard]))
    && (NoLegIs(s, g, Committed) || (NoLegIs(s, g, Aborted) && Complete(s, g)))
    && match c
       case Preparing(todo, prepared) =>
         && todo + prepared == parts.Keys && todo !! prepared
         && (forall shard :: shard in prepared ==> Has(s, g, shard, Prepared))
         && (forall shard :: shard in todo && shard in s.nodes ==> g !in s.nodes[shard].legs)
       case RollingBack(left) => NoLegIs(s, g, Committed)
       case Committing(left, failed) =>
         && NoLegIs(s, g, Aborted) && Complete(s, g)
         && (!failed ==> forall shard :: shard in parts && shard !in left ==> Has(s, g, shard, Committed))
       case Ended(Success) => forall shard :: shard in parts ==> Has(s, g, shard, Committed)
       case Ended(PhaseOneError) => NoLegIs(s, g, Committed)
       case Ended(PhaseTwoError) => Complete(s, g)
       case Dead => true
  }

  ghost predicate Inv(s: System) {
    && (forall g :: g in s.txs ==> TxInv(s, g))
    && (forall shard, g :: shard in s.nodes && g in s.nodes[shard].legs ==> g in s.txs)
  }

  /** Transaction h and all its legs are the same in both states. */
  ghost predicate SameTx(s: System, t: System, h: Gid) {
    && t.nodes.Keys == s.nodes.Keys
    && (h in s.txs <==> h in t.txs) && (h in s.txs ==> t.txs[h] == s.txs[h])
    && (forall shard :: shard in s.nodes ==>
          (h in s.nodes[shard].legs <==> h in t.nodes[shard].legs)
          && (h in s.nodes[shard].legs ==> t.nodes[shard].legs[h] == s.nodes[shard].legs[h]))
  }

  // A step of one transaction leaves every other transaction and its legs alone.
  lemma StepFrame(s: System, g: Gid, step: Step, h: Gid)
    requires Enabled(s, g, step) && h != g
    ensures SameTx(s, Next(s, g, step), h)
  {
  }

  lemma SameTxKeepsInv(s: System, t: System, h: Gid)
    requires SameTx(s, t, h) && h in s.txs && TxInv(s, h)
    ensures TxInv(t, h)
  {
  }

  lemma PrepareKeepsTx(s: System, g: Gid, step: Step)
    requires g in s.txs && TxInv(s, g) && Enabled(s, g, step) && step.PrepareLeg?
    ensures TxInv(Next(s, g, step), g)
  {
  }

  lemma CommitKeepsTx(s: System, g: Gid, step: Step)
    requires g in s.txs && TxInv(s, g) && Enabled(s, g, step) && (step.CommitLeg? || step.ResolveCommit?)
    ensures TxInv(Next(s, g, step), g)
  {
  }

  lemma RollbackKeepsTx(s: System, g: Gid, step: Step)
    requires g in s.txs && TxInv(s, g) && Enabled(s, g, step) && (step.RollbackLeg? || step.ResolveRollback?)
    ensures TxInv(Next(s, g, step), g)
  {
  }

  lemma StepKeepsOwnTx(s: System, g: Gid, step: Step)
    requires (g in s.txs ==> TxInv(s, g)) && Enabled(s, g, step)
    ensures TxInv(Next(s, g, step), g)
  {
    if step.PrepareLeg? {
      PrepareKeepsTx(s, g, step);
    } else if step.CommitLeg? || step.ResolveCommit? {
      CommitKeepsTx(s, g, step);
    } else if step.RollbackLeg? || step.ResolveRollback? {
      RollbackKeepsTx(s, g, step);
    }
  }

  lemma StepKeepsInv(s: System, g: Gid, step: Step)
    requires Inv(s) && Enabled(s, g, step)
    ensures Inv(Next(s, g, step))
  {
    var t := Next(s, g, step);
    forall h | h in t.txs
      ensures TxInv(t, h)
    {
      if h == g {
        StepKeepsOwnTx(s, g, step);
      } else {
        StepFrame(s, g, step, h);
        SameTxKeepsInv(s, t, h);
      }
    }
    forall shard, h | shard in t.nodes && h in t.nodes[shard].legs
      ensures h in t.txs
    {
      if h != g {
        StepFrame(s, g, step, h);
      }
    }
  }
}
