/**
 The online move of one logical shard, as a step machine: several routers each caching one of three
 maps, inserts in flight between their statements, and a backfill that copies the source's rows.

 An insert is routed once, by the map its router holds at that moment, and then writes shard by shard;
 the router may adopt a newer map, or die, in between. A failed call may be retried under the same id.
 The copying tool is an environment step: it may start only when no router holds the pre-window map
 and no insert routed by one is in flight, it copies each source row of the logical shard with
 ON CONFLICT DO NOTHING, and only after it has finished may routers adopt the committed map.
 */
module Migration {
  import opened Hash
  import opened Directory
  import opened Orders
  import opened Sums

  /** Which map a router holds: before the window, window open, committed. */
  datatype Phase = Before | Open | Committed

  /** The three maps of one move as routing functions, and the order behind each id. */
  datatype World = World(
    readFrom: (Phase, Word) -> int,
    writeTo: (Phase, Word) -> seq<int>,
    logical: Word -> int,
    moves: Word -> bool,
    l: int,
    source: int,
    target: int,
    book: int -> NewOrder)

  ghost predicate Routes(w: World) {
    && w.source != w.target
    && (forall id :: w.book(id).id == id)
    && (forall p, t :: w.writeTo(p, t) != [] && w.writeTo(p, t)[0] == w.readFrom(p, t))
    && (forall t :: w.moves(t) ==> w.logical(t) == w.l && w.writeTo(Before, t) == [w.source]
                                   && w.writeTo(Open, t) == [w.source, w.target] && w.writeTo(Committed, t) == [w.target])
    && (forall p, t :: !w.moves(t) ==> w.readFrom(p, t) == w.readFrom(Before, t))
  }

  ghost function MapAt(d: Placement, l: int, target: int, p: Phase): Placement
    requires 0 <= l < |d.owners|
  {
    match p
    case Before => d
    case Open => Apply(d, BeginMove(l, target))
    case Committed => Apply(Apply(d, BeginMove(l, target)), Commit(l))
  }

  ghost function WorldOf(d: Placement, l: int, target: int, book: int -> NewOrder): World
    requires WellFormed(d) && 0 <= l < |d.owners|
  {
    World(
      (p: Phase, t: Word) => RouteRead(MapAt(d, l, target, p), t),
      (p: Phase, t: Word) => RouteWrite(MapAt(d, l, target, p), t),
      (t: Word) => Logical(d, t),
      (t: Word) => Moves(d, l, target, t),
      l, d.owners[l], target, book)
  }

  lemma MapRoutes(d: Placement, l: int, target: int, p: Phase, t: Word)
    requires WellFormed(d) && 0 <= l < |d.owners|
    ensures var m := MapAt(d, l, target, p);
            && WellFormed(m) && RouteWrite(m, t) != [] && RouteWrite(m, t)[0] == RouteRead(m, t)
            && (!Moves(d, l, target, t) ==> RouteRead(m, t) == RouteRead(d, t))
  {
    MoveChangesExactly(d, l, target, t);
  }

  lemma MovedRoutes(d: Placement, l: int, target: int, t: Word)
    requires WellFormed(d) && 0 <= l < |d.owners| && l !in d.migrating && Moves(d, l, target, t)
    ensures RouteWrite(d, t) == [d.owners[l]]
    ensures RouteWrite(MapAt(d, l, target, Open), t) == [d.owners[l], target]
    ensures RouteWrite(MapAt(d, l, target, Committed), t) == [target]
  {
    MoveChangesExactly(d, l, target, t);
  }

  // The directory's three maps route as the machine assumes, for any logical shard without a window.
  lemma DirectoryRoutes(d: Placement, l: int, target: int, book: int -> NewOrder)
    requires WellFormed(d) && 0 <= l < |d.owners| && l !in d.migrating && target != d.owners[l]
    requires forall id :: book(id).id == id
    ensures Routes(WorldOf(d, l, target, book))
    ensures forall t: Word :: WorldOf(d, l, target, book).logical(t) == Key(t) % |d.owners|
  {
    var w := WorldOf(d, l, target, book);
    forall p, t
      ensures w.writeTo(p, t) != [] && w.writeTo(p, t)[0] == w.readFrom(p, t)
      ensures !w.moves(t) ==> w.readFrom(p, t) == w.readFrom(Before, t)
    {
      MapRoutes(d, l, target, p, t);
    }
    forall t | w.moves(t)
      ensures w.logical(t) == l && w.writeTo(Before, t) == [w.source]
      ensures w.writeTo(Open, t) == [w.source, target] && w.writeTo(Committed, t) == [target]
    {
      MovedRoutes(d, l, target, t);
    }
  }

  // ---- the machine ----

  /** An insert in flight: its first n statements were answered without an error. */
  datatype Call = Call(id: int, phase: Phase, n: nat)

  /** An acknowledged order and the map that routed it. */
  datatype Ack = Ack(id: int, phase: Phase)

  datatype Backfill = NotStarted | Copying(todo: set<int>) | Complete

  datatype System = System(
    routers: map<int, Phase>,
    tables: Tables,
    calls: map<int, Call>,
    acked: set<Ack>,
    backfill: Backfill)

  datatype Step =
    | Adopt(router: int, phase: Phase)
    | Begin(call: int, router: int, id: int)
    | Write(call: int, reply: Reply)
    | Finish(call: int)
    | Drop(call: int)
    | StartBackfill
    | CopyRow(id: int)
    | EndBackfill

  function WriteSet(w: World, c: Call): seq<int> {
    w.writeTo(c.phase, w.book(c.id).tenant)
  }

  /** No router holds the pre-window map, and no insert routed by one is still in flight. */
  ghost predicate WindowOpenEverywhere(s: System) {
    && (forall r :: r in s.routers ==> !s.routers[r].Before?)
    && (forall c :: c in s.calls ==> !s.calls[c].phase.Before?)
  }

  predicate Later(p: Phase, q: Phase) {
    (p.Before? && !q.Before?) || (p.Open? && q.Committed?)
  }

  ghost predicate Enabled(w: World, s: System, step: Step) {
    && w.source in s.tables && w.target in s.tables
    && match step
       case Adopt(r, p) => r in s.routers && Later(s.routers[r], p) && (p.Committed? ==> s.backfill.Complete?)
       case Begin(c, r, id) =>
         c !in s.calls && r in s.routers && InAll(WriteSet(w, Call(id, s.routers[r], 0)), s.tables)
       case Write(c, reply) =>
         c in s.calls && s.calls[c].n < |WriteSet(w, s.calls[c])| && WriteSet(w, s.calls[c])[s.calls[c].n] in s.tables
       case Finish(c) => c in s.calls && s.calls[c].n == |WriteSet(w, s.calls[c])|
       case Drop(c) => c in s.calls
       case StartBackfill => s.backfill.NotStarted? && WindowOpenEverywhere(s)
       case CopyRow(id) => s.backfill.Copying? && id in s.backfill.todo && id in s.tables[w.source]
       case EndBackfill => s.backfill.Copying? && s.backfill.todo == {}
  }

  function RowsToCopy(w: World, t: Table): set<int> {
    set id | id in t && t[id].logical == w.l
  }

  /** One statement of an insert; an error ends the call, executed or not. */
  ghost function AfterWrite(w: World, s: System, c: int, reply: Reply): System
    requires Enabled(w, s, Write(c, reply))
  {
    var call := s.calls[c];
    var shard, o := WriteSet(w, call)[call.n], w.book(call.id);
    s.(tables := s.tables[shard := AfterReply(s.tables[shard], o, w.logical(o.tenant), reply)],
       calls := if reply.Executed? then s.calls[c := call.(n := call.n + 1)] else s.calls - {c})
  }

  ghost function Do(w: World, s: System, step: Step): System
    requires Enabled(w, s, step)
  {
    match step
    case Adopt(r, p) => s.(routers := s.routers[r := p])
    case Begin(c, r, id) => s.(calls := s.calls[c := Call(id, s.routers[r], 0)])
    case Write(c, reply) => AfterWrite(w, s, c, reply)
    case Finish(c) => s.(calls := s.calls - {c}, acked := s.acked + {Ack(s.calls[c].id, s.calls[c].phase)})
    case Drop(c) => s.(calls := s.calls - {c})
    case StartBackfill => s.(backfill := Copying(RowsToCopy(w, s.tables[w.source])))
    case CopyRow(id) =>
      s.(tables := s.tables[w.target := Put(s.tables[w.target], id, s.tables[w.source][id])],
         backfill := Copying(s.backfill.todo - {id}))
    case EndBackfill => s.(backfill := Complete)
  }

  // ---- what every step keeps ----

  /** The row is the order behind its id, whenever its shard stamped it. */
  predicate IsOrder(w: World, id: int, row: OrderRow) {
    var o := w.book(id);
    row == Stamp(o, w.logical(o.tenant), row.createdAt)
  }

  /** Shard s holds order id. */
  predicate Holds(w: World, s: System, shard: int, id: int) {
    shard in s.tables && id in s.tables[shard]
  }

  ghost predicate RowsAreOrders(w: World, s: System) {
    forall shard, id :: shard in s.tables && id in s.tables[shard] ==> IsOrder(w, id, s.tables[shard][id])
  }

  /** An insert's first n shards hold its order. */
  ghost predicate CallsWrote(w: World, s: System) {
    forall c, i :: c in s.calls && 0 <= i < s.calls[c].n && i < |WriteSet(w, s.calls[c])| ==>
      Holds(w, s, WriteSet(w, s.calls[c])[i], s.calls[c].id)
  }

  /** The order of phases: no committed map before the backfill is complete, no old one once it started. */
  ghost predicate PhasesInOrder(s: System) {
    && (!s.backfill.NotStarted? ==> WindowOpenEverywhere(s))
    && (!s.backfill.Complete? ==>
          (forall r :: r in s.routers ==> !s.routers[r].Committed?) && (forall c :: c in s.calls ==> !s.calls[c].phase.Committed?))
    && (!s.backfill.Complete? ==> forall a :: a in s.acked ==> !a.phase.Committed?)
  }

  /** Every acknowledged order is on every shard its own map wrote it to. */
  ghost predicate AckedWhereRouted(w: World, s: System) {
    forall a, i :: a in s.acked && 0 <= i < |w.writeTo(a.phase, w.book(a.id).tenant)| ==>
      Holds(w, s, w.writeTo(a.phase, w.book(a.id).tenant)[i], a.id)
  }

  /** The order is at the target, or the backfill has yet to copy it. */
  ghost predicate Covered(w: World, s: System, id: int) {
    Holds(w, s, w.target, id) || (s.backfill.Copying? && id in s.backfill.todo)
  }

  /** Acknowledged orders of moving tenants are at the target, or the backfill has yet to copy them. */
  ghost predicate AckedReachTarget(w: World, s: System) {
    !s.backfill.NotStarted? ==>
      forall a :: a in s.acked && w.moves(w.book(a.id).tenant) ==> Covered(w, s, a.id)
  }

  ghost predicate Inv(w: World, s: System) {
    && w.source in s.tables && w.target in s.tables
    && RowsAreOrders(w, s)
    && CallsWrote(w, s)
    && PhasesInOrder(s)
    && AckedWhereRouted(w, s)
    && AckedReachTarget(w, s)
    && (s.backfill.Copying? ==> s.backfill.todo <= s.tables[w.source].Keys)
  }

  /** Rows only ever appear; no step changes or removes one. */
  ghost predicate Grows(w: World, s: System, t: System) {
    && t.tables.Keys == s.tables.Keys
    && (forall shard, id :: Holds(w, s, shard, id) ==> Holds(w, t, shard, id) && t.tables[shard][id] == s.tables[shard][id])
  }

  lemma StepGrows(w: World, s: System, step: Step)
    requires Enabled(w, s, step)
    ensures Grows(w, s, Do(w, s, step))
  {
  }

  lemma StepKeepsRows(w: World, s: System, step: Step)
    requires Routes(w) && Inv(w, s) && Enabled(w, s, step)
    ensures RowsAreOrders(w, Do(w, s, step))
  {
  }

  lemma StepKeepsCalls(w: World, s: System, step: Step)
    requires Routes(w) && CallsWrote(w, s) && Enabled(w, s, step)
    ensures CallsWrote(w, Do(w, s, step))
  {
    StepGrows(w, s, step);
  }

  lemma StepKeepsPhases(w: World, s: System, step: Step)
    requires Routes(w) && Inv(w, s) && Enabled(w, s, step)
    ensures PhasesInOrder(Do(w, s, step))
  {
  }

  lemma StepKeepsAcked(w: World, s: System, step: Step)
    requires Routes(w) && Inv(w, s) && Enabled(w, s, step)
    ensures AckedWhereRouted(w, Do(w, s, step))
  {
    StepGrows(w, s, step);
  }

  // An insert that finishes once the backfill has started was routed by an open or committed map.
  lemma FinishReachesTarget(w: World, s: System, c: int)
    requires Routes(w) && Inv(w, s) && Enabled(w, s, Finish(c)) && !s.backfill.NotStarted?
    requires w.moves(w.book(s.calls[c].id).tenant)
    ensures Holds(w, s, w.target, s.calls[c].id)
  {
    var writes := WriteSet(w, s.calls[c]);
    assert writes[|writes| - 1] == w.target;
  }

  // Whatever was acknowledged before the backfill starts is among the rows it is going to copy.
  lemma StartCoversAcked(w: World, s: System, a: Ack)
    requires Routes(w) && Inv(w, s) && Enabled(w, s, StartBackfill)
    requires a in s.acked && w.moves(w.book(a.id).tenant)
    ensures a.id in RowsToCopy(w, s.tables[w.source])
  {
    assert w.writeTo(a.phase, w.book(a.id).tenant)[0] == w.source;
    assert Holds(w, s, w.source, a.id);
  }

  lemma StepKeepsTarget(w: World, s: System, step: Step)
    requires Routes(w) && Inv(w, s) && Enabled(w, s, step)
    ensures AckedReachTarget(w, Do(w, s, step))
  {
    StepGrows(w, s, step);
    match step
    case Finish(c) =>
      if !s.backfill.NotStarted? && w.moves(w.book(s.calls[c].id).tenant) {
        FinishReachesTarget(w, s, c);
      }
    case StartBackfill =>
      forall a | a in s.acked && w.moves(w.book(a.id).tenant) {
        StartCoversAcked(w, s, a);
      }
    case _ =>
  }

  lemma StepKeepsInv(w: World, s: System, step: Step)
    requires Routes(w) && Inv(w, s) && Enabled(w, s, step)
    ensures Inv(w, Do(w, s, step))
  {
    StepGrows(w, s, step);
    StepKeepsRows(w, s, step);
    StepKeepsCalls(w, s, step);
    StepKeepsPhases(w, s, step);
    StepKeepsAcked(w, s, step);
    StepKeepsTarget(w, s, step);
  }

  // ---- whole runs ----

  /** Before the window opens; orders acknowledged earlier sit where the old map put them. */
  ghost predicate Init(w: World, s: System) {
    && w.source in s.tables && w.target in s.tables
    && RowsAreOrders(w, s)
    && (forall r :: r in s.routers ==> s.routers[r].Before?)
    && s.calls == map[] && s.backfill.NotStarted?
    && (forall a :: a in s.acked ==> a.phase.Before?)
    && AckedWhereRouted(w, s)
  }

  ghost predicate Run(w: World, states: seq<System>, steps: seq<Step>) {
    && |states| == |steps| + 1
    && Init(w, states[0])
    && forall i :: 0 <= i < |steps| ==> Enabled(w, states[i], steps[i]) && states[i + 1] == Do(w, states[i], steps[i])
  }

  lemma {:induction false} RunKeepsInv(w: World, states: seq<System>, steps: seq<Step>)
    requires Routes(w) && Run(w, states, steps)
    ensures Inv(w, states[|steps|])
    decreases |steps|
  {
    if steps != [] {
      var n := |steps| - 1;
      RunKeepsInv(w, states[..n + 1], steps[..n]);
      StepKeepsInv(w, states[n], steps[n]);
    }
  }

  // From the end of the backfill on, whichever maps the routers hold, the target has every
  // acknowledged order of every tenant that moves, with the contents the client sent.
  lemma MovedOrdersAreAtTarget(w: World, states: seq<System>, steps: seq<Step>, a: Ack)
    requires Routes(w) && Run(w, states, steps)
    requires var s := states[|steps|]; s.backfill.Complete? && a in s.acked
    requires w.moves(w.book(a.id).tenant)
    ensures var s := states[|steps|];
            Holds(w, s, w.target, a.id) &&
            var row, o := s.tables[w.target][a.id], w.book(a.id);
            HasColumns(row, o.tenant, w.logical(o.tenant), row.createdAt, o.cents, o.state)
  {
    RunKeepsInv(w, states, steps);
  }

  // At any point of any run a read finds every acknowledged order, except that a router still on the
  // window-open map can miss an order of a moving tenant that a committed map wrote.
  lemma ReadsFindAcked(w: World, states: seq<System>, steps: seq<Step>, r: int, a: Ack)
    requires Routes(w) && Run(w, states, steps)
    requires r in states[|steps|].routers && a in states[|steps|].acked
    ensures var s, tenant := states[|steps|], w.book(a.id).tenant;
            || Holds(w, s, w.readFrom(s.routers[r], tenant), a.id)
            || (s.routers[r].Open? && a.phase.Committed? && w.moves(tenant))
  {
    RunKeepsInv(w, states, steps);
    ReadFindsAcked(w, states[|steps|], r, a);
  }

  lemma ReadFindsAcked(w: World, s: System, r: int, a: Ack)
    requires Routes(w) && Inv(w, s) && r in s.routers && a in s.acked
    ensures || Holds(w, s, w.readFrom(s.routers[r], w.book(a.id).tenant), a.id)
            || (s.routers[r].Open? && a.phase.Committed? && w.moves(w.book(a.id).tenant))
  {
    var tenant := w.book(a.id).tenant;
    assert w.writeTo(a.phase, tenant)[0] == w.readFrom(a.phase, tenant);
    assert w.writeTo(s.routers[r], tenant)[0] == w.readFrom(s.routers[r], tenant);
    assert Holds(w, s, w.writeTo(a.phase, tenant)[0], a.id);
  }

  /** A backfill that has started can always be finished, row by row. */
  ghost function Drain(w: World, s: System): (r: System)
    requires Routes(w) && Inv(w, s) && s.backfill.Copying?
    ensures Inv(w, r) && r.backfill.Complete? && r.acked == s.acked && r.routers == s.routers
    decreases s.backfill.todo
  {
    if s.backfill.todo == {} then
      StepKeepsInv(w, s, EndBackfill);
      Do(w, s, EndBackfill)
    else
      var id := Pick(s.backfill.todo);
      StepKeepsInv(w, s, CopyRow(id));
      Drain(w, Do(w, s, CopyRow(id)))
  }

  // A call that no other step interrupts writes what the loop of `Insert` writes.
  lemma {:induction false} CallRunsLikeInsert(w: World, states: seq<System>, c: int, replies: seq<Reply>, k: nat)
    requires |states| > k && c in states[0].calls && states[0].calls[c].n == 0
    requires var shards := WriteSet(w, states[0].calls[c]); k <= |shards| <= |replies| && InAll(shards, states[0].tables)
    requires forall i :: 0 <= i < k - 1 ==> replies[i].Executed?
    requires forall i :: 0 <= i < k ==>
      Enabled(w, states[i], Write(c, replies[i])) && states[i + 1] == Do(w, states[i], Write(c, replies[i]))
    ensures var call := states[0].calls[c];
            var o := w.book(call.id);
            && states[k].tables == WriteFirst(states[0].tables, WriteSet(w, call), o, w.logical(o.tenant), replies, k)
            && (c in states[k].calls <==> k == 0 || replies[k - 1].Executed?)
            && (c in states[k].calls ==> states[k].calls[c] == call.(n := k))
    decreases k
  {
    if k > 0 {
      CallRunsLikeInsert(w, states, c, replies, k - 1);
    }
  }

  // The exception in ReadsFindAcked is real: a committed-map insert of a new id is invisible to every
  // router whose window is still open.
  lemma OpenReadMissesCommittedWrite(w: World, s: System, r: int, c: int, now: int)
    requires Routes(w) && w.source in s.tables && w.target in s.tables && r in s.routers && s.routers[r].Open?
    requires c in s.calls && s.calls[c].phase.Committed? && s.calls[c].n == 0
    requires w.moves(w.book(s.calls[c].id).tenant) && !Holds(w, s, w.source, s.calls[c].id)
    ensures Enabled(w, s, Write(c, Executed(now)))
    ensures var written := Do(w, s, Write(c, Executed(now)));
            && Enabled(w, written, Finish(c))
            && var t := Do(w, written, Finish(c));
               && Ack(s.calls[c].id, Committed) in t.acked
               && !Holds(w, t, w.readFrom(t.routers[r], w.book(s.calls[c].id).tenant), s.calls[c].id)
  {
    var tenant := w.book(s.calls[c].id).tenant;
    assert WriteSet(w, s.calls[c]) == [w.target];
    assert w.readFrom(Open, tenant) == w.writeTo(Open, tenant)[0];
  }
}
