/**
 Why the backfill waits: starting it with no regard to stale routers and calls loses an order in some
 later run exactly when one of them can still write an order that the copy will not include.
 */
module MigrationGuard {
  import opened Common
  import opened Orders
  import opened Migration
  import opened Sums

  /** StartBackfill without its guard. */
  ghost function StartUnguarded(w: World, s: System): System
    requires w.source in s.tables
  {
    s.(backfill := Copying(RowsToCopy(w, s.tables[w.source])))
  }

  /** The state after these steps, None if one of them was not enabled. */
  ghost function Follow(w: World, s: System, steps: seq<Step>): Option<System>
    decreases |steps|
  {
    if steps == [] then Some(s)
    else if Enabled(w, s, steps[0]) then Follow(w, Do(w, s, steps[0]), steps[1..])
    else None
  }

  /** The move is over, the client was told that its order is stored, and the target has no such row. */
  ghost predicate Lost(w: World, s: System, a: Ack) {
    s.backfill.Complete? && a in s.acked && w.moves(w.book(a.id).tenant) && !Holds(w, s, w.target, a.id)
  }

  ghost predicate LosesVia(w: World, s: System, steps: seq<Step>, a: Ack) {
    var t := Follow(w, s, steps);
    t.Some? && Lost(w, t.value, a)
  }

  ghost predicate CanLose(w: World, s: System) {
    exists steps, a :: LosesVia(w, s, steps, a)
  }

  /** A moving tenant's order that neither shard holds yet. */
  ghost predicate Loseable(w: World, s: System, id: int) {
    w.moves(w.book(id).tenant) && !Holds(w, s, w.source, id) && !Holds(w, s, w.target, id)
  }

  ghost predicate StaleCall(w: World, s: System, c: int) {
    c in s.calls && s.calls[c].phase.Before? && Loseable(w, s, s.calls[c].id)
  }

  ghost predicate StaleRouter(w: World, s: System, r: int, id: int) {
    r in s.routers && s.routers[r].Before? && Loseable(w, s, id)
  }

  ghost predicate Threatened(w: World, s: System) {
    (exists c :: StaleCall(w, s, c)) || (exists r, id :: StaleRouter(w, s, r, id))
  }

  // ---- a threat is carried out ----

  lemma {:induction false} FollowJoin(w: World, s: System, first: seq<Step>, t: System, rest: seq<Step>)
    requires Follow(w, s, first) == Some(t)
    ensures Follow(w, s, first + rest) == Follow(w, t, rest)
    decreases |first|
  {
    if first == [] {
      assert first + rest == rest;
    } else {
      FollowJoin(w, Do(w, s, first[0]), first[1..], t, rest);
      assert (first + rest)[1..] == first[1..] + rest;
    }
  }

  lemma FollowStep(w: World, s: System, step: Step, rest: seq<Step>)
    requires Enabled(w, s, step)
    ensures Follow(w, s, [step] + rest) == Follow(w, Do(w, s, step), rest)
  {
    assert ([step] + rest)[1..] == rest;
  }

  /** A backfill in progress, and what it leaves alone. */
  ghost predicate CanDrain(w: World, s: System) {
    && w.source in s.tables && w.target in s.tables && w.source != w.target
    && s.backfill.Copying? && s.backfill.todo <= s.tables[w.source].Keys
  }

  // The copy runs to its end on its own, and adds to the target nothing but the rows it listed.
  lemma {:induction false} DrainRun(w: World, s: System) returns (steps: seq<Step>, t: System)
    requires CanDrain(w, s)
    ensures Follow(w, s, steps) == Some(t) && t.backfill.Complete?
    ensures t.routers == s.routers && t.calls == s.calls && t.acked == s.acked
    ensures w.source in t.tables && w.target in t.tables
    ensures forall id :: Holds(w, t, w.target, id) ==> Holds(w, s, w.target, id) || id in s.backfill.todo
    decreases if s.backfill.Copying? then |s.backfill.todo| else 0
  {
    if s.backfill.todo == {} {
      t := Do(w, s, EndBackfill);
      FollowStep(w, s, EndBackfill, []);
      steps := [EndBackfill] + [];
    } else {
      var id := Pick(s.backfill.todo);
      var next := Do(w, s, CopyRow(id));
      var rest;
      rest, t := DrainRun(w, next);
      FollowStep(w, s, CopyRow(id), rest);
      steps := [CopyRow(id)] + rest;
    }
  }

  // After the copy, a stale insert of an order it did not list is acknowledged and never reaches the target.
  lemma StaleInsertIsLost(w: World, t: System, c: int) returns (steps: seq<Step>)
    requires Routes(w) && w.source in t.tables && w.target in t.tables && t.backfill.Complete?
    requires c in t.calls && t.calls[c].phase.Before? && t.calls[c].n == 0
    requires w.moves(w.book(t.calls[c].id).tenant) && !Holds(w, t, w.target, t.calls[c].id)
    ensures LosesVia(w, t, steps, Ack(t.calls[c].id, Before))
  {
    var write := Write(c, Executed(0));
    assert WriteSet(w, t.calls[c]) == [w.source];
    var written := Do(w, t, write);
    FollowStep(w, t, write, [Finish(c)]);
    FollowStep(w, written, Finish(c), []);
    assert [Finish(c)] + [] == [Finish(c)];
    steps := [write] + [Finish(c)];
  }

  lemma LoseThen(w: World, s: System, first: seq<Step>, t: System, rest: seq<Step>, a: Ack)
    requires Follow(w, s, first) == Some(t) && LosesVia(w, t, rest, a)
    ensures CanLose(w, s)
  {
    FollowJoin(w, s, first, t, rest);
    assert LosesVia(w, s, first + rest, a);
  }

  lemma StaleCallLoses(w: World, s: System, c: int)
    requires Routes(w) && Inv(w, s) && StaleCall(w, s, c)
    ensures CanLose(w, StartUnguarded(w, s))
  {
    assert WriteSet(w, s.calls[c]) == [w.source];
    var u := StartUnguarded(w, s);
    var drain, t := DrainRun(w, u);
    var lose := StaleInsertIsLost(w, t, c);
    LoseThen(w, u, drain, t, lose, Ack(s.calls[c].id, Before));
  }

  /** A number above all of these. */
  ghost function Above(numbers: set<int>): (r: int)
    ensures forall x :: x in numbers ==> x < r
  {
    if numbers == {} then 0
    else
      var x := Pick(numbers);
      var r := Above(numbers - {x});
      assert numbers == numbers - {x} + {x};
      if x < r then r else x + 1
  }

  lemma StaleRouterLoses(w: World, s: System, r: int, id: int)
    requires Routes(w) && Inv(w, s) && StaleRouter(w, s, r, id)
    ensures CanLose(w, StartUnguarded(w, s))
  {
    var u := StartUnguarded(w, s);
    var drain, t := DrainRun(w, u);
    var c := Above(t.calls.Keys);
    assert c !in t.calls;
    assert WriteSet(w, Call(id, Before, 0)) == [w.source];
    var begun := Do(w, t, Begin(c, r, id));
    var lose := StaleInsertIsLost(w, begun, c);
    FollowStep(w, t, Begin(c, r, id), lose);
    assert LosesVia(w, t, [Begin(c, r, id)] + lose, Ack(id, Before));
    LoseThen(w, u, drain, t, [Begin(c, r, id)] + lose, Ack(id, Before));
  }

  // ---- without a threat nothing is lost ----

  ghost predicate Moving(w: World, id: int) {
    w.moves(w.book(id).tenant)
  }

  ghost predicate AnyStaleRouter(s: System) {
    exists r :: r in s.routers && s.routers[r].Before?
  }

  /** What every step from an unthreatened start keeps, stale routers and calls included. */
  ghost predicate Safe(w: World, s: System) {
    && w.source in s.tables && w.target in s.tables && !s.backfill.NotStarted?
    && CallsWrote(w, s)
    && (forall a :: a in s.acked && Moving(w, a.id) ==> Covered(w, s, a.id))
    && (forall c :: c in s.calls && s.calls[c].phase.Before? && Moving(w, s.calls[c].id) ==> Covered(w, s, s.calls[c].id))
    && (AnyStaleRouter(s) ==> forall id :: Moving(w, id) ==> Covered(w, s, id))
  }

  lemma UnthreatenedCovers(w: World, s: System, id: int)
    requires Routes(w) && Inv(w, s) && s.backfill.NotStarted? && Moving(w, id) && !Loseable(w, s, id)
    ensures Covered(w, StartUnguarded(w, s), id)
  {
    if !Holds(w, s, w.target, id) {
      assert Holds(w, s, w.source, id);
      assert IsOrder(w, id, s.tables[w.source][id]);
    }
  }

  lemma AckedCovered(w: World, s: System, a: Ack)
    requires Routes(w) && Inv(w, s) && a in s.acked && Moving(w, a.id)
    ensures !Loseable(w, s, a.id)
  {
    assert Holds(w, s, w.writeTo(a.phase, w.book(a.id).tenant)[0], a.id);
  }

  lemma StartIsSafe(w: World, s: System)
    requires Routes(w) && Inv(w, s) && s.backfill.NotStarted? && !Threatened(w, s)
    ensures Safe(w, StartUnguarded(w, s))
  {
    var u := StartUnguarded(w, s);
    forall a | a in u.acked && Moving(w, a.id)
      ensures Covered(w, u, a.id)
    {
      AckedCovered(w, s, a);
      UnthreatenedCovers(w, s, a.id);
    }
    forall c | c in u.calls && u.calls[c].phase.Before? && Moving(w, u.calls[c].id)
      ensures Covered(w, u, u.calls[c].id)
    {
      assert !StaleCall(w, s, c);
      UnthreatenedCovers(w, s, u.calls[c].id);
    }
    if AnyStaleRouter(u) {
      var r :| r in u.routers && u.routers[r].Before?;
      forall id | Moving(w, id)
        ensures Covered(w, u, id)
      {
        assert !StaleRouter(w, s, r, id);
        UnthreatenedCovers(w, s, id);
      }
    }
  }

  lemma StepKeepsCovered(w: World, s: System, step: Step, id: int)
    requires Enabled(w, s, step) && !s.backfill.NotStarted? && Covered(w, s, id)
    ensures Covered(w, Do(w, s, step), id)
  {
    StepGrows(w, s, step);
  }

  lemma FinishCovered(w: World, s: System, c: int)
    requires Routes(w) && Safe(w, s) && Enabled(w, s, Finish(c)) && Moving(w, s.calls[c].id)
    ensures Covered(w, s, s.calls[c].id)
  {
    if !s.calls[c].phase.Before? {
      var writes := WriteSet(w, s.calls[c]);
      assert writes[|writes| - 1] == w.target;
    }
  }

  lemma StepKeepsSafe(w: World, s: System, step: Step)
    requires Routes(w) && Safe(w, s) && Enabled(w, s, step)
    ensures Safe(w, Do(w, s, step))
  {
    var t := Do(w, s, step);
    StepKeepsCalls(w, s, step);
    forall id | Covered(w, s, id)
      ensures Covered(w, t, id)
    {
      StepKeepsCovered(w, s, step, id);
    }
    if step.Finish? && Moving(w, s.calls[step.call].id) {
      FinishCovered(w, s, step.call);
    }
    assert AnyStaleRouter(t) ==> AnyStaleRouter(s);
  }

  lemma {:induction false} SafeNeverLoses(w: World, s: System, steps: seq<Step>, a: Ack)
    requires Routes(w) && Safe(w, s)
    ensures !LosesVia(w, s, steps, a)
    decreases |steps|
  {
    if steps != [] && Enabled(w, s, steps[0]) {
      StepKeepsSafe(w, s, steps[0]);
      SafeNeverLoses(w, Do(w, s, steps[0]), steps[1..], a);
    }
  }

  // Started at any point of any run before it should be, the backfill can lose an acknowledged order
  // if and only if a stale call carries, or a stale router can still be given, an order that neither
  // shard holds. The guard of StartBackfill rules out both.
  lemma UnguardedStartLosesIff(w: World, s: System)
    requires Routes(w) && Inv(w, s) && s.backfill.NotStarted?
    ensures CanLose(w, StartUnguarded(w, s)) <==> Threatened(w, s)
  {
    if c :| StaleCall(w, s, c) {
      StaleCallLoses(w, s, c);
    } else if r, id :| StaleRouter(w, s, r, id) {
      StaleRouterLoses(w, s, r, id);
    } else {
      StartIsSafe(w, s);
      forall steps, a
        ensures !LosesVia(w, StartUnguarded(w, s), steps, a)
      {
        SafeNeverLoses(w, StartUnguarded(w, s), steps, a);
      }
    }
  }

  // ---- a guarded move can always be carried through ----

  ghost predicate AllHold(s: System, p: Phase) {
    forall r :: r in s.routers ==> s.routers[r] == p
  }

  ghost function OtherRouters(s: System, p: Phase): set<int> {
    set r | r in s.routers && s.routers[r] != p
  }

  // Routers adopt the next map one by one.
  lemma {:induction false} AdoptAll(w: World, s: System, p: Phase) returns (steps: seq<Step>, t: System)
    requires w.source in s.tables && w.target in s.tables && (p.Committed? ==> s.backfill.Complete?)
    requires forall r :: r in s.routers && s.routers[r] != p ==> Later(s.routers[r], p)
    ensures Follow(w, s, steps) == Some(t) && AllHold(t, p)
    ensures t.routers.Keys == s.routers.Keys && t.(routers := s.routers) == s
    decreases |OtherRouters(s, p)|
  {
    if OtherRouters(s, p) == {} {
      steps, t := [], s;
      assert forall r :: r in s.routers && s.routers[r] != p ==> r in OtherRouters(s, p);
    } else {
      var r := Pick(OtherRouters(s, p));
      var next := Do(w, s, Adopt(r, p));
      assert OtherRouters(next, p) == OtherRouters(s, p) - {r};
      var rest;
      rest, t := AdoptAll(w, next, p);
      FollowStep(w, s, Adopt(r, p), rest);
      steps := [Adopt(r, p)] + rest;
    }
  }

  // Any insert in flight may fail.
  lemma {:induction false} DropAll(w: World, s: System) returns (steps: seq<Step>, t: System)
    requires w.source in s.tables && w.target in s.tables
    ensures Follow(w, s, steps) == Some(t) && t.calls == map[] && t.(calls := s.calls) == s
    decreases |s.calls.Keys|
  {
    if s.calls == map[] {
      steps, t := [], s;
    } else {
      var c := Pick(s.calls.Keys);
      var next := Do(w, s, Drop(c));
      assert next.calls.Keys == s.calls.Keys - {c};
      var rest;
      rest, t := DropAll(w, next);
      FollowStep(w, s, Drop(c), rest);
      steps := [Drop(c)] + rest;
    }
  }

  // From any point before the backfill some run of the guarded machine completes the move: every router ends
  // on the committed map and every order acknowledged so far stays acknowledged, so it is at the target.
  lemma MoveCanComplete(w: World, s: System) returns (steps: seq<Step>, t: System)
    requires Routes(w) && Inv(w, s) && s.backfill.NotStarted?
    ensures Follow(w, s, steps) == Some(t)
    ensures t.backfill.Complete? && AllHold(t, Committed) && t.routers.Keys == s.routers.Keys && t.acked == s.acked
    ensures forall a :: a in s.acked && w.moves(w.book(a.id).tenant) ==> Holds(w, t, w.target, a.id)
  {
    var drop, quiet := DropAll(w, s);
    var open, adopted := AdoptAll(w, quiet, Open);
    var started := Do(w, adopted, StartBackfill);
    FollowStep(w, adopted, StartBackfill, []);
    var drain, copied := DrainRun(w, started);
    var commit;
    commit, t := AdoptAll(w, copied, Committed);
    FollowJoin(w, s, drop, quiet, open);
    FollowJoin(w, s, drop + open, adopted, [StartBackfill] + []);
    FollowJoin(w, s, drop + open + ([StartBackfill] + []), started, drain);
    FollowJoin(w, s, drop + open + ([StartBackfill] + []) + drain, copied, commit);
    steps := drop + open + ([StartBackfill] + []) + drain + commit;
    FollowKeepsInv(w, s, steps, t);
  }

  lemma {:induction false} FollowKeepsInv(w: World, s: System, steps: seq<Step>, t: System)
    requires Routes(w) && Inv(w, s) && Follow(w, s, steps) == Some(t)
    ensures Inv(w, t)
    decreases |steps|
  {
    if steps != [] {
      StepKeepsInv(w, s, steps[0]);
      FollowKeepsInv(w, Do(w, s, steps[0]), steps[1..], t);
    }
  }
}
