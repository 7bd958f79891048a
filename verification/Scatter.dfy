/**
 The scatter-gather: one goroutine per shard, a semaphore channel bounding the calls in flight, a
 shared result slice under a mutex, then a sort and an error summary.

 Goroutines are a step machine: the main loop launches them one by one, and any goroutine may take the
 next step. A call's answer depends on its shard only; how long it took does not matter to the result.
 */
module Scatter {
  import opened Sums

  datatype Answer<T> = Answer(value: T, failed: bool)

  datatype ShardResult<T> = ShardResult(shard: int, value: T, failed: bool, took: int)

  datatype Options = Options(concurrency: int, allowPartial: bool)

  /** What one request works on: the cluster's shards ascending, those with a pool, and every answer. */
  datatype Request<T> = Request(shards: seq<int>, pools: set<int>, zero: T, answer: int -> Answer<T>, options: Options)

  /** `withDefaults`: no bound given means as many as there are shards. */
  function Capacity<T>(q: Request<T>): nat {
    if q.options.concurrency <= 0 then |q.shards| else q.options.concurrency
  }

  ghost predicate Valid<T>(q: Request<T>) {
    forall i, j :: 0 <= i < j < |q.shards| ==> q.shards[i] < q.shards[j]
  }

  /** Not launched, waiting for the semaphore, calling, result appended but slot held, gone. */
  datatype Worker = Unlaunched | Waiting | Calling | Appended | Gone

  datatype State<T> = State(next: nat, workers: seq<Worker>, out: seq<ShardResult<T>>)

  datatype Step = Launch | Acquire(i: nat) | Answered(i: nat, took: int) | Release(i: nat)

  predicate HoldsSlot(w: Worker) {
    w.Calling? || w.Appended?
  }

  function InFlight(workers: seq<Worker>): set<nat> {
    set i: nat | i < |workers| && HoldsSlot(workers[i])
  }

  function Start<T>(q: Request<T>): State<T> {
    State(0, seq(|q.shards|, i => Unlaunched), [])
  }

  ghost predicate Enabled<T>(q: Request<T>, s: State<T>, step: Step) {
    && |s.workers| == |q.shards|
    && match step
       case Launch => s.next < |q.shards|
       case Acquire(i) => i < |q.shards| && s.workers[i].Waiting? && |InFlight(s.workers)| < Capacity(q)
       case Answered(i, _) => i < |q.shards| && s.workers[i].Calling?
       case Release(i) => i < |q.shards| && s.workers[i].Appended?
  }

  /** The result one shard contributes: its answer, or an error when it has no pool. */
  function ResultOf<T>(q: Request<T>, shard: int, took: int): ShardResult<T> {
    if shard in q.pools then ShardResult(shard, q.answer(shard).value, q.answer(shard).failed, took)
    else ShardResult(shard, q.zero, true, took)
  }

  ghost function Next<T>(q: Request<T>, s: State<T>, step: Step): State<T>
    requires Enabled(q, s, step)
  {
    match step
    case Launch =>
      if s.next >= |s.workers| then s
      else if q.shards[s.next] in q.pools then State(s.next + 1, s.workers[s.next := Waiting], s.out)
      else State(s.next + 1, s.workers[s.next := Gone], s.out + [ResultOf(q, q.shards[s.next], 0)])
    case Acquire(i) => s.(workers := s.workers[i := Calling])
    case Answered(i, took) => s.(workers := s.workers[i := Appended], out := s.out + [ResultOf(q, q.shards[i], took)])
    case Release(i) => s.(workers := s.workers[i := Gone])
  }

  /** `wg.Wait` returns: everything was launched and is gone. */
  ghost predicate Final<T>(q: Request<T>, s: State<T>) {
    s.next == |q.shards| == |s.workers| && forall i :: 0 <= i < |s.workers| ==> s.workers[i].Gone?
  }

  // ---- what every schedule keeps ----

  predicate Reported(w: Worker) {
    w.Appended? || w.Gone?
  }

  function ShardsOf<T>(out: seq<ShardResult<T>>): set<int> {
    set k | 0 <= k < |out| :: out[k].shard
  }

  /** The slice holds one result for each goroutine that has reported, and nothing else. */
  ghost predicate Reports<T>(q: Request<T>, s: State<T>) {
    && |s.workers| == |q.shards|
    && (forall k, m :: 0 <= k < m < |s.out| ==> s.out[k].shard != s.out[m].shard)
    && (forall i :: 0 <= i < |s.workers| ==> (Reported(s.workers[i]) <==> q.shards[i] in ShardsOf(s.out)))
    && (forall x :: x in ShardsOf(s.out) ==> x in q.shards)
  }

  ghost predicate Inv<T>(q: Request<T>, s: State<T>) {
    && s.next <= |q.shards| == |s.workers|
    && (forall i :: 0 <= i < |s.workers| ==> (s.workers[i].Unlaunched? <==> i >= s.next))
    && (forall i :: 0 <= i < |s.workers| && q.shards[i] !in q.pools ==> s.workers[i].Unlaunched? || s.workers[i].Gone?)
    && |InFlight(s.workers)| <= Capacity(q)
    && (forall k :: 0 <= k < |s.out| ==> s.out[k] == ResultOf(q, s.out[k].shard, s.out[k].took))
    && Reports(q, s)
  }

  lemma StartInv<T>(q: Request<T>)
    requires Valid(q)
    ensures Inv(q, Start(q))
  {
    assert InFlight(Start(q).workers) == {};
  }

  lemma InFlightUpdate(workers: seq<Worker>, i: nat, w: Worker)
    requires i < |workers|
    ensures InFlight(workers[i := w]) == if HoldsSlot(w) then InFlight(workers) + {i} else InFlight(workers) - {i}
  {
  }

  lemma ShardsOfAppend<T>(out: seq<ShardResult<T>>, r: ShardResult<T>)
    ensures ShardsOf(out + [r]) == ShardsOf(out) + {r.shard}
  {
    var more := out + [r];
    assert more[|out|] == r;
    assert forall k :: 0 <= k < |out| ==> more[k] == out[k];
    forall x | x in ShardsOf(out) + {r.shard}
      ensures x in ShardsOf(more)
    {
      if x in ShardsOf(out) {
        var k :| 0 <= k < |out| && out[k].shard == x;
        assert more[k].shard == x;
      }
    }
  }

  lemma AppendKeepsReports<T>(q: Request<T>, s: State<T>, i: nat, w: Worker, r: ShardResult<T>)
    requires Valid(q) && Reports(q, s) && i < |s.workers| && !Reported(s.workers[i]) && Reported(w) && r.shard == q.shards[i]
    ensures Reports(q, s.(workers := s.workers[i := w], out := s.out + [r]))
  {
    ShardsOfAppend(s.out, r);
    forall k | 0 <= k < |s.out|
      ensures s.out[k].shard != r.shard
    {
      assert s.out[k].shard in ShardsOf(s.out);
    }
  }

  // The semaphore: at most Capacity calls hold a slot, under every schedule.
  lemma StepKeepsBound<T>(q: Request<T>, s: State<T>, step: Step)
    requires Valid(q) && Inv(q, s) && Enabled(q, s, step)
    ensures |InFlight(Next(q, s, step).workers)| <= Capacity(q)
  {
    match step
    case Launch => InFlightUpdate(s.workers, s.next, Next(q, s, step).workers[s.next]);
    case Acquire(i) => InFlightUpdate(s.workers, i, Calling);
    case Answered(i, _) => InFlightUpdate(s.workers, i, Appended);
    case Release(i) => InFlightUpdate(s.workers, i, Gone);
  }

  lemma StepKeepsReports<T>(q: Request<T>, s: State<T>, step: Step)
    requires Valid(q) && Inv(q, s) && Enabled(q, s, step)
    ensures Reports(q, Next(q, s, step))
  {
    match step
    case Launch =>
      if q.shards[s.next] !in q.pools {
        AppendKeepsReports(q, s, s.next, Gone, ResultOf(q, q.shards[s.next], 0));
      }
    case Answered(i, took) => AppendKeepsReports(q, s, i, Appended, ResultOf(q, q.shards[i], took));
    case _ =>
  }

  lemma StepKeepsInv<T>(q: Request<T>, s: State<T>, step: Step)
    requires Valid(q) && Inv(q, s) && Enabled(q, s, step)
    ensures Inv(q, Next(q, s, step))
  {
    StepKeepsBound(q, s, step);
    StepKeepsReports(q, s, step);
  }

  /** The goroutines between taking a slot and giving it back: calling, or with their result just stored. */
  function Busy(workers: seq<Worker>): set<nat> {
    set i: nat | i < |workers| && workers[i] in {Calling, Appended}
  }

  lemma {:induction false} BusyAtMost(workers: seq<Worker>)
    ensures |Busy(workers)| <= |workers|
    decreases |workers|
  {
    if workers == [] {
      assert Busy(workers) == {};
    } else {
      var n := |workers| - 1;
      BusyAtMost(workers[..n]);
      assert Busy(workers) == Busy(workers[..n]) + (if workers[n] in {Calling, Appended} then {n} else {});
    }
  }

  // A goroutine waits only while the number of busy ones is at the concurrency asked for; with none asked
  // for, nobody ever waits.
  lemma WaitsIffFull<T>(q: Request<T>, s: State<T>, i: nat)
    requires Inv(q, s) && i < |q.shards| && s.workers[i].Waiting?
    ensures Enabled(q, s, Acquire(i)) <==> q.options.concurrency <= 0 || |Busy(s.workers)| < q.options.concurrency
  {
    assert Busy(s.workers) == InFlight(s.workers);
    var next := s.workers[i := Calling];
    BusyAtMost(next);
    assert Busy(next) == Busy(s.workers) + {i};
  }

  // ---- progress ----

  // No schedule gets stuck: until everything is gone, some goroutine or the main loop can move.
  lemma NeverStuck<T>(q: Request<T>, s: State<T>) returns (step: Step)
    requires Inv(q, s) && !Final(q, s)
    ensures Enabled(q, s, step)
  {
    if s.next < |q.shards| {
      return Launch;
    }
    if i: nat :| i < |s.workers| && HoldsSlot(s.workers[i]) {
      return if s.workers[i].Calling? then Answered(i, 0) else Release(i);
    }
    assert InFlight(s.workers) == {};
    var i: nat :| i < |s.workers| && !s.workers[i].Gone?;
    step := Acquire(i);
  }

  function Rank(w: Worker): nat {
    match w
    case Unlaunched => 4
    case Waiting => 3
    case Calling => 2
    case Appended => 1
    case Gone => 0
  }

  function Work(workers: seq<Worker>): nat {
    if workers == [] then 0 else Work(workers[..|workers| - 1]) + Rank(workers[|workers| - 1])
  }

  lemma {:induction false} WorkUpdate(workers: seq<Worker>, i: nat, w: Worker)
    requires i < |workers|
    ensures Work(workers[i := w]) == Work(workers) - Rank(workers[i]) + Rank(w)
  {
    var n := |workers| - 1;
    if i < n {
      WorkUpdate(workers[..n], i, w);
      assert workers[i := w][..n] == workers[..n][i := w];
    } else {
      assert workers[i := w][..n] == workers[..n];
    }
  }

  lemma StepDoesWork<T>(q: Request<T>, s: State<T>, step: Step)
    requires Inv(q, s) && Enabled(q, s, step)
    ensures Work(Next(q, s, step).workers) < Work(s.workers)
  {
    var i := match step case Launch => s.next case Acquire(i) => i case Answered(i, _) => i case Release(i) => i;
    WorkUpdate(s.workers, i, Next(q, s, step).workers[i]);
  }

  lemma {:induction false} WorkAtStart(n: nat)
    ensures Work(seq(n, i => Unlaunched)) == 4 * n
  {
    if n > 0 {
      WorkAtStart(n - 1);
      assert seq(n, i => Unlaunched)[..n - 1] == seq(n - 1, i => Unlaunched);
    }
  }

  ghost predicate Run<T(!new)>(q: Request<T>, states: seq<State<T>>, steps: seq<Step>) {
    && |states| == |steps| + 1
    && states[0] == Start(q)
    && forall i :: 0 <= i < |steps| ==> Enabled(q, states[i], steps[i]) && states[i + 1] == Next(q, states[i], steps[i])
  }

  // Every schedule stays within the bound and ends within four steps per shard.
  lemma {:induction false} RunIsBounded<T(!new)>(q: Request<T>, states: seq<State<T>>, steps: seq<Step>)
    requires Valid(q) && Run(q, states, steps)
    ensures Inv(q, states[|steps|]) && |InFlight(states[|steps|].workers)| <= Capacity(q)
    ensures |steps| + Work(states[|steps|].workers) <= 4 * |q.shards|
    ensures q.options.concurrency > 0 ==> |Busy(states[|steps|].workers)| <= q.options.concurrency
    decreases |steps|
  {
    assert Busy(states[|steps|].workers) == InFlight(states[|steps|].workers);
    if steps == [] {
      StartInv(q);
      WorkAtStart(|q.shards|);
    } else {
      var n := |steps| - 1;
      RunIsBounded(q, states[..n + 1], steps[..n]);
      StepKeepsInv(q, states[n], steps[n]);
      StepDoesWork(q, states[n], steps[n]);
    }
  }

  // ---- the answer ----

  predicate ByShard<T>(rs: seq<ShardResult<T>>) {
    forall i, j :: 0 <= i < j < |rs| ==> rs[i].shard < rs[j].shard
  }

  /** One result per shard in ascending shard order, as if the shards had been asked one after another. */
  ghost predicate Sequential<T>(q: Request<T>, rs: seq<ShardResult<T>>) {
    && |rs| == |q.shards|
    && forall i :: 0 <= i < |rs| ==> rs[i] == ResultOf(q, q.shards[i], rs[i].took)
  }

  function ShardNumbers<T>(rs: seq<ShardResult<T>>): (r: seq<int>)
    ensures |r| == |rs| && forall i :: 0 <= i < |rs| ==> r[i] == rs[i].shard
  {
    seq(|rs|, i requires 0 <= i < |rs| => rs[i].shard)
  }

  ghost predicate SameResults<T>(rs: seq<ShardResult<T>>, out: seq<ShardResult<T>>) {
    && (forall i :: 0 <= i < |rs| ==> rs[i] in out)
    && (forall k :: 0 <= k < |out| ==> out[k] in rs)
  }

  // Whatever the schedule, sorting what the goroutines appended gives the sequential answer.
  lemma FinalIsSequential<T>(q: Request<T>, s: State<T>, rs: seq<ShardResult<T>>)
    requires Valid(q) && Inv(q, s) && Final(q, s) && ByShard(rs) && SameResults(rs, s.out)
    ensures Sequential(q, rs)
  {
    var a := ShardNumbers(rs);
    forall i | 0 <= i < |a|
      ensures a[i] in q.shards && rs[i] == ResultOf(q, rs[i].shard, rs[i].took)
    {
      assert rs[i] in s.out;
      var k :| 0 <= k < |s.out| && s.out[k] == rs[i];
      assert s.out[k].shard in ShardsOf(s.out);
    }
    forall i | 0 <= i < |q.shards|
      ensures q.shards[i] in a
    {
      assert Reported(s.workers[i]);
      var k :| 0 <= k < |s.out| && s.out[k].shard == q.shards[i];
      var j :| 0 <= j < |rs| && rs[j] == s.out[k];
      assert a[j] == q.shards[i];
    }
    AscendingUnique(a, q.shards);
  }

  // Two schedules of the same request can differ only in the times they report.
  lemma AnyScheduleSameAnswer<T(!new)>(q: Request<T>, states: seq<State<T>>, steps: seq<Step>, rs: seq<ShardResult<T>>)
    requires Valid(q) && Run(q, states, steps) && Final(q, states[|steps|])
    requires ByShard(rs) && SameResults(rs, states[|steps|].out)
    ensures Sequential(q, rs) && OwnAnswers(q, rs)
  {
    RunIsBounded(q, states, steps);
    FinalIsSequential(q, states[|steps|], rs);
    SequentialIsOwn(q, rs);
  }

  /** In each place the shard's own answer, or an error and the zero value for a shard without a pool. */
  ghost predicate OwnAnswers<T>(q: Request<T>, rs: seq<ShardResult<T>>) {
    && |rs| == |q.shards|
    && forall i :: 0 <= i < |rs| ==>
         var a := q.answer(q.shards[i]);
         && rs[i].shard == q.shards[i]
         && (rs[i].failed <==> q.shards[i] !in q.pools || a.failed)
         && rs[i].value == if q.shards[i] in q.pools then a.value else q.zero
  }

  lemma SequentialIsOwn<T>(q: Request<T>, rs: seq<ShardResult<T>>)
    requires Sequential(q, rs)
    ensures OwnAnswers(q, rs)
  {
  }

  method ResultFor<T>(out: seq<ShardResult<T>>, shard: int) returns (r: ShardResult<T>)
    requires shard in ShardsOf(out)
    ensures r in out && r.shard == shard
  {
    var k :| 0 <= k < |out| && out[k].shard == shard;
    r := out[k];
  }

  /** `sort.Slice` by shard, as what it leaves: shards are distinct, so the order is determined. */
  method SortByShard<T>(out: seq<ShardResult<T>>) returns (rs: seq<ShardResult<T>>)
    requires forall k, m :: 0 <= k < m < |out| ==> out[k].shard != out[m].shard
    ensures ByShard(rs) && SameResults(rs, out)
  {
    var order := Ascending(ShardsOf(out));
    rs := [];
    for i := 0 to |order|
      invariant |rs| == i && forall j :: 0 <= j < i ==> rs[j].shard == order[j] && rs[j] in out
    {
      assert order[i] in order;
      var r := ResultFor(out, order[i]);
      rs := rs + [r];
    }
    forall k | 0 <= k < |out| {
      SortedHasResult(out, rs, order, k);
    }
  }

  lemma SortedHasResult<T>(out: seq<ShardResult<T>>, rs: seq<ShardResult<T>>, order: seq<int>, k: nat)
    requires k < |out| && |rs| == |order| && forall x :: x in order <==> x in ShardsOf(out)
    requires forall k, m :: 0 <= k < m < |out| ==> out[k].shard != out[m].shard
    requires forall j :: 0 <= j < |rs| ==> rs[j].shard == order[j] && rs[j] in out
    ensures out[k] in rs
  {
    var x := out[k].shard;
    assert x in ShardsOf(out);
    var j :| 0 <= j < |order| && order[j] == x;
    assert rs[j] == out[k];
  }

  /** The error summary: every failed shard, unless partial answers are allowed. */
  method Gather<T>(rs: seq<ShardResult<T>>, allowPartial: bool) returns (errs: seq<int>)
    ensures errs != [] <==> !allowPartial && exists i :: 0 <= i < |rs| && rs[i].failed
    ensures !allowPartial ==> forall x :: x in errs <==> exists i :: 0 <= i < |rs| && rs[i].failed && rs[i].shard == x
  {
    errs := [];
    if !allowPartial {
      for i := 0 to |rs|
        invariant forall x :: x in errs <==> exists j :: 0 <= j < i && rs[j].failed && rs[j].shard == x
        invariant errs != [] <==> exists j :: 0 <= j < i && rs[j].failed
      {
        if rs[i].failed {
          errs := errs + [rs[i].shard];
        }
      }
    }
  }

  // Without AllowPartial a request fails exactly when some shard without a pool or with a failed call
  // took part; the failed calls are those of the answer function, whatever the schedule.
  lemma FailsIffSomeShardFails<T>(q: Request<T>, rs: seq<ShardResult<T>>)
    requires Sequential(q, rs)
    ensures (exists i :: 0 <= i < |rs| && rs[i].failed) <==>
            exists i :: 0 <= i < |q.shards| && (q.shards[i] !in q.pools || q.answer(q.shards[i]).failed)
  {
    assert forall i :: 0 <= i < |rs| ==> (rs[i].failed <==> q.shards[i] !in q.pools || q.answer(q.shards[i]).failed);
  }

  /** The slowest shard, the first of equals; -1 when nothing took any time. */
  method SlowestShard<T>(rs: seq<ShardResult<T>>) returns (at: int, worst: int)
    ensures worst >= 0 && forall i :: 0 <= i < |rs| ==> rs[i].took <= worst
    ensures worst == 0 ==> at == -1
    ensures worst > 0 ==> exists i :: 0 <= i < |rs| && rs[i].took == worst && rs[i].shard == at
                                      && forall j :: 0 <= j < i ==> rs[j].took < worst
  {
    at, worst := -1, 0;
    for i := 0 to |rs|
      invariant worst >= 0 && forall j :: 0 <= j < i ==> rs[j].took <= worst
      invariant worst == 0 ==> at == -1
      invariant worst > 0 ==> exists k :: 0 <= k < i && rs[k].took == worst && rs[k].shard == at
                                          && forall j :: 0 <= j < k ==> rs[j].took < worst
    {
      if rs[i].took > worst {
        worst, at := rs[i].took, rs[i].shard;
      }
    }
  }
}
