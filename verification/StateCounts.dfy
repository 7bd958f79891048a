/** The scatter query behind the dashboard: orders per state on every shard, merged into one map. */
module StateCounts {
  import opened Sums
  import opened Orders
  import opened Scatter

  type Counts = map<string, int>

  function RowsIn(t: Table, state: string): set<int> {
    set id | id in t && t[id].state == state
  }

  /** SELECT state, count(*) .. GROUP BY state. */
  function GroupByState(t: Table): Counts {
    map state | state in (set id | id in t :: t[id].state) :: |RowsIn(t, state)|
  }

  function At(m: Counts, state: string): int {
    if state in m then m[state] else 0
  }

  function Total(rs: seq<ShardResult<Counts>>, state: string): int {
    if rs == [] then 0 else Total(rs[..|rs| - 1], state) + At(rs[|rs| - 1].value, state)
  }

  ghost function AddFirst(m: Counts, value: Counts, states: seq<string>, n: nat): Counts
    requires n <= |states| && forall i :: 0 <= i < |states| ==> states[i] in value
  {
    if n == 0 then m
    else
      var r := AddFirst(m, value, states, n - 1);
      r[states[n - 1] := At(r, states[n - 1]) + value[states[n - 1]]]
  }

  lemma {:induction false} AddFirstAt(m: Counts, value: Counts, states: seq<string>, n: nat, state: string)
    requires n <= |states| && forall i :: 0 <= i < |states| ==> states[i] in value
    requires forall i, j :: 0 <= i < j < |states| ==> states[i] != states[j]
    ensures At(AddFirst(m, value, states, n), state) == At(m, state) + if state in states[..n] then value[state] else 0
    ensures state in AddFirst(m, value, states, n) <==> state in m || state in states[..n]
    decreases n
  {
    if n > 0 {
      AddFirstAt(m, value, states, n - 1, state);
      assert states[..n] == states[..n - 1] + [states[n - 1]];
    }
  }

  /** `merged[st] += n` for every state of one shard's map, in arbitrary order. */
  method AddCounts(m: Counts, value: Counts) returns (r: Counts)
    ensures forall state :: At(r, state) == At(m, state) + At(value, state)
    ensures forall state :: state in r <==> state in m || state in value
  {
    r := m;
    var states := ListKeys(value);
    assert forall i :: 0 <= i < |states| ==> states[i] in states;
    for i := 0 to |states|
      invariant r == AddFirst(m, value, states, i)
    {
      r := r[states[i] := At(r, states[i]) + value[states[i]]];
    }
    assert states[..|states|] == states;
    forall state
      ensures At(r, state) == At(m, state) + At(value, state)
      ensures state in r <==> state in m || state in value
    {
      AddFirstAt(m, value, states, |states|, state);
    }
  }

  /** Every value is added, also that of a shard whose rows ended in an error part way. */
  method MergeCounts(rs: seq<ShardResult<Counts>>) returns (merged: Counts)
    ensures forall state :: At(merged, state) == Total(rs, state)
    ensures forall state :: state in merged <==> exists i :: 0 <= i < |rs| && state in rs[i].value
  {
    merged := map[];
    for i := 0 to |rs|
      invariant forall state :: At(merged, state) == Total(rs[..i], state)
      invariant forall state :: state in merged <==> exists j :: 0 <= j < i && state in rs[j].value
    {
      assert rs[..i + 1][..i] == rs[..i];
      merged := AddCounts(merged, rs[i].value);
    }
    assert rs[..|rs|] == rs;
  }

  lemma GroupCounts(t: Table, state: string)
    ensures At(GroupByState(t), state) == |RowsIn(t, state)|
  {
    if state !in GroupByState(t) {
      forall id | id in t
        ensures t[id].state != state
      {
        assert t[id].state in (set i | i in t :: t[i].state);
      }
      assert RowsIn(t, state) == {};
    }
  }

  /** Those of the first n shards whose query ended without an error. */
  ghost function Answering(q: Request<Counts>, n: nat): set<int>
    requires n <= |q.shards|
  {
    set i | 0 <= i < n && q.shards[i] in q.pools && !q.answer(q.shards[i]).failed :: q.shards[i]
  }

  /** Those whose query failed, perhaps after delivering some groups. */
  ghost function Failing(q: Request<Counts>, n: nat): set<int>
    requires n <= |q.shards|
  {
    set i | 0 <= i < n && q.shards[i] in q.pools && q.answer(q.shards[i]).failed :: q.shards[i]
  }

  /** Some of the groups of a table: what a row stream delivers before an error ends it. */
  ghost predicate Delivered(value: Counts, t: Table) {
    forall state :: state in value ==> state in GroupByState(t) && value[state] == GroupByState(t)[state]
  }

  /** A query that succeeds delivers every group; one that fails may have delivered any of them. */
  ghost predicate CountingRequest(q: Request<Counts>, tables: Tables) {
    && Valid(q) && q.zero == map[]
    && (forall s :: s in q.pools ==> s in tables)
    && (forall s :: s in q.pools && !q.answer(s).failed ==> q.answer(s).value == GroupByState(tables[s]))
    && (forall s :: s in q.pools && q.answer(s).failed ==> Delivered(q.answer(s).value, tables[s]))
  }

  ghost function StateRows(tables: Tables, state: string): int -> int {
    s => if s in tables then |RowsIn(tables[s], state)| else 0
  }

  ghost function GroupOf(q: Request<Counts>, state: string): int -> int {
    s => At(q.answer(s).value, state)
  }

  // The merged count of a state, whatever the schedule: its rows on the shards that answered, plus the
  // groups of it that failing shards delivered before their error.
  lemma {:induction false} CountsAreRows(q: Request<Counts>, tables: Tables, rs: seq<ShardResult<Counts>>, n: nat, state: string)
    requires CountingRequest(q, tables) && Sequential(q, rs) && n <= |rs|
    ensures Total(rs[..n], state) == Sum(Answering(q, n), StateRows(tables, state)) + Sum(Failing(q, n), GroupOf(q, state))
    decreases n
  {
    if n > 0 {
      CountsAreRows(q, tables, rs, n - 1, state);
      assert rs[..n][..n - 1] == rs[..n - 1];
      assert rs[n - 1] == ResultOf(q, q.shards[n - 1], rs[n - 1].took);
      OneMoreShard(q, tables, n, state);
    }
  }

  lemma OneMoreShard(q: Request<Counts>, tables: Tables, n: nat, state: string)
    requires CountingRequest(q, tables) && 0 < n <= |q.shards|
    ensures Sum(Answering(q, n), StateRows(tables, state)) + Sum(Failing(q, n), GroupOf(q, state)) ==
            Sum(Answering(q, n - 1), StateRows(tables, state)) + Sum(Failing(q, n - 1), GroupOf(q, state))
            + At(ResultOf(q, q.shards[n - 1], 0).value, state)
  {
    var shard := q.shards[n - 1];
    assert shard !in Answering(q, n - 1) && shard !in Failing(q, n - 1);
    if shard in q.pools && !q.answer(shard).failed {
      GroupCounts(tables[shard], state);
      assert Answering(q, n) == Answering(q, n - 1) + {shard};
      assert Failing(q, n) == Failing(q, n - 1);
      SumAdd(Answering(q, n - 1), StateRows(tables, state), shard);
    } else if shard in q.pools {
      assert Answering(q, n) == Answering(q, n - 1);
      assert Failing(q, n) == Failing(q, n - 1) + {shard};
      SumAdd(Failing(q, n - 1), GroupOf(q, state), shard);
    } else {
      assert Answering(q, n) == Answering(q, n - 1);
      assert Failing(q, n) == Failing(q, n - 1);
    }
  }

  lemma DeliveredGroup(value: Counts, t: Table, state: string)
    requires Delivered(value, t)
    ensures 0 <= At(value, state) <= |RowsIn(t, state)|
    ensures At(value, state) > 0 <==> state in value
  {
    GroupCounts(t, state);
    if state in value {
      var id :| id in t && t[id].state == state;
      assert id in RowsIn(t, state);
    }
  }

  // It counts the rows of the answering shards and no others exactly when no failing shard delivered that
  // state's group before it failed.
  lemma PartialGroupsIff(q: Request<Counts>, tables: Tables, rs: seq<ShardResult<Counts>>, state: string)
    requires CountingRequest(q, tables) && Sequential(q, rs)
    ensures Total(rs, state) == Sum(Answering(q, |q.shards|), StateRows(tables, state)) <==>
            forall s :: s in Failing(q, |q.shards|) ==> state !in q.answer(s).value
  {
    var failing, f := Failing(q, |q.shards|), GroupOf(q, state);
    CountsAreRows(q, tables, rs, |rs|, state);
    assert rs[..|rs|] == rs;
    forall s | s in failing
      ensures f(s) >= 0 && (f(s) > 0 <==> state in q.answer(s).value)
    {
      DeliveredGroup(q.answer(s).value, tables[s], state);
    }
    SumNonNegative(failing, f);
    if forall s :: s in failing ==> state !in q.answer(s).value {
      SumZero(failing, f);
    }
  }
}
