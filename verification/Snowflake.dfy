/**
 Snowflake ids: 41 bits of milliseconds since the id epoch, 10 bits of shard, 12 bits of sequence.

 The clock is a sequence of readings chosen by the environment, in milliseconds since the epoch; it
 may stand still, jump or run backwards.
 */
module Snowflake {
  import opened Common
  import opened Bits

  const MAX_SHARD_ID := 1023
  const MAX_SEQ := 4095
  /** Milliseconds that fit the 41-bit field of a positive int64. */
  const MAX_MS := 0x1ff_ffff_ffff

  /** `lastMs` and `seq` of a generator. */
  datatype State = State(lastMs: int, seqNo: int)

  /** `ms<<timeShift | shard<<shardShift | seq`, for operands that do not overflow an int64. */
  function Pack(ms: nat, shard: nat, seqNo: nat): nat {
    Or(Or(ms * 0x40_0000, shard * 4096), seqNo)
  }

  datatype Decoded = Decoded(ms: int, shard: int, seqNo: int)

  /** Arithmetic shifts and masks are flooring division and remainder, also for negative ids. */
  function DecodeID(id: int): Decoded {
    Decoded(id / 0x40_0000, id / 4096 % 1024, id % 4096)
  }

  /** The spin loop: the first reading after lastMs, or None while the clock has not passed it. */
  function FirstAfter(readings: seq<int>, lastMs: int): (r: Option<int>)
    ensures r.Some? ==> r.value > lastMs && r.value in readings
    ensures r.None? <==> forall k :: 0 <= k < |readings| ==> readings[k] <= lastMs
    decreases |readings|
  {
    if readings == [] then None
    else if readings[0] > lastMs then Some(readings[0])
    else FirstAfter(readings[1..], lastMs)
  }

  lemma {:induction false} FirstAfterIsFirst(readings: seq<int>, lastMs: int)
    requires FirstAfter(readings, lastMs).Some?
    ensures exists k :: 0 <= k < |readings| && readings[k] == FirstAfter(readings, lastMs).value
                        && forall j :: 0 <= j < k ==> readings[j] <= lastMs
    decreases |readings|
  {
    if readings[0] <= lastMs {
      FirstAfterIsFirst(readings[1..], lastMs);
      var k :| 0 <= k < |readings| - 1 && readings[1..][k] == FirstAfter(readings[1..], lastMs).value
               && forall j :: 0 <= j < k ==> readings[1..][j] <= lastMs;
      assert forall j :: 0 < j < k + 1 ==> readings[j] == readings[1..][j - 1];
      assert readings[k + 1] == readings[1..][k];
    }
  }

  predicate ValidState(s: State) {
    s.lastMs >= 0 && s.seqNo >= 0
  }

  /** The state after a call whose clock shows `now` first and then `later`; None while it still spins. */
  function Advance(s: State, now: int, later: seq<int>): (r: Option<State>)
    requires ValidState(s)
    ensures r.Some? ==> ValidState(r.value)
  {
    if now == s.lastMs then
      if s.seqNo + 1 > MAX_SEQ then
        match FirstAfter(later, s.lastMs)
        case Some(ms) => Some(State(ms, 0))
        case None => None
      else Some(State(s.lastMs, s.seqNo + 1))
    else if now > s.lastMs then Some(State(now, 0))
    else Some(State(s.lastMs, s.seqNo + 1))
  }

  /** Reads the clock until it has moved on. */
  method Spin(readings: seq<int>, lastMs: int) returns (ms: Option<int>)
    ensures ms == FirstAfter(readings, lastMs)
  {
    for k := 0 to |readings|
      invariant FirstAfter(readings, lastMs) == FirstAfter(readings[k..], lastMs)
    {
      if readings[k] > lastMs {
        return Some(readings[k]);
      }
      assert readings[k..][1..] == readings[k + 1..];
    }
    ms := None;
  }

  class IDGen {
    const shard: int
    var lastMs: int
    var seqNo: int

    ghost predicate Valid()
      reads this
    {
      0 <= shard <= MAX_SHARD_ID && ValidState(View())
    }

    function View(): State
      reads this
    {
      State(lastMs, seqNo)
    }

    constructor (shard: int)
      requires 0 <= shard <= MAX_SHARD_ID
      ensures Valid() && this.shard == shard && View() == State(0, 0)
    {
      this.shard := shard;
      lastMs, seqNo := 0, 0;
    }

    /** None is a call that is still waiting for the clock when the readings run out. */
    method Next(now: int, later: seq<int>) returns (id: Option<int>)
      requires Valid()
      modifies this
      ensures Valid()
      ensures id.None? <==> Advance(old(View()), now, later).None?
      ensures id.Some? ==> Some(View()) == Advance(old(View()), now, later)
      ensures id.Some? ==> id.value == Pack(lastMs, shard, seqNo)
      // The same in plain numbers: a new millisecond starts at sequence 0, the ids of one millisecond are
      // numbered up to 4095 without waiting, and the next one waits for the first later reading.
      ensures now > old(lastMs) ==> id.Some? && lastMs == now && seqNo == 0
      ensures now == old(lastMs) && old(seqNo) < 4095 ==> id.Some? && lastMs == now && seqNo == old(seqNo) + 1
      ensures now == old(lastMs) && old(seqNo) >= 4095 ==>
                (id.Some? <==> exists k :: 0 <= k < |later| && later[k] > now)
      ensures now == old(lastMs) && old(seqNo) >= 4095 && id.Some? ==>
                seqNo == 0 && exists k :: 0 <= k < |later| && later[k] > now && lastMs == later[k]
                                          && forall j :: 0 <= j < k ==> later[j] <= now
      ensures now < old(lastMs) ==> id.Some? && lastMs == old(lastMs) && seqNo == old(seqNo) + 1
      ensures id.Some? && seqNo <= 4095 ==> id.value == lastMs * 4194304 + shard * 4096 + seqNo
    {
      var ms := now;
      if ms == lastMs {
        seqNo := seqNo + 1;
        if seqNo > MAX_SEQ {
          var spun := Spin(later, lastMs);
          if spun.None? {
            return None;
          }
          FirstAfterIsFirst(later, lastMs);
          ms, seqNo := spun.value, 0;
        }
      } else if ms > lastMs {
        seqNo := 0;
      } else {
        ms := lastMs;
        seqNo := seqNo + 1;
      }
      lastMs := ms;
      if seqNo <= MAX_SEQ {
        PackFits(ms, shard, seqNo);
      }
      return Some(Pack(ms, shard, seqNo));
    }
  }

  /** `NewIDGen`'s range check. */
  method NewIDGen(shard: int) returns (g: IDGen?)
    ensures g == null <==> shard < 0 || shard > 1023
    ensures g != null ==> fresh(g) && g.Valid() && g.shard == shard && g.View() == State(0, 0)
  {
    if shard < 0 || shard > MAX_SHARD_ID {
      return null;
    }
    g := new IDGen(shard);
  }

  // ---- one id ----

  lemma MsAndShard(ms: nat, shard: nat)
    requires shard <= MAX_SHARD_ID
    ensures Or(ms * 0x40_0000, shard * 4096) == (ms * 1024 + shard) * 4096
  {
    Pow2Values();
    OrDisjoint(ms, shard * 4096, 22);
  }

  // A sequence number within its 12 bits leaves the three fields side by side.
  lemma PackFits(ms: nat, shard: nat, seqNo: nat)
    requires shard <= MAX_SHARD_ID && seqNo <= MAX_SEQ
    ensures Pack(ms, shard, seqNo) == ms * 0x40_0000 + shard * 4096 + seqNo
  {
    MsAndShard(ms, shard);
    Pow2Values();
    OrDisjoint(ms * 1024 + shard, seqNo, 12);
  }

  lemma DecodeInvertsPack(ms: nat, shard: nat, seqNo: nat)
    requires shard <= MAX_SHARD_ID && seqNo <= MAX_SEQ
    ensures DecodeID(Pack(ms, shard, seqNo)) == Decoded(ms, shard, seqNo)
    ensures ms <= MAX_MS ==> Pack(ms, shard, seqNo) <= 0x7fff_ffff_ffff_ffff
  {
    PackFits(ms, shard, seqNo);
    FieldsOf(ms, shard, seqNo);
  }

  lemma FieldsOf(ms: nat, shard: nat, seqNo: nat)
    requires shard <= MAX_SHARD_ID && seqNo <= MAX_SEQ
    ensures var id := ms * 0x40_0000 + shard * 4096 + seqNo;
            id / 0x40_0000 == ms && id / 4096 % 1024 == shard && id % 4096 == seqNo
  {
    var id := ms * 0x40_0000 + shard * 4096 + seqNo;
    var high := ms * 1024 + shard;
    assert id == high * 4096 + seqNo;
    assert id / 4096 == high && id % 4096 == seqNo;
    assert high % 1024 == shard;
  }

  lemma OrIntoFields(fields: nat, x: nat, seqNo: nat)
    requires x == fields * 4096 && seqNo == MAX_SEQ + 1
    ensures Or(x, seqNo) == if fields % 2 == 1 then x else x + 4096
  {
    Pow2Values();
    OrScaled(fields, 1, 12, x, seqNo);
    OrOne(fields);
  }

  lemma PackOverflowValue(ms: nat, shard: nat, seqNo: nat)
    requires shard <= MAX_SHARD_ID && seqNo == MAX_SEQ + 1
    ensures Pack(ms, shard, seqNo) == ms * 0x40_0000 + (if shard % 2 == 1 then shard else shard + 1) * 4096
  {
    MsAndShard(ms, shard);
    OrIntoFields(ms * 1024 + shard, Or(ms * 0x40_0000, shard * 4096), seqNo);
  }

  // A sequence number of 4096 is or-ed into the lowest shard bit.
  lemma PackOverflow(ms: nat, shard: nat, seqNo: nat)
    requires shard <= MAX_SHARD_ID && seqNo == MAX_SEQ + 1
    ensures Pack(ms, shard, seqNo) == Pack(ms, if shard % 2 == 1 then shard else shard + 1, 0)
    ensures DecodeID(Pack(ms, shard, seqNo)).seqNo == 0
  {
    PackOverflowValue(ms, shard, seqNo);
    OverflowSame(ms, if shard % 2 == 1 then shard else shard + 1, 0, Pack(ms, shard, seqNo));
  }

  lemma OverflowSame(ms: nat, next: nat, zero: nat, id: nat)
    requires next <= MAX_SHARD_ID && zero == 0 && id == ms * 0x40_0000 + next * 4096
    ensures id == Pack(ms, next, zero) && id % 4096 == 0
  {
    PackFits(ms, next, zero);
    FieldsOf(ms, next, zero);
  }

  /** The backwards branch has no sequence ceiling: the calls that leave the sequence above it. */
  predicate Overflows(s: State, now: int) {
    now < s.lastMs && s.seqNo >= MAX_SEQ
  }

  // From any state, a call's id decodes to exactly what the generator recorded if and only if it is
  // not a backwards call with the sequence at its ceiling or past it.
  lemma DecodesIffNoOverflow(s: State, now: int, later: seq<int>, shard: nat)
    requires ValidState(s) && shard <= MAX_SHARD_ID && Advance(s, now, later).Some?
    ensures var s' := Advance(s, now, later).value;
            DecodeID(Pack(s'.lastMs, shard, s'.seqNo)) == Decoded(s'.lastMs, shard, s'.seqNo) <==> !Overflows(s, now)
  {
    var s' := Advance(s, now, later).value;
    if Overflows(s, now) {
      assert DecodeID(Pack(s'.lastMs, shard, s'.seqNo)).seqNo <= MAX_SEQ < s'.seqNo;
    } else {
      DecodeInvertsPack(s'.lastMs, shard, s'.seqNo);
    }
  }

  // ---- whole runs ----

  /** What the clock shows during one call. */
  datatype Call = Call(now: int, later: seq<int>)

  /** states[i] is the generator before call i; no call is left spinning. */
  ghost predicate Run(states: seq<State>, calls: seq<Call>) {
    && |states| == |calls| + 1
    && (forall i :: 0 <= i < |states| ==> ValidState(states[i]))
    && forall i :: 0 <= i < |calls| ==> Advance(states[i], calls[i].now, calls[i].later) == Some(states[i + 1])
  }

  ghost predicate NoOverflow(states: seq<State>, calls: seq<Call>)
    requires |states| == |calls| + 1
  {
    forall i :: 0 <= i < |calls| ==> !Overflows(states[i], calls[i].now)
  }

  function IdOf(shard: nat, s: State): nat
    requires ValidState(s)
  {
    Pack(s.lastMs, shard, s.seqNo)
  }

  ghost predicate Before(a: State, b: State) {
    a.lastMs < b.lastMs || (a.lastMs == b.lastMs && a.seqNo < b.seqNo)
  }

  lemma {:induction false} SeqStaysInField(states: seq<State>, calls: seq<Call>, i: nat)
    requires Run(states, calls) && NoOverflow(states, calls) && states[0].seqNo <= MAX_SEQ && i < |states|
    ensures states[i].seqNo <= MAX_SEQ
    decreases i
  {
    if i > 0 {
      SeqStaysInField(states, calls, i - 1);
    }
  }

  lemma {:induction false} StatesAscend(states: seq<State>, calls: seq<Call>, i: nat, j: nat)
    requires Run(states, calls) && i < j < |states|
    ensures Before(states[i], states[j])
    decreases j
  {
    assert Advance(states[j - 1], calls[j - 1].now, calls[j - 1].later) == Some(states[j]);
    if i < j - 1 {
      StatesAscend(states, calls, i, j - 1);
    }
  }

  // Over any clock trace without an overflowing call: ids strictly increase, decode exactly, and
  // fit a positive int64 while the milliseconds fit 41 bits.
  lemma IdsIncreaseAndDecode(states: seq<State>, calls: seq<Call>, shard: nat, i: nat, j: nat)
    requires Run(states, calls) && NoOverflow(states, calls) && states[0] == State(0, 0)
    requires shard <= MAX_SHARD_ID && 0 < i < j < |states|
    ensures IdOf(shard, states[i]) < IdOf(shard, states[j])
    ensures DecodeID(IdOf(shard, states[i])) == Decoded(states[i].lastMs, shard, states[i].seqNo)
    ensures states[i].lastMs <= MAX_MS ==> IdOf(shard, states[i]) <= 0x7fff_ffff_ffff_ffff
  {
    SeqStaysInField(states, calls, i);
    SeqStaysInField(states, calls, j);
    StatesAscend(states, calls, i, j);
    PackFits(states[i].lastMs, shard, states[i].seqNo);
    PackFits(states[j].lastMs, shard, states[j].seqNo);
    DecodeInvertsPack(states[i].lastMs, shard, states[i].seqNo);
  }

  // Two ids that decode to one millisecond are fewer than 4096 calls apart, so no millisecond
  // carries more than 4096 ids.
  lemma {:induction false} AtMost4096PerMillisecond(states: seq<State>, calls: seq<Call>, i: nat, j: nat)
    requires Run(states, calls) && NoOverflow(states, calls) && states[0] == State(0, 0)
    requires 0 < i <= j < |states| && states[i].lastMs == states[j].lastMs
    ensures states[j].seqNo == states[i].seqNo + (j - i)
    ensures j - i < 4096
    decreases j
  {
    SeqStaysInField(states, calls, j);
    if i < j {
      assert Advance(states[j - 1], calls[j - 1].now, calls[j - 1].later) == Some(states[j]);
      if i < j - 1 {
        StatesAscend(states, calls, i, j - 1);
        StatesAscend(states, calls, j - 1, j);
      }
      AtMost4096PerMillisecond(states, calls, i, j - 1);
    }
  }

  // Generators of different shards never issue the same id, whatever their clocks do.
  lemma ShardsNeverCollide(states: seq<State>, calls: seq<Call>, shard: nat, i: nat,
                           states': seq<State>, calls': seq<Call>, shard': nat, j: nat)
    requires Run(states, calls) && NoOverflow(states, calls) && states[0] == State(0, 0)
    requires Run(states', calls') && NoOverflow(states', calls') && states'[0] == State(0, 0)
    requires shard <= MAX_SHARD_ID && shard' <= MAX_SHARD_ID && shard != shard'
    requires 0 < i < |states| && 0 < j < |states'|
    ensures IdOf(shard, states[i]) != IdOf(shard', states'[j])
  {
    SeqStaysInField(states, calls, i);
    SeqStaysInField(states', calls', j);
    DecodeInvertsPack(states[i].lastMs, shard, states[i].seqNo);
    DecodeInvertsPack(states'[j].lastMs, shard', states'[j].seqNo);
  }

  // ---- the bound is tight ----

  // While the clock stays behind, every call adds one to the sequence.
  lemma {:induction false} PinnedRun(states: seq<State>, calls: seq<Call>, i: nat, n: nat)
    requires Run(states, calls) && i + n < |states|
    requires forall k :: i <= k < i + n ==> calls[k].now < states[i].lastMs
    ensures states[i + n] == State(states[i].lastMs, states[i].seqNo + n)
    decreases n
  {
    if n > 0 {
      PinnedRun(states, calls, i, n - 1);
      assert Advance(states[i + n - 1], calls[i + n - 1].now, calls[i + n - 1].later) == Some(states[i + n]);
    }
  }

  // A clock that falls behind a fresh millisecond for 4096 calls makes an odd shard repeat that
  // millisecond's first id, and makes an even shard issue the next shard's first id.
  lemma PinnedMillisecondRepeats(states: seq<State>, calls: seq<Call>, i: nat, shard: nat)
    requires Run(states, calls) && i + 4096 < |states| && states[i].seqNo == 0 && shard <= MAX_SHARD_ID
    requires forall k :: i <= k < i + 4096 ==> calls[k].now < states[i].lastMs
    ensures shard % 2 == 1 ==> IdOf(shard, states[i + 4096]) == IdOf(shard, states[i])
    ensures shard % 2 == 0 ==> IdOf(shard, states[i + 4096]) == IdOf(shard + 1, states[i])
  {
    PinnedRun(states, calls, i, 4096);
    PackOverflow(states[i].lastMs, shard, states[i + 4096].seqNo);
  }

  // ---- the exact condition for one generator of an odd shard ----

  /** No two of the ids issued are equal; states[0] issues none. */
  ghost predicate AllDistinct(states: seq<State>, shard: nat)
    requires forall i :: 0 <= i < |states| ==> ValidState(states[i])
  {
    forall i, j :: 0 < i < j < |states| ==> IdOf(shard, states[i]) != IdOf(shard, states[j])
  }

  // A sequence number is only ever reached by counting up from zero within its millisecond.
  lemma {:induction false} SeqCountedUp(states: seq<State>, calls: seq<Call>, i: nat, d: nat)
    requires Run(states, calls) && states[0] == State(0, 0) && i < |states| && d <= states[i].seqNo
    ensures d <= i && states[i - d] == State(states[i].lastMs, states[i].seqNo - d)
    decreases d
  {
    if d > 0 {
      SeqCountedUp(states, calls, i, d - 1);
      var k := i - d;
      assert states[k + 1].seqNo > 0;
      assert Advance(states[k], calls[k].now, calls[k].later) == Some(states[k + 1]);
    }
  }

  // An overflowing call means that both sequence 0 and sequence 4096 of its millisecond were issued.
  lemma OverflowRepeats(states: seq<State>, calls: seq<Call>, k: nat, shard: nat) returns (i: nat, j: nat)
    requires Run(states, calls) && states[0] == State(0, 0) && k < |calls| && calls[0].now > 0
    requires Overflows(states[k], calls[k].now) && shard <= MAX_SHARD_ID && shard % 2 == 1
    ensures 0 < i < j < |states| && IdOf(shard, states[i]) == IdOf(shard, states[j])
  {
    var last := states[k + 1];
    assert Advance(states[k], calls[k].now, calls[k].later) == Some(last);
    assert Advance(states[0], calls[0].now, calls[0].later) == Some(states[1]);
    SeqCountedUp(states, calls, k + 1, last.seqNo);
    SeqCountedUp(states, calls, k + 1, last.seqNo - 1);
    SeqCountedUp(states, calls, k + 1, last.seqNo - 4096);
    i, j := k + 1 - last.seqNo, k + 1 - (last.seqNo - 4096);
    PackOverflow(last.lastMs, shard, 4096);
  }

  // Once the first reading is past the epoch, a generator of an odd shard issues distinct ids if and
  // only if none of its calls overflows.
  lemma DistinctIffNoOverflow(states: seq<State>, calls: seq<Call>, shard: nat)
    requires Run(states, calls) && states[0] == State(0, 0) && (calls != [] ==> calls[0].now > 0)
    requires shard <= MAX_SHARD_ID && shard % 2 == 1
    ensures AllDistinct(states, shard) <==> NoOverflow(states, calls)
  {
    if NoOverflow(states, calls) {
      forall i, j | 0 < i < j < |states|
        ensures IdOf(shard, states[i]) != IdOf(shard, states[j])
      {
        IdsIncreaseAndDecode(states, calls, shard, i, j);
      }
    } else {
      var k :| 0 <= k < |calls| && Overflows(states[k], calls[k].now);
      var i, j := OverflowRepeats(states, calls, k, shard);
    }
  }
}
