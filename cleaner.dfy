/**
 The background cleaner over time: what a sequence of atomic operations,
 interleaved with cleaner ticks, does to a session.

 Each operation is taken as one critical section of the manager, the intended
 semantics under its mutex, so a concurrent run is some sequence of them. The
 update as written is not one critical section (its existence check comes
 before the lock); module UnlockedUpdate models that apart. The lemmas bound when a session that is no longer
 updated disappears: never before it is Expiry old, and by the first tick at
 or after that age, which a ticker of period Tick provides within Tick.
 */
module Cleaner {
  import opened Wrappers
  import opened Sessions

  /** One critical section of the manager, with the clock reading it uses. */
  datatype Op<V> =
    | CreateOp(generated: Result<SessionId, string>, now: Time)
    | GetOp(id: SessionId)
    | UpdateOp(id: SessionId, data: map<string, V>, now: Time)
    | SweepOp(now: Time)

  /** The effect of one operation on the table. */
  function Step<V>(t: Table<V>, op: Op<V>): Table<V>
  {
    match op
    case CreateOp(generated, now) => if generated.Success? then Created(t, generated.value, now) else t
    case GetOp(_) => t
    case UpdateOp(id, data, now) => Updated(t, id, data, now)
    case SweepOp(now) => Swept(t, now)
  }

  /** The table after running `ops` in order from `t`. */
  function Run<V>(t: Table<V>, ops: seq<Op<V>>): Table<V>
    decreases |ops|
  {
    if ops == [] then t else Run(Step(t, ops[0]), ops[1..])
  }

  /** `op` creates the session `id`: the generator returned `id`. */
  predicate Creates<V>(op: Op<V>, id: SessionId)
  {
    op.CreateOp? && op.generated == Success(id)
  }

  /** `op` creates or updates the session `id`, refreshing its timestamp. */
  predicate Touches<V>(op: Op<V>, id: SessionId)
  {
    Creates(op, id) || (op.UpdateOp? && op.id == id)
  }

  /** No operation of `ops` creates `id`; updates of `id` are allowed. */
  predicate NotCreated<V>(ops: seq<Op<V>>, id: SessionId)
  {
    forall i :: 0 <= i < |ops| ==> !Creates(ops[i], id)
  }

  /** No operation of `ops` creates or updates `id`. */
  predicate Untouched<V>(ops: seq<Op<V>>, id: SessionId)
  {
    forall i :: 0 <= i < |ops| ==> !Touches(ops[i], id)
  }

  /** Some cleaner tick of `ops` runs at a time in [lo, hi]. */
  predicate TickBetween<V>(ops: seq<Op<V>>, lo: Time, hi: Time)
  {
    exists i :: 0 <= i < |ops| && ops[i].SweepOp? && lo <= ops[i].now <= hi
  }

  /** Every cleaner tick of `ops` runs before `deadline`. */
  predicate TicksBefore<V>(ops: seq<Op<V>>, deadline: Time)
  {
    forall i :: 0 <= i < |ops| && ops[i].SweepOp? ==> ops[i].now < deadline
  }

  /** Some cleaner tick of `ops` runs at exactly `time`. */
  predicate TickAt<V>(ops: seq<Op<V>>, time: Time)
  {
    exists i :: 0 <= i < |ops| && ops[i].SweepOp? && ops[i].now == time
  }

  /** `ops` contains the ticks of a ticker started at `start`, up to and including tick `n`. */
  predicate TickerRan<V>(ops: seq<Op<V>>, start: Time, n: nat)
  {
    forall k: nat :: k <= n ==> TickAt(ops, start + k * Tick)
  }

  /** Every operation keeps the two maps' key sets equal. */
  lemma {:induction false} RunPreservesInv<V>(t: Table<V>, ops: seq<Op<V>>)
    requires Inv(t)
    ensures Inv(Run(t, ops))
    decreases |ops|
  {
    if ops != [] {
      RunPreservesInv(Step(t, ops[0]), ops[1..]);
    }
  }

  /** A session that is gone stays gone unless it is created again: in particular
      an update of it reports SessionNotFound and does not bring it back. */
  lemma {:induction false} StaysAbsent<V>(t: Table<V>, ops: seq<Op<V>>, id: SessionId)
    requires Inv(t) && id !in t.times
    requires NotCreated(ops, id)
    ensures id !in Run(t, ops).sessions && id !in Run(t, ops).times
    decreases |ops|
  {
    if ops != [] {
      assert !Creates(ops[0], id);
      StaysAbsent(Step(t, ops[0]), ops[1..], id);
    }
  }

  /** A session nobody touches is removed by the first tick at which it is Expiry old,
      and everything after that tick leaves it absent. */
  lemma {:induction false} ExpiredIsGone<V>(t: Table<V>, ops: seq<Op<V>>, id: SessionId, k: nat)
    requires Inv(t) && Untouched(ops, id)
    requires k < |ops| && ops[k].SweepOp?
    requires id in t.times ==> Expired(t.times[id], ops[k].now)
    ensures id !in Run(t, ops).sessions && id !in Run(t, ops).times
    decreases |ops|
  {
    assert !Touches(ops[0], id);
    var next := Step(t, ops[0]);
    assert id in next.times ==> id in t.times && next.times[id] == t.times[id];
    if k == 0 {
      assert NotCreated(ops[1..], id) by {
        forall i | 0 <= i < |ops[1..]| ensures !Creates(ops[1..][i], id) {
          assert ops[1..][i] == ops[i + 1];
        }
      }
      StaysAbsent(next, ops[1..], id);
    } else {
      assert ops[1..][k - 1] == ops[k];
      ExpiredIsGone(next, ops[1..], id, k - 1);
    }
  }

  /** A session nobody touches survives, with its data and time, every tick that runs
      before it is Expiry old: it is never removed early. */
  lemma {:induction false} SurvivesUntilExpiry<V>(t: Table<V>, ops: seq<Op<V>>, id: SessionId)
    requires Inv(t) && id in t.times
    requires Untouched(ops, id)
    requires TicksBefore(ops, t.times[id] + Expiry)
    ensures id in Run(t, ops).sessions && Run(t, ops).sessions[id] == t.sessions[id]
    ensures id in Run(t, ops).times && Run(t, ops).times[id] == t.times[id]
    decreases |ops|
  {
    if ops != [] {
      assert !Touches(ops[0], id);
      assert ops[0].SweepOp? ==> ops[0].now < t.times[id] + Expiry;
      var next := Step(t, ops[0]);
      assert id in next.times && next.times[id] == t.times[id];
      assert TicksBefore(ops[1..], t.times[id] + Expiry) by {
        forall i | 0 <= i < |ops[1..]| && ops[1..][i].SweepOp?
          ensures ops[1..][i].now < t.times[id] + Expiry
        {
          assert ops[1..][i] == ops[i + 1];
        }
      }
      SurvivesUntilExpiry(next, ops[1..], id);
    }
  }

  /** The eviction window: if some tick runs between Expiry and Expiry + Tick after the
      last update of an untouched session, the session is gone at the end. */
  lemma EvictedWithinWindow<V>(t: Table<V>, ops: seq<Op<V>>, id: SessionId)
    requires Inv(t) && id in t.times && Untouched(ops, id)
    requires TickBetween(ops, t.times[id] + Expiry, t.times[id] + Expiry + Tick)
    ensures id !in Run(t, ops).sessions && id !in Run(t, ops).times
  {
    var k :| 0 <= k < |ops| && ops[k].SweepOp? && t.times[id] + Expiry <= ops[k].now <= t.times[id] + Expiry + Tick;
    ExpiredIsGone(t, ops, id, k);
  }

  /** A ticker of period Tick started at `start` ticks inside every window [x, x + Tick]
      with start <= x. */
  lemma TickerHitsWindow(start: Time, x: Time) returns (k: nat)
    requires start <= x
    ensures x <= start + k * Tick <= x + Tick
  {
    k := (x - start + Tick - 1) / Tick;
    var q, r := (x - start + Tick - 1) / Tick, (x - start + Tick - 1) % Tick;
    assert x - start + Tick - 1 == q * Tick + r && 0 <= r < Tick;
  }

  /** The promise of the cleaner: with a ticker started at `start`, no later than the
      session's expiry, and run through tick `n`, past Expiry + Tick after the last
      update, an untouched session is gone: removal happens within Tick of Expiry. */
  lemma EvictedByTicker<V>(t: Table<V>, ops: seq<Op<V>>, id: SessionId, start: Time, n: nat)
    requires Inv(t) && id in t.times && Untouched(ops, id)
    requires start <= t.times[id] + Expiry
    requires TickerRan(ops, start, n) && start + n * Tick >= t.times[id] + Expiry + Tick
    ensures id !in Run(t, ops).sessions && id !in Run(t, ops).times
  {
    var x := t.times[id] + Expiry;
    var k := TickerHitsWindow(start, x);
    assert k <= n;
    assert TickAt(ops, start + k * Tick);
    assert TickBetween(ops, x, x + Tick);
    EvictedWithinWindow(t, ops, id);
  }
}
