/**
 UpdateSessionData as written runs in two steps: it checks that the ID exists
 without holding the lock, and only then takes the lock and writes both maps
 unconditionally. A cleaner tick can run between the two steps. This module
 models the two steps apart and shows the interleaving that brings an evicted
 session back; the manager itself uses the one-step Sessions.Updated.
 */
module UnlockedUpdate {
  import opened Wrappers
  import opened Sessions

  /** The existence check made before the lock is taken. */
  predicate UnlockedCheck<V>(t: Table<V>, id: SessionId)
  {
    id in t.sessions
  }

  /** The locked write, which no longer looks at whether `id` is present. */
  function LockedWrite<V>(t: Table<V>, id: SessionId, data: map<string, V>, now: Time): (r: Table<V>)
    ensures id in r.sessions && r.sessions[id].data == data && id in r.times && r.times[id] == now
    ensures Inv(t) ==> Inv(r)
  {
    Table(t.sessions[id := Session(data)], t.times[id := now])
  }

  /** Check, then a tick that evicts `id`, then the write: the update succeeds and
      the evicted session is back, while the one-step update leaves it evicted. */
  lemma TickBetweenCheckAndWriteResurrects<V>(t: Table<V>, id: SessionId, data: map<string, V>, tick: Time, now: Time)
    requires Inv(t) && id in t.times && Expired(t.times[id], tick)
    ensures UnlockedCheck(t, id)
    ensures id !in Swept(t, tick).sessions
    ensures id in LockedWrite(Swept(t, tick), id, data, now).sessions
    ensures id !in Updated(Swept(t, tick), id, data, now).sessions
  {
  }

  /** A concrete run: a session last updated at time 0 is checked, evicted by the tick
      at 5 seconds, and then written at 5 seconds, so it is present again. */
  lemma ResurrectionExample()
    ensures var t := Table(map["s" := Session(map[])], map["s" := 0]);
            var evicted := Swept(t, 5 * Second);
            && UnlockedCheck(t, "s")
            && "s" !in evicted.sessions
            && Lookup(LockedWrite(evicted, "s", map["k" := 1], 5 * Second), "s") == Success(map["k" := 1])
            && Lookup(Updated(evicted, "s", map["k" := 1], 5 * Second), "s") == Failure(SessionNotFound)
  {
  }
}
