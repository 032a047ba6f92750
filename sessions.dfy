/**
 The session table of the session cleaner, as a value.

 `Table` holds the two maps of `SessionManager`: `sessions` (ID to session data)
 and `times` (ID to the time of the last create or update). The functions below
 say what each operation of the manager does to the table when it runs as one
 atomic step; the class in module Manager is proved against them.
 */
module Sessions {
  import opened Wrappers

  /** Session IDs are opaque strings produced by the ID generator. */
  type SessionId = string

  /** A point in time, in nanoseconds. */
  type Time = int

  /** One second, in nanoseconds. */
  const Second: int := 1_000_000_000

  /** Age at which the cleaner removes a session: 5 seconds. */
  const Expiry: int := 5 * Second

  /** Period of the cleaner's ticker: 1 second. */
  const Tick: int := Second

  /** The errors the manager reports. */
  datatype Error =
    | SessionNotFound                   // ErrSessionNotFound
    | IdGenerationFailed(cause: string) // the error returned by the ID generator

  /** The data of one session: a wholesale-replaced map from field names to values. */
  datatype Session<V> = Session(data: map<string, V>)

  /** The manager's two maps. */
  datatype Table<V> = Table(sessions: map<SessionId, Session<V>>, times: map<SessionId, Time>)

  /** The invariant of the manager: both maps have the same key set. */
  predicate Inv<V>(t: Table<V>)
  {
    t.sessions.Keys == t.times.Keys
  }

  /** The cleaner's test: a session last updated at `last` is expired at `now`. */
  predicate Expired(last: Time, now: Time)
  {
    now - last >= Expiry
  }

  /** The IDs whose timestamp is expired at `now`. */
  function ExpiredIds(times: map<SessionId, Time>, now: Time): set<SessionId>
  {
    set id | id in times && Expired(times[id], now)
  }

  /** The manager right after construction. */
  function Empty<V>(): (r: Table<V>)
    ensures Inv(r)
    ensures forall id :: id !in r.sessions && id !in r.times
  {
    Table(map[], map[])
  }

  /** The table after CreateSession has obtained `id` from the generator at time `now`. */
  function Created<V>(t: Table<V>, id: SessionId, now: Time): (r: Table<V>)
    ensures id in r.sessions && r.sessions[id].data == map[]
    ensures id in r.times && r.times[id] == now
    ensures r.sessions.Keys == t.sessions.Keys + {id} && r.times.Keys == t.times.Keys + {id}
    ensures forall other :: other != id && other in t.sessions ==> r.sessions[other] == t.sessions[other]
    ensures forall other :: other != id && other in t.times ==> r.times[other] == t.times[other]
    ensures Inv(t) ==> Inv(r)
  {
    Table(t.sessions[id := Session(map[])], t.times[id := now])
  }

  /** What GetSessionData reports for `id`. */
  function Lookup<V>(t: Table<V>, id: SessionId): Result<map<string, V>, Error>
  {
    if id in t.sessions then Success(t.sessions[id].data) else Failure(SessionNotFound)
  }

  /** The table after UpdateSessionData(id, data) at time `now`. */
  function Updated<V>(t: Table<V>, id: SessionId, data: map<string, V>, now: Time): (r: Table<V>)
    ensures id in t.sessions ==> id in r.sessions && r.sessions[id].data == data
    ensures id in t.sessions ==> id in r.times && r.times[id] == now
    ensures id !in t.sessions ==> r == t
    ensures r.sessions.Keys == t.sessions.Keys
    ensures forall other :: other != id && other in t.sessions ==> r.sessions[other] == t.sessions[other]
    ensures forall other :: other != id && other in t.times ==> other in r.times && r.times[other] == t.times[other]
    ensures Inv(t) ==> Inv(r) && r.times.Keys == t.times.Keys
  {
    if id in t.sessions then Table(t.sessions[id := Session(data)], t.times[id := now]) else t
  }

  /** The table after one pass of the cleaner at time `now`. */
  function Swept<V>(t: Table<V>, now: Time): (r: Table<V>)
    ensures forall id :: id in r.times <==> id in t.times && !Expired(t.times[id], now)
    ensures forall id :: id in r.times ==> r.times[id] == t.times[id]
    ensures forall id :: id in r.sessions <==> id in t.sessions && !(id in t.times && Expired(t.times[id], now))
    ensures forall id :: id in r.sessions ==> r.sessions[id] == t.sessions[id]
    ensures forall id :: id in r.times ==> !Expired(r.times[id], now)
    ensures Inv(t) ==> Inv(r)
  {
    var gone := ExpiredIds(t.times, now);
    Table(t.sessions - gone, t.times - gone)
  }

  /** Reading after a create gives the empty data the create stored. */
  lemma LookupAfterCreate<V>(t: Table<V>, id: SessionId, now: Time)
    ensures Lookup(Created(t, id, now), id) == Success(map[])
  {
  }

  /** Reading after an update of a present session gives exactly the new data. */
  lemma LookupAfterUpdate<V>(t: Table<V>, id: SessionId, data: map<string, V>, now: Time)
    requires id in t.sessions
    ensures Lookup(Updated(t, id, data, now), id) == Success(data)
  {
  }

  /** Updating an absent session reports nothing new: the ID stays absent. */
  lemma UpdateAbsentKeepsAbsent<V>(t: Table<V>, id: SessionId, data: map<string, V>, now: Time)
    requires Inv(t) && id !in t.sessions
    ensures Lookup(Updated(t, id, data, now), id) == Failure(SessionNotFound)
    ensures id !in Updated(t, id, data, now).times
  {
  }

  /** A second pass at the same time removes nothing more. */
  lemma SweepIdempotent<V>(t: Table<V>, now: Time)
    ensures Swept(Swept(t, now), now) == Swept(t, now)
  {
  }

  /** A pass at an earlier time removes nothing that a later pass would keep:
      sweeping at `early` and then at `late` is the same as sweeping at `late`. */
  lemma SweepsCompose<V>(t: Table<V>, early: Time, late: Time)
    requires early <= late
    ensures Swept(Swept(t, early), late) == Swept(t, late)
  {
  }
}
