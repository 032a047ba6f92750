/**
 The session manager as the object it is: two map fields updated in place.

 Every method runs as one atomic step (what the manager's mutex is for), and
 its postcondition ties the new maps to the specification function of module
 Sessions for that operation. Time and the ID generator's outcome are inputs.
 */
module Manager {
  import opened Wrappers
  import opened Sessions

  class SessionManager<V> {
    var sessions: map<SessionId, Session<V>>
    var sessionTimes: map<SessionId, Time>

    /** The two maps as one value. */
    function State(): Table<V>
      reads this
    {
      Table(sessions, sessionTimes)
    }

    /** The object invariant: both maps have the same key set. */
    ghost predicate Valid()
      reads this
    {
      Inv(State())
    }

    /** NewSessionManager: both maps empty (the cleaner goroutine is left out). */
    constructor ()
      ensures Valid()
      ensures State() == Empty()
    {
      sessions := map[];
      sessionTimes := map[];
    }

    /** CreateSession: `generated` is what the ID generator returned, `now` the clock. */
    method CreateSession(generated: Result<SessionId, string>, now: Time) returns (r: Result<SessionId, Error>)
      requires Valid()
      modifies this
      ensures Valid()
      ensures generated.Failure? ==> r == Failure(IdGenerationFailed(generated.error)) && State() == old(State())
      ensures generated.Success? ==> r == Success(generated.value) && State() == Created(old(State()), generated.value, now)
    {
      if generated.Failure? {
        return Failure(IdGenerationFailed(generated.error));
      }
      var id := generated.value;
      sessions := sessions[id := Session(map[])];
      sessionTimes := sessionTimes[id := now];
      return Success(id);
    }

    /** GetSessionData: the stored data of `id`, or SessionNotFound; changes nothing. */
    method GetSessionData(id: SessionId) returns (r: Result<map<string, V>, Error>)
      ensures id in sessions ==> r == Success(sessions[id].data)
      ensures id !in sessions ==> r == Failure(SessionNotFound)
      ensures r == Lookup(State(), id)
    {
      if id !in sessions {
        return Failure(SessionNotFound);
      }
      return Success(sessions[id].data);
    }

    /** UpdateSessionData: replaces the data of `id` wholesale and refreshes its time,
        or reports SessionNotFound and changes nothing. Check and write are one step. */
    method UpdateSessionData(id: SessionId, data: map<string, V>, now: Time) returns (err: Option<Error>)
      requires Valid()
      modifies this
      ensures Valid()
      ensures err == if id in old(sessions) then None else Some(SessionNotFound)
      ensures State() == Updated(old(State()), id, data, now)
    {
      if id !in sessions {
        return Some(SessionNotFound);
      }
      sessions := sessions[id := Session(data)];
      sessionTimes := sessionTimes[id := now];
      return None;
    }

    /** One tick of the cleaner: visits every ID of `sessionTimes` once and deletes
        from both maps each one whose age at `now` is at least Expiry. */
    method Sweep(now: Time)
      requires Valid()
      modifies this
      ensures Valid()
      ensures State() == Swept(old(State()), now)
    {
      ghost var before := State();
      var pending := sessionTimes.Keys;
      while pending != {}
        invariant pending <= before.times.Keys
        invariant forall id :: id in sessionTimes <==>
                    id in before.times && (id in pending || !Expired(before.times[id], now))
        invariant forall id :: id in sessionTimes ==> sessionTimes[id] == before.times[id]
        invariant forall id :: id in sessions <==>
                    id in before.sessions && (id in pending || !Expired(before.times[id], now))
        invariant forall id :: id in sessions ==> sessions[id] == before.sessions[id]
        decreases pending
      {
        var id :| id in pending;
        if now - sessionTimes[id] >= Expiry {
          sessionTimes := sessionTimes - {id};
          sessions := sessions - {id};
        }
        pending := pending - {id};
      }
      assert sessions == Swept(before, now).sessions;
      assert sessionTimes == Swept(before, now).times;
    }
  }

  /** The demo driver's sequence, with an ID generator that succeeds: create,
      update with a website, read it back. Beyond the driver, a cleaner tick
      8 seconds later, with no further update, removes the session. */
  method WebsiteScenario(id: SessionId, start: Time) returns (got: Result<map<string, string>, Error>, later: Result<map<string, string>, Error>)
    ensures got == Success(map["website" := "longhoang.de"])
    ensures later == Failure(SessionNotFound)
  {
    var m := new SessionManager<string>();
    var created := m.CreateSession(Success(id), start);
    var data := map["website" := "longhoang.de"];
    var err := m.UpdateSessionData(id, data, start);
    assert err == None;
    got := m.GetSessionData(id);
    m.Sweep(start + 8 * Second);
    later := m.GetSessionData(id);
  }
}
