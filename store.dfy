/** The `async_session::MemoryStore` the handlers write to, seen as a map
    from cookie value to session. How a cookie value is turned into a
    session id, and session expiry, are not modelled. */
module Store {
  import opened Wrappers
  import Http

  /** A session's data: key (always "session" here) to stored value. */
  type Session<D> = map<string, D>

  class MemoryStore<D> {
    var sessions: map<string, Session<D>>

    /** Every cookie value handed out can be sent back in a header. */
    ghost predicate Valid()
      reads this
    {
      forall cookie :: cookie in sessions ==> Http.ValidHeaderValue(cookie)
    }

    constructor ()
      ensures Valid() && sessions == map[]
    {
      sessions := map[];
    }

    /** `load_session(cookie)` with its error and its `None` merged, as every
        caller does with `.ok().flatten()`. */
    function LoadSession(cookie: string): (r: Option<Session<D>>)
      reads this
      ensures r.Some? <==> cookie in sessions
      ensures r.Some? ==> r.value == sessions[cookie]
    {
      if cookie in sessions then Some(sessions[cookie]) else None
    }

    /** `store_session(session)`, again with `.ok().flatten()` applied.
        `issued` is what the store answers: a fresh cookie value (random,
        hence not yet in use) under which the session is now stored, or
        nothing when the store fails, in which case nothing is stored. */
    method StoreSession(session: Session<D>, issued: Option<string>) returns (cookie: Option<string>)
      requires Valid()
      requires issued.Some? ==> issued.value !in sessions && Http.ValidHeaderValue(issued.value)
      modifies this
      ensures Valid()
      ensures cookie == issued
      ensures sessions == if issued.Some? then old(sessions)[issued.value := session] else old(sessions)
    {
      cookie := issued;
      if issued.Some? {
        sessions := sessions[issued.value := session];
      }
    }

    /** `destroy_session(session)` for the session loaded with `cookie`. */
    method DestroySession(cookie: string)
      requires Valid()
      modifies this
      ensures Valid()
      ensures sessions == old(sessions) - {cookie}
    {
      sessions := sessions - {cookie};
    }

    /** `session.insert(key, value)` on a session obtained from
        `load_session(cookie)`: the clone shares its data with the stored
        session, so the write is seen by the store. */
    method InsertIntoLoaded(cookie: string, key: string, value: D)
      requires Valid() && cookie in sessions
      modifies this
      ensures Valid()
      ensures sessions == old(sessions)[cookie := old(sessions)[cookie][key := value]]
    {
      sessions := sessions[cookie := sessions[cookie][key := value]];
    }
  }
}
