/**
 * The in-process session store: a dictionary from session id to the
 * session's owner and its history. Lookup of an unknown id is not an
 * error; it yields a placeholder session that is NOT stored.
 */
module Memory {
  import Ids

  /** The owner recorded in the placeholder for an unknown id. */
  const UnknownUser := "unknown"

  /** `{"user_id": ..., "history": [...]}`, generic in what a history entry holds. */
  datatype Session<Entry> = Session(userId: string, history: seq<Entry>)

  /** What a lookup of an id that was never stored returns. */
  function Placeholder<Entry>(): Session<Entry> {
    Session(UnknownUser, [])
  }

  class InMemorySessionService<Entry> {
    /** The stored sessions (`self.sessions`). */
    var sessions: map<string, Session<Entry>>
    /** Every `save_session` call made so far, oldest first. */
    ghost var saved: seq<(string, Session<Entry>)>

    constructor ()
      ensures sessions == map[] && saved == []
    {
      sessions := map[];
      saved := [];
    }

    /** Stores an empty session for `userId` under a new id and returns that id. */
    method CreateSession(userId: string) returns (sid: string)
      modifies this
      ensures sid !in old(sessions)
      ensures sessions == old(sessions)[sid := Session(userId, [])]
      ensures GetSession(sid) == Session(userId, [])
      ensures saved == old(saved)
    {
      sid := Ids.FreshId(sessions.Keys);
      sessions := sessions[sid := Session(userId, [])];
    }

    /** Lookup with a default: the stored session, or a placeholder that is not stored. */
    function GetSession(sessionId: string): (s: Session<Entry>)
      reads this
      ensures sessionId in sessions ==> s == sessions[sessionId]
      ensures sessionId !in sessions ==> s.userId == UnknownUser && s.history == []
    {
      if sessionId in sessions then sessions[sessionId] else Placeholder()
    }

    /** Unconditional overwrite: the last save of an id wins. */
    method SaveSession(sessionId: string, session: Session<Entry>)
      modifies this
      ensures sessions == old(sessions)[sessionId := session]
      ensures saved == old(saved) + [(sessionId, session)]
      ensures GetSession(sessionId) == session

    {
      sessions := sessions[sessionId := session];
      saved := saved + [(sessionId, session)];
    }
  }
}
