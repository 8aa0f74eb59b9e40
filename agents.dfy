/** The agent handlers of backend/handlers/agent.go: status changes, login,
    taking over a session from the assistant, assignment, and the two
    listings agents see. */
module AgentHandlers {
  import opened Types
  import opened Store
  import opened Connections
  import opened Sorting
  import opened SessionHandlers

  /** AgentStatusHandler. Refused for an empty agent id or status and for an
      id that is not hex; otherwise that agent's status becomes exactly the
      given text (an unknown id matches nothing and still succeeds). */
  method AgentStatus(db: Db, agentId: string, status: string) returns (r: Result<()>)
    modifies db`agents
    ensures agentId == "" || status == "" ==> r == Err(InvalidRequest)
    ensures agentId != "" && status != "" && ParseObjectId(agentId).None? ==> r == Err(InvalidAgentId)
    ensures r.Err? ==> db.agents == old(db.agents)
    ensures agentId != "" && status != "" && ParseObjectId(agentId).Some? ==>
      r == Ok(()) && db.agents == SetAgentStatus(old(db.agents), ParseObjectId(agentId).value, status)
  {
    if agentId == "" || status == "" {
      return Err(InvalidRequest);
    }
    var parsed := ParseObjectId(agentId);
    if parsed.None? {
      return Err(InvalidAgentId);
    }
    db.agents := SetAgentStatus(db.agents, parsed.value, status);
    r := Ok(());
  }

  /** The body AgentLoginHandler decodes. */
  datatype LoginBody = LoginBody(email: string, password: string)

  /** AgentLoginHandler. A body that does not decode is refused. Otherwise
      some agent with that email is looked up (the store does not say which
      when several share it) and its password hash checked with `matches`,
      which stands for bcrypt; both failures give the same error. No refusal
      changes anything. On success exactly that agent becomes "available". */
  method AgentLogin(db: Db, body: Option<LoginBody>, matches: (string, string) -> bool)
    returns (r: Result<ObjectId>)
    modifies db`agents
    ensures r.Err? ==> db.agents == old(db.agents)
    ensures body.None? ==> r == Err(InvalidRequest)
    ensures body.Some? && r.Err? ==> r.error == InvalidCredentials
    ensures r.Ok? ==>
      && body.Some?
      && r.value in old(db.agents)
      && old(db.agents)[r.value].email == body.value.email
      && matches(old(db.agents)[r.value].passwordHash, body.value.password)
      && db.agents == SetAgentStatus(old(db.agents), r.value, AvailableStatus)
    ensures body.Some? && (forall id :: id in old(db.agents) ==> old(db.agents)[id].email != body.value.email) ==>
      r.Err?
    ensures (body.Some? &&
             (exists id :: id in old(db.agents) && old(db.agents)[id].email == body.value.email) &&
             (forall id :: id in old(db.agents) && old(db.agents)[id].email == body.value.email ==>
                matches(old(db.agents)[id].passwordHash, body.value.password))) ==> r.Ok?
  {
    if body.None? {
      return Err(InvalidRequest);
    }
    var email, password := body.value.email, body.value.password;
    if !exists id :: id in db.agents && db.agents[id].email == email {
      return Err(InvalidCredentials);
    }
    var id :| id in db.agents && db.agents[id].email == email;
    if !matches(db.agents[id].passwordHash, password) {
      return Err(InvalidCredentials);
    }
    db.agents := SetAgentStatus(db.agents, id, AvailableStatus);
    r := Ok(id);
  }

  /** Sort key of a session's history: oldest first. */
  function Timestamp(m: Message): int { m.timestamp }

  /** The history exchange sort of the takeover and assign handlers: a
      session's messages in non-decreasing timestamp order. */
  method SortedHistory(ms: seq<Message>, id: ObjectId) returns (h: seq<Message>)
    ensures SortedBy(h, Timestamp)
    ensures multiset(h) == multiset(MessagesOf(ms, id))
    ensures forall m :: m in h <==> m in ms && m.sessionId == id
  {
    h := SortByKey(MessagesOf(ms, id), Timestamp);
    assert forall m :: m in h <==> m in multiset(MessagesOf(ms, id));
  }

  datatype TakeoverReply =
    | NotAvailable                                                          // {available: false}
    | TookOver(sessionId: ObjectId, agentId: string, messages: seq<Message>) // {available: true, ...}

  /** Whether one session may be taken over from the assistant. */
  predicate Takeable(sessions: map<ObjectId, Session>, id: ObjectId) {
    id in sessions && Matches(SystemActive, sessions[id])
  }

  /** TakeOverAISessionHandler. Refused without change for an empty or
      non-hex agent id, for an agent that is not "available", and for a
      non-hex session id. A named session must be in system mode and active;
      without a name any such session may be chosen; when none qualifies the
      reply is "not available" and nothing changes. The chosen session is
      handed to the agent and the agent becomes busy; its user is told, the
      agent gets the history frames in store order, and the reply carries the
      history sorted by timestamp. */
  method Takeover(db: Db, reg: Registry, agentId: string, sessionId: string, now: int)
    returns (r: Result<TakeoverReply>, out: seq<Outgoing>)
    requires db.Valid()
    modifies db`sessions, db`agents
    ensures db.Valid()
    ensures r.Err? || r == Ok(NotAvailable) ==>
      db.sessions == old(db.sessions) && db.agents == old(db.agents) && out == []
    ensures agentId == "" ==> r == Err(InvalidRequest)
    ensures agentId != "" && ParseObjectId(agentId).None? ==> r == Err(InvalidAgentId)
    ensures agentId != "" && ParseObjectId(agentId).Some? ==>
      var aid := ParseObjectId(agentId).value;
      && (!AgentAvailable(old(db.agents), aid) ==> r == Err(AgentNotAvailable))
      && (AgentAvailable(old(db.agents), aid) && sessionId != "" && ParseObjectId(sessionId).None? ==>
            r == Err(InvalidSessionId))
      && (AgentAvailable(old(db.agents), aid) && sessionId != "" && ParseObjectId(sessionId).Some? ==>
            (r == Ok(NotAvailable) <==> !Takeable(old(db.sessions), ParseObjectId(sessionId).value)))
      && (AgentAvailable(old(db.agents), aid) && sessionId == "" ==>
            (r == Ok(NotAvailable) <==> Find(old(db.sessions), SystemActive) == {}))
      && (AgentAvailable(old(db.agents), aid) && (sessionId == "" || ParseObjectId(sessionId).Some?) ==> r.Ok?)
    ensures r.Ok? && r.value.TookOver? ==>
      var id := r.value.sessionId;
      && Takeable(old(db.sessions), id)
      && (sessionId != "" ==> ParseObjectId(sessionId) == Some(id))
      && r.value.agentId == agentId
      && db.sessions == old(db.sessions)[id := HandedTo(old(db.sessions)[id], agentId, now)]
      && db.agents == SetAgentStatus(old(db.agents), ParseObjectId(agentId).value, BusyStatus)
      && SortedBy(r.value.messages, Timestamp)
      && multiset(r.value.messages) == multiset(MessagesOf(db.messages, id))
      && out == SendTo(reg.UserConn(old(db.sessions)[id].userId), SessionState(Human, Active, agentId))
                + HistoryTo(reg.AgentConn(agentId), MessagesOf(db.messages, id))
  {
    out := [];
    if agentId == "" {
      return Err(InvalidRequest), out;
    }
    var parsedAgent := ParseObjectId(agentId);
    if parsedAgent.None? {
      return Err(InvalidAgentId), out;
    }
    var aid := parsedAgent.value;
    if !AgentAvailable(db.agents, aid) {
      return Err(AgentNotAvailable), out;
    }
    var id: ObjectId;
    if sessionId != "" {
      var parsedSession := ParseObjectId(sessionId);
      if parsedSession.None? {
        return Err(InvalidSessionId), out;
      }
      if !Takeable(db.sessions, parsedSession.value) {
        return Ok(NotAvailable), out;
      }
      id := parsedSession.value;
    } else {
      var pool := Find(db.sessions, SystemActive);
      if pool == {} {
        return Ok(NotAvailable), out;
      }
      id :| id in pool;
    }
    var s := db.sessions[id];
    db.sessions := db.sessions[id := HandedTo(s, agentId, now)];
    db.agents := SetAgentStatus(db.agents, aid, BusyStatus);
    out := SendTo(reg.UserConn(s.userId), SessionState(Human, Active, agentId))
           + HistoryTo(reg.AgentConn(agentId), MessagesOf(db.messages, id));
    var history := SortedHistory(db.messages, id);
    r := Ok(TookOver(id, agentId, history));
  }

  datatype AssignReply = AssignReply(sessionId: string, agentId: string, messages: seq<Message>)

  /** AssignSessionToAgentHandler. Both ids are required and must be hex (the
      agent's is checked first), the agent must be "available", and the
      session must exist with status active; its mode is not checked. On
      success the session is handed to the agent, the agent becomes busy, and
      the agent gets the history frames in timestamp order, the same order as
      the reply's messages. Any refusal changes nothing. */
  method Assign(db: Db, reg: Registry, agentId: string, sessionId: string, now: int)
    returns (r: Result<AssignReply>, out: seq<Outgoing>)
    requires db.Valid()
    modifies db`sessions, db`agents
    ensures db.Valid()
    ensures r.Err? ==> db.sessions == old(db.sessions) && db.agents == old(db.agents) && out == []
    ensures agentId == "" || sessionId == "" ==> r == Err(InvalidRequest)
    ensures agentId != "" && sessionId != "" && ParseObjectId(agentId).None? ==> r == Err(InvalidAgentId)
    ensures agentId != "" && sessionId != "" && ParseObjectId(agentId).Some? && ParseObjectId(sessionId).None? ==>
      r == Err(InvalidSessionId)
    ensures agentId != "" && sessionId != "" && ParseObjectId(agentId).Some? && ParseObjectId(sessionId).Some? ==>
      var aid, sid := ParseObjectId(agentId).value, ParseObjectId(sessionId).value;
      && (!AgentAvailable(old(db.agents), aid) ==> r == Err(AgentNotAvailable))
      && (AgentAvailable(old(db.agents), aid) && !(sid in old(db.sessions) && old(db.sessions)[sid].status == Active) ==>
            r == Err(SessionNotActive))
      && (AgentAvailable(old(db.agents), aid) && sid in old(db.sessions) && old(db.sessions)[sid].status == Active ==>
            && r.Ok?
            && r.value.sessionId == sessionId && r.value.agentId == agentId
            && db.sessions == old(db.sessions)[sid := HandedTo(old(db.sessions)[sid], agentId, now)]
            && db.agents == SetAgentStatus(old(db.agents), aid, BusyStatus)
            && SortedBy(r.value.messages, Timestamp)
            && multiset(r.value.messages) == multiset(MessagesOf(db.messages, sid))
            && out == HistoryTo(reg.AgentConn(agentId), r.value.messages))
  {
    out := [];
    if agentId == "" || sessionId == "" {
      return Err(InvalidRequest), out;
    }
    var parsedAgent := ParseObjectId(agentId);
    if parsedAgent.None? {
      return Err(InvalidAgentId), out;
    }
    var parsedSession := ParseObjectId(sessionId);
    if parsedSession.None? {
      return Err(InvalidSessionId), out;
    }
    var aid, sid := parsedAgent.value, parsedSession.value;
    if !AgentAvailable(db.agents, aid) {
      return Err(AgentNotAvailable), out;
    }
    if !(sid in db.sessions && db.sessions[sid].status == Active) {
      return Err(SessionNotActive), out;
    }
    db.sessions := db.sessions[sid := HandedTo(db.sessions[sid], agentId, now)];
    db.agents := SetAgentStatus(db.agents, aid, BusyStatus);
    var history := SortedHistory(db.messages, sid);
    out := HistoryTo(reg.AgentConn(agentId), history);
    r := Ok(AssignReply(sessionId, agentId, history));
  }

  /** A successful handover leaves the session on the agent's list and out of
      the assistant's pool. */
  lemma HandedToLeavesPool(sessions: map<ObjectId, Session>, id: ObjectId, agentId: string, now: int)
    requires id in sessions && agentId != ""
    ensures var after := sessions[id := HandedTo(sessions[id], agentId, now)];
      id in Find(after, OnAgentList(agentId)) && id !in Find(after, SystemActive) &&
      Find(after, SystemActive) == Find(sessions, SystemActive) - {id}
  {
  }

  /** In a well-formed store every session of the assistant's pool is also on
      every agent's active list. */
  lemma PoolOnEveryAgentList(sessions: map<ObjectId, Session>, agentId: string)
    requires WellFormed(sessions)
    ensures Find(sessions, SystemActive) <= Find(sessions, OnAgentList(agentId))
  {
  }

  /** GetAgentActiveSessionsHandler: the stale sweep runs first, then the
      agent's own open sessions together with the assistant's active ones. */
  method GetAgentActiveSessions(db: Db, agentId: string, now: int) returns (r: seq<SessionView>)
    requires db.Valid()
    modifies db`sessions
    ensures db.Valid()
    ensures db.sessions == Recent(old(db.sessions), now)
    ensures Lists(r, db.sessions, OnAgentList(agentId))
  {
    CleanupOldSessions(db, now);
    r := SelectSessions(db.sessions, OnAgentList(agentId));
  }

  /** GetAISessionsHandler: the assistant's pool, every system-mode active session. */
  method GetAISessions(sessions: map<ObjectId, Session>) returns (r: seq<SessionView>)
    ensures Lists(r, sessions, SystemActive)
  {
    r := SelectSessions(sessions, SystemActive);
  }
}
