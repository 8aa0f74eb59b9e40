/** The socket side of the backend (backend/websocket/handler.go): what a
    connection does when it opens and closes, how an incoming chat frame is
    stored and routed, and the session-ended notice. */
module WebSocket {
  import opened Types
  import opened Store
  import opened Connections

  // ----- routing -----

  /** A chat frame as the client sends it. */
  datatype Incoming = Incoming(sessionId: string, sender: string, message: string)

  /** Who gets a chat frame: the assigned agent, the user, and whether the
      assistant is asked for a reply. */
  datatype Route = Route(toAgent: bool, echoToUser: bool, askAi: bool)

  /** In system mode the assistant answers every frame and a user's own frame
      is echoed to the user; in human mode a user's frame goes to the agent and
      back to the user, and anyone else's frame goes to the user only. */
  function RouteFor(mode: Mode, sender: string): (r: Route)
    ensures r.askAi <==> mode == System
    ensures r.toAgent <==> mode == Human && sender == "user"
    ensures r.echoToUser <==> mode == Human || sender == "user"
    ensures !r.toAgent || r.echoToUser
  {
    match mode
    case System => Route(false, sender == "user", true)
    case Human => Route(sender == "user", true, false)
  }

  /** The frames one incoming frame produces, given the assistant's answer
      (consulted only when the route asks for it). */
  function Deliveries(reg: Registry, s: Session, m: Incoming, reply: Option<string>): seq<Outgoing>
    reads reg
  {
    var route := RouteFor(s.mode, m.sender);
    var f := Chat(m.sender, m.message);
    (if route.toAgent then SendTo(reg.AgentConn(s.assignedAgent), f) else [])
    + (if route.echoToUser then SendTo(reg.UserConn(s.userId), f) else [])
    + (if route.askAi && reply.Some? then SendTo(reg.UserConn(s.userId), Chat("system", reply.value)) else [])
  }

  /** System mode: everything goes to the session's user; the user's own frame
      comes back to them, and the reply reaches them exactly when the assistant
      gave one and they are connected. */
  lemma SystemModeDeliveries(reg: Registry, s: Session, m: Incoming, reply: Option<string>)
    requires s.mode == System
    ensures forall o :: o in Deliveries(reg, s, m, reply) ==> reg.UserConn(s.userId) == Some(o.to)
    ensures Deliveries(reg, s, m, reply) ==
      (if m.sender == "user" then SendTo(reg.UserConn(s.userId), Chat("user", m.message)) else [])
      + (if reply.Some? then SendTo(reg.UserConn(s.userId), Chat("system", reply.value)) else [])
  {
  }

  /** Human mode: the assistant is not asked; a user's frame goes to the
      assigned agent and then back to the user, anyone else's to the user only. */
  lemma HumanModeDeliveries(reg: Registry, s: Session, m: Incoming, reply: Option<string>)
    requires s.mode == Human
    ensures m.sender == "user" ==> (Deliveries(reg, s, m, reply) ==
      SendTo(reg.AgentConn(s.assignedAgent), Chat(m.sender, m.message)) + SendTo(reg.UserConn(s.userId), Chat(m.sender, m.message)))
    ensures m.sender != "user" ==> (Deliveries(reg, s, m, reply) ==
      SendTo(reg.UserConn(s.userId), Chat(m.sender, m.message)))
  {
  }

  /** HandleWebSocketMessage. A frame that does not decode, or whose session
      is not in the store, changes nothing and sends nothing. Otherwise the
      session's lastActivity is refreshed and the frame is stored with its own
      sender and text, whatever the session's mode or status, before it is
      routed; in system mode a reply of the assistant is stored with sender
      "system" and sent, and a failed call stores and sends nothing more. The
      session id text is parsed with its error dropped, as the source does.
      The clock is read again once the assistant has answered: `replyAt`
      stamps the reply, `now` the session and the frame. */
  method HandleMessage(db: Db, reg: Registry, frame: Option<Incoming>, now: int, replyAt: int, ask: string -> Option<string>)
    returns (out: seq<Outgoing>)
    requires now <= replyAt
    requires db.Valid()
    modifies db`sessions, db`messages
    ensures db.Valid()
    ensures frame.None? || ParseOrZero(frame.value.sessionId) !in old(db.sessions) ==>
      out == [] && db.sessions == old(db.sessions) && db.messages == old(db.messages)
    ensures frame.Some? && ParseOrZero(frame.value.sessionId) in old(db.sessions) ==>
      var m := frame.value;
      var id := ParseOrZero(m.sessionId);
      var s := old(db.sessions)[id];
      var reply := if s.mode == System then ask(m.message) else None;
      && db.sessions == old(db.sessions)[id := s.(lastActivity := now)]
      && db.messages == old(db.messages) + [Message(id, m.sender, m.message, now)]
                        + (if reply.Some? then [Message(id, "system", reply.value, replyAt)] else [])
      && out == Deliveries(reg, s, m, reply)
  {
    out := [];
    if frame.None? {
      return;
    }
    var m := frame.value;
    var id := ParseOrZero(m.sessionId);
    if id !in db.sessions {
      return;
    }
    var s := db.sessions[id];
    db.sessions := db.sessions[id := s.(lastActivity := now)];
    db.messages := db.messages + [Message(id, m.sender, m.message, now)];
    var f := Chat(m.sender, m.message);
    if s.mode == System {
      if m.sender == "user" {
        out := out + SendTo(reg.UserConn(s.userId), f);
      }
      var reply := ask(m.message);
      if reply.None? {
        return;
      }
      db.messages := db.messages + [Message(id, "system", reply.value, replyAt)];
      out := out + SendTo(reg.UserConn(s.userId), Chat("system", reply.value));
    } else {
      if m.sender == "user" {
        out := out + SendTo(reg.AgentConn(s.assignedAgent), f);
      }
      out := out + SendTo(reg.UserConn(s.userId), f);
    }
  }

  // ----- notices -----

  /** NotifySessionEnded: the completed notice goes only to the session's
      user, only when connected; an id that does not parse or names no
      session sends nothing. */
  function NotifySessionEnded(sessions: map<ObjectId, Session>, reg: Registry, sessionId: string): (r: seq<Outgoing>)
    reads reg
    ensures |r| <= 1
    ensures r != [] <==>
      ParseObjectId(sessionId).Some? && ParseObjectId(sessionId).value in sessions &&
      reg.UserConn(sessions[ParseObjectId(sessionId).value].userId).Some?
    ensures forall o :: o in r ==>
      o.frame == SessionEnded && reg.UserConn(sessions[ParseObjectId(sessionId).value].userId) == Some(o.to)
  {
    match ParseObjectId(sessionId)
    case None => []
    case Some(id) =>
      if id in sessions then SendTo(reg.UserConn(sessions[id].userId), SessionEnded) else []
  }

  /** The session-info frame a user who names a session gets on connecting,
      when that session is in the store. */
  function SessionInfo(sessions: map<ObjectId, Session>, conn: Conn, userId: string, sessionId: string): seq<Outgoing> {
    var id := ParseOrZero(sessionId);
    if userId != "" && sessionId != "" && id in sessions then
      [Outgoing(conn, SessionState(sessions[id].mode, sessions[id].status, sessions[id].assignedAgent))]
    else []
  }

  // ----- opening and closing a connection -----

  /** Opening a socket (HandleWebSocket up to its read loop). A user id first
      triggers the duplicate-session cleanup, then stores the connection under
      that id, replacing an earlier one, and sends the named session's state. An
      agent id stores the connection under that id and tells the user of every
      active session assigned to the agent that the agent is there.
      `notified` is the order the store lists those sessions in. */
  method Connect(db: Db, reg: Registry, conn: Conn, userId: string, agentId: string, sessionId: string)
    returns (out: seq<Outgoing>, ghost notified: seq<SessionView>)
    requires db.Valid()
    modifies db`sessions, reg
    ensures db.Valid()
    ensures userId != "" ==> CleanedUp(old(db.sessions), db.sessions, userId)
    ensures userId == "" ==> db.sessions == old(db.sessions)
    ensures reg.userConns == if userId != "" then old(reg.userConns)[userId := conn] else old(reg.userConns)
    ensures reg.agentConns == if agentId != "" then old(reg.agentConns)[agentId := conn] else old(reg.agentConns)
    ensures agentId != "" ==> Lists(notified, db.sessions, ActiveOfAgent(agentId))
    ensures out == SessionInfo(db.sessions, conn, userId, sessionId)
                   + (if agentId != "" then NotifyUsers(reg, notified, SessionState(Human, Active, agentId)) else [])
  {
    if userId != "" {
      CleanupUserSessions(db, userId);
    }
    out := [];
    notified := [];
    if userId != "" {
      reg.ConnectUser(userId, conn);
      out := SessionInfo(db.sessions, conn, userId, sessionId);
    }
    if agentId != "" {
      reg.ConnectAgent(agentId, conn);
      var views := SelectSessions(db.sessions, ActiveOfAgent(agentId));
      notified := views;
      out := out + NotifyUsers(reg, views, SessionState(Human, Active, agentId));
    }
  }

  /** `UpdateMany({assignedAgent: agentId, mode: "human"}, {mode: "system",
      assignedAgent: "System", status: "active"})`. */
  function FallBackToSystem(sessions: map<ObjectId, Session>, agentId: string): (r: map<ObjectId, Session>)
    ensures r.Keys == sessions.Keys
    ensures forall id :: id in r ==> !Matches(HumanOfAgent(agentId), r[id])
    ensures forall id :: id in sessions && Matches(HumanOfAgent(agentId), sessions[id]) ==>
      r[id] == sessions[id].(mode := System, assignedAgent := SystemAgent, status := Active)
    ensures forall id :: id in sessions && !Matches(HumanOfAgent(agentId), sessions[id]) ==> r[id] == sessions[id]
    ensures WellFormed(sessions) ==> WellFormed(r)
  {
    map id | id in sessions ::
      if Matches(HumanOfAgent(agentId), sessions[id])
      then sessions[id].(mode := System, assignedAgent := SystemAgent, status := Active)
      else sessions[id]
  }

  /** What the closing of a socket does (the deferred function of
      HandleWebSocket). Both registry entries are deleted. For an agent, the
      agent becomes available when its id parses, every human-mode session
      assigned to it falls back to the assistant, and the user of every
      system-mode session assigned to "System" is told so. `notified` is the
      order the store lists those sessions in. */
  method Disconnect(db: Db, reg: Registry, userId: string, agentId: string)
    returns (out: seq<Outgoing>, ghost notified: seq<SessionView>)
    requires db.Valid()
    modifies db`sessions, db`agents, reg
    ensures db.Valid()
    ensures reg.userConns == if userId != "" then old(reg.userConns) - {userId} else old(reg.userConns)
    ensures reg.agentConns == if agentId != "" then old(reg.agentConns) - {agentId} else old(reg.agentConns)
    ensures agentId == "" ==> db.sessions == old(db.sessions) && db.agents == old(db.agents) && out == []
    ensures agentId != "" ==>
      && db.agents == (match ParseObjectId(agentId)
                       case Some(k) => SetAgentStatus(old(db.agents), k, AvailableStatus)
                       case None => old(db.agents))
      && db.sessions == FallBackToSystem(old(db.sessions), agentId)
      && Lists(notified, db.sessions, SystemAssigned)
      && out == NotifyUsers(reg, notified, SessionState(System, Active, SystemAgent))
  {
    out := [];
    notified := [];
    if userId != "" {
      reg.DisconnectUser(userId);
    }
    if agentId != "" {
      reg.DisconnectAgent(agentId);
      var parsed := ParseObjectId(agentId);
      if parsed.Some? {
        db.agents := SetAgentStatus(db.agents, parsed.value, AvailableStatus);
      }
      db.sessions := FallBackToSystem(db.sessions, agentId);
      var views := SelectSessions(db.sessions, SystemAssigned);
      notified := views;
      out := NotifyUsers(reg, views, SessionState(System, Active, SystemAgent));
    }
  }
}
