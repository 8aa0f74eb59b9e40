/** The session handlers of backend/handlers/session.go: starting, resuming,
    transferring and ending a session, the stale-session sweep, and the
    listings users and agents see. */
module SessionHandlers {
  import opened Types
  import opened Store
  import opened Connections
  import opened Sorting
  import opened WebSocket

  // ----- the stale-session sweep -----

  /** Sessions idle for more than thirty minutes are stale. */
  const StaleAfter := 30 * 60

  /** `DeleteMany({lastActivity: {$lt: now - 30 minutes}})`. */
  function Recent(sessions: map<ObjectId, Session>, now: int): (r: map<ObjectId, Session>)
    ensures r.Keys <= sessions.Keys
    ensures forall id :: id in sessions ==> (id in r <==> sessions[id].lastActivity >= now - StaleAfter)
    ensures forall id :: id in r ==> r[id] == sessions[id]
  {
    map id | id in sessions && sessions[id].lastActivity >= now - StaleAfter :: sessions[id]
  }

  /** Sweeping twice at the same instant deletes nothing more, and the sweep
      keeps every session well formed. */
  lemma RecentIdempotent(sessions: map<ObjectId, Session>, now: int)
    ensures Recent(Recent(sessions, now), now) == Recent(sessions, now)
    ensures WellFormed(sessions) ==> WellFormed(Recent(sessions, now))
  {
  }

  /** CleanupOldSessions. */
  method CleanupOldSessions(db: Db, now: int)
    requires db.Valid()
    modifies db`sessions
    ensures db.Valid()
    ensures db.sessions == Recent(old(db.sessions), now)
  {
    db.sessions := Recent(db.sessions, now);
  }

  // ----- starting a session -----

  datatype StartStatus = New | Continued | ContinuedSystem | TransferredToSystem
    // "new" / "continued" / "continued_system" / "transferred_to_system"

  datatype StartReply = StartReply(sessionId: ObjectId, assignedAgent: string, mode: Mode, status: StartStatus)

  /** The session StartSessionHandler inserts when it does not resume one:
      with an agent id, a human-mode session assigned to it; without, a
      system-mode session assigned to "System". Both are active. */
  function NewSession(userId: string, agentId: string, now: int): (s: Session)
    ensures s.userId == userId && s.status == Active && s.createdAt == now && s.lastActivity == now
    ensures agentId == "" ==> s.mode == System && s.assignedAgent == SystemAgent
    ensures agentId != "" ==> s.mode == Human && s.assignedAgent == agentId
    ensures WellFormedSession(s) && IsOpen(s)
  {
    if agentId != "" then Session(userId, Human, Active, agentId, now, now)
    else Session(userId, System, Active, SystemAgent, now, now)
  }

  /** An open session StartSessionHandler resumes: any system-mode one, or a
      human-mode one whose agent is not the "System" sentinel. */
  predicate Resumable(s: Session) {
    s.mode == System || s.assignedAgent != SystemAgent
  }

  /** Replacing one session by another of the same user that is still open
      leaves the user's open sessions as they were. */
  lemma OpenAfterRefresh(sessions: map<ObjectId, Session>, id: ObjectId, s: Session, userId: string)
    requires id in OpenOf(sessions, userId)
    requires s.userId == userId && IsOpen(s)
    ensures OpenOf(sessions[id := s], userId) == OpenOf(sessions, userId)
  {
  }

  /** How StartSessionHandler takes up a resumable open session, and the
      status its reply reports: a system-mode session is continued as it is; a
      human-mode one is continued when its agent is still "available", and is
      otherwise handed back to the assistant. Either way it becomes active with
      lastActivity now and stays the same user's open session. */
  function Resumed(s: Session, agents: map<ObjectId, Agent>, now: int): (r: (Session, StartStatus))
    requires Resumable(s)
    ensures r.0.userId == s.userId && r.0.createdAt == s.createdAt
    ensures r.0.status == Active && r.0.lastActivity == now && IsOpen(r.0)
    ensures WellFormedSession(s) ==> WellFormedSession(r.0)
    ensures r.1 == ContinuedSystem <==> s.mode == System
    ensures r.1 == Continued <==> s.mode == Human && AgentAvailable(agents, ParseOrZero(s.assignedAgent))
    ensures r.1 == TransferredToSystem <==> s.mode == Human && !AgentAvailable(agents, ParseOrZero(s.assignedAgent))
    ensures r.1 != TransferredToSystem ==> r.0.mode == s.mode && r.0.assignedAgent == s.assignedAgent
    ensures r.1 == TransferredToSystem ==> r.0.mode == System && r.0.assignedAgent == SystemAgent
  {
    if s.mode == Human then
      if AgentAvailable(agents, ParseOrZero(s.assignedAgent)) then (s.(status := Active, lastActivity := now), Continued)
      else (s.(mode := System, assignedAgent := SystemAgent, status := Active, lastActivity := now), TransferredToSystem)
    else (s.(status := Active, lastActivity := now), ContinuedSystem)
  }

  /** The insert of StartSessionHandler when there is nothing to resume: a
      requested agent is set busy first, then the new session goes in under
      `newId`, the id the store generates; an insert clashing with an existing
      id fails. A successful insert adds exactly `newId` to the user's open
      sessions. */
  method CreateSession(db: Db, userId: string, agentId: string, now: int, newId: ObjectId)
    returns (r: Result<StartReply>)
    requires db.Valid()
    modifies db`sessions, db`agents
    ensures db.Valid()
    ensures db.agents == if agentId != "" then SetAgentStatus(old(db.agents), ParseOrZero(agentId), BusyStatus)
                         else old(db.agents)
    ensures newId in old(db.sessions) ==> r == Err(InsertFailed) && db.sessions == old(db.sessions)
    ensures newId !in old(db.sessions) ==>
      var s := NewSession(userId, agentId, now);
      r == Ok(StartReply(newId, s.assignedAgent, s.mode, New)) && db.sessions == old(db.sessions)[newId := s]
    ensures r.Ok? ==> OpenOf(db.sessions, userId) == OpenOf(old(db.sessions), userId) + {newId}
  {
    if agentId != "" {
      db.agents := SetAgentStatus(db.agents, ParseOrZero(agentId), BusyStatus);
    }
    var s := NewSession(userId, agentId, now);
    if newId in db.sessions {
      return Err(InsertFailed);
    }
    db.sessions := db.sessions[newId := s];
    r := Ok(StartReply(newId, s.assignedAgent, s.mode, New));
  }

  /** StartSessionHandler. An empty user id is refused and nothing changes.
      Otherwise the duplicate cleanup runs first (`cleaned` is the store after
      it), which leaves the user at most one open session. A resumable one is
      taken up as `Resumed` says; with nothing to resume a new session is
      created. A human-mode session assigned to "System" is not resumable and
      stays open beside the new one. */
  method StartSession(db: Db, userId: string, agentId: string, now: int, newId: ObjectId)
    returns (r: Result<StartReply>, ghost cleaned: map<ObjectId, Session>)
    requires db.Valid()
    modifies db`sessions, db`agents
    ensures db.Valid()
    ensures userId == "" ==>
      r == Err(InvalidRequest) && db.sessions == old(db.sessions) && db.agents == old(db.agents)
    ensures userId != "" ==> CleanedUp(old(db.sessions), cleaned, userId)
    ensures userId != "" ==> forall id :: id in OpenOf(cleaned, userId) && Resumable(cleaned[id]) ==>
      var (s, status) := Resumed(cleaned[id], old(db.agents), now);
      && r == Ok(StartReply(id, s.assignedAgent, s.mode, status))
      && db.sessions == cleaned[id := s]
      && db.agents == old(db.agents)
    ensures userId != "" && (forall id :: id in OpenOf(cleaned, userId) ==> !Resumable(cleaned[id])) ==>
      && db.agents == (if agentId != "" then SetAgentStatus(old(db.agents), ParseOrZero(agentId), BusyStatus)
                       else old(db.agents))
      && (newId in cleaned ==> r == Err(InsertFailed) && db.sessions == cleaned)
      && (newId !in cleaned ==>
            var s := NewSession(userId, agentId, now);
            r == Ok(StartReply(newId, s.assignedAgent, s.mode, New)) && db.sessions == cleaned[newId := s])
    // The reply names an open session of the user, and unless a human-mode
    // session assigned to "System" was left open it is the user's only one.
    ensures r.Ok? ==> r.value.sessionId in OpenOf(db.sessions, userId)
    ensures r.Ok? ==> GetSessionInfo(db.sessions, r.value.sessionId) == Ok((r.value.mode, r.value.assignedAgent))
    ensures r.Ok? && (forall id :: id in OpenOf(cleaned, userId) ==> Resumable(cleaned[id])) ==>
      OpenOf(db.sessions, userId) == {r.value.sessionId}
  {
    cleaned := db.sessions;
    if userId == "" {
      return Err(InvalidRequest), cleaned;
    }
    CleanupUserSessions(db, userId);
    cleaned := db.sessions;
    var open := OpenOf(db.sessions, userId);
    assert |open| <= 1;
    if open != {} {
      var id :| id in open;
      forall j | j in open ensures j == id {
        AtMostOneSame(open, j, id);
      }
      assert open == {id};
      var s := db.sessions[id];
      if Resumable(s) {
        var (t, status) := Resumed(s, db.agents, now);
        OpenAfterRefresh(db.sessions, id, t, userId);
        ParseCanonical(id);
        InfoOfStored(db.sessions, id, t);
        db.sessions := db.sessions[id := t];
        return Ok(StartReply(id, t.assignedAgent, t.mode, status)), cleaned;
      }
    }
    ParseCanonical(newId);
    r := CreateSession(db, userId, agentId, now, newId);
  }

  // ----- transfer, end, lookups -----

  datatype TransferReply = TransferReply(sessionId: string, agentId: string, messages: seq<Message>)

  /** TransferToAgentHandler. Refused, with nothing changed, when either id is
      empty or not hex, or when the agent is not "available". Otherwise the
      session, if the store has it, is handed to the agent (the update of a
      missing id matches nothing and still succeeds), the agent becomes busy,
      the user of the session hears of it when connected, and the session's
      messages come back in store order. */
  method TransferToAgent(db: Db, reg: Registry, sessionId: string, agentId: string, now: int)
    returns (r: Result<TransferReply>, out: seq<Outgoing>)
    requires db.Valid()
    modifies db`sessions, db`agents
    ensures db.Valid()
    ensures r.Err? ==> db.sessions == old(db.sessions) && db.agents == old(db.agents) && out == []
    ensures sessionId == "" || agentId == "" ==> r == Err(InvalidRequest)
    ensures sessionId != "" && agentId != "" && ParseObjectId(sessionId).None? ==> r == Err(InvalidSessionId)
    ensures sessionId != "" && agentId != "" && ParseObjectId(sessionId).Some? && ParseObjectId(agentId).None? ==>
      r == Err(InvalidAgentId)
    ensures sessionId != "" && agentId != "" && ParseObjectId(sessionId).Some? && ParseObjectId(agentId).Some? ==>
      var sid, aid := ParseObjectId(sessionId).value, ParseObjectId(agentId).value;
      && (!AgentAvailable(old(db.agents), aid) ==> r == Err(AgentNotAvailable))
      && (AgentAvailable(old(db.agents), aid) ==>
            && r == Ok(TransferReply(sessionId, agentId, MessagesOf(db.messages, sid)))
            && db.sessions == (if sid in old(db.sessions) then old(db.sessions)[sid := HandedTo(old(db.sessions)[sid], agentId, now)]
                               else old(db.sessions))
            && db.agents == SetAgentStatus(old(db.agents), aid, BusyStatus)
            && out == SendTo(reg.UserConn(if sid in db.sessions then db.sessions[sid].userId else ""),
                             SessionState(Human, Active, agentId)))
  {
    out := [];
    if sessionId == "" || agentId == "" {
      return Err(InvalidRequest), out;
    }
    var parsedSession := ParseObjectId(sessionId);
    if parsedSession.None? {
      return Err(InvalidSessionId), out;
    }
    var parsedAgent := ParseObjectId(agentId);
    if parsedAgent.None? {
      return Err(InvalidAgentId), out;
    }
    var sid, aid := parsedSession.value, parsedAgent.value;
    if !AgentAvailable(db.agents, aid) {
      return Err(AgentNotAvailable), out;
    }
    if sid in db.sessions {
      db.sessions := db.sessions[sid := HandedTo(db.sessions[sid], agentId, now)];
    }
    db.agents := SetAgentStatus(db.agents, aid, BusyStatus);
    // A FindOne that matches nothing leaves the zero session, whose user id is empty.
    var userOfSession := if sid in db.sessions then db.sessions[sid].userId else "";
    out := SendTo(reg.UserConn(userOfSession), SessionState(Human, Active, agentId));
    r := Ok(TransferReply(sessionId, agentId, MessagesOf(db.messages, sid)));
  }

  /** EndSessionHandler. Refused without change for an empty or non-hex id and
      for an id the store does not have. Otherwise the session is completed,
      with lastActivity now, a real agent it was assigned to becomes
      available again, and the session's user is told. Writes to a session
      already completed are not refused. */
  method EndSession(db: Db, reg: Registry, sessionId: string, now: int)
    returns (r: Result<()>, out: seq<Outgoing>)
    requires db.Valid()
    modifies db`sessions, db`agents
    ensures db.Valid()
    ensures r.Err? ==> db.sessions == old(db.sessions) && db.agents == old(db.agents) && out == []
    ensures sessionId == "" ==> r == Err(InvalidRequest)
    ensures sessionId != "" && ParseObjectId(sessionId).None? ==> r == Err(InvalidSessionId)
    ensures sessionId != "" && ParseObjectId(sessionId).Some? ==>
      var sid := ParseObjectId(sessionId).value;
      && (sid !in old(db.sessions) ==> r == Err(SessionNotFound))
      && (sid in old(db.sessions) ==>
            var s := old(db.sessions)[sid];
            && r == Ok(())
            && db.sessions == old(db.sessions)[sid := s.(status := Completed, lastActivity := now)]
            && db.agents == (if s.assignedAgent != SystemAgent && s.assignedAgent != ""
                             then SetAgentStatus(old(db.agents), ParseOrZero(s.assignedAgent), AvailableStatus)
                             else old(db.agents))
            && out == NotifySessionEnded(db.sessions, reg, sessionId))
  {
    out := [];
    if sessionId == "" {
      return Err(InvalidRequest), out;
    }
    var parsed := ParseObjectId(sessionId);
    if parsed.None? {
      return Err(InvalidSessionId), out;
    }
    var sid := parsed.value;
    if sid !in db.sessions {
      return Err(SessionNotFound), out;
    }
    var s := db.sessions[sid];
    db.sessions := db.sessions[sid := s.(status := Completed, lastActivity := now)];
    if s.assignedAgent != SystemAgent && s.assignedAgent != "" {
      db.agents := SetAgentStatus(db.agents, ParseOrZero(s.assignedAgent), AvailableStatus);
    }
    out := NotifySessionEnded(db.sessions, reg, sessionId);
    r := Ok(());
  }

  /** Ending a session leaves its user without it among the open ones. */
  lemma EndedIsClosed(sessions: map<ObjectId, Session>, sid: ObjectId, now: int)
    requires sid in sessions
    ensures var s := sessions[sid];
      OpenOf(sessions[sid := s.(status := Completed, lastActivity := now)], s.userId) ==
      OpenOf(sessions, s.userId) - {sid}
  {
  }

  /** GetSessionInfoHandler: the mode and assigned agent of one session. */
  function GetSessionInfo(sessions: map<ObjectId, Session>, sessionId: string): (r: Result<(Mode, string)>)
    ensures sessionId == "" ==> r == Err(InvalidRequest)
    ensures sessionId != "" && ParseObjectId(sessionId).None? ==> r == Err(InvalidSessionId)
    ensures sessionId != "" && ParseObjectId(sessionId).Some? ==>
      var sid := ParseObjectId(sessionId).value;
      if sid in sessions then r == Ok((sessions[sid].mode, sessions[sid].assignedAgent))
      else r == Err(SessionNotFound)
  {
    if sessionId == "" then Err(InvalidRequest)
    else match ParseObjectId(sessionId)
      case None => Err(InvalidSessionId)
      case Some(sid) =>
        if sid in sessions then Ok((sessions[sid].mode, sessions[sid].assignedAgent)) else Err(SessionNotFound)
  }

  /** Whatever is stored under an id is what the info handler reports for
      any spelling of that id. */
  lemma InfoOfStored(sessions: map<ObjectId, Session>, sessionId: string, s: Session)
    requires ParseObjectId(sessionId).Some?
    ensures GetSessionInfo(sessions[ParseObjectId(sessionId).value := s], sessionId) == Ok((s.mode, s.assignedAgent))
  {
  }

  /** After a session is handed to an agent, its info is human mode with that
      agent. */
  lemma InfoAfterHandover(sessions: map<ObjectId, Session>, sessionId: string, agentId: string, now: int)
    requires ParseObjectId(sessionId).Some? && ParseObjectId(sessionId).value in sessions
    ensures var sid := ParseObjectId(sessionId).value;
      GetSessionInfo(sessions[sid := HandedTo(sessions[sid], agentId, now)], sessionId) == Ok((Human, agentId))
  {
    var sid := ParseObjectId(sessionId).value;
    InfoOfStored(sessions, sessionId, HandedTo(sessions[sid], agentId, now));
  }

  /** After an agent's socket closes, each session it held in human mode
      reports system mode with the "System" agent, and every other session
      reports what it did before. */
  lemma InfoAfterFallBack(sessions: map<ObjectId, Session>, agentId: string, sessionId: string)
    ensures var sid := ParseObjectId(sessionId);
      sid.Some? && sid.value in sessions && Matches(HumanOfAgent(agentId), sessions[sid.value]) ==>
        GetSessionInfo(FallBackToSystem(sessions, agentId), sessionId) == Ok((System, SystemAgent))
    ensures var sid := ParseObjectId(sessionId);
      !(sid.Some? && sid.value in sessions && Matches(HumanOfAgent(agentId), sessions[sid.value])) ==>
        GetSessionInfo(FallBackToSystem(sessions, agentId), sessionId) == GetSessionInfo(sessions, sessionId)
  {
  }

  /** GetUserActiveSessionHandler: some open session of the user, if any (the
      store does not say which when there are several). */
  method GetUserActiveSession(sessions: map<ObjectId, Session>, userId: string) returns (r: Result<Option<SessionView>>)
    ensures userId == "" ==> r == Err(InvalidRequest)
    ensures userId != "" ==> r.Ok? && (r.value.None? <==> OpenOf(sessions, userId) == {})
    ensures r.Ok? && r.value.Some? ==>
      r.value.value.id in OpenOf(sessions, userId) && r.value.value.session == sessions[r.value.value.id]
  {
    if userId == "" {
      return Err(InvalidRequest);
    }
    var open := OpenOf(sessions, userId);
    if open == {} {
      return Ok(None);
    }
    var id :| id in open;
    r := Ok(Some(SessionView(id, sessions[id])));
  }

  // ----- the users' and agents' listings -----

  /** `lastMessage` of a user's session row: the text of the first message
      whose timestamp is the greatest, provided it is later than the zero time;
      otherwise empty. */
  ghost predicate IsLatestText(ms: seq<Message>, t: string) {
    if forall j :: 0 <= j < |ms| ==> ms[j].timestamp <= 0 then t == ""
    else exists k :: 0 <= k < |ms| && t == ms[k].text && IsFirstLatest(ms, k)
  }

  ghost predicate IsFirstLatest(ms: seq<Message>, k: int) {
    && 0 <= k < |ms|
    && (forall j :: 0 <= j < |ms| ==> ms[j].timestamp <= ms[k].timestamp)
    && (forall j :: 0 <= j < k ==> ms[j].timestamp < ms[k].timestamp)
  }

  /** The tag is determined by the messages. */
  lemma LatestTextUnique(ms: seq<Message>, t1: string, t2: string)
    requires IsLatestText(ms, t1) && IsLatestText(ms, t2)
    ensures t1 == t2
  {
    if !(forall j :: 0 <= j < |ms| ==> ms[j].timestamp <= 0) {
      var k1 :| 0 <= k1 < |ms| && t1 == ms[k1].text && IsFirstLatest(ms, k1);
      var k2 :| 0 <= k2 < |ms| && t2 == ms[k2].text && IsFirstLatest(ms, k2);
      assert k1 == k2;
    }
  }

  /** The running-maximum loop over a session's messages, starting from the
      zero message and moving only on a strictly later timestamp. */
  method LastMessageText(ms: seq<Message>) returns (t: string)
    ensures IsLatestText(ms, t)
  {
    var latest := Message(ZeroId, "", "", 0);
    ghost var at := -1;
    for i := 0 to |ms|
      invariant at == -1 ==> latest.text == "" && latest.timestamp == 0 &&
                             forall j :: 0 <= j < i ==> ms[j].timestamp <= 0
      invariant at != -1 ==> 0 <= at < i && latest == ms[at] && latest.timestamp > 0 &&
                             (forall j :: 0 <= j < i ==> ms[j].timestamp <= latest.timestamp) &&
                             (forall j :: 0 <= j < at ==> ms[j].timestamp < latest.timestamp)
    {
      if ms[i].timestamp > latest.timestamp {
        latest := ms[i];
        at := i;
      }
    }
    t := latest.text;
    if at != -1 {
      assert IsFirstLatest(ms, at);
    }
  }

  /** After a system-mode turn whose reply was stamped strictly later than
      the question, and the question no earlier than anything stored before,
      the session's last message is the reply. */
  lemma SystemTurnShowsReply(ms: seq<Message>, q: Message, a: Message)
    requires q.sessionId == a.sessionId
    requires forall m :: m in ms && m.sessionId == q.sessionId ==> m.timestamp <= q.timestamp
    requires q.timestamp < a.timestamp && 0 < a.timestamp
    ensures IsLatestText(MessagesOf(ms + [q, a], a.sessionId), a.text)
  {
    var id := a.sessionId;
    assert (ms + [q, a])[..|ms| + 1] == ms + [q];
    assert (ms + [q])[..|ms|] == ms;
    var before := MessagesOf(ms, id);
    assert MessagesOf(ms + [q], id) == before + [q];
    var r := MessagesOf(ms + [q, a], id);
    assert r == MessagesOf(ms + [q], id) + [a];
    forall j | 0 <= j < |r|
      ensures r[j].timestamp <= a.timestamp
    {
      if j < |before| {
        assert before[j] in before;
      }
    }
    assert IsFirstLatest(r, |r| - 1);
  }

  /** A row of the user's session history. */
  datatype UserSessionRow = UserSessionRow(view: SessionView, lastMessage: string)

  function ViewsOf(rows: seq<UserSessionRow>): (vs: seq<SessionView>)
    ensures |vs| == |rows| && forall k :: 0 <= k < |rows| ==> vs[k] == rows[k].view
  {
    seq(|rows|, k requires 0 <= k < |rows| => rows[k].view)
  }

  lemma ViewsOfPermuted(a: seq<UserSessionRow>, b: seq<UserSessionRow>)
    requires multiset(a) == multiset(b)
    ensures forall v :: v in ViewsOf(a) <==> v in ViewsOf(b)
  {
    forall v | v in ViewsOf(a) ensures v in ViewsOf(b) {
      var k :| 0 <= k < |a| && ViewsOf(a)[k] == v;
      assert a[k] in multiset(b);
      var j :| 0 <= j < |b| && b[j] == a[k];
      assert ViewsOf(b)[j] == v;
    }
    forall v | v in ViewsOf(b) ensures v in ViewsOf(a) {
      var k :| 0 <= k < |b| && ViewsOf(b)[k] == v;
      assert b[k] in multiset(a);
      var j :| 0 <= j < |a| && a[j] == b[k];
      assert ViewsOf(a)[j] == v;
    }
  }

  /** Sort keys: later lastActivity first. */
  function RowRecency(row: UserSessionRow): int { -row.view.session.lastActivity }
  function ViewRecency(v: SessionView): int { -v.session.lastActivity }

  /** Thirty days, the default window of the user's history. */
  const HistoryWindow := 30 * 24 * 60 * 60

  /** The filter of GetUserSessionsHandler: the given status, or, without
      one, the sessions active in the last thirty days. */
  function UserSessionsFilter(userId: string, status: string, now: int): (f: Filter)
    ensures status != "" ==> f == UserWithStatus(userId, status)
    ensures status == "" ==> f == UserSince(userId, now - HistoryWindow)
  {
    if status != "" then UserWithStatus(userId, status) else UserSince(userId, now - HistoryWindow)
  }

  /** GetUserSessionsHandler: the user's sessions under that filter, each
      tagged with its latest message text, newest lastActivity first. */
  method GetUserSessions(db: Db, userId: string, status: string, now: int) returns (r: Result<seq<UserSessionRow>>)
    ensures userId == "" ==> r == Err(InvalidRequest)
    ensures userId != "" ==> r.Ok?
    ensures r.Ok? ==>
      && Lists(ViewsOf(r.value), db.sessions, UserSessionsFilter(userId, status, now))
      && SortedBy(r.value, RowRecency)
      && forall k :: 0 <= k < |r.value| ==>
           IsLatestText(MessagesOf(db.messages, r.value[k].view.id), r.value[k].lastMessage)
  {
    if userId == "" {
      return Err(InvalidRequest);
    }
    var f := UserSessionsFilter(userId, status, now);
    var views := SelectSessions(db.sessions, f);
    var rows: seq<UserSessionRow> := [];
    for k := 0 to |views|
      invariant |rows| == k
      invariant forall i :: 0 <= i < k ==> rows[i].view == views[i]
      invariant forall i :: 0 <= i < k ==> IsLatestText(MessagesOf(db.messages, rows[i].view.id), rows[i].lastMessage)
    {
      var t := LastMessageText(MessagesOf(db.messages, views[k].id));
      rows := rows + [UserSessionRow(views[k], t)];
    }
    assert ViewsOf(rows) == views;
    var sorted := SortByKey(rows, RowRecency);
    ViewsOfPermuted(rows, sorted);
    assert |sorted| == |multiset(sorted)| == |multiset(rows)| == |rows|;
    ListsSameElements(ViewsOf(rows), ViewsOf(sorted), db.sessions, f);
    forall k | 0 <= k < |sorted|
      ensures IsLatestText(MessagesOf(db.messages, sorted[k].view.id), sorted[k].lastMessage)
    {
      assert sorted[k] in multiset(rows);
    }
    r := Ok(sorted);
  }

  /** GetAgentSessionsHandler: the human-mode sessions assigned to the agent,
      newest lastActivity first. The source compares the formatted times as
      strings, which orders them as the seconds they stand for. */
  method GetAgentSessions(sessions: map<ObjectId, Session>, agentId: string) returns (r: seq<SessionView>)
    ensures Lists(r, sessions, HumanOfAgent(agentId))
    ensures SortedBy(r, ViewRecency)
  {
    var views := SelectSessions(sessions, HumanOfAgent(agentId));
    r := SortByKey(views, ViewRecency);
    PermutedLists(views, r, sessions, HumanOfAgent(agentId));
  }
}
