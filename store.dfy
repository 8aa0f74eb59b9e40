/** The store behind every handler: the sessions, agents, messages and users
    collections, the filters the handlers query them with, and the
    duplicate-session cleanup that two source files carry identical copies of
    (backend/handlers/session.go and backend/websocket/handler.go). */
module Store {
  import opened Types

  // ----- queries over sessions -----

  /** An open session is one whose status is "active" or "waiting_for_agent". */
  predicate IsOpen(s: Session) {
    s.status == Active || s.status == WaitingForAgent
  }

  /** The session filters the handlers pass to the sessions collection. */
  datatype Filter =
    | OpenOfUser(userId: string)                      // that user, status active or waiting_for_agent
    | UserWithStatus(userId: string, status: string)  // that user, that status text
    | UserSince(userId: string, since: int)           // that user, lastActivity >= since
    | HumanOfAgent(agentId: string)                   // assigned to that agent, mode human
    | ActiveOfAgent(agentId: string)                  // assigned to that agent, status active
    | OnAgentList(agentId: string)                    // the agent's own open sessions, or System's active system ones
    | SystemActive                                    // mode system, status active
    | SystemAssigned                                  // assigned to System, mode system

  predicate Matches(f: Filter, s: Session) {
    match f
    case OpenOfUser(u) => s.userId == u && IsOpen(s)
    case UserWithStatus(u, st) => s.userId == u && StatusName(s.status) == st
    case UserSince(u, t) => s.userId == u && s.lastActivity >= t
    case HumanOfAgent(a) => s.assignedAgent == a && s.mode == Human
    case ActiveOfAgent(a) => s.assignedAgent == a && s.status == Active
    case OnAgentList(a) =>
      (s.assignedAgent == a && IsOpen(s)) ||
      (s.assignedAgent == SystemAgent && s.mode == System && s.status == Active)
    case SystemActive => s.mode == System && s.status == Active
    case SystemAssigned => s.assignedAgent == SystemAgent && s.mode == System
  }

  /** The ids of the sessions a filter selects. */
  function Find(sessions: map<ObjectId, Session>, f: Filter): set<ObjectId> {
    set id | id in sessions && Matches(f, sessions[id])
  }

  function OpenOf(sessions: map<ObjectId, Session>, userId: string): set<ObjectId> {
    Find(sessions, OpenOfUser(userId))
  }

  /** A session as a listing handler returns it. */
  datatype SessionView = SessionView(id: ObjectId, session: Session)

  /** `r` lists the sessions `f` selects, each exactly once, in some order. */
  ghost predicate Lists(r: seq<SessionView>, sessions: map<ObjectId, Session>, f: Filter) {
    && (forall k :: 0 <= k < |r| ==>
          r[k].id in sessions && r[k].session == sessions[r[k].id] && Matches(f, r[k].session))
    && (forall id :: id in Find(sessions, f) ==> exists k :: 0 <= k < |r| && r[k].id == id)
    && |r| == |Find(sessions, f)|
  }

  /** A cursor over the sessions a filter selects, appended one by one; the
      store does not promise any particular order. */
  method SelectSessions(sessions: map<ObjectId, Session>, f: Filter) returns (r: seq<SessionView>)
    ensures Lists(r, sessions, f)
  {
    var todo := Find(sessions, f);
    r := [];
    while todo != {}
      invariant todo <= Find(sessions, f)
      invariant forall k :: 0 <= k < |r| ==>
        r[k].id in sessions && r[k].session == sessions[r[k].id] && Matches(f, r[k].session)
      invariant forall id :: id in Find(sessions, f) - todo ==> exists k :: 0 <= k < |r| && r[k].id == id
      invariant |r| + |todo| == |Find(sessions, f)|
      decreases todo
    {
      var id :| id in todo;
      ghost var r0 := r;
      r := r + [SessionView(id, sessions[id])];
      StillListed(r0, SessionView(id, sessions[id]), Find(sessions, f) - todo);
      assert Find(sessions, f) - (todo - {id}) == (Find(sessions, f) - todo) + {id};
      todo := todo - {id};
    }
    assert Find(sessions, f) - todo == Find(sessions, f);
  }

  /** Appending to a list keeps every id it listed and adds the new one. */
  lemma StillListed(r0: seq<SessionView>, v: SessionView, ids: set<ObjectId>)
    requires forall id :: id in ids ==> exists k :: 0 <= k < |r0| && r0[k].id == id
    ensures forall id :: id in ids + {v.id} ==> exists k :: 0 <= k < |r0 + [v]| && (r0 + [v])[k].id == id
  {
    var r := r0 + [v];
    forall id | id in ids + {v.id}
      ensures exists k :: 0 <= k < |r| && r[k].id == id
    {
      if id == v.id {
        assert r[|r0|].id == id;
      } else {
        var k :| 0 <= k < |r0| && r0[k].id == id;
        assert r[k] == r0[k];
      }
    }
  }

  /** Two listings with the same elements and the same length list the same
      sessions; this is what lets a listing be sorted afterwards. */
  lemma {:induction false} ListsSameElements(r1: seq<SessionView>, r2: seq<SessionView>, sessions: map<ObjectId, Session>, f: Filter)
    requires Lists(r1, sessions, f)
    requires |r2| == |r1|
    requires forall v :: v in r1 <==> v in r2
    ensures Lists(r2, sessions, f)
  {
    forall id | id in Find(sessions, f)
      ensures exists k :: 0 <= k < |r2| && r2[k].id == id
    {
      var k :| 0 <= k < |r1| && r1[k].id == id;
      assert r1[k] in r2;
      var j :| 0 <= j < |r2| && r2[j] == r1[k];
    }
    forall k | 0 <= k < |r2|
      ensures r2[k].id in sessions && r2[k].session == sessions[r2[k].id] && Matches(f, r2[k].session)
    {
      assert r2[k] in r1;
    }
  }

  /** Permuting a listing keeps it a listing. */
  lemma PermutedLists(r1: seq<SessionView>, r2: seq<SessionView>, sessions: map<ObjectId, Session>, f: Filter)
    requires Lists(r1, sessions, f)
    requires multiset(r2) == multiset(r1)
    ensures Lists(r2, sessions, f)
  {
    assert |r2| == |multiset(r2)| == |multiset(r1)| == |r1|;
    assert forall v :: v in r1 <==> v in multiset(r1);
    assert forall v :: v in r2 <==> v in multiset(r2);
    ListsSameElements(r1, r2, sessions, f);
  }

  // ----- messages -----

  /** The messages of one session, in store order. */
  function MessagesOf(ms: seq<Message>, id: ObjectId): (r: seq<Message>)
    ensures |r| <= |ms|
    ensures forall m :: m in r <==> m in ms && m.sessionId == id
  {
    if ms == [] then []
    else
      var init, last := ms[..|ms| - 1], ms[|ms| - 1];
      assert ms == init + [last];
      var rest := MessagesOf(init, id);
      if last.sessionId == id then rest + [last] else rest
  }

  // ----- the store -----

  /** Every writer of a session keeps this: a system-mode session is assigned
      to the sentinel "System", a human-mode one to a non-empty agent id. */
  predicate WellFormedSession(s: Session) {
    (s.mode == System ==> s.assignedAgent == SystemAgent) &&
    (s.mode == Human ==> s.assignedAgent != "")
  }

  ghost predicate WellFormed(sessions: map<ObjectId, Session>) {
    forall id :: id in sessions ==> WellFormedSession(sessions[id])
  }

  predicate UniqueEmails(users: seq<User>) {
    forall i, j :: 0 <= i < j < |users| ==> users[i].email != users[j].email
  }

  /** The collections. `chats` and `sends` hold the documents the chat and send
      handlers write; they carry no session id. */
  class Db {
    var sessions: map<ObjectId, Session>
    var agents: map<ObjectId, Agent>
    var messages: seq<Message>
    var users: seq<User>
    var chats: seq<ChatRecord>
    var sends: seq<SendRecord>

    ghost predicate Valid()
      reads this
    {
      WellFormed(sessions) && UniqueEmails(users)
    }

    constructor ()
      ensures Valid()
      ensures sessions == map[] && agents == map[] && messages == []
      ensures users == [] && chats == [] && sends == []
    {
      sessions, agents, messages := map[], map[], [];
      users, chats, sends := [], [], [];
    }
  }

  /** `UpdateOne({_id: key}, {$set: {status: ...}})` on the agents collection:
      no effect when no agent has that id. */
  function SetAgentStatus(agents: map<ObjectId, Agent>, key: ObjectId, status: string): (r: map<ObjectId, Agent>)
    ensures r.Keys == agents.Keys
    ensures key in agents ==> r[key] == agents[key].(status := status)
    ensures forall k :: k in agents && k != key ==> r[k] == agents[k]
  {
    if key in agents then agents[key := agents[key].(status := status)] else agents
  }

  /** The update the transfer, takeover and assign handlers apply to the
      session they hand to an agent. */
  function HandedTo(s: Session, agentId: string, now: int): (r: Session)
    ensures r.userId == s.userId && r.createdAt == s.createdAt
    ensures agentId != "" ==> WellFormedSession(r)
    ensures IsOpen(r) && Matches(ActiveOfAgent(agentId), r) && Matches(HumanOfAgent(agentId), r)
  {
    s.(assignedAgent := agentId, mode := Human, status := Active, lastActivity := now)
  }

  predicate AgentAvailable(agents: map<ObjectId, Agent>, key: ObjectId) {
    key in agents && agents[key].status == AvailableStatus
  }

  // ----- duplicate-session cleanup -----

  /** What the cleanup leaves: only deletions, only of the user's open
      sessions, nothing at all when the user has at most one open session, and
      otherwise at most one open session, one with the greatest lastActivity.
      The running maximum starts at the zero session, whose time is zero: when
      no open session is later than it, every open session whose id differs
      from the zero session's is deleted, so only one with the zero id can
      survive. */
  ghost predicate CleanedUp(s0: map<ObjectId, Session>, s1: map<ObjectId, Session>, userId: string) {
    && s1.Keys <= s0.Keys
    && (forall id :: id in s1 ==> s1[id] == s0[id])
    && (forall id :: id in s0 && id !in OpenOf(s0, userId) ==> id in s1)
    && (|OpenOf(s0, userId)| <= 1 ==> s1 == s0)
    && |OpenOf(s1, userId)| <= 1
    && (|OpenOf(s0, userId)| > 1 ==>
          if forall j :: j in OpenOf(s0, userId) ==> s0[j].lastActivity <= 0
          then OpenOf(s1, userId) == OpenOf(s0, userId) * {ZeroId}
          else OpenOf(s1, userId) != {} &&
               forall k, j :: k in OpenOf(s1, userId) && j in OpenOf(s0, userId) ==>
                 s0[j].lastActivity <= s0[k].lastActivity)
  }

  lemma SubsetOfAtMostOne<T>(a: set<T>, b: set<T>)
    requires a <= b && |b| <= 1
    ensures |a| <= 1
  {
    if |a| > 1 {
      var x :| x in a;
      assert |a - {x}| >= 1;
      var y :| y in a - {x};
      assert {x, y} <= b;
      assert |{x, y}| == 2;
      SubsetCard({x, y}, b);
    }
  }

  lemma AtMostOneSame<T>(a: set<T>, x: T, y: T)
    requires |a| <= 1 && x in a && y in a
    ensures x == y
  {
    if x != y {
      assert {x, y} <= a;
      SubsetCard({x, y}, a);
    }
  }

  lemma SubsetCard<T>(a: set<T>, b: set<T>)
    requires a <= b
    ensures |a| <= |b|
  {
    assert b == a + (b - a);
  }

  /** The first loop of the cleanup: a running maximum of lastActivity over
      `ids` that starts at the zero time and moves only on a strictly later one. */
  method LatestOf(sessions: map<ObjectId, Session>, ids: set<ObjectId>) returns (latest: Option<ObjectId>)
    requires ids <= sessions.Keys
    ensures latest.Some? ==> latest.value in ids && sessions[latest.value].lastActivity > 0
    ensures latest.Some? ==> forall j :: j in ids ==> sessions[j].lastActivity <= sessions[latest.value].lastActivity
    ensures latest.None? ==> forall j :: j in ids ==> sessions[j].lastActivity <= 0
  {
    latest := None;
    var latestAt := 0;
    var todo := ids;
    while todo != {}
      invariant todo <= ids
      invariant latest.None? ==> latestAt == 0
      invariant latest.Some? ==> latest.value in ids && sessions[latest.value].lastActivity == latestAt > 0
      invariant forall j :: j in ids - todo ==> sessions[j].lastActivity <= latestAt
      decreases todo
    {
      var id :| id in todo;
      if sessions[id].lastActivity > latestAt {
        latest, latestAt := Some(id), sessions[id].lastActivity;
      }
      todo := todo - {id};
    }
    assert ids - todo == ids;
  }

  /** The second loop of the cleanup: one delete per doomed session. */
  method DeleteSessions(db: Db, doomed: set<ObjectId>)
    modifies db`sessions
    ensures db.sessions == old(db.sessions) - doomed
  {
    var todo := doomed;
    while todo != {}
      invariant todo <= doomed
      invariant db.sessions == old(db.sessions) - (doomed - todo)
      decreases todo
    {
      var id :| id in todo;
      db.sessions := db.sessions - {id};
      todo := todo - {id};
    }
    assert doomed - todo == doomed;
  }

  /** CleanupUserSessions: when the user has two or more open sessions, keep
      the one found latest and delete those whose id differs from it; with no
      session later than the zero time, the one compared against is the zero
      session. */
  method CleanupUserSessions(db: Db, userId: string)
    requires db.Valid()
    modifies db`sessions
    ensures db.Valid()
    ensures CleanedUp(old(db.sessions), db.sessions, userId)
  {
    ghost var s0 := db.sessions;
    var open := OpenOf(db.sessions, userId);
    if |open| > 1 {
      var latest := LatestOf(db.sessions, open);
      var kept := if latest.Some? then {latest.value} else {ZeroId};
      DeleteSessions(db, open - kept);
      assert OpenOf(db.sessions, userId) == open * kept;
      SubsetOfAtMostOne(OpenOf(db.sessions, userId), kept);
      if latest.Some? {
        assert latest.value in OpenOf(db.sessions, userId);
        forall k, j | k in OpenOf(db.sessions, userId) && j in OpenOf(s0, userId)
          ensures s0[j].lastActivity <= s0[k].lastActivity
        {
          assert k in kept;
        }
      }
    } else {
      forall k, j | k in open && j in open ensures k == j {
        AtMostOneSame(open, k, j);
      }
    }
  }
}
