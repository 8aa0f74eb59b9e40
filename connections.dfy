/** The socket registry of backend/websocket/handler.go: one live connection
    per user id and one per agent id, and the frames written to them. */
module Connections {
  import opened Types
  import opened Store

  /** An opaque handle of an upgraded socket. */
  type Conn = nat

  /** The JSON frames the backend writes to sockets. */
  datatype Frame =
    | Chat(sender: string, message: string)                            // {sender, message}
    | SessionState(mode: Mode, status: Status, assignedAgent: string)  // {sender: "system", mode, status, assignedAgent}
    | SessionEnded                                                     // {sender: "system", status: "completed"}
    | History(sender: string, message: string)                         // {sender, message, type: "history"}

  /** One frame written to one connection. */
  datatype Outgoing = Outgoing(to: Conn, frame: Frame)

  class Registry {
    var userConns: map<string, Conn>
    var agentConns: map<string, Conn>

    constructor ()
      ensures userConns == map[] && agentConns == map[]
    {
      userConns, agentConns := map[], map[];
    }

    function UserConn(userId: string): Option<Conn>
      reads this
    {
      if userId in userConns then Some(userConns[userId]) else None
    }

    function AgentConn(agentId: string): Option<Conn>
      reads this
    {
      if agentId in agentConns then Some(agentConns[agentId]) else None
    }

    /** A new connection replaces any earlier one under the same user id. */
    method ConnectUser(userId: string, c: Conn)
      modifies this`userConns
      ensures userConns == old(userConns)[userId := c]
      ensures UserConn(userId) == Some(c)
    {
      userConns := userConns[userId := c];
    }

    method ConnectAgent(agentId: string, c: Conn)
      modifies this`agentConns
      ensures agentConns == old(agentConns)[agentId := c]
      ensures AgentConn(agentId) == Some(c)
    {
      agentConns := agentConns[agentId := c];
    }

    /** Closing deletes the entry under that id, whichever connection it holds. */
    method DisconnectUser(userId: string)
      modifies this`userConns
      ensures userConns == old(userConns) - {userId}
      ensures UserConn(userId) == None
    {
      userConns := userConns - {userId};
    }

    method DisconnectAgent(agentId: string)
      modifies this`agentConns
      ensures agentConns == old(agentConns) - {agentId}
      ensures AgentConn(agentId) == None
    {
      agentConns := agentConns - {agentId};
    }
  }

  /** `if conn != nil { conn.WriteMessage(...) }` */
  function SendTo(c: Option<Conn>, f: Frame): seq<Outgoing> {
    if c.Some? then [Outgoing(c.value, f)] else []
  }

  /** The same frame to the connected user of each listed session, in list order. */
  function NotifyUsers(reg: Registry, views: seq<SessionView>, f: Frame): (r: seq<Outgoing>)
    reads reg
    ensures |r| <= |views|
    ensures forall o :: o in r ==>
      o.frame == f && exists k :: 0 <= k < |views| && reg.UserConn(views[k].session.userId) == Some(o.to)
    ensures (forall k :: 0 <= k < |views| ==> reg.UserConn(views[k].session.userId).Some?) ==> |r| == |views|
  {
    if views == [] then []
    else
      var init := views[..|views| - 1];
      var last := views[|views| - 1];
      var r := NotifyUsers(reg, init, f) + SendTo(reg.UserConn(last.session.userId), f);
      assert forall o :: o in r ==>
        o.frame == f && exists k :: 0 <= k < |views| && reg.UserConn(views[k].session.userId) == Some(o.to) by {
        forall o | o in r
          ensures o.frame == f && exists k :: 0 <= k < |views| && reg.UserConn(views[k].session.userId) == Some(o.to)
        {
          if o in NotifyUsers(reg, init, f) {
            var k :| 0 <= k < |init| && reg.UserConn(init[k].session.userId) == Some(o.to);
            assert views[k] == init[k];
          } else {
            assert reg.UserConn(views[|views| - 1].session.userId) == Some(o.to);
          }
        }
      }
      r
  }

  /** The history frames of a session's messages written to an agent's
      connection, one per message in the given order. */
  function HistoryTo(c: Option<Conn>, ms: seq<Message>): seq<Outgoing> {
    if c.None? then []
    else seq(|ms|, k requires 0 <= k < |ms| => Outgoing(c.value, History(ms[k].sender, ms[k].text)))
  }

  /** The positions in `views` of the sessions whose user is connected on
      `o.to`, when `o` carries `f`; none when it carries another frame. */
  ghost function Told(reg: Registry, views: seq<SessionView>, f: Frame, o: Outgoing): set<int>
    reads reg
  {
    set k | 0 <= k < |views| && o.frame == f && reg.UserConn(views[k].session.userId) == Some(o.to)
  }

  /** Listing one more session adds its position exactly when its user is
      connected on `o.to` and `o` carries `f`. */
  lemma ToldSnoc(reg: Registry, views: seq<SessionView>, f: Frame, o: Outgoing)
    requires views != []
    ensures var n := |views| - 1;
      |Told(reg, views, f, o)| ==
        |Told(reg, views[..n], f, o)| + (if o.frame == f && reg.UserConn(views[n].session.userId) == Some(o.to) then 1 else 0)
  {
    var n := |views| - 1;
    var before := Told(reg, views[..n], f, o);
    var extra: set<int> := if o.frame == f && reg.UserConn(views[n].session.userId) == Some(o.to) then {n} else {};
    forall k ensures k in Told(reg, views, f, o) <==> k in before + extra {
      if 0 <= k < n {
        assert views[..n][k] == views[k];
      }
    }
    assert Told(reg, views, f, o) == before + extra;
    assert n !in before;
  }

  /** Each listed session with a connected user gets one frame, whatever the
      other sessions' users: a frame goes to a connection exactly as many
      times as sessions list a user connected there. */
  lemma {:induction false} NotifyUsersCounts(reg: Registry, views: seq<SessionView>, f: Frame)
    ensures forall o :: multiset(NotifyUsers(reg, views, f))[o] == |Told(reg, views, f, o)|
  {
    if views == [] {
      forall o ensures multiset(NotifyUsers(reg, views, f))[o] == |Told(reg, views, f, o)| {
        assert Told(reg, views, f, o) == {};
      }
    } else {
      var n := |views| - 1;
      var init := views[..n];
      var tail := SendTo(reg.UserConn(views[n].session.userId), f);
      NotifyUsersCounts(reg, init, f);
      assert NotifyUsers(reg, views, f) == NotifyUsers(reg, init, f) + tail;
      forall o ensures multiset(NotifyUsers(reg, views, f))[o] == |Told(reg, views, f, o)| {
        assert multiset(tail)[o] == if o.frame == f && reg.UserConn(views[n].session.userId) == Some(o.to) then 1 else 0;
        ToldSnoc(reg, views, f, o);
      }
    }
  }
}
