/** The presence registry of server.js: `onlineUsers` (user id to the
    socket, name and last activity of their latest connection) and
    `userSockets` (socket id to user id). */
module Presence {
  import opened Base
  import opened Events

  datatype PresenceEntry = PresenceEntry(socketId: SocketId, userName: string, lastActivity: nat)

  type OnlineMap = map<UserId, PresenceEntry>
  type SocketMap = map<SocketId, UserId>

  /** The identity the handshake attached to a socket. */
  datatype Session = Session(socketId: SocketId, userId: UserId, userName: string)

  datatype Registry = Registry(online: OnlineMap, sockets: SocketMap)

  /** The registry after a connection (server.js:150-155): the user's entry
      is inserted or overwritten, and the socket is mapped to the user. */
  function Connect(reg: Registry, s: Session, now: nat): (r: Registry)
    ensures r.online.Keys == reg.online.Keys + {s.userId}
    ensures r.online[s.userId] == PresenceEntry(s.socketId, s.userName, now)
    ensures forall u :: u in reg.online && u != s.userId ==> r.online[u] == reg.online[u]
    ensures r.sockets.Keys == reg.sockets.Keys + {s.socketId} && r.sockets[s.socketId] == s.userId
    ensures forall k :: k in reg.sockets && k != s.socketId ==> r.sockets[k] == reg.sockets[k]
  {
    Registry(reg.online[s.userId := PresenceEntry(s.socketId, s.userName, now)], reg.sockets[s.socketId := s.userId])
  }

  /** The registry after a disconnect (server.js:380-381): the user's entry
      goes, whichever socket it records. */
  function Disconnect(reg: Registry, s: Session): (r: Registry)
    ensures s.userId !in r.online && s.socketId !in r.sockets
    ensures r.online.Keys == reg.online.Keys - {s.userId}
    ensures r.sockets.Keys == reg.sockets.Keys - {s.socketId}
    ensures forall u :: u in r.online ==> r.online[u] == reg.online[u]
    ensures forall k :: k in r.sockets ==> r.sockets[k] == reg.sockets[k]
  {
    Registry(reg.online - {s.userId}, reg.sockets - {s.socketId})
  }

  /** `user-activity` (server.js:318-321): only a user already online has
      their activity time renewed. */
  function Touch(online: OnlineMap, u: UserId, now: nat): (r: OnlineMap)
    ensures r.Keys == online.Keys
    ensures u in online ==> r[u] == online[u].(lastActivity := now)
    ensures forall v :: v in online && v != u ==> r[v] == online[v]
  {
    if u in online then online[u := online[u].(lastActivity := now)] else online
  }

  /** The `online-users-list` snapshot (server.js:164-168): one row per
      online user with their name and last activity. */
  function Snapshot(online: OnlineMap): (users: set<OnlineUser>)
    ensures forall u :: u in online ==> OnlineUser(u, online[u].userName, online[u].lastActivity) in users
    ensures forall x :: x in users ==>
      x.userId in online && x.userName == online[x.userId].userName && x.lastActivity == online[x.userId].lastActivity
  {
    set u | u in online :: OnlineUser(u, online[u].userName, online[u].lastActivity)
  }

  /** Exactly one row per online user. */
  lemma {:induction false} SnapshotSize(online: OnlineMap)
    ensures |Snapshot(online)| == |online.Keys|
    decreases |online.Keys|
  {
    if online.Keys != {} {
      var u :| u in online;
      var rest := online - {u};
      SnapshotSize(rest);
      var row := OnlineUser(u, online[u].userName, online[u].lastActivity);
      forall x | x in Snapshot(online) ensures x in Snapshot(rest) + {row} {
        if x.userId != u {
          assert x.userId in rest;
        }
      }
      assert Snapshot(online) == Snapshot(rest) + {row};
      assert row !in Snapshot(rest);
      assert online.Keys == rest.Keys + {u};
    }
  }

  /** Two connections of one user: the later one wins the entry, both
      sockets map to the user, and when the earlier socket disconnects the
      user is reported offline although the later socket is still
      connected. */
  lemma EarlierSocketDisconnectDropsUser(reg: Registry, s1: Session, s2: Session, t1: nat, t2: nat)
    requires s1.userId == s2.userId && s1.socketId != s2.socketId
    ensures var both := Connect(Connect(reg, s1, t1), s2, t2);
      && both.online[s1.userId].socketId == s2.socketId
      && both.sockets[s1.socketId] == s1.userId && both.sockets[s2.socketId] == s1.userId
      && s1.userId !in Disconnect(both, s1).online
      && Disconnect(both, s1).sockets[s2.socketId] == s1.userId
  {
  }
}
