/** The realtime layer of server.js: the socket handshake and the handlers
    of one connection, acting on the process-wide presence registry, typing
    tracker and pending typing timers, with every emit appended to an
    outbox. */
module ChatServer {
  import opened Base
  import opened Rooms
  import opened Reactions
  import opened Messages
  import opened Events
  import opened Presence
  import opened Typing
  import opened MessageController

  /** The part of a verified token the handshake reads. */
  datatype Claims = Claims(id: UserId, fullName: Option<string>, email: Option<string>)

  /** `decoded.fullName || decoded.email || 'Anonymous'` (server.js:139). */
  function DisplayName(c: Claims): (name: string)
    ensures name != ""
    ensures Truthy(c.fullName) ==> name == c.fullName.value
    ensures !Truthy(c.fullName) && Truthy(c.email) ==> name == c.email.value
    ensures !Truthy(c.fullName) && !Truthy(c.email) ==> name == "Anonymous"
  {
    if Truthy(c.fullName) then c.fullName.value
    else if Truthy(c.email) then c.email.value
    else "Anonymous"
  }

  /** The handshake middleware (server.js:130-144). `verify` stands for
      `jwt.verify` with the server secret: `None` when it throws. */
  function Handshake(socketId: SocketId, token: Option<string>, verify: string -> Option<Claims>): (r: Option<Session>)
    ensures r.Some? <==> Truthy(token) && verify(token.value).Some?
    ensures r.Some? ==> r.value.socketId == socketId && r.value.userId == verify(token.value).value.id
    ensures r.Some? ==> r.value.userName == DisplayName(verify(token.value).value)
  {
    if !Truthy(token) then None
    else match verify(token.value)
      case None => None
      case Some(c) => Some(Session(socketId, c.id, DisplayName(c)))
  }

  /** A pending 3-second typing timer: the socket and room its closure
      captured (server.js:285-297). */
  datatype Timer = Timer(socketId: SocketId, userId: UserId, room: RoomId)

  /** The `user-stopped-typing` emit that removing `s`'s entry from `room`
      produces: one exactly when the user was typing there. */
  function StopEvent(typing: TypingMap, room: RoomId, socketId: SocketId, u: UserId): (sent: seq<Emit>)
    ensures |sent| <= 1
    ensures sent != [] <==> IsTyping(typing, room, u)
    ensures sent != [] ==> sent[0] == Emit(ToRoomExcept(room, socketId), UserStoppedTyping(u, room))
  {
    if IsTyping(typing, room, u) then [Emit(ToRoomExcept(room, socketId), UserStoppedTyping(u, room))] else []
  }

  /** The emits of the disconnect loop over `rooms`, in their order. */
  function StopEvents(typing: TypingMap, rooms: seq<RoomId>, socketId: SocketId, u: UserId): seq<Emit>
  {
    if rooms == [] then []
    else StopEvents(typing, rooms[..|rooms| - 1], socketId, u) + StopEvent(typing, rooms[|rooms| - 1], socketId, u)
  }

  /** The disconnect loop emits exactly one `user-stopped-typing` per room
      in which the user was typing, and nothing else. */
  lemma {:induction false} StopEventsExactlyTypingRooms(typing: TypingMap, rooms: seq<RoomId>, socketId: SocketId, u: UserId)
    ensures forall e :: e in StopEvents(typing, rooms, socketId, u) <==>
      exists r :: r in rooms && IsTyping(typing, r, u) && e == Emit(ToRoomExcept(r, socketId), UserStoppedTyping(u, r))
  {
    if rooms != [] {
      var init := rooms[..|rooms| - 1];
      var last := rooms[|rooms| - 1];
      assert rooms == init + [last];
      StopEventsExactlyTypingRooms(typing, init, socketId, u);
      forall e | e in StopEvents(typing, rooms, socketId, u)
        ensures exists r :: r in rooms && IsTyping(typing, r, u) && e == Emit(ToRoomExcept(r, socketId), UserStoppedTyping(u, r))
      {
        if e !in StopEvents(typing, init, socketId, u) {
          assert e in StopEvent(typing, last, socketId, u);
          assert last in rooms;
        } else {
          var r :| r in init && IsTyping(typing, r, u) && e == Emit(ToRoomExcept(r, socketId), UserStoppedTyping(u, r));
          assert r in rooms;
        }
      }
      forall e | exists r :: r in rooms && IsTyping(typing, r, u) && e == Emit(ToRoomExcept(r, socketId), UserStoppedTyping(u, r))
        ensures e in StopEvents(typing, rooms, socketId, u)
      {
        var r :| r in rooms && IsTyping(typing, r, u) && e == Emit(ToRoomExcept(r, socketId), UserStoppedTyping(u, r));
        if r != last {
          assert r in init;
        }
      }
    }
  }

  /** Emits the same payloads to a message's room, or nothing when it has
      none (server.js:215-221, 247-257, 361-368). */
  function RoomEmits(m: Message, payloads: seq<Payload>): (sent: seq<Emit>)
    ensures StatusRoom(m.chatType, m.authorId, m.recipientId).None? ==> sent == []
    ensures StatusRoom(m.chatType, m.authorId, m.recipientId).Some? ==>
      |sent| == |payloads| &&
      (forall i :: 0 <= i < |sent| ==>
        sent[i] == Emit(ToRoom(StatusRoom(m.chatType, m.authorId, m.recipientId).value), payloads[i]))
  {
    match StatusRoom(m.chatType, m.authorId, m.recipientId)
    case None => []
    case Some(room) => seq(|payloads|, i requires 0 <= i < |payloads| => Emit(ToRoom(room), payloads[i]))
  }

  /** The typing rooms in the order the `typingUsers` Map iterates them:
      each key once. */
  predicate RoomOrder(rooms: seq<RoomId>, typing: TypingMap) {
    (forall i, j :: 0 <= i < j < |rooms| ==> rooms[i] != rooms[j])
    && (forall r :: r in rooms ==> r in typing)
    && (forall r :: r in typing ==> r in rooms)
  }

  /** Stopping never adds or removes a room. */
  lemma StopTypingKeepsRoomOrder(rooms: seq<RoomId>, typing: TypingMap, room: RoomId, u: UserId)
    requires RoomOrder(rooms, typing)
    ensures RoomOrder(rooms, StopTyping(typing, room, u))
  {
    assert StopTyping(typing, room, u).Keys == typing.Keys;
  }

  /** The two cases of the handler's lookup, in terms of `StopTyping`. */
  lemma StopTypingCases(typing: TypingMap, room: RoomId, u: UserId)
    ensures room in typing && FindTypist(typing[room], u) >= 0 ==>
      IsTyping(typing, room, u) && StopTyping(typing, room, u) == typing[room := RemoveTypist(typing[room], u)]
    ensures !(room in typing && FindTypist(typing[room], u) >= 0) ==>
      !IsTyping(typing, room, u) && StopTyping(typing, room, u) == typing
  {
  }

  /** Two timers armed and one fired leave one more than before. */
  lemma ArmTwiceFireOnce(before: multiset<Timer>, armed: multiset<Timer>, after: multiset<Timer>, t: Timer)
    requires armed == before + multiset{t} + multiset{t}
    requires after == armed - multiset{t}
    ensures after == before + multiset{t} && t in after
  {
  }

  /** Starting adds the room at the end of the order when it is new. */
  lemma StartTypingExtendsRoomOrder(rooms: seq<RoomId>, typing: TypingMap, room: RoomId, t: Typist)
    requires RoomOrder(rooms, typing)
    ensures RoomOrder(rooms + (if room in typing then [] else [room]), StartTyping(typing, room, t))
  {
    var rooms' := rooms + (if room in typing then [] else [room]);
    assert StartTyping(typing, room, t).Keys == typing.Keys + {room};
    forall r | r in rooms' ensures r in rooms || r == room {
    }
    if room !in typing {
      forall i, j | 0 <= i < j < |rooms'| ensures rooms'[i] != rooms'[j] {
        if j == |rooms| {
          assert rooms'[i] == rooms[i] && rooms[i] in rooms;
        }
      }
    }
  }

  lemma StopEventsStep(typing: TypingMap, rooms: seq<RoomId>, i: nat, socketId: SocketId, u: UserId)
    requires i < |rooms|
    ensures StopEvents(typing, rooms[..i + 1], socketId, u) == StopEvents(typing, rooms[..i], socketId, u) + StopEvent(typing, rooms[i], socketId, u)
  {
    assert rooms[..i + 1][..i] == rooms[..i];
  }

  /** Once every room of the order has been visited, every room has been
      cleared. */
  lemma ClearedEverywhere(typing0: TypingMap, typing: TypingMap, rooms: seq<RoomId>, u: UserId)
    requires RoomOrder(rooms, typing0)
    requires typing.Keys == typing0.Keys
    requires forall j :: 0 <= j < |rooms| ==> typing[rooms[j]] == RemoveTypist(typing0[rooms[j]], u)
    ensures typing == StopTypingEverywhere(typing0, u)
  {
    forall r | r in typing0 ensures typing[r] == RemoveTypist(typing0[r], u) {
      var j :| 0 <= j < |rooms| && rooms[j] == r;
    }
  }

  /** The rooms before position `i` have lost the user's entry, the others
      are as they were. */
  predicate ClearedUpTo(typing0: TypingMap, typing: TypingMap, rooms: seq<RoomId>, i: nat, u: UserId)
    requires forall j :: 0 <= j < |rooms| ==> rooms[j] in typing0
  {
    && typing.Keys == typing0.Keys
    && (forall j :: 0 <= j < |rooms| ==>
         typing[rooms[j]] == if j < i then RemoveTypist(typing0[rooms[j]], u) else typing0[rooms[j]])
  }

  /** One turn of the disconnect loop: clearing room `i` extends the cleared
      prefix by one. */
  lemma ClearStep(typing0: TypingMap, typing: TypingMap, rooms: seq<RoomId>, i: nat, u: UserId)
    requires forall j :: 0 <= j < |rooms| ==> rooms[j] in typing0
    requires forall a, b :: 0 <= a < b < |rooms| ==> rooms[a] != rooms[b]
    requires i < |rooms| && ClearedUpTo(typing0, typing, rooms, i, u)
    ensures typing[rooms[i]] == typing0[rooms[i]]
    ensures ClearedUpTo(typing0, typing[rooms[i] := RemoveTypist(typing[rooms[i]], u)], rooms, i + 1, u)
  {
    var t := typing[rooms[i] := RemoveTypist(typing[rooms[i]], u)];
    forall j | 0 <= j < |rooms|
      ensures t[rooms[j]] == if j < i + 1 then RemoveTypist(typing0[rooms[j]], u) else typing0[rooms[j]]
    {
      if j != i {
        assert rooms[j] != rooms[i];
      }
    }
  }

  /** The loop of the disconnect handler (server.js:384-393): for each of
      the rooms, in order, the user's entry is deleted and the room told. */
  method ClearTypingEverywhere(typing0: TypingMap, rooms: seq<RoomId>, socketId: SocketId, u: UserId)
    returns (typing: TypingMap, sent: seq<Emit>)
    requires forall j :: 0 <= j < |rooms| ==> rooms[j] in typing0
    requires forall i, j :: 0 <= i < j < |rooms| ==> rooms[i] != rooms[j]
    ensures typing.Keys == typing0.Keys
    ensures forall j :: 0 <= j < |rooms| ==> typing[rooms[j]] == RemoveTypist(typing0[rooms[j]], u)
    ensures sent == StopEvents(typing0, rooms, socketId, u)
  {
    typing := typing0;
    sent := [];
    for i := 0 to |rooms|
      invariant ClearedUpTo(typing0, typing, rooms, i, u)
      invariant sent == StopEvents(typing0, rooms[..i], socketId, u)
    {
      var roomId := rooms[i];
      StopEventsStep(typing0, rooms, i, socketId, u);
      ClearStep(typing0, typing, rooms, i, u);
      var userTyping := FindTypist(typing[roomId], u);
      if userTyping >= 0 {
        typing := typing[roomId := RemoveTypist(typing[roomId], u)];
        sent := sent + [Emit(ToRoomExcept(roomId, socketId), UserStoppedTyping(u, roomId))];
      } else {
        assert typing[roomId := RemoveTypist(typing[roomId], u)] == typing;
      }
    }
    assert rooms[..|rooms|] == rooms;
  }

  class ChatServer {
    var onlineUsers: OnlineMap
    var userSockets: SocketMap
    var typingUsers: TypingMap
    /** The keys of `typingUsers` in insertion order. */
    var typingRooms: seq<RoomId>
    /** The typing timers armed and not yet fired. */
    var timers: multiset<Timer>
    /** Every event emitted so far. */
    var outbox: seq<Emit>

    predicate Valid()
      reads this
    {
      OnePerUserPerRoom(typingUsers) && RoomOrder(typingRooms, typingUsers)
    }

    constructor ()
      ensures Valid()
      ensures onlineUsers == map[] && userSockets == map[] && typingUsers == map[]
      ensures typingRooms == [] && timers == multiset{} && outbox == []
    {
      onlineUsers, userSockets, typingUsers := map[], map[], map[];
      typingRooms, timers, outbox := [], multiset{}, [];
    }

    /** The `connection` handler (server.js:146-169). */
    method OnConnection(s: Session, now: nat)
      requires Valid()
      modifies this
      ensures Valid()
      ensures Registry(onlineUsers, userSockets) == Presence.Connect(old(Registry(onlineUsers, userSockets)), s, now)
      ensures typingUsers == old(typingUsers) && typingRooms == old(typingRooms) && timers == old(timers)
      ensures OnlineUser(s.userId, s.userName, now) in Snapshot(onlineUsers)
      ensures outbox == old(outbox) + [
        Emit(AllExcept(s.socketId), UserOnline(s.userId, s.userName)),
        Emit(ToSocket(s.socketId), OnlineUsersList(Snapshot(onlineUsers)))]
    {
      onlineUsers := onlineUsers[s.userId := PresenceEntry(s.socketId, s.userName, now)];
      userSockets := userSockets[s.socketId := s.userId];
      outbox := outbox + [Emit(AllExcept(s.socketId), UserOnline(s.userId, s.userName))];
      outbox := outbox + [Emit(ToSocket(s.socketId), OnlineUsersList(Snapshot(onlineUsers)))];
    }

    /** Removes `u`'s typing entry from `room`, if any, and tells the room. */
    method StopTypingIn(room: RoomId, socketId: SocketId, u: UserId)
      requires Valid()
      modifies this
      ensures Valid()
      ensures typingUsers == StopTyping(old(typingUsers), room, u)
      ensures outbox == old(outbox) + StopEvent(old(typingUsers), room, socketId, u)
      ensures onlineUsers == old(onlineUsers) && userSockets == old(userSockets)
      ensures typingRooms == old(typingRooms) && timers == old(timers)
    {
      StopTypingKeepsOnePerUser(typingUsers, room, u);
      StopTypingKeepsRoomOrder(typingRooms, typingUsers, room, u);
      StopTypingCases(typingUsers, room, u);
      var rooms := typingUsers;
      var sent: seq<Emit> := [];
      if room in rooms {
        var typing := rooms[room];
        var userTyping := FindTypist(typing, u);
        if userTyping >= 0 {
          rooms := rooms[room := RemoveTypist(typing, u)];
          sent := [Emit(ToRoomExcept(room, socketId), UserStoppedTyping(u, room))];
        }
      }
      typingUsers := rooms;
      outbox := outbox + sent;
    }

    /** `leave-room` (server.js:177-193); room membership itself is not
        modelled. */
    method OnLeaveRoom(s: Session, room: RoomId)
      requires Valid()
      modifies this
      ensures Valid()
      ensures typingUsers == StopTyping(old(typingUsers), room, s.userId)
      ensures !IsTyping(typingUsers, room, s.userId)
      ensures outbox == old(outbox) + StopEvent(old(typingUsers), room, s.socketId, s.userId)
      ensures onlineUsers == old(onlineUsers) && userSockets == old(userSockets)
      ensures typingRooms == old(typingRooms) && timers == old(timers)
    {
      StopTypingIn(room, s.socketId, s.userId);
    }

    /** `user-stopped-typing` (server.js:300-314). */
    method OnUserStoppedTyping(s: Session, room: RoomId)
      requires Valid()
      modifies this
      ensures Valid()
      ensures typingUsers == StopTyping(old(typingUsers), room, s.userId)
      ensures !IsTyping(typingUsers, room, s.userId)
      ensures outbox == old(outbox) + StopEvent(old(typingUsers), room, s.socketId, s.userId)
      ensures onlineUsers == old(onlineUsers) && userSockets == old(userSockets)
      ensures typingRooms == old(typingRooms) && timers == old(timers)
    {
      StopTypingIn(room, s.socketId, s.userId);
    }

    /** Creates the room's empty typing set when it has none
        (server.js:268-270). */
    method OpenRoom(room: RoomId)
      requires Valid()
      modifies this
      ensures Valid()
      ensures room in old(typingUsers) ==> typingUsers == old(typingUsers) && typingRooms == old(typingRooms)
      ensures room !in old(typingUsers) ==> typingUsers == old(typingUsers)[room := []] && typingRooms == old(typingRooms) + [room]
      ensures onlineUsers == old(onlineUsers) && userSockets == old(userSockets)
      ensures timers == old(timers) && outbox == old(outbox)
    {
      if room !in typingUsers {
        StartTypingExtendsRoomOrder(typingRooms, typingUsers, room, Typist("", ""));
        assert StartTyping(typingUsers, room, Typist("", "")).Keys == (typingUsers[room := []]).Keys;
        typingUsers := typingUsers[room := []];
        typingRooms := typingRooms + [room];
      }
    }

    /** `user-typing` (server.js:265-298). The name shown is the one the
        client sends, and a new timer is armed on every event. */
    method OnUserTyping(s: Session, room: RoomId, userName: string)
      requires Valid()
      modifies this
      ensures Valid()
      ensures typingUsers == StartTyping(old(typingUsers), room, Typist(s.userId, userName))
      ensures IsTyping(typingUsers, room, s.userId)
      ensures typingRooms == old(typingRooms) + (if room in old(typingUsers) then [] else [room])
      ensures outbox == old(outbox) +
        (if IsTyping(old(typingUsers), room, s.userId) then []
         else [Emit(ToRoomExcept(room, s.socketId), UserTyping(s.userId, userName, room))])
      ensures timers == old(timers) + multiset{Timer(s.socketId, s.userId, room)}
      ensures onlineUsers == old(onlineUsers) && userSockets == old(userSockets)
    {
      StartTypingInSteps(typingUsers, room, Typist(s.userId, userName));
      OpenRoom(room);
      var typing := typingUsers[room];
      var existingTyping := FindTypist(typing, s.userId);
      if existingTyping < 0 {
        AddTypistKeepsOnePerUser(typing, Typist(s.userId, userName));
        typingUsers := typingUsers[room := typing + [Typist(s.userId, userName)]];
        outbox := outbox + [Emit(ToRoomExcept(room, s.socketId), UserTyping(s.userId, userName, room))];
      }
      timers := timers + multiset{Timer(s.socketId, s.userId, room)};
    }

    /** A typing timer fires (server.js:285-297): it clears the entry of the
        user it was armed for, whenever that entry was made. */
    method OnTypingTimer(t: Timer)
      requires Valid() && t in timers
      modifies this
      ensures Valid()
      ensures timers == old(timers) - multiset{t}
      ensures typingUsers == StopTyping(old(typingUsers), t.room, t.userId)
      ensures !IsTyping(typingUsers, t.room, t.userId)
      ensures outbox == old(outbox) + StopEvent(old(typingUsers), t.room, t.socketId, t.userId)
      ensures onlineUsers == old(onlineUsers) && userSockets == old(userSockets) && typingRooms == old(typingRooms)
    {
      timers := timers - multiset{t};
      StopTypingIn(t.room, t.socketId, t.userId);
      StopTypingKeepsOnePerUser(old(typingUsers), t.room, t.userId);
    }

    /** Timers are never cancelled (server.js:285-297): after two `user-typing`
        signals and the expiry of the first timer, the user is shown as not
        typing although the timer of the second signal is still pending. */
    method TypeTwiceFirstTimerFires(s: Session, room: RoomId, userName: string)
      requires Valid()
      modifies this
      ensures Valid()
      ensures !IsTyping(typingUsers, room, s.userId)
      ensures Timer(s.socketId, s.userId, room) in timers
      ensures timers == old(timers) + multiset{Timer(s.socketId, s.userId, room)}
    {
      var t := Timer(s.socketId, s.userId, room);
      ghost var before := timers;
      OnUserTyping(s, room, userName);
      OnUserTyping(s, room, userName);
      ghost var armed := timers;
      OnTypingTimer(t);
      ArmTwiceFireOnce(before, armed, timers, t);
    }

    /** `user-activity` (server.js:317-329). */
    method OnUserActivity(s: Session, now: nat)
      requires Valid()
      modifies this
      ensures Valid()
      ensures onlineUsers == Touch(old(onlineUsers), s.userId, now)
      ensures outbox == old(outbox) +
        (if s.userId in old(onlineUsers) then [Emit(AllExcept(s.socketId), UserActivity(s.userId, now))] else [])
      ensures userSockets == old(userSockets) && typingUsers == old(typingUsers)
      ensures typingRooms == old(typingRooms) && timers == old(timers)
    {
      if s.userId in onlineUsers {
        var userData := onlineUsers[s.userId];
        userData := userData.(lastActivity := now);
        onlineUsers := onlineUsers[s.userId := userData];
        outbox := outbox + [Emit(AllExcept(s.socketId), UserActivity(s.userId, userData.lastActivity))];
      }
    }

    /** `start-private-chat` (server.js:400-415): the target is told only
        when online, at the socket of their latest connection. */
    method OnStartPrivateChat(s: Session, target: UserId)
      requires Valid()
      modifies this
      ensures Valid()
      ensures outbox == old(outbox) +
        (if target in onlineUsers
         then [Emit(ToSocket(onlineUsers[target].socketId), PrivateChatStarted(PrivateRoom(s.userId, target), s.userId, s.userName))]
         else [])
      ensures onlineUsers == old(onlineUsers) && userSockets == old(userSockets) && typingUsers == old(typingUsers)
      ensures typingRooms == old(typingRooms) && timers == old(timers)
    {
      var roomId := PrivateRoom(s.userId, target);
      if target in onlineUsers {
        var targetUser := onlineUsers[target];
        outbox := outbox + [Emit(ToSocket(targetUser.socketId), PrivateChatStarted(roomId, s.userId, s.userName))];
      }
    }

    /** `message-delivered` (server.js:196-226). */
    method OnMessageDelivered(s: Session, store: MessageStore, idArg: Option<MessageId>, now: nat)
      requires Valid() && store.Valid()
      modifies this, store
      ensures Valid() && store.Valid() && store.nextId == old(store.nextId)
      ensures idArg.None? || idArg.value !in old(store.messages) ==>
        store.messages == old(store.messages) && outbox == old(outbox)
      ensures idArg.Some? && idArg.value in old(store.messages) ==>
        var m' := SocketDelivered(old(store.messages)[idArg.value], now);
        && store.messages == old(store.messages)[idArg.value := m']
        && outbox == old(outbox) + RoomEmits(m', [StatusUpdated(m'.id, true, false, now)])
      ensures onlineUsers == old(onlineUsers) && userSockets == old(userSockets) && typingUsers == old(typingUsers)
      ensures typingRooms == old(typingRooms) && timers == old(timers)
    {
      var message := store.MarkDeliveredBySocket(idArg, now);
      if message.Some? {
        outbox := outbox + RoomEmits(message.value, [StatusUpdated(message.value.id, true, false, now)]);
      }
    }

    /** `message-read` (server.js:228-262): any connected user may mark any
        message read, and `delivered` is left alone. */
    method OnMessageRead(s: Session, store: MessageStore, idArg: Option<MessageId>, now: nat)
      requires Valid() && store.Valid()
      modifies this, store
      ensures Valid() && store.Valid() && store.nextId == old(store.nextId)
      ensures idArg.None? || idArg.value !in old(store.messages) ==>
        store.messages == old(store.messages) && outbox == old(outbox)
      ensures idArg.Some? && idArg.value in old(store.messages) ==>
        var m' := SocketRead(old(store.messages)[idArg.value], now);
        && store.messages == old(store.messages)[idArg.value := m']
        && outbox == old(outbox) + RoomEmits(m', [MessageRead(m'.id, s.userId), StatusUpdated(m'.id, false, true, now)])
      ensures onlineUsers == old(onlineUsers) && userSockets == old(userSockets) && typingUsers == old(typingUsers)
      ensures typingRooms == old(typingRooms) && timers == old(timers)
    {
      var message := store.MarkReadBySocket(idArg, now);
      if message.Some? {
        outbox := outbox + RoomEmits(message.value, [MessageRead(message.value.id, s.userId), StatusUpdated(message.value.id, false, true, now)]);
      }
    }

    /** `message-reaction` (server.js:332-373): one record appended when
        the message exists and its reactions are still an array. */
    method OnMessageReaction(s: Session, store: MessageStore, idArg: Option<MessageId>, emoji: string, now: nat)
      requires Valid() && store.Valid()
      modifies this, store
      ensures Valid() && store.Valid() && store.nextId == old(store.nextId)
      ensures var pushes := idArg.Some? && idArg.value in old(store.messages)
                            && old(store.messages)[idArg.value].reactions.ReactionList?;
        && (!pushes ==> store.messages == old(store.messages) && outbox == old(outbox))
        && (pushes ==>
          var m := old(store.messages)[idArg.value];
          && store.messages == old(store.messages)[idArg.value :=
               m.(reactions := ReactionList(m.reactions.records + [ReactionRecord(s.userId, s.userName, emoji, now)]))]
          && outbox == old(outbox) + RoomEmits(m, [ReactionAdded(m.id, emoji, s.userId, s.userName)]))
      ensures onlineUsers == old(onlineUsers) && userSockets == old(userSockets) && typingUsers == old(typingUsers)
      ensures typingRooms == old(typingRooms) && timers == old(timers)
    {
      var reaction := ReactionRecord(s.userId, s.userName, emoji, now);
      var message := store.PushReactionBySocket(idArg, reaction);
      if message.Some? {
        outbox := outbox + RoomEmits(message.value, [ReactionAdded(message.value.id, emoji, s.userId, s.userName)]);
      }
    }

    /** `disconnect` (server.js:376-397): the user goes offline whichever
        socket their entry records, and their typing entry is cleared in
        every room, in the Map's order. Timers stay armed. */
    method OnDisconnect(s: Session)
      requires Valid()
      modifies this
      ensures Valid()
      ensures Registry(onlineUsers, userSockets) == Presence.Disconnect(old(Registry(onlineUsers, userSockets)), s)
      ensures typingUsers == StopTypingEverywhere(old(typingUsers), s.userId)
      ensures forall room :: !IsTyping(typingUsers, room, s.userId)
      ensures outbox == old(outbox) + StopEvents(old(typingUsers), old(typingRooms), s.socketId, s.userId)
                        + [Emit(AllExcept(s.socketId), UserOffline(s.userId))]
      ensures typingRooms == old(typingRooms) && timers == old(timers)
    {
      StopTypingEverywhereKeepsOnePerUser(typingUsers, s.userId);
      onlineUsers := onlineUsers - {s.userId};
      userSockets := userSockets - {s.socketId};
      var typing, sent := ClearTypingEverywhere(typingUsers, typingRooms, s.socketId, s.userId);
      ClearedEverywhere(typingUsers, typing, typingRooms, s.userId);
      typingUsers := typing;
      outbox := outbox + sent;
      outbox := outbox + [Emit(AllExcept(s.socketId), UserOffline(s.userId))];
    }
  }
}
