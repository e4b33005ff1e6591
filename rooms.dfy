/** The room router: the name of the fan-out group an event is sent to. Group
    chats use a constant room; a private conversation uses the two participant
    ids sorted and joined with '-'. Three copies of the rule exist in the
    source and they differ in how they treat a message whose `chatType` and
    `recipientId` do not match; each is modelled as written. */
module Rooms {
  import opened Base

  const CommunityRoom: RoomId := "community"
  const AdminRoom: RoomId := "admin"
  const Separator: char := '-'

  /** The order JavaScript's default `sort` puts strings in: character by
      character, a proper prefix before any of its extensions. */
  predicate StrLe(a: string, b: string)
    decreases |a|
  {
    a == [] || (b != [] && (a[0] < b[0] || (a[0] == b[0] && StrLe(a[1..], b[1..]))))
  }

  lemma {:induction false} StrLeTotal(a: string, b: string)
    ensures StrLe(a, b) || StrLe(b, a)
    decreases |a|
  {
    if a != [] && b != [] && a[0] == b[0] {
      StrLeTotal(a[1..], b[1..]);
    }
  }

  lemma {:induction false} StrLeAntisymmetric(a: string, b: string)
    requires StrLe(a, b) && StrLe(b, a)
    ensures a == b
    decreases |a|
  {
    if a != [] {
      StrLeAntisymmetric(a[1..], b[1..]);
      assert a == [a[0]] + a[1..] && b == [b[0]] + b[1..];
    }
  }

  /** `[a, b].sort().join('-')`: the room of the private conversation
      between `a` and `b` (server.js:208, server.js:401). */
  function PrivateRoom(a: UserId, b: UserId): (room: RoomId)
    ensures room == a + [Separator] + b || room == b + [Separator] + a
    ensures |room| == |a| + |b| + 1
  {
    if StrLe(a, b) then a + [Separator] + b else b + [Separator] + a
  }

  /** Both participants compute the same room, whatever the argument order. */
  lemma PrivateRoomSymmetric(a: UserId, b: UserId)
    ensures PrivateRoom(a, b) == PrivateRoom(b, a)
  {
    StrLeTotal(a, b);
    if StrLe(a, b) && StrLe(b, a) {
      StrLeAntisymmetric(a, b);
    }
  }

  predicate DashFree(s: string) {
    Separator !in s
  }

  /** A string split at a separator that occurs in neither part splits in only
      one way. */
  lemma SplitAtSeparatorUnique(x: string, y: string, x': string, y': string)
    requires DashFree(x) && DashFree(x')
    requires x + [Separator] + y == x' + [Separator] + y'
    ensures x == x' && y == y'
  {
    var s := x + [Separator] + y;
    assert s[|x|] == Separator && s[|x'|] == Separator;
    assert forall i :: 0 <= i < |x| ==> s[i] == x[i] != Separator;
    assert forall i :: 0 <= i < |x'| ==> s[i] == x'[i] != Separator;
    assert |x| == |x'|;
    assert x == s[..|x|] == x';
    assert y == s[|x| + 1..] == y';
  }

  /** For ids without '-' (such as hexadecimal ObjectIds) the room names the
      unordered pair of participants: two conversations share a room only if
      they have the same two participants. */
  lemma PrivateRoomDeterminesPair(a: UserId, b: UserId, c: UserId, d: UserId)
    requires DashFree(a) && DashFree(b) && DashFree(c) && DashFree(d)
    requires PrivateRoom(a, b) == PrivateRoom(c, d)
    ensures (a == c && b == d) || (a == d && b == c)
  {
    var lo1, hi1 := if StrLe(a, b) then a else b, if StrLe(a, b) then b else a;
    var lo2, hi2 := if StrLe(c, d) then c else d, if StrLe(c, d) then d else c;
    assert PrivateRoom(a, b) == lo1 + [Separator] + hi1;
    assert PrivateRoom(c, d) == lo2 + [Separator] + hi2;
    SplitAtSeparatorUnique(lo1, hi1, lo2, hi2);
  }

  /** A private room never coincides with one of the two group rooms, since it
      always contains the separator and they do not. */
  lemma PrivateRoomIsNotAGroupRoom(a: UserId, b: UserId)
    ensures PrivateRoom(a, b) != CommunityRoom && PrivateRoom(a, b) != AdminRoom
  {
    var room := PrivateRoom(a, b);
    var lo := if StrLe(a, b) then a else b;
    assert room[|lo|] == Separator;
    assert Separator !in CommunityRoom && Separator !in AdminRoom;
  }

  /** The room a socket status or reaction broadcast goes to
      (server.js:206-213, repeated at 238-245 and 352-359). A private message
      without a recipient, or a message of any other chat type, has no room
      and its update is not broadcast. */
  function StatusRoom(chatType: ChatType, authorId: UserId, recipientId: Option<UserId>): (room: Option<RoomId>)
    ensures room.Some? <==> chatType in {Community, AdminChat} || (chatType == Private && Truthy(recipientId))
    ensures chatType == Community ==> room == Some(CommunityRoom)
    ensures chatType == AdminChat ==> room == Some(AdminRoom)
    ensures chatType == Private && Truthy(recipientId) ==> room == Some(PrivateRoom(authorId, recipientId.value))
  {
    if chatType == Private && Truthy(recipientId) then Some(PrivateRoom(authorId, recipientId.value))
    else if chatType == Community then Some(CommunityRoom)
    else if chatType == AdminChat then Some(AdminRoom)
    else None
  }

  /** The room `createMessage` emits `new-message` to
      (controllers/message.controller.js:162-171): the chat type is tested
      first, then the recipient, and "community" is the fallback. */
  function CreatedRoom(chatType: ChatType, authorId: UserId, recipientId: Option<UserId>): (room: RoomId)
    ensures chatType == AdminChat ==> room == AdminRoom
    ensures chatType == Community ==> room == CommunityRoom
    ensures chatType !in {AdminChat, Community} && Truthy(recipientId) ==> room == PrivateRoom(authorId, recipientId.value)
    ensures chatType !in {AdminChat, Community} && !Truthy(recipientId) ==> room == CommunityRoom
  {
    if chatType == AdminChat then AdminRoom
    else if chatType == Community then CommunityRoom
    else if Truthy(recipientId) then PrivateRoom(authorId, recipientId.value)
    else CommunityRoom
  }

  /** The room the HTTP read receipt goes to
      (controllers/message.controller.js:239-246): as for `createMessage`
      but without the fallback. */
  function ReceiptRoom(chatType: ChatType, authorId: UserId, recipientId: Option<UserId>): (room: Option<RoomId>)
    ensures room.None? <==> chatType !in {AdminChat, Community} && !Truthy(recipientId)
    ensures room.Some? ==> room.value == CreatedRoom(chatType, authorId, recipientId)
  {
    if chatType == AdminChat then Some(AdminRoom)
    else if chatType == Community then Some(CommunityRoom)
    else if Truthy(recipientId) then Some(PrivateRoom(authorId, recipientId.value))
    else None
  }

  /** The three rules agree on every well-scoped message: a group message, or
      a private message that names its recipient. */
  lemma RoomRulesAgree(chatType: ChatType, authorId: UserId, recipientId: Option<UserId>)
    requires chatType in {Community, AdminChat} || (chatType == Private && Truthy(recipientId))
    ensures StatusRoom(chatType, authorId, recipientId) == Some(CreatedRoom(chatType, authorId, recipientId))
    ensures ReceiptRoom(chatType, authorId, recipientId) == Some(CreatedRoom(chatType, authorId, recipientId))
  {
  }

  /** Where they differ: a message with a recipient but an unknown chat type
      is routed to the pair's room by the HTTP handlers, while the socket
      handlers find no room for it; a private message without a recipient is
      sent to "community" on creation and then never routed again. */
  lemma RoomRulesDiverge(authorId: UserId, recipient: UserId)
    requires recipient != ""
    ensures StatusRoom(OtherType, authorId, Some(recipient)) == None
    ensures ReceiptRoom(OtherType, authorId, Some(recipient)) == Some(PrivateRoom(authorId, recipient))
    ensures CreatedRoom(Private, authorId, None) == CommunityRoom
    ensures StatusRoom(Private, authorId, None) == None && ReceiptRoom(Private, authorId, None) == None
  {
  }

  /** Every rule routes a private message to the same room whichever of the
      two participants is its author. */
  lemma RoomRulesSymmetric(chatType: ChatType, a: UserId, b: UserId)
    requires a != "" && b != ""
    ensures StatusRoom(chatType, a, Some(b)) == StatusRoom(chatType, b, Some(a))
    ensures CreatedRoom(chatType, a, Some(b)) == CreatedRoom(chatType, b, Some(a))
    ensures ReceiptRoom(chatType, a, Some(b)) == ReceiptRoom(chatType, b, Some(a))
  {
    PrivateRoomSymmetric(a, b);
  }
}
