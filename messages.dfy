/** A chat message as stored in the `messages` collection, the record
    `createMessage` builds for it, and the delivered/read transitions and
    guards of the HTTP and socket handlers. */
module Messages {
  import opened Base
  import opened Rooms
  import opened Reactions

  /** The store assigns ids; the model numbers them in insertion order. */
  type MessageId = nat

  /** A stored timestamp in milliseconds, with the BSON type it is stored
      as: `created_at` is ISO-8601 text (`new Date().toISOString()`), the
      read watermarks are dates. */
  datatype Stamp = IsoText(ms: nat) | BsonDate(ms: nat)

  datatype Message = Message(
    id: MessageId,
    chatType: ChatType,
    authorId: UserId,
    recipientId: Option<UserId>,
    content: string,
    createdAt: Stamp,
    delivered: bool,
    deliveredAt: Option<nat>,
    read: bool,
    readAt: Option<nat>,
    reactions: Reactions)

  /** The body of `POST /api/messages`. A client may also send the fields the
      server owns; the `claimed` ones are overridden, while `deliveredAt`
      and `readAt` pass through the spread untouched. */
  datatype Draft = Draft(
    chatType: ChatType,
    recipientId: Option<UserId>,
    content: string,
    claimedAuthorId: Option<UserId>,
    claimedCreatedAt: Option<Stamp>,
    claimedDelivered: Option<bool>,
    claimedRead: Option<bool>,
    claimedReactions: Option<Reactions>,
    deliveredAt: Option<nat>,
    readAt: Option<nat>)

  /** `req.user` as the message controllers read it. */
  datatype Caller = Caller(id: UserId, role: string, lastCommunityRead: Option<nat>, lastAdminRead: Option<nat>)

  type Store = map<MessageId, Message>

  /** Only Admin and Super-Admin may post to the admin chat
      (controllers/message.controller.js:151-156). */
  predicate MayPost(caller: Caller, draft: Draft) {
    draft.chatType != AdminChat || IsAdminRole(caller.role)
  }

  /** `newMessageData` with its store id
      (controllers/message.controller.js:141-148, 159). */
  function Compose(id: MessageId, caller: Caller, draft: Draft, now: nat): (m: Message)
    ensures m.id == id && m.authorId == caller.id && m.createdAt == IsoText(now)
    ensures !m.delivered && !m.read && m.reactions == ReactionList([])
    ensures m.chatType == draft.chatType && m.recipientId == draft.recipientId && m.content == draft.content
  {
    Message(id, draft.chatType, caller.id, draft.recipientId, draft.content, IsoText(now),
            false, draft.deliveredAt, false, draft.readAt, ReactionList([]))
  }

  /** A group message is marked delivered as soon as it is stored
      (controllers/message.controller.js:176-184). */
  function Acknowledged(m: Message, now: nat): (r: Message)
    ensures r.delivered <==> m.delivered || m.chatType in {Community, AdminChat}
    ensures r == m || r == m.(delivered := true, deliveredAt := Some(now))
  {
    if m.chatType in {Community, AdminChat} then m.(delivered := true, deliveredAt := Some(now)) else m
  }

  /** Whatever server-owned fields the client sends, the created message is
      the same: authored by the caller, unread, with no reactions, and
      delivered exactly when it is a group message. */
  lemma CreatedMessageIgnoresClaims(id: MessageId, caller: Caller, d1: Draft, d2: Draft, now: nat)
    requires d1.chatType == d2.chatType && d1.recipientId == d2.recipientId && d1.content == d2.content
    requires d1.deliveredAt == d2.deliveredAt && d1.readAt == d2.readAt
    ensures Acknowledged(Compose(id, caller, d1, now), now) == Acknowledged(Compose(id, caller, d2, now), now)
    ensures var m := Acknowledged(Compose(id, caller, d1, now), now);
      && m.authorId == caller.id && !m.read && m.reactions == ReactionList([])
      && (m.delivered <==> d1.chatType in {Community, AdminChat})
  {
  }

  // ---- delivered / read transitions ----

  /** `PUT /api/messages/:messageId/delivered` sets only the flag
      (controllers/message.controller.js:198-201). */
  function HttpDelivered(m: Message): (r: Message)
    ensures r.delivered && r.read == m.read
  {
    m.(delivered := true)
  }

  /** `PUT /api/messages/:messageId/read` sets both flags and both timestamps
      (controllers/message.controller.js:226-236). */
  function HttpRead(m: Message, now: nat): (r: Message)
    ensures r.read && r.delivered
  {
    m.(read := true, delivered := true, readAt := Some(now), deliveredAt := Some(now))
  }

  /** The socket `message-delivered` update (server.js:199-202). */
  function SocketDelivered(m: Message, now: nat): (r: Message)
    ensures r.delivered && r.read == m.read
  {
    m.(delivered := true, deliveredAt := Some(now))
  }

  /** The socket `message-read` update (server.js:231-234): `delivered` is
      left as it was. */
  function SocketRead(m: Message, now: nat): (r: Message)
    ensures r.read && r.delivered == m.delivered
  {
    m.(read := true, readAt := Some(now))
  }

  /** What never changes once a message is stored: the status transitions
      touch only the status fields. */
  predicate SameMessage(m: Message, m': Message) {
    m'.id == m.id && m'.chatType == m.chatType && m'.authorId == m.authorId
    && m'.recipientId == m.recipientId && m'.content == m.content
    && m'.createdAt == m.createdAt && m'.reactions == m.reactions
  }

  /** No transition moves a flag backwards, each leaves the message itself
      alone, and repeating one only renews its timestamps. */
  lemma TransitionsMonotoneAndIdempotent(m: Message, t1: nat, t2: nat)
    ensures forall r :: r in {HttpDelivered(m), HttpRead(m, t1), SocketDelivered(m, t1), SocketRead(m, t1)} ==>
      SameMessage(m, r) && (m.delivered ==> r.delivered) && (m.read ==> r.read)
    ensures HttpDelivered(HttpDelivered(m)) == HttpDelivered(m)
    ensures HttpRead(HttpRead(m, t1), t2) == HttpRead(m, t2)
    ensures SocketDelivered(SocketDelivered(m, t1), t2) == SocketDelivered(m, t2)
    ensures SocketRead(SocketRead(m, t1), t2) == SocketRead(m, t2)
  {
  }

  /** "Read implies delivered": kept by every HTTP transition and by the
      socket delivery receipt. */
  predicate ReadImpliesDelivered(m: Message) {
    m.read ==> m.delivered
  }

  lemma HttpPathKeepsReadImpliesDelivered(m: Message, now: nat)
    requires ReadImpliesDelivered(m)
    ensures ReadImpliesDelivered(HttpDelivered(m))
    ensures ReadImpliesDelivered(HttpRead(m, now))
    ensures ReadImpliesDelivered(SocketDelivered(m, now))
  {
  }

  /** The socket read receipt can break it: an undelivered private message
      read over the socket is read but not delivered. */
  lemma SocketReadLeavesUndelivered(m: Message, now: nat)
    requires !m.delivered
    ensures SocketRead(m, now).read && !SocketRead(m, now).delivered
    ensures !ReadImpliesDelivered(SocketRead(m, now))
  {
  }

  // ---- guards ----

  /** Who may mark a message read over HTTP
      (controllers/message.controller.js:221-224): when the message has a
      recipient, only its recipient or its author; otherwise anyone. */
  predicate MayMarkRead(m: Message, userId: UserId) {
    !Truthy(m.recipientId) || m.recipientId.value == userId || m.authorId == userId
  }

  /** The guard chain of `markMessageAsRead`
      (controllers/message.controller.js:216-224). `None` stands for an id
      that is not a valid ObjectId: its constructor throws and the handler
      answers 500. */
  function ReadCheck(store: Store, idArg: Option<MessageId>, userId: UserId): (r: Result<Message>)
    ensures r == Err(ServerError) <==> idArg.None?
    ensures r == Err(NotFound) <==> idArg.Some? && idArg.value !in store
    ensures r == Err(Forbidden) <==> idArg.Some? && idArg.value in store && !MayMarkRead(store[idArg.value], userId)
    ensures r.Ok? <==> idArg.Some? && idArg.value in store && MayMarkRead(store[idArg.value], userId)
    ensures r.Ok? ==> r.value == store[idArg.value]
  {
    match idArg
    case None => Err(ServerError)
    case Some(id) =>
      if id !in store then Err(NotFound)
      else if !MayMarkRead(store[id], userId) then Err(Forbidden)
      else Ok(store[id])
  }

  /** On a message with a recipient the read guard admits exactly its two
      participants; on one without, it admits every caller. */
  lemma ReadCheckAdmitsParticipants(store: Store, id: MessageId, userId: UserId)
    requires id in store
    ensures Truthy(store[id].recipientId) ==>
      (ReadCheck(store, Some(id), userId).Ok? <==> userId in {store[id].authorId, store[id].recipientId.value})
    ensures !Truthy(store[id].recipientId) ==> ReadCheck(store, Some(id), userId).Ok?
  {
  }

  /** The guard of `addReaction` (controllers/message.controller.js:272-275). */
  function ReactionCheck(store: Store, idArg: Option<MessageId>): (r: Result<Message>)
    ensures r == Err(ServerError) <==> idArg.None?
    ensures r == Err(NotFound) <==> idArg.Some? && idArg.value !in store
    ensures r.Ok? ==> idArg.Some? && idArg.value in store && r.value == store[idArg.value]
  {
    match idArg
    case None => Err(ServerError)
    case Some(id) => if id in store then Ok(store[id]) else Err(NotFound)
  }

  /** The message the HTTP toggle stores, as written
      (controllers/message.controller.js:277-299). On an array the emoji
      entry becomes a named property of the array, which the BSON encoding
      of an array drops: the array is written back as it was. Only an
      object-form field is toggled. */
  function ReactedAsWritten(m: Message, emoji: string, userId: UserId): (r: Message)
    ensures m.reactions.ReactionList? ==> r == m
    ensures m.reactions.ReactionMap? ==> r == m.(reactions := ReactionMap(Toggle(m.reactions.byEmoji, emoji, userId)))
  {
    match m.reactions
    case ReactionList(_) => m
    case ReactionMap(byEmoji) => m.(reactions := ReactionMap(Toggle(byEmoji, emoji, userId)))
  }

  /** The message after the toggle as intended: an array field (which has no
      emoji entries) counts as the empty object, and the toggled object is
      stored. */
  function Reacted(m: Message, emoji: string, userId: UserId): (r: Message)
    ensures r.reactions.ReactionMap?
    ensures r == m.(reactions := ReactionMap(Toggle(EmojiView(m.reactions), emoji, userId)))
  {
    m.(reactions := ReactionMap(Toggle(EmojiView(m.reactions), emoji, userId)))
  }

  /** On every message `createMessage` stores (reactions `[]`) the HTTP
      reaction is lost as written, while the intended toggle records it; on
      an object-form field the two agree. */
  lemma ReactionOnArrayIsLost(m: Message, emoji: string, userId: UserId)
    ensures m.reactions.ReactionList? ==>
      && ReactedAsWritten(m, emoji, userId) == m
      && UsersOf(Reacted(m, emoji, userId).reactions.byEmoji, emoji) == [userId]
      && CountOf(Reacted(m, emoji, userId).reactions.byEmoji, emoji) == 1
    ensures m.reactions.ReactionMap? ==> ReactedAsWritten(m, emoji, userId) == Reacted(m, emoji, userId)
  {
    if m.reactions.ReactionList? {
      var empty: EmojiMap := map[];
      assert EntryFor(empty, emoji) == Reaction(0, []);
      var nobody: seq<UserId> := [];
      assert IndexOf(nobody, userId) == -1 && nobody + [userId] == [userId];
      assert ToggledEntry(Reaction(0, []), userId) == Some(Reaction(1, [userId]));
      assert Toggle(empty, emoji, userId) == map[emoji := Reaction(1, [userId])];
    }
  }

  /** A stored message whose reactions are well formed stays so after a
      toggle; a message fresh from `createMessage` qualifies. */
  predicate ReactionsWellFormed(m: Message) {
    m.reactions.ReactionMap? ==> WellFormed(m.reactions.byEmoji)
  }

  lemma ReactedKeepsWellFormed(m: Message, emoji: string, userId: UserId)
    requires ReactionsWellFormed(m)
    ensures ReactionsWellFormed(Reacted(m, emoji, userId))
  {
    ToggleKeepsWellFormed(EmojiView(m.reactions), emoji, userId);
  }
}
