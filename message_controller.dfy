/** The `messages` collection and the handlers that write to it: the HTTP
    controllers of controllers/message.controller.js and the three updates
    the socket handlers of server.js make. */
module MessageController {
  import opened Base
  import opened Rooms
  import opened Reactions
  import opened Messages
  import opened Feeds
  import opened Events

  /** The `{ success: true }` reply. */
  datatype Ack = Success

  /** The two events of an HTTP read receipt
      (controllers/message.controller.js:238-256): none when the message has
      no room. */
  function ReceiptEvents(m: Message, userId: UserId, now: nat): (sent: seq<Emit>)
    ensures ReceiptRoom(m.chatType, m.authorId, m.recipientId).None? <==> sent == []
    ensures sent != [] ==> var room := ToRoom(CreatedRoom(m.chatType, m.authorId, m.recipientId));
      sent == [Emit(room, MessageRead(m.id, userId)), Emit(room, StatusUpdated(m.id, true, true, now))]
  {
    match ReceiptRoom(m.chatType, m.authorId, m.recipientId)
    case None => []
    case Some(room) => [Emit(ToRoom(room), MessageRead(m.id, userId)), Emit(ToRoom(room), StatusUpdated(m.id, true, true, now))]
  }

  /** Every stored message sits under its own id, below the next id to be
      assigned, with a text `created_at` and well-formed object-form
      reactions. */
  predicate StoreInvariant(messages: Store, nextId: nat) {
    (forall k :: k in messages ==> k < nextId && messages[k].id == k && ReactionsWellFormed(messages[k]))
    && StoredAsText(messages)
  }

  /** Replacing a message by one with the same id, creation time and
      well-formed reactions keeps the invariant. */
  lemma ReplaceKeepsInvariant(messages: Store, nextId: nat, id: MessageId, m': Message)
    requires StoreInvariant(messages, nextId) && id in messages
    requires m'.id == id && m'.createdAt == messages[id].createdAt && ReactionsWellFormed(m')
    ensures StoreInvariant(messages[id := m'], nextId)
  {
  }

  /** The in-place edit of `addReaction` (controllers/message.controller.js:277-294):
      add an empty entry if needed, then remove the user with `splice` and
      decrement, deleting the key at zero, or append the user and
      increment. */
  method ApplyToggle(original: EmojiMap, emoji: string, userId: UserId) returns (reactions: EmojiMap)
    ensures reactions == Toggle(original, emoji, userId)
  {
    reactions := original;
    if emoji !in reactions {
      reactions := reactions[emoji := Reaction(0, [])];
    }
    var entry := reactions[emoji];
    assert entry == EntryFor(original, emoji);
    var userIndex := IndexOf(entry.users, userId);
    if userIndex > -1 {
      entry := Reaction(entry.count - 1, RemoveAt(entry.users, userIndex));
      if entry.count == 0 {
        assert ToggledEntry(EntryFor(original, emoji), userId) == None;
        reactions := reactions - {emoji};
        assert reactions == original - {emoji};
      } else {
        assert ToggledEntry(EntryFor(original, emoji), userId) == Some(entry);
        reactions := reactions[emoji := entry];
        assert reactions == original[emoji := entry];
      }
    } else {
      entry := Reaction(entry.count + 1, entry.users + [userId]);
      assert ToggledEntry(EntryFor(original, emoji), userId) == Some(entry);
      reactions := reactions[emoji := entry];
      assert reactions == original[emoji := entry];
    }
  }

  class MessageStore {
    var messages: Store
    /** The id the next insert receives. */
    var nextId: nat

    predicate Valid()
      reads this
    {
      StoreInvariant(messages, nextId)
    }

    constructor ()
      ensures Valid() && messages == map[] && nextId == 0
    {
      messages := map[];
      nextId := 0;
    }

    /** `POST /api/messages` (controllers/message.controller.js:137-191). The
        stored and returned message is the acknowledged one; the
        `new-message` event carries it as it was before the acknowledgement. */
    method CreateMessage(caller: Caller, draft: Draft, now: nat) returns (r: Result<Message>, sent: seq<Emit>)
      requires Valid()
      modifies this
      ensures Valid()
      ensures !MayPost(caller, draft) ==>
        r == Err(Forbidden) && sent == [] && messages == old(messages) && nextId == old(nextId)
      ensures MayPost(caller, draft) ==>
        var m := Compose(old(nextId), caller, draft, now);
        && old(nextId) !in old(messages)
        && r == Ok(Acknowledged(m, now))
        && messages == old(messages)[old(nextId) := Acknowledged(m, now)]
        && nextId == old(nextId) + 1
        && sent == [Emit(ToRoom(CreatedRoom(m.chatType, m.authorId, m.recipientId)), NewMessage(m))]
    {
      if draft.chatType == AdminChat && !IsAdminRole(caller.role) {
        r, sent := Err(Forbidden), [];
        return;
      }
      var id := nextId;
      var created := Compose(id, caller, draft, now);
      messages := messages[id := created];
      nextId := nextId + 1;
      sent := [Emit(ToRoom(CreatedRoom(created.chatType, created.authorId, created.recipientId)), NewMessage(created))];
      if created.chatType == Community || created.chatType == AdminChat {
        messages := messages[id := created.(delivered := true, deliveredAt := Some(now))];
        created := created.(delivered := true, deliveredAt := Some(now));
      }
      r := Ok(created);
    }

    /** `PUT /api/messages/:messageId/delivered` (controllers/message.controller.js:193-207):
        no identity check, and success even when no message has that id. */
    method MarkDelivered(idArg: Option<MessageId>) returns (r: Result<Ack>)
      requires Valid()
      modifies this
      ensures Valid() && nextId == old(nextId)
      ensures idArg.None? ==> r == Err(ServerError) && messages == old(messages)
      ensures idArg.Some? ==> r == Ok(Success) && messages.Keys == old(messages).Keys
      ensures idArg.Some? ==> forall k :: k in messages ==>
        messages[k] == if k == idArg.value then HttpDelivered(old(messages)[k]) else old(messages)[k]
    {
      if idArg.None? {
        return Err(ServerError);
      }
      var id := idArg.value;
      if id in messages {
        messages := messages[id := HttpDelivered(messages[id])];
      }
      r := Ok(Success);
    }

    /** `PUT /api/messages/:messageId/read` (controllers/message.controller.js:209-263). */
    method MarkRead(idArg: Option<MessageId>, userId: UserId, now: nat) returns (r: Result<Ack>, sent: seq<Emit>)
      requires Valid()
      modifies this
      ensures Valid() && nextId == old(nextId)
      ensures var check := ReadCheck(old(messages), idArg, userId);
        check.Err? ==> r == Err(check.error) && messages == old(messages) && sent == []
      ensures var check := ReadCheck(old(messages), idArg, userId);
        check.Ok? ==>
          && r == Ok(Success)
          && messages == old(messages)[idArg.value := HttpRead(check.value, now)]
          && sent == ReceiptEvents(check.value, userId, now)
    {
      if idArg.None? {
        r, sent := Err(ServerError), [];
        return;
      }
      var id := idArg.value;
      if id !in messages {
        r, sent := Err(NotFound), [];
        return;
      }
      var message := messages[id];
      if Truthy(message.recipientId) && message.recipientId.value != userId && message.authorId != userId {
        r, sent := Err(Forbidden), [];
        return;
      }
      messages := messages[id := HttpRead(message, now)];
      sent := ReceiptEvents(message, userId, now);
      r := Ok(Success);
    }

    /** `POST /api/messages/:messageId/react` (controllers/message.controller.js:265-305):
        the emoji entry is edited step by step and the whole object written
        back. An array-form field is taken as the empty object and replaced,
        which is the intended toggle; `ReactedAsWritten` records that the
        code as written loses the reaction in that case. */
    method AddReaction(idArg: Option<MessageId>, emoji: string, userId: UserId) returns (r: Result<Ack>)
      requires Valid()
      modifies this
      ensures Valid() && nextId == old(nextId)
      ensures var check := ReactionCheck(old(messages), idArg);
        check.Err? ==> r == Err(check.error) && messages == old(messages)
      ensures var check := ReactionCheck(old(messages), idArg);
        check.Ok? ==> r == Ok(Success) && messages == old(messages)[idArg.value := Reacted(check.value, emoji, userId)]
    {
      if idArg.None? {
        return Err(ServerError);
      }
      var id := idArg.value;
      if id !in messages {
        return Err(NotFound);
      }
      var message := messages[id];
      var reactions := ApplyToggle(EmojiView(message.reactions), emoji, userId);
      assert message.(reactions := ReactionMap(reactions)) == Reacted(message, emoji, userId);
      ReactedKeepsWellFormed(message, emoji, userId);
      ReplaceKeepsInvariant(messages, nextId, id, Reacted(message, emoji, userId));
      messages := messages[id := message.(reactions := ReactionMap(reactions))];
      r := Ok(Success);
    }

    /** The update of the socket `message-delivered` handler
        (server.js:199-204); answers the message as found afterwards. An id
        that does not parse throws before anything happens. */
    method MarkDeliveredBySocket(idArg: Option<MessageId>, now: nat) returns (found: Option<Message>)
      requires Valid()
      modifies this
      ensures Valid() && nextId == old(nextId)
      ensures idArg.None? || idArg.value !in old(messages) ==> found == None && messages == old(messages)
      ensures idArg.Some? && idArg.value in old(messages) ==>
        var m' := SocketDelivered(old(messages)[idArg.value], now);
        messages == old(messages)[idArg.value := m'] && found == Some(m')
    {
      if idArg.None? || idArg.value !in messages {
        return None;
      }
      var id := idArg.value;
      messages := messages[id := SocketDelivered(messages[id], now)];
      found := Some(messages[id]);
    }

    /** The update of the socket `message-read` handler (server.js:231-236):
        no identity check, and `delivered` is left alone. */
    method MarkReadBySocket(idArg: Option<MessageId>, now: nat) returns (found: Option<Message>)
      requires Valid()
      modifies this
      ensures Valid() && nextId == old(nextId)
      ensures idArg.None? || idArg.value !in old(messages) ==> found == None && messages == old(messages)
      ensures idArg.Some? && idArg.value in old(messages) ==>
        var m' := SocketRead(old(messages)[idArg.value], now);
        messages == old(messages)[idArg.value := m'] && found == Some(m')
    {
      if idArg.None? || idArg.value !in messages {
        return None;
      }
      var id := idArg.value;
      messages := messages[id := SocketRead(messages[id], now)];
      found := Some(messages[id]);
    }

    /** The lookup and `$push` of the socket `message-reaction` handler
        (server.js:335-349). Answers the message as found before the push, or
        `None` when there is none or the push fails on object-form
        reactions. */
    method PushReactionBySocket(idArg: Option<MessageId>, record: ReactionRecord) returns (found: Option<Message>)
      requires Valid()
      modifies this
      ensures Valid() && nextId == old(nextId)
      ensures found.Some? <==> idArg.Some? && idArg.value in old(messages) && old(messages)[idArg.value].reactions.ReactionList?
      ensures found.None? ==> messages == old(messages)
      ensures found.Some? ==>
        var m := old(messages)[idArg.value];
        && found.value == m
        && messages == old(messages)[idArg.value := m.(reactions := ReactionList(m.reactions.records + [record]))]
    {
      if idArg.None? || idArg.value !in messages {
        return None;
      }
      var id := idArg.value;
      var message := messages[id];
      var pushed := PushRecord(message.reactions, record);
      if pushed.None? {
        return None;
      }
      messages := messages[id := message.(reactions := pushed.value)];
      found := Some(message);
    }
  }
}
