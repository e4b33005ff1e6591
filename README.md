# Church backend chat layer, modelled in Dafny

This project models the realtime messaging layer of a church web backend
written for Node.js with Express, Socket.IO and MongoDB, together with the
small pure helpers that layer and its HTTP routes depend on. The model is
built in Dafny and its properties are proved there.

- **Socket handlers** (`server.js`) are the `ChatServer` class. Its fields are:
  - the presence registry (`onlineUsers`, `userSockets`);
  - the per-room typing tracker (`typingUsers`), plus the order in which its
    rooms were created;
  - the typing timers that are pending;
  - an outbox of every event emitted, each tagged with the audience it is
    addressed to.
- **Message controller** (`controllers/message.controller.js`) is split in two:
  - the write handlers are the `MessageStore` class, which owns the
    `messages` collection;
  - the listings and unread counts are functions over that collection in the
    `Feeds` module.
- **Room naming rules** are in `Rooms`; the three places that derive a room
  from a message do not agree.
- **Message status transitions** are in `Messages`.
- **Emoji reaction toggle** is in `Reactions`.
- **Slug generation and blog post writes** are in `Blog`.
- **Role update and the user formatter** are in `Users`.
- **Bearer-token middleware** is in `Auth`.

## Modelling choices

- A message id is a natural number, assigned by a counter.
- A request id that is not a valid ObjectId is `None`. The HTTP handlers answer
  500 for it; the socket handlers do nothing.
- Times are `nat` parameters (`now`). Each `setTimeout` becomes an entry in the
  `timers` multiset, and firing a timer is a method call.
- Each handler reads the clock once, as its `now`. The source calls `new Date()`
  separately for each stamp, up to three times in one handler, so equalities
  between stamps of one call hold only in the model (see "## Left out").
- `jwt.verify` and the user lookup are function parameters.
- The message store is a parameter of the socket handlers that touch it.
- Truthiness, `indexOf`/`splice`, `split(' ')`, object spread, and `Map`
  insertion order are written out. JavaScript's default `sort()` is modelled as
  code-point order (see `Rooms.StrLe` under "## Left out").
- MongoDB's `$push` on a non-array fails. A query comparison between a string
  and a Date never matches.

## Model

| member | source | states |
|---|---|---|
| Rooms.StrLe | server.js:208 | the comparison of the default `sort()`: lexicographic, character by character, a prefix first |
| Rooms.StrLeTotal | server.js:208 | the string order `sort()` uses compares any two user ids |
| Rooms.StrLeAntisymmetric | server.js:208 | two ids each sorting before the other are equal |
| Rooms.PrivateRoom | server.js:208 | the private room is the two ids joined by `-` in one of the two orders; its length is both lengths plus one |
| Rooms.PrivateRoomSymmetric | server.js:401 | both participants derive the same private room |
| Rooms.SplitAtSeparatorUnique | server.js:208 | a string splits at a `-` absent from both parts in only one way |
| Rooms.PrivateRoomDeterminesPair | server.js:208 | for ids without `-`, the room name determines the unordered pair |
| Rooms.PrivateRoomIsNotAGroupRoom | server.js:206-213 | no private room is named `community` or `admin` |
| Rooms.StatusRoom | server.js:206-213 | socket handlers: a room exists iff the type is community or admin, or private with a truthy recipient; each case names its room |
| Rooms.CreatedRoom | controllers/message.controller.js:162-171 | `createMessage`: admin, then community, then the recipient's private room, else the `community` fallback |
| Rooms.ReceiptRoom | controllers/message.controller.js:239-246 | HTTP read receipt: no room exactly when the type is neither group and there is no recipient; otherwise the same room as `createMessage` |
| Rooms.RoomRulesAgree | server.js:206-213 | for community, admin and private-with-recipient messages, all three rules give one room |
| Rooms.RoomRulesDiverge | controllers/message.controller.js:162-171 | an unknown type with a recipient gets a receipt room but no socket room; a private message without a recipient is created into `community` but gets no socket room |
| Rooms.RoomRulesSymmetric | server.js:206-213 | swapping author and recipient changes no rule's room |
| Reactions.EmojiView | controllers/message.controller.js:277 | `message.reactions \|\| {}`: the object as stored; an array has no emoji entries |
| Reactions.IndexOf | controllers/message.controller.js:282 | `indexOf`: the first position of the user, or -1 exactly when absent |
| Reactions.RemoveAt | controllers/message.controller.js:285 | `splice(i, 1)` removes exactly one occurrence of `users[i]` |
| Reactions.ToggledEntry | controllers/message.controller.js:282-294 | one entry after the toggle: the user spliced out (the key deleted at count 0) when present, pushed with the count raised otherwise |
| Reactions.Toggle | controllers/message.controller.js:277-294 | no emoji other than the toggled one is added, removed or changed |
| Reactions.ToggleKeepsCount | controllers/message.controller.js:282-294 | an entry whose count equals its number of users keeps that equality |
| Reactions.RemoveAtKeepsNoDuplicates | controllers/message.controller.js:285 | removing a user from a duplicate-free list leaves them absent and everyone else present |
| Reactions.AppendKeepsNoDuplicates | controllers/message.controller.js:292 | appending an absent user keeps the list duplicate-free |
| Reactions.ToggleKeepsWellFormed | controllers/message.controller.js:277-294 | each entry keeps count == number of users, count > 0, and no duplicates |
| Reactions.ToggleFlipsMembership | controllers/message.controller.js:282-294 | the user's membership flips, the count moves by one in the matching direction, and other users stay as they were |
| Reactions.ToggleTwiceRestoresNewReaction | controllers/message.controller.js:277-294 | toggling twice when the user had not reacted restores the reactions exactly |
| Reactions.ToggleTwiceReordersExistingReaction | controllers/message.controller.js:282-294 | toggling twice when the user had reacted keeps the count and the user multiset, but moves the user to the end |
| Reactions.ToggleTwiceOrderWitness | controllers/message.controller.js:285-292 | concrete case: users `[a, b]` become `[b, a]` |
| Reactions.PushRecord | server.js:346-349 | `$push` succeeds iff the field is an array, and appends the record at the end |
| Messages.MayPost | controllers/message.controller.js:151-156 | an admin-chat message may be posted only by Admin or Super-Admin |
| Messages.Compose | controllers/message.controller.js:141-148 | the stored draft takes the caller as author, the server time, unread and undelivered flags, and empty reactions |
| Messages.Acknowledged | controllers/message.controller.js:176-184 | community and admin messages come back delivered; nothing else changes but `deliveredAt` |
| Messages.CreatedMessageIgnoresClaims | controllers/message.controller.js:141-148 | client-sent `authorId`, `created_at`, `delivered`, `read`, `reactions` have no effect on the created message; a client `_id` is outside these claims (see "## Left out") |
| Messages.HttpDelivered | controllers/message.controller.js:198-201 | delivered is set, read unchanged |
| Messages.HttpRead | controllers/message.controller.js:226-236 | read and delivered are both set |
| Messages.SocketDelivered | server.js:199-202 | delivered is set, read unchanged |
| Messages.SocketRead | server.js:231-234 | read is set, delivered unchanged |
| Messages.TransitionsMonotoneAndIdempotent | controllers/message.controller.js:193-236 | no transition clears a flag or touches content; repeating one only renews its timestamp |
| Messages.HttpPathKeepsReadImpliesDelivered | controllers/message.controller.js:226-236 | the HTTP updates and the socket delivered update keep read ⇒ delivered |
| Messages.SocketReadLeavesUndelivered | server.js:231-234 | the socket read of an undelivered message breaks read ⇒ delivered |
| Messages.MayMarkRead | controllers/message.controller.js:222 | a message with a recipient may be marked read only by its recipient or author; one without by anyone |
| Messages.ReadCheck | controllers/message.controller.js:216-224 | 500 iff the id is invalid; 404 iff no message; 403 iff a truthy recipient and the caller is neither recipient nor author; otherwise the message |
| Messages.ReadCheckAdmitsParticipants | controllers/message.controller.js:221-224 | with a recipient only author and recipient may mark read; without one anyone may |
| Messages.ReactionCheck | controllers/message.controller.js:272-275 | 500 iff the id is invalid, 404 iff no message, otherwise the stored message |
| Messages.ReactedAsWritten | controllers/message.controller.js:277-299 | as written, an array-form field is written back unchanged; an object is toggled |
| Messages.Reacted | controllers/message.controller.js:277-299 | the intended result: the object form holding the toggle of the current emoji entries |
| Messages.ReactionOnArrayIsLost | controllers/message.controller.js:147 | on a message with array reactions the as-written handler stores nothing, while the intended toggle records the user with count 1; on objects the two agree |
| Messages.ReactedKeepsWellFormed | controllers/message.controller.js:277-299 | well-formed reactions stay well formed |
| Feeds.StampGte | controllers/message.controller.js:44-59 | MongoDB's `$gte` on `created_at`: true only between two texts or two dates, compared by value |
| Feeds.InFeed | controllers/message.controller.js:30-128 | the query filters: community (82), admin (103), conversation (124-128), unread private (30-33), and the unread group filters as written (44-59) and corrected |
| Feeds.Select | controllers/message.controller.js:81-85 | the ids of matching messages, ascending, each matching, and every match present |
| Feeds.Page | controllers/message.controller.js:84 | `limit(100)`: the first min(n, 100) ids |
| Feeds.FetchHoldsSelected | controllers/message.controller.js:124-129 | an uncapped listing holds every message its filter matches |
| Feeds.CommunityMessages | controllers/message.controller.js:78-91 | at most 100 messages, each without recipient and not admin; every community message when fewer than 100 are returned |
| Feeds.PageHoldsOldest | controllers/message.controller.js:81-106 | for the community and the admin listing alike: a matching message left off the page means the page is full of older ones |
| Feeds.AdminMessages | controllers/message.controller.js:93-112 | 403 iff the caller is not Admin or Super-Admin; otherwise at most 100 admin messages, and every admin message when fewer than 100 are returned |
| Feeds.PrivateMessages | controllers/message.controller.js:114-136 | 400 iff `userId` is falsy; otherwise every message between the caller and `userId`, no cap, each row having that author–recipient pair, in ascending id order |
| Feeds.ConversationSymmetric | controllers/message.controller.js:124-128 | both participants get the same conversation |
| Feeds.ConversationMessageRoom | controllers/message.controller.js:124-128 | every non-group message in a conversation was emitted to the pair's private room |
| Feeds.GroupByAuthor | controllers/message.controller.js:35-40 | `$group` by author: one row per distinct author with its count; the row order is unspecified, as `$group`'s is |
| Feeds.AuthorsOf | controllers/message.controller.js:37 | the author of each selected message, in order |
| Feeds.GroupByAuthorSpec | controllers/message.controller.js:35-40 | `$group`: one row per distinct author, counts sum to the number of messages, each count the author's multiplicity |
| Feeds.CountsObject | controllers/message.controller.js:63-66 | the `reduce` into an object: keys are exactly the authors, each value their count |
| Feeds.SumValuesOfGroups | controllers/message.controller.js:63-66 | the object's values sum to the total of the groups |
| Feeds.UnreadCommunityAsWritten | controllers/message.controller.js:44-49 | as written: the community count with a Date bound against text `created_at` |
| Feeds.UnreadAdminAsWritten | controllers/message.controller.js:52-60 | as written: 0 for non-admins, otherwise the admin count with a Date bound |
| Feeds.DateBoundMatchesNothing | controllers/message.controller.js:44-49 | with `created_at` stored as text, a Date bound matches no message |
| Feeds.UnreadGroupAsWrittenIsZero | controllers/message.controller.js:44-60 | as written, the community and admin unread counts are always 0 |
| Feeds.UnreadCommunity | controllers/message.controller.js:44-49 | the corrected count: exactly the unread community messages of others since the watermark, comparing instants; bounded by the collection |
| Feeds.UnreadCommunityCountsEach | controllers/message.controller.js:44-49 | any unread community message by someone else since the watermark makes the corrected count positive, while the as-written count stays 0 |
| Feeds.UnreadCommunityWitness | controllers/message.controller.js:44-49 | one unread message by another user: as written 0, corrected 1 |
| Feeds.UnreadAdmin | controllers/message.controller.js:52-60 | 0 for non-admins; for admins, the unread admin messages of others since the watermark |
| Feeds.GetUnreadCounts | controllers/message.controller.js:22-76 | per-author private counts cover exactly the unread messages addressed to the caller and sum to their number; community and admin are the corrected counts |
| MessageController.ReceiptEvents | controllers/message.controller.js:238-256 | no events iff there is no room; otherwise `message-read` then the status update, both to the receipt room |
| MessageController.ReplaceKeepsInvariant | controllers/message.controller.js:296-299 | replacing a message by one with the same id and time and well-formed reactions keeps the store invariant |
| MessageController.ApplyToggle | controllers/message.controller.js:277-294 | the step-by-step edit of the emoji object equals `Toggle` |
| MessageController.MessageStore.constructor | server.js:126-128 | an empty collection |
| MessageController.MessageStore.CreateMessage | controllers/message.controller.js:137-191 | 403 with nothing stored for a non-admin posting to admin; otherwise the acknowledged message is stored under a fresh id and returned, and `new-message` carries it as it was before acknowledgement |
| MessageController.MessageStore.MarkDelivered | controllers/message.controller.js:193-207 | 500 for an invalid id; otherwise success whether or not the message exists, with only that message marked delivered |
| MessageController.MessageStore.MarkRead | controllers/message.controller.js:209-263 | every `ReadCheck` error leaves the store alone and emits nothing; otherwise the message is read and delivered and the receipt events go out |
| MessageController.MessageStore.AddReaction | controllers/message.controller.js:265-305 | 500/404 leave the store alone; otherwise the message's reactions become the toggled object |
| MessageController.MessageStore.MarkDeliveredBySocket | server.js:199-204 | a known message is marked delivered and returned; otherwise nothing changes |
| MessageController.MessageStore.MarkReadBySocket | server.js:231-236 | a known message is marked read (delivered untouched) and returned; otherwise nothing changes |
| MessageController.MessageStore.PushReactionBySocket | server.js:335-349 | answers the message iff it exists with array reactions, and then appends one record; otherwise nothing changes |
| Typing.FindTypist | server.js:273 | `find` by user id: the first entry of the user, or -1 exactly when they have none |
| Typing.AddTypist | server.js:275-276 | the entry is appended only when the user has none |
| Typing.RemoveTypist | server.js:288-290 | an entry is removed exactly when the user has one |
| Typing.AddTypistKeepsOnePerUser | server.js:273-276 | adding keeps one entry per user and shows the user |
| Typing.RemoveTypistSpec | server.js:288-290 | removing leaves none of the user's entries and every other entry |
| Typing.StartTyping | server.js:268-276 | the room exists afterwards, no other room changes, the room gets the guarded add |
| Typing.StartTypingInSteps | server.js:268-276 | the handler's two steps (create the empty set, then add) give `StartTyping` |
| Typing.StopTyping | server.js:303-307 | no room added or removed; only `room` can change; nothing changes when the user is not typing there |
| Typing.StopTypingEverywhere | server.js:384-393 | every room keeps its key and loses the user's entry |
| Typing.StartTypingKeepsOnePerUser | server.js:268-276 | one entry per user per room is kept, and the user is typing |
| Typing.StopTypingKeepsOnePerUser | server.js:303-307 | the invariant is kept, the user stops typing there, other users' entries stay |
| Typing.StopTypingEverywhereKeepsOnePerUser | server.js:384-393 | the invariant is kept and the user is typing nowhere |
| Typing.StaleTimerClearsFreshTyping | server.js:285-297 | on the tracker: after two typing signals, one stop (what a timer expiry does) clears the entry |
| Presence.Connect | server.js:150-155 | the user's entry is set to this socket, name and time; the socket maps to the user; nothing else changes |
| Presence.Disconnect | server.js:380-381 | the user's entry and the socket's mapping go; nothing else changes |
| Presence.Touch | server.js:317-321 | only an online user's activity time is renewed |
| Presence.Snapshot | server.js:164-168 | exactly one row per online user with their stored name and time |
| Presence.SnapshotSize | server.js:164-168 | the snapshot has as many rows as there are online users |
| Presence.EarlierSocketDisconnectDropsUser | server.js:150-155 | after a second connection of one user, closing the first socket reports the user offline although the second is still mapped |
| ChatServer.DisplayName | server.js:139 | `fullName`, else `email`, else `Anonymous`; never empty |
| ChatServer.Handshake | server.js:130-144 | a session iff the token is truthy and verifies; it carries the socket, the payload id and the display name |
| ChatServer.StopEvent | server.js:306-311 | one `user-stopped-typing` to the room except the sender exactly when the user was typing there |
| ChatServer.StopEvents | server.js:384-393 | the disconnect loop's emits: a stop event for each listed room the user is typing in, in list order |
| ChatServer.StopEventsExactlyTypingRooms | server.js:384-393 | the disconnect loop emits exactly one stop event per listed room the user was typing in |
| ChatServer.RoomEmits | server.js:215-221 | nothing when the message has no room; otherwise each payload to that room, in order |
| ChatServer.StopTypingKeepsRoomOrder | server.js:303-307 | stopping keeps the room order consistent with the map |
| ChatServer.StartTypingExtendsRoomOrder | server.js:268-270 | a new room is appended to the order |
| ChatServer.ClearedEverywhere | server.js:384-393 | visiting every room of the order clears the user everywhere |
| ChatServer.ClearTypingEverywhere | server.js:384-393 | the loop keeps the rooms, clears the user from each listed room, and emits the stop events in order |
| ChatServer.ChatServer.constructor | server.js:126-128 | empty registry, tracker, timers and outbox |
| ChatServer.ChatServer.OnConnection | server.js:146-169 | the registry becomes `Connect`; `user-online` goes to everyone else and the snapshot, which contains the new user, to the socket |
| ChatServer.ChatServer.StopTypingIn | server.js:303-312 | the tracker becomes `StopTyping` and the stop event is emitted iff the user was typing |
| ChatServer.ChatServer.OnLeaveRoom | server.js:177-193 | as `StopTypingIn`; the user is not typing in the room afterwards |
| ChatServer.ChatServer.OnUserStoppedTyping | server.js:300-314 | as `StopTypingIn`; the user is not typing in the room afterwards |
| ChatServer.ChatServer.OpenRoom | server.js:268-270 | a missing room is created empty and appended to the order |
| ChatServer.ChatServer.OnUserTyping | server.js:265-298 | the tracker becomes `StartTyping`; `user-typing` goes out only when the user was not already typing; one timer is armed each time |
| ChatServer.ChatServer.OnTypingTimer | server.js:285-297 | the timer is consumed and its room's entry for its user is cleared, with the stop event iff there was one |
| ChatServer.ChatServer.TypeTwiceFirstTimerFires | server.js:265-297 | after two `user-typing` signals and the first timer's expiry, the user is not typing while the second timer is still pending |
| ChatServer.ChatServer.OnUserActivity | server.js:317-329 | an online user's time is renewed and broadcast; otherwise nothing happens |
| ChatServer.ChatServer.OnStartPrivateChat | server.js:400-415 | the target, when online, is sent the private room name and the initiator; nothing else changes |
| ChatServer.ChatServer.OnMessageDelivered | server.js:196-226 | a known message is marked delivered and the status update goes to its room (if any) |
| ChatServer.ChatServer.OnMessageRead | server.js:228-262 | a known message is marked read and `message-read` then the status update go to its room (if any) |
| ChatServer.ChatServer.OnMessageReaction | server.js:332-373 | a record is pushed and `reaction-added` sent to the room exactly when the message exists with array reactions |
| ChatServer.ChatServer.OnDisconnect | server.js:376-397 | the registry becomes `Disconnect`, the user is typing nowhere, the stop events go out in room order, then `user-offline` |
| Users.KnownRole | controllers/user.controller.js:23 | a role is accepted iff it is `User`, `Admin` or `Super-Admin` |
| Users.UpdateUserRole | controllers/user.controller.js:17-44 | 400 for a role outside the enumeration, then 403 for Super-Admin, then 500 for a bad id, then 404; errors change nothing; success sets only `role` |
| Users.RoleChecksComeFirst | controllers/user.controller.js:23-31 | the role checks decide before the id is parsed, and a missing user gives 404 |
| Users.NoNewSuperAdmin | controllers/user.controller.js:27-29 | no update makes a user Super-Admin |
| Users.UpdateUserRoleIdempotent | controllers/user.controller.js:31-34 | repeating an update gives the same result and table |
| Users.FormatUser | utils/userFormatter.js:2-12 | null maps to null; no `_id` or `password`; `id` is the hex of `_id` unless a stored `id` exists; every other field is kept |
| Users.FormattedAfterRoleUpdate | utils/userFormatter.js:7-11 | after a role update the formatted user shows the new role and no password |
| Users.StoredIdShadowsObjectId | utils/userFormatter.js:9-10 | a stored `id` field wins over the one derived from `_id` |
| Blog.LowerChar | controllers/blog.controller.js:7 | ASCII capitals map to lower case, everything else is kept |
| Blog.Lower | controllers/blog.controller.js:7 | same length, each character lower-cased |
| Blog.SpacesToHyphens | controllers/blog.controller.js:8 | same length, each space replaced by exactly one hyphen |
| Blog.DropNonWord | controllers/blog.controller.js:9 | no longer than the input; only characters of `\w` and `-` remain |
| Blog.Slug | controllers/blog.controller.js:5-10 | the slug is no longer than the title |
| Blog.SlugMatchesSpec | controllers/blog.controller.js:5-10 | the three-step chain equals the per-character rule |
| Blog.SlugAppend | controllers/blog.controller.js:5-10 | the slug of a concatenation is the concatenation of slugs; a space is one hyphen |
| Blog.SlugCharset | controllers/blog.controller.js:9 | every slug character is in `[a-z0-9_-]` |
| Blog.SlugOfSlugChars | controllers/blog.controller.js:5-10 | a string of slug characters is its own slug |
| Blog.SlugIdempotent | controllers/blog.controller.js:5-10 | slugging a slug changes nothing |
| Blog.CreatePost | controllers/blog.controller.js:21-50 | 400 with nothing inserted iff a required field is falsy; otherwise the post is inserted with the title's slug, the author's name, and `publishedAt` set iff the status is `published` |
| Blog.Updated | controllers/blog.controller.js:74-80 | the four fields as sent; the slug only for a truthy title; `publishedAt` only for `published`; the rest kept |
| Blog.UpdatePost | controllers/blog.controller.js:64-96 | 400 for an invalid id, 404 for none, otherwise that post replaced by `Updated` |
| Blog.PublishedPostsAreDated | controllers/blog.controller.js:40 | created and updated posts that are published carry a publication time |
| Blog.UpdateWithoutTitleKeepsSlug | controllers/blog.controller.js:74-77 | an update without a title nulls the title and keeps the old slug |
| Blog.UnpublishKeepsDate | controllers/blog.controller.js:78-80 | moving away from `published` keeps the old publication time |
| Blog.UpdatePostIdempotent | controllers/blog.controller.js:64-96 | repeating an update with the same body and time changes nothing more |
| Auth.Split | middleware/auth.middleware.js:12 | `split(' ')`: at least one piece, none containing a space, one piece iff no space |
| Auth.JoinSplit | middleware/auth.middleware.js:12 | joining the pieces with spaces gives the header back |
| Auth.ExtractBearer | middleware/auth.middleware.js:11-13 | a token iff the header is truthy, starts with `Bearer` and has a space; the token is the second piece |
| Auth.BearerTokenIsSecondPiece | middleware/auth.middleware.js:11-13 | for `<scheme starting with Bearer> <t><rest>` the token is `t` |
| Auth.Authenticate | middleware/auth.middleware.js:8-42 | a user is attached iff there is a truthy token that verifies to an object with a truthy id naming an existing user; no token gives "not logged in"; "invalid token" comes exactly from a `JsonWebTokenError` |
| Auth.BearerAuthenticates | middleware/auth.middleware.js:8-34 | `Bearer <t>` with a token naming an existing user attaches that user |
| Auth.OptionalAuthenticate | middleware/auth.middleware.js:52-91 | never errors; a user iff the strict middleware would attach the same user, otherwise null |
| Auth.HoldsAdminRole | middleware/auth.middleware.js:45 | the user's role is `Admin` or `Super-Admin` |
| Auth.AdminOnly | middleware/auth.middleware.js:44-49 | passes iff a user is present with role Admin or Super-Admin, else 403 |
| Auth.AdminRouteGate | middleware/auth.middleware.js:44-49 | `authMiddleware` then `adminOnly` admits exactly the bearers of a token naming an existing admin |

## Where the code and its design intent differ

Each item follows the code:

- **Read ⇒ delivered.** The socket `message-read` sets only `read`, so read ⇒
  delivered does not hold after it (`Messages.SocketReadLeavesUndelivered`).
  The HTTP path keeps it.
- **Toggling a reaction twice.** This restores the original only when the user
  had not reacted. Otherwise the user moves to the end of `users`
  (`Reactions.ToggleTwiceReordersExistingReaction`).
- **Typing timers.** They are never cancelled or re-armed, so an older timer
  clears a newer typing signal (`ChatServer.ChatServer.TypeTwiceFirstTimerFires`,
  `Typing.StaleTimerClearsFreshTyping`).
- **Repeated `markMessageAsRead`.** It keeps the flags but renews `readAt` and
  `deliveredAt`.
- **HTTP mark-as-read without a recipient.** Any caller may mark a message that
  has no recipient as read. The inline comment at
  controllers/message.controller.js:221 speaks only of the author.
- **Typing cleanup on disconnect.** It walks every room in the tracker, not
  only the rooms the socket joined.

## Left out

- Socket.IO transport, room membership (`join-room`, `socket.join`/`leave`) and
  fan-out. An emit is recorded with its addressee only.
- `console` logging, `try`/`catch` blocks whose only effect is a log line, and
  database or network failures. The 500 paths for those are not modelled.
- The Unicode behaviour of `toLowerCase` and of `\w`. `Blog.LowerChar` lowers
  ASCII only, so a character such as the Kelvin sign, which lowercases to an
  ASCII letter, is dropped in the model but kept by the source.
- The `sort({ created_at: 1 })` order of the listings. The model lists in id
  (insertion) order, which matches it because `created_at` is assigned at
  insertion.
- The BSON form of the `_id` copies in responses, and `formatPostForClient`.
- Request body fields are strings or absent. Other JSON values are not modelled:
  a truthy non-string `title` makes `toLowerCase()` throw, and the blog handlers
  then answer 500 (controllers/blog.controller.js:7, 47-48, 93-94).
- A client-sent `_id` in the body of `POST /api/messages`. The spread keeps it,
  `insertOne` adopts it, and `toHexString()` then throws after the insert
  (controllers/message.controller.js:142, 158): the message is stored, the reply
  is 500 and no `new-message` goes out. The model always assigns `nextId`.
- Distinct clock readings within one handler. The model's `now` is shared, so
  `Blog.CreatePost` gives `publishedAt == createdAt`
  (controllers/blog.controller.js:39-40), `MessageController.MessageStore.CreateMessage`
  returns the stored `deliveredAt` and shares `now` with `created_at`
  (controllers/message.controller.js:144, 180, 183), and the read and
  delivered handlers store and emit one time (controllers/message.controller.js:232-233,
  254; server.js:201, 219, 233, 255). In the source these may differ by the
  time between the calls.
- Ids are taken as already parsed. ObjectId validity is an `Option` argument.
- A `recipientId` stored as JSON `null` rather than absent. It is treated as
  absent.
- An emoji named after an array property (such as `length`).
- A handshake payload without an `id`. Claims always carry one.
- The order of the `online-users-list` rows. The snapshot is a set.
- `Rooms.StrLe`: compares Unicode code points, while the default `sort()`
  compares UTF-16 code units. The two orders differ between characters above
  U+FFFF and those in U+E000–U+FFFF, which hex ObjectId strings never contain.
- `Users.FormatUser`: requires an ObjectId `_id`. The source would throw on a
  user without one, and every stored user has one.
- `Blog.CreatePost`: requires the new id to be unused. MongoDB assigns a fresh
  ObjectId.
- The other controllers, the routes, Joi validation, Cloudinary, the AI proxy
  and `jwt.sign`/`bcrypt`. They are not part of this model.

## Findings

| source | as written | input that shows it | evidently intended | confidence | as-written member | corrected member |
|---|---|---|---|---|---|---|
| controllers/message.controller.js:44-60 | the unread community and admin counts compare `created_at`, stored as ISO text, with `lastCommunityRead \|\| new Date(0)`, a Date (no code sets the watermarks). MongoDB compares only values of the same BSON type, so the filter never matches and both counts are always 0 | one community message by user `b`, unread, `created_at` text at 5; caller `a` with no watermark | count the unread group messages of others since the watermark, comparing instants | high, not executed | Feeds.UnreadCommunityAsWritten, Feeds.UnreadAdminAsWritten, Feeds.UnreadGroupAsWrittenIsZero, Feeds.UnreadCommunityWitness | Feeds.UnreadCommunity, Feeds.UnreadAdmin |
| controllers/message.controller.js:277-299 | `message.reactions \|\| {}` is the empty array `createMessage` stores (line 147). The emoji entry becomes a named array property, and the BSON encoding of an array keeps only its indexed elements, so `$set` writes the array back unchanged: the reaction is lost, yet the reply is 200 | any message created through `POST /api/messages`, then `POST /api/messages/:messageId/react` with emoji `+1` | toggle the user's reaction, starting from an empty emoji object | high, not executed | Messages.ReactedAsWritten, Messages.ReactionOnArrayIsLost | Messages.Reacted, MessageController.MessageStore.AddReaction |
