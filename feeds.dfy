/** The read side of the message controller: the three message listings and
    the unread counts. Each is a query over the collection, modelled as a
    selection of ids in insertion order. */
module Feeds {
  import opened Base
  import opened Rooms
  import opened Messages

  /** The query filters of the listings and of the unread counts. */
  datatype Feed =
    | CommunityFeed
    | AdminFeed
    | Conversation(me: UserId, other: UserId)
    | UnreadPrivate(user: UserId)
    | UnreadGroupAsWritten(chatType: ChatType, user: UserId, bound: Stamp)
    | UnreadGroup(chatType: ChatType, user: UserId, since: nat)

  /** MongoDB compares a field with a query value only when both have the
      same BSON type: text is never `$gte` a date. */
  predicate StampGte(field: Stamp, bound: Stamp) {
    match (field, bound)
    case (IsoText(a), IsoText(b)) => a >= b
    case (BsonDate(a), BsonDate(b)) => a >= b
    case _ => false
  }

  predicate InFeed(feed: Feed, m: Message) {
    match feed
    // controllers/message.controller.js:82
    case CommunityFeed => m.recipientId.None? && m.chatType != AdminChat
    // controllers/message.controller.js:103
    case AdminFeed => m.chatType == AdminChat
    // controllers/message.controller.js:124-128
    case Conversation(me, other) =>
      (m.authorId == me && m.recipientId == Some(other)) || (m.authorId == other && m.recipientId == Some(me))
    // controllers/message.controller.js:30-33
    case UnreadPrivate(user) => m.recipientId == Some(user) && !m.read
    // controllers/message.controller.js:44-49 and 54-59, as written
    case UnreadGroupAsWritten(ct, user, bound) =>
      m.chatType == ct && m.authorId != user && !m.read && StampGte(m.createdAt, bound)
    // the same filter comparing instants
    case UnreadGroup(ct, user, since) =>
      m.chatType == ct && m.authorId != user && !m.read && m.createdAt.ms >= since
  }

  /** The ids below `n` of the messages a filter matches, oldest first. */
  function Select(store: Store, n: nat, feed: Feed): (ids: seq<MessageId>)
    ensures forall i :: 0 <= i < |ids| ==> ids[i] < n && ids[i] in store && InFeed(feed, store[ids[i]])
    ensures forall i, j :: 0 <= i < j < |ids| ==> ids[i] < ids[j]
    ensures forall k: MessageId :: k < n && k in store && InFeed(feed, store[k]) ==> k in ids
  {
    if n == 0 then []
    else
      var before := Select(store, n - 1, feed);
      if n - 1 in store && InFeed(feed, store[n - 1]) then before + [n - 1] else before
  }

  function Fetch(store: Store, ids: seq<MessageId>): (ms: seq<Message>)
    requires forall i :: 0 <= i < |ids| ==> ids[i] in store
    ensures |ms| == |ids| && forall i :: 0 <= i < |ids| ==> ms[i] == store[ids[i]]
  {
    seq(|ids|, i requires 0 <= i < |ids| => store[ids[i]])
  }

  /** Every message a filter matches below `n` is among the fetched ones. */
  lemma {:induction false} FetchHoldsSelected(store: Store, n: nat, feed: Feed)
    ensures forall k: MessageId :: k < n && k in store && InFeed(feed, store[k]) ==>
      store[k] in Fetch(store, Select(store, n, feed))
  {
    var ids := Select(store, n, feed);
    var ms := Fetch(store, ids);
    forall k: MessageId | k < n && k in store && InFeed(feed, store[k])
      ensures store[k] in ms
    {
      var j :| 0 <= j < |ids| && ids[j] == k;
      assert ms[j] == store[k];
    }
  }

  /** The cap of the community and admin listings. */
  const PageSize: nat := 100

  /** `.sort({ created_at: 1 }).limit(100)`: the first hundred, oldest first. */
  function Page(ids: seq<MessageId>): (page: seq<MessageId>)
    ensures |page| == if |ids| < PageSize then |ids| else PageSize
    ensures page == ids[..|page|]
  {
    if |ids| <= PageSize then ids else ids[..PageSize]
  }

  /** A page that is not full holds every matching message. */
  lemma PartPageHoldsAll(store: Store, n: nat, feed: Feed)
    ensures |Page(Select(store, n, feed))| < PageSize ==>
      forall k: MessageId :: k < n && k in store && InFeed(feed, store[k]) ==>
        store[k] in Fetch(store, Page(Select(store, n, feed)))
  {
    var ids := Select(store, n, feed);
    if |Page(ids)| < PageSize {
      assert Page(ids) == ids;
      FetchHoldsSelected(store, n, feed);
    }
  }

  /** `GET /api/messages/community` (controllers/message.controller.js:78-91):
      at most a page of community messages, and all of them when they fit. */
  function CommunityMessages(store: Store, n: nat): (ms: seq<Message>)
    ensures |ms| <= PageSize
    ensures forall i :: 0 <= i < |ms| ==> InFeed(CommunityFeed, ms[i])
    ensures |ms| < PageSize ==>
      forall k: MessageId :: k < n && k in store && InFeed(CommunityFeed, store[k]) ==> store[k] in ms
  {
    PartPageHoldsAll(store, n, CommunityFeed);
    Fetch(store, Page(Select(store, n, CommunityFeed)))
  }

  /** A capped listing holds the oldest matching messages: when a matching
      message is left out, the page is full and every message on it is
      older. This is the page of both the community and the admin listing. */
  lemma PageHoldsOldest(store: Store, n: nat, feed: Feed, k: MessageId)
    requires k < n && k in store && InFeed(feed, store[k])
    ensures var page := Page(Select(store, n, feed));
      k !in page ==> |page| == PageSize && forall i :: 0 <= i < |page| ==> page[i] < k
  {
    var ids := Select(store, n, feed);
    var page := Page(ids);
    if k !in page {
      var j :| 0 <= j < |ids| && ids[j] == k;
      assert j >= |page|;
    }
  }

  /** `GET /api/messages/admin` (controllers/message.controller.js:93-112):
      403 for any role but Admin and Super-Admin, otherwise at most a page of
      admin-chat messages, and all of them when they fit. */
  function AdminMessages(store: Store, n: nat, caller: Caller): (r: Result<seq<Message>>)
    ensures r.Err? <==> !IsAdminRole(caller.role)
    ensures r.Err? ==> r.error == Forbidden
    ensures r.Ok? ==> |r.value| <= PageSize && forall i :: 0 <= i < |r.value| ==> r.value[i].chatType == AdminChat
    ensures r.Ok? && |r.value| < PageSize ==>
      forall k: MessageId :: k < n && k in store && store[k].chatType == AdminChat ==> store[k] in r.value
  {
    if !IsAdminRole(caller.role) then Err(Forbidden)
    else
      PartPageHoldsAll(store, n, AdminFeed);
      Ok(Fetch(store, Page(Select(store, n, AdminFeed))))
  }

  /** `GET /api/messages/private?userId=` (controllers/message.controller.js:114-136):
      400 without a `userId`, otherwise the whole conversation between the
      caller and that user, with no cap, in the order of `Select`. */
  function PrivateMessages(store: Store, n: nat, caller: Caller, userId: Option<UserId>): (r: Result<seq<Message>>)
    ensures r.Err? <==> !Truthy(userId)
    ensures r.Err? ==> r.error == BadRequest
    ensures r.Ok? ==> forall i :: 0 <= i < |r.value| ==>
      (r.value[i].recipientId.Some? && {r.value[i].authorId, r.value[i].recipientId.value} == {caller.id, userId.value})
    ensures r.Ok? ==> forall k: MessageId :: k < n && k in store && InFeed(Conversation(caller.id, userId.value), store[k]) ==>
      store[k] in r.value
    ensures r.Ok? ==> r.value == Fetch(store, Select(store, n, Conversation(caller.id, userId.value)))
  {
    if !Truthy(userId) then Err(BadRequest)
    else
      FetchHoldsSelected(store, n, Conversation(caller.id, userId.value));
      Ok(Fetch(store, Select(store, n, Conversation(caller.id, userId.value))))
  }

  /** Both participants see the same conversation. */
  lemma {:induction false} ConversationSymmetric(store: Store, n: nat, a: UserId, b: UserId)
    ensures Select(store, n, Conversation(a, b)) == Select(store, n, Conversation(b, a))
  {
    if n > 0 {
      ConversationSymmetric(store, n - 1, a, b);
      if n - 1 in store {
        var m := store[n - 1];
        assert InFeed(Conversation(a, b), m) == InFeed(Conversation(b, a), m);
      }
    }
  }

  /** A message of the conversation that is not a group message was sent to
      the conversation's private room when it was created. */
  lemma ConversationMessageRoom(store: Store, n: nat, a: UserId, b: UserId, i: nat)
    requires a != "" && b != ""
    requires i < |Select(store, n, Conversation(a, b))|
    ensures var m := store[Select(store, n, Conversation(a, b))[i]];
      m.chatType !in {Community, AdminChat} ==> CreatedRoom(m.chatType, m.authorId, m.recipientId) == PrivateRoom(a, b)
  {
    PrivateRoomSymmetric(a, b);
  }

  // ---- unread counts ----

  /** One row of the `$group` stage: an author and how many of the matched
      messages they wrote. */
  datatype AuthorCount = AuthorCount(authorId: UserId, count: nat)

  function AuthorsOf(store: Store, ids: seq<MessageId>): (authors: seq<UserId>)
    requires forall i :: 0 <= i < |ids| ==> ids[i] in store
    ensures |authors| == |ids| && forall i :: 0 <= i < |ids| ==> authors[i] == store[ids[i]].authorId
  {
    seq(|ids|, i requires 0 <= i < |ids| => store[ids[i]].authorId)
  }

  /** Adds one message by `a` to the groups. */
  function Bump(groups: seq<AuthorCount>, a: UserId): seq<AuthorCount>
  {
    if groups == [] then [AuthorCount(a, 1)]
    else
      var last := groups[|groups| - 1];
      if last.authorId == a then groups[..|groups| - 1] + [AuthorCount(a, last.count + 1)]
      else Bump(groups[..|groups| - 1], a) + [last]
  }

  /** The `$group` stage by author (controllers/message.controller.js:35-40). */
  function GroupByAuthor(authors: seq<UserId>): seq<AuthorCount>
  {
    if authors == [] then []
    else Bump(GroupByAuthor(authors[..|authors| - 1]), authors[|authors| - 1])
  }

  /** The count the last row for `a` carries (0 if none): what the `reduce`
      leaves in the object when rows repeat an author. */
  function CountFor(groups: seq<AuthorCount>, a: UserId): nat
  {
    if groups == [] then 0
    else if groups[|groups| - 1].authorId == a then groups[|groups| - 1].count
    else CountFor(groups[..|groups| - 1], a)
  }

  function Total(groups: seq<AuthorCount>): nat
  {
    if groups == [] then 0 else Total(groups[..|groups| - 1]) + groups[|groups| - 1].count
  }

  function AuthorSet(groups: seq<AuthorCount>): set<UserId>
  {
    set g | g in groups :: g.authorId
  }

  predicate DistinctAuthors(groups: seq<AuthorCount>) {
    forall i, j :: 0 <= i < j < |groups| ==> groups[i].authorId != groups[j].authorId
  }

  lemma {:induction false} BumpCountFor(groups: seq<AuthorCount>, a: UserId, b: UserId)
    ensures CountFor(Bump(groups, a), b) == CountFor(groups, b) + (if b == a then 1 else 0)
    decreases |groups|
  {
    if groups != [] {
      var init := groups[..|groups| - 1];
      var last := groups[|groups| - 1];
      if last.authorId == a {
        var g' := init + [AuthorCount(a, last.count + 1)];
        assert g'[..|g'| - 1] == init;
      } else {
        BumpCountFor(init, a, b);
        var g' := Bump(init, a) + [last];
        assert g'[..|g'| - 1] == Bump(init, a);
      }
    }
  }

  lemma {:induction false} BumpTotal(groups: seq<AuthorCount>, a: UserId)
    ensures Total(Bump(groups, a)) == Total(groups) + 1
    decreases |groups|
  {
    if groups != [] {
      var init := groups[..|groups| - 1];
      var last := groups[|groups| - 1];
      if last.authorId == a {
        var g' := init + [AuthorCount(a, last.count + 1)];
        assert g'[..|g'| - 1] == init;
      } else {
        BumpTotal(init, a);
        var g' := Bump(init, a) + [last];
        assert g'[..|g'| - 1] == Bump(init, a);
      }
    }
  }

  lemma AuthorSetSnoc(init: seq<AuthorCount>, last: AuthorCount)
    ensures AuthorSet(init + [last]) == AuthorSet(init) + {last.authorId}
  {
    var g := init + [last];
    forall x | x in AuthorSet(g) ensures x in AuthorSet(init) + {last.authorId} {
      var r :| r in g && r.authorId == x;
      if r != last {
        assert r in init;
      }
    }
  }

  lemma {:induction false} BumpAuthorSet(groups: seq<AuthorCount>, a: UserId)
    ensures AuthorSet(Bump(groups, a)) == AuthorSet(groups) + {a}
    decreases |groups|
  {
    if groups != [] {
      var init := groups[..|groups| - 1];
      var last := groups[|groups| - 1];
      assert groups == init + [last];
      AuthorSetSnoc(init, last);
      if last.authorId == a {
        AuthorSetSnoc(init, AuthorCount(a, last.count + 1));
      } else {
        BumpAuthorSet(init, a);
        AuthorSetSnoc(Bump(init, a), last);
      }
    }
  }

  lemma DistinctSnoc(init: seq<AuthorCount>, last: AuthorCount)
    requires DistinctAuthors(init) && last.authorId !in AuthorSet(init)
    ensures DistinctAuthors(init + [last])
  {
    var g := init + [last];
    forall i, j | 0 <= i < j < |g| ensures g[i].authorId != g[j].authorId {
      assert g[i] == init[i] && g[i] in init;
      if j < |init| {
        assert g[j] == init[j];
      }
    }
  }

  lemma {:induction false} BumpDistinct(groups: seq<AuthorCount>, a: UserId)
    requires DistinctAuthors(groups)
    ensures DistinctAuthors(Bump(groups, a))
    decreases |groups|
  {
    if groups != [] {
      var init := groups[..|groups| - 1];
      var last := groups[|groups| - 1];
      assert groups == init + [last];
      assert DistinctAuthors(init);
      assert last.authorId !in AuthorSet(init) by {
        forall r | r in init ensures r.authorId != last.authorId {
          var i :| 0 <= i < |init| && init[i] == r;
          assert groups[i] == r;
        }
      }
      if last.authorId == a {
        DistinctSnoc(init, AuthorCount(a, last.count + 1));
      } else {
        BumpDistinct(init, a);
        BumpAuthorSet(init, a);
        DistinctSnoc(Bump(init, a), last);
      }
    }
  }

  /** The grouping is correct: one row per author of the matched messages,
      each counting that author's messages, and the rows sum to the number of
      matched messages. */
  lemma {:induction false} GroupByAuthorSpec(authors: seq<UserId>)
    ensures var groups := GroupByAuthor(authors);
      && DistinctAuthors(groups)
      && Total(groups) == |authors|
      && AuthorSet(groups) == (set a | a in authors)
      && forall a :: CountFor(groups, a) == multiset(authors)[a]
  {
    if authors != [] {
      var init := authors[..|authors| - 1];
      var a := authors[|authors| - 1];
      assert authors == init + [a];
      GroupByAuthorSpec(init);
      var g := GroupByAuthor(init);
      BumpDistinct(g, a);
      BumpTotal(g, a);
      BumpAuthorSet(g, a);
      forall b ensures CountFor(Bump(g, a), b) == multiset(authors)[b] {
        BumpCountFor(g, a, b);
      }
      assert multiset(authors) == multiset(init) + multiset{a};
      assert (set x | x in authors) == (set x | x in init) + {a};
    }
  }

  /** The `reduce` of the grouped rows into an object keyed by author
      (controllers/message.controller.js:63-66). A later row for the same
      author overwrites an earlier one. */
  method CountsObject(groups: seq<AuthorCount>) returns (acc: map<UserId, nat>)
    ensures acc.Keys == AuthorSet(groups)
    ensures forall a :: a in acc ==> acc[a] == CountFor(groups, a)
  {
    acc := map[];
    for i := 0 to |groups|
      invariant acc.Keys == AuthorSet(groups[..i])
      invariant forall a :: a in acc ==> acc[a] == CountFor(groups[..i], a)
    {
      assert groups[..i + 1][..i] == groups[..i];
      assert groups[..i + 1] == groups[..i] + [groups[i]];
      acc := acc[groups[i].authorId := groups[i].count];
    }
    assert groups[..|groups|] == groups;
  }

  /** The sum of a map's values. */
  ghost function SumValues(m: map<UserId, nat>): nat
    decreases |m|
  {
    if m == map[] then 0
    else
      var k :| k in m;
      m[k] + SumValues(m - {k})
  }

  lemma SumValuesRemove(m: map<UserId, nat>, k: UserId)
    requires k in m
    ensures SumValues(m) == m[k] + SumValues(m - {k})
    decreases |m|
  {
    var j :| j in m && SumValues(m) == m[j] + SumValues(m - {j});
    if j != k {
      assert |m - {j}| < |m|;
      SumValuesRemove(m - {j}, k);
      SumValuesRemove(m - {k}, j);
      assert m - {j} - {k} == m - {k} - {j};
    }
  }

  /** A map that holds exactly the rows of distinct authors sums to their
      total. */
  lemma {:induction false} SumValuesOfGroups(m: map<UserId, nat>, groups: seq<AuthorCount>)
    requires DistinctAuthors(groups)
    requires m.Keys == AuthorSet(groups)
    requires forall a :: a in m ==> m[a] == CountFor(groups, a)
    ensures SumValues(m) == Total(groups)
    decreases |groups|
  {
    if groups == [] {
      assert m == map[];
    } else {
      var init := groups[..|groups| - 1];
      var last := groups[|groups| - 1];
      assert groups == init + [last];
      assert last.authorId !in AuthorSet(init) by {
        forall i | 0 <= i < |init| ensures init[i].authorId != last.authorId {
          assert init[i] == groups[i];
        }
      }
      assert AuthorSet(groups) == AuthorSet(init) + {last.authorId};
      SumValuesRemove(m, last.authorId);
      var rest := m - {last.authorId};
      SumValuesOfGroups(rest, init);
    }
  }

  /** The unread counts `GET /api/messages/unread-counts` answers with. */
  datatype UnreadCounts = UnreadCounts(byAuthor: map<UserId, nat>, community: nat, admin: nat)

  /** `req.user.lastCommunityRead || new Date(0)` and its admin twin. */
  function Since(watermark: Option<nat>): nat {
    match watermark
    case Some(t) => t
    case None => 0
  }

  /** The community count as written: text `created_at` compared with a date
      (controllers/message.controller.js:44-49). */
  function UnreadCommunityAsWritten(store: Store, n: nat, caller: Caller): nat {
    |Select(store, n, UnreadGroupAsWritten(Community, caller.id, BsonDate(Since(caller.lastCommunityRead))))|
  }

  /** The admin count as written (controllers/message.controller.js:52-60). */
  function UnreadAdminAsWritten(store: Store, n: nat, caller: Caller): nat {
    if IsAdminRole(caller.role) then
      |Select(store, n, UnreadGroupAsWritten(AdminChat, caller.id, BsonDate(Since(caller.lastAdminRead))))|
    else 0
  }

  predicate StoredAsText(store: Store) {
    forall k :: k in store ==> store[k].createdAt.IsoText?
  }

  /** A filter that compares `created_at` with a date matches no message
      stored with a text `created_at`. */
  lemma {:induction false} DateBoundMatchesNothing(store: Store, n: nat, ct: ChatType, user: UserId, t: nat)
    requires StoredAsText(store)
    ensures Select(store, n, UnreadGroupAsWritten(ct, user, BsonDate(t))) == []
  {
    if n > 0 {
      DateBoundMatchesNothing(store, n - 1, ct, user, t);
    }
  }

  /** Every message `createMessage` stores has a text `created_at`, so the
      community and admin counts as written are always zero. */
  lemma UnreadGroupAsWrittenIsZero(store: Store, n: nat, caller: Caller)
    requires StoredAsText(store)
    ensures UnreadCommunityAsWritten(store, n, caller) == 0
    ensures UnreadAdminAsWritten(store, n, caller) == 0
  {
    DateBoundMatchesNothing(store, n, Community, caller.id, Since(caller.lastCommunityRead));
    DateBoundMatchesNothing(store, n, AdminChat, caller.id, Since(caller.lastAdminRead));
  }

  /** The count as intended: the unread community messages of others since
      the watermark. */
  function UnreadCommunity(store: Store, n: nat, caller: Caller): (count: nat)
    ensures count <= n
    ensures count == |Select(store, n, UnreadGroup(Community, caller.id, Since(caller.lastCommunityRead)))|
  {
    var ids := Select(store, n, UnreadGroup(Community, caller.id, Since(caller.lastCommunityRead)));
    SelectBounded(store, n, UnreadGroup(Community, caller.id, Since(caller.lastCommunityRead)));
    |ids|
  }

  lemma {:induction false} SelectBounded(store: Store, n: nat, feed: Feed)
    ensures |Select(store, n, feed)| <= n
  {
    if n > 0 {
      SelectBounded(store, n - 1, feed);
    }
  }

  /** Every qualifying message is counted by the corrected filter. */
  lemma UnreadCommunityCountsEach(store: Store, n: nat, caller: Caller, k: MessageId)
    requires k < n && k in store
    requires InFeed(UnreadGroup(Community, caller.id, Since(caller.lastCommunityRead)), store[k])
    ensures UnreadCommunity(store, n, caller) > 0
    ensures UnreadCommunityAsWritten(store, n, caller) == 0 || !StoredAsText(store)
  {
    if StoredAsText(store) {
      UnreadGroupAsWrittenIsZero(store, n, caller);
    }
  }

  /** An input that shows the difference: one unread community message from
      another user, created after the (absent) watermark. */
  lemma UnreadCommunityWitness()
    ensures var m := Message(0, Community, "b", None, "hi", IsoText(5), true, Some(5), false, None, Reactions.ReactionList([]));
      var caller := Caller("a", RoleUser, None, None);
      && UnreadCommunityAsWritten(map[0 := m], 1, caller) == 0
      && UnreadCommunity(map[0 := m], 1, caller) == 1
  {
    var m := Message(0, Community, "b", None, "hi", IsoText(5), true, Some(5), false, None, Reactions.ReactionList([]));
    var caller := Caller("a", RoleUser, None, None);
    UnreadGroupAsWrittenIsZero(map[0 := m], 1, caller);
    var ids := Select(map[0 := m], 1, UnreadGroup(Community, caller.id, 0));
    assert 0 in ids;
  }

  /** The admin count: zero for every role but Admin and Super-Admin
      (controllers/message.controller.js:52-60), here with the corrected
      comparison. */
  function UnreadAdmin(store: Store, n: nat, caller: Caller): (count: nat)
    ensures !IsAdminRole(caller.role) ==> count == 0
    ensures IsAdminRole(caller.role) ==> count == |Select(store, n, UnreadGroup(AdminChat, caller.id, Since(caller.lastAdminRead)))|
  {
    if IsAdminRole(caller.role) then |Select(store, n, UnreadGroup(AdminChat, caller.id, Since(caller.lastAdminRead)))|
    else 0
  }

  /** `getUnreadCounts` (controllers/message.controller.js:22-76) over the
      first `n` ids: the per-author private counts cover exactly the unread
      messages addressed to the caller and sum to their number. */
  method GetUnreadCounts(store: Store, n: nat, caller: Caller) returns (counts: UnreadCounts)
    ensures var unread := Select(store, n, UnreadPrivate(caller.id));
      && (forall a :: a in counts.byAuthor <==> a in AuthorsOf(store, unread))
      && (forall a :: a in counts.byAuthor ==> counts.byAuthor[a] == multiset(AuthorsOf(store, unread))[a])
      && SumValues(counts.byAuthor) == |unread|
    ensures counts.community == UnreadCommunity(store, n, caller)
    ensures counts.admin == UnreadAdmin(store, n, caller)
    ensures !IsAdminRole(caller.role) ==> counts.admin == 0
  {
    var unread := Select(store, n, UnreadPrivate(caller.id));
    var authors := AuthorsOf(store, unread);
    var groups := GroupByAuthor(authors);
    GroupByAuthorSpec(authors);
    var byAuthor := CountsObject(groups);
    SumValuesOfGroups(byAuthor, groups);
    counts := UnreadCounts(byAuthor, UnreadCommunity(store, n, caller), UnreadAdmin(store, n, caller));
  }
}
