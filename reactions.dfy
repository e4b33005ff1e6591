/** The `reactions` field of a message and the two ways the backend changes
    it. The HTTP handler treats it as an object from emoji to
    `{ count, users }` and toggles one user's reaction
    (controllers/message.controller.js:277-294); the socket handler `$push`es
    a reaction record onto it as an array (server.js:339-349). A message is
    created with an empty array (controllers/message.controller.js:147). */
module Reactions {
  import opened Base

  /** One emoji's entry in the object form. */
  datatype Reaction = Reaction(count: int, users: seq<UserId>)

  type EmojiMap = map<string, Reaction>

  /** One record of the array form, as the socket handler builds it. */
  datatype ReactionRecord = ReactionRecord(userId: UserId, userName: string, emoji: string, createdAt: nat)

  /** The stored field has one of two incompatible shapes. */
  datatype Reactions = ReactionList(records: seq<ReactionRecord>) | ReactionMap(byEmoji: EmojiMap)

  /** `message.reactions || {}` as the HTTP handler sees it: an array has no
      emoji-named entries, so it reads as the empty object. */
  function EmojiView(r: Reactions): (view: EmojiMap)
    ensures r.ReactionMap? ==> view == r.byEmoji
    ensures r.ReactionList? ==> view == map[]
  {
    match r
    case ReactionList(_) => map[]
    case ReactionMap(m) => m
  }

  /** `users.indexOf(u)`: the first position of `u`, or -1. */
  function IndexOf(users: seq<UserId>, u: UserId): (i: int)
    ensures -1 <= i < |users|
    ensures i == -1 <==> u !in users
    ensures 0 <= i ==> users[i] == u && u !in users[..i]
  {
    if users == [] then -1
    else if users[0] == u then 0
    else
      var j := IndexOf(users[1..], u);
      assert users[1..][..if j < 0 then 0 else j] == users[1..if j < 0 then 1 else j + 1];
      if j == -1 then -1 else j + 1
  }

  /** `users.splice(i, 1)` */
  function RemoveAt(users: seq<UserId>, i: nat): (r: seq<UserId>)
    requires i < |users|
    ensures |r| == |users| - 1
    ensures multiset(r) == multiset(users) - multiset{users[i]}
  {
    assert users == users[..i] + [users[i]] + users[i + 1..];
    users[..i] + users[i + 1..]
  }

  predicate NoDuplicates(users: seq<UserId>) {
    forall i, j :: 0 <= i < j < |users| ==> users[i] != users[j]
  }

  /** The invariant the object form keeps: each entry counts its users, has
      at least one, and lists none twice. */
  predicate EntryWellFormed(x: Reaction) {
    x.count == |x.users| && x.count > 0 && NoDuplicates(x.users)
  }

  predicate WellFormed(rs: EmojiMap) {
    forall e :: e in rs ==> EntryWellFormed(rs[e])
  }

  /** The users who reacted with `e`, and how many the entry counts. */
  function UsersOf(rs: EmojiMap, e: string): seq<UserId> {
    if e in rs then rs[e].users else []
  }

  function CountOf(rs: EmojiMap, e: string): int {
    if e in rs then rs[e].count else 0
  }

  /** The entry the handler works on: the stored one, or a fresh
      `{ count: 0, users: [] }`. */
  function EntryFor(rs: EmojiMap, emoji: string): Reaction {
    if emoji in rs then rs[emoji] else Reaction(0, [])
  }

  /** One entry after the toggle; `None` when its count reaches zero and the
      key is deleted. */
  function ToggledEntry(x: Reaction, user: UserId): Option<Reaction> {
    var i := IndexOf(x.users, user);
    if i > -1 then
      if x.count - 1 == 0 then None else Some(Reaction(x.count - 1, RemoveAt(x.users, i)))
    else
      Some(Reaction(x.count + 1, x.users + [user]))
  }

  /** The HTTP toggle of `user`'s reaction `emoji`
      (controllers/message.controller.js:277-294). */
  function Toggle(rs: EmojiMap, emoji: string, user: UserId): (r: EmojiMap)
    ensures forall e :: e != emoji ==> (e in r <==> e in rs)
    ensures forall e :: e != emoji && e in rs ==> r[e] == rs[e]
  {
    match ToggledEntry(EntryFor(rs, emoji), user)
    case None => rs - {emoji}
    case Some(x) => rs[emoji := x]
  }

  /** An entry whose count matches its users still does after a toggle. */
  lemma ToggleKeepsCount(rs: EmojiMap, emoji: string, user: UserId)
    requires emoji in rs ==> rs[emoji].count == |rs[emoji].users|
    ensures var r := Toggle(rs, emoji, user);
      emoji in r ==> r[emoji].count == |r[emoji].users|
  {
  }

  lemma RemoveAtKeepsNoDuplicates(users: seq<UserId>, i: nat)
    requires i < |users| && NoDuplicates(users)
    ensures NoDuplicates(RemoveAt(users, i))
    ensures users[i] !in RemoveAt(users, i)
    ensures forall v :: v != users[i] ==> (v in RemoveAt(users, i) <==> v in users)
  {
    var r := RemoveAt(users, i);
    forall a, b | 0 <= a < b < |r| ensures r[a] != r[b] {
      var a' := if a < i then a else a + 1;
      var b' := if b < i then b else b + 1;
      assert r[a] == users[a'] && r[b] == users[b'];
    }
    forall k | 0 <= k < |r| ensures r[k] != users[i] {
      assert r[k] == users[if k < i then k else k + 1];
    }
    forall v | v != users[i] ensures v in r <==> v in users {
      assert v in multiset(r) <==> v in multiset(users);
    }
  }

  lemma AppendKeepsNoDuplicates(users: seq<UserId>, user: UserId)
    requires NoDuplicates(users) && user !in users
    ensures NoDuplicates(users + [user])
  {
    var us := users + [user];
    forall a, b | 0 <= a < b < |us| ensures us[a] != us[b] {
      if b == |us| - 1 {
        assert us[a] == users[a];
      }
    }
  }

  /** The toggle keeps the object form well formed. */
  lemma ToggleKeepsWellFormed(rs: EmojiMap, emoji: string, user: UserId)
    requires WellFormed(rs)
    ensures WellFormed(Toggle(rs, emoji, user))
  {
    var x := EntryFor(rs, emoji);
    var i := IndexOf(x.users, user);
    if i > -1 {
      RemoveAtKeepsNoDuplicates(x.users, i);
    } else {
      AppendKeepsNoDuplicates(x.users, user);
    }
  }

  /** A toggle flips whether the user has reacted with that emoji, moves the
      count by one in the matching direction, and leaves the other users'
      reactions as they were. */
  lemma ToggleFlipsMembership(rs: EmojiMap, emoji: string, user: UserId)
    requires WellFormed(rs)
    ensures var r := Toggle(rs, emoji, user);
      && (user in UsersOf(r, emoji) <==> user !in UsersOf(rs, emoji))
      && CountOf(r, emoji) == CountOf(rs, emoji) + (if user in UsersOf(rs, emoji) then -1 else 1)
      && (forall v :: v != user ==> (v in UsersOf(r, emoji) <==> v in UsersOf(rs, emoji)))
  {
    var x := EntryFor(rs, emoji);
    var i := IndexOf(x.users, user);
    if i > -1 {
      RemoveAtKeepsNoDuplicates(x.users, i);
    }
  }

  lemma IndexOfAppended(users: seq<UserId>, user: UserId)
    requires user !in users
    ensures IndexOf(users + [user], user) == |users|
    ensures RemoveAt(users + [user], |users|) == users
  {
    var us := users + [user];
    assert us[..|users|] == users;
  }

  /** The toggle replaces or deletes only the toggled entry. */
  lemma ToggleReplaces(rs: EmojiMap, emoji: string, user: UserId)
    ensures ToggledEntry(EntryFor(rs, emoji), user).Some? ==>
      Toggle(rs, emoji, user) == rs[emoji := ToggledEntry(EntryFor(rs, emoji), user).value]
    ensures ToggledEntry(EntryFor(rs, emoji), user).None? ==> Toggle(rs, emoji, user) == rs - {emoji}
  {
  }

  /** On one entry: adding a new user and removing them again gives the
      entry back, or deletes it when it was the fresh empty one. */
  lemma AddThenRemoveEntry(x: Reaction, user: UserId)
    requires user !in x.users
    ensures ToggledEntry(x, user) == Some(Reaction(x.count + 1, x.users + [user]))
    ensures ToggledEntry(Reaction(x.count + 1, x.users + [user]), user) == if x.count == 0 then None else Some(x)
  {
    IndexOfAppended(x.users, user);
  }

  /** Overwriting an entry and then restoring or deleting it again gives
      the map back. */
  lemma OverwriteUndone(rs: EmojiMap, emoji: string, y: Reaction)
    ensures emoji in rs ==> rs[emoji := y][emoji := rs[emoji]] == rs
    ensures emoji !in rs ==> rs[emoji := y] - {emoji} == rs
  {
  }

  /** Reacting and then un-reacting restores the reactions exactly. */
  lemma ToggleTwiceRestoresNewReaction(rs: EmojiMap, emoji: string, user: UserId)
    requires emoji in rs ==> rs[emoji].count > 0
    requires user !in UsersOf(rs, emoji)
    ensures Toggle(Toggle(rs, emoji, user), emoji, user) == rs
  {
    var x := EntryFor(rs, emoji);
    AddThenRemoveEntry(x, user);
    var added := Reaction(x.count + 1, x.users + [user]);
    ToggleReplaces(rs, emoji, user);
    var r1 := rs[emoji := added];
    assert EntryFor(r1, emoji) == added;
    ToggleReplaces(r1, emoji, user);
    OverwriteUndone(rs, emoji, added);
  }

  /** On one entry: removing a present user and adding them again keeps the
      count and moves the user to the end, passing through deletion when
      they were the only one. */
  lemma RemoveThenAddEntry(x: Reaction, user: UserId)
    requires EntryWellFormed(x) && user in x.users
    ensures var rest := RemoveAt(x.users, IndexOf(x.users, user));
      && user !in rest
      && ToggledEntry(x, user) == (if x.count == 1 then None else Some(Reaction(x.count - 1, rest)))
      && ToggledEntry(Reaction(x.count - 1, rest), user) == Some(Reaction(x.count, rest + [user]))
      && (x.count == 1 ==> rest == [])
  {
    var i := IndexOf(x.users, user);
    RemoveAtKeepsNoDuplicates(x.users, i);
  }

  /** Un-reacting and then reacting again restores the count and the set of
      users, but moves the user to the end of the list. */
  lemma ToggleTwiceReordersExistingReaction(rs: EmojiMap, emoji: string, user: UserId)
    requires emoji in rs && EntryWellFormed(rs[emoji])
    requires user in rs[emoji].users
    ensures var r := Toggle(Toggle(rs, emoji, user), emoji, user);
      && r.Keys == rs.Keys
      && (forall e :: e in rs && e != emoji ==> r[e] == rs[e])
      && r[emoji].count == rs[emoji].count
      && multiset(r[emoji].users) == multiset(rs[emoji].users)
      && r[emoji].users == RemoveAt(rs[emoji].users, IndexOf(rs[emoji].users, user)) + [user]
  {
    var x := rs[emoji];
    var i := IndexOf(x.users, user);
    RemoveThenAddEntry(x, user);
    var rest := RemoveAt(x.users, i);
    var back := Reaction(x.count, rest + [user]);
    ToggleReplaces(rs, emoji, user);
    var r1 := Toggle(rs, emoji, user);
    if x.count == 1 {
      assert EntryFor(r1, emoji) == Reaction(0, []);
      assert rest + [user] == [user];
      AddThenRemoveEntry(Reaction(0, []), user);
    } else {
      assert EntryFor(r1, emoji) == Reaction(x.count - 1, rest);
    }
    ToggleReplaces(r1, emoji, user);
    assert Toggle(r1, emoji, user) == rs[emoji := back];
    assert multiset(rest + [user]) == multiset(rest) + multiset{user};
  }

  /** A concrete case of the reordering: toggling "a" twice on ["a", "b"]
      leaves ["b", "a"]. */
  lemma ToggleTwiceOrderWitness()
    ensures var rs := map["+1" := Reaction(2, ["a", "b"])];
      Toggle(Toggle(rs, "+1", "a"), "+1", "a") == map["+1" := Reaction(2, ["b", "a"])]
  {
    var us: seq<UserId> := ["a", "b"];
    assert IndexOf(us, "a") == 0;
    assert RemoveAt(us, 0) == ["b"];
    assert IndexOf(["b"], "a") == -1;
    var rs := map["+1" := Reaction(2, us)];
    assert Toggle(rs, "+1", "a") == map["+1" := Reaction(1, ["b"])];
    assert ["b"] + ["a"] == ["b", "a"];
  }

  /** The socket handler's `$push` of one record. MongoDB refuses `$push` on
      a field that is not an array, so on the object form it fails. */
  function PushRecord(r: Reactions, rec: ReactionRecord): (pushed: Option<Reactions>)
    ensures pushed.Some? <==> r.ReactionList?
    ensures pushed.Some? ==> pushed.value == ReactionList(r.records + [rec])
  {
    match r
    case ReactionList(records) => Some(ReactionList(records + [rec]))
    case ReactionMap(_) => None
  }
}
