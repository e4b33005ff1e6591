/** The typing tracker of server.js: for each room, the users currently shown
    as typing. The source keeps a `Set` of `{ userId, userName }` objects per
    room and looks entries up by `userId`; the model keeps them in insertion
    order. */
module Typing {
  import opened Base

  datatype Typist = Typist(userId: UserId, userName: string)

  type TypingMap = map<RoomId, seq<Typist>>

  /** `Array.from(typing).find(t => t.userId === u)`, as a position: the
      first entry of `u`, or -1. */
  function FindTypist(ts: seq<Typist>, u: UserId): (i: int)
    ensures -1 <= i < |ts|
    ensures i == -1 <==> forall j :: 0 <= j < |ts| ==> ts[j].userId != u
    ensures 0 <= i ==> ts[i].userId == u && forall j :: 0 <= j < i ==> ts[j].userId != u
  {
    FindFrom(ts, u, 0)
  }

  /** The search from position `k` on. */
  function FindFrom(ts: seq<Typist>, u: UserId, k: nat): (i: int)
    requires k <= |ts|
    requires forall j :: 0 <= j < k ==> ts[j].userId != u
    ensures -1 <= i < |ts|
    ensures i == -1 <==> forall j :: 0 <= j < |ts| ==> ts[j].userId != u
    ensures 0 <= i ==> ts[i].userId == u && forall j :: 0 <= j < i ==> ts[j].userId != u
    decreases |ts| - k
  {
    if k == |ts| then -1
    else if ts[k].userId == u then k
    else FindFrom(ts, u, k + 1)
  }

  /** At most one entry per user. */
  predicate OnePerUser(ts: seq<Typist>) {
    forall i, j :: 0 <= i < j < |ts| ==> ts[i].userId != ts[j].userId
  }

  predicate HasTypist(ts: seq<Typist>, u: UserId) {
    FindTypist(ts, u) >= 0
  }

  /** The entries of one room; a room never typed in has none. */
  function TypistsIn(typing: TypingMap, room: RoomId): seq<Typist> {
    if room in typing then typing[room] else []
  }

  predicate IsTyping(typing: TypingMap, room: RoomId, u: UserId) {
    HasTypist(TypistsIn(typing, room), u)
  }

  /** `typing.add(...)` guarded by the lookup (server.js:273-276). */
  function AddTypist(ts: seq<Typist>, t: Typist): (r: seq<Typist>)
    ensures HasTypist(ts, t.userId) ==> r == ts
    ensures !HasTypist(ts, t.userId) ==> r == ts + [t]
  {
    if HasTypist(ts, t.userId) then ts else ts + [t]
  }

  /** `typing.delete(userTyping)` after the lookup. */
  function RemoveTypist(ts: seq<Typist>, u: UserId): (r: seq<Typist>)
    ensures !HasTypist(ts, u) ==> r == ts
    ensures HasTypist(ts, u) ==> |r| == |ts| - 1
  {
    var i := FindTypist(ts, u);
    if i < 0 then ts else ts[..i] + ts[i + 1..]
  }

  lemma AddTypistKeepsOnePerUser(ts: seq<Typist>, t: Typist)
    requires OnePerUser(ts)
    ensures OnePerUser(AddTypist(ts, t))
    ensures HasTypist(AddTypist(ts, t), t.userId)
    ensures forall x :: x in ts ==> x in AddTypist(ts, t)
  {
    if !HasTypist(ts, t.userId) {
      var r := ts + [t];
      assert r[|ts|] == t;
      forall i, j | 0 <= i < j < |r| ensures r[i].userId != r[j].userId {
        if j == |ts| {
          assert r[i] == ts[i];
        }
      }
    }
  }

  /** Position `k` of the list without entry `i` holds entry `k` or `k + 1`. */
  lemma DropAt(ts: seq<Typist>, i: nat, r: seq<Typist>)
    requires i < |ts| && r == ts[..i] + ts[i + 1..]
    ensures |r| == |ts| - 1
    ensures forall k :: 0 <= k < |r| ==> r[k] == ts[if k < i then k else k + 1]
  {
  }

  /** Removing a user's entry from a room where they have at most one leaves
      none of theirs and every other entry in place. */
  lemma RemoveTypistSpec(ts: seq<Typist>, u: UserId)
    requires OnePerUser(ts)
    ensures var r := RemoveTypist(ts, u);
      && OnePerUser(r)
      && !HasTypist(r, u)
      && forall x: Typist :: x.userId != u ==> (x in r <==> x in ts)
  {
    var i := FindTypist(ts, u);
    if i >= 0 {
      var r := ts[..i] + ts[i + 1..];
      assert RemoveTypist(ts, u) == r;
      DropAt(ts, i, r);
      DropKeepsOnePerUser(ts, i, r);
      DropKeepsOthers(ts, i, r);
      assert FindTypist(r, u) == -1;
    }
  }

  lemma DropKeepsOnePerUser(ts: seq<Typist>, i: nat, r: seq<Typist>)
    requires OnePerUser(ts) && i < |ts| && |r| == |ts| - 1
    requires forall k :: 0 <= k < |r| ==> r[k] == ts[if k < i then k else k + 1]
    ensures OnePerUser(r)
    ensures forall k :: 0 <= k < |r| ==> r[k].userId != ts[i].userId
  {
    forall a, b | 0 <= a < b < |r| ensures r[a].userId != r[b].userId {
      assert r[a] == ts[if a < i then a else a + 1];
      assert r[b] == ts[if b < i then b else b + 1];
    }
    forall k | 0 <= k < |r| ensures r[k].userId != ts[i].userId {
      assert r[k] == ts[if k < i then k else k + 1];
    }
  }

  lemma DropKeepsOthers(ts: seq<Typist>, i: nat, r: seq<Typist>)
    requires i < |ts| && |r| == |ts| - 1
    requires forall k :: 0 <= k < |r| ==> r[k] == ts[if k < i then k else k + 1]
    ensures forall x: Typist :: x.userId != ts[i].userId ==> (x in r <==> x in ts)
  {
    forall x: Typist | x.userId != ts[i].userId ensures x in r <==> x in ts {
      if x in ts {
        var k :| 0 <= k < |ts| && ts[k] == x;
        assert k != i;
        assert r[if k < i then k else k - 1] == x;
      }
    }
  }

  /** The typing map after a `user-typing` event (server.js:268-276): the
      room exists afterwards, whether or not an entry was added. */
  function StartTyping(typing: TypingMap, room: RoomId, t: Typist): (r: TypingMap)
    ensures r.Keys == typing.Keys + {room}
    ensures forall x :: x != room ==> TypistsIn(r, x) == TypistsIn(typing, x)
    ensures r[room] == AddTypist(TypistsIn(typing, room), t)
  {
    typing[room := AddTypist(TypistsIn(typing, room), t)]
  }

  /** `StartTyping` as the handler performs it: first create the room's
      empty set if missing, then add the entry if the user has none. */
  lemma StartTypingInSteps(typing: TypingMap, room: RoomId, t: Typist)
    ensures var m := if room in typing then typing else typing[room := []];
      StartTyping(typing, room, t) == if HasTypist(m[room], t.userId) then m else m[room := m[room] + [t]]
  {
    var m := if room in typing then typing else typing[room := []];
    var r := StartTyping(typing, room, t);
    if HasTypist(m[room], t.userId) {
      assert room in typing;
      assert r.Keys == m.Keys;
      assert forall x :: x in r ==> r[x] == m[x];
    } else {
      assert r.Keys == m[room := m[room] + [t]].Keys;
    }
  }

  /** The typing map after `user-stopped-typing`, `leave-room` or a timer
      expiry for `u` in `room` (server.js:182-191, 286-290, 303-307): only an
      existing entry is deleted, and a room is never removed. */
  function StopTyping(typing: TypingMap, room: RoomId, u: UserId): (r: TypingMap)
    ensures r.Keys == typing.Keys
    ensures forall x :: x != room ==> TypistsIn(r, x) == TypistsIn(typing, x)
    ensures !IsTyping(typing, room, u) ==> r == typing
  {
    if room in typing && HasTypist(typing[room], u) then typing[room := RemoveTypist(typing[room], u)] else typing
  }

  /** The typing map after the disconnect loop (server.js:384-393): the
      user's entry is removed from every room. */
  function StopTypingEverywhere(typing: TypingMap, u: UserId): (r: TypingMap)
    ensures r.Keys == typing.Keys
    ensures forall x :: x in typing ==> r[x] == RemoveTypist(typing[x], u)
  {
    map x | x in typing :: RemoveTypist(typing[x], u)
  }

  /** At most one typing entry per user per room. */
  predicate OnePerUserPerRoom(typing: TypingMap) {
    forall room :: room in typing ==> OnePerUser(typing[room])
  }

  /** Starting keeps at most one entry per user per room and shows the user
      as typing. */
  lemma StartTypingKeepsOnePerUser(typing: TypingMap, room: RoomId, t: Typist)
    requires OnePerUserPerRoom(typing)
    ensures OnePerUserPerRoom(StartTyping(typing, room, t))
    ensures IsTyping(StartTyping(typing, room, t), room, t.userId)
  {
    AddTypistKeepsOnePerUser(TypistsIn(typing, room), t);
  }

  /** Stopping keeps the invariant, shows the user as not typing in that
      room, and leaves every other user's entries there in place. */
  lemma StopTypingKeepsOnePerUser(typing: TypingMap, room: RoomId, u: UserId)
    requires OnePerUserPerRoom(typing)
    ensures OnePerUserPerRoom(StopTyping(typing, room, u))
    ensures !IsTyping(StopTyping(typing, room, u), room, u)
    ensures forall x: Typist :: x.userId != u ==> (x in TypistsIn(StopTyping(typing, room, u), room) <==> x in TypistsIn(typing, room))
  {
    if room in typing {
      RemoveTypistSpec(typing[room], u);
    }
  }

  /** The disconnect cleanup keeps the invariant and leaves the user typing
      nowhere. */
  lemma StopTypingEverywhereKeepsOnePerUser(typing: TypingMap, u: UserId)
    requires OnePerUserPerRoom(typing)
    ensures OnePerUserPerRoom(StopTypingEverywhere(typing, u))
    ensures forall x :: !IsTyping(StopTypingEverywhere(typing, u), x, u)
  {
    forall x | x in typing ensures OnePerUser(RemoveTypist(typing[x], u)) && !HasTypist(RemoveTypist(typing[x], u), u) {
      RemoveTypistSpec(typing[x], u);
    }
  }

  /** Timers are never cancelled, so the first timer armed clears the entry
      even when the user typed again since: after typing twice and one
      expiry, the user is shown as not typing while a timer is still
      pending. */
  lemma StaleTimerClearsFreshTyping(typing: TypingMap, room: RoomId, t: Typist)
    requires OnePerUserPerRoom(typing)
    ensures var twice := StartTyping(StartTyping(typing, room, t), room, t);
      && IsTyping(twice, room, t.userId)
      && !IsTyping(StopTyping(twice, room, t.userId), room, t.userId)
  {
    var once := StartTyping(typing, room, t);
    StartTypingKeepsOnePerUser(typing, room, t);
    StartTypingKeepsOnePerUser(once, room, t);
    StopTypingKeepsOnePerUser(StartTyping(once, room, t), room, t.userId);
  }
}
