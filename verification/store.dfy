/**
 * The Room and AppUser collections as in-memory sequences, with the lookups and
 * single-document writes the handlers perform on them, and the room-exists check.
 * `find` returns the first match; `updateOne` and `deleteOne` act on the first
 * document matching their filter.
 */
module Store {
  import opened Types

  /** `rooms.find((room) => room.id === id)`, as the index of the first match. */
  function FindRoom(rooms: seq<Room>, id: RoomId): (r: Option<nat>)
    ensures r.Some? ==> r.value < |rooms| && rooms[r.value].id == id
    ensures r.Some? ==> forall k :: 0 <= k < r.value ==> rooms[k].id != id
    ensures r.None? <==> forall k :: 0 <= k < |rooms| ==> rooms[k].id != id
  {
    if |rooms| == 0 then None
    else if rooms[0].id == id then Some(0)
    else match FindRoom(rooms[1..], id)
      case None => None
      case Some(k) => Some(k + 1)
  }

  /** `users.find((user) => user.socketId === socketId)`, as the index of the first match. */
  function FindUser(users: seq<User>, socketId: SocketId): (r: Option<nat>)
    ensures r.Some? ==> r.value < |users| && users[r.value].socketId == socketId
    ensures r.Some? ==> forall k :: 0 <= k < r.value ==> users[k].socketId != socketId
    ensures r.None? <==> forall k :: 0 <= k < |users| ==> users[k].socketId != socketId
  {
    if |users| == 0 then None
    else if users[0].socketId == socketId then Some(0)
    else match FindUser(users[1..], socketId)
      case None => None
      case Some(k) => Some(k + 1)
  }

  /** The number of entries of `members` whose socket is `socketId`. */
  function CountSocket(members: seq<User>, socketId: SocketId): (c: nat)
    ensures c <= |members|
  {
    if |members| == 0 then 0
    else (if members[0].socketId == socketId then 1 else 0) + CountSocket(members[1..], socketId)
  }

  /** A socket has no entries exactly when no listed user is on it. */
  lemma {:induction false} CountSocketZero(members: seq<User>, socketId: SocketId)
    ensures CountSocket(members, socketId) == 0 <==>
            forall k :: 0 <= k < |members| ==> members[k].socketId != socketId
  {
    if |members| > 0 {
      CountSocketZero(members[1..], socketId);
      assert forall k :: 1 <= k < |members| ==> members[k] == members[1..][k - 1];
    }
  }

  /** `members.filter((u) => u.socketId !== socketId)`. */
  function Without(members: seq<User>, socketId: SocketId): (r: seq<User>)
    ensures |r| + CountSocket(members, socketId) == |members|
  {
    if |members| == 0 then []
    else if members[0].socketId != socketId then [members[0]] + Without(members[1..], socketId)
    else Without(members[1..], socketId)
  }

  /** A user survives the filter exactly when it is listed and not on the leaving socket. */
  lemma {:induction false} WithoutMembers(members: seq<User>, socketId: SocketId, u: User)
    ensures u in Without(members, socketId) <==> u in members && u.socketId != socketId
  {
    if |members| > 0 {
      WithoutMembers(members[1..], socketId, u);
      assert members == [members[0]] + members[1..];
    }
  }

  /** Filtering keeps the survivors in their original order: it distributes over concatenation. */
  lemma {:induction false} WithoutAppend(a: seq<User>, b: seq<User>, socketId: SocketId)
    ensures Without(a + b, socketId) == Without(a, socketId) + Without(b, socketId)
  {
    if |a| == 0 {
      assert a + b == b;
    } else {
      assert (a + b)[0] == a[0];
      assert (a + b)[1..] == a[1..] + b;
      WithoutAppend(a[1..], b, socketId);
    }
  }

  /** A list with no entry for the socket comes out of the filter unchanged. */
  lemma {:induction false} WithoutAbsent(members: seq<User>, socketId: SocketId)
    requires forall k :: 0 <= k < |members| ==> members[k].socketId != socketId
    ensures Without(members, socketId) == members
  {
    if |members| > 0 {
      WithoutAbsent(members[1..], socketId);
    }
  }

  /** `updateOne({id}, {$set: {connectedUsers: members}})` on the Room collection. */
  function SetMembers(rooms: seq<Room>, id: RoomId, members: seq<User>): (r: seq<Room>)
    ensures |r| == |rooms|
    ensures forall k :: 0 <= k < |rooms| ==> r[k].id == rooms[k].id
    ensures FindRoom(rooms, id).None? ==> r == rooms
    ensures FindRoom(rooms, id).Some? ==>
      r == rooms[FindRoom(rooms, id).value := Room(id, members)]
    ensures FindRoom(r, id) == FindRoom(rooms, id)
  {
    match FindRoom(rooms, id)
    case None => rooms
    case Some(j) => rooms[j := Room(id, members)]
  }

  /** `deleteOne({id})` on the Room collection. */
  function DeleteRoom(rooms: seq<Room>, id: RoomId): (r: seq<Room>)
    ensures FindRoom(rooms, id).None? ==> r == rooms
    ensures FindRoom(rooms, id).Some? ==>
      var j := FindRoom(rooms, id).value;
      |r| == |rooms| - 1 && r == rooms[..j] + rooms[j + 1..]
    ensures UniqueRoomIds(rooms) ==> forall k :: 0 <= k < |r| ==> r[k].id != id
    ensures UniqueRoomIds(rooms) && NoEmptyRoom(rooms) ==> UniqueRoomIds(r) && NoEmptyRoom(r)
  {
    match FindRoom(rooms, id)
    case None => rooms
    case Some(j) =>
      RemoveKeepsInvariants(rooms, j);
      rooms[..j] + rooms[j + 1..]
  }

  /** `deleteOne({socketId})` on the AppUser collection. */
  function DeleteUser(users: seq<User>, socketId: SocketId): (r: seq<User>)
    ensures FindUser(users, socketId).None? ==> r == users
    ensures FindUser(users, socketId).Some? ==>
      var i := FindUser(users, socketId).value;
      |r| == |users| - 1 && r == users[..i] + users[i + 1..]
    ensures CountSocket(r, socketId) == if CountSocket(users, socketId) == 0 then 0 else CountSocket(users, socketId) - 1
  {
    CountSocketZero(users, socketId);
    match FindUser(users, socketId)
    case None => users
    case Some(i) =>
      CountSocketSplit(users, i, socketId);
      CountSocketAppend(users[..i], users[i + 1..], socketId);
      users[..i] + users[i + 1..]
  }

  /** Counting distributes over concatenation. */
  lemma {:induction false} CountSocketAppend(a: seq<User>, b: seq<User>, socketId: SocketId)
    ensures CountSocket(a + b, socketId) == CountSocket(a, socketId) + CountSocket(b, socketId)
  {
    if |a| == 0 {
      assert a + b == b;
    } else {
      assert (a + b)[0] == a[0];
      assert (a + b)[1..] == a[1..] + b;
      CountSocketAppend(a[1..], b, socketId);
    }
  }

  /** Counting over a list split around position `i`. */
  lemma CountSocketSplit(users: seq<User>, i: nat, socketId: SocketId)
    requires i < |users|
    ensures CountSocket(users, socketId)
         == CountSocket(users[..i], socketId)
          + (if users[i].socketId == socketId then 1 else 0)
          + CountSocket(users[i + 1..], socketId)
  {
    assert users == users[..i] + ([users[i]] + users[i + 1..]);
    CountSocketAppend(users[..i], [users[i]] + users[i + 1..], socketId);
    CountSocketAppend([users[i]], users[i + 1..], socketId);
    assert [users[i]][1..] == [];
  }

  /** Deleting the room whose member list was just replaced removes the original record. */
  lemma DeleteAfterSet(rooms: seq<Room>, j: nat, members: seq<User>)
    requires j < |rooms| && FindRoom(rooms, rooms[j].id) == Some(j)
    ensures DeleteRoom(rooms[j := Room(rooms[j].id, members)], rooms[j].id) == rooms[..j] + rooms[j + 1..]
  {
    var updated := rooms[j := Room(rooms[j].id, members)];
    assert FindRoom(updated, rooms[j].id) == Some(j);
    assert updated[..j] == rooms[..j];
    assert updated[j + 1..] == rooms[j + 1..];
  }

  /** Replacing one room's member list with a non-empty one keeps both collection invariants. */
  lemma SetMembersKeepsInvariants(rooms: seq<Room>, j: nat, members: seq<User>)
    requires j < |rooms| && UniqueRoomIds(rooms) && NoEmptyRoom(rooms) && |members| > 0
    ensures var r := rooms[j := Room(rooms[j].id, members)];
      UniqueRoomIds(r) && NoEmptyRoom(r)
  {
  }

  /** Removing one room keeps both collection invariants, and no room with its id is left. */
  lemma RemoveKeepsInvariants(rooms: seq<Room>, j: nat)
    requires j < |rooms|
    ensures var r := rooms[..j] + rooms[j + 1..];
      && (UniqueRoomIds(rooms) ==> forall k :: 0 <= k < |r| ==> r[k].id != rooms[j].id)
      && (UniqueRoomIds(rooms) && NoEmptyRoom(rooms) ==> UniqueRoomIds(r) && NoEmptyRoom(r))
  {
  }

  /** Room ids are unique across the collection (each comes from a fresh uuid). */
  ghost predicate UniqueRoomIds(rooms: seq<Room>) {
    forall i, j :: 0 <= i < j < |rooms| ==> rooms[i].id != rooms[j].id
  }

  /** No stored room has zero members. */
  ghost predicate NoEmptyRoom(rooms: seq<Room>) {
    forall k :: 0 <= k < |rooms| ==> |rooms[k].connectedUsers| > 0
  }

  /** A room is reported full once it holds more than this many members. */
  const FullAbove: nat := 3

  /** The body of the room-exists reply: `{roomExists: true, full}` or `{roomExists: false}`. */
  datatype RoomExistsReply = RoomExists(full: bool) | NoSuchRoom

  /** The `/api/room-exists/:roomId` route. */
  function CheckRoom(rooms: seq<Room>, roomId: RoomId): (reply: RoomExistsReply)
    ensures reply == NoSuchRoom <==> forall k :: 0 <= k < |rooms| ==> rooms[k].id != roomId
    ensures reply.RoomExists? ==>
      exists k :: 0 <= k < |rooms| && rooms[k].id == roomId &&
                  (reply.full <==> |rooms[k].connectedUsers| > FullAbove)
    ensures UniqueRoomIds(rooms) ==>
      forall k :: 0 <= k < |rooms| && rooms[k].id == roomId ==>
        reply == RoomExists(|rooms[k].connectedUsers| > FullAbove)
  {
    match FindRoom(rooms, roomId)
    case None => NoSuchRoom
    case Some(j) => RoomExists(|rooms[j].connectedUsers| > FullAbove)
  }
}
