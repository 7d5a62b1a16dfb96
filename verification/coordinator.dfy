/**
 * The socket.io handlers of the signaling server, as one coordinator object that
 * owns the Room and AppUser collections and an append-only outbox of emits.
 * Each handler runs as one atomic step; uuids arrive as parameters.
 */
module Coordinator {
  import opened Types
  import opened Store
  import opened Notify

  class Coordinator {
    /** The Room collection. */
    var rooms: seq<Room>
    /** The AppUser collection. */
    var users: seq<User>
    /** Every emit so far, oldest first. */
    var outbox: seq<Delivery>

    /** Room ids are unique and no stored room is empty. */
    ghost predicate Valid()
      reads this
    {
      UniqueRoomIds(rooms) && NoEmptyRoom(rooms)
    }

    constructor ()
      ensures Valid()
      ensures rooms == [] && users == [] && outbox == []
    {
      rooms, users, outbox := [], [], [];
    }

    /**
     * `create-new-room`: stores a one-member room and its user, then tells the
     * caller the room id and the member list.
     */
    method CreateNewRoom(socket: SocketId, identity: string, onlyAudio: bool, roomId: RoomId, userId: UserId)
      requires Valid()
      requires forall k :: 0 <= k < |rooms| ==> rooms[k].id != roomId  // roomId is a fresh uuid
      modifies this
      ensures Valid()
      ensures var newUser := User(identity, userId, socket, roomId, onlyAudio);
        && users == old(users) + [newUser]
        && rooms == old(rooms) + [Room(roomId, [newUser])]
        && outbox == old(outbox) + [Delivery(ToSocket(socket), RoomIdMsg(roomId)),
                                    Delivery(ToSocket(socket), RoomUpdate([newUser]))]
      ensures CheckRoom(rooms, roomId) == RoomExists(false)
    {
      var newUser := User(identity, userId, socket, roomId, onlyAudio);
      users := users + [newUser];
      var newRoom := Room(roomId, [newUser]);
      rooms := rooms + [newRoom];
      outbox := outbox + [Delivery(ToSocket(socket), RoomIdMsg(roomId))];
      outbox := outbox + [Delivery(ToSocket(socket), RoomUpdate(newRoom.connectedUsers))];
      assert rooms[|rooms| - 1] == newRoom;
    }

    /**
     * `join-room`: always stores the new user; when the room exists, appends the
     * user to its members (with no capacity check), sends `conn-prepare` to every
     * other member and broadcasts `room-update` with the member list as it was
     * read before the join.
     */
    method JoinRoom(socket: SocketId, identity: string, roomId: RoomId, onlyAudio: bool, userId: UserId)
      requires Valid()
      modifies this
      ensures Valid()
      ensures users == old(users) + [User(identity, userId, socket, roomId, onlyAudio)]
      ensures FindRoom(old(rooms), roomId).None? ==> rooms == old(rooms) && outbox == old(outbox)
      ensures FindRoom(old(rooms), roomId).Some? ==>
        var j := FindRoom(old(rooms), roomId).value;
        var before := old(rooms)[j].connectedUsers;
        var newUser := User(identity, userId, socket, roomId, onlyAudio);
        && rooms == old(rooms)[j := Room(roomId, before + [newUser])]
        && outbox == old(outbox) + Prepares(before, socket)
                                 + [Delivery(ToRoom(roomId), RoomUpdate(before))]
    {
      var newUser := User(identity, userId, socket, roomId, onlyAudio);
      var snapshot := rooms;
      users := users + [newUser];
      var found := FindRoom(snapshot, roomId);
      if found.Some? {
        var room := snapshot[found.value];
        var connectedUsers := room.connectedUsers + [newUser];
        rooms := SetMembers(rooms, room.id, connectedUsers);
        // the handler appends the new user a second time before the loop
        connectedUsers := connectedUsers + [newUser];
        assert connectedUsers == room.connectedUsers + [newUser, newUser];
        PreparesSkipJoiner(room.connectedUsers, [newUser, newUser], socket);
        var prepares := PrepareNotices(connectedUsers, socket);
        outbox := outbox + prepares;
        outbox := outbox + [Delivery(ToRoom(roomId), RoomUpdate(room.connectedUsers))];
      }
    }

    /**
     * `disconnect`: for a registered socket, removes its entries from its room and
     * one of its user records; tells the remaining members, or deletes the room
     * when nobody is left. A socket with no user record changes nothing; a user
     * whose room record is gone makes the handler throw before any write.
     */
    method Disconnect(socket: SocketId) returns (outcome: Outcome)
      requires Valid()
      modifies this
      ensures Valid()
      ensures FindUser(old(users), socket).None? ==>
        outcome == Completed && rooms == old(rooms) && users == old(users) && outbox == old(outbox)
      ensures FindUser(old(users), socket).Some? ==>
        var user := old(users)[FindUser(old(users), socket).value];
        FindRoom(old(rooms), user.roomId).None? ==>
          outcome == Threw(RoomRecordMissing) &&
          rooms == old(rooms) && users == old(users) && outbox == old(outbox)
      ensures FindUser(old(users), socket).Some? ==>
        var i := FindUser(old(users), socket).value;
        var user := old(users)[i];
        FindRoom(old(rooms), user.roomId).Some? ==>
          var j := FindRoom(old(rooms), user.roomId).value;
          var remaining := Without(old(rooms)[j].connectedUsers, socket);
          && outcome == Completed
          && users == old(users)[..i] + old(users)[i + 1..]
          && (|remaining| > 0 ==>
                && rooms == old(rooms)[j := Room(user.roomId, remaining)]
                && outbox == old(outbox) + [Delivery(ToRoom(user.roomId), UserDisconnected(socket)),
                                            Delivery(ToRoom(user.roomId), RoomUpdate(remaining))])
          && (|remaining| == 0 ==>
                && rooms == old(rooms)[..j] + old(rooms)[j + 1..]
                && outbox == old(outbox)
                && forall k :: 0 <= k < |rooms| ==> rooms[k].id != user.roomId)
    {
      var found := FindUser(users, socket);
      if found.None? {
        return Completed;
      }
      var user := users[found.value];
      var roomAt := FindRoom(rooms, user.roomId);
      if roomAt.None? {
        return Threw(RoomRecordMissing);
      }
      Leave(socket, found.value, roomAt.value);
      outcome := Completed;
    }

    /**
     * The writes of `disconnect` once the user (at `i`) and its room (at `j`) are
     * found: filter the socket out of the room, delete the user record, then
     * either notify the room or delete it.
     */
    method Leave(socket: SocketId, i: nat, j: nat)
      requires Valid()
      requires FindUser(users, socket) == Some(i)
      requires FindRoom(rooms, users[i].roomId) == Some(j)
      modifies this
      ensures Valid()
      ensures users == old(users)[..i] + old(users)[i + 1..]
      ensures var roomId := old(users)[i].roomId;
        var remaining := Without(old(rooms)[j].connectedUsers, socket);
        && (|remaining| > 0 ==>
              && rooms == old(rooms)[j := Room(roomId, remaining)]
              && outbox == old(outbox) + [Delivery(ToRoom(roomId), UserDisconnected(socket)),
                                          Delivery(ToRoom(roomId), RoomUpdate(remaining))])
        && (|remaining| == 0 ==>
              && rooms == old(rooms)[..j] + old(rooms)[j + 1..]
              && outbox == old(outbox)
              && forall k :: 0 <= k < |rooms| ==> rooms[k].id != roomId)
    {
      var snapshot := rooms;
      var room := snapshot[j];
      var remaining := Without(room.connectedUsers, socket);
      users := DeleteUser(users, socket);
      rooms := SetMembers(rooms, room.id, remaining);
      if |remaining| > 0 {
        AnnounceLeave(snapshot, j, socket, remaining);
      } else {
        CloseRoom(snapshot, j);
      }
    }

    /**
     * The last steps of `disconnect` when members remain: the room, whose member
     * list was just replaced by `remaining`, is told who left and who is still in.
     * `snapshot` is the Room collection as it was before that update.
     */
    method AnnounceLeave(ghost snapshot: seq<Room>, j: nat, socket: SocketId, remaining: seq<User>)
      requires j < |snapshot| && UniqueRoomIds(snapshot) && NoEmptyRoom(snapshot) && |remaining| > 0
      requires rooms == snapshot[j := Room(snapshot[j].id, remaining)]
      modifies this`outbox
      ensures Valid()
      ensures outbox == old(outbox) + [Delivery(ToRoom(snapshot[j].id), UserDisconnected(socket)),
                                       Delivery(ToRoom(snapshot[j].id), RoomUpdate(remaining))]
    {
      SetMembersKeepsInvariants(snapshot, j, remaining);
      outbox := outbox + [Delivery(ToRoom(rooms[j].id), UserDisconnected(socket))];
      outbox := outbox + [Delivery(ToRoom(rooms[j].id), RoomUpdate(remaining))];
    }

    /**
     * The last step of `disconnect` when nobody is left: `deleteOne` on the room
     * whose member list was just emptied. `snapshot` is the Room collection as it
     * was before that emptying update.
     */
    method CloseRoom(ghost snapshot: seq<Room>, j: nat)
      requires j < |snapshot| && UniqueRoomIds(snapshot) && NoEmptyRoom(snapshot)
      requires FindRoom(snapshot, snapshot[j].id) == Some(j)
      requires rooms == snapshot[j := Room(snapshot[j].id, [])]
      modifies this`rooms
      ensures Valid()
      ensures rooms == snapshot[..j] + snapshot[j + 1..]
      ensures forall k :: 0 <= k < |rooms| ==> rooms[k].id != snapshot[j].id
    {
      DeleteAfterSet(snapshot, j, []);
      rooms := DeleteRoom(rooms, rooms[j].id);
      RemoveKeepsInvariants(snapshot, j);
    }

    /** `conn-signal`: forwards the signal to the named socket, tagged with the sender; no lookup, no state change. */
    method Signal(socket: SocketId, connUserSocketId: SocketId, signal: string)
      modifies this`outbox
      ensures rooms == old(rooms) && users == old(users)
      ensures outbox == old(outbox) + [Delivery(ToSocket(connUserSocketId), ConnSignal(signal, socket))]
    {
      outbox := outbox + [Delivery(ToSocket(connUserSocketId), ConnSignal(signal, socket))];
    }

    /** `conn-init`: tells the named socket that the sender is ready; no lookup, no state change. */
    method Init(socket: SocketId, connUserSocketId: SocketId)
      modifies this`outbox
      ensures rooms == old(rooms) && users == old(users)
      ensures outbox == old(outbox) + [Delivery(ToSocket(connUserSocketId), ConnInit(socket))]
    {
      outbox := outbox + [Delivery(ToSocket(connUserSocketId), ConnInit(socket))];
    }

    /**
     * `direct-message`: its guard reads `connectedUsers`, a name that is not in
     * scope, so the handler throws before it emits anything.
     */
    method DirectMessage(socket: SocketId, receiverSocketId: SocketId, messageContent: string, identity: string)
      returns (outcome: Outcome)
      ensures outcome == Threw(ConnectedUsersUndeclared)
    {
      outcome := Threw(ConnectedUsersUndeclared);
    }
  }
}
