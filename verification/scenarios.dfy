/**
 * Whole sessions driven through the coordinator's handlers, with what the
 * handlers' contracts alone let a client conclude about the store and the emits.
 */
module Scenarios {
  import opened Types
  import opened Store
  import opened Notify
  import opened Coordinator

  /** The host's user record in the sessions below. */
  function Host(): User { User("host", "u1", "A", "R", false) }

  /** The guest's user record in the sessions below. */
  function Guest(): User { User("guest", "u2", "B", "R", true) }

  /**
   * A host creates room "R", a guest joins it, the host leaves, the guest leaves.
   * The guest's join broadcasts the member list read before the join ([host]),
   * and the room is gone once the last member has left.
   */
  method HostGuestSession() returns (sent: seq<Delivery>, roomsAfter: seq<Room>, usersAfter: seq<User>)
    ensures sent == [
      Delivery(ToSocket("A"), RoomIdMsg("R")),
      Delivery(ToSocket("A"), RoomUpdate([Host()])),
      Delivery(ToSocket("A"), ConnPrepare("B")),
      Delivery(ToRoom("R"), RoomUpdate([Host()])),
      Delivery(ToRoom("R"), UserDisconnected("A")),
      Delivery(ToRoom("R"), RoomUpdate([Guest()]))
    ]
    ensures roomsAfter == [] && usersAfter == []
  {
    var c := new Coordinator();
    c.CreateNewRoom("A", "host", false, "R", "u1");
    GuestJoins(c);
    HostLeaves(c);
    GuestLeaves(c);
    sent, roomsAfter, usersAfter := c.outbox, c.rooms, c.users;
  }

  /** The guest's `join-room` into the host's one-member room. */
  method GuestJoins(c: Coordinator)
    requires c.Valid() && c.rooms == [Room("R", [Host()])] && c.users == [Host()]
    modifies c
    ensures c.Valid() && c.rooms == [Room("R", [Host(), Guest()])] && c.users == [Host(), Guest()]
    ensures c.outbox == old(c.outbox) + [Delivery(ToSocket("A"), ConnPrepare("B")),
                                         Delivery(ToRoom("R"), RoomUpdate([Host()]))]
  {
    assert FindRoom(c.rooms, "R") == Some(0);
    assert Prepares([Host()], "B") == [Delivery(ToSocket("A"), ConnPrepare("B"))];
    c.JoinRoom("B", "guest", "R", true, "u2");
    assert [Host()] + [Guest()] == [Host(), Guest()];
  }

  /** The host's socket disconnects; the guest stays. */
  method HostLeaves(c: Coordinator)
    requires c.Valid() && c.rooms == [Room("R", [Host(), Guest()])] && c.users == [Host(), Guest()]
    modifies c
    ensures c.Valid() && c.rooms == [Room("R", [Guest()])] && c.users == [Guest()]
    ensures c.outbox == old(c.outbox) + [Delivery(ToRoom("R"), UserDisconnected("A")),
                                         Delivery(ToRoom("R"), RoomUpdate([Guest()]))]
  {
    assert FindUser(c.users, "A") == Some(0);
    assert FindRoom(c.rooms, "R") == Some(0);
    assert Without([Host(), Guest()], "A") == [Guest()];
    var outcome := c.Disconnect("A");
  }

  /** The last member's socket disconnects and the room record goes. */
  method GuestLeaves(c: Coordinator)
    requires c.Valid() && c.rooms == [Room("R", [Guest()])] && c.users == [Guest()]
    modifies c
    ensures c.Valid() && c.rooms == [] && c.users == [] && c.outbox == old(c.outbox)
  {
    assert FindUser(c.users, "B") == Some(0);
    assert FindRoom(c.rooms, "R") == Some(0);
    assert Without([Guest()], "B") == [];
    var outcome := c.Disconnect("B");
  }

  /**
   * Four sockets fill room "R", which the room-exists check then reports full;
   * a fifth join is still admitted.
   */
  method FullRoomAdmitsJoin() returns (reply: RoomExistsReply, members: nat)
    ensures reply == RoomExists(true)
    ensures members == 5
  {
    var c := new Coordinator();
    c.CreateNewRoom("s1", "p1", false, "R", "u1");
    c.JoinRoom("s2", "p2", "R", false, "u2");
    c.JoinRoom("s3", "p3", "R", false, "u3");
    c.JoinRoom("s4", "p4", "R", false, "u4");
    assert |c.rooms| == 1 && c.rooms[0].id == "R" && |c.rooms[0].connectedUsers| == 4;
    reply := CheckRoom(c.rooms, "R");
    c.JoinRoom("s5", "p5", "R", false, "u5");
    members := |c.rooms[0].connectedUsers|;
  }

  /**
   * A join naming a room that does not exist stores the user anyway and emits
   * nothing; when that socket later disconnects, the handler finds the user but
   * no room, and throws with the user record still stored.
   */
  method JoinMissingRoomThenLeave() returns (outcome: Outcome, usersAfter: seq<User>, sent: seq<Delivery>)
    ensures outcome == Threw(RoomRecordMissing)
    ensures usersAfter == [User("p", "u1", "S", "nowhere", false)]
    ensures sent == []
  {
    var c := new Coordinator();
    c.JoinRoom("S", "p", "nowhere", false, "u1");
    outcome := c.Disconnect("S");
    usersAfter, sent := c.users, c.outbox;
  }

  /** Signals and init notices reach any socket id given, registered or not, and change no collection. */
  method RelayToUnknownSocket() returns (sent: seq<Delivery>, roomsAfter: seq<Room>, usersAfter: seq<User>)
    ensures sent == [Delivery(ToSocket("ghost"), ConnSignal("offer", "A")),
                     Delivery(ToSocket("ghost"), ConnInit("A"))]
    ensures roomsAfter == [] && usersAfter == []
  {
    var c := new Coordinator();
    c.Signal("A", "ghost", "offer");
    c.Init("A", "ghost");
    sent, roomsAfter, usersAfter := c.outbox, c.rooms, c.users;
  }
}
