/**
 * The `conn-prepare` fan-out of the join handler: every listed member whose socket
 * is not the joiner's is told, once per entry, that the joiner is coming.
 */
module Notify {
  import opened Types
  import opened Store

  /** The deliveries the `forEach` over `members` emits, in list order. */
  function Prepares(members: seq<User>, joiner: SocketId): (r: seq<Delivery>)
    ensures |r| + CountSocket(members, joiner) == |members|
  {
    if |members| == 0 then []
    else
      var head := if members[0].socketId != joiner
                  then [Delivery(ToSocket(members[0].socketId), ConnPrepare(joiner))]
                  else [];
      head + Prepares(members[1..], joiner)
  }

  /** Every notice is a `conn-prepare` carrying the joiner's socket id, sent to some other socket. */
  lemma {:induction false} PreparesShape(members: seq<User>, joiner: SocketId, k: nat)
    requires k < |Prepares(members, joiner)|
    ensures var d := Prepares(members, joiner)[k];
      && d.message == ConnPrepare(joiner) && d.message.EventName() == "conn-prepare"
      && d.target.ToSocket? && d.target.socketId != joiner
  {
    var head := if members[0].socketId != joiner
                then [Delivery(ToSocket(members[0].socketId), ConnPrepare(joiner))]
                else [];
    if k >= |head| {
      PreparesShape(members[1..], joiner, k - |head|);
    }
  }

  /** The number of deliveries in `sent` addressed to the socket `socketId`. */
  function Told(sent: seq<Delivery>, socketId: SocketId): nat {
    if |sent| == 0 then 0
    else (if sent[0].target == ToSocket(socketId) then 1 else 0) + Told(sent[1..], socketId)
  }

  /** The fan-out is emitted in list order: it distributes over concatenation. */
  lemma {:induction false} PreparesAppend(a: seq<User>, b: seq<User>, joiner: SocketId)
    ensures Prepares(a + b, joiner) == Prepares(a, joiner) + Prepares(b, joiner)
  {
    if |a| == 0 {
      assert a + b == b;
    } else {
      assert (a + b)[0] == a[0];
      assert (a + b)[1..] == a[1..] + b;
      PreparesAppend(a[1..], b, joiner);
    }
  }

  /**
   * Who hears about the joiner: a socket other than the joiner's gets one
   * `conn-prepare` per list entry it owns; the joiner's own socket gets none.
   */
  lemma {:induction false} PreparesReach(members: seq<User>, joiner: SocketId, socketId: SocketId)
    ensures Told(Prepares(members, joiner), socketId)
         == if socketId == joiner then 0 else CountSocket(members, socketId)
  {
    if |members| > 0 {
      var head := if members[0].socketId != joiner
                  then [Delivery(ToSocket(members[0].socketId), ConnPrepare(joiner))]
                  else [];
      var tail := Prepares(members[1..], joiner);
      assert Prepares(members, joiner) == head + tail;
      ToldAppend(head, tail, socketId);
      PreparesReach(members[1..], joiner, socketId);
    }
  }

  /** Counting deliveries distributes over concatenation. */
  lemma {:induction false} ToldAppend(a: seq<Delivery>, b: seq<Delivery>, socketId: SocketId)
    ensures Told(a + b, socketId) == Told(a, socketId) + Told(b, socketId)
  {
    if |a| == 0 {
      assert a + b == b;
    } else {
      assert (a + b)[0] == a[0];
      assert (a + b)[1..] == a[1..] + b;
      ToldAppend(a[1..], b, socketId);
    }
  }

  /** Entries for the joiner's own socket, appended after the members, add no delivery. */
  lemma {:induction false} PreparesSkipJoiner(members: seq<User>, extra: seq<User>, joiner: SocketId)
    requires forall k :: 0 <= k < |extra| ==> extra[k].socketId == joiner
    ensures Prepares(members + extra, joiner) == Prepares(members, joiner)
  {
    PreparesAppend(members, extra, joiner);
    assert CountSocket(extra, joiner) == |extra| by {
      CountAllSocket(extra, joiner);
    }
    assert Prepares(members, joiner) + [] == Prepares(members, joiner);
  }

  /** A list owned wholly by one socket counts every entry for it. */
  lemma {:induction false} CountAllSocket(users: seq<User>, socketId: SocketId)
    requires forall k :: 0 <= k < |users| ==> users[k].socketId == socketId
    ensures CountSocket(users, socketId) == |users|
  {
    if |users| > 0 {
      CountAllSocket(users[1..], socketId);
    }
  }

  /** One more list entry adds at most its own notice, at the end. */
  lemma PreparesSnoc(members: seq<User>, user: User, joiner: SocketId)
    ensures Prepares(members + [user], joiner)
         == Prepares(members, joiner)
          + if user.socketId != joiner then [Delivery(ToSocket(user.socketId), ConnPrepare(joiner))] else []
  {
    PreparesAppend(members, [user], joiner);
    assert [user][1..] == [];
  }

  /** The `forEach` loop itself: walks the list and emits to each member not on the joiner's socket. */
  method PrepareNotices(members: seq<User>, joiner: SocketId) returns (sent: seq<Delivery>)
    ensures sent == Prepares(members, joiner)
  {
    sent := [];
    var i := 0;
    while i < |members|
      invariant 0 <= i <= |members|
      invariant sent == Prepares(members[..i], joiner)
    {
      var user := members[i];
      assert members[..i + 1] == members[..i] + [user];
      PreparesSnoc(members[..i], user, joiner);
      if user.socketId != joiner {
        sent := sent + [Delivery(ToSocket(user.socketId), ConnPrepare(joiner))];
      }
      i := i + 1;
    }
    assert members[..i] == members;
  }
}
