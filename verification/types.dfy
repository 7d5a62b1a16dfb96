/**
 * Records, outbound events and handler outcomes of the room coordinator.
 * Identifiers (socket ids, uuids) are opaque strings.
 */
module Types {

  datatype Option<T> = None | Some(value: T)

  type SocketId = string
  type RoomId = string
  type UserId = string

  /** A record of the AppUser collection: one per socket that created or joined a room. */
  datatype User = User(
    identity: string,
    id: UserId,
    socketId: SocketId,
    roomId: RoomId,
    onlyAudio: bool)

  /** A record of the Room collection; `connectedUsers` holds snapshots of User records. */
  datatype Room = Room(id: RoomId, connectedUsers: seq<User>)

  /** Who an emit reaches: one socket (`socket.emit`, `io.to(socketId)`) or a socket.io room (`io.to(roomId)`). */
  datatype Target = ToSocket(socketId: SocketId) | ToRoom(roomId: RoomId)

  /** The payload of each outbound event; `EventName` gives the name it is emitted under. */
  datatype Message =
    | RoomIdMsg(roomId: RoomId)
    | RoomUpdate(connectedUsers: seq<User>)
    | ConnPrepare(connUserSocketId: SocketId)
    | UserDisconnected(socketId: SocketId)
    | ConnSignal(signal: string, connUserSocketId: SocketId)
    | ConnInit(connUserSocketId: SocketId)
  {
    function EventName(): string {
      match this
      case RoomIdMsg(_) => "room-id"
      case RoomUpdate(_) => "room-update"
      case ConnPrepare(_) => "conn-prepare"
      case UserDisconnected(_) => "user-disconnected"
      case ConnSignal(_, _) => "conn-signal"
      case ConnInit(_) => "conn-init"
    }
  }

  /** One emit: an event with its payload, addressed to a target. */
  datatype Delivery = Delivery(target: Target, message: Message)

  /** The exceptions a handler can throw as written. */
  datatype HandlerError =
    | RoomRecordMissing         // `room` is undefined when reading `room.connectedUsers`
    | ConnectedUsersUndeclared  // `connectedUsers` is not declared in module scope

  /** How one handler invocation ended. */
  datatype Outcome = Completed | Threw(error: HandlerError)
}
