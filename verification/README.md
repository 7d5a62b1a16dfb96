# Room coordinator of a WebRTC signaling server, in Dafny

This project models the room-membership coordinator of a small video-call
signaling server. The server keeps two collections:

- **Room** records `{id, connectedUsers}`.
- **AppUser** records `{identity, id, socketId, roomId, onlyAudio}`.

Each socket.io event runs a handler that reads these collections, writes them
and emits events. The model keeps the collections as sequences in a
`Coordinator` object. Every emit is appended to an `outbox` of
`(target, message)` deliveries. A target is either one socket id or a
socket.io room id. Each handler runs as one atomic step. The uuids a handler
would generate are passed in as parameters.

Files:

- `types.dfy` (module `Types`): the records, the outbound messages with their
  event names, deliveries, and handler outcomes (completed, or the exception
  the handler throws as written).
- `store.dfy` (module `Store`): the collection operations.
  - Lookups take the first match, as `Array.prototype.find` does.
  - The socket filter of the disconnect handler.
  - `updateOne`/`deleteOne` act on the first matching document.
  - The two collection invariants: room ids are unique and no stored room is empty.
  - The `room-exists` route.
- `notify.dfy` (module `Notify`): the `conn-prepare` fan-out of the join
  handler. `Prepares` is its specification; `PrepareNotices` is the loop,
  proved against it.
- `coordinator.dfy` (module `Coordinator`): the class. It has the
  `create-new-room`, `join-room`, `disconnect`, `conn-signal`, `conn-init` and
  `direct-message` handlers, and an invariant `Valid()` that every handler
  preserves.
- `scenarios.dfy` (module `Scenarios`): whole sessions driven through the
  handlers. Each one concludes the resulting store and emits from the
  handlers' contracts alone.

Behaviour of the code that a reader might not expect, which the model
reproduces:

- `join-room` broadcasts `room-update` with the member list read *before* the
  join (`room.connectedUsers`, server.js:231), not the new list. So the
  joiner's own update does not list the joiner (`Scenarios.HostGuestSession`).
- `join-room` stores the new AppUser record even when no room has the given
  id (server.js:205, before the lookup at 206). A later disconnect of that
  socket finds the user but no room, and throws at server.js:249
  (`Scenarios.JoinMissingRoomThenLeave`).
- `join-room` has no capacity check. The room-exists route reports "full"
  above three members, but a join still appends (`Scenarios.FullRoomAdmitsJoin`).
- `direct-message` does not relay anything. Its guard reads `connectedUsers`,
  which is not declared at module scope (the declaration at server.js:74 is
  commented out), so the handler throws before any emit.
- The local list the join handler loops over holds the new user twice
  (server.js:208 and 218). Both copies carry the joiner's socket, so the loop
  skips them (`Notify.PreparesSkipJoiner`).

## Model

| member | source | states |
|---|---|---|
| `Store.FindRoom` | server.js:81 | the index returned holds a room with that id and no earlier room has it; none is returned exactly when no room has the id |
| `Store.FindUser` | server.js:242 | the index returned holds a user on that socket and no earlier user is on it; none is returned exactly when no user is on the socket |
| `Store.Without` | server.js:249-251 | the remaining list is shorter than the room's list by exactly the number of entries on the leaving socket |
| `Store.WithoutMembers` | server.js:249-251 | a user remains exactly when it was listed and is not on the leaving socket |
| `Store.WithoutAppend` | server.js:249-251 | the filter keeps the survivors in their original order (it distributes over concatenation) |
| `Store.WithoutAbsent` | server.js:249-251 | a list with no entry on the socket is returned unchanged |
| `Store.CountSocketAppend` | server.js:249-251 | entry counts per socket add up over concatenation |
| `Store.CountSocketZero` | server.js:249-251 | a socket has no entries exactly when no listed user is on it |
| `Store.SetMembers` | server.js:47-50 | `updateOne` replaces only the first room with the id, keeping that id, so the length, every id and every lookup by that id are unchanged; a missing id changes nothing |
| `Store.DeleteRoom` | server.js:69-71 | `deleteOne` removes exactly the first room with the id and keeps the order of the rest; a missing id changes nothing; over a collection with unique ids no room with that id is left, and both collection invariants are kept |
| `Store.DeleteAfterSet` | server.js:258-270 | updating a room's members and then deleting it by id removes exactly that original record |
| `Store.DeleteUser` | server.js:63-66 | `deleteOne` removes exactly the first user on the socket, so that socket has one entry fewer; an unknown socket changes nothing |
| `Store.SetMembersKeepsInvariants` | server.js:258-262 | replacing one room's member list with a non-empty list keeps room ids unique and no room empty |
| `Store.RemoveKeepsInvariants` | server.js:269-271 | deleting a room from a collection with unique ids leaves no room with the deleted id; if no room was empty either, both invariants still hold |
| `Store.CheckRoom` | server.js:78-94 | `{roomExists:false}` exactly when no room has the id; otherwise `full` is true exactly when that room has more than 3 members |
| `Notify.Prepares` | server.js:221-229 | one notice per list entry that is not on the joiner's socket |
| `Notify.PreparesShape` | server.js:221-229 | every notice is a `conn-prepare` carrying the joiner's socket id, addressed to a socket other than the joiner's |
| `Notify.PreparesAppend` | server.js:221-229 | notices go out in list order (the fan-out distributes over concatenation) |
| `Notify.PreparesReach` | server.js:221-229 | a socket other than the joiner's receives one notice per entry it owns in the list; the joiner's socket receives none |
| `Notify.PreparesSkipJoiner` | server.js:218-222 | the extra copies of the new user appended before the loop add no notice |
| `Notify.PreparesSnoc` | server.js:221-229 | one more list entry adds at most its own notice, at the end |
| `Notify.PrepareNotices` | server.js:221-229 | the `forEach` loop emits exactly the specified fan-out, in order |
| `Coordinator.Coordinator.Valid` | server.js:151-273 | the invariant every handler keeps: room ids are unique, and no stored room is empty, because the last member's disconnect deletes the room |
| `Coordinator.Coordinator.CreateNewRoom` | server.js:151-190 | adds one user and one room whose members are exactly that user (with the new room id and the caller's socket); only the caller receives `room-id` then `room-update([newUser])`; the room is then reported not full; invariants kept |
| `Coordinator.Coordinator.JoinRoom` | server.js:192-237 | always appends the new user record; for a missing room, no room changes and nothing is emitted; otherwise only that room changes, to its old members plus the new user, with no capacity check; emits the fan-out to the other members, then `room-update` with the pre-join list; invariants kept |
| `Coordinator.Coordinator.Disconnect` | server.js:239-273 | an unknown socket changes and emits nothing; a user whose room is missing throws with nothing changed; otherwise the first user record on the socket is removed and the room keeps its other members in order. If members remain, the room gets `user-disconnected` then `room-update(remaining)`; if not, the room is deleted and no room with its id is left; invariants kept |
| `Coordinator.Coordinator.Leave` | server.js:249-271 | given the found user and room: the user record is removed and the room keeps its other members in order; if members remain, the room is told `user-disconnected` then `room-update(remaining)`; if not, the room is deleted and no room with its id remains; invariants kept |
| `Coordinator.Coordinator.AnnounceLeave` | server.js:261-268 | when members remain, the room is told `user-disconnected` for the leaving socket, then `room-update` with exactly the remaining list; the room collection is unchanged and the invariants hold |
| `Coordinator.Coordinator.CloseRoom` | server.js:269-271 | when nobody is left, `deleteOne` removes exactly the room record that was emptied, no room with its id remains, and the invariants hold |
| `Coordinator.Coordinator.Signal` | server.js:275-280 | exactly one `conn-signal` delivery, to the given socket, carrying the signal and the sender's socket id; no collection changes |
| `Coordinator.Coordinator.Init` | server.js:283-288 | exactly one `conn-init` delivery, to the given socket, carrying the sender's socket id; no collection changes |
| `Coordinator.Coordinator.DirectMessage` | server.js:290-313 | the handler throws on the undeclared `connectedUsers` and cannot emit or change anything |
| `Scenarios.HostGuestSession` | server.js:151-273 | create, join, host leaves, guest leaves: the exact six deliveries in order (the join's `room-update` lists only the host), and both collections end empty |
| `Scenarios.FullRoomAdmitsJoin` | server.js:204-212 | after four members the route reports the room full, and a fifth join still brings it to five members |
| `Scenarios.JoinMissingRoomThenLeave` | server.js:204-207 | a join to a missing room stores the user and emits nothing; that socket's disconnect then throws and the user record stays |
| `Scenarios.RelayToUnknownSocket` | server.js:275-288 | signal and init reach a socket id that no user holds; the collections stay empty |

## Left out

- HTTP and process plumbing (Express, CORS, `server.listen`, dotenv, server.js:7-20, 72, 315-317): not part of the coordinator's logic.
- The MongoDB client and driver calls (server.js:26-33 and the bodies of 37-71): the collections are in-memory sequences. `insertOne` appends; `find({})` returns insertion order; `updateOne`/`deleteOne` act on the first match. Store failures and their rejected promises are not modelled.
- Interleaving of concurrent handlers, including the lost update of two joins that read the same member list (server.js:204-212): each handler is one atomic step. The model makes no linearizability claim.
- The TURN credentials route (server.js:96-112): a call to an external service.
- socket.io room join/leave (server.js:178, 215, 255): a broadcast is recorded with the room id as its target. Which sockets that reaches is not modelled.
- uuid generation (server.js:157, 162, 197): room and user ids are parameters.
- Coordinator.Coordinator.CreateNewRoom: requires the new room id to differ from every stored room id. This stands in for uuid v4 uniqueness, which the handler relies on without checking.
- The unused reads in the create handler (the room list at server.js:152, the local list at 169): they have no effect.
- The uncaught exceptions: a thrown handler is reported as an `Outcome` with the store unchanged. The resulting unhandled promise rejection is not modelled.
- Console logging.
- The `conn-signal` payload (server.js:276-279) is any JSON value in the server; the model carries it as an opaque string, which the handler relays unchanged without inspecting it.
