# Signaling relay: registry and router

This project models the in-memory core of a WebRTC signaling server. The core
is a socket.io connection handler in `server.js` with two process-wide stores:

- `users`: socket id to `{username, socketId}`.
- `rooms`: room id to the set of member socket ids.

Five inbound events change or read these stores: `register`, `join-room`,
`signal`, `leave-room` and `disconnect`. The helper `broadcastUserList` sends
the full roster to every connected socket.

The project has three modules:

- `Registry` (`registry.dfy`): the two stores as Dafny maps, and pure
  functions through which each handler's new state is stated; the handler
  methods update the maps themselves. The contracts of `Register`,
  `Unregister`, `Join`, `Leave` and `Disconnected` describe each change as a change of the
  records or of the membership relation. The properties that relate several
  operations are lemmas: the roster, the `existing-users` snapshot, and the
  disconnect sweep as a sequence of leaves.
- `Relay` (`relay.dfy`): the `Server` class. It holds the two maps as fields,
  with one method per handler.
  - Each method updates the maps in place. It returns the outbound events it
    emits, in emission order, instead of handing them to socket.io.
  - An event has a symbolic target and a payload. The target is one of:
    the sender alone, a room's recipients, the socket.io room named by an
    address, or every connected socket. The payload determines the socket.io
    event name, and each handler's contract states the names it emits.
  - Every handler method preserves the invariant `Server.Valid`, and the
    per-room callback of `disconnect` preserves its no-empty-room half:
    - every record is stored under its own socket id;
    - no stored room is empty.
- `Scenario` (`scenario.dfy`): a client of the handlers. Alice and Bob meet in
  the lobby and Alice disconnects. Every step's events and state follow from
  the handlers' contracts.

The `disconnect` handler walks the rooms with `forEach`, deleting members and
whole rooms as it goes. The model proves that this sweep, taken in any order
that visits each room once, gives the state `Registry.Disconnected`. That state
has the socket removed from every room, and every room it was the last member
of deleted. The model also proves that the sweep sends exactly one `user-left`
to each room the socket was in, and none to any other room.

## Model

| member | source | states |
|---|---|---|
| Registry.UsernameOf | server.js:40 | the joiner's name is present exactly when the socket has a record, and is that record's username |
| Registry.Members | server.js:44 | a room's members; an unknown room has none |
| Registry.RoomsOf | server.js:78-79 | exactly the rooms that hold the socket |
| Registry.Register | server.js:19 | the record for this socket id is inserted or overwritten with `{username, socketId}`; every other record is unchanged; records stay keyed by their own socket id |
| Registry.Unregister | server.js:88 | the socket's record is removed, if there was one; every other record is unchanged; records stay keyed by their own socket id |
| Registry.Join | server.js:32-35 | the room exists afterwards; membership gains exactly the pair (room, joiner); other rooms are unchanged; no room becomes empty |
| Registry.Leave | server.js:65-70 | membership loses exactly the pair (room, leaver); the room is deleted exactly when that empties it; an unknown room leaves the map unchanged; no room becomes empty |
| Registry.Disconnected | server.js:78-86 | the socket is in no room; every other member's memberships are untouched; exactly the rooms whose only member was the socket are deleted; no room becomes empty |
| Registry.Evict | server.js:78-86 | a partial sweep over the rooms of `done` leaves every other room as it was and never adds a room or a member |
| Registry.LeaveEach | server.js:78-86 | leaving the rooms of `order` one after another removes exactly the pairs (room of `order`, socket) from membership and preserves the no-empty-room invariant |
| Registry.Roster | server.js:93 | every stored record is in the roster, and every roster entry is a stored record |
| Registry.PeersOf | server.js:44-49 | the `existing-users` snapshot holds one entry per member other than the joiner, with that member's possibly absent username |
| Registry.PeersAreOtherMembers | server.js:44-49 | the snapshot's ids are exactly the room's members minus the joiner, which are the recipients of `user-joined` |
| Registry.JoinAgain | server.js:32-35 | joining a room one is already in leaves membership unchanged (a set add) |
| Registry.JoinThenLeave | server.js:32-35 | a leave after the join of a non-member restores the rooms exactly, including deleting a room the join created |
| Registry.LeaveAsNonMember | server.js:65-70 | leaving a room one is not in changes nothing while no room is empty |
| Registry.EvictMembers | server.js:78-86 | a partial sweep over a set of rooms removes the socket from exactly those rooms and deletes exactly those of them it was alone in |
| Registry.EvictStep | server.js:79-84 | one more `forEach` callback advances the partial sweep by one room |
| Registry.LeaveEachIsEvict | server.js:78-86 | leaving distinct rooms one after another equals the partial sweep over those rooms |
| Registry.LeaveEachIsDisconnect | server.js:78-86 | leaving every room once, in any order, gives the disconnected state |
| Registry.RosterIsUsers | server.js:93 | the roster holds exactly one record per registered socket: the one stored under its id |
| Registry.RosterWithout | server.js:88-89 | after a record is removed, the roster loses exactly that record and holds nothing for that socket |
| Registry.RosterAfterRegister | server.js:19-26 | after `register`, the roster has the socket's former record (if any) replaced by its new record, and every other record kept |
| Relay.Delivered | server.js:57 | an event reaches only live sockets; `socket.emit` reaches the sender, `socket.to` the room's recipients, `io.emit` every live socket, and `io.to(name)` the live socket with that id and every live member of the app room of that name |
| Relay.LeftNotice | server.js:81 | the `user-left` notice of a room carries the leaver's id and goes to exactly the room's other members, never to the leaver |
| Relay.SweepNotices | server.js:78-86 | a sweep sends no more notices than it makes visits; every notice is a `user-left` for the leaver, addressed to a visited room that held it, and never to the leaver |
| Relay.NoticesToAppend | server.js:81 | counting the notices addressed to a room is additive over appended events |
| Relay.SweepNoticesOnce | server.js:78-86 | a sweep that visits each room at most once sends one `user-left` to each visited room holding the socket, none to any other room, each to that room's remaining members |
| Relay.SweepNoticeCount | server.js:78-86 | a sweep sends as many notices as there are visited rooms holding the socket |
| Relay.SweepStep | server.js:78-86 | the `i`-th callback of a sweep finds its room as it was before the sweep, and extends the rooms and the notices of the first `i` callbacks by that room's leave and notice |
| Relay.Server.constructor | server.js:12-13 | both stores start empty, and the invariant holds |
| Relay.Server.Register | server.js:18-27 | `users` becomes `Registry.Register` of the old users and `rooms` is unchanged; `registered` goes to the sender with the same socket id and username; then the roster of the new users goes to everyone |
| Relay.Server.BroadcastUserList | server.js:92-95 | one `user-list` event to everyone, carrying the roster of the current users |
| Relay.Server.JoinRoom | server.js:29-54 | `rooms` becomes `Registry.Join` and the joiner is a member; `users` is unchanged; `user-joined` with the joiner's id and possibly absent name goes to the room's members other than the joiner; `existing-users` goes to the joiner alone, with the snapshot of the other members after the join |
| Relay.Server.Signal | server.js:56-61 | exactly one `signal` event, carrying the signal and `from` unmodified, addressed by `io.to(to)`: it reaches the live socket with id `to` and every live member of an app room named `to`, the sender included; no state changes; when no room has that name it reaches at most `to`, and nobody when `to` is not live |
| Relay.Server.LeaveRoom | server.js:63-72 | `rooms` becomes `Registry.Leave` and `users` is unchanged; `user-left` goes to the room's remaining members in every case, including a non-member or unknown room |
| Relay.Server.VisitOrder | server.js:78 | the `forEach` visit order lists every room exactly once |
| Relay.Server.LeaveOnDisconnect | server.js:79-85 | for a member: leaves the room and tells its remaining members; for a non-member: changes nothing and sends nothing |
| Relay.Server.LeaveAllRooms | server.js:78-86 | the loop over the visit order ends in `Registry.Disconnected` and sends the sweep's notices in visit order |
| Relay.Server.Disconnect | server.js:74-90 | `rooms` becomes `Registry.Disconnected` and `users` becomes `Registry.Unregister` of the old users; exactly one `user-left` per room the socket was in and none to any other room; then the roster of the remaining users goes to everyone; one event more than the rooms the socket was in |

## Left out

- express, http, static asset serving, and `server.listen` with its `PORT`
  default (server.js:1-10, server.js:98-102): I/O and configuration.
- socket.io's own room bookkeeping. `socket.join` and `socket.leave`
  (server.js:30, server.js:64) are calls into the library.
  - The recipients of `socket.to(roomId)` are modelled as the members of the
    app's own `rooms` entry, less the sender.
- Delivery itself (`emit`, `socket.to`, `io.to`, `io.emit`): events are
  returned, not sent.
  - The set of live sockets belongs to socket.io, so `Relay.Delivered` takes
    it as a parameter.
- Relay.Delivered: a `Room` target (`socket.to(roomId)` in `join-room`,
  `leave-room` and `disconnect`) reaches only the app room's other members. If
  the room id equals some socket's id, socket.io would also reach that socket
  through its private room, and the model does not. `io.to(to)` in `signal`
  does model both kinds of room, through the `Address` target.
- `console.log` (server.js:16, server.js:53, server.js:75): logging only.
- The contents of the signal payload, which is the type parameter `Sig`.
- Insertion order of `Map` and `Set` iteration.
  - The `user-list` roster and the `existing-users` snapshot are sets, not
    arrays.
  - The visit order of the `disconnect` sweep is any order that lists each
    room once (`Relay.Server.VisitOrder`), not insertion order specifically.
- Payload shapes other than those the handlers expect: usernames and ids are
  strings, and a non-string or missing field is not modelled.
- Relay.Server.Signal: `from` is whatever the client sent. The server does not
  set it to the sender's socket id, so the contract relays it unchanged and
  does not claim it names the sender.
- The invariant that every socket in a room has a user record does not hold in
  the code. `join-room` does not require an earlier `register`, and
  `Registry.PeersOf` reports an absent username for such a member. It is
  therefore not claimed.
- A room is deleted by `leave-room` when it empties, as the code does. The
  code then still addresses `user-left` to that room id, which reaches nobody.
  The model keeps this event, with no recipients.
