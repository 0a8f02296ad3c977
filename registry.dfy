/**
 The two process-wide stores of the signaling server and the pure operations
 on them: `users` maps a socket id to its registered record, `rooms` maps a
 room id to the set of socket ids joined to it. The new state each handler
 of the server leaves behind is stated through the functions defined here.
 */
module Registry {

  type SocketId = string
  type RoomId = string

  datatype Option<T> = None | Some(value: T)

  /** A record of `users`: the name a socket registered under, and its own id. */
  datatype User = User(username: string, socketId: SocketId)

  /** An entry of `user-joined` and `existing-users`; the name is absent for a
      socket that joined a room without ever registering. */
  datatype Peer = Peer(socketId: SocketId, username: Option<string>)

  type Users = map<SocketId, User>
  type Rooms = map<RoomId, set<SocketId>>

  /** Every record is stored under the socket id it carries. */
  ghost predicate WellKeyed(users: Users)
  {
    forall id :: id in users ==> users[id].socketId == id
  }

  /** No room with an empty member set is kept. */
  ghost predicate NoEmptyRoom(rooms: Rooms)
  {
    forall r :: r in rooms ==> rooms[r] != {}
  }

  /** Socket `id` is a member of room `r`. */
  predicate IsMember(rooms: Rooms, r: RoomId, id: SocketId)
  {
    r in rooms && id in rooms[r]
  }

  /** `users.get(id)?.username`: absent for an unregistered socket. */
  function UsernameOf(users: Users, id: SocketId): (name: Option<string>)
    ensures name.Some? <==> id in users
    ensures name.Some? ==> name.value == users[id].username
  {
    if id in users then Some(users[id].username) else None
  }

  /** The members of a room, empty for a room that does not exist. */
  function Members(rooms: Rooms, r: RoomId): (s: set<SocketId>)
    ensures forall id :: id in s <==> IsMember(rooms, r, id)
  {
    if r in rooms then rooms[r] else {}
  }

  /** The rooms socket `id` belongs to. */
  function RoomsOf(rooms: Rooms, id: SocketId): (rs: set<RoomId>)
    ensures forall r :: r in rs <==> IsMember(rooms, r, id)
  {
    set r | r in rooms && id in rooms[r]
  }

  /** The registration of socket `id` under `username`: inserts or overwrites
      the record of that socket and of no other. */
  function Register(users: Users, id: SocketId, username: string): (users': Users)
    ensures users'.Keys == users.Keys + {id}
    ensures users'[id] == User(username, id)
    ensures forall other :: other in users && other != id ==> users'[other] == users[other]
    ensures WellKeyed(users) ==> WellKeyed(users')
  {
    users[id := User(username, id)]
  }

  /** The removal of socket `id`'s record on disconnect: that record goes,
      if there was one, and every other record stays. */
  function Unregister(users: Users, id: SocketId): (users': Users)
    ensures users'.Keys == users.Keys - {id}
    ensures forall other :: other in users' ==> users'[other] == users[other]
    ensures WellKeyed(users) ==> WellKeyed(users')
  {
    users - {id}
  }

  /** Socket `id` joins room `r`: the room is created when it does not exist,
      and the membership relation gains exactly the pair (r, id). */
  function Join(rooms: Rooms, r: RoomId, id: SocketId): (rooms': Rooms)
    ensures rooms'.Keys == rooms.Keys + {r}
    ensures forall q, x :: IsMember(rooms', q, x) <==> IsMember(rooms, q, x) || (q == r && x == id)
    ensures forall q :: q in rooms && q != r ==> rooms'[q] == rooms[q]
    ensures NoEmptyRoom(rooms) ==> NoEmptyRoom(rooms')
  {
    rooms[r := Members(rooms, r) + {id}]
  }

  /** Socket `id` leaves room `r`: the membership relation loses exactly the
      pair (r, id), and the room is deleted when that leaves it empty. An
      unknown room leaves the map as it is. */
  function Leave(rooms: Rooms, r: RoomId, id: SocketId): (rooms': Rooms)
    ensures rooms'.Keys == if r in rooms && rooms[r] - {id} == {} then rooms.Keys - {r} else rooms.Keys
    ensures forall q, x :: IsMember(rooms', q, x) <==> IsMember(rooms, q, x) && !(q == r && x == id)
    ensures forall q :: q in rooms && q != r ==> q in rooms' && rooms'[q] == rooms[q]
    ensures r !in rooms ==> rooms' == rooms
    ensures NoEmptyRoom(rooms) ==> NoEmptyRoom(rooms')
  {
    if r in rooms then
      var rest := rooms[r] - {id};
      assert forall x :: x in rooms[r] && x != id ==> x in rest;
      if rest == {} then rooms - {r} else rooms[r := rest]
    else
      rooms
  }

  /** The rooms once socket `id` has been taken out of each room of `done`
      that holds it, each such room being deleted when it empties; rooms
      outside `done`, and rooms of `done` without `id`, are left as they are. */
  function Evict(rooms: Rooms, id: SocketId, done: set<RoomId>): (rooms': Rooms)
    ensures forall q :: q in rooms' ==> q in rooms && rooms'[q] <= rooms[q]
    ensures forall q :: q in rooms && q !in done ==> q in rooms' && rooms'[q] == rooms[q]
  {
    map r | r in rooms && (r !in done || id !in rooms[r] || rooms[r] - {id} != {}) ::
      if r in done then rooms[r] - {id} else rooms[r]
  }

  /** The rooms after socket `id` disconnects: `id` has left every room. */
  function Disconnected(rooms: Rooms, id: SocketId): (rooms': Rooms)
    ensures forall q :: !IsMember(rooms', q, id)
    ensures forall q, x :: x != id ==> (IsMember(rooms', q, x) <==> IsMember(rooms, q, x))
    ensures forall q :: q in rooms' <==> q in rooms && rooms[q] != {id}
    ensures NoEmptyRoom(rooms) ==> NoEmptyRoom(rooms')
  {
    EvictMembers(rooms, id, rooms.Keys);
    Evict(rooms, id, rooms.Keys)
  }

  /** `id` leaving the rooms of `order` one after the other, from the first. */
  function LeaveEach(rooms: Rooms, id: SocketId, order: seq<RoomId>): (rooms': Rooms)
    ensures forall q, x :: IsMember(rooms', q, x) <==> IsMember(rooms, q, x) && !(x == id && q in order)
    ensures NoEmptyRoom(rooms) ==> NoEmptyRoom(rooms')
  {
    if order == [] then rooms
    else Leave(LeaveEach(rooms, id, order[..|order| - 1]), order[|order| - 1], id)
  }

  /** `order` lists the elements of `keys`, each exactly once. */
  ghost predicate ListsOnce(order: seq<RoomId>, keys: set<RoomId>)
  {
    && (forall i, j :: 0 <= i < j < |order| ==> order[i] != order[j])
    && (forall r :: r in order <==> r in keys)
  }

  /** The `existing-users` snapshot: every member of `members` other than
      `self`, each with its name when it has registered. */
  function PeersOf(users: Users, members: set<SocketId>, self: SocketId): (peers: set<Peer>)
    ensures forall p :: p in peers <==> p.socketId in members && p.socketId != self && p.username == UsernameOf(users, p.socketId)
  {
    set id | id in members && id != self :: Peer(id, UsernameOf(users, id))
  }

  /** The roster `Array.from(users.values())`, as a set. */
  function Roster(users: Users): (roster: set<User>)
    ensures forall id :: id in users ==> users[id] in roster
    ensures forall u :: u in roster ==> exists id :: id in users && users[id] == u
  {
    users.Values
  }

  /** A partial sweep takes `id` out of exactly the rooms of `done`, deletes
      exactly the rooms of `done` whose only member was `id`, and never
      leaves an empty room behind. */
  lemma EvictMembers(rooms: Rooms, id: SocketId, done: set<RoomId>)
    ensures forall q, x :: IsMember(Evict(rooms, id, done), q, x) <==> IsMember(rooms, q, x) && !(q in done && x == id)
    ensures forall q :: q in Evict(rooms, id, done) <==> q in rooms && !(q in done && rooms[q] == {id})
    ensures NoEmptyRoom(rooms) ==> NoEmptyRoom(Evict(rooms, id, done))
  {
    forall q, x | IsMember(rooms, q, x) && x != id
      ensures x in rooms[q] - {id}
    {
    }
  }

  /** Leaving one more room of `done`'s complement advances the eviction by
      that room, provided rooms are never empty. */
  lemma EvictStep(rooms: Rooms, id: SocketId, done: set<RoomId>, r: RoomId)
    requires NoEmptyRoom(rooms)
    requires r in rooms && r !in done
    ensures Leave(Evict(rooms, id, done), r, id) == Evict(rooms, id, done + {r})
  {
  }

  /** Leaving the rooms of `order` one after the other is the partial
      sweep over those rooms. */
  lemma {:induction false} LeaveEachIsEvict(rooms: Rooms, id: SocketId, order: seq<RoomId>)
    requires NoEmptyRoom(rooms)
    requires forall i, j :: 0 <= i < j < |order| ==> order[i] != order[j]
    requires forall r :: r in order ==> r in rooms
    ensures LeaveEach(rooms, id, order) == Evict(rooms, id, set r | r in order)
  {
    if order == [] {
      assert Evict(rooms, id, {}) == rooms;
    } else {
      var front, last := order[..|order| - 1], order[|order| - 1];
      var done := set r | r in front;
      assert last !in done by {
        assert forall k :: 0 <= k < |front| ==> front[k] == order[k];
      }
      assert done + {last} == set r | r in order by {
        assert order == front + [last];
      }
      LeaveEachIsEvict(rooms, id, front);
      EvictStep(rooms, id, done, last);
    }
  }

  /** Disconnect agrees with leaving every room one at a time, in any order
      that lists each room once. */
  lemma LeaveEachIsDisconnect(rooms: Rooms, id: SocketId, order: seq<RoomId>)
    requires NoEmptyRoom(rooms)
    requires ListsOnce(order, rooms.Keys)
    ensures LeaveEach(rooms, id, order) == Disconnected(rooms, id)
  {
    LeaveEachIsEvict(rooms, id, order);
    assert (set r | r in order) == rooms.Keys;
  }

  /** The roster holds exactly one record per registered socket: the one
      stored under that socket's id. */
  lemma RosterIsUsers(users: Users)
    requires WellKeyed(users)
    ensures forall u :: u in Roster(users) <==> u.socketId in users && users[u.socketId] == u
  {
  }

  /** Removing a socket's record drops exactly that record from the roster. */
  lemma RosterWithout(users: Users, id: SocketId)
    requires WellKeyed(users)
    ensures Roster(users - {id}) == Roster(users) - (if id in users then {users[id]} else {})
    ensures forall u :: u in Roster(users - {id}) ==> u.socketId != id
  {
    RosterIsUsers(users);
    RosterIsUsers(users - {id});
  }

  /** Registering replaces the socket's former record in the roster, if any,
      by its new one, and keeps every other record. */
  lemma RosterAfterRegister(users: Users, id: SocketId, username: string)
    requires WellKeyed(users)
    ensures Roster(Register(users, id, username))
         == Roster(users) - (if id in users then {users[id]} else {}) + {User(username, id)}
  {
  }

  /** The ids in the `existing-users` snapshot are exactly the room's members
      other than the joiner: the recipients of `user-joined`. */
  lemma PeersAreOtherMembers(users: Users, members: set<SocketId>, self: SocketId)
    ensures (set p | p in PeersOf(users, members, self) :: p.socketId) == members - {self}
  {
    var ids := set p | p in PeersOf(users, members, self) :: p.socketId;
    forall id | id in members - {self}
      ensures id in ids
    {
      assert Peer(id, UsernameOf(users, id)) in PeersOf(users, members, self);
    }
  }

  /** A socket that is already a member joins again without effect. */
  lemma JoinAgain(rooms: Rooms, r: RoomId, id: SocketId)
    requires IsMember(rooms, r, id)
    ensures Join(rooms, r, id) == rooms
  {
    assert rooms[r] + {id} == rooms[r];
  }

  /** Leaving undoes a join by a socket that was not yet a member: the room
      it created is deleted again, or the room it joined gets back its
      former members. */
  lemma JoinThenLeave(rooms: Rooms, r: RoomId, id: SocketId)
    requires NoEmptyRoom(rooms)
    requires !IsMember(rooms, r, id)
    ensures Leave(Join(rooms, r, id), r, id) == rooms
  {
  }

  /** Leaving a room one does not belong to changes nothing, provided no room
      is empty (the source deletes an empty room on any leave). */
  lemma LeaveAsNonMember(rooms: Rooms, r: RoomId, id: SocketId)
    requires NoEmptyRoom(rooms)
    requires !IsMember(rooms, r, id)
    ensures Leave(rooms, r, id) == rooms
  {
    if r in rooms {
      assert rooms[r] - {id} == rooms[r];
    }
  }
}
