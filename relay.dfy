/**
 The socket.io connection handler of the signaling server: one method per
 inbound event (`register`, `join-room`, `signal`, `leave-room`,
 `disconnect`). Each method updates the two stores in place and returns the
 outbound events it emits, in emission order, instead of handing them to
 socket.io.
 */
module Relay {
  import opened Registry

  /** Who an outbound event is addressed to. `Socket` is `socket.emit`, the
      sender alone. `Room` stands for `socket.to(room)`: the room's members
      at the time of emission, less the sender. `Address` is `io.to(name)`:
      the socket.io room called `name`, which holds the socket whose id is
      `name` and every socket that joined a room of that name, the sender
      included. `Everyone` is `io.emit`, every connected socket. */
  datatype Target =
    | Socket(id: SocketId)
    | Room(room: RoomId, recipients: set<SocketId>)
    | Address(name: string)
    | Everyone

  /** Outbound payloads; the opaque signal payload is of type `Sig`. */
  datatype Payload<Sig> =
    | Registered(socketId: SocketId, username: string)
    | UserList(users: set<User>)
    | UserJoined(peer: Peer)
    | ExistingUsers(peers: set<Peer>)
    | Relayed(signal: Sig, from: SocketId)
    | UserLeft(leaver: SocketId)
  {
    /** The socket.io event name the payload travels under. */
    function Name(): string
    {
      match this
      case Registered(_, _) => "registered"
      case UserList(_) => "user-list"
      case UserJoined(_) => "user-joined"
      case ExistingUsers(_) => "existing-users"
      case Relayed(_, _) => "signal"
      case UserLeft(_) => "user-left"
    }
  }

  datatype Event<Sig> = Event(target: Target, payload: Payload<Sig>)

  /** The sockets an event addressed to `target` reaches when the sockets of
      `live` are connected and the rooms are `rooms`: only live sockets are
      reached, and an address naming neither a live socket nor a room reaches
      nobody, so the event is dropped. */
  function Delivered(target: Target, live: set<SocketId>, rooms: Rooms): (reached: set<SocketId>)
    ensures reached <= live
    ensures target.Socket? ==> reached == if target.id in live then {target.id} else {}
    ensures target.Room? ==> reached == target.recipients * live
    ensures target.Address? ==>
              forall x :: x in reached <==> x in live && (x == target.name || IsMember(rooms, target.name, x))
    ensures target.Everyone? ==> reached == live
  {
    match target
    case Socket(id) => if id in live then {id} else {}
    case Room(_, recipients) => recipients * live
    case Address(name) => ({name} + Members(rooms, name)) * live
    case Everyone => live
  }

  /** The `user-left` notice `disconnect` sends to room `r`, once `id` has
      been taken out of it. */
  function LeftNotice<Sig>(rooms: Rooms, r: RoomId, id: SocketId): (e: Event<Sig>)
    requires r in rooms
    ensures e.payload == UserLeft(id) && e.payload.Name() == "user-left"
    ensures e.target.Room? && e.target.room == r
    ensures forall x :: x in e.target.recipients <==> IsMember(rooms, r, x) && x != id
  {
    Event(Room(r, rooms[r] - {id}), UserLeft(id))
  }

  /** The `user-left` notices of a sweep that visits the rooms of `order`
      one after the other: one for each visited room that holds `id`. */
  function SweepNotices<Sig>(rooms: Rooms, id: SocketId, order: seq<RoomId>): (notices: seq<Event<Sig>>)
    requires forall r :: r in order ==> r in rooms
    ensures |notices| <= |order|
    ensures forall e :: e in notices ==>
              && e.payload == UserLeft(id)
              && e.target.Room? && e.target.room in order && IsMember(rooms, e.target.room, id)
              && id !in e.target.recipients
  {
    if order == [] then []
    else
      var last := order[|order| - 1];
      SweepNotices(rooms, id, order[..|order| - 1]) + if id in rooms[last] then [LeftNotice(rooms, last, id)] else []
  }

  /** How many events of `events` are addressed to room `r`. */
  function NoticesTo<Sig>(events: seq<Event<Sig>>, r: RoomId): nat
  {
    if events == [] then 0
    else
      var last := events[|events| - 1];
      NoticesTo(events[..|events| - 1], r) + if last.target.Room? && last.target.room == r then 1 else 0
  }

  /** Counting the events addressed to a room is additive over appending. */
  lemma {:induction false} NoticesToAppend<Sig>(events: seq<Event<Sig>>, more: seq<Event<Sig>>, r: RoomId)
    ensures NoticesTo(events + more, r) == NoticesTo(events, r) + NoticesTo(more, r)
    decreases |more|
  {
    if more == [] {
      assert events + more == events;
    } else {
      var front := more[..|more| - 1];
      NoticesToAppend(events, front, r);
      assert (events + more)[..|events + more| - 1] == events + front;
    }
  }

  /** A sweep that visits each room at most once tells each room that holds
      `id` exactly once, tells no other room, and every notice it sends is
      the `user-left` notice for that room. */
  lemma {:induction false} SweepNoticesOnce<Sig>(rooms: Rooms, id: SocketId, order: seq<RoomId>)
    requires forall r :: r in order ==> r in rooms
    requires forall i, j :: 0 <= i < j < |order| ==> order[i] != order[j]
    ensures forall r :: NoticesTo(SweepNotices<Sig>(rooms, id, order), r) == if r in order && IsMember(rooms, r, id) then 1 else 0
    ensures forall e :: e in SweepNotices<Sig>(rooms, id, order) ==>
              e.target.Room? && e.target.room in rooms && e == LeftNotice(rooms, e.target.room, id)
  {
    if order != [] {
      var front, last := order[..|order| - 1], order[|order| - 1];
      SweepNoticesOnce<Sig>(rooms, id, front);
      assert last !in front by {
        assert forall k :: 0 <= k < |front| ==> front[k] == order[k];
      }
      var more: seq<Event<Sig>> := if id in rooms[last] then [LeftNotice(rooms, last, id)] else [];
      forall r
        ensures NoticesTo(SweepNotices<Sig>(rooms, id, order), r) == if r in order && IsMember(rooms, r, id) then 1 else 0
      {
        NoticesToAppend(SweepNotices<Sig>(rooms, id, front), more, r);
        if more != [] {
          assert more[..0] == [];
        }
        assert r in order <==> r in front || r == last;
      }
    }
  }

  /** A sweep sends as many notices as there are visited rooms holding `id`. */
  lemma {:induction false} SweepNoticeCount<Sig>(rooms: Rooms, id: SocketId, order: seq<RoomId>)
    requires forall r :: r in order ==> r in rooms
    requires forall i, j :: 0 <= i < j < |order| ==> order[i] != order[j]
    ensures |SweepNotices<Sig>(rooms, id, order)| == |set r | r in order && IsMember(rooms, r, id)|
  {
    if order == [] {
      assert (set r | r in order && IsMember(rooms, r, id)) == {};
    } else {
      var front, last := order[..|order| - 1], order[|order| - 1];
      SweepNoticeCount<Sig>(rooms, id, front);
      assert last !in front by {
        assert forall k :: 0 <= k < |front| ==> front[k] == order[k];
      }
      VisitedSnoc(rooms, id, front, last);
      assert order == front + [last];
    }
  }

  /** Visiting one more room, not visited before, adds it to the visited
      rooms holding `id` exactly when it holds `id`. */
  lemma VisitedSnoc(rooms: Rooms, id: SocketId, front: seq<RoomId>, last: RoomId)
    requires last !in front
    ensures |set r | r in front + [last] && IsMember(rooms, r, id)|
         == |set r | r in front && IsMember(rooms, r, id)| + if IsMember(rooms, last, id) then 1 else 0
  {
    var earlier := set r | r in front && IsMember(rooms, r, id);
    var visited := set r | r in front + [last] && IsMember(rooms, r, id);
    if IsMember(rooms, last, id) {
      assert visited == earlier + {last};
    } else {
      assert visited == earlier;
    }
  }

  /** The `i`-th callback of a sweep over `keys` finds room `keys[i]` as it
      was before the sweep, and extends the rooms and the notices of the
      first `i` callbacks by that room's. */
  lemma SweepStep<Sig>(rooms: Rooms, id: SocketId, keys: seq<RoomId>, i: nat)
    requires NoEmptyRoom(rooms)
    requires ListsOnce(keys, rooms.Keys)
    requires i < |keys|
    ensures keys[i] in LeaveEach(rooms, id, keys[..i])
    ensures LeaveEach(rooms, id, keys[..i])[keys[i]] == rooms[keys[i]]
    ensures LeaveEach(rooms, id, keys[..i + 1]) == Leave(LeaveEach(rooms, id, keys[..i]), keys[i], id)
    ensures SweepNotices<Sig>(rooms, id, keys[..i + 1])
         == SweepNotices<Sig>(rooms, id, keys[..i]) + if id in rooms[keys[i]] then [LeftNotice(rooms, keys[i], id)] else []
  {
    var done, room := keys[..i], keys[i];
    assert keys[..i + 1] == done + [room];
    assert (done + [room])[..|done + [room]| - 1] == done;
    assert room in LeaveEach(rooms, id, done) && LeaveEach(rooms, id, done)[room] == rooms[room] by {
      assert room !in done by {
        assert forall k :: 0 <= k < |done| ==> done[k] == keys[k];
      }
      LeaveEachIsEvict(rooms, id, done);
    }
  }

  class Server<Sig> {
    /** `users` at server.js:12: socket id to registered record. */
    var users: Users
    /** `rooms` at server.js:13: room id to member socket ids. */
    var rooms: Rooms

    ghost predicate Valid()
      reads this
    {
      WellKeyed(users) && NoEmptyRoom(rooms)
    }

    constructor ()
      ensures Valid()
      ensures users == map[] && rooms == map[]
    {
      users := map[];
      rooms := map[];
    }

    /** `register`: store the record, answer the sender, broadcast the roster. */
    method Register(self: SocketId, username: string) returns (out: seq<Event<Sig>>)
      requires Valid()
      modifies this
      ensures Valid()
      ensures users == Registry.Register(old(users), self, username)
      ensures rooms == old(rooms)
      ensures out == [Event(Socket(self), Registered(self, username)),
                      Event(Everyone, UserList(Roster(users)))]
      ensures out[0].payload.Name() == "registered" && out[1].payload.Name() == "user-list"
    {
      users := users[self := User(username, self)];
      out := [Event(Socket(self), Registered(self, username))];
      var roster := BroadcastUserList();
      out := out + roster;
    }

    /** `broadcastUserList`: the whole roster, to every connected socket. */
    method BroadcastUserList() returns (out: seq<Event<Sig>>)
      ensures out == [Event(Everyone, UserList(Roster(users)))]
      ensures out[0].payload.Name() == "user-list"
    {
      var userList := users.Values;
      out := [Event(Everyone, UserList(userList))];
    }

    /** `join-room`: add the sender to the room (creating it), announce it to
        the other members and send it the other members. */
    method JoinRoom(self: SocketId, roomId: RoomId) returns (out: seq<Event<Sig>>)
      requires Valid()
      modifies this
      ensures Valid()
      ensures rooms == Join(old(rooms), roomId, self)
      ensures IsMember(rooms, roomId, self)
      ensures users == old(users)
      ensures out == [Event(Room(roomId, rooms[roomId] - {self}), UserJoined(Peer(self, UsernameOf(users, self)))),
                      Event(Socket(self), ExistingUsers(PeersOf(users, rooms[roomId], self)))]
      ensures out[0].payload.Name() == "user-joined" && out[1].payload.Name() == "existing-users"
    {
      if roomId !in rooms {
        rooms := rooms[roomId := {}];
      }
      rooms := rooms[roomId := rooms[roomId] + {self}];
      var joined := Peer(self, UsernameOf(users, self));
      out := [Event(Room(roomId, rooms[roomId] - {self}), UserJoined(joined))];
      var usersInRoom := set id | id in rooms[roomId] && id != self :: Peer(id, UsernameOf(users, id));
      out := out + [Event(Socket(self), ExistingUsers(usersInRoom))];
    }

    /** `signal`: forward the payload and the claimed sender, untouched, to
        the socket.io room named `to`: the socket with that id, and every
        member of an app room of that name, the sender included. No state
        changes. */
    method Signal(to: SocketId, signal: Sig, from: SocketId) returns (out: seq<Event<Sig>>)
      ensures |out| == 1 && out[0].target == Address(to) && out[0].payload.Name() == "signal"
      ensures out[0].payload.Relayed? && out[0].payload.signal == signal && out[0].payload.from == from
      ensures forall live :: Delivered(out[0].target, live, rooms) == ({to} + Members(rooms, to)) * live
      ensures forall live :: to !in rooms ==> Delivered(out[0].target, live, rooms) <= {to}
      ensures forall live :: to !in rooms && to !in live ==> Delivered(out[0].target, live, rooms) == {}
    {
      out := [Event(Address(to), Relayed(signal, from))];
    }

    /** `leave-room`: take the sender out of the room, delete the room if it
        empties, and tell the room in every case. */
    method LeaveRoom(self: SocketId, roomId: RoomId) returns (out: seq<Event<Sig>>)
      requires Valid()
      modifies this
      ensures Valid()
      ensures rooms == Leave(old(rooms), roomId, self)
      ensures users == old(users)
      ensures out == [Event(Room(roomId, Members(rooms, roomId) - {self}), UserLeft(self))]
      ensures out[0].payload.Name() == "user-left"
    {
      if roomId in rooms {
        rooms := rooms[roomId := rooms[roomId] - {self}];
        if rooms[roomId] == {} {
          rooms := rooms - {roomId};
        }
      }
      out := [Event(Room(roomId, Members(rooms, roomId) - {self}), UserLeft(self))];
    }

    /** The iteration order of `rooms.forEach`: every room, once. */
    method VisitOrder() returns (keys: seq<RoomId>)
      ensures ListsOnce(keys, rooms.Keys)
    {
      var todo := rooms.Keys;
      keys := [];
      while todo != {}
        invariant todo <= rooms.Keys
        invariant forall r :: r in keys <==> r in rooms && r !in todo
        invariant forall i, j :: 0 <= i < j < |keys| ==> keys[i] != keys[j]
        decreases todo
      {
        var r :| r in todo;
        keys := keys + [r];
        todo := todo - {r};
      }
    }

    /** The `forEach` callback of `disconnect` for one room: if the sender is
        a member, take it out, tell the room's remaining members, and delete
        the room if it is now empty; otherwise do nothing. */
    method LeaveOnDisconnect(self: SocketId, roomId: RoomId) returns (notice: seq<Event<Sig>>)
      requires roomId in rooms
      modifies this`rooms
      ensures self in old(rooms)[roomId] ==> rooms == Leave(old(rooms), roomId, self)
      ensures self in old(rooms)[roomId] ==> notice == [LeftNotice(old(rooms), roomId, self)]
      ensures self !in old(rooms)[roomId] ==> rooms == old(rooms) && notice == []
      ensures NoEmptyRoom(old(rooms)) ==> NoEmptyRoom(rooms)
    {
      notice := [];
      if self in rooms[roomId] {
        rooms := rooms[roomId := rooms[roomId] - {self}];
        notice := [Event(Room(roomId, rooms[roomId]), UserLeft(self))];
        if rooms[roomId] == {} {
          rooms := rooms - {roomId};
        }
      }
    }

    /** The room sweep of `disconnect`: visit every room once, taking the
        sender out of each room it is in, telling that room, and deleting the
        rooms that empty. `order` is the order the rooms were visited in. */
    method LeaveAllRooms(self: SocketId) returns (notices: seq<Event<Sig>>, ghost order: seq<RoomId>)
      requires NoEmptyRoom(rooms)
      modifies this`rooms
      ensures ListsOnce(order, old(rooms).Keys)
      ensures rooms == Disconnected(old(rooms), self)
      ensures notices == SweepNotices(old(rooms), self, order)
    {
      ghost var rooms0 := rooms;
      var keys := VisitOrder();
      notices := [];
      for i := 0 to |keys|
        invariant rooms == LeaveEach(rooms0, self, keys[..i])
        invariant NoEmptyRoom(rooms)
        invariant notices == SweepNotices(rooms0, self, keys[..i])
      {
        var roomId := keys[i];
        ghost var before := rooms;
        SweepStep<Sig>(rooms0, self, keys, i);
        var notice := LeaveOnDisconnect(self, roomId);
        if self !in before[roomId] {
          LeaveAsNonMember(before, roomId, self);
        }
        notices := notices + notice;
      }
      assert keys[..|keys|] == keys;
      LeaveEachIsDisconnect(rooms0, self, keys);
      order := keys;
    }

    /** `disconnect`: the room sweep, then drop the sender's record and
        broadcast the roster. Every room the sender was in is told exactly
        once, and no other room is told. */
    method Disconnect(self: SocketId) returns (out: seq<Event<Sig>>, ghost order: seq<RoomId>)
      requires Valid()
      modifies this
      ensures Valid()
      ensures rooms == Disconnected(old(rooms), self)
      ensures users == Unregister(old(users), self)
      ensures ListsOnce(order, old(rooms).Keys)
      ensures out == SweepNotices(old(rooms), self, order) + [Event(Everyone, UserList(Roster(users)))]
      ensures forall r :: NoticesTo(out, r) == if IsMember(old(rooms), r, self) then 1 else 0
      ensures |out| == |RoomsOf(old(rooms), self)| + 1
      ensures forall i :: 0 <= i < |out| - 1 ==> out[i].payload.Name() == "user-left"
      ensures out[|out| - 1].payload.Name() == "user-list"
    {
      var notices;
      notices, order := LeaveAllRooms(self);
      users := users - {self};
      var roster := BroadcastUserList();
      out := notices + roster;
      SweepNoticesOnce<Sig>(old(rooms), self, order);
      SweepNoticeCount<Sig>(old(rooms), self, order);
      assert (set r | r in order && IsMember(old(rooms), r, self)) == RoomsOf(old(rooms), self);
      forall r
        ensures NoticesTo(out, r) == if IsMember(old(rooms), r, self) then 1 else 0
      {
        NoticesToAppend(notices, roster, r);
        assert roster[..0] == [];
      }
    }
  }
}
