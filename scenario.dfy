/**
 A client of the handlers: two users meet in a room and one of them drops
 its connection. Everything asserted here follows from the handlers'
 contracts alone.
 */
module Scenario {
  import opened Registry
  import opened Relay

  method AliceAndBob()
  {
    var server := new Server<int>();
    AliceOpensLobby(server);
    BobJoinsLobby(server);
    AliceDrops(server);
  }

  /** Alice registers and opens the lobby, where she finds nobody. */
  method AliceOpensLobby(server: Server<int>)
    requires server.users == map[] && server.rooms == map[]
    modifies server
    ensures server.users == map["1" := User("alice", "1")]
    ensures server.rooms == map["lobby" := {"1"}]
  {
    var out := server.Register("1", "alice");
    assert server.users == map["1" := User("alice", "1")];
    assert out[0] == Event(Socket("1"), Registered("1", "alice"));
    assert out[1].payload.users == {User("alice", "1")};

    out := server.JoinRoom("1", "lobby");
    assert server.rooms["lobby"] == {"1"};
    assert out[1].target == Socket("1") && out[1].payload.peers == {};
  }

  /** Bob registers and joins: Alice hears of him, and he is told of her. */
  method BobJoinsLobby(server: Server<int>)
    requires server.users == map["1" := User("alice", "1")]
    requires server.rooms == map["lobby" := {"1"}]
    modifies server
    ensures server.users == map["1" := User("alice", "1"), "2" := User("bob", "2")]
    ensures server.rooms == map["lobby" := {"1", "2"}]
  {
    var out := server.Register("2", "bob");
    assert server.users == map["1" := User("alice", "1"), "2" := User("bob", "2")];
    out := server.JoinRoom("2", "lobby");
    assert server.rooms["lobby"] == {"1", "2"};
    assert server.rooms["lobby"] - {"2"} == {"1"};
    assert out[0] == Event(Room("lobby", {"1"}), UserJoined(Peer("2", Some("bob"))));
    assert out[1].payload.peers == {Peer("1", Some("alice"))};

    // A signal addressed to the room's name reaches both members, sender too.
    out := server.Signal("lobby", 7, "2");
    assert Delivered(out[0].target, {"1", "2"}, server.rooms) == {"1", "2"};
  }

  /** Alice disconnects: the lobby, and only the lobby, hears she left, and
      the roster broadcast no longer holds her. */
  method AliceDrops(server: Server<int>)
    requires server.users == map["1" := User("alice", "1"), "2" := User("bob", "2")]
    requires server.rooms == map["lobby" := {"1", "2"}]
    modifies server
    ensures server.users == map["2" := User("bob", "2")]
    ensures server.rooms == map["lobby" := {"2"}]
  {
    ghost var before := server.rooms;
    ghost var order;
    var out;
    out, order := server.Disconnect("1");
    assert && out[0] == Event(Room("lobby", {"2"}), UserLeft("1"))
           && out[1] == Event(Everyone, UserList(Roster(server.users))) by {
      assert "lobby" in order;
      assert |order| == 1 by {
        if |order| > 1 {
          assert false;
        }
      }
      assert order == ["lobby"];
      assert {"1", "2"} - {"1"} == {"2"};
      assert SweepNotices<int>(before, "1", order) == [LeftNotice(before, "lobby", "1")];
    }
    assert server.rooms["lobby"] == {"2"};
    assert server.users == map["2" := User("bob", "2")];
    RosterIsUsers(server.users);
    assert out[1].payload.users == {User("bob", "2")};
  }
}
