/** The hub classes as code: Hub for editor channels and RoomHub for room channels run the same
    machine, and only RoomHub moves the gauge of active rooms. */
module HubServer {
  import opened FanOut
  import opened Hubs

  class Metrics {
    var connections: int
    var activeRooms: int
    var roomJoins: nat

    constructor ()
      ensures connections == 0 && activeRooms == 0 && roomJoins == 0
    {
      connections, activeRooms, roomJoins := 0, 0, 0;
    }

    /** One decrement a closed connection, one a closed room. */
    method Lower(conns: nat, roomCount: nat)
      modifies `connections, `activeRooms
      ensures connections == old(connections) - conns && activeRooms == old(activeRooms) - roomCount
    {
      for i := 0 to conns
        invariant connections == old(connections) - i && activeRooms == old(activeRooms)
      {
        connections := connections - 1;
      }
      for i := 0 to roomCount
        invariant connections == old(connections) - conns && activeRooms == old(activeRooms) - i
      {
        activeRooms := activeRooms - 1;
      }
    }
  }

  class HubServer {
    const which: Which
    const metrics: Metrics
    var rooms: Rooms
    var subs: set<string>
    var closed: bool
    var bus: multiset<string>

    constructor (which: Which, metrics: Metrics)
      ensures this.which == which && this.metrics == metrics && State() == NEW_HUB
    {
      this.which := which;
      this.metrics := metrics;
      rooms, subs, closed, bus := map[], {}, false, multiset{};
    }

    ghost function State(): Hub
      reads this
    {
      Hub(rooms, subs, closed, bus)
    }

    /** What a call adds to the gauge of active rooms. */
    function RoomsMoved(h: Hub, call: Call): int {
      if which == RoomWide then ActiveRoomsDelta(h, call) else 0
    }

    lemma RegisterEffect(h: Hub, c: Conn, key: string, subscribes: bool)
      requires !h.closed
      ensures var call := Call.Register(which, c, key, subscribes);
              && ConnectionsDelta(h, call) == 1
              && RoomsMoved(h, call) == (if which == RoomWide && key !in h.rooms then 1 else 0)
              && HubAfter(h, call) ==
                 var rooms := h.rooms[key := (if key in h.rooms then h.rooms[key] else {}) + {c}];
                 if key !in h.subs && subscribes then Hub(rooms, h.subs + {key}, false, h.bus + multiset{key})
                 else Hub(rooms, h.subs, false, h.bus)
    {
    }

    lemma UnregisterEffect(h: Hub, c: Conn, key: string)
      ensures var call, left := Call.Unregister(which, c, key), (if key in h.rooms then h.rooms[key] else {}) - {c};
              && ConnectionsDelta(h, call) == -1
              && RoomsMoved(h, call) == (if which == RoomWide && left == {} && key in h.subs then -1 else 0)
              && HubAfter(h, call) ==
                 if left != {} then Hub(h.rooms[key := left], h.subs, h.closed, h.bus)
                 else Hub(h.rooms - {key}, h.subs - {key}, h.closed, if key in h.subs then h.bus - multiset{key} else h.bus)
    {
    }

    lemma ShutdownEffect(h: Hub)
      ensures var call := Call.Shutdown(which);
              && ConnectionsDelta(h, call) == -|Members(h.rooms)|
              && RoomsMoved(h, call) == (if which == RoomWide then -|h.rooms| else 0)
              && HubAfter(h, call) == Hub(map[], {}, true, h.bus - multiset(h.subs))
    {
    }

    /** `subscribes` says whether Redis accepts the subscription, if one is needed. */
    method Register(c: Conn, key: string, subscribes: bool) returns (ok: bool)
      modifies this, metrics
      ensures ok == !old(closed)
      ensures metrics.roomJoins == old(metrics.roomJoins) + if ok && which == RoomWide then 1 else 0
      ensures State() == HubAfter(old(State()), Call.Register(which, c, key, subscribes))
      ensures metrics.connections == old(metrics.connections) + ConnectionsDelta(old(State()), Call.Register(which, c, key, subscribes))
      ensures metrics.activeRooms == old(metrics.activeRooms) + RoomsMoved(old(State()), Call.Register(which, c, key, subscribes))
    {
      if closed { return false; }
      RegisterEffect(State(), c, key, subscribes);
      hide HubAfter, ConnectionsDelta, RoomsMoved;
      var conns: set<Conn> := {};
      if key in rooms {
        conns := rooms[key];
      } else if which == RoomWide {
        metrics.activeRooms := metrics.activeRooms + 1;
      }
      rooms := rooms[key := conns + {c}];
      metrics.connections := metrics.connections + 1;
      if which == RoomWide { metrics.roomJoins := metrics.roomJoins + 1; }
      if key !in subs { SubscribeRedis(key, subscribes); }
      ok := true;
    }

    method SubscribeRedis(key: string, subscribes: bool)
      modifies this`subs, this`bus
      ensures subs == if subscribes then old(subs) + {key} else old(subs)
      ensures bus == if subscribes then old(bus) + multiset{key} else old(bus)
    {
      if !subscribes { return; }
      bus := bus + multiset{key};
      subs := subs + {key};
    }

    method Unregister(c: Conn, key: string)
      modifies this, metrics`connections, metrics`activeRooms
      ensures State() == HubAfter(old(State()), Call.Unregister(which, c, key))
      ensures metrics.connections == old(metrics.connections) + ConnectionsDelta(old(State()), Call.Unregister(which, c, key))
      ensures metrics.activeRooms == old(metrics.activeRooms) + RoomsMoved(old(State()), Call.Unregister(which, c, key))
    {
      UnregisterEffect(State(), c, key);
      hide HubAfter, ConnectionsDelta, RoomsMoved;
      var left := (if key in rooms then rooms[key] else {}) - {c};
      metrics.connections := metrics.connections - 1;
      if left != {} {
        rooms := rooms[key := left];
      } else {
        if key in subs {
          bus := bus - multiset{key};
          if which == RoomWide { metrics.activeRooms := metrics.activeRooms - 1; }
        }
        subs := subs - {key};
        rooms := rooms - {key};
      }
    }

    /** What the goroutine of a subscription does with one message: writes it to the key's connections. */
    method Deliver(key: string) returns (written: seq<Conn>)
      ensures multiset(written) == multiset(ConnsOf(rooms, key))
    {
      written := [];
      var todo := if key in rooms then rooms[key] else {};
      while todo != {}
        invariant todo <= ConnsOf(rooms, key)
        invariant multiset(written) == multiset(ConnsOf(rooms, key) - todo)
      {
        var c :| c in todo;
        assert ConnsOf(rooms, key) - (todo - {c}) == (ConnsOf(rooms, key) - todo) + {c};
        written := written + [c];
        todo := todo - {c};
      }
      assert ConnsOf(rooms, key) - {} == ConnsOf(rooms, key);
    }

    /** One publish on a key's channel reaches every subscription that is open for the key, and each of
        their goroutines writes it out. */
    method ReceivePublish(key: string) returns (written: seq<Conn>)
      ensures forall p: Pod, c :: HubOf(p, which) == State() ==>
                multiset(written)[c] == Copies(p, ChannelOf(which, key), which, key, c)
    {
      written := [];
      for i := 0 to bus[key]
        invariant forall c :: multiset(written)[c] == if c in ConnsOf(rooms, key) then i else 0
      {
        var more := Deliver(key);
        written := written + more;
      }
    }

    /** The connections of all rooms, in any map order. */
    method AllConns() returns (conns: seq<Conn>)
      ensures |conns| == |Members(rooms)|
      ensures forall c :: c in conns <==> exists key :: key in rooms && c in rooms[key]
    {
      conns := [];
      var todo := rooms.Keys;
      var done: Rooms := map[];
      assert Members(done) == {};
      while todo != {}
        invariant todo <= rooms.Keys
        invariant done == map key | key in rooms && key !in todo :: rooms[key]
        invariant |conns| == |Members(done)|
        invariant forall c :: c in conns <==> exists key :: key in done && c in done[key]
      {
        var key :| key in todo;
        ghost var before := conns;
        var written := Deliver(key);
        conns := conns + written;
        todo := todo - {key};
        AddRoom(done, key, rooms[key]);
        assert |written| == |multiset(written)| && |multiset(rooms[key])| == |rooms[key]|;
        forall c ensures c in written <==> c in rooms[key] {
          assert c in written <==> c in multiset(written);
        }
        ghost var more := done[key := rooms[key]];
        forall c ensures c in conns <==> exists k :: k in more && c in more[k] {
          if k :| k in done && c in done[k] { assert k in more && c in more[k]; }
          if c in rooms[key] { assert key in more && c in more[key]; }
        }
        done := done[key := rooms[key]];
      }
      assert done == rooms;
    }

    lemma AddRoom(done: Rooms, key: string, conns: set<Conn>)
      requires key !in done
      ensures |Members(done[key := conns])| == |Members(done)| + |conns|
    {
      var pairs := set c | c in conns :: (key, c);
      assert Members(done[key := conns]) == Members(done) + pairs by {
        forall k, d ensures (k, d) in Members(done[key := conns]) <==> (k, d) in Members(done) + pairs {}
      }
      PairCount(key, conns);
    }

    lemma {:induction false} PairCount(key: string, conns: set<Conn>)
      ensures |set c | c in conns :: (key, c)| == |conns|
      decreases |conns|
    {
      if conns != {} {
        var c :| c in conns;
        PairCount(key, conns - {c});
        assert (set d | d in conns :: (key, d)) == (set d | d in conns - {c} :: (key, d)) + {(key, c)};
      }
    }

    /** Closes every subscription and connection; a later Register is refused. */
    method Shutdown() returns (closedConns: seq<Conn>)
      modifies this, metrics`connections, metrics`activeRooms
      ensures forall c :: c in closedConns <==> exists key :: key in old(rooms) && c in old(rooms)[key]
      ensures State() == HubAfter(old(State()), Call.Shutdown(which))
      ensures metrics.connections == old(metrics.connections) + ConnectionsDelta(old(State()), Call.Shutdown(which))
      ensures metrics.activeRooms == old(metrics.activeRooms) + RoomsMoved(old(State()), Call.Shutdown(which))
    {
      ShutdownEffect(State());
      hide Members, HubAfter, ConnectionsDelta, RoomsMoved;
      closed := true;
      closedConns := AllConns();
      var roomCount := |rooms|;
      bus := bus - multiset(subs);
      rooms, subs := map[], {};
      metrics.Lower(|closedConns|, if which == RoomWide then roomCount else 0);
    }
  }
}
