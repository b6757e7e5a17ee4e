/** One pod's WebSocket hubs as state machines: the connection maps, the Redis subscriptions and the
    Prometheus gauges, and what every run of calls keeps. */
module Hubs {
  datatype Conn = Conn(id: nat)

  type Rooms = map<string, set<Conn>>

  /** `subs` is the hub's map of subscriptions; `bus` counts the subscriptions it has open at Redis. */
  datatype Hub = Hub(rooms: Rooms, subs: set<string>, closed: bool, bus: multiset<string>)

  const NEW_HUB := Hub(map[], {}, false, multiset{})

  function ConnsOf(rooms: Rooms, key: string): set<Conn> {
    if key in rooms then rooms[key] else {}
  }

  // ---- one hub -------------------------------------------------------------------

  function Registered(h: Hub, c: Conn, key: string, subscribes: bool): Hub {
    if h.closed then h
    else
      var opens := key !in h.subs && subscribes;
      h.(rooms := h.rooms[key := ConnsOf(h.rooms, key) + {c}],
         subs := if opens then h.subs + {key} else h.subs,
         bus := if opens then h.bus + multiset{key} else h.bus)
  }

  function Unregistered(h: Hub, c: Conn, key: string): Hub {
    var left := ConnsOf(h.rooms, key) - {c};
    if left != {} then h.(rooms := h.rooms[key := left])
    else h.(rooms := h.rooms - {key}, subs := h.subs - {key}, bus := if key in h.subs then h.bus - multiset{key} else h.bus)
  }

  function ShutDown(h: Hub): Hub {
    Hub(map[], {}, true, h.bus - multiset(h.subs))
  }

  /** No key has an empty connection set, subscribed keys are occupied, each is open at Redis exactly
      once and nothing else is, and a closed hub is empty. */
  ghost predicate Valid(h: Hub) {
    && (forall key :: key in h.rooms ==> h.rooms[key] != {})
    && h.subs <= h.rooms.Keys
    && h.bus == multiset(h.subs)
    && (h.closed ==> h.rooms == map[])
  }

  lemma RegisterKeepsValid(h: Hub, c: Conn, key: string, subscribes: bool)
    requires Valid(h)
    ensures Valid(Registered(h, c, key, subscribes))
  {
  }

  lemma UnregisterKeepsValid(h: Hub, c: Conn, key: string)
    requires Valid(h)
    ensures Valid(Unregistered(h, c, key))
  {
  }

  // ---- counting -------------------------------------------------------------------

  /** The registered pairs of key and connection; their number is the sum of the sets' sizes. */
  function Members(rooms: Rooms): set<(string, Conn)> {
    set key, c | key in rooms && c in rooms[key] :: (key, c)
  }

  lemma RegisterMembers(h: Hub, c: Conn, key: string, subscribes: bool)
    requires !h.closed
    ensures Members(Registered(h, c, key, subscribes).rooms) == Members(h.rooms) + {(key, c)}
  {
  }

  lemma UnregisterMembers(h: Hub, c: Conn, key: string)
    ensures Members(Unregistered(h, c, key).rooms) == Members(h.rooms) - {(key, c)}
  {
    var rooms := Unregistered(h, c, key).rooms;
    forall k, d ensures (k, d) in Members(rooms) <==> (k, d) in Members(h.rooms) - {(key, c)} {
      assert k == key && d in ConnsOf(h.rooms, key) && d != c ==> d in ConnsOf(h.rooms, key) - {c};
    }
  }

  // ---- a pod: the editor hub, the room hub and the gauges they share ------------------------------

  datatype Which = Files | RoomWide

  /** The gauges, and counts of the calls that make them drift: a connection registered again under its
      key, an unregister that finds nothing, and a room emptied without a subscription. */
  datatype Pod = Pod(files: Hub, roomWide: Hub, connections: int, activeRooms: int, again: nat, late: nat, leaked: nat)

  const NEW_POD := Pod(NEW_HUB, NEW_HUB, 0, 0, 0, 0, 0)

  datatype Call =
    | Register(which: Which, c: Conn, key: string, subscribes: bool)
    | Unregister(which: Which, c: Conn, key: string)
    | Shutdown(which: Which)

  function HubOf(p: Pod, w: Which): Hub {
    if w == Files then p.files else p.roomWide
  }

  /** The hub that a call is made on, after the call. */
  function HubAfter(h: Hub, call: Call): Hub {
    match call
    case Register(_, c, key, subscribes) => Registered(h, c, key, subscribes)
    case Unregister(_, c, key) => Unregistered(h, c, key)
    case Shutdown(_) => ShutDown(h)
  }

  predicate Has(h: Hub, call: Call)
    requires !call.Shutdown?
  {
    call.c in ConnsOf(h.rooms, call.key)
  }

  predicate Empties(h: Hub, call: Call)
    requires call.Unregister?
  {
    ConnsOf(h.rooms, call.key) - {call.c} == {}
  }

  /** What a call adds to the gauge of connections. */
  function ConnectionsDelta(h: Hub, call: Call): int {
    match call
    case Register(_, _, _, _) => if h.closed then 0 else 1
    case Unregister(_, _, _) => -1
    case Shutdown(_) => -|Members(h.rooms)|
  }

  /** What a call on the room hub adds to the gauge of active rooms. */
  function ActiveRoomsDelta(h: Hub, call: Call): int {
    match call
    case Register(_, _, key, _) => if !h.closed && key !in h.rooms then 1 else 0
    case Unregister(_, _, key) => if Empties(h, call) && key in h.subs then -1 else 0
    case Shutdown(_) => -|h.rooms|
  }

  function AgainDelta(h: Hub, call: Call): nat {
    if call.Register? && !h.closed && Has(h, call) then 1 else 0
  }

  function LateDelta(h: Hub, call: Call): nat {
    if call.Unregister? && !Has(h, call) then 1 else 0
  }

  function LeakedDelta(h: Hub, call: Call): nat {
    if call.Unregister? && Empties(h, call) && call.key in h.rooms && call.key !in h.subs then 1 else 0
  }

  /** The pod after a call. */
  function After(p: Pod, call: Call): Pod {
    var h := HubOf(p, call.which);
    Pod(if call.which == Files then HubAfter(h, call) else p.files,
        if call.which == RoomWide then HubAfter(h, call) else p.roomWide,
        p.connections + ConnectionsDelta(h, call),
        if call.which == RoomWide then p.activeRooms + ActiveRoomsDelta(h, call) else p.activeRooms,
        p.again + AgainDelta(h, call),
        p.late + LateDelta(h, call),
        if call.which == RoomWide then p.leaked + LeakedDelta(h, call) else p.leaked)
  }

  /** The gauges are right up to the counted calls. */
  ghost predicate GaugesRight(p: Pod) {
    && p.connections == |Members(p.files.rooms)| + |Members(p.roomWide.rooms)| + p.again - p.late
    && p.activeRooms == |p.roomWide.rooms| + p.leaked
  }

  ghost predicate PodOk(p: Pod) {
    Valid(p.files) && Valid(p.roomWide) && GaugesRight(p)
  }

  lemma CallKeepsValid(h: Hub, call: Call)
    requires Valid(h)
    ensures Valid(HubAfter(h, call))
  {
    match call
    case Register(_, c, key, subscribes) => RegisterKeepsValid(h, c, key, subscribes);
    case Unregister(_, c, key) => UnregisterKeepsValid(h, c, key);
    case Shutdown(_) =>
  }

  lemma SizeWith<T>(s: set<T>, e: T)
    ensures |s + {e}| == if e in s then |s| else |s| + 1
    ensures |s - {e}| == if e in s then |s| - 1 else |s|
  {
    if e in s { assert s + {e} == s; } else { assert s - {e} == s; }
  }

  lemma MemberIff(rooms: Rooms, key: string, c: Conn)
    ensures (key, c) in Members(rooms) <==> c in ConnsOf(rooms, key)
  {
  }

  /** The number of registered connections moves with the gauge, but for repeats and late calls. */
  lemma MembersAfter(h: Hub, call: Call)
    ensures |Members(HubAfter(h, call).rooms)| == |Members(h.rooms)| + ConnectionsDelta(h, call) - AgainDelta(h, call) + LateDelta(h, call)
  {
    match call
    case Register(_, c, key, subscribes) =>
      if !h.closed { RegisterMembers(h, c, key, subscribes); }
      MemberIff(h.rooms, key, c);
      SizeWith(Members(h.rooms), (key, c));
      hide Members, Registered, ConnsOf;
    case Unregister(_, c, key) =>
      UnregisterMembers(h, c, key);
      MemberIff(h.rooms, key, c);
      SizeWith(Members(h.rooms), (key, c));
      hide Members, Unregistered, ConnsOf;
    case Shutdown(_) =>
      assert Members(map[]) == {};
  }

  /** The number of occupied rooms moves with its gauge, but for leaked rooms. */
  lemma RoomsAfter(h: Hub, call: Call)
    requires Valid(h)
    ensures |HubAfter(h, call).rooms| == |h.rooms| + ActiveRoomsDelta(h, call) - LeakedDelta(h, call)
  {
  }

  lemma CallKeepsPod(p: Pod, call: Call)
    requires PodOk(p)
    ensures PodOk(After(p, call))
  {
    var h := HubOf(p, call.which);
    hide Valid, HubAfter, Members, ConnectionsDelta, ActiveRoomsDelta, AgainDelta, LateDelta, LeakedDelta;
    CallKeepsValid(h, call);
    MembersAfter(h, call);
    RoomsAfter(h, call);
  }

  function RunCalls(p: Pod, calls: seq<Call>): Pod
    decreases |calls|
  {
    if calls == [] then p else RunCalls(After(p, calls[0]), calls[1..])
  }

  /** Every run of calls, in any order and with any failed subscription: the hubs stay valid, and the
      gauges count connections and rooms up to repeated registers, late unregisters and leaked rooms. */
  lemma {:induction false} RunKeepsPod(p: Pod, calls: seq<Call>)
    requires PodOk(p)
    ensures PodOk(RunCalls(p, calls))
    decreases |calls|
  {
    if calls != [] {
      CallKeepsPod(p, calls[0]);
      RunKeepsPod(After(p, calls[0]), calls[1..]);
    }
  }

  /** Once closed, a hub stays closed and empty whatever is called on it. */
  lemma {:induction false} ClosedIsAbsorbing(p: Pod, calls: seq<Call>, w: Which)
    requires PodOk(p) && HubOf(p, w).closed
    ensures var h := HubOf(RunCalls(p, calls), w); h.closed && h.rooms == map[] && h.subs == {} && h.bus == multiset{}
    decreases |calls|
  {
    if calls != [] {
      CallKeepsPod(p, calls[0]);
      ClosedIsAbsorbing(After(p, calls[0]), calls[1..], w);
    }
  }

  // ---- when the gauges are exact -----------------------------------------------------------------

  /** A connection of a hub with its key. */
  datatype Session = Session(which: Which, key: string, c: Conn)

  /** The handlers' discipline: a connection is registered once, under one key, and unregistered at
      most once, under that key, after its registration was accepted. `used` and `open` say which
      sessions have been started and which are still to be unregistered. */
  ghost predicate Disciplined(p: Pod, calls: seq<Call>, used: set<Session>, open: set<Session>)
    decreases |calls|
  {
    calls != [] ==>
      var call := calls[0];
      match call
      case Register(w, c, key, _) =>
        var s := Session(w, key, c);
        && s !in used
        && Disciplined(After(p, call), calls[1..], used + {s}, if HubOf(p, w).closed then open else open + {s})
      case Unregister(w, c, key) =>
        var s := Session(w, key, c);
        s in open && Disciplined(After(p, call), calls[1..], used, open - {s})
      case Shutdown(_) => Disciplined(After(p, call), calls[1..], used, open)
  }

  /** An open hub has registered exactly the open sessions. */
  ghost predicate SessionsMatch(h: Hub, w: Which, open: set<Session>) {
    !h.closed ==> forall key, c :: c in ConnsOf(h.rooms, key) <==> Session(w, key, c) in open
  }

  predicate NeverFails(calls: seq<Call>) {
    forall i :: 0 <= i < |calls| && calls[i].Register? ==> calls[i].subscribes
  }

  function SessionOf(call: Call): Session
    requires !call.Shutdown?
  {
    Session(call.which, call.key, call.c)
  }

  /** The sessions that a call starts, and those still to be unregistered after it. */
  function UsedAfter(call: Call, used: set<Session>): set<Session> {
    if call.Register? then used + {SessionOf(call)} else used
  }

  function OpenAfter(h: Hub, call: Call, open: set<Session>): set<Session> {
    match call
    case Register(_, _, _, _) => if h.closed then open else open + {SessionOf(call)}
    case Unregister(_, _, _) => open - {SessionOf(call)}
    case Shutdown(_) => open
  }

  /** The unregisters that are made on a hub that has been shut down. */
  function LateCalls(p: Pod, calls: seq<Call>): nat
    decreases |calls|
  {
    if calls == [] then 0
    else (if calls[0].Unregister? && HubOf(p, calls[0].which).closed then 1 else 0) + LateCalls(After(p, calls[0]), calls[1..])
  }

  lemma SessionStep(h: Hub, w: Which, call: Call, open: set<Session>)
    requires Valid(h) && SessionsMatch(h, w, open)
    ensures w == call.which ==> SessionsMatch(HubAfter(h, call), w, OpenAfter(h, call, open))
    ensures w != call.which ==> forall h' :: SessionsMatch(h, w, OpenAfter(h', call, open))
  {
  }

  /** A disciplined call is no repeat, and it is late iff it unregisters from a closed hub. */
  lemma DriftStep(h: Hub, call: Call, used: set<Session>, open: set<Session>)
    requires Valid(h) && SessionsMatch(h, call.which, open) && open <= used
    requires call.Register? ==> SessionOf(call) !in used
    requires call.Unregister? ==> SessionOf(call) in open
    ensures AgainDelta(h, call) == 0
    ensures LateDelta(h, call) == if call.Unregister? && h.closed then 1 else 0
  {
  }

  /** Every disciplined run, shutdowns of either hub anywhere: the connection gauge equals the number of
      registered connections of both hubs, less the unregisters made on a hub already shut down. */
  lemma {:induction false} ConnectionGaugeExact(p: Pod, calls: seq<Call>, used: set<Session>, open: set<Session>)
    requires PodOk(p) && p.again == 0
    requires SessionsMatch(p.files, Files, open) && SessionsMatch(p.roomWide, RoomWide, open) && open <= used
    requires Disciplined(p, calls, used, open)
    ensures var p' := RunCalls(p, calls);
            && p'.again == 0 && p'.late == p.late + LateCalls(p, calls)
            && p'.connections == |Members(p'.files.rooms)| + |Members(p'.roomWide.rooms)| - p'.late
    decreases |calls|
  {
    if calls != [] {
      var call, p' := calls[0], After(p, calls[0]);
      var h := HubOf(p, call.which);
      assert Disciplined(p', calls[1..], UsedAfter(call, used), OpenAfter(h, call, open));
      assert call.Register? ==> SessionOf(call) !in used;
      assert call.Unregister? ==> SessionOf(call) in open;
      CallKeepsPod(p, call);
      SessionStep(p.files, Files, call, open);
      SessionStep(p.roomWide, RoomWide, call, open);
      DriftStep(h, call, used, open);
      assert OpenAfter(h, call, open) <= UsedAfter(call, used);
      hide SessionsMatch, Disciplined, HubAfter, ConnectionsDelta, ActiveRoomsDelta, AgainDelta, LateDelta, LeakedDelta,
           Members, Valid, UsedAfter, OpenAfter, SessionOf;
      ConnectionGaugeExact(p', calls[1..], UsedAfter(call, used), OpenAfter(h, call, open));
    }
  }

  /** Until a hub is shut down the gauge is exact; once both are, it has fallen below zero by the
      unregisters that came late. */
  ghost predicate GaugeCounts(p: Pod, late: nat) {
    && p.connections == |Members(p.files.rooms)| + |Members(p.roomWide.rooms)| - late
    && (!p.files.closed && !p.roomWide.closed ==> late == 0)
    && (p.files.closed && p.roomWide.closed ==> p.connections + late == 0)
  }

  /** Every disciplined run of a new pod, in any order and with any failed subscription. */
  lemma GaugeOfNewPod(calls: seq<Call>)
    requires Disciplined(NEW_POD, calls, {}, {})
    ensures GaugeCounts(RunCalls(NEW_POD, calls), LateCalls(NEW_POD, calls))
  {
    hide RunCalls, LateCalls, Disciplined, After;
    NewPodOk();
    ConnectionGaugeExact(NEW_POD, calls, {}, {});
    RunKeepsPod(NEW_POD, calls);
    var p := RunCalls(NEW_POD, calls);
    assert Members(map[]) == {};
    if !p.files.closed && !p.roomWide.closed { NoneLateWhileOpen(NEW_POD, calls); }
  }

  lemma NewPodOk()
    ensures PodOk(NEW_POD)
  {
    assert Members(map[]) == {};
  }

  lemma {:induction false} NoneLateWhileOpen(p: Pod, calls: seq<Call>)
    requires !RunCalls(p, calls).files.closed && !RunCalls(p, calls).roomWide.closed
    ensures LateCalls(p, calls) == 0 && !p.files.closed && !p.roomWide.closed
    decreases |calls|
  {
    if calls != [] {
      NoneLateWhileOpen(After(p, calls[0]), calls[1..]);
    }
  }

  /** The server's shutdown: the hubs are shut one after the other, and the first one's handlers
      unregister in between. After both shutdowns the gauge counts them below zero. */
  lemma UnregisterBetweenShutdowns(c: Conn, key: string)
    ensures var calls := [Register(Files, c, key, true), Shutdown(Files), Unregister(Files, c, key), Shutdown(RoomWide)];
            Disciplined(NEW_POD, calls, {}, {}) && RunCalls(NEW_POD, calls).connections == -1
  {
    hide Members, ConnectionsDelta, ActiveRoomsDelta, AgainDelta, LateDelta, LeakedDelta;
    var calls := [Register(Files, c, key, true), Shutdown(Files), Unregister(Files, c, key), Shutdown(RoomWide)];
    var rest := [Shutdown(Files), Unregister(Files, c, key), Shutdown(RoomWide)];
    var rest2, rest3 := [Unregister(Files, c, key), Shutdown(RoomWide)], [Shutdown(RoomWide)];
    assert calls[1..] == rest && rest[1..] == rest2 && rest2[1..] == rest3 && rest3[1..] == [];
    var s := Session(Files, key, c);
    var p1 := After(NEW_POD, calls[0]);
    var p2 := After(p1, rest[0]);
    var p3 := After(p2, rest2[0]);
    var p4 := After(p3, rest3[0]);
    assert {} + {s} == {s};
    assert !p1.files.closed && p2.files.closed && p4.files.closed && p4.roomWide.closed;
    assert Disciplined(p4, [], {s}, {s} - {s});
    assert Disciplined(p3, rest3, {s}, {s} - {s});
    assert Disciplined(p2, rest2, {s}, {s});
    assert Disciplined(p1, rest, {s}, {s});
    assert LateCalls(p4, []) == 0 && LateCalls(p3, rest3) == 0 && LateCalls(p2, rest2) == 1 && LateCalls(p1, rest) == 1;
    assert RunCalls(NEW_POD, calls) == RunCalls(p1, rest) == RunCalls(p2, rest2) == RunCalls(p3, rest3) == RunCalls(p4, []) == p4;
    GaugeOfNewPod(calls);
  }

  /** With no failed subscription, every occupied key of both hubs is subscribed and the room gauge
      equals the number of occupied rooms. */
  lemma {:induction false} RoomGaugeExact(p: Pod, calls: seq<Call>)
    requires PodOk(p) && p.leaked == 0 && NeverFails(calls)
    requires p.files.subs == p.files.rooms.Keys && p.roomWide.subs == p.roomWide.rooms.Keys
    ensures var p' := RunCalls(p, calls);
            && p'.files.subs == p'.files.rooms.Keys && p'.roomWide.subs == p'.roomWide.rooms.Keys
            && p'.leaked == 0 && p'.activeRooms == |p'.roomWide.rooms|
    decreases |calls|
  {
    if calls != [] {
      CallKeepsPod(p, calls[0]);
      SubscribedStep(p.files, calls[0]);
      SubscribedStep(p.roomWide, calls[0]);
      hide PodOk, HubAfter, ConnectionsDelta, ActiveRoomsDelta, AgainDelta, LateDelta, LeakedDelta;
      RoomGaugeExact(After(p, calls[0]), calls[1..]);
    }
  }

  lemma SubscribedStep(h: Hub, call: Call)
    requires Valid(h) && (call.Register? ==> call.subscribes) && h.subs == h.rooms.Keys
    ensures HubAfter(h, call).subs == HubAfter(h, call).rooms.Keys
    ensures LeakedDelta(h, call) == 0
  {
  }

  /** One failed subscription is enough to make the room gauge drift for good. */
  lemma FailedSubscribeLeaks(room: string, c: Conn)
    ensures var p := RunCalls(NEW_POD, [Register(RoomWide, c, room, false), Unregister(RoomWide, c, room)]);
            p.roomWide.rooms == map[] && p.activeRooms == 1
  {
    var calls := [Register(RoomWide, c, room, false), Unregister(RoomWide, c, room)];
    var p1 := After(NEW_POD, calls[0]);
    assert calls[1..][0] == calls[1] && calls[1..][1..] == [];
    assert p1.roomWide.rooms[room] == {c};
    var p2 := After(p1, calls[1]);
    assert RunCalls(p2, []) == p2;
    assert p2.roomWide.rooms == map[];
  }
}
