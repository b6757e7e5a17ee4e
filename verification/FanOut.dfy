/** What one publish on a Redis channel delivers on a pod. */
module FanOut {
  import opened Channels
  import opened Hubs

  /** The channel that a hub subscribes to for one of its keys. */
  function ChannelOf(w: Which, key: string): string {
    if w == Files then key else RoomChannel(key)
  }

  /** How often a message published on the channel is written to a connection under a key: once for
      every subscription that the pod has open for that key. */
  function Copies(p: Pod, channel: string, w: Which, key: string, c: Conn): nat {
    if ChannelOf(w, key) == channel && c in ConnsOf(HubOf(p, w).rooms, key) then HubOf(p, w).bus[key] else 0
  }

  ghost predicate IsFileKey(key: string) {
    exists room, file :: ColonFree(room) && key == ChannelKey(room, file)
  }

  /** The editor hub is keyed by file channels and the room hub by room ids. */
  ghost predicate KeyOk(w: Which, key: string) {
    if w == Files then IsFileKey(key) else ColonFree(key)
  }

  ghost predicate CallsKeyed(calls: seq<Call>) {
    forall i :: 0 <= i < |calls| && calls[i].Register? ==> KeyOk(calls[i].which, calls[i].key)
  }

  ghost predicate PodKeyed(p: Pod) {
    forall w, key :: key in HubOf(p, w).rooms ==> KeyOk(w, key)
  }

  lemma {:induction false} RunKeepsKeys(p: Pod, calls: seq<Call>)
    requires PodKeyed(p) && CallsKeyed(calls)
    ensures PodKeyed(RunCalls(p, calls))
    decreases |calls|
  {
    if calls != [] {
      var p' := After(p, calls[0]);
      hide KeyOk, ConnectionsDelta, ActiveRoomsDelta, AgainDelta, LateDelta, LeakedDelta;
      forall w, key | key in HubOf(p', w).rooms ensures KeyOk(w, key) {
        assert key in HubOf(p, w).rooms || (calls[0].Register? && calls[0].which == w && calls[0].key == key);
      }
      RunKeepsKeys(p', calls[1..]);
    }
  }

  /** After every run, failed subscriptions included, a publish on a channel writes to a registered
      connection once if its key is the channel's and subscribed, and not at all otherwise: never twice. */
  lemma NeverTwice(calls: seq<Call>, channel: string, w: Which, key: string, c: Conn)
    requires var p := RunCalls(NEW_POD, calls); c in ConnsOf(HubOf(p, w).rooms, key)
    ensures var p := RunCalls(NEW_POD, calls);
            Copies(p, channel, w, key, c) == if ChannelOf(w, key) == channel && key in HubOf(p, w).subs then 1 else 0
  {
    NewPodOk();
    RunKeepsPod(NEW_POD, calls);
  }

  /** After every run without a failed subscription, a publish on a channel writes to a registered
      connection exactly once if its key is the channel's, and not at all otherwise. */
  lemma ExactlyOncePerKey(calls: seq<Call>, channel: string, w: Which, key: string, c: Conn)
    requires NeverFails(calls)
    requires var p := RunCalls(NEW_POD, calls); c in ConnsOf(HubOf(p, w).rooms, key)
    ensures Copies(RunCalls(NEW_POD, calls), channel, w, key, c) == if ChannelOf(w, key) == channel then 1 else 0
  {
    NewPodOk();
    NeverTwice(calls, channel, w, key, c);
    RoomGaugeExact(NEW_POD, calls);
  }

  /** A message for a file reaches every connection registered for that file, on every pod, once, and
      no connection of another file or of a room. */
  lemma FileMessageExactlyOnce(calls: seq<Call>, room: string, file: string, w: Which, key: string, c: Conn)
    requires NeverFails(calls) && CallsKeyed(calls) && ColonFree(room)
    requires var p := RunCalls(NEW_POD, calls); c in ConnsOf(HubOf(p, w).rooms, key)
    ensures var n := Copies(RunCalls(NEW_POD, calls), ChannelKey(room, file), w, key, c);
            && (w == RoomWide ==> n == 0)
            && (w == Files ==> exists room', file' :: ColonFree(room') && key == ChannelKey(room', file')
                                                     && n == if room' == room && file' == file then 1 else 0)
  {
    NewPodOk();
    RunKeepsKeys(NEW_POD, calls);
    ExactlyOncePerKey(calls, ChannelKey(room, file), w, key, c);
    var p := RunCalls(NEW_POD, calls);
    assert key in HubOf(p, w).rooms && KeyOk(w, key);
    hide RunCalls, Copies;
    if w == RoomWide {
      ChannelsDisjoint(room, file, key);
    } else {
      var room', file' :| ColonFree(room') && key == ChannelKey(room', file');
      if key == ChannelKey(room, file) { ChannelKeyInjective(room, file, room', file'); }
    }
  }

  /** A message for a room reaches every connection of that room once and no other connection. */
  lemma RoomMessageExactlyOnce(calls: seq<Call>, room: string, w: Which, key: string, c: Conn)
    requires NeverFails(calls) && CallsKeyed(calls) && ColonFree(room)
    requires var p := RunCalls(NEW_POD, calls); c in ConnsOf(HubOf(p, w).rooms, key)
    ensures Copies(RunCalls(NEW_POD, calls), RoomChannel(room), w, key, c) == if w == RoomWide && key == room then 1 else 0
  {
    NewPodOk();
    RunKeepsKeys(NEW_POD, calls);
    ExactlyOncePerKey(calls, RoomChannel(room), w, key, c);
    var p := RunCalls(NEW_POD, calls);
    assert key in HubOf(p, w).rooms && KeyOk(w, key);
    hide RunCalls, Copies;
    if w == RoomWide {
      if RoomChannel(key) == RoomChannel(room) { RoomChannelInjective(key, room); }
    } else {
      var room', file' :| ColonFree(room') && key == ChannelKey(room', file');
      ChannelsDisjoint(room', file', room);
    }
  }

  /** A connection registered for a file of a colon-free room gets that file's message. */
  lemma RegisteredIsReached(room: string, file: string, c: Conn)
    requires ColonFree(room)
    ensures var calls, key := [Register(Files, c, ChannelKey(room, file), true)], ChannelKey(room, file);
      && NeverFails(calls) && CallsKeyed(calls) && c in ConnsOf(RunCalls(NEW_POD, calls).files.rooms, key)
      && Copies(RunCalls(NEW_POD, calls), key, Files, key, c) == 1
  {
    var calls, key := [Register(Files, c, ChannelKey(room, file), true)], ChannelKey(room, file);
    assert IsFileKey(key);
    assert calls[1..] == [];
    hide ChannelKey;
    var p := After(NEW_POD, calls[0]);
    assert RunCalls(p, []) == p;
  }
}
