/** The names of Redis channels and lock keys, built by gluing ids together with colons. */
module Channels {
  function ChannelKey(room: string, file: string): string {
    "room:" + room + ":file:" + file
  }

  function RoomChannel(room: string): string {
    "room:" + room + ":room"
  }

  function LockKey(room: string, file: string): string {
    "exec:lock:" + room + ":" + file
  }

  /** Ids without a colon, such as the UUIDs the database generates. */
  predicate ColonFree(s: string) {
    ':' !in s
  }

  lemma CutAtColon(a: string, x: string, b: string, y: string)
    requires ColonFree(a) && ColonFree(b) && a + ":" + x == b + ":" + y
    ensures a == b && x == y
  {
    var s, t := a + ":" + x, b + ":" + y;
    assert s[|a|] == ':' && t[|b|] == ':';
    assert s[..|a|] == a && t[..|b|] == b;
    assert s[|a| + 1..] == x && t[|b| + 1..] == y;
  }

  lemma DropPrefix(p: string, x: string, y: string)
    requires p + x == p + y
    ensures x == y
  {
    assert (p + x)[|p|..] == x && (p + y)[|p|..] == y;
  }

  lemma ChannelParts(room: string, file: string)
    ensures ChannelKey(room, file) == "room:" + (room + ":" + ("file:" + file))
    ensures RoomChannel(room) == "room:" + (room + ":" + "room")
    ensures LockKey(room, file) == "exec:lock:" + (room + ":" + file)
  {
  }

  /** Different files have different channels. */
  lemma ChannelKeyInjective(room: string, file: string, room': string, file': string)
    requires ColonFree(room) && ColonFree(room') && ChannelKey(room, file) == ChannelKey(room', file')
    ensures room == room' && file == file'
  {
    ChannelParts(room, file);
    ChannelParts(room', file');
    DropPrefix("room:", room + ":" + ("file:" + file), room' + ":" + ("file:" + file'));
    CutAtColon(room, "file:" + file, room', "file:" + file');
    DropPrefix("file:", file, file');
  }

  lemma RoomChannelInjective(room: string, room': string)
    requires ColonFree(room) && ColonFree(room') && RoomChannel(room) == RoomChannel(room')
    ensures room == room'
  {
    ChannelParts(room, "");
    ChannelParts(room', "");
    DropPrefix("room:", room + ":" + "room", room' + ":" + "room");
    CutAtColon(room, "room", room', "room");
  }

  /** A file's channel is never a room's channel. */
  lemma ChannelsDisjoint(room: string, file: string, room': string)
    requires ColonFree(room) && ColonFree(room')
    ensures ChannelKey(room, file) != RoomChannel(room')
  {
    if ChannelKey(room, file) == RoomChannel(room') {
      ChannelParts(room, file);
      ChannelParts(room', file);
      DropPrefix("room:", room + ":" + ("file:" + file), room' + ":" + "room");
      assert ("file:" + file)[0] != "room"[0];
      CutAtColon(room, "file:" + file, room', "room");
    }
  }

  lemma LockKeyInjective(room: string, file: string, room': string, file': string)
    requires ColonFree(room) && ColonFree(room') && LockKey(room, file) == LockKey(room', file')
    ensures room == room' && file == file'
  {
    ChannelParts(room, file);
    ChannelParts(room', file');
    DropPrefix("exec:lock:", room + ":" + file, room' + ":" + file');
    CutAtColon(room, file, room', file');
  }

  /** Without the colon-free hypothesis, two different pairs share a lock and a channel. */
  lemma ColonsCollide(a: string, b: string, c: string)
    ensures LockKey(a + ":" + b, c) == LockKey(a, b + ":" + c)
    ensures ChannelKey(a + ":file:" + b, c) == ChannelKey(a, b + ":file:" + c)
  {
  }
}
