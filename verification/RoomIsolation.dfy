/** Rooms and the file tree: nothing makes a parent belong to its child's room, so a statement on one
    room's folder can change another room's rows. When it cannot. */
module RoomIsolation {
  import opened Wrappers
  import opened Forest
  import opened FilesTable
  import opened ForestRuns

  predicate ParentsInRoom(rows: Rows) {
    forall x :: x in rows && rows[x].parent.Some? ==>
      rows[x].parent.value in rows && rows[rows[x].parent.value].room == rows[x].room
  }

  /** The check the code does not make: a new parent belongs to the room of the row put under it. */
  ghost predicate SameRoom(rows: Rows, s: Statement) {
    && (s.Create? && TakesEffect(rows, s) && s.row.parent.Some? ==> rows[s.row.parent.value].room == s.row.room)
    && var m := Moves(rows, s);
       m.Some? ==> m.value.0 in rows && m.value.1 in rows && rows[m.value.1].room == rows[m.value.0].room
  }

  /** One statement keeps every parent in its child's room iff it puts no row under another room's. */
  lemma StepKeepsRooms(rows: Rows, s: Statement)
    requires ParentsInRoom(rows)
    ensures ParentsInRoom(Apply(rows, s)) <==> SameRoom(rows, s)
  {
    hide Reaches, OnCycle, Fits, Cut;
    var rows' := Apply(rows, s);
    var m := Moves(rows, s);
    if m.Some? {
      assert m.value.0 in rows' && rows'[m.value.0].parent == Some(m.value.1);
      assert rows'[m.value.0].room == rows[m.value.0].room && rows'[m.value.1].room == rows[m.value.1].room;
    } else if s.Create? && TakesEffect(rows, s) {
      assert s.id in rows' && rows'[s.id].parent == s.row.parent;
    } else {
      forall x | x in rows' && rows'[x].parent.Some? ensures x in rows && rows'[x].parent == rows[x].parent {}
    }
  }

  ghost predicate SameRoomThroughout(rows: Rows, ss: seq<Statement>)
    decreases |ss|
  {
    ss != [] ==> SameRoom(rows, ss[0]) && SameRoomThroughout(Apply(rows, ss[0]), ss[1..])
  }

  ghost predicate InRoomThroughout(rows: Rows, ss: seq<Statement>)
    decreases |ss|
  {
    ParentsInRoom(rows) && (ss != [] ==> InRoomThroughout(Apply(rows, ss[0]), ss[1..]))
  }

  /** Every run: trees stay within their rooms throughout iff no statement put a row under another room's. */
  lemma {:induction false} RunKeepsRooms(rows: Rows, ss: seq<Statement>)
    requires ParentsInRoom(rows)
    ensures InRoomThroughout(rows, ss) <==> SameRoomThroughout(rows, ss)
    decreases |ss|
  {
    if ss != [] {
      hide Apply, ParentsInRoom, SameRoom;
      StepKeepsRooms(rows, ss[0]);
      if ParentsInRoom(Apply(rows, ss[0])) { RunKeepsRooms(Apply(rows, ss[0]), ss[1..]); }
    }
  }

  lemma {:induction false} ChainInRoom(rows: Rows, x: FileId, k: nat, r: FileId)
    requires ParentsInRoom(rows) && Up(LinksOf(rows), x, k) == Some(r)
    ensures x in rows && r in rows && rows[x].room == rows[r].room
    decreases k
  {
    if k > 0 { ChainInRoom(rows, rows[x].parent.value, k - 1, r); }
  }

  ghost predicate SubtreeInRoom(rows: Rows, id: FileId, room: RoomId) {
    forall x :: x in Subtree(LinksOf(rows), id) ==> rows[x].room == room
  }

  /** While parents are in their children's rooms, every subtree lies in its root's room. */
  lemma TreesStayInRoom(rows: Rows, id: FileId)
    requires ParentsInRoom(rows) && id in rows
    ensures SubtreeInRoom(rows, id, rows[id].room) && id in Subtree(LinksOf(rows), id)
  {
    ReachesSelf(LinksOf(rows), id);
    forall x | x in Subtree(LinksOf(rows), id) ensures rows[x].room == rows[id].room {
      var k: nat :| Up(LinksOf(rows), x, k) == Some(id);
      ChainInRoom(rows, x, k, id);
    }
  }

  // ---- what a request made under a room does to other rooms ---------------------------------------

  /** The statement leaves the rows of all rooms but this one as they were. The handlers take the room
      from the request and never compare it with the file's. */
  ghost predicate SparesOtherRooms(rows: Rows, s: Statement, room: RoomId) {
    forall x :: x in rows && rows[x].room != room ==> x in Apply(rows, s) && Apply(rows, s)[x] == rows[x]
  }

  /** A permanent delete under a room spares the others iff the whole subtree belongs to that room. */
  lemma DeleteSparesIff(rows: Rows, id: FileId, room: RoomId)
    requires !OnCycle(LinksOf(rows), id)
    ensures SparesOtherRooms(rows, PermanentDelete(id), room) <==> SubtreeInRoom(rows, id, room)
  {
    DeleteRemovesSubtree(rows, id);
    hide Reaches, OnCycle, Apply;
    if !SubtreeInRoom(rows, id, room) {
      var x :| x in Subtree(LinksOf(rows), id) && rows[x].room != room;
      assert x !in Apply(rows, PermanentDelete(id));
    }
  }

  /** A folder toggle under a room spares the others iff every row of another room in the subtree already
      carries the new flag. */
  lemma ToggleSparesIff(rows: Rows, id: FileId, room: RoomId)
    requires id in rows && !OnCycle(LinksOf(rows), id)
    ensures SparesOtherRooms(rows, ToggleFolder(id), room) <==>
            forall x :: x in Subtree(LinksOf(rows), id) && rows[x].room != room ==> rows[x].isActive == !rows[id].isActive
  {
    ToggleIsUniform(rows, id);
    hide Reaches, OnCycle;
    var rows' := Apply(rows, ToggleFolder(id));
    assert rows'.Keys == rows.Keys;
    hide Apply;
    forall x | x in rows && rows[x].room != room
      ensures rows'[x] == rows[x] <==> x !in Subtree(LinksOf(rows), id) || rows[x].isActive == !rows[id].isActive
    {
    }
  }

  /** An update, a move or a file toggle under a room spares the others iff the row belongs to that room
      or does not change. */
  lemma ChangeSparesIff(rows: Rows, s: Statement, room: RoomId)
    requires s.UpdateFile? || s.UpdateFolder? || s.MoveFolder? || s.ToggleFile?
    ensures SparesOtherRooms(rows, s, room) <==> Apply(rows, s) == rows || rows[s.id].room == room
  {
    hide Fits, Cut;
    var rows' := Apply(rows, s);
    assert rows' != rows ==> s.id in rows && rows' == rows[s.id := rows'[s.id]];
    if s.id in rows { assert rows[s.id := rows[s.id]] == rows; }
  }

  /** In a table whose trees stay in their rooms, a delete or folder toggle under a room spares the others
      iff the file it names belongs to that room. */
  lemma RequestsSpareIff(rows: Rows, id: FileId, room: RoomId)
    requires ParentsInRoom(rows) && id in rows && !OnCycle(LinksOf(rows), id)
    ensures SparesOtherRooms(rows, PermanentDelete(id), room) <==> rows[id].room == room
    ensures SparesOtherRooms(rows, ToggleFolder(id), room) <==> rows[id].room == room
  {
    hide SparesOtherRooms, OnCycle, ParentsInRoom;
    TreesStayInRoom(rows, id);
    DeleteSparesIff(rows, id, room);
    ToggleSparesIff(rows, id, room);
    hide Subtree;
  }
}
