/** Runs from the empty table that show what the file tree does not promise: a folder can be moved
    below itself, a pair of toggles can lose a flag, and a folder can be shown by one tree only. */
module ForestLimits {
  import opened Wrappers
  import opened Forest
  import opened ForestCover
  import opened FilesTable
  import opened ForestRuns
  import opened TreeBuilder
  import opened Reconstruct
  import opened ExplorerTree
  import opened RoomIsolation

  function Folder(room: RoomId, name: string, parent: Option<FileId>, active: bool): Row {
    Row(room, name, "", parent, true, active)
  }

  /** A folder a with a folder b in it. */
  function Nested(room: RoomId, a: FileId, b: FileId, aOn: bool, bOn: bool): Rows {
    map[a := Folder(room, "outer", None, aOn), b := Folder(room, "inner", Some(a), bOn)]
  }

  function MakeNested(room: RoomId, a: FileId, b: FileId): seq<Statement> {
    [Create(a, Folder(room, "outer", None, true)), Create(b, Folder(room, "inner", Some(a), true))]
  }

  lemma {:induction false} RunAppend(rows: Rows, ss: seq<Statement>, s: Statement)
    ensures Run(rows, ss + [s]) == Apply(Run(rows, ss), s)
    decreases |ss|
  {
    hide Apply;
    if ss == [] {
      assert (ss + [s])[1..] == [];
    } else {
      assert (ss + [s])[1..] == ss[1..] + [s];
      RunAppend(Apply(rows, ss[0]), ss[1..], s);
    }
  }

  lemma NestedIsMade(room: RoomId, a: FileId, b: FileId)
    requires a != b
    ensures Run(map[], MakeNested(room, a, b)) == Nested(room, a, b, true, true)
  {
    var ss := MakeNested(room, a, b);
    assert ss[1..][0] == ss[1] && ss[1..][1..] == [];
    var one := Apply(map[], ss[0]);
    assert one == map[a := Folder(room, "outer", None, true)];
    assert Apply(one, ss[1]) == Nested(room, a, b, true, true);
    hide Apply;
    assert Run(one, ss[1..]) == Run(Apply(one, ss[1]), []);
  }

  lemma NestedShape(room: RoomId, a: FileId, b: FileId, aOn: bool, bOn: bool)
    requires a != b
    ensures var l := LinksOf(Nested(room, a, b, aOn, bOn));
            Subtree(l, a) == {a, b} && Subtree(l, b) == {b} && !OnCycle(l, a) && !OnCycle(l, b)
  {
    var l := LinksOf(Nested(room, a, b, aOn, bOn));
    assert l == map[a := None, b := Some(a)];
    ReachesStep(l, a, a);
    ReachesStep(l, a, b);
    ReachesStep(l, b, a);
    ReachesStep(l, b, b);
    hide Reaches, OnCycle;
    OnCycleViaParent(l, a);
    OnCycleViaParent(l, b);
  }

  lemma TogglesOfNested(room: RoomId, a: FileId, b: FileId, aOn: bool, bOn: bool)
    requires a != b
    ensures Apply(Nested(room, a, b, aOn, bOn), ToggleFolder(a)) == Nested(room, a, b, !aOn, !aOn)
    ensures Apply(Nested(room, a, b, aOn, bOn), ToggleFolder(b)) == Nested(room, a, b, aOn, !bOn)
  {
    NestedShape(room, a, b, aOn, bOn);
    hide Subtree, OnCycle, LinksOf;
  }

  /** The two folders, each in the other. */
  function Knot(room: RoomId, a: FileId, b: FileId): Rows {
    map[a := Folder(room, "outer", Some(b), true), b := Folder(room, "inner", Some(a), true)]
  }

  lemma KnotShape(room: RoomId, a: FileId, b: FileId)
    requires a != b
    ensures OnCycle(LinksOf(Knot(room, a, b)), a) && !IsForest(Knot(room, a, b))
  {
    var l := LinksOf(Knot(room, a, b));
    assert Up(l, a, 1) == Some(b) && Up(l, a, 2) == Some(a);
  }

  lemma KnotMoves(room: RoomId, a: FileId, b: FileId)
    requires a != b
    ensures Apply(Nested(room, a, b, true, true), UpdateFolder(a, "", Some(b))) == Knot(room, a, b)
    ensures Apply(Knot(room, a, b), UpdateFolder(b, "", None)) == map[a := Folder(room, "outer", Some(b), true), b := Folder(room, "inner", None, true)]
  {
  }

  lemma Untied(room: RoomId, a: FileId, b: FileId)
    requires a != b
    ensures IsForest(map[a := Folder(room, "outer", Some(b), true), b := Folder(room, "inner", None, true)])
  {
    var rows := map[a := Folder(room, "outer", Some(b), true), b := Folder(room, "inner", None, true)];
    var l := LinksOf(rows);
    assert l == map[a := Some(b), b := None];
    ReachesStep(l, b, a);
    OnCycleViaParent(l, a);
    OnCycleViaParent(l, b);
    hide Reaches, OnCycle;
  }

  /** Two creates and a rename that names the inner folder as the outer one's parent: the outer folder's
      subtree query does not end while this stands, and a move that takes the inner folder out ends it. */
  lemma MovedBelowItself(room: RoomId, a: FileId, b: FileId) returns (ss: seq<Statement>)
    requires a != b
    ensures var rows := Run(map[], ss);
            && OnCycle(LinksOf(rows), a) && !IsForest(rows) && !SafeThroughout(map[], ss)
            && (forall n: nat :: !RoundEmpty(rows, a, n))
    ensures IsForest(Run(map[], ss + [UpdateFolder(b, "", None)]))
  {
    ss := MakeNested(room, a, b) + [UpdateFolder(a, "", Some(b))];
    assert IsForest(map[]);
    RunKeepsForest(map[], ss);
    NestedIsMade(room, a, b);
    hide *;
    RunAppend(map[], MakeNested(room, a, b), UpdateFolder(a, "", Some(b)));
    KnotMoves(room, a, b);
    KnotShape(room, a, b);
    QueryEndsIffOffCycle(Knot(room, a, b), a);
    RunAppend(map[], ss, UpdateFolder(b, "", None));
    Untied(room, a, b);
  }

  /** The inner folder is deleted on its own, then the outer one is deleted and restored: the inner one
      is back although it was in the trash. */
  lemma TogglePairLosesFlag(room: RoomId, a: FileId, b: FileId) returns (ss: seq<Statement>)
    requires a != b
    ensures var rows := Run(map[], ss); var after := Apply(Apply(rows, ToggleFolder(a)), ToggleFolder(a));
            && rows == Nested(room, a, b, true, false) && after == Nested(room, a, b, true, true) && after != rows
  {
    NestedIsMade(room, a, b);
    RunAppend(map[], MakeNested(room, a, b), ToggleFolder(b));
    ss := MakeNested(room, a, b) + [ToggleFolder(b)];
    TogglesOfNested(room, a, b, true, true);
    TogglesOfNested(room, a, b, true, false);
    TogglesOfNested(room, a, b, false, false);
    assert Nested(room, a, b, true, true)[b].isActive;
  }

  lemma OnlySecondActive(fa: File, fb: File)
    requires !fa.row.isActive && fb.row.isActive
    ensures FileRows(Active([fa, fb])) == map[fb.id := fb.row]
  {
    assert [fa, fb][..1] == [fa] && [fa][..0] == [] && [fb][..0] == [];
    assert Active([fa]) == [] && Active([fa, fb]) == [fb];
    assert FileRows([fb][..0]) == map[];
  }

  lemma OrphanShownOnce(x: FileId, row: Row)
    requires row.parent.Some? && row.parent.value != x
    ensures var rows := map[x := row];
            x in ShownFrom(rows, Roots(LinksOf(rows))) && x !in ShownFrom(rows, Under(rows, None))
  {
    var rows := map[x := row];
    ReachesSelf(LinksOf(rows), x);
    assert Under(rows, None) == {};
  }

  /** The outer folder is deleted and only the inner one restored: among the active files the executor
      promotes it to the top and the browser's tree drops it. */
  lemma RestoredFolderIsDropped(room: RoomId, a: FileId, b: FileId) returns (ss: seq<Statement>)
    requires a != b
    ensures var rows := Run(map[], ss);
            && rows == Nested(room, a, b, false, true)
            && var active := FileRows(Active([File(a, rows[a]), File(b, rows[b])]));
               b in ShownFrom(active, Roots(LinksOf(active))) && b !in ShownFrom(active, Under(active, None))
  {
    var rows := Nested(room, a, b, false, true);
    OnlySecondActive(File(a, rows[a]), File(b, rows[b]));
    OrphanShownOnce(b, rows[b]);
    NestedIsMade(room, a, b);
    TogglesOfNested(room, a, b, true, true);
    TogglesOfNested(room, a, b, false, false);
    hide Run, Apply, Active, FileRows, ShownFrom;
    RunAppend(map[], MakeNested(room, a, b), ToggleFolder(a));
    RunAppend(map[], MakeNested(room, a, b) + [ToggleFolder(a)], ToggleFolder(b));
    ss := MakeNested(room, a, b) + [ToggleFolder(a)] + [ToggleFolder(b)];
  }

  /** A folder a of one room with a folder b of another in it. */
  function Across(room: RoomId, other: RoomId, a: FileId, b: FileId): Rows {
    map[a := Folder(room, "outer", None, true), b := Folder(other, "inner", Some(a), true)]
  }

  lemma AcrossShape(room: RoomId, other: RoomId, a: FileId, b: FileId)
    requires a != b
    ensures var l := LinksOf(Across(room, other, a, b)); Subtree(l, a) == {a, b} && !OnCycle(l, a)
  {
    NestedShape(room, a, b, true, true);
    assert LinksOf(Across(room, other, a, b)) == LinksOf(Nested(room, a, b, true, true));
  }

  /** Two creates, the second under the first one's folder although its room is another: deleting the
      folder for good removes the other room's row. */
  lemma ParentInOtherRoom(room: RoomId, other: RoomId, a: FileId, b: FileId) returns (ss: seq<Statement>)
    requires a != b && room != other
    ensures var rows := Run(map[], ss);
            && rows == Across(room, other, a, b) && !ParentsInRoom(rows) && !OnCycle(LinksOf(rows), a)
            && b !in Apply(rows, PermanentDelete(a)) && !SparesOtherRooms(rows, PermanentDelete(a), room)
  {
    ss := [Create(a, Folder(room, "outer", None, true)), Create(b, Folder(other, "inner", Some(a), true))];
    assert ss[1..][0] == ss[1] && ss[1..][1..] == [];
    var one := Apply(map[], ss[0]);
    assert one == map[a := Folder(room, "outer", None, true)];
    var rows := Across(room, other, a, b);
    assert Apply(one, ss[1]) == rows;
    assert rows[b].room == other && rows[b].parent == Some(a);
    hide Apply;
    assert Run(map[], ss) == Run(one, ss[1..]) == Run(rows, []) == rows;
    AcrossShape(room, other, a, b);
    hide Subtree, OnCycle;
    DeleteRemovesSubtree(rows, a);
    assert b in rows;
  }

  /** A room with one folder: a delete made under another room's name removes it all the same. */
  lemma DeletedUnderOtherRoom(room: RoomId, other: RoomId, a: FileId)
    requires room != other
    ensures var rows := Run(map[], [Create(a, Folder(room, "outer", None, true))]);
            && rows == map[a := Folder(room, "outer", None, true)] && ParentsInRoom(rows)
            && !OnCycle(LinksOf(rows), a) && !SparesOtherRooms(rows, PermanentDelete(a), other)
  {
    var ss := [Create(a, Folder(room, "outer", None, true))];
    var rows := map[a := Folder(room, "outer", None, true)];
    assert ss[1..] == [] && Apply(map[], ss[0]) == rows;
    assert rows[a].room == room;
    hide Apply;
    assert Run(map[], ss) == Run(rows, []) == rows;
    ReachesStep(LinksOf(rows), a, a);
    OnCycleViaParent(LinksOf(rows), a);
    RequestsSpareIff(rows, a, other);
  }
}
