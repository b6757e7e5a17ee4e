/** The Postgres `files` table: its recursive subtree query and the statements that change it. */
module FilesTable {
  import opened Wrappers
  import opened Forest

  datatype RoomId = RoomId(uuid: string)

  datatype Row = Row(room: RoomId, name: string, language: string, parent: Option<FileId>, isFolder: bool, isActive: bool)

  type Rows = map<FileId, Row>

  datatype DbError = NoRows | ForeignKey | CheckConstraint | BadText

  function LinksOf(rows: Rows): Links {
    map x | x in rows :: rows[x].parent
  }

  /** The foreign key parent_id REFERENCES files(id). */
  predicate ParentsExist(rows: Rows) {
    forall x :: x in rows && rows[x].parent.Some? ==> rows[x].parent.value in rows
  }

  // ---- WITH RECURSIVE subtree ----------------------------------------------

  /** x is in the working table after n rounds, seen as a set. */
  ghost predicate InRound(rows: Rows, root: FileId, n: nat, x: FileId) {
    Up(LinksOf(rows), x, n) == Some(root)
  }

  ghost predicate RoundEmpty(rows: Rows, root: FileId, n: nat) {
    forall x :: !InRound(rows, root, n, x)
  }

  ghost predicate InSomeRound(rows: Rows, root: FileId, n: nat, x: FileId) {
    exists k: nat :: k <= n && InRound(rows, root, k, x)
  }

  /** How often a row with this parent joins with the working table. */
  ghost function Matches(working: seq<FileId>, parent: Option<FileId>): nat {
    if parent.Some? then multiset(working)[parent.value] else 0
  }

  /** How often the recursive term returns x. */
  ghost function Joined(rows: Rows, working: seq<FileId>, x: FileId): nat {
    if x in rows then Matches(working, rows[x].parent) else 0
  }

  /** The inner loop of the join: one copy of f for every occurrence of its parent. */
  method JoinRow(f: FileId, parent: Option<FileId>, working: seq<FileId>) returns (copies: seq<FileId>)
    ensures |copies| == Matches(working, parent)
    ensures forall i :: 0 <= i < |copies| ==> copies[i] == f
  {
    copies := [];
    for i := 0 to |working|
      invariant |copies| == Matches(working[..i], parent)
      invariant forall j :: 0 <= j < |copies| ==> copies[j] == f
    {
      assert working[..i + 1] == working[..i] + [working[i]];
      if parent == Some(working[i]) {
        copies := copies + [f];
      }
    }
    assert working[..|working|] == working;
  }

  lemma {:induction false} CopiesCount(copies: seq<FileId>, f: FileId, x: FileId)
    requires forall i :: 0 <= i < |copies| ==> copies[i] == f
    ensures multiset(copies)[x] == if x == f then |copies| else 0
  {
    if copies != [] {
      assert copies == [copies[0]] + copies[1..];
      CopiesCount(copies[1..], f, x);
    }
  }

  /** The recursive term: SELECT f.id FROM files f INNER JOIN subtree s ON f.parent_id = s.id.
      A row appears once for every occurrence of its parent in the working table. */
  method JoinChildren(rows: Rows, working: seq<FileId>) returns (next: seq<FileId>)
    ensures forall x :: multiset(next)[x] == Joined(rows, working, x)
  {
    next := [];
    var todo := rows.Keys;
    while todo != {}
      invariant todo <= rows.Keys
      invariant forall x :: multiset(next)[x] == if x in todo then 0 else Joined(rows, working, x)
    {
      var f :| f in todo;
      var copies := JoinRow(f, rows[f].parent, working);
      forall x ensures multiset(next + copies)[x] == multiset(next)[x] + if x == f then |copies| else 0 {
        CopiesCount(copies, f, x);
      }
      next := next + copies;
      todo := todo - {f};
    }
  }

  /** If each row of round n is in the working table once, the join produces round n + 1 likewise. */
  lemma NextRound(rows: Rows, root: FileId, n: nat, working: seq<FileId>, x: FileId)
    requires forall y :: multiset(working)[y] == if InRound(rows, root, n, y) then 1 else 0
    ensures Joined(rows, working, x) == if InRound(rows, root, n + 1, x) then 1 else 0
  {
  }

  lemma SomeRoundGrows(rows: Rows, root: FileId, n: nat, x: FileId)
    requires !OnCycle(LinksOf(rows), root)
    ensures InSomeRound(rows, root, n + 1, x) <==> InSomeRound(rows, root, n, x) || InRound(rows, root, n + 1, x)
    ensures !(InSomeRound(rows, root, n, x) && InRound(rows, root, n + 1, x))
  {
    if InSomeRound(rows, root, n, x) && InRound(rows, root, n + 1, x) {
      var k: nat :| k <= n && InRound(rows, root, k, x);
      OneDistance(LinksOf(rows), x, root, k, n + 1);
    }
  }

  /** After an empty round, the rounds so far make up the whole subtree. */
  lemma RoundsAreSubtree(rows: Rows, root: FileId, n: nat, x: FileId)
    requires RoundEmpty(rows, root, n)
    ensures InSomeRound(rows, root, n, x) <==> x in Subtree(LinksOf(rows), root)
  {
    var l := LinksOf(rows);
    if x in Subtree(l, root) {
      var k: nat :| Up(l, x, k) == Some(root);
      if k > n { EmptyRoundIsLast(rows, root, n, x, k); }
      assert InRound(rows, root, k, x);
    }
    if InSomeRound(rows, root, n, x) {
      var k: nat :| k <= n && InRound(rows, root, k, x);
      assert Reaches(l, x, root);
    }
  }

  /** A node meets a root that is on no cycle at one distance only. */
  lemma OneDistance(l: Links, x: FileId, root: FileId, j: nat, k: nat)
    requires !OnCycle(l, root)
    requires Up(l, x, j) == Some(root) && Up(l, x, k) == Some(root) && j <= k
    ensures j == k
  {
    UpAdd(l, x, j, root, k - j);
  }

  lemma RoundsAreBounded(rows: Rows, root: FileId, n: nat, x: FileId)
    requires InRound(rows, root, n, x) && n >= |rows|
    ensures OnCycle(LinksOf(rows), root)
  {
    var l := LinksOf(rows);
    assert l.Keys == rows.Keys;
    assert |l.Keys| == |l| && |rows.Keys| == |rows|;
    LongChainEndsOnCycle(l, x, n, root);
  }

  /** Once a round is empty every later round is. */
  lemma EmptyRoundIsLast(rows: Rows, root: FileId, n: nat, x: FileId, k: nat)
    requires RoundEmpty(rows, root, n)
    requires n <= k
    ensures !InRound(rows, root, k, x)
  {
    var l := LinksOf(rows);
    if Up(l, x, k) == Some(root) {
      if Up(l, x, k - n) == None {
        UpStaysNone(l, x, k - n, k);
      } else {
        var y := Up(l, x, k - n).value;
        UpAdd(l, x, k - n, y, n);
        assert InRound(rows, root, n, y);
      }
    }
  }

  /** Evaluates the recursive query with a working table, UNION ALL and no removal of duplicates.
      Off a cycle the working table runs empty and every row of the subtree is returned exactly once. */
  method SubtreeQuery(rows: Rows, root: FileId) returns (result: seq<FileId>)
    requires !OnCycle(LinksOf(rows), root)
    ensures multiset(result) == multiset(Subtree(LinksOf(rows), root))
  {
    ghost var l := LinksOf(rows);
    var working := if root in rows then [root] else [];
    result := working;
    ghost var n := 0;
    assert forall x :: InSomeRound(rows, root, 0, x) <==> InRound(rows, root, 0, x);
    while working != []
      invariant forall x :: multiset(working)[x] == if InRound(rows, root, n, x) then 1 else 0
      invariant forall x :: multiset(result)[x] == if InSomeRound(rows, root, n, x) then 1 else 0
      decreases |rows| - n
    {
      assert multiset(working)[working[0]] > 0;
      if n >= |rows| {
        RoundsAreBounded(rows, root, n, working[0]);
      }
      var next := JoinChildren(rows, working);
      forall x ensures multiset(next)[x] == if InRound(rows, root, n + 1, x) then 1 else 0 {
        NextRound(rows, root, n, working, x);
      }
      forall x ensures multiset(result + next)[x] == if InSomeRound(rows, root, n + 1, x) then 1 else 0 {
        SomeRoundGrows(rows, root, n, x);
      }
      result := result + next;
      working := next;
      n := n + 1;
    }
    assert RoundEmpty(rows, root, n) by {
      forall y ensures !InRound(rows, root, n, y) { assert multiset(working)[y] == 0; }
    }
    forall x ensures multiset(result)[x] == multiset(Subtree(l, root))[x] {
      RoundsAreSubtree(rows, root, n, x);
    }
  }

  /** Walking down a cycle never stops: each round holds a node that the root itself reaches. */
  lemma {:induction false} CycleFillsRound(rows: Rows, root: FileId, d: nat, n: nat) returns (j: nat, x: FileId)
    requires d > 0 && Up(LinksOf(rows), root, d) == Some(root)
    ensures Up(LinksOf(rows), root, j) == Some(x) && InRound(rows, root, n, x)
    decreases n
  {
    var l := LinksOf(rows);
    if n == 0 {
      j, x := 0, root;
    } else {
      var i, y := CycleFillsRound(rows, root, d, n - 1);
      j := if i > 0 then i - 1 else d - 1;
      if Up(l, root, j) == None { UpStaysNone(l, root, j, j + 1); }
      x := Up(l, root, j).value;
      UpAdd(l, root, j, x, 1);
      UpAdd(l, x, 1, y, n - 1);
    }
  }

  /** The query ends exactly when its start is on no cycle; cycles elsewhere do not matter. */
  lemma QueryEndsIffOffCycle(rows: Rows, root: FileId)
    ensures (exists n: nat :: RoundEmpty(rows, root, n)) <==> !OnCycle(LinksOf(rows), root)
  {
    var l := LinksOf(rows);
    if OnCycle(l, root) {
      var d: nat :| d > 0 && Up(l, root, d) == Some(root);
      forall n: nat ensures !RoundEmpty(rows, root, n) {
        var j, x := CycleFillsRound(rows, root, d, n);
      }
    } else {
      forall x ensures !InRound(rows, root, |rows|, x) {
        if InRound(rows, root, |rows|, x) { RoundsAreBounded(rows, root, |rows|, x); }
      }
      assert RoundEmpty(rows, root, |rows|);
    }
  }

  // ---- statements that change the table --------------------------------------

  datatype Statement =
    | Create(id: FileId, row: Row)
    | UpdateFile(id: FileId, name: string, language: string, parent: Option<FileId>)
    | UpdateFolder(id: FileId, name: string, parent: Option<FileId>)
    | MoveFolder(id: FileId, parent: Option<FileId>)
    | ToggleFile(id: FileId)
    | ToggleFolder(id: FileId)
    | PermanentDelete(id: FileId)
    | CascadeRoom(room: RoomId)

  predicate ParentOk(rows: Rows, parent: Option<FileId>) {
    parent.Some? ==> parent.value in rows
  }

  /** The row that the WHERE clause of a single-row UPDATE matches. */
  predicate Selects(rows: Rows, id: FileId, folder: bool, needsActive: bool) {
    id in rows && rows[id].isFolder == folder && (needsActive ==> rows[id].isActive)
  }

  /** DELETE with the action ON DELETE SET NULL of files.parent_id. */
  function DeleteRows(rows: Rows, gone: set<FileId>): Rows {
    map x | x in rows && x !in gone ::
      if rows[x].parent.Some? && rows[x].parent.value in gone then rows[x].(parent := None) else rows[x]
  }

  function SetActive(rows: Rows, ids: set<FileId>, active: bool): Rows {
    map x | x in rows :: if x in ids then rows[x].(isActive := active) else rows[x]
  }

  const NAME_LIMIT := 255
  const LANGUAGE_LIMIT := 50

  /** A column VARCHAR(limit) refuses NUL and all but spaces beyond its limit (section 8.3, "Character
      Types", of the PostgreSQL 16 manual). */
  predicate Fits(limit: nat, s: string) {
    '\0' !in s && forall i :: limit <= i < |s| ==> s[i] == ' '
  }

  /** What the column stores: spaces beyond the limit are cut. */
  function Cut(limit: nat, s: string): string {
    if |s| <= limit then s else s[..limit]
  }

  /** The statement is neither refused nor without a row to work on. A subtree query whose start is on
      a cycle never ends, so its statement never takes effect. */
  ghost predicate TakesEffect(rows: Rows, s: Statement) {
    match s
    case Create(id, row) =>
      id !in rows && ParentOk(rows, row.parent) && (row.isFolder ==> row.language == "")
      && Fits(NAME_LIMIT, row.name) && Fits(LANGUAGE_LIMIT, row.language)
    case UpdateFile(id, name, language, parent) =>
      Selects(rows, id, false, true) && ParentOk(rows, parent) && Fits(NAME_LIMIT, name) && Fits(LANGUAGE_LIMIT, language)
    case UpdateFolder(id, name, parent) => Selects(rows, id, true, true) && ParentOk(rows, parent) && Fits(NAME_LIMIT, name)
    case MoveFolder(id, parent) => Selects(rows, id, true, true) && ParentOk(rows, parent)
    case ToggleFile(id) => Selects(rows, id, false, false)
    case ToggleFolder(id) => id in rows && !OnCycle(LinksOf(rows), id)
    case PermanentDelete(id) => !OnCycle(LinksOf(rows), id)
    case CascadeRoom(_) => true
  }

  /** The table after a statement. */
  ghost function Apply(rows: Rows, s: Statement): Rows {
    if !TakesEffect(rows, s) then rows
    else
      match s
      case Create(id, row) =>
        rows[id := row.(name := Cut(NAME_LIMIT, row.name), language := Cut(LANGUAGE_LIMIT, row.language), isActive := true)]
      case UpdateFile(id, name, language, parent) =>
        rows[id := rows[id].(name := Cut(NAME_LIMIT, name), language := Cut(LANGUAGE_LIMIT, language),
                             parent := if parent == None then rows[id].parent else parent)]
      case UpdateFolder(id, name, parent) =>
        rows[id := rows[id].(name := if name == "" then rows[id].name else Cut(NAME_LIMIT, name), parent := parent)]
      case MoveFolder(id, parent) => rows[id := rows[id].(parent := parent)]
      case ToggleFile(id) => rows[id := rows[id].(isActive := !rows[id].isActive, parent := None)]
      case ToggleFolder(id) => SetActive(rows, Subtree(LinksOf(rows), id), !rows[id].isActive)
      case PermanentDelete(id) => DeleteRows(rows, Subtree(LinksOf(rows), id))
      case CascadeRoom(room) => DeleteRows(rows, set x | x in rows && rows[x].room == room)
  }

  lemma MembersOf(ids: seq<FileId>, s: set<FileId>)
    requires multiset(ids) == multiset(s)
    ensures forall x :: x in ids <==> x in s
  {
    forall x ensures x in ids <==> x in s {
      assert x in ids <==> multiset(ids)[x] > 0;
      assert x in s <==> multiset(s)[x] > 0;
    }
  }

  class FilesTable {
    var rows: Rows

    constructor ()
      ensures rows == map[]
    {
      rows := map[];
    }

    /** INSERT; `id` is the fresh key that the column default generates. */
    method Create(id: FileId, row: Row, roomExists: bool) returns (r: Result<Row, DbError>)
      requires id !in rows
      modifies this
      ensures r.Ok? <==> && roomExists && ParentOk(old(rows), row.parent) && (row.isFolder ==> row.language == "")
                         && Fits(NAME_LIMIT, row.name) && Fits(LANGUAGE_LIMIT, row.language)
      ensures rows == if r.Ok? then Apply(old(rows), Statement.Create(id, row)) else old(rows)
      ensures r.Ok? ==> id in rows && r.value == rows[id] && r.value.isActive
    {
      if !Fits(NAME_LIMIT, row.name) || !Fits(LANGUAGE_LIMIT, row.language) { return Err(BadText); }
      if row.isFolder && row.language != "" { return Err(CheckConstraint); }
      if !roomExists || !ParentOk(rows, row.parent) { return Err(ForeignKey); }
      rows := rows[id := row.(name := Cut(NAME_LIMIT, row.name), language := Cut(LANGUAGE_LIMIT, row.language), isActive := true)];
      r := Ok(rows[id]);
    }

    method UpdateFile(id: FileId, name: string, language: string, parent: Option<FileId>) returns (r: Result<Row, DbError>)
      modifies this
      ensures r.Ok? <==> && Selects(old(rows), id, false, true) && ParentOk(old(rows), parent)
                         && Fits(NAME_LIMIT, name) && Fits(LANGUAGE_LIMIT, language)
      ensures rows == Apply(old(rows), Statement.UpdateFile(id, name, language, parent))
      ensures r.Ok? ==> id in rows && r.value == rows[id]
    {
      if !Selects(rows, id, false, true) { return Err(NoRows); }
      if !Fits(NAME_LIMIT, name) || !Fits(LANGUAGE_LIMIT, language) { return Err(BadText); }
      if !ParentOk(rows, parent) { return Err(ForeignKey); }
      var row := rows[id].(name := Cut(NAME_LIMIT, name), language := Cut(LANGUAGE_LIMIT, language));
      if parent != None { row := row.(parent := parent); }
      rows := rows[id := row];
      r := Ok(row);
    }

    /** A missing parent moves the folder to the top level, unlike UpdateFile. */
    method UpdateFolder(id: FileId, name: string, parent: Option<FileId>) returns (r: Result<Row, DbError>)
      modifies this
      ensures r.Ok? <==> Selects(old(rows), id, true, true) && ParentOk(old(rows), parent) && Fits(NAME_LIMIT, name)
      ensures rows == Apply(old(rows), Statement.UpdateFolder(id, name, parent))
      ensures r.Ok? ==> id in rows && r.value == rows[id]
    {
      if !Selects(rows, id, true, true) { return Err(NoRows); }
      if !Fits(NAME_LIMIT, name) { return Err(BadText); }
      if !ParentOk(rows, parent) { return Err(ForeignKey); }
      var row := rows[id].(parent := parent);
      if name != "" { row := row.(name := Cut(NAME_LIMIT, name)); }
      rows := rows[id := row];
      r := Ok(row);
    }

    method MoveFolder(id: FileId, parent: Option<FileId>) returns (r: Result<Row, DbError>)
      modifies this
      ensures r.Ok? <==> Selects(old(rows), id, true, true) && ParentOk(old(rows), parent)
      ensures rows == Apply(old(rows), Statement.MoveFolder(id, parent))
      ensures r.Ok? ==> id in rows && r.value == rows[id]
    {
      if !Selects(rows, id, true, true) { return Err(NoRows); }
      if !ParentOk(rows, parent) { return Err(ForeignKey); }
      rows := rows[id := rows[id].(parent := parent)];
      r := Ok(rows[id]);
    }

    method ToggleFile(id: FileId) returns (r: Result<Row, DbError>)
      modifies this
      ensures r.Ok? <==> Selects(old(rows), id, false, false)
      ensures rows == Apply(old(rows), Statement.ToggleFile(id))
      ensures r.Ok? ==> id in rows && r.value == rows[id]
    {
      if !Selects(rows, id, false, false) { return Err(NoRows); }
      rows := rows[id := rows[id].(isActive := !rows[id].isActive, parent := None)];
      r := Ok(rows[id]);
    }

    /** Flips a folder and everything below it, and returns the rows it touched. */
    method ToggleFolder(id: FileId) returns (touched: seq<FileId>)
      requires !OnCycle(LinksOf(rows), id)
      modifies this
      ensures multiset(touched) == multiset(Subtree(LinksOf(old(rows)), id))
      ensures rows == Apply(old(rows), Statement.ToggleFolder(id))
    {
      touched := SubtreeQuery(rows, id);
      MembersOf(touched, Subtree(LinksOf(rows), id));
      if touched == [] {
        assert id in rows ==> id in Subtree(LinksOf(rows), id) by { if id in rows { ReachesSelf(LinksOf(rows), id); } }
        return;
      }
      assert id in rows by {
        assert touched[0] in Subtree(LinksOf(rows), id);
        var k: nat :| Up(LinksOf(rows), touched[0], k) == Some(id);
        UpAdd(LinksOf(rows), touched[0], k, id, 0);
      }
      assert (set j | 0 <= j < |touched| :: touched[j]) == Subtree(LinksOf(rows), id);
      hide Reaches, Subtree, SetActive;
      SetFlags(touched, !rows[id].isActive);
    }

    /** The UPDATE of the rows that the query has found. */
    method SetFlags(ids: seq<FileId>, active: bool)
      requires forall x :: x in ids ==> x in rows
      modifies this
      ensures rows == SetActive(old(rows), set j | 0 <= j < |ids| :: ids[j], active)
    {
      for i := 0 to |ids|
        invariant rows == SetActive(old(rows), set j | 0 <= j < i :: ids[j], active)
      {
        assert ids[i] in ids;
        rows := rows[ids[i] := rows[ids[i]].(isActive := active)];
      }
    }

    /** The documents that a permanent delete will remove: every non-folder of the subtree, once. */
    method GetFileDescendantIDs(id: FileId) returns (ids: seq<FileId>)
      requires !OnCycle(LinksOf(rows), id)
      ensures multiset(ids) == multiset(set x | x in Subtree(LinksOf(rows), id) && !rows[x].isFolder)
    {
      var subtree := SubtreeQuery(rows, id);
      MembersOf(subtree, Subtree(LinksOf(rows), id));
      ids := [];
      for i := 0 to |subtree|
        invariant forall x :: multiset(ids)[x] == if x in rows && !rows[x].isFolder then multiset(subtree[..i])[x] else 0
      {
        assert subtree[..i + 1] == subtree[..i] + [subtree[i]];
        assert subtree[i] in Subtree(LinksOf(rows), id);
        if !rows[subtree[i]].isFolder {
          ids := ids + [subtree[i]];
        }
      }
      assert subtree[..|subtree|] == subtree;
    }

    method PermanentDeleteFile(id: FileId)
      requires !OnCycle(LinksOf(rows), id)
      modifies this
      ensures rows == Apply(old(rows), PermanentDelete(id))
    {
      var subtree := SubtreeQuery(rows, id);
      MembersOf(subtree, Subtree(LinksOf(rows), id));
      var gone := set x | x in subtree;
      assert gone == Subtree(LinksOf(rows), id);
      rows := DeleteRows(rows, gone);
    }

    /** What ON DELETE CASCADE does to this table when a room row is deleted. */
    method CascadeRoom(room: RoomId)
      modifies this
      ensures rows == Apply(old(rows), Statement.CascadeRoom(room))
    {
      rows := DeleteRows(rows, set x | x in rows && rows[x].room == room);
    }
  }
}
