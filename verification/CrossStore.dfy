/** Postgres and Mongo side by side: with handlers run one at a time, each save's snapshot written before
    the next request, and no store failing, the documents are exactly those of the non-folder rows. */
module CrossStore {
  import opened Wrappers
  import opened Forest
  import opened FilesTable
  import opened EditLog
  import opened MongoStore
  import opened Names
  import opened VersionHistory

  datatype Stores = Stores(rooms: set<RoomId>, rows: Rows, docs: Documents, snaps: Snapshots)

  function NonFolders(rows: Rows): set<FileId> {
    set x | x in rows && !rows[x].isFolder
  }

  /** Every non-folder row has a document and every document a row, in the same room, which exists. */
  ghost predicate Corresponds(s: Stores) {
    && s.docs.Keys == NonFolders(s.rows)
    && (forall f :: f in s.docs ==> s.docs[f].room == Some(s.rows[f].room))
    && (forall x :: x in s.rows ==> s.rows[x].room in s.rooms)
  }

  /** Every snapshot belongs to a document of its own room. */
  ghost predicate SnapshotsOwned(s: Stores) {
    forall k :: k in s.snaps ==> k.file in s.docs && s.docs[k.file].room == Some(s.snaps[k].room)
  }

  datatype Request =
    | CreateRoom(room: RoomId, file: FileId)
    | CreateFile(file: FileId, row: Row)
    | Change(statement: Statement)
    | Save(save: VersionHistory.Save)
    | ReadHistory(room: RoomId, key: Key, replayed: string)
    | Delete(file: FileId)
    | DeleteRoom(room: RoomId)

  function MainFile(room: RoomId): Row {
    Row(room, "main.py", "python", None, false, true)
  }

  /** A change that is neither a create nor a delete. */
  predicate IsEdit(s: Statement) {
    s.UpdateFile? || s.UpdateFolder? || s.MoveFolder? || s.ToggleFile? || s.ToggleFolder?
  }

  /** A save of an existing file whose text differs from the newest cached one. */
  ghost predicate IsStored(text: Text, s: Stores, save: VersionHistory.Save) {
    save.file in s.rows && !s.rows[save.file].isFolder && !Skips(text, s.snaps, save)
  }

  /** A read of a version that is not cached: its backfill is written, whatever text the replay gave. */
  predicate Backfills(s: Stores, r: Request) {
    r.ReadHistory? && r.key.version >= 1 && r.key !in s.snaps
  }

  function DeleteSnaps(snaps: Snapshots, gone: set<FileId>): Snapshots {
    map k | k in snaps && k.file !in gone :: snaps[k]
  }

  function SnapsWithoutRoom(snaps: Snapshots, room: RoomId): Snapshots {
    map k | k in snaps && snaps[k].room != room :: snaps[k]
  }

  /** The documents that a permanent delete removes. */
  ghost function Gone(rows: Rows, file: FileId): set<FileId> {
    set x | x in Subtree(LinksOf(rows), file) && !rows[x].isFolder
  }

  /** The stores after a request. Requests that are refused change nothing, and so does one whose
      subtree query never ends. */
  ghost function Handle(text: Text, s: Stores, r: Request): Stores {
    match r
    case CreateRoom(room, file) =>
      if room in s.rooms || file in s.rows then s
      else s.(rooms := s.rooms + {room}, rows := Apply(s.rows, Create(file, MainFile(room))),
              docs := s.docs[file := Document(Some(room), None, 0)])
    case CreateFile(file, row) =>
      if row.room !in s.rooms || !TakesEffect(s.rows, Create(file, row)) then s
      else s.(rows := Apply(s.rows, Create(file, row)),
              docs := if row.isFolder then s.docs else s.docs[file := Document(Some(row.room), None, 0)])
    case Change(statement) =>
      if IsEdit(statement) then s.(rows := Apply(s.rows, statement)) else s
    case Save(save) =>
      if !IsStored(text, s, save) then s
      else
        var docs := Saved(s.docs, save.file, save.state);
        s.(docs := docs, snaps := s.snaps[Key(save.file, docs[save.file].version) := Snapshot(save.room, text(save.state))])
    case ReadHistory(room, key, replayed) =>
      if Backfills(s, r) then s.(snaps := s.snaps[key := Snapshot(room, replayed)]) else s
    case Delete(file) =>
      if OnCycle(LinksOf(s.rows), file) then s
      else s.(rows := Apply(s.rows, PermanentDelete(file)), docs := s.docs - Gone(s.rows, file),
              snaps := DeleteSnaps(s.snaps, Gone(s.rows, file)))
    case DeleteRoom(room) =>
      Stores(s.rooms - {room}, Apply(s.rows, CascadeRoom(room)), WithoutRoom(s.docs, room), SnapsWithoutRoom(s.snaps, room))
  }

  /** No edit changes which rows exist, which are folders, or their rooms. */
  lemma EditsKeepKinds(rows: Rows, s: Statement)
    requires IsEdit(s)
    ensures var rows' := Apply(rows, s);
            rows'.Keys == rows.Keys && forall x :: x in rows ==> rows'[x].isFolder == rows[x].isFolder && rows'[x].room == rows[x].room
  {
    hide Reaches, OnCycle, Fits, Cut;
  }

  lemma DeleteRowsKinds(rows: Rows, gone: set<FileId>)
    ensures var rows' := DeleteRows(rows, gone);
            rows'.Keys == rows.Keys - gone && forall x :: x in rows' ==> rows'[x].isFolder == rows[x].isFolder && rows'[x].room == rows[x].room
  {
  }

  lemma RequestKeepsCorrespondence(text: Text, s: Stores, r: Request)
    requires Corresponds(s)
    ensures Corresponds(Handle(text, s, r))
  {
    match r
    case Change(statement) =>
      if IsEdit(statement) {
        EditsKeepKinds(s.rows, statement);
        hide Apply;
        assert NonFolders(Handle(text, s, r).rows) == NonFolders(s.rows);
      }
    case Delete(file) => DeleteKeeps(text, s, file);
    case DeleteRoom(room) => RoomDeleteKeeps(text, s, room);
    case Save(save) => SaveKeeps(text, s, save);
    case ReadHistory(_, _, _) =>
    case _ => CreateKeeps(text, s, r);
  }

  lemma DeleteKeeps(text: Text, s: Stores, file: FileId)
    requires Corresponds(s)
    ensures Corresponds(Handle(text, s, Delete(file)))
  {
    hide Reaches, OnCycle;
    if !OnCycle(LinksOf(s.rows), file) {
      DeleteRowsKinds(s.rows, Subtree(LinksOf(s.rows), file));
      hide DeleteRows;
      assert NonFolders(Handle(text, s, Delete(file)).rows) == NonFolders(s.rows) - Gone(s.rows, file);
    }
  }

  lemma RoomDeleteKeeps(text: Text, s: Stores, room: RoomId)
    requires Corresponds(s)
    ensures Corresponds(Handle(text, s, DeleteRoom(room)))
  {
    var inRoom := set x | x in s.rows && s.rows[x].room == room;
    DeleteRowsKinds(s.rows, inRoom);
    assert Apply(s.rows, CascadeRoom(room)) == DeleteRows(s.rows, inRoom);
    hide DeleteRows, Apply, Corresponds;
    WithoutRoomKeeps(s, Apply(s.rows, CascadeRoom(room)), room);
  }

  lemma WithoutRoomKeeps(s: Stores, rows: Rows, room: RoomId)
    requires Corresponds(s)
    requires forall x :: x in rows <==> x in s.rows && s.rows[x].room != room
    requires forall x :: x in rows ==> rows[x].isFolder == s.rows[x].isFolder && rows[x].room == s.rows[x].room
    ensures Corresponds(Stores(s.rooms - {room}, rows, WithoutRoom(s.docs, room), SnapsWithoutRoom(s.snaps, room)))
  {
    forall f ensures f in WithoutRoom(s.docs, room) <==> f in NonFolders(rows) {
      assert f in s.docs <==> f in NonFolders(s.rows);
    }
  }

  lemma RowWithDocument(s: Stores, rooms: set<RoomId>, file: FileId, row: Row)
    requires Corresponds(s) && s.rooms <= rooms && row.room in rooms && file !in s.rows
    ensures Corresponds(s.(rooms := rooms, rows := s.rows[file := row],
                           docs := if row.isFolder then s.docs else s.docs[file := Document(Some(row.room), None, 0)]))
  {
    assert NonFolders(s.rows[file := row]) == NonFolders(s.rows) + if row.isFolder then {} else {file};
  }

  lemma CreateKeeps(text: Text, s: Stores, r: Request)
    requires Corresponds(s) && (r.CreateRoom? || r.CreateFile?)
    ensures Corresponds(Handle(text, s, r))
  {
    var s' := Handle(text, s, r);
    if s' != s {
      var row := if r.CreateRoom? then MainFile(r.room) else r.row;
      var made := row.(name := Cut(NAME_LIMIT, row.name), language := Cut(LANGUAGE_LIMIT, row.language), isActive := true);
      MainFileFits(if r.CreateRoom? then r.room else row.room);
      assert r.file !in s.rows && s'.rows == s.rows[r.file := made];
      hide Handle, Corresponds, Apply, Fits, Cut;
      RowWithDocument(s, s'.rooms, r.file, made);
    }
  }

  lemma SaveKeeps(text: Text, s: Stores, save: VersionHistory.Save)
    requires Corresponds(s)
    ensures Corresponds(Handle(text, s, Request.Save(save)))
  {
    hide Skips;
    if IsStored(text, s, save) { assert save.file in NonFolders(s.rows); }
  }

  lemma MainFileFits(room: RoomId)
    ensures Fits(NAME_LIMIT, MainFile(room).name) && Fits(LANGUAGE_LIMIT, MainFile(room).language)
  {
  }

  ghost function HandleAll(text: Text, s: Stores, rs: seq<Request>): Stores
    decreases |rs|
  {
    if rs == [] then s else HandleAll(text, Handle(text, s, rs[0]), rs[1..])
  }

  /** In every state reachable from empty stores the ids of the documents are those of the non-folder
      rows, folders moved into themselves and rows parented across rooms included. */
  lemma {:induction false} DocumentsMatchRows(text: Text, s: Stores, rs: seq<Request>)
    requires Corresponds(s)
    ensures Corresponds(HandleAll(text, s, rs))
    decreases |rs|
  {
    if rs != [] {
      hide Handle, Corresponds;
      RequestKeepsCorrespondence(text, s, rs[0]);
      DocumentsMatchRows(text, Handle(text, s, rs[0]), rs[1..]);
    }
  }

  // ---- snapshots that outlive their files -------------------------------------------------------

  /** The checks the code does not make: a save names the file's own room, and a read that backfills
      names a file that exists, is no folder and is of that room. */
  ghost predicate WritesOwned(text: Text, s: Stores, r: Request) {
    && (r.Save? && IsStored(text, s, r.save) ==> s.rows[r.save.file].room == r.save.room)
    && (Backfills(s, r) ==> r.key.file in NonFolders(s.rows) && s.rows[r.key.file].room == r.room)
  }

  lemma WriteKeepsSnapshotsIff(text: Text, s: Stores, r: Request)
    requires Corresponds(s) && SnapshotsOwned(s) && (r.Save? || r.ReadHistory?)
    ensures SnapshotsOwned(Handle(text, s, r)) <==> WritesOwned(text, s, r)
  {
    hide Skips;
    var s' := Handle(text, s, r);
    if r.Save? && s' != s {
      var key := Key(r.save.file, s'.docs[r.save.file].version);
      assert key in s'.snaps && s'.snaps[key].room == r.save.room;
      assert s'.docs[r.save.file].room == Some(s.rows[r.save.file].room);
    } else if Backfills(s, r) {
      assert r.key in s'.snaps && s'.snaps[r.key].room == r.room;
      assert r.key.file in s.docs <==> r.key.file in NonFolders(s.rows);
    }
  }

  lemma OthersKeepSnapshots(text: Text, s: Stores, r: Request)
    requires Corresponds(s) && SnapshotsOwned(s) && !r.Save? && !r.ReadHistory?
    ensures SnapshotsOwned(Handle(text, s, r))
  {
    assert r.CreateFile? && TakesEffect(s.rows, Create(r.file, r.row)) ==> r.file !in s.docs;
    hide Apply, TakesEffect, OnCycle, Subtree;
  }

  /** A request keeps every snapshot with a document of its own room iff it passes those checks. */
  lemma RequestKeepsSnapshotsIff(text: Text, s: Stores, r: Request)
    requires Corresponds(s) && SnapshotsOwned(s)
    ensures SnapshotsOwned(Handle(text, s, r)) <==> WritesOwned(text, s, r)
  {
    hide Handle, Corresponds, SnapshotsOwned, IsStored;
    if r.Save? || r.ReadHistory? { WriteKeepsSnapshotsIff(text, s, r); } else { OthersKeepSnapshots(text, s, r); }
  }

  ghost predicate WritesOwnedThroughout(text: Text, s: Stores, rs: seq<Request>)
    decreases |rs|
  {
    rs != [] ==> WritesOwned(text, s, rs[0]) && WritesOwnedThroughout(text, Handle(text, s, rs[0]), rs[1..])
  }

  ghost predicate OwnedThroughout(text: Text, s: Stores, rs: seq<Request>)
    decreases |rs|
  {
    SnapshotsOwned(s) && (rs != [] ==> OwnedThroughout(text, Handle(text, s, rs[0]), rs[1..]))
  }

  /** In every run of requests, history reads included: no snapshot is without a document of its room in
      any state iff every save and every backfilling read passed those checks. */
  lemma {:induction false} SnapshotsOwnedIff(text: Text, s: Stores, rs: seq<Request>)
    requires Corresponds(s) && SnapshotsOwned(s)
    ensures OwnedThroughout(text, s, rs) <==> WritesOwnedThroughout(text, s, rs)
    decreases |rs|
  {
    if rs != [] {
      hide Handle, Corresponds, SnapshotsOwned, WritesOwned;
      RequestKeepsCorrespondence(text, s, rs[0]);
      RequestKeepsSnapshotsIff(text, s, rs[0]);
      if SnapshotsOwned(Handle(text, s, rs[0])) { SnapshotsOwnedIff(text, Handle(text, s, rs[0]), rs[1..]); }
    }
  }

  const EMPTY := Stores({}, map[], map[], map[])

  function OneRoom(room: RoomId, file: FileId): Stores {
    Stores({room}, map[file := MainFile(room)], map[file := Document(Some(room), None, 0)], map[])
  }

  lemma RoomIsMade(text: Text, room: RoomId, file: FileId)
    ensures Handle(text, EMPTY, CreateRoom(room, file)) == OneRoom(room, file)
  {
    MainFileFits(room);
    hide Fits;
  }

  lemma FileIsDeleted(text: Text, room: RoomId, file: FileId)
    ensures Handle(text, OneRoom(room, file), Delete(file)) == Stores({room}, map[], map[], map[])
  {
    var rows := OneRoom(room, file).rows;
    var l := LinksOf(rows);
    assert l == map[file := None];
    ReachesStep(l, file, file);
    OnCycleViaParent(l, file);
    hide Reaches, OnCycle;
    assert Subtree(l, file) == {file};
    assert Gone(rows, file) == {file};
  }

  /** A file is created, deleted for good, and then asked for its version 1: the backfill leaves a snapshot
      of a file that has no document. */
  lemma ReadAfterDelete(text: Text, room: RoomId, file: FileId, replayed: string)
    ensures var rs := [CreateRoom(room, file), Delete(file), ReadHistory(room, Key(file, 1), replayed)];
            var s := HandleAll(text, EMPTY, rs);
            Key(file, 1) in s.snaps && file !in s.docs && !SnapshotsOwned(s)
  {
    var rs := [CreateRoom(room, file), Delete(file), ReadHistory(room, Key(file, 1), replayed)];
    var rest := [Delete(file), ReadHistory(room, Key(file, 1), replayed)];
    assert rs[1..] == rest && rest[1..] == [rs[2]] && [rs[2]][1..] == [];
    RoomIsMade(text, room, file);
    FileIsDeleted(text, room, file);
    var gone := Stores({room}, map[], map[], map[]);
    var read := Handle(text, gone, rs[2]);
    assert Key(file, 1) in read.snaps && file !in read.docs;
    hide Handle;
    assert HandleAll(text, gone, [rs[2]]) == HandleAll(text, read, []) == read;
    assert HandleAll(text, EMPTY, rs) == HandleAll(text, OneRoom(room, file), rest) == HandleAll(text, gone, [rs[2]]);
  }

  /** A file is saved under another room's name and its own room is deleted: the snapshot stays. */
  lemma SaveUnderOtherRoom(text: Text, room: RoomId, other: RoomId, file: FileId, state: Blob, stamp: Stamp)
    requires room != other
    ensures var rs := [CreateRoom(room, file), Request.Save(VersionHistory.Save(other, file, state, stamp)), DeleteRoom(room)];
            var s := HandleAll(text, EMPTY, rs);
            Key(file, 1) in s.snaps && file !in s.docs && !SnapshotsOwned(s)
  {
    var rs := [CreateRoom(room, file), Request.Save(VersionHistory.Save(other, file, state, stamp)), DeleteRoom(room)];
    var rest := [rs[1], rs[2]];
    assert rs[1..] == rest && rest[1..] == [rs[2]] && [rs[2]][1..] == [];
    RoomIsMade(text, room, file);
    var saved := Handle(text, OneRoom(room, file), rs[1]);
    assert KeysOf(map[], file) == {};
    assert saved.docs[file] == Document(Some(room), Some(state), 1) && saved.snaps == map[Key(file, 1) := Snapshot(other, text(state))];
    var gone := Handle(text, saved, rs[2]);
    assert Key(file, 1) in gone.snaps && file !in gone.docs;
    hide Handle;
    assert HandleAll(text, saved, [rs[2]]) == HandleAll(text, gone, []) == gone;
    assert HandleAll(text, EMPTY, rs) == HandleAll(text, OneRoom(room, file), rest) == HandleAll(text, saved, [rs[2]]);
  }

  // ---- the handlers ---------------------------------------------------------------------------------

  datatype Reply = Done | Unchanged | BadRequest | NotFound | Failed

  datatype HistoryReply = InvalidVersion | VersionText(text: string)

  /** The row that a create request asks for. */
  function RequestedRow(room: RoomId, name: string, parent: Option<FileId>, isFolder: bool, language: string): Row {
    Row(room, TrimSpace(name), if isFolder then "" else if language != "" then language else LangFromExtension(name), parent, isFolder, true)
  }

  /** The statement that an update request asks for; a file's language follows the name if not given. */
  function RequestedUpdate(row: Row, id: FileId, name: string, language: string, parent: Option<FileId>): Statement {
    if row.isFolder then Statement.UpdateFolder(id, TrimSpace(name), parent)
    else Statement.UpdateFile(id, TrimSpace(name), if language == "" then LangFromExtension(name) else language, parent)
  }

  // ---- what the requests store, field by field ------------------------------------------------------

  /** A new room has one file: an active, empty main.py in Python at the top. */
  lemma NewRoomHasMainFile(text: Text, s: Stores, room: RoomId, file: FileId)
    requires room !in s.rooms && file !in s.rows
    ensures var s' := Handle(text, s, CreateRoom(room, file));
      && s'.rooms == s.rooms + {room} && s'.snaps == s.snaps
      && s'.rows == s.rows[file := Row(room, "main.py", "python", None, false, true)]
      && s'.docs == s.docs[file := Document(Some(room), None, 0)]
  {
    MainFileFits(room);
    hide Fits;
  }

  /** The requested row: the trimmed name, the given parent, and for a file the given language or the one
      that the name's extension stands for. */
  lemma RequestedRowIs(room: RoomId, name: string, parent: Option<FileId>, isFolder: bool, language: string)
    ensures var row := RequestedRow(room, name, parent, isFolder, language);
      && row.room == room && row.name == TrimSpace(name) && row.parent == parent && row.isFolder == isFolder
      && (isFolder ==> row.language == "")
      && (!isFolder && language != "" ==> row.language == language)
      && (!isFolder && language == "" ==> row.language == LangFromExtension(name))
  {
  }

  /** The requested change: a folder's name and parent, or a file's name, language and parent. */
  lemma RequestedUpdateIs(row: Row, id: FileId, name: string, language: string, parent: Option<FileId>)
    ensures var s := RequestedUpdate(row, id, name, language, parent);
      && s.id == id && s.name == TrimSpace(name) && s.parent == parent
      && (row.isFolder ==> s.UpdateFolder?)
      && (!row.isFolder ==> s.UpdateFile? && s.language == if language != "" then language else LangFromExtension(name))
  {
  }

  /** A stored save: the document holds the state under the next version, the version's text is cached
      under the request's room, and nothing else changes. */
  lemma SaveStores(text: Text, s: Stores, save: VersionHistory.Save)
    requires save.file in s.rows && !s.rows[save.file].isFolder && save.file in s.docs
    requires NewestText(s.snaps, save.file) != Some(text(save.state))
    ensures var s', v := Handle(text, s, Request.Save(save)), s.docs[save.file].version + 1;
      && s'.rooms == s.rooms && s'.rows == s.rows
      && s'.docs == s.docs[save.file := Document(s.docs[save.file].room, Some(save.state), v)]
      && s'.snaps == s.snaps[Key(save.file, v) := Snapshot(save.room, text(save.state))]
  {
    hide NewestText;
  }

  /** A read of a version caches the replayed text only where nothing is cached, and what is cached then
      stays: no later read of the version, whatever it replays, writes again. */
  lemma FirstReadSticks(text: Text, s: Stores, room: RoomId, key: Key, replayed: string)
    ensures var s' := Handle(text, s, ReadHistory(room, key, replayed));
      && s'.rooms == s.rooms && s'.rows == s.rows && s'.docs == s.docs
      && s'.snaps == (if key.version < 1 || key in s.snaps then s.snaps else s.snaps[key := Snapshot(room, replayed)])
      && forall other, again :: Handle(text, s', ReadHistory(other, key, again)) == s'
  {
  }

  /** A permanent delete that ends removes the documents and snapshots of the subtree's files, and keeps
      all others. */
  lemma DeleteKeepsOthers(text: Text, s: Stores, file: FileId)
    requires !OnCycle(LinksOf(s.rows), file)
    ensures var s' := Handle(text, s, Delete(file)); var below := Subtree(LinksOf(s.rows), file);
      && s'.rooms == s.rooms
      && (forall f :: f in s'.docs <==> f in s.docs && !(f in below && !s.rows[f].isFolder))
      && (forall f :: f in s'.docs ==> s'.docs[f] == s.docs[f])
      && (forall k :: k in s'.snaps <==> k in s.snaps && !(k.file in below && !s.rows[k.file].isFolder))
      && (forall k :: k in s'.snaps ==> s'.snaps[k] == s.snaps[k])
  {
    hide Reaches, OnCycle, Apply;
  }

  /** Deleting a room removes what is filed under it, and keeps the rest. */
  lemma DeleteRoomKeepsOthers(text: Text, s: Stores, room: RoomId)
    ensures var s' := Handle(text, s, DeleteRoom(room));
      && s'.rooms == s.rooms - {room}
      && (forall f :: f in s'.docs <==> f in s.docs && s.docs[f].room != Some(room))
      && (forall f :: f in s'.docs ==> s'.docs[f] == s.docs[f])
      && (forall k :: k in s'.snaps <==> k in s.snaps && s.snaps[k].room != room)
      && (forall k :: k in s'.snaps ==> s'.snaps[k] == s.snaps[k])
  {
    hide Apply;
  }

  /** The room and file handlers over the databases. */
  class Backend {
    const text: Text
    const files: FilesTable
    const documents: DocumentRepository
    const snapshots: SnapshotRepository
    var rooms: set<RoomId>

    constructor (text: Text)
      ensures this.text == text && Contents() == Stores({}, map[], map[], map[])
      ensures Corresponds(Contents()) && SnapshotsOwned(Contents())
      ensures fresh(files) && fresh(documents) && fresh(snapshots)
    {
      this.text := text;
      files := new FilesTable();
      documents := new DocumentRepository();
      snapshots := new SnapshotRepository();
      rooms := {};
    }

    ghost function Contents(): Stores
      reads this, files, documents, snapshots
    {
      Stores(rooms, files.rows, documents.docs, snapshots.snaps)
    }

    /** `room` and `file` are the fresh ids of the room and of its default file. */
    method CreateRoom(room: RoomId, file: FileId)
      requires room !in rooms && file !in files.rows && Corresponds(Contents())
      modifies this, files, documents
      ensures Contents() == Handle(text, old(Contents()), Request.CreateRoom(room, file))
    {
      assert file !in documents.docs;
      rooms := rooms + {room};
      var row := files.Create(file, MainFile(room), true);
      documents.CreateDocument(file, room);
    }

    /** `file` is the fresh id of the new row. */
    method CreateFile(file: FileId, room: RoomId, name: string, parent: Option<FileId>, isFolder: bool, language: string)
      returns (reply: Reply)
      requires file !in files.rows && Corresponds(Contents())
      modifies files, documents
      ensures reply == BadRequest <==> |name| < 1 || |name| > 255
      ensures var row := RequestedRow(room, name, parent, isFolder, language);
              && Contents() == (if reply == BadRequest then old(Contents()) else Handle(text, old(Contents()), Request.CreateFile(file, row)))
              && (reply == Done <==> reply != BadRequest && old(room in rooms && TakesEffect(files.rows, Create(file, row))))
    {
      if |name| < 1 || |name| > 255 { return BadRequest; }
      assert file !in documents.docs;
      var lang := "";
      if !isFolder {
        if language != "" { lang := language; } else { lang := LangFromExtension(name); }
      }
      var created := files.Create(file, Row(room, TrimSpace(name), lang, parent, isFolder, true), room in rooms);
      if created.Err? { return Failed; }
      if !isFolder { documents.CreateDocument(file, room); }
      reply := Done;
    }

    /** Renames or moves; a folder that is renamed without a parent moves to the top level, and a file
        that is moved without a name loses its name and its language. */
    method UpdateFile(id: FileId, name: string, language: string, parent: Option<FileId>) returns (reply: Reply)
      modifies files
      ensures reply == BadRequest <==> TrimSpace(name) == "" && parent == None
      ensures reply == NotFound <==> reply != BadRequest && id !in old(files.rows)
      ensures reply == Done ==> id in old(files.rows)
      ensures reply == Done ==>
                Contents() == Handle(text, old(Contents()), Change(RequestedUpdate(old(files.rows)[id], id, name, language, parent)))
      ensures reply == Done <==> reply != BadRequest && id in old(files.rows)
                                 && TakesEffect(old(files.rows), RequestedUpdate(old(files.rows)[id], id, name, language, parent))
      ensures reply != Done ==> Contents() == old(Contents())
    {
      if TrimSpace(name) == "" && parent == None { return BadRequest; }
      if id !in files.rows { return NotFound; }
      var r: Result<Row, DbError>;
      if files.rows[id].isFolder {
        r := files.UpdateFolder(id, TrimSpace(name), parent);
      } else {
        r := files.UpdateFile(id, TrimSpace(name), if language == "" then LangFromExtension(name) else language, parent);
      }
      reply := if r.Ok? then Done else Failed;
    }

    method ToggleFile(id: FileId) returns (reply: Reply)
      requires !OnCycle(LinksOf(files.rows), id)
      modifies files
      ensures reply == if id in old(files.rows) then Done else NotFound
      ensures reply == Done ==>
                Contents() == Handle(text, old(Contents()), Change(if old(files.rows)[id].isFolder then ToggleFolder(id) else Statement.ToggleFile(id)))
      ensures reply != Done ==> Contents() == old(Contents())
    {
      if id !in files.rows { return NotFound; }
      if files.rows[id].isFolder {
        var touched := files.ToggleFolder(id);
      } else {
        var r := files.ToggleFile(id);
      }
      reply := Done;
    }

    /** Stores a state of an existing file unless its text is the newest cached one, and caches the text
        under the new version. `body` is None for an empty request body. */
    method SaveState(save: VersionHistory.Save, body: Option<Blob>) returns (reply: Reply)
      requires body.Some? ==> save.state == body.value
      modifies documents, snapshots
      ensures reply == NotFound <==> save.file !in files.rows
      ensures reply == BadRequest <==> save.file in files.rows && (files.rows[save.file].isFolder || body == None)
      ensures reply == Unchanged <==> reply != NotFound && reply != BadRequest && Skips(text, old(snapshots.snaps), save)
      ensures Contents() == if reply == BadRequest then old(Contents()) else Handle(text, old(Contents()), Request.Save(save))
    {
      if save.file !in files.rows { return NotFound; }
      if files.rows[save.file].isFolder || body == None { return BadRequest; }
      var latest := snapshots.GetLatestSnapshot(save.file);
      if latest.Some? && latest.value.1.text == text(save.state) { return Unchanged; }
      var version := documents.SaveDocument(save.file, save.state);
      snapshots.SaveSnapshot(Key(save.file, version), Snapshot(save.room, text(save.state)));
      reply := Done;
    }

    /** Answers from the cache, or with what the log replays to, which is then cached. Neither the file nor
        its room is looked at. */
    method GetHistoryAtVersion(room: RoomId, file: FileId, version: int, replayed: string) returns (reply: HistoryReply)
      modifies snapshots
      ensures Contents() == Handle(text, old(Contents()), ReadHistory(room, Key(file, version), replayed))
      ensures reply == if version < 1 then InvalidVersion
                       else VersionText(if Key(file, version) in old(snapshots.snaps) then old(snapshots.snaps)[Key(file, version)].text else replayed)
    {
      if version < 1 { return InvalidVersion; }
      var snap := snapshots.GetSnapshot(Key(file, version));
      if snap.Some? { return VersionText(snap.value.text); }
      snapshots.SaveSnapshot(Key(file, version), Snapshot(room, replayed));
      reply := VersionText(replayed);
    }

    /** Removes the documents and snapshots of the subtree file by file, then its rows. */
    method PermanentDeleteFile(id: FileId)
      requires !OnCycle(LinksOf(files.rows), id)
      modifies files, documents, snapshots
      ensures Contents() == Handle(text, old(Contents()), Delete(id))
    {
      var ids := files.GetFileDescendantIDs(id);
      ghost var gone := Gone(files.rows, id);
      MembersOf(ids, gone);
      hide Reaches, OnCycle;
      for i := 0 to |ids|
        modifies documents, snapshots
        invariant documents.docs == old(documents.docs) - set j | 0 <= j < i :: ids[j]
        invariant snapshots.snaps == DeleteSnaps(old(snapshots.snaps), set j | 0 <= j < i :: ids[j])
      {
        documents.DeleteDocument(ids[i]);
        snapshots.DeleteSnapshotsByFile(ids[i]);
      }
      assert (set j | 0 <= j < |ids| :: ids[j]) == gone;
      files.PermanentDeleteFile(id);
    }

    method DeleteRoom(room: RoomId)
      modifies this, files, documents, snapshots
      ensures Contents() == Handle(text, old(Contents()), Request.DeleteRoom(room))
    {
      documents.DeleteDocumentsByRoom(room);
      snapshots.DeleteSnapshotsByRoom(room);
      rooms := rooms - {room};
      files.CascadeRoom(room);
    }
  }
}
