/** What each statement on the table does, column by column: which rows it needs, what it stores in them,
    and that it leaves the other rows alone. */
module StatementEffects {
  import opened Wrappers
  import opened Forest
  import opened FilesTable

  ghost predicate OthersUnchanged(rows: Rows, rows': Rows, id: FileId) {
    forall x :: x != id ==> (x in rows' <==> x in rows) && (x in rows ==> rows'[x] == rows[x])
  }

  /** A text of at most `limit` characters, none of them NUL, is stored as it is; of a longer one only
      spaces are cut, and anything else beyond the limit is refused. */
  lemma TextsStored(limit: nat, s: string)
    ensures '\0' in s ==> !Fits(limit, s)
    ensures '\0' !in s && |s| <= limit ==> Fits(limit, s) && Cut(limit, s) == s
    ensures |s| > limit ==> Cut(limit, s) == s[..limit]
    ensures '\0' !in s && |s| > limit ==> (Fits(limit, s) <==> forall i :: limit <= i < |s| ==> s[i] == ' ')
  {
  }

  /** Names of up to 255 characters and languages of up to 50. */
  predicate Storable(name: string, language: string) {
    '\0' !in name && |name| <= 255 && '\0' !in language && |language| <= 50
  }

  lemma StorableIsStored(name: string, language: string)
    requires Storable(name, language)
    ensures Fits(NAME_LIMIT, name) && Fits(LANGUAGE_LIMIT, language)
    ensures Cut(NAME_LIMIT, name) == name && Cut(LANGUAGE_LIMIT, language) == language
  {
  }

  /** A name with a visible 256th character, or a language with a visible 51st, is refused. */
  lemma TooLongIsRefused(rows: Rows, id: FileId, name: string, language: string, parent: Option<FileId>)
    requires (|name| > 255 && name[255] != ' ') || (|language| > 50 && language[50] != ' ')
    ensures Apply(rows, UpdateFile(id, name, language, parent)) == rows
    ensures forall row: Row :: row.name == name && row.language == language ==> Apply(rows, Create(id, row)) == rows
    ensures |name| > 255 && name[255] != ' ' ==> Apply(rows, UpdateFolder(id, name, parent)) == rows
  {
    hide Subtree, OnCycle;
  }

  /** An insert stores the row as active, unless the id is taken, the parent is missing, or a folder has a
      language. */
  lemma CreateStores(rows: Rows, id: FileId, row: Row)
    requires Storable(row.name, row.language)
    ensures var rows' := Apply(rows, Create(id, row));
            if id in rows || (row.parent.Some? && row.parent.value !in rows) || (row.isFolder && row.language != "") then rows' == rows
            else && id in rows' && OthersUnchanged(rows, rows', id)
                 && rows'[id] == Row(row.room, row.name, row.language, row.parent, row.isFolder, true)
  {
    StorableIsStored(row.name, row.language);
    hide Fits, Cut, Subtree, OnCycle;
  }

  /** An update of an active file sets name and language, and the parent if one is given. */
  lemma UpdateFileStores(rows: Rows, id: FileId, name: string, language: string, parent: Option<FileId>)
    requires Storable(name, language)
    ensures var rows' := Apply(rows, UpdateFile(id, name, language, parent));
            if id !in rows || rows[id].isFolder || !rows[id].isActive || (parent.Some? && parent.value !in rows) then rows' == rows
            else && id in rows' && OthersUnchanged(rows, rows', id)
                 && rows'[id] == Row(rows[id].room, name, language, if parent.Some? then parent else rows[id].parent, false, true)
  {
    StorableIsStored(name, language);
    hide Fits, Cut, Subtree, OnCycle;
  }

  /** An update of an active folder sets the name if one is given, and the parent even if none is. */
  lemma UpdateFolderStores(rows: Rows, id: FileId, name: string, parent: Option<FileId>)
    requires Storable(name, "")
    ensures var rows' := Apply(rows, UpdateFolder(id, name, parent));
            if id !in rows || !rows[id].isFolder || !rows[id].isActive || (parent.Some? && parent.value !in rows) then rows' == rows
            else && id in rows' && OthersUnchanged(rows, rows', id)
                 && rows'[id] == Row(rows[id].room, if name != "" then name else rows[id].name, rows[id].language, parent, true, true)
  {
    StorableIsStored(name, "");
    hide Fits, Cut, Subtree, OnCycle;
  }

  /** A move of an active folder sets its parent. */
  lemma MoveFolderStores(rows: Rows, id: FileId, parent: Option<FileId>)
    ensures var rows' := Apply(rows, MoveFolder(id, parent));
            if id !in rows || !rows[id].isFolder || !rows[id].isActive || (parent.Some? && parent.value !in rows) then rows' == rows
            else && id in rows' && OthersUnchanged(rows, rows', id)
                 && rows'[id] == Row(rows[id].room, rows[id].name, rows[id].language, parent, true, true)
  {
    hide Fits, Cut, Subtree, OnCycle;
  }

  /** A toggle of a file, active or not, negates its flag and clears its parent. */
  lemma ToggleFileFlips(rows: Rows, id: FileId)
    ensures var rows' := Apply(rows, ToggleFile(id));
            if id !in rows || rows[id].isFolder then rows' == rows
            else && id in rows' && OthersUnchanged(rows, rows', id)
                 && rows'[id] == Row(rows[id].room, rows[id].name, rows[id].language, None, false, !rows[id].isActive)
  {
    hide Fits, Cut, Subtree, OnCycle;
  }

  /** Deleting and restoring a file gives back all of it but its parent: it lands at the top. */
  lemma ToggleFileTwice(rows: Rows, id: FileId)
    requires id in rows && !rows[id].isFolder
    ensures Apply(Apply(rows, ToggleFile(id)), ToggleFile(id)) == rows[id := rows[id].(parent := None)]
  {
    ToggleFileFlips(rows, id);
    ToggleFileFlips(Apply(rows, ToggleFile(id)), id);
    hide Apply;
    var twice := Apply(Apply(rows, ToggleFile(id)), ToggleFile(id));
    assert forall x :: x in twice <==> x in rows;
  }

  /** Deleting a room deletes its rows and clears the parent of every other row that was below one. */
  lemma CascadeDeletesRoom(rows: Rows, room: RoomId)
    ensures var rows' := Apply(rows, CascadeRoom(room));
      && (forall x :: x in rows' <==> x in rows && rows[x].room != room)
      && forall x :: x in rows' ==>
           var p := rows[x].parent;
           rows'[x] == rows[x].(parent := if p.Some? && p.value in rows && rows[p.value].room == room then None else p)
  {
    hide Fits, Cut, Subtree, OnCycle;
  }

  /** Deleting any set of rows clears the parents that pointed into it: ON DELETE SET NULL. */
  lemma DeleteClearsParents(rows: Rows, gone: set<FileId>, x: FileId)
    requires ParentsExist(rows) && x in rows && x !in gone
    ensures x in DeleteRows(rows, gone) && ParentsExist(DeleteRows(rows, gone))
    ensures DeleteRows(rows, gone)[x] ==
            if rows[x].parent.Some? && rows[x].parent.value in gone then rows[x].(parent := None) else rows[x]
  {
  }
}
