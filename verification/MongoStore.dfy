/** The Mongo collections `documents` and `file_snapshots`. */
module MongoStore {
  import opened Wrappers
  import opened Forest
  import opened FilesTable
  import opened EditLog

  /** `state` is None while the stored bytes are empty; a document made by an upsert has no room. */
  datatype Document = Document(room: Option<RoomId>, state: Option<Blob>, version: nat)

  type Documents = map<FileId, Document>

  datatype Key = Key(file: FileId, version: int)

  datatype Snapshot = Snapshot(room: RoomId, text: string)

  type Snapshots = map<Key, Snapshot>

  /** The atomic $set and $inc of SaveDocument, with its upsert. */
  function Saved(docs: Documents, file: FileId, state: Blob): Documents {
    docs[file := if file in docs
                 then docs[file].(state := Some(state), version := docs[file].version + 1)
                 else Document(None, Some(state), 1)]
  }

  function WithoutRoom(docs: Documents, room: RoomId): Documents {
    map f | f in docs && docs[f].room != Some(room) :: docs[f]
  }

  class DocumentRepository {
    var docs: Documents

    constructor ()
      ensures docs == map[]
    {
      docs := map[];
    }

    /** Inserts an empty document for a file that has just been given a fresh id. */
    method CreateDocument(file: FileId, room: RoomId)
      requires file !in docs
      modifies this
      ensures docs == old(docs)[file := Document(Some(room), None, 0)]
    {
      docs := docs[file := Document(Some(room), None, 0)];
    }

    /** Stores the state and returns the version after the increment. */
    method SaveDocument(file: FileId, state: Blob) returns (version: nat)
      modifies this
      ensures docs == Saved(old(docs), file, state)
      ensures file in docs && version == docs[file].version
      ensures version == 1 + if file in old(docs) then old(docs)[file].version else 0
    {
      if file !in docs { docs := docs[file := Document(None, None, 0)]; }
      docs := docs[file := docs[file].(state := Some(state), version := docs[file].version + 1)];
      version := docs[file].version;
    }

    method DeleteDocument(file: FileId)
      modifies this
      ensures docs == old(docs) - {file}
    {
      docs := docs - {file};
    }

    method DeleteDocumentsByRoom(room: RoomId)
      modifies this
      ensures docs == WithoutRoom(old(docs), room)
    {
      docs := WithoutRoom(docs, room);
    }
  }

  // ---- snapshots --------------------------------------------------------------

  function KeysOf(snaps: Snapshots, file: FileId): set<Key> {
    set k | k in snaps && k.file == file
  }

  /** v is the file's newest cached version: the first row when sorting by version, descending. */
  ghost predicate IsNewest(snaps: Snapshots, file: FileId, v: int) {
    Key(file, v) in snaps && forall k :: k in snaps && k.file == file ==> k.version <= v
  }

  lemma {:induction false} HighestExists(keys: set<Key>) returns (k: Key)
    requires keys != {}
    ensures k in keys && forall j :: j in keys ==> j.version <= k.version
    decreases |keys|
  {
    k :| k in keys;
    if keys != {k} {
      assert keys == {k} + (keys - {k});
      var j := HighestExists(keys - {k});
      if j.version > k.version { k := j; }
    }
  }

  ghost function Newest(snaps: Snapshots, file: FileId): (v: Option<int>)
    ensures v.Some? ==> IsNewest(snaps, file, v.value)
    ensures v == None <==> KeysOf(snaps, file) == {}
  {
    if KeysOf(snaps, file) == {} then None
    else
      assert exists m :: IsNewest(snaps, file, m) by {
        var k := HighestExists(KeysOf(snaps, file));
        assert IsNewest(snaps, file, k.version);
      }
      var m :| IsNewest(snaps, file, m);
      Some(m)
  }

  /** The newest cached text, which a save is compared with. */
  ghost function NewestText(snaps: Snapshots, file: FileId): Option<string> {
    var v := Newest(snaps, file);
    if v == None then None else Some(snaps[Key(file, v.value)].text)
  }

  lemma NewestIsUnique(snaps: Snapshots, file: FileId, v: int)
    requires IsNewest(snaps, file, v)
    ensures Newest(snaps, file) == Some(v)
  {
    assert Key(file, v) in KeysOf(snaps, file);
  }

  /** Writing below the newest version leaves it the newest; writing at or above replaces it. */
  lemma NewestAfterWrite(snaps: Snapshots, key: Key, snap: Snapshot)
    ensures var v := Newest(snaps, key.file);
            NewestText(snaps[key := snap], key.file) ==
            if v.Some? && key.version < v.value then NewestText(snaps, key.file) else Some(snap.text)
    ensures var v := Newest(snaps, key.file);
            v.Some? && key.version == v.value ==> key in snaps && NewestText(snaps, key.file) == Some(snaps[key].text)
  {
    var v := Newest(snaps, key.file);
    if v == None {
      forall k | k in snaps ensures k.file != key.file {
        assert k.file == key.file ==> k in KeysOf(snaps, key.file);
      }
    }
    NewestIsUnique(snaps[key := snap], key.file, if v.Some? && key.version < v.value then v.value else key.version);
  }

  class SnapshotRepository {
    var snaps: Snapshots

    constructor ()
      ensures snaps == map[]
    {
      snaps := map[];
    }

    /** Upsert on (file, version): a second write of a version replaces the first. */
    method SaveSnapshot(key: Key, snap: Snapshot)
      modifies this
      ensures snaps == old(snaps)[key := snap]
    {
      snaps := snaps[key := snap];
    }

    method GetSnapshot(key: Key) returns (snap: Option<Snapshot>)
      ensures snap == if key in snaps then Some(snaps[key]) else None
    {
      snap := if key in snaps then Some(snaps[key]) else None;
    }

    /** Finds the newest snapshot of a file whatever order the collection is scanned in. */
    method GetLatestSnapshot(file: FileId) returns (r: Option<(int, Snapshot)>)
      ensures r == None <==> KeysOf(snaps, file) == {}
      ensures r.Some? ==> IsNewest(snaps, file, r.value.0) && r.value.1 == snaps[Key(file, r.value.0)]
      ensures NewestText(snaps, file) == if r.Some? then Some(r.value.1.text) else None
    {
      r := None;
      var todo := snaps.Keys;
      while todo != {}
        invariant todo <= snaps.Keys
        invariant r == None ==> forall k :: k in snaps && k.file == file ==> k in todo
        invariant r.Some? ==> Key(file, r.value.0) in snaps && r.value.1 == snaps[Key(file, r.value.0)]
        invariant r.Some? ==> forall k :: k in snaps && k.file == file && k !in todo ==> k.version <= r.value.0
      {
        var k :| k in todo;
        todo := todo - {k};
        if k.file == file && (r == None || k.version > r.value.0) {
          r := Some((k.version, snaps[k]));
        }
      }
      assert r.Some? ==> Key(file, r.value.0) in KeysOf(snaps, file);
    }

    method DeleteSnapshotsByFile(file: FileId)
      modifies this
      ensures snaps == map k | k in old(snaps) && k.file != file :: old(snaps)[k]
    {
      snaps := map k | k in snaps && k.file != file :: snaps[k];
    }

    method DeleteSnapshotsByRoom(room: RoomId)
      modifies this
      ensures snaps == map k | k in old(snaps) && old(snaps)[k].room != room :: old(snaps)[k]
    {
      snaps := map k | k in snaps && snaps[k].room != room :: snaps[k];
    }
  }
}
