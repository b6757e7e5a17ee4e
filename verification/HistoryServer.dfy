/** The handlers and goroutines of version history, as code over the stores; each method is one step
    of the protocol in VersionHistory. */
module HistoryServer {
  import opened Wrappers
  import opened Forest
  import opened FilesTable
  import opened EditLog
  import opened MongoStore
  import opened VersionHistory

  datatype SaveReply = NotFound | BadRequest | Unchanged | Proceed

  datatype HistoryReply = InvalidVersion | VersionText(version: int, text: string)

  datatype LoadReply = NoSuchFile | IsAFolder | LoadFailed | NoContent | State(blob: Blob)

  class Server {
    const text: Text
    const documents: DocumentRepository
    const snapshots: SnapshotRepository
    var log: seq<Message>
    var saving: multiset<Save>
    var publishing: multiset<Event>
    var caching: multiset<Write>
    var backfilling: multiset<Write>
    ghost var accepted: map<FileId, seq<Blob>>
    ghost var lostEvents: set<Key>
    ghost var lostSnaps: set<Key>

    constructor (text: Text)
      ensures this.text == text && World() == START && Inv(text, World())
      ensures fresh(documents) && fresh(snapshots)
    {
      this.text := text;
      documents := new DocumentRepository();
      snapshots := new SnapshotRepository();
      log := [];
      saving, publishing, caching, backfilling := multiset{}, multiset{}, multiset{}, multiset{};
      accepted, lostEvents, lostSnaps := map[], {}, {};
      new;
      StartIsSound(text, FileId(""));
    }

    ghost function World(): World
      reads this, documents, snapshots
    {
      VersionHistory.World(documents.docs, snapshots.snaps, log, saving, publishing, caching, backfilling, accepted, lostEvents, lostSnaps)
    }

    /** SaveState up to the dedup check. `body` is None for an empty request body, and `readFails` says
        that the newest snapshot could not be read. */
    method BeginSave(row: Option<Row>, save: Save, body: Option<Blob>, readFails: bool) returns (r: SaveReply)
      requires body.Some? ==> save.state == body.value
      modifies this
      ensures r == NotFound <==> row == None
      ensures r == BadRequest <==> row.Some? && (row.value.isFolder || body == None)
      ensures r == Unchanged <==> row.Some? && !row.value.isFolder && body.Some? && !readFails && Skips(text, old(World()).snaps, save)
      ensures World() == if r == NotFound || r == BadRequest then old(World()) else Next(text, old(World()), Step.BeginSave(save, readFails))
      ensures r == Proceed ==> save in saving
    {
      hide Next;
      BeginSaveEffect(text, World(), save, readFails);
      if row == None { return NotFound; }
      if row.value.isFolder || body == None { return BadRequest; }
      if !readFails {
        var latest := snapshots.GetLatestSnapshot(save.file);
        if latest.Some? && latest.value.1.text == text(save.state) { return Unchanged; }
      }
      saving := saving + multiset{save};
      r := Proceed;
    }

    /** The rest of SaveState: stores the state and starts the two goroutines, unless storing fails. */
    method CommitSave(save: Save, fails: bool) returns (version: Option<nat>)
      requires save in saving
      modifies this, documents
      ensures World() == Next(text, old(World()), if fails then AbandonSave(save) else Step.CommitSave(save))
      ensures version == if fails then None else Some(NewEvent(old(World()), save).version)
    {
      if fails {
        AbandonSaveEffect(text, World(), save);
        hide *;
        saving := saving - multiset{save};
        return None;
      }
      var v := AcceptSave(save);
      version := Some(v);
    }

    method AcceptSave(save: Save) returns (version: nat)
      requires save in saving
      modifies `saving, `accepted, `publishing, `caching, documents
      ensures World() == Next(text, old(World()), Step.CommitSave(save))
      ensures version == NewEvent(old(World()), save).version
    {
      ghost var w := World();
      CommitSaveEffect(text, w, save);
      hide Next, NewWrite, Accepted;
      version := documents.SaveDocument(save.file, save.state);
      assert version == NewEvent(w, save).version;
      hide *;
      saving := saving - multiset{save};
      accepted := accepted[save.file := Accepted(w, save.file) + [save.state]];
      StartGoroutines(save, version, w);
    }

    /** One goroutine publishes the accepted state, the other caches its text. */
    method StartGoroutines(save: Save, version: nat, ghost w: World)
      requires version == NewEvent(w, save).version
      modifies this`publishing, this`caching
      ensures publishing == old(publishing) + multiset{NewEvent(w, save)}
      ensures caching == old(caching) + multiset{NewWrite(text, w, save)}
    {
      publishing := publishing + multiset{Event(save.file, version, save.state, save.stamp)};
      caching := caching + multiset{Write(Key(save.file, version), Snapshot(save.room, text(save.state)))};
    }

    /** One delivery of an event to the broker; retries may deliver it again. */
    method DeliverEvent(event: Event)
      requires event in publishing
      modifies this
      ensures World() == Next(text, old(World()), PublishAttempt(event))
    {
      hide Next;
      PublishAttemptEffect(text, World(), event);
      log := log + [Edit(event)];
    }

    /** The publishing goroutine ends, with or without having delivered. */
    method EndPublish(event: Event)
      requires event in publishing
      modifies this
      ensures World() == Next(text, old(World()), PublishReturn(event))
    {
      hide Next;
      PublishReturnEffect(text, World(), event);
      publishing := publishing - multiset{event};
      if Edit(event) !in log { lostEvents := lostEvents + {Key(event.file, event.version)}; }
    }

    /** The snapshot goroutine of a save. */
    method CacheText(write: Write, fails: bool)
      requires write in caching
      modifies this, snapshots
      ensures World() == Next(text, old(World()), if fails then LoseSnapshot(write) else WriteSnapshot(write))
    {
      hide Next;
      WriteSnapshotEffect(text, World(), write);
      LoseSnapshotEffect(text, World(), write);
      caching := caching - multiset{write};
      if fails {
        lostSnaps := lostSnaps + {write.key};
      } else {
        snapshots.SaveSnapshot(write.key, write.snap);
      }
    }

    /** The text of a version: from the cache, or by replaying the log and starting a backfill. The
        replay is bounded by the high watermark if that can be read, else by a deadline. On a miss the
        accepted text is answered if the version's event can be fetched below the watermark, in a log in
        version order and with growing states. */
    method GetHistoryAtVersion(room: RoomId, file: FileId, target: int, readFails: bool, first: nat, high: Option<int>, fetchable: nat)
      returns (r: HistoryReply)
      requires fetchable <= |log|
      modifies `backfilling
      ensures r == InvalidVersion <==> target < 1
      ensures var n := if high.Some? then Budget(first, high.value, fetchable) else fetchable;
              var key := Key(file, target);
              && World() == Next(text, old(World()), ReadVersion(room, key, n, readFails))
              && (target >= 1 ==> r == VersionText(target, if !readFails && key in old(World()).snaps then old(World()).snaps[key].text
                                                            else Replayed(text, old(World()), key, n)))
      ensures target >= 1 && (readFails || Key(file, target) !in old(World()).snaps)
              && WithinReach(log, file, target, first, high, fetchable) && InVersionOrder(log, file)
              && EventsGenuine(old(World())) && Growing(Accepted(old(World()), file)) ==>
                r.VersionText? && r.version == target && Exact(text, old(World()), Key(file, target), r.text)
    {
      ghost var w := World();
      r := AnswerVersion(room, file, target, readFails, first, high, fetchable);
      hide *;
      if WithinReach(w.log, file, target, first, high, fetchable) && InVersionOrder(w.log, file)
         && EventsGenuine(w) && Growing(Accepted(w, file)) {
        ReachedReplayIsExact(text, w, Key(file, target), first, high, fetchable);
      }
    }

    method AnswerVersion(room: RoomId, file: FileId, target: int, readFails: bool, first: nat, high: Option<int>, fetchable: nat)
      returns (r: HistoryReply)
      requires fetchable <= |log|
      modifies `backfilling
      ensures r == InvalidVersion <==> target < 1
      ensures var n := if high.Some? then Budget(first, high.value, fetchable) else fetchable;
              var key := Key(file, target);
              && World() == Next(text, old(World()), ReadVersion(room, key, n, readFails))
              && (target >= 1 ==> r == VersionText(target, if !readFails && key in old(World()).snaps then old(World()).snaps[key].text
                                                            else Replayed(text, old(World()), key, n)))
    {
      hide Next, Replay, Budget;
      ReadVersionEffect(text, World(), room, Key(file, target), if high.Some? then Budget(first, high.value, fetchable) else fetchable, readFails);
      if target < 1 { return InvalidVersion; }
      var key := Key(file, target);
      var snap: Option<Snapshot> := None;
      if !readFails { snap := snapshots.GetSnapshot(key); }
      if snap.Some? { return VersionText(target, snap.value.text); }
      var doc: Blob;
      if high.Some? {
        doc := ReplayYjsToVersion(log, first, high.value, fetchable, file, target);
      } else {
        doc := ReplayYjsToVersionWithTimeout(log, fetchable, file, target);
      }
      backfilling := backfilling + multiset{Write(key, Snapshot(room, text(doc)))};
      r := VersionText(target, text(doc));
    }

    /** The backfill goroutine of a read. */
    method Backfill(write: Write, fails: bool)
      requires write in backfilling
      modifies this, snapshots
      ensures World() == Next(text, old(World()), if fails then LoseBackfill(write) else WriteBackfill(write))
    {
      hide Next;
      BackfillEffect(text, World(), write);
      backfilling := backfilling - multiset{write};
      if !fails { snapshots.SaveSnapshot(write.key, write.snap); }
    }

    /** LoadState: the last accepted state of a file, if it has one; `loadFails` says that the document
        could not be read. */
    method LoadState(row: Option<Row>, file: FileId, loadFails: bool) returns (r: LoadReply)
      ensures r == NoSuchFile <==> row == None
      ensures r == IsAFolder <==> row.Some? && row.value.isFolder
      ensures r == LoadFailed <==> row.Some? && !row.value.isFolder && loadFails
      ensures DocsCount(World()) && row.Some? && !row.value.isFolder && !loadFails ==>
                var acc := Accepted(World(), file);
                r == if acc == [] then NoContent else State(acc[|acc| - 1])
    {
      assert DocsCount(World()) ==> DocCounts(World(), file);
      if row == None { return NoSuchFile; }
      if row.value.isFolder { return IsAFolder; }
      if loadFails { return LoadFailed; }
      if file !in documents.docs || documents.docs[file].state == None { return NoContent; }
      r := State(documents.docs[file].state.value);
    }
  }
}
