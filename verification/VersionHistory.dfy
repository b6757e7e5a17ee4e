/** Saving, logging, caching and reading versions, as interleaved atomic steps: the two database
    operations of SaveState, its two goroutines, and GetHistoryAtVersion with its backfill. */
module VersionHistory {
  import opened Wrappers
  import opened Forest
  import opened FilesTable
  import opened EditLog
  import opened MongoStore

  /** The text of a document that holds these operations; Yjs decides it, nothing is assumed of it. */
  type Text = Blob -> string

  datatype Write = Write(key: Key, snap: Snapshot)

  datatype Save = Save(room: RoomId, file: FileId, state: Blob, stamp: Stamp)

  /** The stores, the work that goroutines and handlers still have to do, and, to state properties,
      the states accepted so far and the effects that failed. */
  datatype World = World(
    docs: Documents,
    snaps: Snapshots,
    log: seq<Message>,
    saving: multiset<Save>,
    publishing: multiset<Event>,
    caching: multiset<Write>,
    backfilling: multiset<Write>,
    accepted: map<FileId, seq<Blob>>,
    lostEvents: set<Key>,
    lostSnaps: set<Key>)

  datatype Step =
    | CreateDoc(room: RoomId, file: FileId)
    | BeginSave(save: Save, readFails: bool)
    | CommitSave(save: Save)
    | AbandonSave(save: Save)
    | PublishAttempt(event: Event)
    | PublishReturn(event: Event)
    | WriteSnapshot(write: Write)
    | LoseSnapshot(write: Write)
    | ReadVersion(room: RoomId, key: Key, n: nat, readFails: bool)
    | WriteBackfill(write: Write)
    | LoseBackfill(write: Write)
    | ForeignMessage(message: Message)

  function Accepted(w: World, file: FileId): seq<Blob> {
    if file in w.accepted then w.accepted[file] else []
  }

  /** A save is skipped when the newest cached text equals the incoming text. */
  ghost predicate Skips(text: Text, snaps: Snapshots, save: Save) {
    NewestText(snaps, save.file) == Some(text(save.state))
  }

  predicate Commits(w: World, s: Step) {
    s.CommitSave? && s.save in w.saving
  }

  /** The event and the snapshot that the two goroutines of an accepted save are started with; the
      version is the one the atomic upsert issues. */
  function NewEvent(w: World, save: Save): Event {
    Event(save.file, Saved(w.docs, save.file, save.state)[save.file].version, save.state, save.stamp)
  }

  function NewWrite(text: Text, w: World, save: Save): Write {
    Write(Key(save.file, NewEvent(w, save).version), Snapshot(save.room, text(save.state)))
  }

  /** What GetHistoryAtVersion answers when it replays the first n messages. */
  ghost function Replayed(text: Text, w: World, key: Key, n: nat): string
    requires n <= |w.log|
  {
    text(Replay(w.log, key.file, key.version, n))
  }

  /** A read falls back to replay when the version is valid and its snapshot is missing or unreadable. */
  predicate Misses(w: World, s: Step) {
    s.ReadVersion? && s.key.version >= 1 && s.n <= |w.log| && (s.readFails || s.key !in w.snaps)
  }

  // The state after a step, store by store. A step whose goroutine does not exist changes nothing.

  function DocsNext(w: World, s: Step): Documents {
    if Commits(w, s) then Saved(w.docs, s.save.file, s.save.state)
    else if s.CreateDoc? && s.file !in w.docs then w.docs[s.file := Document(Some(s.room), None, 0)]
    else w.docs
  }

  function SnapsNext(w: World, s: Step): Snapshots {
    if (s.WriteSnapshot? && s.write in w.caching) || (s.WriteBackfill? && s.write in w.backfilling)
    then w.snaps[s.write.key := s.write.snap] else w.snaps
  }

  function LogNext(w: World, s: Step): seq<Message> {
    if s.PublishAttempt? && s.event in w.publishing then w.log + [Edit(s.event)]
    else if s.ForeignMessage? && s.message.Garbage? then w.log + [s.message]
    else w.log
  }

  ghost function SavingNext(text: Text, w: World, s: Step): multiset<Save> {
    if s.BeginSave? && (s.readFails || !Skips(text, w.snaps, s.save)) then w.saving + multiset{s.save}
    else if Commits(w, s) || s.AbandonSave? then w.saving - multiset{s.save}
    else w.saving
  }

  function PublishingNext(w: World, s: Step): multiset<Event> {
    if Commits(w, s) then w.publishing + multiset{NewEvent(w, s.save)}
    else if s.PublishReturn? then w.publishing - multiset{s.event}
    else w.publishing
  }

  function CachingNext(text: Text, w: World, s: Step): multiset<Write> {
    if Commits(w, s) then w.caching + multiset{NewWrite(text, w, s.save)}
    else if s.WriteSnapshot? || s.LoseSnapshot? then w.caching - multiset{s.write}
    else w.caching
  }

  ghost function BackfillingNext(text: Text, w: World, s: Step): multiset<Write> {
    if Misses(w, s) then w.backfilling + multiset{Write(s.key, Snapshot(s.room, Replayed(text, w, s.key, s.n)))}
    else if s.WriteBackfill? || s.LoseBackfill? then w.backfilling - multiset{s.write}
    else w.backfilling
  }

  function AcceptedNext(w: World, s: Step): map<FileId, seq<Blob>> {
    if Commits(w, s) then w.accepted[s.save.file := Accepted(w, s.save.file) + [s.save.state]] else w.accepted
  }

  function LostEventsNext(w: World, s: Step): set<Key> {
    if s.PublishReturn? && s.event in w.publishing && Edit(s.event) !in w.log
    then w.lostEvents + {Key(s.event.file, s.event.version)} else w.lostEvents
  }

  function LostSnapsNext(w: World, s: Step): set<Key> {
    if s.LoseSnapshot? && s.write in w.caching then w.lostSnaps + {s.write.key} else w.lostSnaps
  }

  ghost function Next(text: Text, w: World, s: Step): World {
    World(DocsNext(w, s), SnapsNext(w, s), LogNext(w, s),
          SavingNext(text, w, s), PublishingNext(w, s), CachingNext(text, w, s), BackfillingNext(text, w, s),
          AcceptedNext(w, s), LostEventsNext(w, s), LostSnapsNext(w, s))
  }

  // The same, step by step.

  lemma BeginSaveEffect(text: Text, w: World, save: Save, readFails: bool)
    ensures Next(text, w, BeginSave(save, readFails)) ==
            if !readFails && Skips(text, w.snaps, save) then w else w.(saving := w.saving + multiset{save})
  {
  }

  lemma CommitSaveEffect(text: Text, w: World, save: Save)
    requires save in w.saving
    ensures Next(text, w, CommitSave(save)) ==
            w.(docs := Saved(w.docs, save.file, save.state),
               saving := w.saving - multiset{save},
               publishing := w.publishing + multiset{NewEvent(w, save)},
               caching := w.caching + multiset{NewWrite(text, w, save)},
               accepted := w.accepted[save.file := Accepted(w, save.file) + [save.state]])
  {
  }

  /** An accepted save, written out: its goroutines hold the state, stamp, room and text of the request
      under the version that the stored document now has. */
  lemma AcceptedSaveSpawns(text: Text, w: World, save: Save)
    requires save in w.saving
    ensures var w' := Next(text, w, CommitSave(save));
            var version := 1 + if save.file in w.docs then w.docs[save.file].version else 0;
      && save.file in w'.docs && w'.docs[save.file].version == version && w'.docs[save.file].state == Some(save.state)
      && (forall f :: f != save.file ==> (f in w'.docs <==> f in w.docs) && (f in w.docs ==> w'.docs[f] == w.docs[f]))
      && w'.publishing == w.publishing + multiset{Event(save.file, version, save.state, save.stamp)}
      && w'.caching == w.caching + multiset{Write(Key(save.file, version), Snapshot(save.room, text(save.state)))}
  {
    CommitSaveEffect(text, w, save);
    hide Next;
  }

  lemma AbandonSaveEffect(text: Text, w: World, save: Save)
    ensures Next(text, w, AbandonSave(save)) == w.(saving := w.saving - multiset{save})
  {
  }

  lemma PublishAttemptEffect(text: Text, w: World, event: Event)
    requires event in w.publishing
    ensures Next(text, w, PublishAttempt(event)) == w.(log := w.log + [Edit(event)])
  {
  }

  lemma PublishReturnEffect(text: Text, w: World, event: Event)
    requires event in w.publishing
    ensures Next(text, w, PublishReturn(event)) ==
            w.(publishing := w.publishing - multiset{event},
               lostEvents := if Edit(event) in w.log then w.lostEvents else w.lostEvents + {Key(event.file, event.version)})
  {
  }

  lemma WriteSnapshotEffect(text: Text, w: World, x: Write)
    requires x in w.caching
    ensures Next(text, w, WriteSnapshot(x)) == w.(caching := w.caching - multiset{x}, snaps := w.snaps[x.key := x.snap])
  {
  }

  lemma LoseSnapshotEffect(text: Text, w: World, x: Write)
    requires x in w.caching
    ensures Next(text, w, LoseSnapshot(x)) == w.(caching := w.caching - multiset{x}, lostSnaps := w.lostSnaps + {x.key})
  {
  }

  lemma ReadVersionEffect(text: Text, w: World, room: RoomId, key: Key, n: nat, readFails: bool)
    requires n <= |w.log|
    ensures Next(text, w, ReadVersion(room, key, n, readFails)) ==
            if key.version >= 1 && (readFails || key !in w.snaps)
            then w.(backfilling := w.backfilling + multiset{Write(key, Snapshot(room, Replayed(text, w, key, n)))})
            else w
  {
  }

  lemma BackfillEffect(text: Text, w: World, x: Write)
    requires x in w.backfilling
    ensures Next(text, w, WriteBackfill(x)) == w.(backfilling := w.backfilling - multiset{x}, snaps := w.snaps[x.key := x.snap])
    ensures Next(text, w, LoseBackfill(x)) == w.(backfilling := w.backfilling - multiset{x})
  {
  }

  // ---- what every run keeps -------------------------------------------------------------------

  /** A document's version counts the accepted states, and it holds the last of them. */
  ghost predicate DocCounts(w: World, f: FileId) {
    if f in w.docs
    then w.docs[f].version == |Accepted(w, f)|
         && w.docs[f].state == if Accepted(w, f) == [] then None else Some(Accepted(w, f)[|Accepted(w, f)| - 1])
    else Accepted(w, f) == []
  }

  ghost predicate DocsCount(w: World) {
    forall f :: DocCounts(w, f)
  }

  ghost predicate GenuineEvent(w: World, e: Event) {
    1 <= e.version <= |Accepted(w, e.file)| && e.blob == Accepted(w, e.file)[e.version - 1]
  }

  /** Every event, logged or about to be, carries the state accepted at its version. */
  ghost predicate EventsGenuine(w: World) {
    && (forall m :: m in w.log && m.Edit? ==> GenuineEvent(w, m.event))
    && (forall e :: e in w.publishing ==> GenuineEvent(w, e))
  }

  ghost predicate Exact(text: Text, w: World, key: Key, t: string) {
    1 <= key.version <= |Accepted(w, key.file)| && t == text(Accepted(w, key.file)[key.version - 1])
  }

  /** Every snapshot a save is about to write carries the text accepted at its version. */
  ghost predicate CachingExact(text: Text, w: World) {
    forall x :: x in w.caching ==> Exact(text, w, x.key, x.snap.text)
  }

  ghost predicate Caching(w: World, key: Key) {
    exists x :: x in w.caching && x.key == key
  }

  ghost predicate Publishing(w: World, key: Key) {
    exists e :: e in w.publishing && Key(e.file, e.version) == key
  }

  ghost predicate Logged(w: World, key: Key) {
    exists m :: m in w.log && m.Edit? && Key(m.event.file, m.event.version) == key
  }

  /** No accepted version is forgotten: its snapshot is written, on its way or known lost, and so is
      its event. */
  ghost predicate NothingForgotten(w: World) {
    forall key: Key :: 1 <= key.version <= |Accepted(w, key.file)| ==>
      && (key in w.snaps || Caching(w, key) || key in w.lostSnaps)
      && (Logged(w, key) || Publishing(w, key) || key in w.lostEvents)
  }

  ghost predicate Inv(text: Text, w: World) {
    DocsCount(w) && EventsGenuine(w) && CachingExact(text, w) && NothingForgotten(w)
  }

  /** Accepted states are only appended to. */
  lemma AcceptedGrows(text: Text, w: World, s: Step, f: FileId)
    ensures Accepted(Next(text, w, s), f) == Accepted(w, f) + if Commits(w, s) && s.save.file == f then [s.save.state] else []
  {
  }

  lemma KeepsDocsCount(text: Text, w: World, s: Step)
    requires DocsCount(w)
    ensures DocsCount(Next(text, w, s))
  {
    hide SnapsNext, LogNext, SavingNext, PublishingNext, CachingNext, BackfillingNext, LostEventsNext, LostSnapsNext, AcceptedNext, Accepted;
    forall f ensures DocCounts(Next(text, w, s), f) {
      assert DocCounts(w, f);
      AcceptedGrows(text, w, s, f);
    }
  }

  /** The version that a commit issues is the one of the state it appends. */
  lemma NewIsGenuine(text: Text, w: World, s: Step)
    requires DocsCount(w) && Commits(w, s)
    ensures GenuineEvent(Next(text, w, s), NewEvent(w, s.save))
    ensures NewEvent(w, s.save).version == |Accepted(w, s.save.file)| + 1
  {
    assert DocCounts(w, s.save.file);
    AcceptedGrows(text, w, s, s.save.file);
  }

  lemma KeepsGenuineEvent(text: Text, w: World, s: Step, e: Event)
    requires GenuineEvent(w, e)
    ensures GenuineEvent(Next(text, w, s), e)
  {
  }

  lemma KeepsEventsGenuine(text: Text, w: World, s: Step)
    requires DocsCount(w) && EventsGenuine(w)
    ensures EventsGenuine(Next(text, w, s))
  {
    hide SnapsNext, DocsNext, SavingNext, CachingNext, BackfillingNext, LostEventsNext, LostSnapsNext, AcceptedNext;
    hide GenuineEvent, DocsCount, NewEvent;
    var w' := Next(text, w, s);
    forall e | GenuineEvent(w, e) ensures GenuineEvent(w', e) { KeepsGenuineEvent(text, w, s, e); }
    if Commits(w, s) { NewIsGenuine(text, w, s); }
  }

  lemma KeepsExact(text: Text, w: World, s: Step, key: Key, t: string)
    requires Exact(text, w, key, t)
    ensures Exact(text, Next(text, w, s), key, t)
  {
  }

  lemma KeepsCachingExact(text: Text, w: World, s: Step)
    requires DocsCount(w) && CachingExact(text, w)
    ensures CachingExact(text, Next(text, w, s))
  {
    hide SnapsNext, DocsNext, SavingNext, PublishingNext, LogNext, BackfillingNext, LostEventsNext, LostSnapsNext, AcceptedNext;
    var w' := Next(text, w, s);
    if Commits(w, s) { NewIsGenuine(text, w, s); }
    forall x | x in w'.caching ensures Exact(text, w', x.key, x.snap.text) {
      if x in w.caching { KeepsExact(text, w, s, x.key, x.snap.text); }
    }
  }

  lemma KeepsNothingForgotten(text: Text, w: World, s: Step)
    requires DocsCount(w) && NothingForgotten(w)
    ensures NothingForgotten(Next(text, w, s))
  {
    hide SnapsNext, LogNext, SavingNext, BackfillingNext, LostEventsNext, LostSnapsNext;
    var w' := Next(text, w, s);
    if Commits(w, s) { NewIsGenuine(text, w, s); }
    forall key: Key | 1 <= key.version <= |Accepted(w', key.file)|
      ensures key in w'.snaps || Caching(w', key) || key in w'.lostSnaps
      ensures Logged(w', key) || Publishing(w', key) || key in w'.lostEvents
    {
      if key.version > |Accepted(w, key.file)| {
        assert NewWrite(text, w, s.save).key == key && Caching(w', key);
        assert NewEvent(w, s.save) in w'.publishing && Publishing(w', key);
      } else {
        StaysCached(text, w, s, key);
        StaysLogged(text, w, s, key);
      }
    }
  }

  lemma StaysCached(text: Text, w: World, s: Step, key: Key)
    requires key in w.snaps || Caching(w, key) || key in w.lostSnaps
    ensures var w' := Next(text, w, s); key in w'.snaps || Caching(w', key) || key in w'.lostSnaps
  {
    hide DocsNext, LogNext, SavingNext, PublishingNext, BackfillingNext, AcceptedNext, LostEventsNext, NewWrite;
    var w' := Next(text, w, s);
    if Caching(w, key) {
      var x :| x in w.caching && x.key == key;
      assert x in w'.caching || key in w'.snaps || key in w'.lostSnaps;
    }
  }

  lemma StaysLogged(text: Text, w: World, s: Step, key: Key)
    requires Logged(w, key) || Publishing(w, key) || key in w.lostEvents
    ensures var w' := Next(text, w, s); Logged(w', key) || Publishing(w', key) || key in w'.lostEvents
  {
    hide SnapsNext, DocsNext, SavingNext, CachingNext, BackfillingNext, LostSnapsNext, AcceptedNext, NewEvent;
    var w' := Next(text, w, s);
    if Logged(w, key) {
      var m :| m in w.log && m.Edit? && Key(m.event.file, m.event.version) == key;
      assert m in w'.log;
    } else if Publishing(w, key) {
      var e :| e in w.publishing && Key(e.file, e.version) == key;
      if e in w'.publishing {
      } else {
        assert s.PublishReturn? && s.event == e;
        assert Edit(e).Edit?;
      }
    }
  }

  /** Every step keeps the invariant, whatever is interleaved with it. */
  lemma StepKeepsInv(text: Text, w: World, s: Step)
    requires Inv(text, w)
    ensures Inv(text, Next(text, w, s))
  {
    hide DocsCount, EventsGenuine, CachingExact, NothingForgotten, Next;
    KeepsDocsCount(text, w, s);
    KeepsEventsGenuine(text, w, s);
    KeepsCachingExact(text, w, s);
    KeepsNothingForgotten(text, w, s);
  }

  ghost function Run(text: Text, w: World, ss: seq<Step>): World
    decreases |ss|
  {
    if ss == [] then w else Run(text, Next(text, w, ss[0]), ss[1..])
  }

  const START := World(map[], map[], [], multiset{}, multiset{}, multiset{}, multiset{}, map[], {}, {})

  lemma {:induction false} RunKeepsInv(text: Text, w: World, ss: seq<Step>)
    requires Inv(text, w)
    ensures Inv(text, Run(text, w, ss))
    decreases |ss|
  {
    if ss != [] {
      StepKeepsInv(text, w, ss[0]);
      RunKeepsInv(text, Next(text, w, ss[0]), ss[1..]);
    }
  }

  // ---- versions are issued once each and consecutively -------------------------------------------

  /** The version a step issues for the file, if it accepts a state of it. */
  ghost function Issued(text: Text, w: World, s: Step, file: FileId): seq<int> {
    if Commits(w, s) && s.save.file == file
    then [NewEvent(w, s.save).version] else []
  }

  ghost function IssuedIn(text: Text, w: World, ss: seq<Step>, file: FileId): seq<int>
    decreases |ss|
  {
    if ss == [] then [] else Issued(text, w, ss[0], file) + IssuedIn(text, Next(text, w, ss[0]), ss[1..], file)
  }

  /** from + 1, from + 2, and so on. */
  ghost predicate CountsOn(vs: seq<int>, from: int) {
    forall i :: 0 <= i < |vs| ==> vs[i] == from + 1 + i
  }

  /** In every run the versions issued for a file continue its count without gap or repetition. */
  lemma {:induction false} VersionsAreConsecutive(text: Text, w: World, ss: seq<Step>, file: FileId)
    requires DocsCount(w)
    ensures CountsOn(IssuedIn(text, w, ss, file), |Accepted(w, file)|)
    ensures |Accepted(Run(text, w, ss), file)| == |Accepted(w, file)| + |IssuedIn(text, w, ss, file)|
    decreases |ss|
  {
    if ss == [] {
    } else {
      var w' := Next(text, w, ss[0]);
      var now, later := Issued(text, w, ss[0], file), IssuedIn(text, w', ss[1..], file);
      assert IssuedIn(text, w, ss, file) == now + later;
      assert Run(text, w, ss) == Run(text, w', ss[1..]);
      hide *;
      VersionsOfStep(text, w, ss[0], file);
      KeepsDocsCount(text, w, ss[0]);
      VersionsAreConsecutive(text, w', ss[1..], file);
      CountsOnAppend(now, later, |Accepted(w, file)|);
    }
  }

  lemma CountsOnAppend(now: seq<int>, later: seq<int>, from: int)
    requires CountsOn(now, from) && CountsOn(later, from + |now|)
    ensures CountsOn(now + later, from)
  {
  }

  lemma VersionsOfStep(text: Text, w: World, s: Step, file: FileId)
    requires DocsCount(w)
    ensures CountsOn(Issued(text, w, s, file), |Accepted(w, file)|)
    ensures |Accepted(Next(text, w, s), file)| == |Accepted(w, file)| + |Issued(text, w, s, file)|
  {
    hide DocsCount, Next, Accepted, NewEvent;
    AcceptedGrows(text, w, s, file);
    if Commits(w, s) { NewIsGenuine(text, w, s); }
  }

  // ---- exact snapshots -------------------------------------------------------------------------

  /** Every snapshot of the file holds the text accepted at its version. */
  ghost predicate SnapsExact(text: Text, w: World, f: FileId) {
    forall key :: key in w.snaps && key.file == f ==> Exact(text, w, key, w.snaps[key].text)
  }

  /** If the step writes a backfill of the file, its text is the one accepted at its version. */
  ghost predicate WritesExact(text: Text, w: World, s: Step, f: FileId) {
    s.WriteBackfill? && s.write in w.backfilling && s.write.key.file == f ==> Exact(text, w, s.write.key, s.write.snap.text)
  }

  lemma SnapshotStaysExact(text: Text, w: World, s: Step, key: Key)
    requires CachingExact(text, w) && SnapsExact(text, w, key.file) && WritesExact(text, w, s, key.file)
    requires key in Next(text, w, s).snaps
    ensures Exact(text, Next(text, w, s), key, Next(text, w, s).snaps[key].text)
  {
    hide DocsNext, LogNext, SavingNext, PublishingNext, CachingNext, BackfillingNext, AcceptedNext, LostEventsNext, LostSnapsNext;
    hide Exact;
    KeepsExact(text, w, s, key, Next(text, w, s).snaps[key].text);
  }

  /** Saves never make a snapshot wrong, whatever they race with; a backfill does iff its text is not
      the accepted one. What happens to other files does not matter. */
  lemma StepKeepsSnapsExact(text: Text, w: World, s: Step, f: FileId)
    requires CachingExact(text, w) && SnapsExact(text, w, f)
    ensures SnapsExact(text, Next(text, w, s), f) <==> WritesExact(text, w, s, f)
  {
    var w' := Next(text, w, s);
    if s.WriteBackfill? && s.write in w.backfilling { BackfillEffect(text, w, s.write); }
    hide Next, CachingExact;
    if WritesExact(text, w, s, f) {
      forall key | key in w'.snaps && key.file == f ensures Exact(text, w', key, w'.snaps[key].text) {
        SnapshotStaysExact(text, w, s, key);
      }
    } else {
      assert s.write.key in w'.snaps && w'.snaps[s.write.key] == s.write.snap;
      assert Accepted(w', f) == Accepted(w, f);
    }
  }

  ghost predicate WritesExactThroughout(text: Text, w: World, ss: seq<Step>, f: FileId)
    decreases |ss|
  {
    ss != [] ==> WritesExact(text, w, ss[0], f) && WritesExactThroughout(text, Next(text, w, ss[0]), ss[1..], f)
  }

  ghost predicate SnapsExactThroughout(text: Text, w: World, ss: seq<Step>, f: FileId)
    decreases |ss|
  {
    SnapsExact(text, w, f) && (ss != [] ==> SnapsExactThroughout(text, Next(text, w, ss[0]), ss[1..], f))
  }

  /** In every interleaving, with blobs that need not contain one another and effects that may fail:
      the file's snapshots are exact throughout iff each of its backfills was when it was written. */
  lemma {:induction false} RunKeepsSnapsExact(text: Text, w: World, ss: seq<Step>, f: FileId)
    requires Inv(text, w) && SnapsExact(text, w, f)
    ensures SnapsExactThroughout(text, w, ss, f) <==> WritesExactThroughout(text, w, ss, f)
    ensures WritesExactThroughout(text, w, ss, f) ==> SnapsExact(text, Run(text, w, ss), f)
    decreases |ss|
  {
    if ss != [] {
      hide Next, DocsCount, EventsGenuine, CachingExact, NothingForgotten, SnapsExact, WritesExact;
      StepKeepsInv(text, w, ss[0]);
      StepKeepsSnapsExact(text, w, ss[0], f);
      if SnapsExact(text, Next(text, w, ss[0]), f) { RunKeepsSnapsExact(text, Next(text, w, ss[0]), ss[1..], f); }
    }
  }

  // ---- faithful histories ----------------------------------------------------------------------

  ghost predicate PendingExact(text: Text, w: World, f: FileId) {
    forall x :: x in w.backfilling && x.key.file == f ==> Exact(text, w, x.key, x.snap.text)
  }

  /** Accepted states of the file only grow, and every snapshot of it, written or about to be
      backfilled, is exact. */
  ghost predicate Faithful(text: Text, w: World, f: FileId) {
    Growing(Accepted(w, f)) && SnapsExact(text, w, f) && PendingExact(text, w, f)
  }

  /** What a step must meet to keep the file's history faithful: an accepted state contains the stored
      one, and a replay is stopped by the event of the version that was asked for. */
  predicate CleanStep(w: World, s: Step, f: FileId) {
    && (Commits(w, s) && s.save.file == f && f in w.docs && w.docs[f].state.Some? ==> w.docs[f].state.value <= s.save.state)
    && (Misses(w, s) && s.key.file == f ==> OwnEventFirst(w.log, f, s.key.version, s.n))
  }

  lemma LogIsGenuine(w: World, file: FileId)
    requires EventsGenuine(w)
    ensures Genuine(w.log, file, Accepted(w, file))
  {
  }

  /** A replay that the target's own event stops gives exactly the text accepted at that version. */
  lemma ReplayIsExact(text: Text, w: World, key: Key, n: nat)
    requires EventsGenuine(w) && Growing(Accepted(w, key.file)) && n <= |w.log|
    requires OwnEventFirst(w.log, key.file, key.version, n)
    ensures Exact(text, w, key, Replayed(text, w, key, n))
  {
    LogIsGenuine(w, key.file);
    ReplayGivesReachedVersion(w.log, key.file, Accepted(w, key.file), key.version, n);
  }

  /** Hit and miss agree: the cached text of a version is the text a replay would give. */
  lemma HitEqualsMiss(text: Text, w: World, key: Key, n: nat)
    requires Inv(text, w) && Faithful(text, w, key.file) && key in w.snaps && n <= |w.log|
    requires OwnEventFirst(w.log, key.file, key.version, n)
    ensures w.snaps[key].text == Replayed(text, w, key, n)
  {
    ReplayIsExact(text, w, key, n);
  }

  lemma GrowingAppend(acc: seq<Blob>, state: Blob)
    requires Growing(acc) && (acc != [] ==> acc[|acc| - 1] <= state)
    ensures Growing(acc + [state])
  {
  }

  lemma KeepsGrowing(text: Text, w: World, s: Step, f: FileId)
    requires DocsCount(w) && Growing(Accepted(w, f)) && CleanStep(w, s, f)
    ensures Growing(Accepted(Next(text, w, s), f))
  {
    AcceptedGrows(text, w, s, f);
    assert DocCounts(w, f);
    hide Next, Growing;
    if Commits(w, s) && s.save.file == f {
      GrowingAppend(Accepted(w, f), s.save.state);
    } else {
      assert Accepted(w, f) + [] == Accepted(w, f);
    }
  }

  /** A pending backfill is an old one or that of the read just made. */
  lemma PendingBefore(text: Text, w: World, s: Step, x: Write)
    requires x in Next(text, w, s).backfilling && x !in w.backfilling
    ensures Misses(w, s) && x == Write(s.key, Snapshot(s.room, Replayed(text, w, s.key, s.n)))
  {
    hide DocsNext, LogNext, SavingNext, PublishingNext, CachingNext, SnapsNext, AcceptedNext, LostEventsNext, LostSnapsNext, Replayed;
  }

  lemma StepKeepsFaithful(text: Text, w: World, s: Step, f: FileId)
    requires Inv(text, w) && Faithful(text, w, f) && CleanStep(w, s, f)
    ensures Faithful(text, Next(text, w, s), f)
  {
    hide Next, Growing, Exact, DocsCount, EventsGenuine, CachingExact, NothingForgotten, Replayed, OwnEventFirst;
    var w' := Next(text, w, s);
    KeepsGrowing(text, w, s, f);
    StepKeepsSnapsExact(text, w, s, f);
    forall x | x in w'.backfilling && x.key.file == f ensures Exact(text, w', x.key, x.snap.text) {
      if x !in w.backfilling {
        PendingBefore(text, w, s, x);
        ReplayIsExact(text, w, s.key, s.n);
      }
      KeepsExact(text, w, s, x.key, x.snap.text);
    }
  }

  ghost predicate CleanRun(text: Text, w: World, ss: seq<Step>, f: FileId)
    decreases |ss|
  {
    ss != [] ==> CleanStep(w, ss[0], f) && CleanRun(text, Next(text, w, ss[0]), ss[1..], f)
  }

  lemma {:induction false} RunKeepsFaithful(text: Text, w: World, ss: seq<Step>, f: FileId)
    requires Inv(text, w) && Faithful(text, w, f) && CleanRun(text, w, ss, f)
    ensures Inv(text, Run(text, w, ss)) && Faithful(text, Run(text, w, ss), f)
    decreases |ss|
  {
    if ss != [] {
      hide Next, Inv, Faithful, CleanStep;
      StepKeepsInv(text, w, ss[0]);
      StepKeepsFaithful(text, w, ss[0], f);
      RunKeepsFaithful(text, Next(text, w, ss[0]), ss[1..], f);
    }
  }

  lemma StartIsSound(text: Text, f: FileId)
    ensures Inv(text, START) && Faithful(text, START, f) && Plausible(text, START)
  {
  }

  /** After every run from empty stores that is clean for the file, in a log that holds its events in
      version order and the version's own among them, a cached version reads the same as a replayed
      one, and both are the accepted text. */
  lemma CacheAgreesWithReplay(text: Text, ss: seq<Step>, key: Key, n: nat)
    requires CleanRun(text, START, ss, key.file)
    requires var w := Run(text, START, ss);
             n <= |w.log| && InVersionOrder(w.log, key.file) && HasEvent(w.log, key.file, key.version, n)
    ensures var w := Run(text, START, ss);
            && Exact(text, w, key, Replayed(text, w, key, n))
            && (key in w.snaps ==> w.snaps[key].text == Replayed(text, w, key, n))
  {
    StartIsSound(text, key.file);
    RunKeepsFaithful(text, START, ss, key.file);
    var w := Run(text, START, ss);
    OrderedLogReachesTarget(w.log, key.file, key.version, n);
    ReplayIsExact(text, w, key, n);
  }

  /** If the version's event can be fetched and lies below the watermark, in a log in version order and
      with growing states, a replay of what is fetched gives the accepted text. */
  lemma ReachedReplayIsExact(text: Text, w: World, key: Key, first: nat, high: Option<int>, fetchable: nat)
    requires EventsGenuine(w) && Growing(Accepted(w, key.file)) && InVersionOrder(w.log, key.file)
    requires fetchable <= |w.log| && WithinReach(w.log, key.file, key.version, first, high, fetchable)
    ensures Exact(text, w, key, Replayed(text, w, key, if high.Some? then Budget(first, high.value, fetchable) else fetchable))
  {
    var n := if high.Some? then Budget(first, high.value, fetchable) else fetchable;
    var i: nat :| i < fetchable && i < |w.log| && (high.Some? ==> first + i < high.value)
                  && w.log[i].Edit? && w.log[i].event.file == key.file && w.log[i].event.version == key.version;
    if high.Some? { ReadsBelowWatermark(first, high.value, fetchable, i); }
    assert HasEvent(w.log, key.file, key.version, n);
    OrderedLogReachesTarget(w.log, key.file, key.version, n);
    ReplayIsExact(text, w, key, n);
  }

  // ---- exactly when a read is right -----------------------------------------------------------------

  /** The text of a version differs from that of every other and of the empty document. */
  ghost predicate TellsApart(text: Text, accepted: seq<Blob>, version: int)
    requires 1 <= version <= |accepted|
  {
    && text(accepted[version - 1]) != text({})
    && forall i :: 0 <= i < |accepted| && i != version - 1 ==> text(accepted[i]) != text(accepted[version - 1])
  }

  ghost predicate AllApart(text: Text, accepted: seq<Blob>) {
    Growing(accepted) && forall v :: 1 <= v <= |accepted| ==> TellsApart(text, accepted, v)
  }

  lemma InjectiveTextsTellApart(text: Text, accepted: seq<Blob>)
    requires StrictlyGrowing(accepted) && forall a, b :: text(a) == text(b) ==> a == b
    ensures AllApart(text, accepted)
  {
    forall v | 1 <= v <= |accepted| ensures TellsApart(text, accepted, v) {
      forall i | 0 <= i < |accepted| && i != v - 1 ensures accepted[i] != accepted[v - 1] {
        assert if i < v - 1 then accepted[i] < accepted[v - 1] else accepted[v - 1] < accepted[i];
      }
    }
  }

  /** The guard of a read: the version has been accepted, and its own event is the first to reach it. */
  predicate ReadSound(w: World, key: Key, n: nat)
    requires n <= |w.log|
  {
    key.version <= |Accepted(w, key.file)| && OwnEventFirst(w.log, key.file, key.version, n)
  }

  lemma StateTextIff(text: Text, accepted: seq<Blob>, h: int, version: int)
    requires 0 <= h <= |accepted| && 1 <= version <= |accepted| && TellsApart(text, accepted, version)
    ensures text(if h == 0 then {} else accepted[h - 1]) == text(accepted[version - 1]) <==> h == version
  {
  }

  lemma RightTextIff(text: Text, log: seq<Message>, file: FileId, accepted: seq<Blob>, version: int, n: nat)
    requires n <= |log| && Genuine(log, file, accepted) && Growing(accepted)
    requires 1 <= version <= |accepted| && TellsApart(text, accepted, version)
    ensures text(Replay(log, file, version, n)) == text(accepted[version - 1]) <==> OwnEventFirst(log, file, version, n)
  {
    var h := Highest(log, file, Consumed(log, file, version, n));
    ReplayIsHighest(log, file, accepted, version, n);
    HighestIsTargetIff(log, file, version, n);
    hide *;
    StateTextIff(text, accepted, h, version);
  }

  /** A missed read caches the right text exactly when its guard holds. Beyond the last accepted version
      it never does; up to it, states must grow and the version's text must be told apart from others. */
  lemma MissedReadExactIff(text: Text, w: World, key: Key, n: nat)
    requires EventsGenuine(w) && n <= |w.log| && key.version >= 1
    requires var acc := Accepted(w, key.file); key.version <= |acc| ==> Growing(acc) && TellsApart(text, acc, key.version)
    ensures Exact(text, w, key, Replayed(text, w, key, n)) <==> ReadSound(w, key, n)
  {
    hide Growing, TellsApart, Genuine, EventsGenuine, Consumed, OwnEventFirst, Accepted;
    var acc := Accepted(w, key.file);
    if key.version <= |acc| {
      LogIsGenuine(w, key.file);
      RightTextIff(text, w.log, key.file, acc, key.version, n);
    }
  }

  /** The snapshot of one version, written or about to be backfilled, is exact. */
  ghost predicate KeyExact(text: Text, w: World, key: Key) {
    && (key in w.snaps ==> Exact(text, w, key, w.snaps[key].text))
    && (forall x :: x in w.backfilling && x.key == key ==> Exact(text, w, key, x.snap.text))
  }

  /** If the step is a missed read of that version, its guard holds. */
  predicate ReadsKeySound(w: World, s: Step, key: Key) {
    Misses(w, s) && s.key == key ==> ReadSound(w, key, s.n)
  }

  lemma SnapshotKeepsExact(text: Text, w: World, s: Step, key: Key)
    requires CachingExact(text, w) && KeyExact(text, w, key) && key in Next(text, w, s).snaps
    ensures Exact(text, Next(text, w, s), key, Next(text, w, s).snaps[key].text)
  {
    hide DocsNext, LogNext, SavingNext, PublishingNext, CachingNext, BackfillingNext, AcceptedNext, LostEventsNext, LostSnapsNext;
    hide Exact;
    KeepsExact(text, w, s, key, Next(text, w, s).snaps[key].text);
  }

  /** A missed read leaves its own text pending. */
  lemma MissedReadPends(text: Text, w: World, s: Step)
    requires Misses(w, s)
    ensures var w' := Next(text, w, s);
            && w'.accepted == w.accepted
            && Write(s.key, Snapshot(s.room, Replayed(text, w, s.key, s.n))) in w'.backfilling
  {
    ReadVersionEffect(text, w, s.room, s.key, s.n, s.readFails);
    hide Next, Replayed;
  }

  lemma SoundReadKeepsKey(text: Text, w: World, s: Step, key: Key)
    requires CachingExact(text, w) && KeyExact(text, w, key)
    requires Misses(w, s) && s.key == key ==> Exact(text, w, key, Replayed(text, w, key, s.n))
    ensures KeyExact(text, Next(text, w, s), key)
  {
    var w' := Next(text, w, s);
    hide Next, Exact, Replayed, CachingExact, Misses;
    if key in w'.snaps { SnapshotKeepsExact(text, w, s, key); }
    forall x | x in w'.backfilling && x.key == key ensures Exact(text, w', key, x.snap.text) {
      if x !in w.backfilling { PendingBefore(text, w, s, x); }
      KeepsExact(text, w, s, key, x.snap.text);
    }
  }

  lemma UnsoundReadBreaksKey(text: Text, w: World, s: Step)
    requires Misses(w, s) && !Exact(text, w, s.key, Replayed(text, w, s.key, s.n))
    ensures !KeyExact(text, Next(text, w, s), s.key)
  {
    MissedReadPends(text, w, s);
    hide Next, Replayed;
  }

  /** One step keeps a version's snapshot exact iff it is not a missed read of it whose guard fails. */
  lemma StepKeepsKeyIff(text: Text, w: World, s: Step, key: Key)
    requires Inv(text, w) && KeyExact(text, w, key) && AllApart(text, Accepted(w, key.file))
    ensures KeyExact(text, Next(text, w, s), key) <==> ReadsKeySound(w, s, key)
  {
    if Misses(w, s) && s.key == key { MissedReadExactIff(text, w, key, s.n); }
    hide Next, Exact, Replayed, ReadSound, AllApart, KeyExact;
    if ReadsKeySound(w, s, key) { SoundReadKeepsKey(text, w, s, key); } else { UnsoundReadBreaksKey(text, w, s); }
  }

  /** Every snapshot of the file, written or about to be backfilled, is exact. */
  ghost predicate HistoryExact(text: Text, w: World, f: FileId) {
    SnapsExact(text, w, f) && PendingExact(text, w, f)
  }

  lemma HistoryIsKeys(text: Text, w: World, f: FileId)
    ensures HistoryExact(text, w, f) <==> forall key: Key :: key.file == f ==> KeyExact(text, w, key)
  {
    hide Exact;
    if forall key: Key :: key.file == f ==> KeyExact(text, w, key) {
      forall key | key in w.snaps && key.file == f ensures Exact(text, w, key, w.snaps[key].text) { assert KeyExact(text, w, key); }
      forall x | x in w.backfilling && x.key.file == f ensures Exact(text, w, x.key, x.snap.text) { assert KeyExact(text, w, x.key); }
    }
  }

  predicate ReadsSound(w: World, s: Step, f: FileId) {
    Misses(w, s) && s.key.file == f ==> ReadSound(w, s.key, s.n)
  }

  /** One step keeps a file's history exact iff it is not a missed read whose guard fails. */
  lemma StepKeepsHistoryIff(text: Text, w: World, s: Step, f: FileId)
    requires Inv(text, w) && HistoryExact(text, w, f) && AllApart(text, Accepted(w, f))
    ensures HistoryExact(text, Next(text, w, s), f) <==> ReadsSound(w, s, f)
  {
    HistoryIsKeys(text, w, f);
    HistoryIsKeys(text, Next(text, w, s), f);
    hide Next, Inv, KeyExact, HistoryExact, AllApart, ReadSound, Misses;
    forall key: Key | key.file == f { StepKeepsKeyIff(text, w, s, key); }
    if s.ReadVersion? && s.key.file == f { assert ReadsKeySound(w, s, s.key) <==> ReadsSound(w, s, f); }
  }

  ghost predicate ReadsSoundThroughout(text: Text, w: World, ss: seq<Step>, f: FileId)
    decreases |ss|
  {
    ss != [] ==> ReadsSound(w, ss[0], f) && ReadsSoundThroughout(text, Next(text, w, ss[0]), ss[1..], f)
  }

  ghost predicate HistoryExactThroughout(text: Text, w: World, ss: seq<Step>, f: FileId)
    decreases |ss|
  {
    HistoryExact(text, w, f) && (ss != [] ==> HistoryExactThroughout(text, Next(text, w, ss[0]), ss[1..], f))
  }

  lemma {:induction false} AcceptedIsPrefix(text: Text, w: World, ss: seq<Step>, f: FileId)
    ensures Accepted(w, f) <= Accepted(Run(text, w, ss), f)
    decreases |ss|
  {
    if ss != [] {
      hide Next, Accepted;
      AcceptedGrows(text, w, ss[0], f);
      AcceptedIsPrefix(text, Next(text, w, ss[0]), ss[1..], f);
    }
  }

  lemma ApartForPrefix(text: Text, shorter: seq<Blob>, longer: seq<Blob>)
    requires shorter <= longer && AllApart(text, longer)
    ensures AllApart(text, shorter)
  {
    forall v | 1 <= v <= |shorter| ensures TellsApart(text, shorter, v) { assert TellsApart(text, longer, v); }
  }

  /** In every interleaving in which a file's states grow and have different texts, whatever fails and
      whatever happens to other files: its snapshots, written and pending, are exact throughout iff the
      guard held at each of its missed reads. */
  lemma {:induction false} RunKeepsHistoryIff(text: Text, w: World, ss: seq<Step>, f: FileId)
    requires Inv(text, w) && HistoryExact(text, w, f) && AllApart(text, Accepted(Run(text, w, ss), f))
    ensures HistoryExactThroughout(text, w, ss, f) <==> ReadsSoundThroughout(text, w, ss, f)
    ensures ReadsSoundThroughout(text, w, ss, f) ==> HistoryExact(text, Run(text, w, ss), f)
    decreases |ss|
  {
    if ss != [] {
      var w' := Next(text, w, ss[0]);
      AcceptedIsPrefix(text, w, ss, f);
      ApartForPrefix(text, Accepted(w, f), Accepted(Run(text, w, ss), f));
      hide Next, Inv, HistoryExact, ReadsSound, AllApart, Accepted;
      StepKeepsInv(text, w, ss[0]);
      StepKeepsHistoryIff(text, w, ss[0], f);
      if HistoryExact(text, w', f) { RunKeepsHistoryIff(text, w', ss[1..], f); }
    }
  }

  ghost predicate ReadsKeySoundThroughout(text: Text, w: World, ss: seq<Step>, key: Key)
    decreases |ss|
  {
    ss != [] ==> ReadsKeySound(w, ss[0], key) && ReadsKeySoundThroughout(text, Next(text, w, ss[0]), ss[1..], key)
  }

  ghost predicate KeyExactThroughout(text: Text, w: World, ss: seq<Step>, key: Key)
    decreases |ss|
  {
    KeyExact(text, w, key) && (ss != [] ==> KeyExactThroughout(text, Next(text, w, ss[0]), ss[1..], key))
  }

  /** The same for a single version: its snapshot, written or pending, is exact throughout iff the guard
      held at each missed read of that version, whatever other versions were read. */
  lemma {:induction false} RunKeepsKeyIff(text: Text, w: World, ss: seq<Step>, key: Key)
    requires Inv(text, w) && KeyExact(text, w, key) && AllApart(text, Accepted(Run(text, w, ss), key.file))
    ensures KeyExactThroughout(text, w, ss, key) <==> ReadsKeySoundThroughout(text, w, ss, key)
    ensures ReadsKeySoundThroughout(text, w, ss, key) ==> KeyExact(text, Run(text, w, ss), key)
    decreases |ss|
  {
    if ss != [] {
      var w' := Next(text, w, ss[0]);
      AcceptedIsPrefix(text, w, ss, key.file);
      ApartForPrefix(text, Accepted(w, key.file), Accepted(Run(text, w, ss), key.file));
      hide Next, Inv, KeyExact, ReadsKeySound, AllApart, Accepted;
      StepKeepsInv(text, w, ss[0]);
      StepKeepsKeyIff(text, w, ss[0], key);
      if KeyExact(text, w', key) { RunKeepsKeyIff(text, w', ss[1..], key); }
    }
  }

  // ---- deduplication ------------------------------------------------------------------------------

  ghost function StoredText(text: Text, w: World, file: FileId): Option<string> {
    if file in w.docs && w.docs[file].state.Some? then Some(text(w.docs[file].state.value)) else None
  }

  /** No save is ever skipped whose text differs from the stored one. */
  ghost predicate DedupLossless(text: Text, w: World, file: FileId) {
    forall save: Save :: save.file == file && Skips(text, w.snaps, save) ==> StoredText(text, w, file) == Some(text(save.state))
  }

  /** Nothing is on its way or lost for the file's snapshots. */
  ghost predicate CacheSettled(w: World, file: FileId) {
    (forall x :: x in w.caching ==> x.key.file != file) && (forall key: Key :: key in w.lostSnaps ==> key.file != file)
  }

  /** A snapshot that some state would give: its version is positive and its text is one of a blob. */
  ghost predicate Possible(text: Text, key: Key, snap: Snapshot) {
    key.version >= 1 && exists b: Blob :: text(b) == snap.text
  }

  ghost predicate Plausible(text: Text, w: World) {
    && (forall key :: key in w.snaps ==> Possible(text, key, w.snaps[key]))
    && (forall x :: x in w.caching ==> Possible(text, x.key, x.snap))
    && (forall x :: x in w.backfilling ==> Possible(text, x.key, x.snap))
  }

  lemma NewIsPossible(text: Text, w: World, s: Step, x: Write)
    requires x in Next(text, w, s).caching && x !in w.caching
    ensures Possible(text, x.key, x.snap)
  {
    hide DocsNext, LogNext, SavingNext, PublishingNext, BackfillingNext, SnapsNext, AcceptedNext, LostEventsNext, LostSnapsNext;
  }

  lemma StepKeepsPlausible(text: Text, w: World, s: Step)
    requires Plausible(text, w)
    ensures Plausible(text, Next(text, w, s))
  {
    hide DocsNext, LogNext, SavingNext, PublishingNext, CachingNext, BackfillingNext, AcceptedNext, LostEventsNext, LostSnapsNext;
    var w' := Next(text, w, s);
    forall x | x in w'.caching ensures Possible(text, x.key, x.snap) {
      if x !in w.caching { NewIsPossible(text, w, s, x); }
    }
    forall x | x in w'.backfilling ensures Possible(text, x.key, x.snap) {
      if x !in w.backfilling { PendingBefore(text, w, s, x); }
    }
    hide Possible;
  }

  lemma {:induction false} RunKeepsPlausible(text: Text, w: World, ss: seq<Step>)
    requires Plausible(text, w)
    ensures Plausible(text, Run(text, w, ss))
    decreases |ss|
  {
    if ss != [] {
      hide Next, Plausible;
      StepKeepsPlausible(text, w, ss[0]);
      RunKeepsPlausible(text, Next(text, w, ss[0]), ss[1..]);
    }
  }

  /** Deduplication loses nothing iff nothing is cached or the newest cached text is the stored one. */
  lemma DedupLosslessIff(text: Text, w: World, file: FileId)
    requires Plausible(text, w)
    ensures DedupLossless(text, w, file) <==> NewestText(w.snaps, file) in {None, StoredText(text, w, file)}
  {
    var v := Newest(w.snaps, file);
    if v.Some? {
      var key := Key(file, v.value);
      assert Possible(text, key, w.snaps[key]);
      var b: Blob :| text(b) == w.snaps[key].text;
      hide Newest, StoredText, Plausible;
      assert Skips(text, w.snaps, Save(RoomId(""), file, b, Stamp("", 0)));
    }
  }

  lemma StoredIsLastAccepted(text: Text, w: World, file: FileId)
    requires DocsCount(w) && Accepted(w, file) != []
    ensures StoredText(text, w, file) == Some(text(Accepted(w, file)[|Accepted(w, file)| - 1]))
  {
    assert DocCounts(w, file);
  }

  /** The version of the stored document, 0 if there is none. */
  function VersionOf(docs: Documents, file: FileId): nat {
    if file in docs then docs[file].version else 0
  }

  /** The snapshot of the stored version, if there is one, holds the stored text. */
  ghost predicate LastSnapExact(text: Text, w: World, file: FileId) {
    var last := Key(file, VersionOf(w.docs, file));
    last in w.snaps ==> Exact(text, w, last, w.snaps[last].text)
  }

  /** A settled cache whose newest version is not beyond the stored one holds the stored text. */
  lemma SettledNewestIsStored(text: Text, w: World, file: FileId)
    requires Inv(text, w) && Plausible(text, w) && CacheSettled(w, file) && LastSnapExact(text, w, file)
    requires Newest(w.snaps, file).Some? && Newest(w.snaps, file).value <= VersionOf(w.docs, file)
    ensures NewestText(w.snaps, file) == StoredText(text, w, file)
  {
    hide EventsGenuine, CachingExact, StoredText;
    var acc, v := Accepted(w, file), Newest(w.snaps, file).value;
    assert DocCounts(w, file);
    assert Possible(text, Key(file, v), w.snaps[Key(file, v)]);
    hide Possible, Plausible;
    var last := Key(file, |acc|);
    assert last in w.snaps;
    assert v == |acc|;
    StoredIsLastAccepted(text, w, file);
  }

  /** The exact guard of a skip: once a file's snapshots have settled, deduplication loses nothing iff
      nothing is cached, or the newest cached version is not beyond the stored one, or the cached text
      happens to be the stored one. Only the stored version's own snapshot need be exact. */
  lemma SettledDedupLosslessIff(text: Text, w: World, file: FileId)
    requires Inv(text, w) && Plausible(text, w) && CacheSettled(w, file) && LastSnapExact(text, w, file)
    ensures DedupLossless(text, w, file) <==>
            var v := Newest(w.snaps, file);
            v == None || v.value <= VersionOf(w.docs, file) || NewestText(w.snaps, file) == StoredText(text, w, file)
  {
    hide Inv, Plausible, CacheSettled, LastSnapExact, Newest, StoredText, DedupLossless;
    DedupLosslessIff(text, w, file);
    var v := Newest(w.snaps, file);
    if v.Some? && v.value <= VersionOf(w.docs, file) { SettledNewestIsStored(text, w, file); }
  }

  /** Every run from empty stores in which the file's states grow and have different texts, and every
      missed read of the version now stored was sound: once settled, that is the guard. Other versions
      may have been read too early or beyond the last accepted one. */
  lemma QuiescentDedupIff(text: Text, ss: seq<Step>, file: FileId)
    requires var w := Run(text, START, ss);
             && CacheSettled(w, file) && AllApart(text, Accepted(w, file))
             && ReadsKeySoundThroughout(text, START, ss, Key(file, VersionOf(w.docs, file)))
    ensures var w := Run(text, START, ss); var v := Newest(w.snaps, file);
            DedupLossless(text, w, file) <==>
            v == None || v.value <= VersionOf(w.docs, file) || NewestText(w.snaps, file) == StoredText(text, w, file)
  {
    var w := Run(text, START, ss);
    var last := Key(file, VersionOf(w.docs, file));
    StartIsSound(text, file);
    RunKeepsInv(text, START, ss);
    RunKeepsPlausible(text, START, ss);
    RunKeepsKeyIff(text, START, ss, last);
    assert LastSnapExact(text, w, file);
    hide Inv, Plausible, CacheSettled, LastSnapExact, Newest, NewestText, StoredText, DedupLossless;
    SettledDedupLosslessIff(text, w, file);
  }

  /** While a file's snapshots are exact, the newest holds its version's text and the document the last. */
  lemma NewestExactText(text: Text, w: World, file: FileId)
    requires Inv(text, w) && SnapsExact(text, w, file)
    ensures VersionOf(w.docs, file) == |Accepted(w, file)|
    ensures var acc, v := Accepted(w, file), Newest(w.snaps, file);
            && (v == None <==> NewestText(w.snaps, file) == None)
            && (v.Some? ==> 1 <= v.value <= |acc| && NewestText(w.snaps, file) == Some(text(acc[v.value - 1]))
                            && StoredText(text, w, file) == Some(text(acc[|acc| - 1])))
  {
    assert DocCounts(w, file);
    hide StoredText, EventsGenuine, CachingExact, NothingForgotten;
    var v := Newest(w.snaps, file);
    if v.Some? {
      assert Exact(text, w, Key(file, v.value), w.snaps[Key(file, v.value)].text);
      StoredIsLastAccepted(text, w, file);
    }
  }

  lemma LastTextIff(text: Text, accepted: seq<Blob>, version: int)
    requires 1 <= version <= |accepted| && AllApart(text, accepted)
    ensures text(accepted[version - 1]) == text(accepted[|accepted| - 1]) <==> version == |accepted|
  {
    assert TellsApart(text, accepted, version);
  }

  /** The guard at any moment, saves in flight included: while the file's snapshots are exact and its
      states have different texts, deduplication loses nothing iff nothing is cached or the newest
      cached version is the stored one. */
  lemma DedupGuardIff(text: Text, w: World, file: FileId)
    requires Inv(text, w) && Plausible(text, w) && SnapsExact(text, w, file) && AllApart(text, Accepted(w, file))
    ensures DedupLossless(text, w, file) <==> Newest(w.snaps, file) in {None, Some(VersionOf(w.docs, file))}
  {
    hide *;
    NewestExactText(text, w, file);
    DedupLosslessIff(text, w, file);
    var acc, v := Accepted(w, file), Newest(w.snaps, file);
    if v.Some? { LastTextIff(text, acc, v.value); }
  }

  /** The same after every run from empty stores whose missed reads of the file were sound. */
  lemma DedupGuardOfRun(text: Text, ss: seq<Step>, file: FileId)
    requires AllApart(text, Accepted(Run(text, START, ss), file)) && ReadsSoundThroughout(text, START, ss, file)
    ensures var w := Run(text, START, ss);
            DedupLossless(text, w, file) <==> Newest(w.snaps, file) in {None, Some(VersionOf(w.docs, file))}
  {
    StartIsSound(text, file);
    RunKeepsInv(text, START, ss);
    RunKeepsPlausible(text, START, ss);
    RunKeepsHistoryIff(text, START, ss, file);
    DedupGuardIff(text, Run(text, START, ss), file);
  }

  /** When every snapshot of the file has been written and is exact, the newest cached text is the stored
      text, so a skipped save never loses a change. */
  lemma SettledDedupIsLossless(text: Text, w: World, file: FileId)
    requires Inv(text, w) && SnapsExact(text, w, file) && CacheSettled(w, file)
    ensures NewestText(w.snaps, file) == StoredText(text, w, file)
    ensures DedupLossless(text, w, file)
  {
    var acc := Accepted(w, file);
    assert DocCounts(w, file);
    if acc != [] {
      var last := Key(file, |acc|);
      assert last in w.snaps;
      assert last in KeysOf(w.snaps, file);
      var v := Newest(w.snaps, file).value;
      assert Exact(text, w, Key(file, v), w.snaps[Key(file, v)].text);
      StoredIsLastAccepted(text, w, file);
    } else {
      forall key | key in w.snaps ensures key.file != file {
        assert key.file == file ==> Exact(text, w, key, w.snaps[key].text);
      }
      assert KeysOf(w.snaps, file) == {};
    }
  }

  /** Every run from empty stores whose backfills of the file are exact when written: once its snapshots
      have settled, the newest one is the stored document's text and deduplication loses nothing. */
  lemma QuiescentCacheIsCurrent(text: Text, ss: seq<Step>, file: FileId)
    requires WritesExactThroughout(text, START, ss, file)
    ensures var w := Run(text, START, ss);
            CacheSettled(w, file) ==> NewestText(w.snaps, file) == StoredText(text, w, file) && DedupLossless(text, w, file)
  {
    StartIsSound(text, file);
    RunKeepsInv(text, START, ss);
    RunKeepsSnapsExact(text, START, ss, file);
    hide Inv, SnapsExact, NewestText, StoredText, DedupLossless;
    var w := Run(text, START, ss);
    if CacheSettled(w, file) { SettledDedupIsLossless(text, w, file); }
  }

  /** An exact backfill at or below the newest cached version leaves the next dedup decision as it was;
      above it, the backfill itself becomes the newest. */
  lemma BackfillAndDedup(text: Text, w: World, x: Write)
    requires Inv(text, w) && HistoryExact(text, w, x.key.file) && x in w.backfilling
    ensures var w' := Next(text, w, WriteBackfill(x));
            var v := Newest(w.snaps, x.key.file);
            if v.Some? && x.key.version <= v.value
            then NewestText(w'.snaps, x.key.file) == NewestText(w.snaps, x.key.file)
            else NewestText(w'.snaps, x.key.file) == Some(x.snap.text)
  {
    hide Newest, NewestText, Inv;
    NewestAfterWrite(w.snaps, x.key, x.snap);
    if x.key in w.snaps {
      assert Exact(text, w, x.key, w.snaps[x.key].text) && Exact(text, w, x.key, x.snap.text);
    }
  }

  /** When the file's snapshots have settled, a backfill leaves the next dedup decision as it was. */
  lemma SettledBackfillKeepsDedup(text: Text, w: World, x: Write)
    requires Inv(text, w) && HistoryExact(text, w, x.key.file) && CacheSettled(w, x.key.file) && x in w.backfilling
    ensures NewestText(Next(text, w, WriteBackfill(x)).snaps, x.key.file) == NewestText(w.snaps, x.key.file)
  {
    var last := Key(x.key.file, |Accepted(w, x.key.file)|);
    assert Exact(text, w, x.key, x.snap.text);
    assert last in w.snaps && last in KeysOf(w.snaps, x.key.file);
    hide Next, NewestText;
    BackfillAndDedup(text, w, x);
  }
}
