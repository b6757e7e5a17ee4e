/** A run that meets every hypothesis of the agreement and deduplication theorems, and runs of the code
    that show where the history goes wrong when one fails. */
module HistoryLimits {
  import opened Wrappers
  import opened Forest
  import opened FilesTable
  import opened EditLog
  import opened MongoStore
  import opened VersionHistory

  const ANYBODY := Stamp("", 0)

  lemma {:induction false} RunAppend(text: Text, w: World, ss: seq<Step>, s: Step)
    ensures Run(text, w, ss + [s]) == Next(text, Run(text, w, ss), s)
    ensures forall f :: CleanRun(text, w, ss + [s], f) <==> CleanRun(text, w, ss, f) && CleanStep(Run(text, w, ss), s, f)
    decreases |ss|
  {
    hide Next, CleanStep;
    if ss == [] {
      assert (ss + [s])[1..] == [];
    } else {
      assert (ss + [s])[1..] == ss[1..] + [s];
      RunAppend(text, Next(text, w, ss[0]), ss[1..], s);
    }
  }

  /** A save that the dedup check lets through, in two steps. */
  lemma AcceptSave(text: Text, ss: seq<Step>, save: Save) returns (ss': seq<Step>)
    requires !Skips(text, Run(text, START, ss).snaps, save)
    ensures var w := Run(text, START, ss);
            && |ss'| == |ss| + 2
            && Run(text, START, ss') ==
               w.(docs := Saved(w.docs, save.file, save.state),
                  saving := w.saving,
                  publishing := w.publishing + multiset{NewEvent(w, save)},
                  caching := w.caching + multiset{NewWrite(text, w, save)},
                  accepted := w.accepted[save.file := Accepted(w, save.file) + [save.state]])
    ensures CleanRun(text, START, ss, save.file) && save.file !in Run(text, START, ss).docs ==> CleanRun(text, START, ss', save.file)
  {
    hide Next, Skips, Run, CleanRun;
    var w := Run(text, START, ss);
    var w1 := w.(saving := w.saving + multiset{save});
    BeginSaveEffect(text, w, save, false);
    CommitSaveEffect(text, w1, save);
    assert w1.saving - multiset{save} == w.saving;
    assert Accepted(w1, save.file) == Accepted(w, save.file);
    RunAppend(text, START, ss, BeginSave(save, false));
    RunAppend(text, START, ss + [BeginSave(save, false)], CommitSave(save));
    ss' := ss + [BeginSave(save, false)] + [CommitSave(save)];
  }

  lemma Deliver(text: Text, ss: seq<Step>, event: Event) returns (ss': seq<Step>)
    requires event in Run(text, START, ss).publishing
    ensures var w := Run(text, START, ss); Run(text, START, ss') == w.(log := w.log + [Edit(event)])
    ensures forall f :: CleanRun(text, START, ss, f) ==> CleanRun(text, START, ss', f)
  {
    hide Next, Run, CleanRun;
    PublishAttemptEffect(text, Run(text, START, ss), event);
    RunAppend(text, START, ss, PublishAttempt(event));
    ss' := ss + [PublishAttempt(event)];
  }

  lemma CacheIt(text: Text, ss: seq<Step>, x: Write) returns (ss': seq<Step>)
    requires x in Run(text, START, ss).caching
    ensures var w := Run(text, START, ss);
            Run(text, START, ss') == w.(caching := w.caching - multiset{x}, snaps := w.snaps[x.key := x.snap])
    ensures forall f :: CleanRun(text, START, ss, f) ==> CleanRun(text, START, ss', f)
  {
    assert forall f :: CleanStep(Run(text, START, ss), WriteSnapshot(x), f);
    hide *;
    WriteSnapshotEffect(text, Run(text, START, ss), x);
    RunAppend(text, START, ss, WriteSnapshot(x));
    ss' := ss + [WriteSnapshot(x)];
  }

  lemma SettledWhenEmpty(text: Text, w: World, file: FileId, state: Blob)
    requires w.caching == multiset{} && w.lostSnaps == {} && file in w.docs && w.docs[file].state == Some(state)
    ensures CacheSettled(w, file) && StoredText(text, w, file) == Some(text(state))
  {
  }

  lemma NewestStays(snaps: Snapshots, key: Key, snap: Snapshot, v: int)
    requires IsNewest(snaps, key.file, v) && key.version < v
    ensures IsNewest(snaps[key := snap], key.file, v)
  {
  }

  function FirstEvent(save: Save): Event {
    Event(save.file, 1, save.state, save.stamp)
  }

  function FirstWrite(text: Text, save: Save): Write {
    Write(Key(save.file, 1), Snapshot(save.room, text(save.state)))
  }

  /** The stores after one save has been accepted, before its goroutines do anything. */
  function JustAccepted(text: Text, save: Save): World {
    START.(docs := map[save.file := Document(None, Some(save.state), 1)],
           publishing := multiset{FirstEvent(save)},
           caching := multiset{FirstWrite(text, save)},
           accepted := map[save.file := [save.state]])
  }

  /** The same once the save has been logged and cached. */
  function Saved1(text: Text, save: Save): World {
    JustAccepted(text, save).(snaps := map[Key(save.file, 1) := Snapshot(save.room, text(save.state))],
                              log := [Edit(FirstEvent(save))],
                              caching := multiset{})
  }

  lemma NothingCachedNothingSkipped(text: Text, snaps: Snapshots, save: Save)
    requires KeysOf(snaps, save.file) == {}
    ensures !Skips(text, snaps, save)
  {
  }

  lemma FirstFacts(text: Text, save: Save)
    ensures START.(docs := Saved(START.docs, save.file, save.state),
                   saving := START.saving,
                   publishing := START.publishing + multiset{NewEvent(START, save)},
                   caching := START.caching + multiset{NewWrite(text, START, save)},
                   accepted := START.accepted[save.file := Accepted(START, save.file) + [save.state]]) == JustAccepted(text, save)
    ensures Run(text, START, []) == START && CleanRun(text, START, [], save.file) && save.file !in START.docs
  {
    assert Accepted(START, save.file) + [save.state] == [save.state];
    assert NewEvent(START, save) == FirstEvent(save) && NewWrite(text, START, save) == FirstWrite(text, save);
    assert Saved(START.docs, save.file, save.state) == map[save.file := Document(None, Some(save.state), 1)];
    hide Next, NewEvent, NewWrite, Saved, Accepted, FirstEvent, FirstWrite;
  }

  lemma FirstAccepted(text: Text, save: Save) returns (ss: seq<Step>)
    ensures Run(text, START, ss) == JustAccepted(text, save) && CleanRun(text, START, ss, save.file)
  {
    NothingCachedNothingSkipped(text, START.snaps, save);
    hide *;
    FirstFacts(text, save);
    ss := AcceptSave(text, [], save);
  }

  lemma FirstSave(text: Text, save: Save) returns (ss: seq<Step>)
    ensures Run(text, START, ss) == Saved1(text, save) && CleanRun(text, START, ss, save.file)
  {
    ss := FirstAccepted(text, save);
    hide Next, Run, CleanRun;
    var w := JustAccepted(text, save);
    ss := Deliver(text, ss, FirstEvent(save));
    var w' := w.(log := [Edit(FirstEvent(save))]);
    assert w.log + [Edit(FirstEvent(save))] == w'.log;
    assert Run(text, START, ss) == w';
    ss := CacheIt(text, ss, FirstWrite(text, save));
    assert w'.caching - multiset{FirstWrite(text, save)} == multiset{};
    assert w'.snaps[Key(save.file, 1) := Snapshot(save.room, text(save.state))] == map[Key(save.file, 1) := Snapshot(save.room, text(save.state))];
  }

  lemma NewestTextIs(text: Text, snaps: Snapshots, save: Save, v: int)
    requires IsNewest(snaps, save.file, v)
    ensures Skips(text, snaps, save) <==> snaps[Key(save.file, v)].text == text(save.state)
  {
    NewestIsUnique(snaps, save.file, v);
  }

  lemma OneCleanRead(text: Text, save: Save)
    ensures var w := Saved1(text, save);
            && CleanStep(w, ReadVersion(save.room, Key(save.file, 1), 1, true), save.file) && CacheSettled(w, save.file)
            && InVersionOrder(w.log, save.file) && HasEvent(w.log, save.file, 1, 1)
            && WithinReach(w.log, save.file, 1, 0, Some(1), 1)
  {
    var w := Saved1(text, save);
    assert IsFor(w.log[0], save.file);
    ConsumedIsUnique(w.log, save.file, 1, 1, 1);
  }

  /** A run that meets every hypothesis of the agreement and deduplication theorems: one save, logged and
      cached, and a read that replays it because the cache could not be read. */
  lemma AgreementIsReached(text: Text, room: RoomId, file: FileId, a: Blob) returns (ss: seq<Step>)
    ensures CleanRun(text, START, ss, file)
    ensures var w, key := Run(text, START, ss), Key(file, 1);
            && Inv(text, w) && Faithful(text, w, file) && CacheSettled(w, file)
            && |w.log| == 1 && InVersionOrder(w.log, file) && HasEvent(w.log, file, 1, 1)
            && WithinReach(w.log, file, 1, 0, Some(1), 1)
            && key in w.snaps && Write(key, Snapshot(room, text(a))) in w.backfilling
  {
    hide *;
    var save, key := Save(room, file, a, ANYBODY), Key(file, 1);
    ss := FirstSave(text, save);
    var w := Saved1(text, save);
    OneCleanRead(text, save);
    ReadFacts(text, save);
    ReadVersionEffect(text, w, room, key, 1, true);
    RunAppend(text, START, ss, ReadVersion(room, key, 1, true));
    ss := ss + [ReadVersion(room, key, 1, true)];
    StartIsSound(text, file);
    RunKeepsFaithful(text, START, ss, file);
  }

  lemma ReadFacts(text: Text, save: Save)
    ensures var w := Saved1(text, save);
            && |w.log| == 1 && Key(save.file, 1) in w.snaps
            && Replayed(text, w, Key(save.file, 1), 1) == text(save.state)
            && forall b :: CacheSettled(w, save.file) ==> CacheSettled(w.(backfilling := b), save.file)
  {
    OneEventReplay(FirstEvent(save), 1);
    hide Replay;
  }

  /** While the newest snapshot is on its way, going back to the text before is taken for no change:
      the save is skipped and the stored document keeps the other text. */
  lemma SkippedWhileInFlight(text: Text, room: RoomId, file: FileId, a: Blob, b: Blob) returns (ss: seq<Step>)
    requires text(a) != text(b)
    ensures var w := Run(text, START, ss);
            Skips(text, w.snaps, Save(room, file, a, ANYBODY)) && StoredText(text, w, file) == Some(text(b))
  {
    var first, second := Save(room, file, a, ANYBODY), Save(room, file, b, ANYBODY);
    ss := FirstSave(text, first);
    hide Next, Run;
    NewestTextIs(text, Saved1(text, first).snaps, first, 1);
    NewestTextIs(text, Saved1(text, first).snaps, second, 1);
    ss := AcceptSave(text, ss, second);
  }

  /** The stores after version 7 of a file with one version has been asked for. */
  function Poisoned(text: Text, save: Save): World {
    var w := Saved1(text, save);
    w.(snaps := w.snaps[Key(save.file, 7) := Snapshot(save.room, text(save.state))])
  }

  /** Reading version 7 of a file that has one version caches the current text as version 7. */
  lemma FutureVersionIsCached(text: Text, save: Save) returns (ss: seq<Step>)
    ensures Run(text, START, ss) == Poisoned(text, save)
  {
    var future := Write(Key(save.file, 7), Snapshot(save.room, text(save.state)));
    ss := FirstSave(text, save);
    var w := Saved1(text, save);
    OneEventReplay(FirstEvent(save), 7);
    hide Next, Run, Replay;
    ReadVersionEffect(text, w, save.room, future.key, 1, false);
    RunAppend(text, START, ss, ReadVersion(save.room, future.key, 1, false));
    ss := ss + [ReadVersion(save.room, future.key, 1, false)];
    BackfillEffect(text, Run(text, START, ss), future);
    RunAppend(text, START, ss, WriteBackfill(future));
    ss := ss + [WriteBackfill(future)];
  }

  lemma PoisonedFacts(text: Text, first: Save, second: Save)
    requires first.file == second.file
    ensures var w := Poisoned(text, first);
            && IsNewest(w.snaps, first.file, 7) && w.snaps[Key(first.file, 7)].text == text(first.state)
            && w.caching == multiset{} && w.lostSnaps == {}
            && NewWrite(text, w, second) == Write(Key(first.file, 2), Snapshot(second.room, text(second.state)))
            && first.file in Saved(w.docs, first.file, second.state)
            && Saved(w.docs, first.file, second.state)[first.file].state == Some(second.state)
            && VersionOf(Saved(w.docs, first.file, second.state), first.file) == 2
  {
  }

  /** Asking for a version that does not exist yet caches the current text under it. From then on that
      text counts as the newest: with nothing on its way and nothing lost, a later change back to it is
      skipped although the stored document differs. */
  lemma FutureVersionPoisonsDedup(text: Text, room: RoomId, file: FileId, a: Blob, b: Blob) returns (ss: seq<Step>)
    requires text(a) != text(b)
    ensures var w := Run(text, START, ss);
            && CacheSettled(w, file) && Newest(w.snaps, file) == Some(7) && VersionOf(w.docs, file) == 2
            && Skips(text, w.snaps, Save(room, file, a, ANYBODY)) && StoredText(text, w, file) == Some(text(b))
  {
    hide *;
    var first, second := Save(room, file, a, ANYBODY), Save(room, file, b, ANYBODY);
    ss := FutureVersionIsCached(text, first);
    PoisonedFacts(text, first, second);
    var w := Run(text, START, ss);
    var x := NewWrite(text, w, second);
    NewestTextIs(text, w.snaps, second, 7);
    ss := AcceptSave(text, ss, second);
    ss := CacheIt(text, ss, x);
    var w' := Run(text, START, ss);
    NewestStays(w.snaps, x.key, x.snap, 7);
    NewestIsUnique(w'.snaps, file, 7);
    NewestTextIs(text, w'.snaps, first, 7);
    assert w'.caching == multiset{};
    SettledWhenEmpty(text, w', file, b);
  }

  lemma OverwriteFacts(text: Text, first: Save, second: Save)
    requires first.file == second.file
    ensures var w, key := Saved1(text, first), Key(first.file, 2);
            && IsNewest(w.snaps, first.file, 1) && w.snaps[Key(first.file, 1)].text == text(first.state)
            && key !in w.snaps && |w.log| == 1 && Replay(w.log, first.file, 2, 1) == first.state
            && w.caching == multiset{} && w.backfilling == multiset{} && w.lostSnaps == {}
            && NewWrite(text, w, second) == Write(key, Snapshot(second.room, text(second.state)))
            && first.file in Saved(w.docs, first.file, second.state)
            && Saved(w.docs, first.file, second.state)[first.file].state == Some(second.state)
            && VersionOf(Saved(w.docs, first.file, second.state), first.file) == 2
            && IsNewest(w.snaps[key := Snapshot(second.room, text(second.state))][key := Snapshot(first.room, text(first.state))], first.file, 2)
  {
    OneEventReplay(FirstEvent(first), 2);
    hide Replay;
  }

  lemma ReplayedIs(text: Text, w: World, key: Key, n: nat)
    requires n <= |w.log|
    ensures Replayed(text, w, key, n) == text(Replay(w.log, key.file, key.version, n))
  {
  }

  /** Version 2 has been accepted and is read before its event is logged: the replay ends with the text of
      version 1. Its snapshot is written, and then the backfill overwrites it. With nothing on its way or
      lost, and the newest cached version the stored one, a change back to version 1 is skipped. */
  lemma BackfillOverwrites(text: Text, room: RoomId, file: FileId, a: Blob, b: Blob) returns (ss: seq<Step>)
    requires text(a) != text(b)
    ensures var w := Run(text, START, ss);
            && CacheSettled(w, file) && Newest(w.snaps, file) == Some(2) && VersionOf(w.docs, file) == 2
            && Skips(text, w.snaps, Save(room, file, a, ANYBODY)) && StoredText(text, w, file) == Some(text(b))
  {
    hide *;
    var first, second, key := Save(room, file, a, ANYBODY), Save(room, file, b, ANYBODY), Key(file, 2);
    ss := FirstSave(text, first);
    OverwriteFacts(text, first, second);
    var w1 := Run(text, START, ss);
    var right, wrong := Write(key, Snapshot(room, text(b))), Write(key, Snapshot(room, text(a)));
    NewestTextIs(text, w1.snaps, second, 1);
    ss := AcceptSave(text, ss, second);
    var w2 := Run(text, START, ss);
    ReplayedIs(text, w2, key, 1);
    ReadVersionEffect(text, w2, room, key, 1, false);
    RunAppend(text, START, ss, ReadVersion(room, key, 1, false));
    ss := ss + [ReadVersion(room, key, 1, false)];
    ss := CacheIt(text, ss, right);
    BackfillEffect(text, Run(text, START, ss), wrong);
    RunAppend(text, START, ss, WriteBackfill(wrong));
    ss := ss + [WriteBackfill(wrong)];
    var w := Run(text, START, ss);
    NewestIsUnique(w.snaps, file, 2);
    NewestTextIs(text, w.snaps, first, 2);
    assert w.caching == multiset{};
    SettledWhenEmpty(text, w, file, b);
  }

  /** The stores after a first save whose event and snapshot both failed. */
  function Unlogged(save: Save): World {
    START.(docs := map[save.file := Document(None, Some(save.state), 1)], accepted := map[save.file := [save.state]],
           lostEvents := {Key(save.file, 1)}, lostSnaps := {Key(save.file, 1)})
  }

  lemma FirstSaveLost(text: Text, save: Save) returns (ss: seq<Step>)
    ensures Run(text, START, ss) == Unlogged(save)
  {
    ss := FirstAccepted(text, save);
    hide Next, Run;
    var w, x, lost := JustAccepted(text, save), FirstWrite(text, save), FirstEvent(save);
    LoseSnapshotEffect(text, w, x);
    RunAppend(text, START, ss, LoseSnapshot(x));
    ss := ss + [LoseSnapshot(x)];
    var w' := w.(caching := multiset{}, lostSnaps := {x.key});
    assert w.caching - multiset{x} == multiset{};
    assert Run(text, START, ss) == w';
    PublishReturnEffect(text, w', lost);
    RunAppend(text, START, ss, PublishReturn(lost));
    ss := ss + [PublishReturn(lost)];
    assert w'.publishing - multiset{lost} == multiset{};
  }

  /** If the event and the snapshot of version 1 are lost, version 1 reads as version 2, even when the
      second state contains the first. */
  lemma LostEventMisreads(text: Text, room: RoomId, file: FileId, a: Blob, b: Blob) returns (ss: seq<Step>)
    requires a < b
    ensures var w := Run(text, START, ss);
            && Accepted(w, file) == [a, b] && |w.log| == 1 && Key(file, 1) !in w.snaps
            && Replay(w.log, file, 1, 1) == b
  {
    ss := FirstSaveLost(text, Save(room, file, a, ANYBODY));
    var event: Event;
    ss, event := SecondSaveLogged(text, Save(room, file, a, ANYBODY), Save(room, file, b, ANYBODY), ss);
    assert [] + [Edit(event)] == [Edit(event)];
    assert Accepted(Run(text, START, ss), file) == Run(text, START, ss).accepted[file];
    hide *;
    OneEventReplay(event, 1);
  }

  lemma SecondSaveLogged(text: Text, first: Save, second: Save, ss: seq<Step>) returns (ss': seq<Step>, event: Event)
    requires Run(text, START, ss) == Unlogged(first) && second.file == first.file
    ensures event == Event(first.file, 2, second.state, second.stamp)
    ensures var w := Run(text, START, ss');
            && w.log == [] + [Edit(event)] && Key(first.file, 1) !in w.snaps
            && first.file in w.accepted && w.accepted[first.file] == [first.state, second.state]
  {
    var w := Unlogged(first);
    NothingCachedNothingSkipped(text, w.snaps, second);
    event := NewEvent(w, second);
    assert event == Event(first.file, 2, second.state, second.stamp);
    assert w.log == [] && Key(first.file, 1) !in w.snaps && Accepted(w, first.file) == [first.state];
    assert [first.state] + [second.state] == [first.state, second.state];
    hide *;
    ss' := AcceptSave(text, ss, second);
    ss' := Deliver(text, ss', event);
  }

  lemma OneEventReplay(event: Event, target: int)
    ensures Replay([Edit(event)], event.file, target, 1) == event.blob
  {
    ConsumedIsUnique([Edit(event)], event.file, target, 1, 1);
    assert IsFor([Edit(event)][0], event.file);
  }
}
