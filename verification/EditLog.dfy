/** The Kafka topic `edit-events` and the loops that read it back. A Yjs blob is the set of operations
    it carries; applying one to a document joins the two sets. */
module EditLog {
  import opened Wrappers
  import opened Forest

  /** A Yjs operation, named by client and clock. */
  datatype Op = Op(client: nat, clock: nat)

  type Blob = set<Op>

  /** Who saved a state, and when. */
  datatype Stamp = Stamp(user: string, savedAt: nat)

  datatype Event = Event(file: FileId, version: int, blob: Blob, stamp: Stamp)

  datatype HistoryEntry = HistoryEntry(version: int, stamp: Stamp)

  /** A message of the topic; one that is no JSON event is skipped by every reader. */
  datatype Message = Garbage | Edit(event: Event)

  predicate IsFor(m: Message, file: FileId) {
    m.Edit? && m.event.file == file
  }

  /** The message that makes a reader of the file stop. */
  predicate StopsAt(m: Message, file: FileId, target: int) {
    IsFor(m, file) && m.event.version >= target
  }

  // ---- the specification: which messages count, and their join ---------------------------

  /** A reader of the first n messages reads m of them: up to and including the first that stops it. */
  ghost predicate StopsAfter(log: seq<Message>, file: FileId, target: int, n: nat, m: nat)
    requires n <= |log|
  {
    && m <= n
    && (forall i :: 0 <= i < m - 1 ==> !StopsAt(log[i], file, target))
    && (m < n ==> m > 0 && StopsAt(log[m - 1], file, target))
  }

  function Consumed(log: seq<Message>, file: FileId, target: int, n: nat): (m: nat)
    requires n <= |log|
    ensures StopsAfter(log, file, target, n, m)
  {
    if n == 0 then 0
    else
      var m := Consumed(log, file, target, n - 1);
      if m < n - 1 || (m > 0 && StopsAt(log[m - 1], file, target)) then m else n
  }

  lemma ConsumedIsUnique(log: seq<Message>, file: FileId, target: int, n: nat, m: nat)
    requires n <= |log| && StopsAfter(log, file, target, n, m)
    ensures m == Consumed(log, file, target, n)
  {
  }

  /** All operations of the file among the first m messages. */
  ghost function Joined(log: seq<Message>, file: FileId, m: nat): Blob
    requires m <= |log|
  {
    set i, op | 0 <= i < m && IsFor(log[i], file) && op in log[i].event.blob :: op
  }

  /** What replaying the first n messages to the target version must end with. */
  ghost function Replay(log: seq<Message>, file: FileId, target: int, n: nat): Blob
    requires n <= |log|
  {
    Joined(log, file, Consumed(log, file, target, n))
  }

  /** The message that ended the replay, if one did. */
  function Reached(log: seq<Message>, file: FileId, target: int, n: nat): Option<Event>
    requires n <= |log|
  {
    var m := Consumed(log, file, target, n);
    if m > 0 && StopsAt(log[m - 1], file, target) then Some(log[m - 1].event) else None
  }

  function EventsOf(log: seq<Message>, file: FileId, m: nat): seq<Event>
    requires m <= |log|
  {
    if m == 0 then []
    else EventsOf(log, file, m - 1) + if IsFor(log[m - 1], file) then [log[m - 1].event] else []
  }

  /** The first event of the file to reach the target among the first n messages is the target's own. */
  predicate OwnEventFirst(log: seq<Message>, file: FileId, target: int, n: nat)
    requires n <= |log|
  {
    var r := Reached(log, file, target, n);
    r.Some? && r.value.version == target
  }

  function EntriesOf(log: seq<Message>, file: FileId, m: nat): (entries: seq<HistoryEntry>)
    requires m <= |log|
    ensures var es := EventsOf(log, file, m);
            |entries| == |es| && forall i :: 0 <= i < |es| ==> entries[i] == HistoryEntry(es[i].version, es[i].stamp)
  {
    if m == 0 then []
    else
      var e := log[m - 1];
      EntriesOf(log, file, m - 1) + if IsFor(e, file) then [HistoryEntry(e.event.version, e.event.stamp)] else []
  }

  lemma JoinedStep(log: seq<Message>, file: FileId, m: nat)
    requires m < |log|
    ensures Joined(log, file, m + 1) == Joined(log, file, m) + if IsFor(log[m], file) then log[m].event.blob else {}
  {
  }

  // ---- the readers -----------------------------------------------------------------------

  /** How many messages a reader bounded by the high watermark fetches at most. The offset starts at
      0 whatever the first retained offset is, so one message is fetched even if none lies below. */
  function Budget(first: nat, high: int, fetchable: nat): (n: nat)
    ensures n <= fetchable
  {
    if high <= 0 then 0
    else
      var below := if high - first > 1 then high - first else 1;
      if below < fetchable then below else fetchable
  }

  /** Exactly the messages that are looked at: those that can be fetched and lie below the watermark, and
      the first one if the topic has ever held any. */
  lemma ReadsBelowWatermark(first: nat, high: int, fetchable: nat, i: nat)
    ensures i < Budget(first, high, fetchable) <==> i < fetchable && high > 0 && (i == 0 || first + i < high)
  {
  }

  /** An event of the file's version can be fetched and lies below the watermark, if that is known. */
  ghost predicate WithinReach(log: seq<Message>, file: FileId, version: int, first: nat, high: Option<int>, fetchable: nat) {
    exists i: nat :: i < fetchable && i < |log| && (high.Some? ==> first + i < high.value)
                     && log[i].Edit? && log[i].event.file == file && log[i].event.version == version
  }

  /** replayYjsToVersion: `log` starts at offset `first`, and fetching fails after `fetchable` messages. */
  method ReplayYjsToVersion(log: seq<Message>, first: nat, high: int, fetchable: nat, file: FileId, target: int) returns (doc: Blob)
    requires fetchable <= |log|
    ensures doc == Replay(log, file, target, Budget(first, high, fetchable))
  {
    doc := {};
    var offset, next := 0, 0;
    ghost var n := Budget(first, high, fetchable);
    while offset < high
      invariant next <= n && offset == if next == 0 then 0 else first + next
      invariant doc == Joined(log, file, next)
      invariant forall i :: 0 <= i < next ==> !StopsAt(log[i], file, target)
      decreases |log| - next
    {
      if next == fetchable { break; }
      var message := log[next];
      offset := first + next + 1;
      JoinedStep(log, file, next);
      next := next + 1;
      if !IsFor(message, file) { continue; }
      doc := doc + message.event.blob;
      if message.event.version >= target { break; }
    }
    ConsumedIsUnique(log, file, target, n, next);
  }

  /** replayYjsToVersionWithTimeout: reads until the deadline cuts it off. */
  method ReplayYjsToVersionWithTimeout(log: seq<Message>, fetchable: nat, file: FileId, target: int) returns (doc: Blob)
    requires fetchable <= |log|
    ensures doc == Replay(log, file, target, fetchable)
  {
    doc := {};
    var next := 0;
    while true
      invariant next <= fetchable
      invariant doc == Joined(log, file, next)
      invariant forall i :: 0 <= i < next ==> !StopsAt(log[i], file, target)
      decreases fetchable - next
    {
      if next == fetchable { break; }
      var message := log[next];
      JoinedStep(log, file, next);
      next := next + 1;
      if !IsFor(message, file) { continue; }
      doc := doc + message.event.blob;
      if message.event.version >= target { break; }
    }
    ConsumedIsUnique(log, file, target, fetchable, next);
  }

  /** readHistoryEntries: lists the file's events; a positive maxVersion stops it like a replay. */
  method ReadHistoryEntries(log: seq<Message>, first: nat, high: int, fetchable: nat, file: FileId, maxVersion: int)
    returns (entries: seq<HistoryEntry>)
    requires fetchable <= |log|
    ensures var n := Budget(first, high, fetchable);
            entries == EntriesOf(log, file, if maxVersion > 0 then Consumed(log, file, maxVersion, n) else n)
  {
    entries := [];
    var offset, next := 0, 0;
    ghost var n := Budget(first, high, fetchable);
    while offset < high
      invariant next <= n && offset == if next == 0 then 0 else first + next
      invariant entries == EntriesOf(log, file, next)
      invariant maxVersion > 0 ==> forall i :: 0 <= i < next ==> !StopsAt(log[i], file, maxVersion)
      decreases |log| - next
    {
      if next == fetchable { break; }
      var message := log[next];
      offset := first + next + 1;
      next := next + 1;
      if !IsFor(message, file) { continue; }
      entries := entries + [HistoryEntry(message.event.version, message.event.stamp)];
      if maxVersion > 0 && message.event.version >= maxVersion { break; }
    }
    if maxVersion > 0 { ConsumedIsUnique(log, file, maxVersion, n, next); }
  }

  /** readHistoryEntriesWithTimeout: the same for what can be read before the deadline. */
  method ReadHistoryEntriesWithTimeout(log: seq<Message>, fetchable: nat, file: FileId, maxVersion: int)
    returns (entries: seq<HistoryEntry>)
    requires fetchable <= |log|
    ensures entries == EntriesOf(log, file, if maxVersion > 0 then Consumed(log, file, maxVersion, fetchable) else fetchable)
  {
    entries := [];
    var next := 0;
    while true
      invariant next <= fetchable
      invariant entries == EntriesOf(log, file, next)
      invariant maxVersion > 0 ==> forall i :: 0 <= i < next ==> !StopsAt(log[i], file, maxVersion)
      decreases fetchable - next
    {
      if next == fetchable { break; }
      var message := log[next];
      next := next + 1;
      if !IsFor(message, file) { continue; }
      entries := entries + [HistoryEntry(message.event.version, message.event.stamp)];
      if maxVersion > 0 && message.event.version >= maxVersion { break; }
    }
    if maxVersion > 0 { ConsumedIsUnique(log, file, maxVersion, fetchable, next); }
  }

  // ---- properties of replay, with no assumption on order -----------------------------------

  lemma {:induction false} JoinedIsUnionOfEvents(log: seq<Message>, file: FileId, m: nat)
    requires m <= |log|
    ensures Joined(log, file, m) == set e, op | e in EventsOf(log, file, m) && op in e.blob :: op
  {
    if m > 0 {
      JoinedIsUnionOfEvents(log, file, m - 1);
      JoinedStep(log, file, m - 1);
      var es, fs := EventsOf(log, file, m - 1), EventsOf(log, file, m);
      assert forall e :: e in fs <==> e in es || (IsFor(log[m - 1], file) && e == log[m - 1].event);
    }
  }

  /** Which messages a list of events comes from. */
  ghost predicate IsListing(log: seq<Message>, file: FileId, m: nat, places: seq<nat>, es: seq<Event>) {
    && |places| == |es|
    && (forall i, j :: 0 <= i < j < |places| ==> places[i] < places[j])
    && (forall i :: 0 <= i < |es| ==> places[i] < m && places[i] < |log| && log[places[i]] == Edit(es[i]))
    && (forall k :: 0 <= k < m && k < |log| && log[k].Edit? && log[k].event.file == file ==> k in places)
    && (forall i :: 0 <= i < |es| ==> es[i].file == file)
  }

  /** The history list shows the file's events, all of those read and no others, in log order. */
  lemma {:induction false} EventsInLogOrder(log: seq<Message>, file: FileId, m: nat) returns (places: seq<nat>)
    requires m <= |log|
    ensures IsListing(log, file, m, places, EventsOf(log, file, m))
    decreases m
  {
    if m == 0 {
      places := [];
    } else {
      places := EventsInLogOrder(log, file, m - 1);
      if log[m - 1].Edit? && log[m - 1].event.file == file {
        var before := places;
        places := places + [m - 1];
        assert forall k :: k in before ==> k in places;
        assert places[|before|] == m - 1;
      }
    }
  }

  /** The history list up to a version is exactly what a replay to that version joins. */
  lemma ReplayJoinsListedEntries(log: seq<Message>, file: FileId, target: int, n: nat)
    requires n <= |log|
    ensures Replay(log, file, target, n) ==
            set e, op | e in EventsOf(log, file, Consumed(log, file, target, n)) && op in e.blob :: op
  {
    JoinedIsUnionOfEvents(log, file, Consumed(log, file, target, n));
  }

  /** Once some message stops the replay, reading further, or after more appends, changes nothing:
      the two variants agree whenever neither is cut short before that message. */
  lemma ReplaySettles(log: seq<Message>, more: seq<Message>, file: FileId, target: int, n: nat, n': nat)
    requires n <= |log| && n <= n' <= |log + more|
    requires Reached(log, file, target, n).Some?
    ensures Replay(log + more, file, target, n') == Replay(log, file, target, n)
    ensures Reached(log + more, file, target, n') == Reached(log, file, target, n)
  {
    var m := Consumed(log, file, target, n);
    assert forall i :: 0 <= i < m ==> (log + more)[i] == log[i];
    ConsumedIsUnique(log + more, file, target, n', m);
    SameJoined(log, log + more, file, m);
  }

  lemma SameJoined(log: seq<Message>, log': seq<Message>, file: FileId, m: nat)
    requires m <= |log| && m <= |log'| && forall i :: 0 <= i < m ==> log[i] == log'[i]
    ensures Joined(log, file, m) == Joined(log', file, m)
  {
  }

  /** The log with message j delivered once more at place i. */
  function Redelivered(log: seq<Message>, j: nat, i: nat): (log': seq<Message>)
    requires j < i <= |log|
    ensures |log'| == |log| + 1 && log'[i] == log[j]
    ensures forall k :: 0 <= k < i ==> log'[k] == log[k]
    ensures forall k :: i < k <= |log| ==> log'[k] == log[k - 1]
  {
    log[..i] + [log[j]] + log[i..]
  }

  lemma RedeliveredJoins(log: seq<Message>, file: FileId, j: nat, i: nat, m: nat)
    requires j < i <= |log| && i <= m <= |log|
    ensures Joined(Redelivered(log, j, i), file, m + 1) == Joined(log, file, m)
  {
    var log' := Redelivered(log, j, i);
    hide Redelivered;
    forall op ensures op in Joined(log, file, m) <==> op in Joined(log', file, m + 1) {
      if op in Joined(log, file, m) {
        var k :| 0 <= k < m && IsFor(log[k], file) && op in log[k].event.blob;
        assert log'[if k < i then k else k + 1] == log[k];
      }
    }
  }

  /** A repeated delivery of an earlier message does not change a replay. */
  lemma RepeatChangesNothing(log: seq<Message>, file: FileId, target: int, n: nat, j: nat, i: nat)
    requires j < i <= n <= |log|
    ensures Replay(Redelivered(log, j, i), file, target, n + 1) == Replay(log, file, target, n)
  {
    var log' := Redelivered(log, j, i);
    var m := Consumed(log, file, target, n);
    hide Redelivered, Joined;
    if m < i || (m == i && StopsAt(log[m - 1], file, target)) {
      ConsumedIsUnique(log', file, target, n + 1, m);
      SameJoined(log, log', file, m);
    } else {
      ConsumedIsUnique(log', file, target, n + 1, m + 1);
      RedeliveredJoins(log, file, j, i, m);
    }
  }

  // ---- agreement with what was accepted -------------------------------------------------------

  /** Every event of the file carries the blob that was accepted at its version. */
  ghost predicate Genuine(log: seq<Message>, file: FileId, accepted: seq<Blob>) {
    forall i :: 0 <= i < |log| && IsFor(log[i], file) ==>
                  1 <= log[i].event.version <= |accepted| && log[i].event.blob == accepted[log[i].event.version - 1]
  }

  /** Each accepted blob contains the one before it. */
  ghost predicate Growing(accepted: seq<Blob>) {
    forall i, j :: 0 <= i <= j < |accepted| ==> accepted[i] <= accepted[j]
  }

  ghost predicate StrictlyGrowing(accepted: seq<Blob>) {
    && (forall i :: 0 <= i < |accepted| ==> accepted[i] != {})
    && (forall i, j :: 0 <= i < j < |accepted| ==> accepted[i] < accepted[j])
  }

  /** The file's events were appended in version order. */
  ghost predicate InVersionOrder(log: seq<Message>, file: FileId) {
    forall i, j :: 0 <= i <= j < |log| && IsFor(log[i], file) && IsFor(log[j], file) ==> log[i].event.version <= log[j].event.version
  }

  ghost predicate HasEvent(log: seq<Message>, file: FileId, version: int, n: nat)
    requires n <= |log|
  {
    exists i :: 0 <= i < n && IsFor(log[i], file) && log[i].event.version == version
  }

  /** If blobs only grow, a replay ends with the blob accepted at the version that stopped it; nothing
      is asked of the order of the log. */
  lemma ReplayGivesReachedVersion(log: seq<Message>, file: FileId, accepted: seq<Blob>, target: int, n: nat)
    requires n <= |log| && Genuine(log, file, accepted) && Growing(accepted)
    requires Reached(log, file, target, n).Some?
    ensures 1 <= Reached(log, file, target, n).value.version <= |accepted|
    ensures Replay(log, file, target, n) == accepted[Reached(log, file, target, n).value.version - 1]
  {
  }

  /** In version order, and with the target's own event among the messages read, the event that stops
      the replay is the target's. */
  lemma OrderedLogReachesTarget(log: seq<Message>, file: FileId, target: int, n: nat)
    requires n <= |log| && InVersionOrder(log, file) && HasEvent(log, file, target, n)
    ensures OwnEventFirst(log, file, target, n)
  {
  }

  /** When the stopping event is the target's own, the replay is exact iff every event of the file read
      before it is contained in the accepted blob. */
  lemma ReplayExactIffContained(log: seq<Message>, file: FileId, accepted: seq<Blob>, target: int, n: nat)
    requires n <= |log| && Genuine(log, file, accepted) && OwnEventFirst(log, file, target, n)
    ensures 1 <= target <= |accepted|
    ensures Replay(log, file, target, n) == accepted[target - 1] <==>
            forall i :: 0 <= i < Consumed(log, file, target, n) && IsFor(log[i], file) ==> log[i].event.blob <= accepted[target - 1]
  {
  }

  /** The highest version among the first m messages, 0 if the file has none. */
  function Highest(log: seq<Message>, file: FileId, m: nat): int
    requires m <= |log|
  {
    if m == 0 then 0
    else
      var h := Highest(log, file, m - 1);
      if IsFor(log[m - 1], file) && log[m - 1].event.version > h then log[m - 1].event.version else h
  }

  lemma {:induction false} JoinedIsHighest(log: seq<Message>, file: FileId, accepted: seq<Blob>, m: nat)
    requires m <= |log| && Genuine(log, file, accepted) && Growing(accepted)
    ensures 0 <= Highest(log, file, m) <= |accepted|
    ensures Joined(log, file, m) == if Highest(log, file, m) == 0 then {} else accepted[Highest(log, file, m) - 1]
  {
    if m == 0 {
    } else {
      JoinedIsHighest(log, file, accepted, m - 1);
      JoinedStep(log, file, m - 1);
      hide Joined;
    }
  }

  lemma {:induction false} HighestBelow(log: seq<Message>, file: FileId, target: int, m: nat)
    requires m <= |log| && target >= 1 && forall i :: 0 <= i < m ==> !StopsAt(log[i], file, target)
    ensures Highest(log, file, m) < target
  {
    if m > 0 { HighestBelow(log, file, target, m - 1); }
  }

  /** The highest version that a replay has read is its target iff the target's own event stopped it. */
  lemma HighestIsTargetIff(log: seq<Message>, file: FileId, target: int, n: nat)
    requires n <= |log| && target >= 1
    ensures Highest(log, file, Consumed(log, file, target, n)) == target <==> OwnEventFirst(log, file, target, n)
  {
    var m := Consumed(log, file, target, n);
    if Reached(log, file, target, n).Some? {
      HighestBelow(log, file, target, m - 1);
    } else {
      HighestBelow(log, file, target, m);
    }
  }

  /** If blobs grow, a replay ends with the state of the highest version it has read, or with nothing. */
  lemma ReplayIsHighest(log: seq<Message>, file: FileId, accepted: seq<Blob>, target: int, n: nat)
    requires n <= |log| && Genuine(log, file, accepted) && Growing(accepted)
    ensures var h := Highest(log, file, Consumed(log, file, target, n));
            0 <= h <= |accepted| && Replay(log, file, target, n) == if h == 0 then {} else accepted[h - 1]
  {
    JoinedIsHighest(log, file, accepted, Consumed(log, file, target, n));
  }

  /** If blobs grow strictly, a replay gives the state accepted at its target exactly when the first
      event to reach the target is the target's own: a missing or late event always shows, and beyond
      the last accepted version no replay is right. */
  lemma ReplayRightIffOwnEventFirst(log: seq<Message>, file: FileId, accepted: seq<Blob>, target: int, n: nat)
    requires n <= |log| && Genuine(log, file, accepted) && StrictlyGrowing(accepted) && target >= 1
    ensures target <= |accepted| && Replay(log, file, target, n) == accepted[target - 1] <==> OwnEventFirst(log, file, target, n)
  {
    assert Growing(accepted);
    ReplayIsHighest(log, file, accepted, target, n);
    HighestIsTargetIff(log, file, target, n);
  }
}
