/** The execution lock of all executors as a timed transition system: SET NX with a 30 s expiry, the
    run goroutine with its deferred DEL, and shutdown through the wait group. */
module ExecutionLock {
  import opened Channels

  /** Seconds until an acquired lock expires. */
  const TTL := 30.0

  /** A run is live until its deferred delete of the lock has been issued. */
  datatype Phase = Working | Announced | Released

  datatype Outcome = ExecutionDone | ExecutionError

  datatype Run = Run(pod: nat, room: string, file: string, start: real, phase: Phase)

  function KeyOf(r: Run): string {
    LockKey(r.room, r.file)
  }

  /** `locks` maps a key to its expiry. `waiting` is each pod's wait group. The rest is history: the
      terminal events and lock deletes attempted by each run, the runs that finished, and the locks, by
      key and expiry, whose delete failed or never came because the pod crashed. */
  datatype Cluster = Cluster(
    now: real,
    locks: map<string, real>,
    runs: map<nat, Run>,
    nextRun: nat,
    waiting: map<nat, nat>,
    stopped: set<nat>,
    drained: set<nat>,
    events: multiset<nat>,
    deletes: multiset<nat>,
    finished: set<nat>,
    orphaned: set<(string, real)>)

  const START := Cluster(0.0, map[], map[], 0, map[], {}, {}, multiset{}, multiset{}, {}, {})

  datatype Step =
    | Tick(seconds: real)
    | Execute(pod: nat, room: string, file: string, redisFails: bool)
    | Announce(run: nat, outcome: Outcome)
    | Release(run: nat, fails: bool)
    | Finish(run: nat)
    | GracefulStop(pod: nat)
    | WaitReturns(pod: nat)
    | Crash(pod: nat)

  predicate Live(c: Cluster, r: nat) {
    r in c.runs && c.runs[r].phase != Released
  }

  /** A key whose expiry has passed is no longer there. */
  predicate Held(c: Cluster, key: string) {
    key in c.locks && c.now < c.locks[key]
  }

  function Waiting(c: Cluster, pod: nat): nat {
    if pod in c.waiting then c.waiting[pod] else 0
  }

  predicate IsLiveFor(c: Cluster, r: nat, room: string, file: string) {
    Live(c, r) && c.runs[r].room == room && c.runs[r].file == file
  }

  // ---- when a step happens -------------------------------------------------------------

  predicate Accepts(c: Cluster, s: Step) {
    s.Execute? && s.pod !in c.stopped && !s.redisFails && !Held(c, LockKey(s.room, s.file))
  }

  predicate Announces(c: Cluster, s: Step) {
    s.Announce? && s.run in c.runs && c.runs[s.run].phase == Working
  }

  predicate Releases(c: Cluster, s: Step) {
    s.Release? && s.run in c.runs && c.runs[s.run].phase == Phase.Announced
  }

  predicate Finishes(c: Cluster, s: Step) {
    s.Finish? && s.run in c.runs && c.runs[s.run].phase == Phase.Released
  }

  function NewRun(c: Cluster, s: Step): Run
    requires s.Execute?
  {
    Run(s.pod, s.room, s.file, c.now, Working)
  }

  // ---- the state after a step, field by field ---------------------------------------------

  function NowNext(c: Cluster, s: Step): real {
    if s.Tick? && s.seconds > 0.0 then c.now + s.seconds else c.now
  }

  function LocksNext(c: Cluster, s: Step): map<string, real> {
    if Accepts(c, s) then c.locks[LockKey(s.room, s.file) := c.now + TTL]
    else if Releases(c, s) && !s.fails then c.locks - {KeyOf(c.runs[s.run])}
    else c.locks
  }

  function RunsNext(c: Cluster, s: Step): map<nat, Run> {
    if Accepts(c, s) then c.runs[c.nextRun := NewRun(c, s)]
    else if Announces(c, s) then c.runs[s.run := c.runs[s.run].(phase := Phase.Announced)]
    else if Releases(c, s) then c.runs[s.run := c.runs[s.run].(phase := Phase.Released)]
    else if Finishes(c, s) then c.runs - {s.run}
    else if s.Crash? then map r | r in c.runs && c.runs[r].pod != s.pod :: c.runs[r]
    else c.runs
  }

  function WaitingNext(c: Cluster, s: Step): map<nat, nat> {
    if Accepts(c, s) then c.waiting[s.pod := Waiting(c, s.pod) + 1]
    else if Finishes(c, s) && Waiting(c, c.runs[s.run].pod) > 0 then c.waiting[c.runs[s.run].pod := Waiting(c, c.runs[s.run].pod) - 1]
    else if s.Crash? then c.waiting - {s.pod}
    else c.waiting
  }

  /** The lock that a run took: its key and expiry. */
  function LockOf(r: Run): (string, real) {
    (KeyOf(r), r.start + TTL)
  }

  /** A lock outlives its run when its delete fails or its pod crashes. */
  ghost function OrphanedNext(c: Cluster, s: Step): set<(string, real)> {
    if Releases(c, s) && s.fails then c.orphaned + {LockOf(c.runs[s.run])}
    else if s.Crash? then c.orphaned + set r | r in c.runs && Live(c, r) && c.runs[r].pod == s.pod :: LockOf(c.runs[r])
    else c.orphaned
  }

  ghost function Next(c: Cluster, s: Step): Cluster {
    Cluster(
      NowNext(c, s), LocksNext(c, s), RunsNext(c, s),
      if Accepts(c, s) then c.nextRun + 1 else c.nextRun,
      WaitingNext(c, s),
      if s.GracefulStop? || s.Crash? then c.stopped + {s.pod} else c.stopped,
      if s.WaitReturns? && s.pod in c.stopped && Waiting(c, s.pod) == 0 then c.drained + {s.pod} else c.drained,
      if Announces(c, s) then c.events + multiset{s.run} else c.events,
      if Releases(c, s) then c.deletes + multiset{s.run} else c.deletes,
      if Finishes(c, s) then c.finished + {s.run} else c.finished,
      OrphanedNext(c, s))
  }

  ghost function RunAll(c: Cluster, ss: seq<Step>): Cluster
    decreases |ss|
  {
    if ss == [] then c else RunAll(Next(c, ss[0]), ss[1..])
  }

  // ---- mutual exclusion -----------------------------------------------------------------------

  predicate LiveWith(c: Cluster, r: nat, key: string) {
    Live(c, r) && KeyOf(c.runs[r]) == key
  }

  ghost predicate LiveOn(c: Cluster, key: string) {
    exists r :: LiveWith(c, r, key)
  }

  ghost predicate AtMostOne(c: Cluster, key: string) {
    forall r, q :: LiveWith(c, r, key) && LiveWith(c, q, key) ==> r == q
  }

  /** The key's entry is the live run's own lock, expired or not. */
  ghost predicate OwnsLock(c: Cluster, key: string) {
    forall r :: LiveWith(c, r, key) ==> key in c.locks && (key, c.locks[key]) == LockOf(c.runs[r])
  }

  /** A held lock belongs to a live run, unless its delete failed or its pod crashed. */
  ghost predicate LockIsUsed(c: Cluster, key: string) {
    Held(c, key) && (key, c.locks[key]) !in c.orphaned ==> LiveOn(c, key)
  }

  ghost predicate NumbersFresh(c: Cluster) {
    forall r :: r in c.runs ==> r < c.nextRun
  }

  ghost predicate KeyOk(c: Cluster, key: string) {
    NumbersFresh(c) && AtMostOne(c, key) && OwnsLock(c, key) && LockIsUsed(c, key)
  }

  /** A request that Redis answers, for a file that still has a live run whose 30 s are over. */
  ghost predicate LateRequest(c: Cluster, s: Step, key: string) {
    && s.Execute? && s.pod !in c.stopped && !s.redisFails && LockKey(s.room, s.file) == key
    && exists r :: LiveWith(c, r, key) && c.runs[r].start + 30.0 <= c.now
  }

  /** Who is live on the key after a step: who was before, unless it releases, and the run just accepted. */
  lemma LiveAfter(c: Cluster, s: Step, key: string, r: nat)
    requires NumbersFresh(c) && LiveWith(Next(c, s), r, key)
    ensures if Accepts(c, s) && r == c.nextRun then LockKey(s.room, s.file) == key && Next(c, s).runs[r] == NewRun(c, s)
            else LiveWith(c, r, key) && LockOf(Next(c, s).runs[r]) == LockOf(c.runs[r]) && !(Releases(c, s) && s.run == r)
  {
    hide NowNext, LocksNext, WaitingNext, OrphanedNext, LockKey;
  }

  lemma NumbersStayFresh(c: Cluster, s: Step)
    requires NumbersFresh(c)
    ensures NumbersFresh(Next(c, s))
  {
    hide NowNext, LocksNext, WaitingNext, OrphanedNext, LockKey;
  }

  /** Without a late request, the run just accepted finds nobody live on its key. */
  lemma AcceptedAlone(c: Cluster, s: Step, key: string)
    requires KeyOk(c, key) && !LateRequest(c, s, key) && Accepts(c, s) && LockKey(s.room, s.file) == key
    ensures !LiveOn(c, key)
  {
    hide LockKey;
  }

  lemma KeepsAtMostOne(c: Cluster, s: Step, key: string)
    requires KeyOk(c, key) && !LateRequest(c, s, key)
    ensures AtMostOne(Next(c, s), key)
  {
    if Accepts(c, s) && LockKey(s.room, s.file) == key { AcceptedAlone(c, s, key); }
    forall r, q | LiveWith(Next(c, s), r, key) && LiveWith(Next(c, s), q, key) ensures r == q {
      LiveAfter(c, s, key, r);
      LiveAfter(c, s, key, q);
      hide Next, LockKey, LateRequest, Accepts, Releases, KeyOf;
    }
  }

  lemma KeepsOwnLock(c: Cluster, s: Step, key: string)
    requires KeyOk(c, key) && !LateRequest(c, s, key)
    ensures OwnsLock(Next(c, s), key)
  {
    forall r | LiveWith(Next(c, s), r, key)
      ensures key in Next(c, s).locks && (key, Next(c, s).locks[key]) == LockOf(Next(c, s).runs[r])
    {
      LiveAfter(c, s, key, r);
      if Accepts(c, s) && LockKey(s.room, s.file) == key { AcceptedAlone(c, s, key); }
      if Releases(c, s) { assert LiveWith(c, s.run, KeyOf(c.runs[s.run])); }
      hide NowNext, RunsNext, WaitingNext, OrphanedNext, LockKey, LateRequest;
    }
  }

  lemma KeepsLockUsed(c: Cluster, s: Step, key: string)
    requires KeyOk(c, key)
    ensures LockIsUsed(Next(c, s), key)
  {
    hide WaitingNext, LockKey;
    var c' := Next(c, s);
    if Held(c', key) && (key, c'.locks[key]) !in c'.orphaned {
      if Accepts(c, s) && LockKey(s.room, s.file) == key {
        assert LiveWith(c', c.nextRun, key);
      } else {
        assert Held(c, key) && c'.locks[key] == c.locks[key];
        var r :| LiveWith(c, r, key);
        assert LiveWith(c', r, key);
      }
    }
  }

  lemma LateRequestAdmits(c: Cluster, s: Step, key: string)
    requires KeyOk(c, key) && LateRequest(c, s, key)
    ensures !AtMostOne(Next(c, s), key)
  {
    hide LockKey, WaitingNext, OrphanedNext;
    var r :| LiveWith(c, r, key) && c.runs[r].start + 30.0 <= c.now;
    assert Accepts(c, s);
    assert LiveWith(Next(c, s), r, key) && LiveWith(Next(c, s), c.nextRun, key);
  }

  /** One step: a second run becomes live on the key iff the step is a late request for it. */
  lemma StepKeepsOneIff(c: Cluster, s: Step, key: string)
    requires KeyOk(c, key)
    ensures AtMostOne(Next(c, s), key) <==> !LateRequest(c, s, key)
    ensures !LateRequest(c, s, key) ==> KeyOk(Next(c, s), key)
  {
    hide Next, NumbersFresh, AtMostOne, OwnsLock, LockIsUsed, LateRequest;
    if LateRequest(c, s, key) {
      LateRequestAdmits(c, s, key);
    } else {
      NumbersStayFresh(c, s);
      KeepsAtMostOne(c, s, key);
      KeepsOwnLock(c, s, key);
      KeepsLockUsed(c, s, key);
    }
  }

  ghost predicate OneThroughout(c: Cluster, ss: seq<Step>, key: string)
    decreases |ss|
  {
    AtMostOne(c, key) && (ss != [] ==> OneThroughout(Next(c, ss[0]), ss[1..], key))
  }

  ghost predicate NoLateRequest(c: Cluster, ss: seq<Step>, key: string)
    decreases |ss|
  {
    ss != [] ==> !LateRequest(c, ss[0], key) && NoLateRequest(Next(c, ss[0]), ss[1..], key)
  }

  lemma {:induction false} RunKeepsOneIff(c: Cluster, ss: seq<Step>, key: string)
    requires KeyOk(c, key)
    ensures OneThroughout(c, ss, key) <==> NoLateRequest(c, ss, key)
    ensures NoLateRequest(c, ss, key) ==> KeyOk(RunAll(c, ss), key)
    decreases |ss|
  {
    if ss != [] {
      hide Next, NumbersFresh, AtMostOne, OwnsLock, LockIsUsed, LateRequest;
      StepKeepsOneIff(c, ss[0], key);
      if !LateRequest(c, ss[0], key) { RunKeepsOneIff(Next(c, ss[0]), ss[1..], key); }
    }
  }

  /** In every run of any number of executors, for every file: at most one run is live in every state iff
      no request for the file came in while it had a live run older than 30 s. */
  lemma MutualExclusion(ss: seq<Step>, room: string, file: string)
    ensures OneThroughout(START, ss, LockKey(room, file)) <==> NoLateRequest(START, ss, LockKey(room, file))
  {
    RunKeepsOneIff(START, ss, LockKey(room, file));
  }

  /** In such a run a file's lock is held while its run is live and not older than 30 s, and by nobody
      else, but for locks whose delete failed or whose pod crashed. */
  lemma LockHeldWhileLive(ss: seq<Step>, room: string, file: string)
    requires NoLateRequest(START, ss, LockKey(room, file))
    ensures var c, key := RunAll(START, ss), LockKey(room, file);
      && (forall r :: IsLiveFor(c, r, room, file) ==> (Held(c, key) <==> c.now < c.runs[r].start + 30.0))
      && (Held(c, key) && (key, c.locks[key]) !in c.orphaned ==> LiveOn(c, key))
  {
    RunKeepsOneIff(START, ss, LockKey(room, file));
    var c, key := RunAll(START, ss), LockKey(room, file);
    hide LockKey, RunAll;
    forall r | IsLiveFor(c, r, room, file) ensures LiveWith(c, r, key) {}
  }

  /** Every run of the file has ended or is within its 30 s. */
  ghost predicate Timely(c: Cluster, key: string) {
    forall r :: LiveWith(c, r, key) ==> c.now < c.runs[r].start + 30.0
  }

  ghost predicate TimelyThroughout(c: Cluster, ss: seq<Step>, key: string)
    decreases |ss|
  {
    Timely(c, key) && (ss != [] ==> TimelyThroughout(Next(c, ss[0]), ss[1..], key))
  }

  lemma {:induction false} TimelyMeansNoLate(c: Cluster, ss: seq<Step>, key: string)
    requires TimelyThroughout(c, ss, key)
    ensures NoLateRequest(c, ss, key) && Timely(RunAll(c, ss), key)
    decreases |ss|
  {
    if ss != [] {
      assert !LateRequest(c, ss[0], key);
      hide Next, Timely, LateRequest;
      TimelyMeansNoLate(Next(c, ss[0]), ss[1..], key);
    }
  }

  /** In particular, when every run of the file reaches its delete within 30 s: at most one is live, and,
      if no delete failed and no pod crashed, the lock is held exactly while one is. */
  lemma TimelyRunsExclude(ss: seq<Step>, room: string, file: string)
    requires TimelyThroughout(START, ss, LockKey(room, file))
    ensures OneThroughout(START, ss, LockKey(room, file))
    ensures var c, key := RunAll(START, ss), LockKey(room, file);
      (forall e :: (key, e) !in c.orphaned) ==> (Held(c, key) <==> LiveOn(c, key))
  {
    var c, key := RunAll(START, ss), LockKey(room, file);
    TimelyMeansNoLate(START, ss, key);
    RunKeepsOneIff(START, ss, key);
    hide LockKey, RunAll, Next, NoLateRequest, TimelyThroughout, OneThroughout;
    if LiveOn(c, key) {
      var r :| LiveWith(c, r, key);
    }
  }

  /** Files of colon-free rooms do not share locks: what a run of one does leaves the lock of another. */
  lemma NoInterference(c: Cluster, s: Step, r: nat, room: string, file: string)
    requires (s.Release? && s.run == r && r in c.runs && (c.runs[r].room, c.runs[r].file) != (room, file) && ColonFree(c.runs[r].room))
          || (s.Execute? && (s.room, s.file) != (room, file) && ColonFree(s.room))
    requires ColonFree(room)
    ensures var key := LockKey(room, file);
            (key in Next(c, s).locks <==> key in c.locks) && (key in c.locks ==> Next(c, s).locks[key] == c.locks[key])
  {
    hide LockKey, RunsNext, WaitingNext, OrphanedNext;
    var room', file' := if s.Execute? then s.room else c.runs[r].room, if s.Execute? then s.file else c.runs[r].file;
    if LockKey(room', file') == LockKey(room, file) { LockKeyInjective(room', file', room, file); }
  }

  // ---- shutdown ---------------------------------------------------------------------------------

  function RunsOf(c: Cluster, pod: nat): set<nat> {
    set r | r in c.runs && c.runs[r].pod == pod
  }

  /** The wait group counts the accepted runs that have not finished; a drained pod has none and takes
      no more; every run has announced and deleted as often as its phase says, and once when finished. */
  ghost predicate Counted(c: Cluster) {
    && (forall r :: r in c.runs ==> r < c.nextRun && r !in c.finished)
    && (forall r :: r in c.finished ==> r < c.nextRun && c.events[r] == 1 && c.deletes[r] == 1)
    && (forall r :: r >= c.nextRun ==> c.events[r] == 0 && c.deletes[r] == 0)
    && (forall r :: r in c.runs ==> c.events[r] == if c.runs[r].phase == Working then 0 else 1)
    && (forall r :: r in c.runs ==> c.deletes[r] == if c.runs[r].phase == Released then 1 else 0)
    && c.drained <= c.stopped
  }

  ghost predicate GroupCounts(c: Cluster, pod: nat) {
    && Waiting(c, pod) == |RunsOf(c, pod)|
    && (pod in c.drained ==> Waiting(c, pod) == 0)
  }

  lemma StepKeepsCounted(c: Cluster, s: Step)
    requires Counted(c)
    ensures Counted(Next(c, s))
  {
    hide NowNext, LocksNext, WaitingNext, OrphanedNext, LockKey, Held;
  }

  lemma RunsOfAfter(c: Cluster, s: Step, pod: nat)
    requires Counted(c)
    ensures RunsOf(Next(c, s), pod) ==
            if Accepts(c, s) && s.pod == pod then RunsOf(c, pod) + {c.nextRun}
            else if Finishes(c, s) && c.runs[s.run].pod == pod then RunsOf(c, pod) - {s.run}
            else if s.Crash? && s.pod == pod then {}
            else RunsOf(c, pod)
    ensures c.nextRun !in RunsOf(c, pod)
  {
  }

  lemma WaitingAfter(c: Cluster, s: Step, pod: nat)
    ensures Waiting(Next(c, s), pod) ==
            if Accepts(c, s) && s.pod == pod then Waiting(c, pod) + 1
            else if Finishes(c, s) && c.runs[s.run].pod == pod && Waiting(c, pod) > 0 then Waiting(c, pod) - 1
            else if s.Crash? && s.pod == pod then 0
            else Waiting(c, pod)
    ensures pod in Next(c, s).drained ==> pod in c.drained || (s.WaitReturns? && s.pod == pod && Waiting(c, pod) == 0)
  {
  }

  lemma StepKeepsGroup(c: Cluster, s: Step, pod: nat)
    requires Counted(c) && (forall p :: GroupCounts(c, p))
    ensures GroupCounts(Next(c, s), pod)
  {
    RunsOfAfter(c, s, pod);
    assert GroupCounts(c, pod);
    assert Finishes(c, s) && c.runs[s.run].pod == pod ==> s.run in RunsOf(c, pod);
    assert c.drained <= c.stopped;
    WaitingAfter(c, s, pod);
    assert Accepts(c, s) ==> s.pod !in c.stopped;
    assert Finishes(c, s) && c.runs[s.run].pod == pod ==> |RunsOf(c, pod)| > 0;
    hide Next, WaitingNext, Waiting, Accepts, Finishes, LockKey, Held, RunsOf, Counted;
  }

  ghost predicate ShutdownOk(c: Cluster) {
    Counted(c) && forall p :: GroupCounts(c, p)
  }

  lemma {:induction false} RunKeepsShutdownOk(c: Cluster, ss: seq<Step>)
    requires ShutdownOk(c)
    ensures ShutdownOk(RunAll(c, ss))
    decreases |ss|
  {
    if ss != [] {
      hide Next, Counted, GroupCounts;
      StepKeepsCounted(c, ss[0]);
      forall p ensures GroupCounts(Next(c, ss[0]), p) { StepKeepsGroup(c, ss[0], p); }
      RunKeepsShutdownOk(Next(c, ss[0]), ss[1..]);
    }
  }

  /** In every run: when the wait returns after the graceful stop, no accepted run of the pod is in
      flight, then or later, and every finished run has attempted exactly one terminal event and one
      delete of its lock. */
  lemma DrainedShutdown(ss: seq<Step>, pod: nat)
    ensures var c := RunAll(START, ss);
      && Waiting(c, pod) == |RunsOf(c, pod)|
      && (pod in c.drained ==> RunsOf(c, pod) == {})
      && forall r :: r in c.finished ==> c.events[r] == 1 && c.deletes[r] == 1 && r !in c.runs
  {
    assert forall p :: RunsOf(START, p) == {};
    assert forall p :: GroupCounts(START, p);
    RunKeepsShutdownOk(START, ss);
    assert GroupCounts(RunAll(START, ss), pod);
  }

  // ---- why the hypotheses are needed ---------------------------------------------------------------

  lemma {:induction false} RunAppend(c: Cluster, ss: seq<Step>, s: Step)
    ensures RunAll(c, ss + [s]) == Next(RunAll(c, ss), s)
    decreases |ss|
  {
    hide Next;
    if ss == [] {
      assert (ss + [s])[1..] == [];
    } else {
      assert (ss + [s])[1..] == ss[1..] + [s];
      RunAppend(Next(c, ss[0]), ss[1..], s);
    }
  }

  /** While a run is live, a second request for its file is accepted from 30 s on and not before. */
  lemma LockLastsThirtySeconds(room: string, file: string, t: real)
    requires t > 0.0
    ensures Accepts(RunAll(START, [Execute(0, room, file, false), Tick(t)]), Execute(1, room, file, false)) <==> t >= 30.0
  {
    var first, tick := Execute(0, room, file, false), Tick(t);
    hide LockKey;
    assert [first, tick][1..] == [tick] && [tick][1..] == [];
    var c1 := Next(START, first);
    assert c1.locks == map[LockKey(room, file) := 30.0] && c1.now == 0.0 && c1.stopped == {};
    var c2 := Next(c1, tick);
    assert c2.locks == c1.locks && c2.now == t && c2.stopped == {};
    hide Next;
    assert RunAll(c2, []) == c2;
    assert RunAll(START, [first, tick]) == RunAll(c1, [tick]) == c2;
  }

  /** A run that is still live after 30 s: another executor is let in, and two are live on one file. */
  lemma OverrunLetsAnotherIn(room: string, file: string) returns (ss: seq<Step>)
    ensures var c := RunAll(START, ss);
            IsLiveFor(c, 0, room, file) && IsLiveFor(c, 1, room, file) && c.now == 30.0
    ensures var c := RunAll(START, ss);
            c.runs[0].phase == Working && c.runs[1].start == 30.0 && c.nextRun == 2 && c.stopped == {}
  {
    var key := LockKey(room, file);
    hide LockKey;
    ss := [Execute(0, room, file, false)];
    assert RunAll(START, []) == START;
    RunAppend(START, [], ss[0]);
    assert [] + ss == ss;
    var c1 := RunAll(START, ss);
    assert c1.runs == map[0 := Run(0, room, file, 0.0, Working)] && c1.locks == map[key := TTL];
    RunAppend(START, ss, Tick(TTL));
    ss := ss + [Tick(TTL)];
    var c2 := RunAll(START, ss);
    assert Live(c1, 0) && !Held(c2, key);
    RunAppend(START, ss, Execute(1, room, file, false));
    ss := ss + [Execute(1, room, file, false)];
  }

  lemma DeleteThenAccept(c: Cluster, late: nat, pod: nat)
    requires late in c.runs && c.runs[late].phase == Working && pod !in c.stopped && c.nextRun !in c.runs
    ensures var run := c.runs[late];
            var c' := Next(Next(Next(c, Announce(late, ExecutionDone)), Release(late, false)), Execute(pod, run.room, run.file, false));
            && c'.now == c.now && late in c'.runs && c'.runs[late].phase == Released
            && (forall r :: r in c.runs && r != late ==> r in c'.runs && c'.runs[r] == c.runs[r])
            && c.nextRun in c'.runs && c'.runs[c.nextRun] == Run(pod, run.room, run.file, c.now, Working)
  {
  }

  /** And the late run's delete, which carries no owner, removes the lock of the second: a third run is
      let in although the second is well within its 30 s. */
  lemma LateDeleteFreesForeignLock(room: string, file: string) returns (ss: seq<Step>)
    ensures var c := RunAll(START, ss);
            && !Live(c, 0) && IsLiveFor(c, 1, room, file) && IsLiveFor(c, 2, room, file)
            && c.now < c.runs[1].start + 30.0 && c.now < c.runs[2].start + 30.0
  {
    hide LockKey;
    ss := OverrunLetsAnotherIn(room, file);
    var c := RunAll(START, ss);
    RunKeepsShutdownOk(START, ss);
    assert c.nextRun !in c.runs && c.runs[0].room == room && c.runs[0].file == file;
    DeleteThenAccept(c, 0, 2);
    hide Next, RunAll, ShutdownOk;
    RunAppend(START, ss, Announce(0, ExecutionDone));
    ss := ss + [Announce(0, ExecutionDone)];
    RunAppend(START, ss, Release(0, false));
    ss := ss + [Release(0, false)];
    RunAppend(START, ss, Execute(2, room, file, false));
    ss := ss + [Execute(2, room, file, false)];
  }

  /** The wait may also be given up: 30 s after the graceful stop a run can still be in flight. */
  lemma TimeoutLeavesRun(room: string, file: string) returns (ss: seq<Step>)
    ensures var c := RunAll(START, ss); 0 in c.stopped && c.now == 30.0 && 0 in RunsOf(c, 0)
  {
    hide LockKey;
    ss := [Execute(0, room, file, false)];
    assert RunAll(START, []) == START;
    RunAppend(START, [], ss[0]);
    assert [] + ss == ss;
    RunAppend(START, ss, GracefulStop(0));
    ss := ss + [GracefulStop(0)];
    RunAppend(START, ss, Tick(30.0));
    ss := ss + [Tick(30.0)];
  }
}
