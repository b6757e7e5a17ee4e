/** The executor service as code: the Redis key store, the Execute handler, and the run goroutine with
    its deferred calls. Each is tied to the steps of ExecutionLock. */
module Executor {
  import opened Wrappers
  import opened Channels
  import opened ExecutionLock

  datatype Published = Published(channel: string, file: string, outcome: Outcome)

  class RedisStore {
    var now: real
    var locks: map<string, real>
    var published: seq<Published>

    constructor ()
      ensures now == 0.0 && locks == map[] && published == []
    {
      now, locks, published := 0.0, map[], [];
    }

    /** SET key value NX EX seconds: sets the key only if it is absent or has expired. */
    method SetNX(key: string, seconds: real, fails: bool) returns (r: Result<bool, ()>)
      modifies this`locks
      ensures r.Err? <==> fails
      ensures r.Ok? ==> (r.value <==> !(key in old(locks) && now < old(locks)[key]))
      ensures locks == if r == Ok(true) then old(locks)[key := now + seconds] else old(locks)
    {
      if fails { return Err(()); }
      if key in locks && now < locks[key] { return Ok(false); }
      locks := locks[key := now + seconds];
      r := Ok(true);
    }

    /** DEL: removes the key, whoever set it. */
    method Del(key: string, fails: bool)
      modifies this`locks
      ensures locks == if fails then old(locks) else old(locks) - {key}
    {
      if !fails { locks := locks - {key}; }
    }

    method Publish(p: Published)
      modifies this`published
      ensures published == old(published) + [p]
    {
      published := published + [p];
    }
  }

  /** What is kept of a completed run: in Mongo's `executions` and in the topic `execution-events`. */
  datatype ExecutionResult = ExecutionResult(room: string, file: string, output: string)

  /** Where a run leaves things besides Redis: its temp directory and its result. */
  class Workplace {
    var tempDirs: set<nat>
    var executions: seq<ExecutionResult>
    var events: seq<ExecutionResult>

    constructor ()
      ensures tempDirs == {} && executions == [] && events == []
    {
      tempDirs, executions, events := {}, [], [];
    }

    /** Stores the result; a failure is logged and forgotten. */
    method SaveExecution(r: ExecutionResult, fails: bool)
      modifies this`executions
      ensures executions == if fails then old(executions) else old(executions) + [r]
    {
      if !fails { executions := executions + [r]; }
    }

    method PublishExecutionEvent(r: ExecutionResult, fails: bool)
      modifies this`events
      ensures events == if fails then old(events) else old(events) + [r]
    {
      if !fails { events := events + [r]; }
    }

    /** The directory that reconstruction leaves for a run, and its removal. */
    method MakeTempDir(run: nat)
      modifies this`tempDirs
      ensures tempDirs == old(tempDirs) + {run}
    {
      tempDirs := tempDirs + {run};
    }

    method RemoveTempDir(run: nat)
      modifies this`tempDirs
      ensures tempDirs == old(tempDirs) - {run}
    {
      tempDirs := tempDirs - {run};
    }
  }

  datatype Reply = Accepted | LockCheckFailed | AlreadyRunning

  /** How the parts of a run that can fail turn out; `output` is None if the container does not run. */
  datatype Outcomes = Outcomes(treeOk: bool, output: Option<string>, storeFails: bool, eventFails: bool, delFails: bool)

  /** What the handler and the run goroutine do, in the order in which they do it. */
  datatype Act =
    | LockTaken
    | Counted
    | Started
    | Reported(outcome: Outcome)
    | ResultStored
    | EventStarted
    | TempDirRemoved
    | LockDeleted
    | Uncounted

  class ExecutorServer {
    const pod: nat
    const rdb: RedisStore
    const work: Workplace
    var wg: nat
    ghost var acts: seq<Act>

    constructor (pod: nat, rdb: RedisStore, work: Workplace)
      ensures this.pod == pod && this.rdb == rdb && this.work == work && wg == 0 && acts == []
    {
      this.pod := pod;
      this.rdb := rdb;
      this.work := work;
      wg := 0;
      acts := [];
    }

    /** The shared keys and this pod's wait group are those of the cluster. */
    ghost predicate Matches(c: Cluster)
      reads this, rdb
    {
      rdb.now == c.now && rdb.locks == c.locks && wg == Waiting(c, pod)
    }

    /** Takes the lock, then adds to the wait group, then starts the run. */
    method Execute(room: string, file: string, redisFails: bool, ghost c: Cluster) returns (reply: Reply)
      requires Matches(c) && pod !in c.stopped
      modifies this, rdb`locks
      ensures Matches(Next(c, Step.Execute(pod, room, file, redisFails)))
      ensures reply == Accepted <==> Accepts(c, Step.Execute(pod, room, file, redisFails))
      ensures reply == AlreadyRunning <==> !redisFails && Held(c, LockKey(room, file))
      ensures acts == if reply == Accepted then old(acts) + [LockTaken, Counted, Started] else old(acts)
      ensures rdb.locks == if reply == Accepted then old(rdb.locks)[LockKey(room, file) := rdb.now + 30.0] else old(rdb.locks)
      ensures wg == old(wg) + if reply == Accepted then 1 else 0
    {
      hide LockKey;
      var acquired := rdb.SetNX(LockKey(room, file), 30.0, redisFails);
      if acquired.Err? { return LockCheckFailed; }
      if !acquired.value { return AlreadyRunning; }
      acts := acts + [LockTaken];
      wg := wg + 1;
      acts := acts + [Counted, Started];
      reply := Accepted;
    }

    /** The steps of one run: its terminal event, the deferred delete, the deferred Done. */
    static ghost function RunSteps(c: Cluster, run: nat, outcome: Outcome, delFails: bool): Cluster {
      Next(Next(Next(c, Announce(run, outcome)), Release(run, delFails)), Finish(run))
    }

    lemma RunStepsEffect(c: Cluster, run: nat, outcome: Outcome, delFails: bool)
      requires run in c.runs && c.runs[run].phase == Working && Waiting(c, c.runs[run].pod) > 0
      ensures var c' := RunSteps(c, run, outcome, delFails); var pod := c.runs[run].pod;
              && c'.now == c.now && Waiting(c', pod) == Waiting(c, pod) - 1
              && c'.locks == (if delFails then c.locks else c.locks - {KeyOf(c.runs[run])})
              && run !in c'.runs && run in c'.finished
    {
    }

    /** The run goroutine: a completed run's result is stored and its event published, whether or not the
        lock can be deleted afterwards; the temp directory is gone in every case. */
    method RunExecution(run: nat, room: string, file: string, o: Outcomes, ghost c: Cluster)
      requires Matches(c) && wg > 0
      requires run in c.runs && c.runs[run].phase == Working
      requires c.runs[run].pod == pod && c.runs[run].room == room && c.runs[run].file == file
      requires run !in work.tempDirs
      modifies this, rdb`locks, rdb`published, work
      ensures rdb.published == old(rdb.published)
                + [Published(RoomChannel(room), file, if o.treeOk && o.output.Some? then ExecutionDone else ExecutionError)]
      ensures Matches(RunSteps(c, run, if o.treeOk && o.output.Some? then ExecutionDone else ExecutionError, o.delFails))
      ensures !o.treeOk ==> acts == old(acts) + [Reported(ExecutionError), LockDeleted, Uncounted]
      ensures o.treeOk && o.output == None ==> acts == old(acts) + [Reported(ExecutionError), TempDirRemoved, LockDeleted, Uncounted]
      ensures o.treeOk && o.output.Some? ==>
                acts == old(acts) + [Reported(ExecutionDone), ResultStored, EventStarted, TempDirRemoved, LockDeleted, Uncounted]
      ensures var done := if o.treeOk && o.output.Some? then [ExecutionResult(room, file, o.output.value)] else [];
              && work.executions == old(work.executions) + (if o.storeFails then [] else done)
              && work.events == old(work.events) + (if o.eventFails then [] else done)
              && work.tempDirs == old(work.tempDirs)
    {
      hide LockKey, RoomChannel, RunSteps, Waiting, Next;
      if !o.treeOk {
        PublishError(room, file);
      } else {
        work.MakeTempDir(run);
        RunInTempDir(run, room, file, o);
      }
      Deferred(run, room, file, o.delFails, c, if o.treeOk && o.output.Some? then ExecutionDone else ExecutionError);
    }

    /** The part of a run that has a temp directory; its removal is the first deferred call to happen. */
    method RunInTempDir(run: nat, room: string, file: string, o: Outcomes)
      requires o.treeOk
      modifies rdb`published, work, `acts
      ensures rdb.published == old(rdb.published)
                + [Published(RoomChannel(room), file, if o.output.Some? then ExecutionDone else ExecutionError)]
      ensures acts == old(acts) + (if o.output == None then [Reported(ExecutionError), TempDirRemoved]
                                   else [Reported(ExecutionDone), ResultStored, EventStarted, TempDirRemoved])
      ensures var done := if o.output.Some? then [ExecutionResult(room, file, o.output.value)] else [];
              && work.executions == old(work.executions) + (if o.storeFails then [] else done)
              && work.events == old(work.events) + (if o.eventFails then [] else done)
              && work.tempDirs == old(work.tempDirs) - {run}
    {
      hide RoomChannel;
      if o.output == None {
        PublishError(room, file);
      } else {
        var result := ExecutionResult(room, file, o.output.value);
        rdb.Publish(Published(RoomChannel(room), file, ExecutionDone));
        acts := acts + [Reported(ExecutionDone)];
        work.SaveExecution(result, o.storeFails);
        acts := acts + [ResultStored];
        work.PublishExecutionEvent(result, o.eventFails);
        acts := acts + [EventStarted];
      }
      work.RemoveTempDir(run);
      acts := acts + [TempDirRemoved];
    }

    /** The deferred calls: the lock is deleted, then the wait group is told. */
    method Deferred(run: nat, room: string, file: string, delFails: bool, ghost c: Cluster, ghost outcome: Outcome)
      requires Matches(c) && wg > 0
      requires run in c.runs && c.runs[run].phase == Working
      requires c.runs[run].pod == pod && c.runs[run].room == room && c.runs[run].file == file
      modifies this, rdb`locks
      ensures Matches(RunSteps(c, run, outcome, delFails))
      ensures acts == old(acts) + [LockDeleted, Uncounted]
    {
      RunStepsEffect(c, run, outcome, delFails);
      hide LockKey, RunSteps, Waiting, Next;
      rdb.Del(LockKey(room, file), delFails);
      acts := acts + [LockDeleted];
      wg := wg - 1;
      acts := acts + [Uncounted];
    }

    method PublishError(room: string, file: string)
      modifies rdb`published, `acts
      ensures rdb.published == old(rdb.published) + [Published(RoomChannel(room), file, ExecutionError)]
      ensures acts == old(acts) + [Reported(ExecutionError)]
    {
      rdb.Publish(Published(RoomChannel(room), file, ExecutionError));
      acts := acts + [Reported(ExecutionError)];
    }
  }
}
