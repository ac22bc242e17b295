/**
 The run engine of one node, in the order of the source: guard, row, references, pre-check,
 submission; polling; alerting. What the rcd and the alert receiver answer, and how long things
 take, is given as parameters; the database itself does not fail.
 */
module RunEngine {
  import opened Options
  import opened Arithmetic
  import opened Runs
  import opened TaskStart

  class Engine {
    const node: NodeId
    var db: Tables
    var clock: Time
    var tasks: map<nat, Option<nat>>   // the sync tasks and the pre-checks bound to them
    var checkTasks: set<nat>
    var syncStarts: nat                // calls of StartSync made so far
    var checkStarts: nat

    constructor (node: NodeId, db: Tables, clock: Time, tasks: map<nat, Option<nat>>, checkTasks: set<nat>)
      ensures this.node == node && this.db == db && this.clock == clock
      ensures this.tasks == tasks && this.checkTasks == checkTasks && syncStarts == 0 && checkStarts == 0
    {
      this.node, this.db, this.clock, this.tasks, this.checkTasks := node, db, clock, tasks, checkTasks;
      syncStarts, checkStarts := 0, 0;
    }

    method Save(k: Key, r: Run)
      modifies this`db
      ensures db == Saved(old(db), k, r)
    {
      db := db.(runs := db.runs[k := r]);
    }

    // ----- alerts -----

    method NotifyFailure(k: Key, delivered: bool)
      requires k in db.runs
      modifies this`db
      ensures var r := old(db).runs[k];
              db == if r.status == Failed && r.notifiedAt == None && delivered
                    then old(db).(runs := old(db).runs[k := r.(notifiedAt := Some(clock))]) else old(db)
      ensures db == AfterFailure(old(db), k, delivered, clock)
    {
      var run := db.runs[k];
      if run.status != Failed || run.notifiedAt.Some? {
        return;
      }
      if delivered {
        run := run.(notifiedAt := Some(clock));
        Save(k, run);
      }
    }

    /** Looks for the newest notified failure of the task and takes its mark off, delivered or not. */
    method NotifyResolved(k: Key, enabled: bool)
      requires k in db.runs
      modifies this`db
      ensures db == AfterSuccess(old(db), k, enabled)
    {
      var run := db.runs[k];
      if run.status != Success || !enabled {
        return;
      }
      var id := NextId(db, k.kind);
      while id > 0
        invariant db == old(db)
        invariant NewestNotified(db, k.kind, run.task, NextId(db, k.kind)) == NewestNotified(db, k.kind, run.task, id)
      {
        id := id - 1;
        if Notified(db, Key(k.kind, id), k.kind, run.task) {
          var prev := db.runs[Key(k.kind, id)];
          prev := prev.(notifiedAt := None);
          Save(Key(k.kind, id), prev);
          return;
        }
      }
    }

    /** Saves a row and sends the alert its status calls for. */
    method SaveAndAlert(k: Key, r: Run, alert: bool)
      modifies this`db
      ensures db == SavedAndAlerted(old(db), k, r, alert, clock)
    {
      Save(k, r);
      if r.status == Failed {
        NotifyFailure(k, alert);
      } else if r.status == Success {
        NotifyResolved(k, alert);
      }
    }

    // ----- polling -----

    /** One poll of a sync run; a row that is not running, or an answer that decides nothing, changes nothing. */
    method PollRun(k: Key, reply: Reply, alert: bool)
      requires k.kind.Sync?
      modifies this`db
      ensures db == AfterPoll(old(db), k, reply, clock, alert)
      ensures !Decides(reply) ==> db == old(db)
    {
      if k !in db.runs {
        return;
      }
      var run := db.runs[k];
      if run.status != Running || run.job.None? {
        return;
      }
      if reply.QueryError? {
        if IsTransient(reply) {
          return;
        }
        run := run.(status := Failed, finishedAt := Some(clock), error := Some(QueryRefused(reply.code)));
        SaveAndAlert(k, run, alert);
        return;
      }
      var status := reply.body;
      if status.finished != Is(true) {
        return;
      }
      run := run.(finishedAt := Some(clock));
      var failed := if status.success.Is? then !status.success.value else true;
      if failed {
        var msg := if status.error == "" then "unknown rclone error" else status.error;
        run := run.(status := Failed, error := Some(JobError(msg)));
      } else {
        run := run.(status := Success);
      }
      SaveAndAlert(k, run, alert);
    }

    /** One poll of a check run. */
    method PollCheck(k: Key, reply: Reply, alert: bool)
      requires k.kind.Check?
      modifies this`db
      ensures db == AfterPoll(old(db), k, reply, clock, alert)
      ensures !Decides(reply) ==> db == old(db)
    {
      if k !in db.runs {
        return;
      }
      var check := db.runs[k];
      if check.status != Running || check.job.None? {
        return;
      }
      if reply.QueryError? {
        if IsTransient(reply) {
          return;
        }
        check := check.(status := Failed, finishedAt := Some(clock), error := Some(QueryRefused(reply.code)));
        SaveAndAlert(k, check, alert);
        return;
      }
      var status := reply.body;
      if status.finished != Is(true) {
        return;
      }
      check := check.(finishedAt := Some(clock), verdict := Some(status.outputSuccess));
      var bodySuccess := status.success == Is(true);
      var outSuccess := status.outputSuccess == Is(true);
      if !bodySuccess {
        var msg := if status.error == "" then "rclone check job failed" else status.error;
        check := check.(status := Failed, error := Some(CheckJobError(msg)));
      } else if outSuccess {
        check := check.(status := Success, error := None);
      } else {
        check := check.(status := Failed, error := Some(DifferencesFound));
      }
      SaveAndAlert(k, check, alert);
    }

    /**
     The body of the poll job for one kind of run: takes over the running rows nobody owns, lists
     the node's running rows, and polls them one after the other. Every other row stays as it was,
     except that a success may take the alert mark off an older failure.
     */
    method PollRunning(kind: Kind, replies: nat -> Reply, alerts: nat -> bool) returns (ghost listed: seq<nat>)
      requires Numbered(db)
      modifies this`db
      ensures IsListing(listed, Claimed(old(db), kind, node), kind, node)
      ensures db == AfterPolls(Claimed(old(db), kind, node), kind, listed, replies, clock, alerts)
      ensures db.runs.Keys == old(db.runs.Keys) && db.nextSync == old(db.nextSync) && db.nextCheck == old(db.nextCheck)
      ensures Numbered(db)
      ensures forall k :: k in old(db.runs) ==>
                var r := Claimed(old(db), kind, node).runs[k];
                if k.kind == kind && r.status == Running && r.node == node && r.job != None
                then db.runs[k].(notifiedAt := None) == Polled(kind, r, replies(k.id), clock).(notifiedAt := None)
                else db.runs[k] == r || db.runs[k] == r.(notifiedAt := None)
    {
      db := Claimed(db, kind, node);
      ghost var claimed := db;
      var ids := ListMine(kind);
      listed := ids;
      var i := 0;
      while i < |ids|
        invariant 0 <= i <= |ids|
        invariant AfterPolls(db, kind, ids[i..], replies, clock, alerts)
                  == AfterPolls(claimed, kind, ids, replies, clock, alerts)
      {
        var id := ids[i];
        assert ids[i..][0] == id && ids[i..][1..] == ids[i + 1..];
        if kind.Sync? {
          PollRun(Key(kind, id), replies(id), alerts(id));
        } else {
          PollCheck(Key(kind, id), replies(id), alerts(id));
        }
        i := i + 1;
      }
      assert ids[|ids|..] == [];
      RoundHolds(claimed, kind, node, ids, replies, clock, alerts);
    }

    /** The ids of the node's running rows, each once. */
    method ListMine(kind: Kind) returns (ids: seq<nat>)
      requires Numbered(db)
      ensures IsListing(ids, db, kind, node)
      ensures forall id: nat :: id in ids <==>
                && Key(kind, id) in db.runs && db.runs[Key(kind, id)].status == Running
                && db.runs[Key(kind, id)].node == node && db.runs[Key(kind, id)].job != None
    {
      ids := [];
      for id := 0 to NextId(db, kind)
        invariant forall i :: 0 <= i < |ids| ==> ids[i] < id
        invariant forall x: nat :: x in ids <==>
                    x < id && Key(kind, x) in db.runs && Mine(Key(kind, x), db.runs[Key(kind, x)], kind, node)
        invariant forall i, j :: 0 <= i < j < |ids| ==> ids[i] < ids[j]
      {
        if Key(kind, id) in db.runs && Mine(Key(kind, id), db.runs[Key(kind, id)], kind, node) {
          ids := ids + [id];
        }
      }
    }

    /** What the node's poll job does to the row before the next turn of a waiting loop, if anything. */
    method PollJobMeanwhile(k: Key, e: PollEvent)
      requires k.kind.Check?
      modifies this`db
      ensures db == if e.before.None? then old(db)
                    else AfterPoll(old(db), k, e.before.value.reply, clock, e.before.value.alert)
    {
      if e.before.Some? {
        PollCheck(k, e.before.value.reply, e.before.value.alert);
      }
    }

    /** Sleeps; the poll job may wake up in between. */
    method Sleep(k: Key, rest: nat, e: PollEvent)
      requires k.kind.Check?
      modifies this`db, this`clock
      ensures clock == old(clock) + rest
      ensures db == if e.before.None? then old(db)
                    else AfterPoll(old(db), k, e.before.value.reply, old(clock) + Min(e.before.value.after, rest),
                                   e.before.value.alert)
    {
      var after := if e.before.Some? then Min(e.before.value.after, rest) else 0;
      clock := clock + after;
      PollJobMeanwhile(k, e);
      clock := clock + rest - after;
    }

    /** One turn of the waiting loop: the poll, and, if the row is still running after it, the sleep. */
    method WaitTurn(k: Key, interval: nat, ev: nat -> PollEvent, i: nat, ghost was: Tables, ghost before: Option<Decider>,
                    ghost start: Time, ghost deadline: Time)
      returns (done: bool, ghost decision: Option<Decider>)
      requires k.kind.Check? && Waited(was, db, k, ev, i, before, start, deadline, interval) && clock < deadline
      requires clock == PollStart(ev, i, start, interval) && (was.runs[k].status.Running? ==> Pollable(was, k))
      requires before.Some? ==> DecisionTime(ev, before.value, start, interval) <= clock
      modifies this`db, this`clock
      ensures done ==> Ended(was, db, k, ev, decision, start, deadline, interval, clock) && clock >= old(clock)
      ensures !done ==>
                && Waited(was, db, k, ev, i + 1, decision, start, deadline, interval)
                && clock == PollStart(ev, i + 1, start, interval)
                && (decision.Some? ==> DecisionTime(ev, decision.value, start, interval) <= clock)
    {
      PollTurn(was, db, k, ev, i, before, start, deadline, interval);
      clock := clock + ev(i).took;
      PollCheck(k, ev(i).reply, ev(i).alert);
      if db.runs[k].status != Running {
        return true, PollOutcome(was, k, ev, i, before);
      }
      decision := SleepTurn(k, interval, ev, i, was, start, deadline);
      done := false;
    }

    /** The sleep after a poll that has decided nothing. */
    method SleepTurn(k: Key, interval: nat, ev: nat -> PollEvent, i: nat, ghost was: Tables, ghost start: Time,
                     ghost deadline: Time)
      returns (ghost decision: Option<Decider>)
      requires k.kind.Check? && Pollable(was, k) && db == was && clock == PollStart(ev, i, start, interval) + ev(i).took
      requires Made(ev, i, start, deadline, interval) && forall j: nat :: j <= i ==> Quiet(ev(j))
      modifies this`db, this`clock
      ensures Waited(was, db, k, ev, i + 1, decision, start, deadline, interval)
      ensures clock == PollStart(ev, i + 1, start, interval)
      ensures decision.Some? ==> DecisionTime(ev, decision.value, start, interval) <= clock
    {
      JobTurn(was, k, ev, i + 1, start, deadline, interval);
      Sleep(k, interval + ev(i).overslept, ev(i + 1));
      decision := JobOutcome(was, k, ev, i + 1);
    }

    /**
     Waits until the check has left the running state or the time is up; the node's poll job polls the
     row as well. `polls` counts the polls made, `decision` is what ended the waiting, if anything did.
     */
    method WaitForCheck(k: Key, timeoutSeconds: int, interval: nat, ev: nat -> PollEvent, timeoutAlert: bool)
      returns (polls: nat, ghost decision: Option<Decider>)
      requires k.kind.Check? && k in db.runs && interval > 0
      requires db.runs[k].status.Running? ==> db.runs[k].job.Some?
      modifies this`db, this`clock
      ensures k in db.runs && !db.runs[k].status.Running? && clock >= old(clock)
      ensures polls > 0 ==> (polls - 1) * interval < timeoutSeconds * SECOND
      ensures var deadline := old(clock) + timeoutSeconds * SECOND;
              || Ended(old(db), db, k, ev, decision, old(clock), deadline, interval, clock)
              || (TimedOutWaiting(old(db), k, ev, decision, old(clock), deadline, interval, clock)
                  && db == AfterTimeout(old(db), k, clock, timeoutSeconds, timeoutAlert))
    {
      var deadline := clock + timeoutSeconds * SECOND;
      ghost var start, was := clock, db;
      polls := 0;
      JobTurn(was, k, ev, 0, start, deadline, interval);
      PollJobMeanwhile(k, ev(0));
      decision := JobOutcome(was, k, ev, 0);
      while clock < deadline
        invariant clock == PollStart(ev, polls, start, interval) && clock >= start
        invariant Waited(was, db, k, ev, polls, decision, start, deadline, interval)
        invariant decision.Some? ==> DecisionTime(ev, decision.value, start, interval) <= clock
        invariant polls > 0 ==> (polls - 1) * interval < timeoutSeconds * SECOND
        decreases deadline - clock
      {
        PollStartsGrow(ev, polls, start, interval);
        var done;
        done, decision := WaitTurn(k, interval, ev, polls, was, decision, start, deadline);
        polls := polls + 1;
        if done {
          return;
        }
      }
      WaitedInVain(was, db, k, ev, polls, decision, start, deadline, interval);
      GiveUp(k, timeoutSeconds, timeoutAlert);
    }

    /** The time is up: the row is read once more, and failed if it is still running. */
    method GiveUp(k: Key, timeoutSeconds: int, alert: bool)
      requires k in db.runs
      modifies this`db
      ensures db == AfterTimeout(old(db), k, clock, timeoutSeconds, alert)
      ensures k in db.runs && !db.runs[k].status.Running?
    {
      var check := db.runs[k];
      if check.status == Running {
        check := check.(status := Failed, finishedAt := Some(clock), error := Some(CheckTimedOut(timeoutSeconds)));
        SavedAndAlertedFrame(db, k, check, alert, clock, k);
        SaveAndAlert(k, check, alert);
      }
    }

    // ----- starting -----

    method Insert(kind: Kind, r: Run) returns (k: Key)
      modifies this`db
      ensures k == NewKey(old(db), kind) && db == Inserted(old(db), kind, r)
    {
      k := Key(kind, NextId(db, kind));
      if kind.Sync? {
        db := db.(runs := db.runs[k := r], nextSync := db.nextSync + 1);
      } else {
        db := db.(runs := db.runs[k := r], nextCheck := db.nextCheck + 1);
      }
    }

    /** Starts a check run; there is no guard. */
    method RunCheck(checkTask: nat, env: StartEnv) returns (started: Option<Key>)
      modifies this`db, this`checkStarts
      ensures checkTask !in checkTasks ==> started == None && db == old(db) && checkStarts == old(checkStarts)
      ensures checkTask in checkTasks ==>
                && started == Some(NewKey(old(db), Check))
                && db == AfterRunCheck(old(db), checkTask, node, env, clock)
                && checkStarts == old(checkStarts) + (if env.checkRefsResolve then 1 else 0)
    {
      if checkTask !in checkTasks {
        return None;
      }
      var check := NewPending(checkTask, node);
      var k := Insert(Check, check);
      if env.checkRefsResolve {
        checkStarts := checkStarts + 1;
        if env.checkStart.Accepted? {
          check := check.(job := Some(env.checkStart.job), status := Running, startedAt := Some(clock));
          Save(k, check);
          return Some(k);
        }
      }
      check := check.(status := Failed, startedAt := Some(clock), finishedAt := Some(clock), error := Some(StartError));
      SaveAndAlert(k, check, env.checkAlert);
      started := Some(k);
    }

    /**
     Lets the bound check decide. `proceed` with no error: the sync goes on and the run is
     untouched; not `proceed`: the run is skipped; an error: the check could not be started.
     */
    method RunPreCheck(k: Key, run: Run, checkTask: nat, timeoutSeconds: int, env: StartEnv)
      returns (proceed: bool, failed: bool, ghost decision: Option<Decider>)
      modifies this`db, this`clock, this`checkStarts
      ensures failed <==> checkTask !in checkTasks
      ensures clock >= old(clock) && (failed ==> !proceed && db == old(db) && clock == old(clock))
      ensures !failed && CheckRuns(env) ==> EndsWaiting(env, decision, old(clock), clock, timeoutSeconds)
      ensures !failed ==>
                var kc := NewKey(old(db), Check);
                var t := AfterChecking(old(db), checkTask, node, env, decision, old(clock), clock, timeoutSeconds);
                && db == AfterVerdict(t, k, run, kc, clock)
                && kc in t.runs && (proceed <==> VerdictOf(t.runs[kc], kc.id).Proceed?)
    {
      var started := RunCheck(checkTask, env);
      if started.None? {
        return false, true, None;
      }
      var kc := started.value;
      CheckLeavesOthers(old(db), checkTask, node, env, clock);
      var polls;
      polls, decision := WaitForCheck(kc, timeoutSeconds, CHECK_POLL_INTERVAL, env.polls, env.timeoutAlert);
      var preCheck := db.runs[kc];
      if preCheck.status == Success {
        Save(k, run.(status := Skipped, startedAt := Some(clock), finishedAt := Some(clock),
                     error := Some(CheckPassed(kc.id))));
        return false, false, decision;
      }
      if preCheck.verdict == Some(Is(false)) {
        return true, false, decision;
      }
      Save(k, run.(status := Skipped, startedAt := Some(clock), finishedAt := Some(clock),
                   error := Some(CheckBlocked(kc.id, preCheck.error))));
      return false, false, decision;
    }

    /** Submits the sync, unless something has failed already; a failure is recorded and alerted. */
    method FinishStart(k: Key, r: Run, failed: bool, env: StartEnv)
      modifies this`db, this`syncStarts
      ensures syncStarts == old(syncStarts) + (if failed then 0 else 1)
      ensures db == AfterFinish(old(db), k, r, failed, env, clock)
    {
      var run := r;
      if !failed {
        syncStarts := syncStarts + 1;
        if env.start.Accepted? {
          run := run.(job := Some(env.start.job), status := Running, startedAt := Some(clock));
          Save(k, run);
          return;
        }
      }
      run := run.(status := Failed, startedAt := Some(clock), finishedAt := Some(clock), error := Some(StartError));
      SaveAndAlert(k, run, env.alert);
    }

    /** The part behind the guard: the pending row, the references, the pre-check, the submission. */
    method StartRun(taskId: nat, timeoutSeconds: int, env: StartEnv) returns (k: Key, ghost decision: Option<Decider>)
      requires taskId in tasks
      modifies this`db, this`clock, this`syncStarts, this`checkStarts
      ensures k == NewKey(old(db), Sync) && clock >= old(clock)
      ensures CheckRuns(env) && CheckMade(old(db), env, tasks[taskId], checkTasks) != {} ==>
                EndsWaiting(env, decision, old(clock), clock, timeoutSeconds)
      ensures db == AfterStart(old(db), taskId, node, env, tasks[taskId], checkTasks, decision, old(clock), clock,
                               timeoutSeconds)
      ensures syncStarts
              == old(syncStarts) + (if Submits(env, tasks[taskId], checkTasks, old(clock), timeoutSeconds) then 1 else 0)
    {
      decision := None;
      var run := NewPending(taskId, node);
      k := Insert(Sync, run);
      var failed := !env.refsResolve;
      if !failed && tasks[taskId].Some? {
        var proceed;
        ghost var inserted := db;
        proceed, failed, decision := RunPreCheck(k, run, tasks[taskId].value, timeoutSeconds, env);
        if !failed {
          CheckingHolds(inserted, tasks[taskId].value, node, env, decision, old(clock), clock, timeoutSeconds);
        }
        if !failed && !proceed {
          return;
        }
      }
      FinishStart(k, run, failed, env);
    }

    /**
     Runs one task. StartSync is called at most once, and exactly when the guard lets the task
     through, the references resolve, and the bound check, if there is one, exists, is started and
     reports differences in time.
     */
    method RunTask(taskId: nat, timeoutSeconds: int, env: StartEnv) returns (r: Option<Key>, ghost decision: Option<Decider>)
      requires Numbered(db)
      modifies this`db, this`clock, this`syncStarts, this`checkStarts
      ensures Numbered(db)
      ensures taskId !in tasks ==> r == None && db == old(db)
      ensures taskId in tasks ==> r == Some(Key(Sync, old(db).nextSync))
      ensures taskId in tasks && Busy(old(db), taskId) ==>
                var run := Run(taskId, node, Skipped, None, Some(old(clock)), Some(old(clock)), Some(PreviousRunning), None, None);
                db == old(db).(runs := old(db).runs[Key(Sync, old(db).nextSync) := run], nextSync := old(db).nextSync + 1)
      ensures taskId in tasks && !Busy(old(db), taskId) ==>
                && clock >= old(clock)
                && (CheckRuns(env) && CheckMade(old(db), env, tasks[taskId], checkTasks) != {} ==>
                      EndsWaiting(env, decision, old(clock), clock, timeoutSeconds))
                && db == AfterStart(old(db), taskId, node, env, tasks[taskId], checkTasks, decision,
                                    old(clock), clock, timeoutSeconds)
      ensures syncStarts
              == old(syncStarts) + (if taskId in tasks && !Busy(old(db), taskId)
                                       && Submits(env, tasks[taskId], checkTasks, old(clock), timeoutSeconds) then 1 else 0)
    {
      decision := None;
      if taskId !in tasks {
        return None, None;
      }
      var busy := HasActiveRun(taskId);
      if busy {
        var k := Insert(Sync, Run(taskId, node, Skipped, None, Some(clock), Some(clock), Some(PreviousRunning), None, None));
        return Some(k), None;
      }
      var k;
      ghost var t := db;
      k, decision := StartRun(taskId, timeoutSeconds, env);
      StartHolds(t, taskId, node, env, tasks[taskId], checkTasks, decision, old(clock), clock, timeoutSeconds);
      r := Some(k);
    }

    /** The guard query: looks for a pending or running sync run of the task, id by id. */
    method HasActiveRun(taskId: nat) returns (busy: bool)
      requires Numbered(db)
      ensures busy <==> exists id: nat :: Key(Sync, id) in db.runs && db.runs[Key(Sync, id)].task == taskId
                                          && (db.runs[Key(Sync, id)].status == Pending || db.runs[Key(Sync, id)].status == Running)
      ensures busy <==> Busy(db, taskId)
    {
      for id := 0 to db.nextSync
        invariant forall k :: k in db.runs && k.kind.Sync? && k.id < id ==> !(db.runs[k].task == taskId && Active(db.runs[k]))
      {
        var k := Key(Sync, id);
        if k in db.runs && db.runs[k].task == taskId && (db.runs[k].status == Pending || db.runs[k].status == Running) {
          return true;
        }
      }
      busy := false;
    }
  }

  /** A row that a round of polling of node `n` asks about. */
  predicate Mine(k: Key, r: Run, kind: Kind, n: NodeId) {
    k.kind == kind && r.status.Running? && r.node == n && r.job.Some?
  }

  /** The ids of the rows that a round asks about, each once. */
  ghost predicate IsListing(ids: seq<nat>, t: Tables, kind: Kind, n: NodeId) {
    && (forall id: nat :: id in ids <==> Key(kind, id) in t.runs && Mine(Key(kind, id), t.runs[Key(kind, id)], kind, n))
    && forall i, j :: 0 <= i < j < |ids| ==> ids[i] < ids[j]
  }

  /** The tables after the rows have been polled one after the other. */
  function AfterPolls(t: Tables, kind: Kind, ids: seq<nat>, replies: nat -> Reply, now: Time, alerts: nat -> bool): Tables
    decreases |ids|
  {
    if ids == [] then t
    else AfterPolls(AfterPoll(t, Key(kind, ids[0]), replies(ids[0]), now, alerts(ids[0])), kind, ids[1..], replies, now, alerts)
  }

  /** What one poll of `k` has done to the row `x`. */
  ghost predicate PolledFrame(t: Tables, t': Tables, k: Key, reply: Reply, now: Time, x: Key)
    requires x in t.runs && x in t'.runs
  {
    if x == k && Pollable(t, k)
    then t'.runs[x].(notifiedAt := None) == Polled(k.kind, t.runs[x], reply, now).(notifiedAt := None)
    else t'.runs[x] == t.runs[x] || t'.runs[x] == t.runs[x].(notifiedAt := None)
  }

  lemma AfterPollFrame(t: Tables, k: Key, reply: Reply, now: Time, alert: bool, x: Key)
    requires x in t.runs && k in t.runs
    ensures var t' := AfterPoll(t, k, reply, now, alert);
            && t'.runs.Keys == t.runs.Keys && t'.nextSync == t.nextSync && t'.nextCheck == t.nextCheck
            && PolledFrame(t, t', k, reply, now, x)
  {
    SavedAndAlertedFrame(t, k, Polled(k.kind, t.runs[k], reply, now), alert, now, x);
  }

  /** What a round does to a row: polled if it is the node's turn to ask, else at most without its mark. */
  ghost predicate AfterRound(listed: Run, after: Run, asked: bool, kind: Kind, reply: Reply, now: Time) {
    if asked then after.(notifiedAt := None) == Polled(kind, listed, reply, now).(notifiedAt := None)
    else after == listed || after == listed.(notifiedAt := None)
  }

  /** A first poll of `k`, then a round over other rows. */
  lemma RoundInTurn(t: Tables, t1: Tables, k: Key, reply: Reply, now: Time, x: Key, after: Run, later: bool, own: Reply)
    requires x in t.runs && x in t1.runs && Pollable(t, k) && PolledFrame(t, t1, k, reply, now, x)
    requires AfterRound(t1.runs[x], after, later, k.kind, own, now) && (x == k ==> !later && own == reply)
    ensures AfterRound(t.runs[x], after, x == k || later, k.kind, own, now)
  {
  }

  /** A row in a sequence of polls: polled once if its turn comes, else as it was but for its mark. */
  lemma {:induction false} RowInRound(t: Tables, kind: Kind, ids: seq<nat>, replies: nat -> Reply, now: Time,
                                      alerts: nat -> bool, x: Key)
    requires x in t.runs && forall i, j :: 0 <= i < j < |ids| ==> ids[i] < ids[j]
    requires forall id :: id in ids ==> Pollable(t, Key(kind, id))
    ensures var t' := AfterPolls(t, kind, ids, replies, now, alerts);
            && t'.runs.Keys == t.runs.Keys && t'.nextSync == t.nextSync && t'.nextCheck == t.nextCheck
            && AfterRound(t.runs[x], t'.runs[x], x.kind == kind && x.id in ids, kind, replies(x.id), now)
    decreases |ids|
  {
    if ids != [] {
      var k := Key(kind, ids[0]);
      var t1 := AfterPoll(t, k, replies(ids[0]), now, alerts(ids[0]));
      AfterPollFrame(t, k, replies(ids[0]), now, alerts(ids[0]), x);
      forall id | id in ids[1..]
        ensures id != ids[0] && Pollable(t1, Key(kind, id))
      {
        AfterPollFrame(t, k, replies(ids[0]), now, alerts(ids[0]), Key(kind, id));
      }
      RowInRound(t1, kind, ids[1..], replies, now, alerts, x);
      var later := x.kind == kind && x.id in ids[1..];
      assert x == k || later <==> x.kind == kind && x.id in ids;
      RoundInTurn(t, t1, k, replies(ids[0]), now, x, AfterPolls(t1, kind, ids[1..], replies, now, alerts).runs[x], later,
                  replies(x.id));
    }
  }

  /** A whole round: every listed row has been polled once, every other one is as it was but for its mark. */
  lemma RoundHolds(listed: Tables, kind: Kind, n: NodeId, ids: seq<nat>, replies: nat -> Reply, now: Time,
                   alerts: nat -> bool)
    requires IsListing(ids, listed, kind, n)
    ensures var t := AfterPolls(listed, kind, ids, replies, now, alerts);
            && t.runs.Keys == listed.runs.Keys && t.nextSync == listed.nextSync && t.nextCheck == listed.nextCheck
            && forall k :: k in listed.runs ==>
                 AfterRound(listed.runs[k], t.runs[k], Mine(k, listed.runs[k], kind, n), kind, replies(k.id), now)
  {
    forall k | k in listed.runs
      ensures var t := AfterPolls(listed, kind, ids, replies, now, alerts);
              && t.runs.Keys == listed.runs.Keys && t.nextSync == listed.nextSync && t.nextCheck == listed.nextCheck
              && AfterRound(listed.runs[k], t.runs[k], Mine(k, listed.runs[k], kind, n), kind, replies(k.id), now)
    {
      RowInRound(listed, kind, ids, replies, now, alerts, k);
      assert k == Key(k.kind, k.id);
    }
    if ids != [] {
      RowInRound(listed, kind, ids, replies, now, alerts, Key(kind, ids[0]));
    }
  }

  /** After a poll the row is still there, and still running exactly if nothing was decided. */
  lemma PollLeavesRow(t: Tables, k: Key, reply: Reply, now: Time, alert: bool)
    requires k in t.runs
    ensures k in AfterPoll(t, k, reply, now, alert).runs
    ensures Pollable(t, k) ==> (AfterPoll(t, k, reply, now, alert).runs[k].status.Running? <==> !Decides(reply))
  {
    if Pollable(t, k) && Decides(reply) {
      SavedAndAlertedFrame(t, k, Polled(k.kind, t.runs[k], reply, now), alert, now, k);
    }
  }

  // ----- waiting -----

  /** The decision that the poll job's poll ahead of poll `i` makes for a row that was running until then. */
  function JobOutcome(was: Tables, k: Key, ev: nat -> PollEvent, i: nat): Option<Decider> {
    if Pollable(was, k) && JobDecides(ev(i)) then Some(ByJob(i)) else None
  }

  /**
   What a waiting loop knows when it comes to its test before poll `polls`: nothing has been decided,
   or the poll job has just decided.
   */
  ghost predicate Waited(was: Tables, t: Tables, k: Key, ev: nat -> PollEvent, polls: nat, decision: Option<Decider>,
                         start: Time, deadline: Time, interval: nat)
  {
    && k in was.runs && k in t.runs
    && if !Pollable(was, k) then t == was && polls == 0 && decision.None?
       else if decision.None? then t == was && (forall j: nat :: j < polls ==> Quiet(ev(j))) && !JobDecides(ev(polls))
       else
         && decision == Some(ByJob(polls)) && IsDecision(ev, ByJob(polls), start, deadline, interval)
         && t == AfterDecision(was, k, ev, ByJob(polls), start, interval) && !t.runs[k].status.Running?
  }

  /** The waiting is over, with the row as it was decided; a row that was not running is left alone. */
  ghost predicate Ended(was: Tables, t: Tables, k: Key, ev: nat -> PollEvent, decision: Option<Decider>,
                        start: Time, deadline: Time, interval: nat, now: Time)
  {
    && k in was.runs && k in t.runs && !t.runs[k].status.Running?
    && if !Pollable(was, k) then t == was
       else
         && decision.Some? && IsDecision(ev, decision.value, start, deadline, interval)
         && t == AfterDecision(was, k, ev, decision.value, start, interval)
         && DecisionTime(ev, decision.value, start, interval) <= now
  }

  /** The time is up and nobody has learnt anything. */
  ghost predicate TimedOutWaiting(was: Tables, k: Key, ev: nat -> PollEvent, decision: Option<Decider>,
                                  start: Time, deadline: Time, interval: nat, now: Time)
  {
    Pollable(was, k) && decision.None? && NoDecision(ev, start, deadline, interval) && now >= deadline
  }

  /** What decides after poll `i`. */
  function PollOutcome(was: Tables, k: Key, ev: nat -> PollEvent, i: nat, decision: Option<Decider>): Option<Decider> {
    if Pollable(was, k) && decision.None? then Some(ByPoll(i)) else decision
  }

  /** The tables after the poll job's turn. */
  function AfterJob(was: Tables, k: Key, ev: nat -> PollEvent, i: nat, start: Time, interval: nat): Tables {
    if ev(i).before.Some? then AfterPoll(was, k, JobAt(ev, i).reply, JobTime(ev, i, start, interval), JobAt(ev, i).alert)
    else was
  }

  lemma JobTurn(was: Tables, k: Key, ev: nat -> PollEvent, i: nat, start: Time, deadline: Time, interval: nat)
    requires k in was.runs && (!Pollable(was, k) ==> i == 0) && (was.runs[k].status.Running? ==> Pollable(was, k))
    requires Reached(ev, i, start, deadline, interval) && forall j: nat :: j < i ==> Quiet(ev(j))
    ensures Waited(was, AfterJob(was, k, ev, i, start, interval), k, ev, i, JobOutcome(was, k, ev, i), start, deadline,
                   interval)
    ensures DecisionTime(ev, ByJob(i), start, interval) == JobTime(ev, i, start, interval) <= PollStart(ev, i, start, interval)
  {
    PollLeavesRow(was, k, JobAt(ev, i).reply, JobTime(ev, i, start, interval), JobAt(ev, i).alert);
  }

  /** After a poll the row is running only if nothing has been decided; else the decision is the job's or this poll's. */
  lemma PollTurn(was: Tables, t: Tables, k: Key, ev: nat -> PollEvent, i: nat, decision: Option<Decider>,
                 start: Time, deadline: Time, interval: nat)
    requires Waited(was, t, k, ev, i, decision, start, deadline, interval) && Made(ev, i, start, deadline, interval)
    requires was.runs[k].status.Running? ==> Pollable(was, k)
    requires decision.Some? ==> DecisionTime(ev, decision.value, start, interval) <= PollStart(ev, i, start, interval)
    ensures var now := PollStart(ev, i, start, interval) + ev(i).took;
            var t' := AfterPoll(t, k, ev(i).reply, now, ev(i).alert);
            && k in t'.runs
            && if t'.runs[k].status.Running? then Pollable(was, k) && t' == was && forall j: nat :: j <= i ==> Quiet(ev(j))
               else Ended(was, t', k, ev, PollOutcome(was, k, ev, i, decision), start, deadline, interval, now)
  {
    if Pollable(was, k) && decision.None? {
      PollLeavesRow(was, k, ev(i).reply, PollStart(ev, i, start, interval) + ev(i).took, ev(i).alert);
    } else {
      assert !t.runs[k].status.Running?;
    }
  }

  /** When the time is up and nothing has been decided, nothing was in time. */
  lemma WaitedInVain(was: Tables, t: Tables, k: Key, ev: nat -> PollEvent, polls: nat, decision: Option<Decider>,
                     start: Time, deadline: Time, interval: nat)
    requires Waited(was, t, k, ev, polls, decision, start, deadline, interval)
    requires PollStart(ev, polls, start, interval) >= deadline
    ensures Pollable(was, k) && decision.None? ==> NoDecision(ev, start, deadline, interval)
  {
    if Pollable(was, k) && decision.None? {
      forall i: nat
        ensures Reached(ev, i, start, deadline, interval) ==> !JobDecides(ev(i))
        ensures Made(ev, i, start, deadline, interval) ==> !Decides(ev(i).reply)
      {
        if i < polls {
          assert Quiet(ev(i));
        } else {
          PollStartsAscend(ev, polls, i, start, interval);
          if i > polls {
            PollStartsAscend(ev, polls, i - 1, start, interval);
          }
        }
      }
    }
  }
}
