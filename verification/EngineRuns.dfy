/**
 What the engine of a node does is an execution of `RunProtocol` in which the other nodes stand still:
 so everything that `RunTheorems` says of executions holds of the engine.
 */
module EngineRuns {
  import opened Options
  import opened Runs
  import opened RunProtocol
  import opened TaskStart
  import opened RunEngine

  // ----- single steps -----

  /** No thread of the node works on `k`, and `k` is not taken. */
  lemma NewKeyIsFree(w: World, kind: Kind)
    requires Inv(w)
    ensures NewKey(w.db, kind) !in w.db.runs && NewKey(w.db, kind) !in w.flights
  {
    RowIsOk(w, NewKey(w.db, kind));
  }

  lemma Waits(e: Execution, now: Time) returns (e': Execution)
    requires IsRun(e) && Last(e).clock <= now
    ensures IsRun(e') && Last(e') == Last(e).(clock := now)
  {
    e' := Then(e, Tick(now - Last(e).clock));
  }

  /** The job is submitted and the row saved as running. */
  lemma SubmitsJob(e: Execution, k: Key) returns (e': Execution)
    requires IsRun(e) && Enabled(Last(e), Submit(k, true)) && k in Last(e).db.runs
    ensures IsRun(e') && Last(e').clock == Last(e).clock && Last(e').flights == Last(e).flights - {k}
    ensures var w, n := Last(e), Last(e).flights[k].node;
            && Last(e').db == Saved(w.db, k, Started(w.db.runs[k], w.rcds[n].next, w.clock))
            && Last(e').rcds == w.rcds[n := Rcd(w.rcds[n].next + 1, w.rcds[n].jobs[w.rcds[n].next := Job(k, None)])]
  {
    e' := Then(e, Submit(k, true));
    e' := Then(e', Record(k));
  }

  /** The start fails; the job was refused, or there was none to submit. */
  lemma Fails(e: Execution, k: Key, alert: bool) returns (e': Execution)
    requires IsRun(e) && Enabled(Last(e), FailStart(k, alert))
    ensures IsRun(e') && Last(e').clock == Last(e).clock && Last(e').rcds == Last(e).rcds
    ensures Last(e').db == SavedAndAlerted(Last(e).db, k, StartFailed(Last(e).db.runs[k], Last(e).clock), alert, Last(e).clock)
    ensures Last(e').flights == Last(e).flights - {k}
  {
    e' := Then(e, FailStart(k, alert));
  }

  /** The answers of the rcd fit its state: a job that it accepts has the next free id. */
  predicate AcceptsNext(reply: StartReply, rcd: Rcd) {
    reply.Accepted? ==> reply.job == rcd.next
  }

  /** Where a step of the engine has led: the tables, the clock, the threads, and the node's job counter. */
  ghost predicate At(e: Execution, n: NodeId, db: Tables, now: Time, flights: map<Key, Flight>, jobs: nat) {
    && IsRun(e) && IsNode(Last(e), n)
    && Last(e).db == db && Last(e).clock == now && Last(e).flights == flights && Last(e).rcds[n].next == jobs
  }

  /** A thread of node `n` that has created the row `k` and is still to submit it. */
  predicate Starting(w: World, n: NodeId, k: Key) {
    && IsNode(w, n) && k in w.db.runs && k in w.flights && w.flights[k].node == n && w.flights[k].progress.Fresh?
  }

  /** FinishStart. */
  lemma FinishIsARun(e: Execution, k: Key, n: NodeId, failed: bool, env: StartEnv) returns (e': Execution)
    requires IsRun(e) && Starting(Last(e), n, k) && AcceptsNext(env.start, Last(e).rcds[n])
    requires failed || Enabled(Last(e), Submit(k, true))
    ensures At(e', n, AfterFinish(Last(e).db, k, Last(e).db.runs[k], failed, env, Last(e).clock), Last(e).clock,
               Last(e).flights - {k}, Last(e).rcds[n].next + if !failed && env.start.Accepted? then 1 else 0)
  {
    if !failed && env.start.Accepted? {
      e' := SubmitsJob(e, k);
    } else {
      e' := Fails(e, k, env.alert);
    }
  }

  lemma FreeKeyLeaves(flights: map<Key, Flight>, k: Key, f: Flight)
    requires k !in flights
    ensures flights[k := f] - {k} == flights
  {
  }

  lemma CreatesSync(e: Execution, n: NodeId, taskId: nat, bound: Option<nat>) returns (e': Execution)
    requires IsRun(e) && IsNode(Last(e), n) && !Busy(Last(e).db, taskId)
    ensures IsRun(e') && Last(e').clock == Last(e).clock && Last(e').rcds == Last(e).rcds
    ensures var k := NewKey(Last(e).db, Sync);
            && Last(e').db == Inserted(Last(e).db, Sync, NewPending(taskId, n)) && k !in Last(e).flights
            && Last(e').flights == Last(e).flights[k := Flight(n, Fresh, bound, None)]
  {
    InvHolds(e, |e.ws| - 1);
    NewKeyIsFree(Last(e), Sync);
    e' := Then(e, CreateSync(n, taskId, bound));
  }

  /** The threads when the check `kc` has been made for `asker`. */
  function Asked(flights: map<Key, Flight>, asker: Option<Key>, kc: Key): map<Key, Flight> {
    if asker.None? || asker.value !in flights then flights
    else flights[asker.value := flights[asker.value].(check := Some(kc))]
  }

  lemma AskedKeeps(flights: map<Key, Flight>, asker: Option<Key>, kc: Key, f: Flight)
    requires kc !in flights && (asker.Some? ==> asker.value in flights)
    ensures Asked(flights[kc := f], asker, kc) - {kc} == Asked(flights, asker, kc)
    ensures kc in Asked(flights[kc := f], asker, kc) && Asked(flights[kc := f], asker, kc)[kc] == f
  {
  }

  lemma MadeCheck(w: World, n: NodeId, checkTask: nat, asker: Option<Key>)
    requires Enabled(w, CreateCheck(n, checkTask, asker)) && NewKey(w.db, Check) !in w.flights
    ensures var w', kc, f := Next(w, CreateCheck(n, checkTask, asker)), NewKey(w.db, Check), Flight(n, Fresh, None, None);
            && w'.clock == w.clock && w'.rcds == w.rcds && w'.db == Inserted(w.db, Check, NewPending(checkTask, n))
            && kc in w'.flights && w'.flights[kc] == f && w'.flights - {kc} == Asked(w.flights, asker, kc)
  {
    var kc, f := NewKey(w.db, Check), Flight(n, Fresh, None, None);
    assert Create(w, n, Check, NewPending(checkTask, n), None).flights == w.flights[kc := f];
    AskedKeeps(w.flights, asker, kc, f);
  }

  lemma CreatesCheck(e: Execution, n: NodeId, checkTask: nat, asker: Option<Key>) returns (e': Execution)
    requires IsRun(e) && Enabled(Last(e), CreateCheck(n, checkTask, asker))
    ensures IsRun(e') && Last(e').clock == Last(e).clock && Last(e').rcds == Last(e).rcds
    ensures var kc := NewKey(Last(e).db, Check);
            && Last(e').db == Inserted(Last(e).db, Check, NewPending(checkTask, n))
            && kc in Last(e').flights && Last(e').flights[kc] == Flight(n, Fresh, None, None)
            && Last(e').flights - {kc} == Asked(Last(e).flights, asker, kc)
  {
    InvHolds(e, |e.ws| - 1);
    NewKeyIsFree(Last(e), Check);
    MadeCheck(Last(e), n, checkTask, asker);
    e' := Then(e, CreateCheck(n, checkTask, asker));
  }

  // ----- a check -----

  /** The row runs as the node's job, which has not finished yet. */
  predicate AwaitsJob(w: World, n: NodeId, k: Key) {
    && OwnedRunning(w, n, k) && w.db.runs[k].job.Some?
    && var job := w.db.runs[k].job.value; job in w.rcds[n].jobs && w.rcds[n].jobs[job].report.None?
  }

  /** RunCheck; a submitted check has a job on the node's rcd that is not finished. */
  lemma CheckIsARun(e: Execution, n: NodeId, checkTask: nat, asker: Option<Key>, env: StartEnv) returns (e': Execution)
    requires IsRun(e) && Enabled(Last(e), CreateCheck(n, checkTask, asker)) && AcceptsNext(env.checkStart, Last(e).rcds[n])
    ensures At(e', n, AfterRunCheck(Last(e).db, checkTask, n, env, Last(e).clock), Last(e).clock,
               Asked(Last(e).flights, asker, NewKey(Last(e).db, Check)),
               Last(e).rcds[n].next + if CheckRuns(env) then 1 else 0)
    ensures CheckRuns(env) ==> AwaitsJob(Last(e'), n, NewKey(Last(e).db, Check))
  {
    var kc := NewKey(Last(e).db, Check);
    var e1 := CreatesCheck(e, n, checkTask, asker);
    if CheckRuns(env) {
      e' := SubmitsJob(e1, kc);
    } else {
      e' := Fails(e1, kc, env.checkAlert);
    }
  }

  /** A poll that decides: the job finishes, if that is the news, and the node learns of it. */
  lemma DecidesNow(e: Execution, n: NodeId, k: Key, reply: Reply, alert: bool) returns (e': Execution)
    requires IsRun(e) && AwaitsJob(Last(e), n, k) && Decides(reply)
    ensures At(e', n, AfterPoll(Last(e).db, k, reply, Last(e).clock, alert), Last(e).clock, Last(e).flights,
               Last(e).rcds[n].next)
  {
    e' := e;
    if reply.JobStatus? {
      e' := Then(e', Finish(n, Last(e).db.runs[k].job.value, reply.body));
    }
    e' := Then(e', Poll(n, k, reply, alert));
  }

  lemma TimesOut(e: Execution, n: NodeId, k: Key, seconds: int, alert: bool) returns (e': Execution)
    requires IsRun(e) && AwaitsJob(Last(e), n, k) && k.kind.Check?
    ensures At(e', n, AfterTimeout(Last(e).db, k, Last(e).clock, seconds, alert), Last(e).clock, Last(e).flights,
               Last(e).rcds[n].next)
  {
    e' := Then(e, TimeOut(n, k, seconds, alert));
  }

  lemma DecisionIsLater(ev: nat -> PollEvent, d: Decider, began: Time, interval: nat)
    ensures DecisionTime(ev, d, began, interval) >= began
  {
    PollStartsAscend(ev, 0, d.i, began, interval);
    PollStartsAscend(ev, 0, if d.i > 0 then d.i - 1 else 0, began, interval);
  }

  /** WaitForCheck: whoever learns the decision, the waiting thread or the poll job, learns it at its time. */
  lemma WaitingIsARun(e: Execution, n: NodeId, k: Key, env: StartEnv, decision: Option<Decider>, now: Time,
                      timeoutSeconds: int) returns (e': Execution)
    requires IsRun(e) && AwaitsJob(Last(e), n, k) && k.kind.Check? && Last(e).clock <= now
    requires EndsWaiting(env, decision, Last(e).clock, now, timeoutSeconds)
    ensures At(e', n, AfterWait(Last(e).db, k, env, decision, Last(e).clock, now, timeoutSeconds), now, Last(e).flights,
               Last(e).rcds[n].next)
  {
    match decision {
      case Some(d) =>
        DecisionIsLater(env.polls, d, Last(e).clock, CHECK_POLL_INTERVAL);
        e' := Waits(e, DecisionTime(env.polls, d, Last(e).clock, CHECK_POLL_INTERVAL));
        e' := DecidesNow(e', n, k, DecidingReply(env.polls, d), DecidingAlert(env.polls, d));
        e' := Waits(e', now);
      case None =>
        e' := Waits(e, now);
        e' := TimesOut(e', n, k, timeoutSeconds, env.timeoutAlert);
    }
  }

  /** RunCheck and WaitForCheck. */
  lemma CheckingIsARun(e: Execution, n: NodeId, checkTask: nat, asker: Option<Key>, env: StartEnv,
                       decision: Option<Decider>, now: Time, timeoutSeconds: int) returns (e': Execution)
    requires IsRun(e) && Enabled(Last(e), CreateCheck(n, checkTask, asker)) && AcceptsNext(env.checkStart, Last(e).rcds[n])
    requires Last(e).clock <= now && (CheckRuns(env) ==> EndsWaiting(env, decision, Last(e).clock, now, timeoutSeconds))
    ensures At(e', n, AfterChecking(Last(e).db, checkTask, n, env, decision, Last(e).clock, now, timeoutSeconds), now,
               Asked(Last(e).flights, asker, NewKey(Last(e).db, Check)),
               Last(e).rcds[n].next + if CheckRuns(env) then 1 else 0)
  {
    var kc := NewKey(Last(e).db, Check);
    CheckLeavesOthers(Last(e).db, checkTask, n, env, Last(e).clock);
    var e1 := CheckIsARun(e, n, checkTask, asker, env);
    if CheckRuns(env) {
      e' := WaitingIsARun(e1, n, kc, env, decision, now, timeoutSeconds);
    } else {
      e' := Waits(e1, now);
    }
  }

  // ----- a task -----

  /** The answers of one start fit the rcd: a check's job comes before the sync's. */
  predicate AnswersFit(env: StartEnv, rcd: Rcd, preCheck: Option<nat>, checkTasks: set<nat>) {
    && AcceptsNext(env.checkStart, rcd)
    && (env.start.Accepted? ==>
          env.start.job == rcd.next + if Prepared(env, preCheck, checkTasks) && preCheck.Some? && CheckRuns(env) then 1 else 0)
  }

  /** RunTask, for a task that the guard lets through. */
  lemma StartIsARun(e: Execution, n: NodeId, taskId: nat, env: StartEnv, preCheck: Option<nat>, checkTasks: set<nat>,
                    decision: Option<Decider>, now: Time, timeoutSeconds: int) returns (e': Execution)
    requires IsRun(e) && IsNode(Last(e), n) && !Busy(Last(e).db, taskId) && Last(e).clock <= now
    requires AnswersFit(env, Last(e).rcds[n], preCheck, checkTasks)
    requires CheckRuns(env) && CheckMade(Last(e).db, env, preCheck, checkTasks) != {} ==>
               EndsWaiting(env, decision, Last(e).clock, now, timeoutSeconds)
    ensures IsRun(e')
    ensures Last(e').db == AfterStart(Last(e).db, taskId, n, env, preCheck, checkTasks, decision, Last(e).clock, now,
                                      timeoutSeconds)
    ensures Last(e').flights == Last(e).flights && Last(e').clock == now
  {
    var k := NewKey(Last(e).db, Sync);
    var e1 := CreatesSync(e, n, taskId, preCheck);
    FreeKeyLeaves(Last(e).flights, k, Flight(n, Fresh, preCheck, None));
    if !Prepared(env, preCheck, checkTasks) || preCheck.None? {
      var e2 := Waits(e1, now);
      e' := FinishIsARun(e2, k, n, !Prepared(env, preCheck, checkTasks), env);
    } else {
      e' := CheckedIsARun(e1, n, k, preCheck.value, env, decision, now, timeoutSeconds);
    }
  }

  /** RunPreCheck, and the submission if it lets the run go on. */
  lemma CheckedIsARun(e: Execution, n: NodeId, k: Key, checkTask: nat, env: StartEnv, decision: Option<Decider>, now: Time,
                      timeoutSeconds: int) returns (e': Execution)
    requires IsRun(e) && MayAsk(Last(e), n, checkTask, k) && Starting(Last(e), n, k) && Last(e).clock <= now
    requires AcceptsNext(env.checkStart, Last(e).rcds[n])
    requires env.start.Accepted? ==> env.start.job == Last(e).rcds[n].next + if CheckRuns(env) then 1 else 0
    requires CheckRuns(env) ==> EndsWaiting(env, decision, Last(e).clock, now, timeoutSeconds)
    ensures IsRun(e') && Last(e').flights == Last(e).flights - {k} && Last(e').clock == now
    ensures var kc, run := NewKey(Last(e).db, Check), Last(e).db.runs[k];
            var t := AfterChecking(Last(e).db, checkTask, n, env, decision, Last(e).clock, now, timeoutSeconds);
            var t' := AfterVerdict(t, k, run, kc, now);
            Last(e').db == if kc in t.runs && VerdictOf(t.runs[kc], kc.id).Skip? then t'
                           else AfterFinish(t', k, run, false, env, now)
  {
    var kc := NewKey(Last(e).db, Check);
    var t := AfterChecking(Last(e).db, checkTask, n, env, decision, Last(e).clock, now, timeoutSeconds);
    var e1 := CheckingIsARun(e, n, checkTask, Some(k), env, decision, now, timeoutSeconds);
    CheckingHolds(Last(e).db, checkTask, n, env, decision, Last(e).clock, now, timeoutSeconds);
    assert t.runs[k] == Last(e).db.runs[k];
    assert Last(e1).flights - {k} == Last(e).flights - {k};
    if VerdictOf(t.runs[kc], kc.id).Skip? {
      e' := Then(e1, SkipByCheck(k));
    } else {
      e' := FinishIsARun(e1, k, n, false, env);
    }
  }

  // ----- a round of polling -----

  /** The rows to poll are the node's, running, and the answers to come are answers of its rcd. */
  ghost predicate Askable(w: World, n: NodeId, kind: Kind, ids: seq<nat>, replies: nat -> Reply) {
    && IsNode(w, n) && (forall i, j :: 0 <= i < j < |ids| ==> ids[i] < ids[j])
    && forall id :: id in ids ==>
         var k := Key(kind, id);
         && k in w.db.runs && Mine(k, w.db.runs[k], kind, n)
         && Answers(w.rcds[n], w.db.runs[k].job.value, replies(id))
  }

  lemma PollsOne(e: Execution, n: NodeId, kind: Kind, ids: seq<nat>, replies: nat -> Reply, alerts: nat -> bool)
    returns (e': Execution)
    requires IsRun(e) && ids != [] && Askable(Last(e), n, kind, ids, replies)
    ensures IsRun(e') && Askable(Last(e'), n, kind, ids[1..], replies) && Last(e').clock == Last(e).clock
    ensures Last(e').db == AfterPoll(Last(e).db, Key(kind, ids[0]), replies(ids[0]), Last(e).clock, alerts(ids[0]))
  {
    var k := Key(kind, ids[0]);
    e' := Then(e, Poll(n, k, replies(ids[0]), alerts(ids[0])));
    forall id | id in ids[1..]
      ensures Key(kind, id) in Last(e').db.runs && Mine(Key(kind, id), Last(e').db.runs[Key(kind, id)], kind, n)
      ensures Last(e').db.runs[Key(kind, id)].job == Last(e).db.runs[Key(kind, id)].job
    {
      AfterPollFrame(Last(e).db, k, replies(ids[0]), Last(e).clock, alerts(ids[0]), Key(kind, id));
    }
  }

  lemma {:induction false} PollsAreARun(e: Execution, n: NodeId, kind: Kind, ids: seq<nat>, replies: nat -> Reply,
                                        alerts: nat -> bool) returns (e': Execution)
    requires IsRun(e) && Askable(Last(e), n, kind, ids, replies)
    ensures IsRun(e') && Last(e').db == AfterPolls(Last(e).db, kind, ids, replies, Last(e).clock, alerts)
    decreases |ids|
  {
    if ids == [] {
      e' := e;
    } else {
      var e1 := PollsOne(e, n, kind, ids, replies, alerts);
      e' := PollsAreARun(e1, n, kind, ids[1..], replies, alerts);
    }
  }

  /** PollRunningRuns and PollRunningChecks. */
  lemma RoundIsARun(e: Execution, n: NodeId, kind: Kind, ids: seq<nat>, replies: nat -> Reply, alerts: nat -> bool)
    returns (e': Execution)
    requires IsRun(e) && IsNode(Last(e), n) && IsListing(ids, Claimed(Last(e).db, kind, n), kind, n)
    requires forall id :: id in ids ==>
               Answers(Last(e).rcds[n], Claimed(Last(e).db, kind, n).runs[Key(kind, id)].job.value, replies(id))
    ensures IsRun(e') && Last(e').db == AfterPolls(Claimed(Last(e).db, kind, n), kind, ids, replies, Last(e).clock, alerts)
  {
    var e1 := Then(e, Claim(kind, n));
    e' := PollsAreARun(e1, n, kind, ids, replies, alerts);
  }
}
