/**
 What starting a task does to the run rows, as functions of what the world answers: the waiting for
 a check, the check's verdict, and the row of the run at the end.
 */
module TaskStart {
  import opened Options
  import opened Arithmetic
  import opened Runs

  datatype StartReply = Accepted(job: nat) | Refused

  // What the node's poll job may do to the waited-for row: an answer that it gets, whether an alert
  // goes out, and when in the sleep it happens.
  datatype JobPoll = JobPoll(reply: Reply, alert: bool, after: nat)

  // One turn of a waiting loop: what the poll job does before the poll, the answer to the poll, whether
  // an alert goes out, how long the query takes, and by how much the following sleep overruns. Of
  // several polls by the job between two polls of the loop, only the first that decides matters.
  datatype PollEvent = PollEvent(before: Option<JobPoll>, reply: Reply, alert: bool, took: nat, overslept: nat)

  // What the world answers while a task is started.
  datatype StartEnv = StartEnv(refsResolve: bool, start: StartReply, alert: bool,
                               checkRefsResolve: bool, checkStart: StartReply, checkAlert: bool,
                               polls: nat -> PollEvent, timeoutAlert: bool)

  const SECOND := 1000000000
  const CHECK_POLL_INTERVAL := 5 * SECOND

  // ----- waiting -----

  /** The moment at which poll `i` begins, if all polls before it decide nothing. */
  function PollStart(ev: nat -> PollEvent, i: nat, now: Time, interval: nat): Time {
    if i == 0 then now
    else PollStart(ev, i - 1, now, interval) + ev(i - 1).took + interval + ev(i - 1).overslept
  }

  // Who learns what decides the check: the waiting thread at poll `i`, or the poll job before it.
  datatype Decider = ByPoll(i: nat) | ByJob(i: nat)

  predicate JobDecides(e: PollEvent) {
    e.before.Some? && Decides(e.before.value.reply)
  }

  /** The loop comes to its test before poll `i`. */
  predicate Reached(ev: nat -> PollEvent, i: nat, now: Time, deadline: Time, interval: nat) {
    i == 0 || PollStart(ev, i - 1, now, interval) < deadline
  }

  predicate Made(ev: nat -> PollEvent, i: nat, now: Time, deadline: Time, interval: nat) {
    PollStart(ev, i, now, interval) < deadline
  }

  predicate Quiet(e: PollEvent) {
    !JobDecides(e) && !Decides(e.reply)
  }

  /** The first to learn it in time, with nothing decided before. */
  ghost predicate IsDecision(ev: nat -> PollEvent, d: Decider, now: Time, deadline: Time, interval: nat) {
    && (forall j: nat :: j < d.i ==> Quiet(ev(j)))
    && match d
       case ByJob(i) => Reached(ev, i, now, deadline, interval) && JobDecides(ev(i))
       case ByPoll(i) => Made(ev, i, now, deadline, interval) && !JobDecides(ev(i)) && Decides(ev(i).reply)
  }

  /** Nobody learns anything in time. */
  ghost predicate NoDecision(ev: nat -> PollEvent, now: Time, deadline: Time, interval: nat) {
    forall i: nat ::
      && (Reached(ev, i, now, deadline, interval) ==> !JobDecides(ev(i)))
      && (Made(ev, i, now, deadline, interval) ==> !Decides(ev(i).reply))
  }

  function JobAt(ev: nat -> PollEvent, i: nat): JobPoll {
    if ev(i).before.Some? then ev(i).before.value else JobPoll(QueryError(false, 0), false, 0)
  }

  function Min(a: nat, b: nat): nat {
    if a < b then a else b
  }

  /** When the poll job polls ahead of poll `i`: at once, or in the sleep after the poll before. */
  function JobTime(ev: nat -> PollEvent, i: nat, now: Time, interval: nat): Time {
    if i == 0 then now
    else PollStart(ev, i - 1, now, interval) + ev(i - 1).took + Min(JobAt(ev, i).after, interval + ev(i - 1).overslept)
  }

  function DecisionTime(ev: nat -> PollEvent, d: Decider, now: Time, interval: nat): Time {
    match d
    case ByPoll(i) => PollStart(ev, i, now, interval) + ev(i).took
    case ByJob(i) => JobTime(ev, i, now, interval)
  }

  function DecidingReply(ev: nat -> PollEvent, d: Decider): Reply {
    match d
    case ByPoll(i) => ev(i).reply
    case ByJob(i) => JobAt(ev, i).reply
  }

  function DecidingAlert(ev: nat -> PollEvent, d: Decider): bool {
    match d
    case ByPoll(i) => ev(i).alert
    case ByJob(i) => JobAt(ev, i).alert
  }

  /** The decision puts the row into its final state at its time. */
  function AfterDecision(t: Tables, k: Key, ev: nat -> PollEvent, d: Decider, now: Time, interval: nat): Tables {
    AfterPoll(t, k, DecidingReply(ev, d), DecisionTime(ev, d, now, interval), DecidingAlert(ev, d))
  }

  lemma {:induction false} PollStartsGrow(ev: nat -> PollEvent, i: nat, now: Time, interval: nat)
    ensures PollStart(ev, i, now, interval) >= now + i * interval
  {
    if i > 0 {
      PollStartsGrow(ev, i - 1, now, interval);
      assert i * interval == (i - 1) * interval + interval;
    }
  }

  lemma {:induction false} PollStartsAscend(ev: nat -> PollEvent, i: nat, j: nat, now: Time, interval: nat)
    requires i <= j
    ensures PollStart(ev, i, now, interval) <= PollStart(ev, j, now, interval)
  {
    if i < j {
      PollStartsAscend(ev, i, j - 1, now, interval);
    }
  }

  /** The polls of a check: five seconds of sleep between them, and none once the timeout, in seconds, has passed. */
  lemma {:induction false} PollTimes(ev: nat -> PollEvent, i: nat, now: Time, timeoutSeconds: int)
    ensures PollStart(ev, 0, now, CHECK_POLL_INTERVAL) == now
    ensures PollStart(ev, i + 1, now, CHECK_POLL_INTERVAL)
            == PollStart(ev, i, now, CHECK_POLL_INTERVAL) + ev(i).took + 5_000_000_000 + ev(i).overslept
    ensures Made(ev, i, now, now + timeoutSeconds * SECOND, CHECK_POLL_INTERVAL)
            <==> PollStart(ev, i, now, CHECK_POLL_INTERVAL) < now + 1_000_000_000 * timeoutSeconds
    ensures Made(ev, i, now, now + timeoutSeconds * SECOND, CHECK_POLL_INTERVAL) ==> 5 * i < timeoutSeconds
    ensures Reached(ev, i, now, now + timeoutSeconds * SECOND, CHECK_POLL_INTERVAL)
            <==> i == 0 || PollStart(ev, i - 1, now, CHECK_POLL_INTERVAL) < now + 1_000_000_000 * timeoutSeconds
  {
    PollStartsGrow(ev, i, now, CHECK_POLL_INTERVAL);
  }

  // ----- the decision -----

  /**
   The check is started, and what decides it, in time, is the news that the two sides differ: a finished
   job whose output says success = false, whether or not the job itself counts as a success.
   */
  ghost predicate ChecksDiffer(env: StartEnv, now: Time, timeoutSeconds: int) {
    && env.checkRefsResolve && env.checkStart.Accepted?
    && exists d :: IsDecision(env.polls, d, now, now + timeoutSeconds * SECOND, CHECK_POLL_INTERVAL)
                   && SaysDiffer(DecidingReply(env.polls, d))
  }

  predicate SaysDiffer(reply: Reply) {
    reply.JobStatus? && reply.body.outputSuccess == Is(false)
  }

  /** The check's job is submitted. */
  predicate CheckRuns(env: StartEnv) {
    env.checkRefsResolve && env.checkStart.Accepted?
  }

  /** How the waiting for a submitted check has ended: with the first decision in time, or when the time was up. */
  ghost predicate EndsWaiting(env: StartEnv, decision: Option<Decider>, began: Time, now: Time, timeoutSeconds: int) {
    var deadline := began + timeoutSeconds * SECOND;
    match decision
    case Some(d) =>
      IsDecision(env.polls, d, began, deadline, CHECK_POLL_INTERVAL)
      && DecisionTime(env.polls, d, began, CHECK_POLL_INTERVAL) <= now
    case None => NoDecision(env.polls, began, deadline, CHECK_POLL_INTERVAL) && deadline <= now
  }

  /** The references resolve, and the bound check, if there is one, exists. */
  predicate Prepared(env: StartEnv, preCheck: Option<nat>, checkTasks: set<nat>) {
    env.refsResolve && (preCheck.Some? ==> preCheck.value in checkTasks)
  }

  /** Whether StartSync is called. */
  ghost predicate Submits(env: StartEnv, preCheck: Option<nat>, checkTasks: set<nat>, began: Time, timeoutSeconds: int) {
    Prepared(env, preCheck, checkTasks) && (preCheck.Some? ==> ChecksDiffer(env, began, timeoutSeconds))
  }

  /**
   The check is started, and the first answer in time that is not to be asked for again, whoever gets it, is that of
   a finished job whose output says success = false.
   */
  ghost predicate SaysDifferencesInTime(env: StartEnv, now: Time, timeoutSeconds: int) {
    && env.checkRefsResolve && env.checkStart.Accepted?
    && exists d :: IsDecision(env.polls, d, now, now + 1_000_000_000 * timeoutSeconds, 5_000_000_000)
                   && match DecidingReply(env.polls, d)
                      case QueryError(_, _) => false
                      case JobStatus(body) => body.outputSuccess == Is(false)
  }

  /** When StartSync is called for a task that the guard lets through. */
  lemma SubmitsExactly(env: StartEnv, preCheck: Option<nat>, checkTasks: set<nat>, began: Time, timeoutSeconds: int)
    ensures Submits(env, preCheck, checkTasks, began, timeoutSeconds)
            <==> env.refsResolve
                 && (preCheck == None
                     || (preCheck.value in checkTasks && SaysDifferencesInTime(env, began, timeoutSeconds)))
  {
    var deadline := began + timeoutSeconds * SECOND;
    forall d | IsDecision(env.polls, d, began, deadline, CHECK_POLL_INTERVAL)
      ensures SaysDiffer(DecidingReply(env.polls, d))
              <==> match DecidingReply(env.polls, d)
                   case QueryError(_, _) => false
                   case JobStatus(body) => body.outputSuccess == Is(false)
    {
    }
  }

  /** An answer that is not to be asked for again: a definite refusal, or the end of the job. */
  predicate IsFinal(reply: Reply) {
    match reply
    case QueryError(fromRcd, code) => fromRcd && code != 0 && code < 500
    case JobStatus(body) => body.finished == Is(true)
  }

  /** The first final answer in time: of the poll job before poll `i`, or of that poll itself. */
  lemma DecisionMeans(ev: nat -> PollEvent, i: nat, now: Time, timeoutSeconds: int)
    ensures var deadline := now + timeoutSeconds * SECOND;
            var quiet := forall j: nat :: j < i ==>
                           !IsFinal(ev(j).reply) && (ev(j).before != None ==> !IsFinal(ev(j).before.value.reply));
            var jobFinal := ev(i).before != None && IsFinal(ev(i).before.value.reply);
            && (IsDecision(ev, ByJob(i), now, deadline, CHECK_POLL_INTERVAL)
                <==> quiet && jobFinal
                     && (i == 0 || PollStart(ev, i - 1, now, CHECK_POLL_INTERVAL) < now + 1_000_000_000 * timeoutSeconds))
            && (IsDecision(ev, ByPoll(i), now, deadline, CHECK_POLL_INTERVAL)
                <==> quiet && !jobFinal && IsFinal(ev(i).reply)
                     && PollStart(ev, i, now, CHECK_POLL_INTERVAL) < now + 1_000_000_000 * timeoutSeconds)
            && (jobFinal ==> DecidingReply(ev, ByJob(i)) == ev(i).before.value.reply)
            && DecidingReply(ev, ByPoll(i)) == ev(i).reply
  {
    forall reply: Reply
      ensures Decides(reply) <==> IsFinal(reply)
    {
    }
  }

  /**
   A decision enters the row with the waiting thread's alert when its query is back, or with the poll job's when the
   job wakes up: at once before the first poll, and otherwise within the sleep behind the query before.
   */
  lemma DecisionTimes(ev: nat -> PollEvent, i: nat, now: Time)
    ensures DecisionTime(ev, ByPoll(i), now, CHECK_POLL_INTERVAL) == PollStart(ev, i, now, CHECK_POLL_INTERVAL) + ev(i).took
    ensures DecidingAlert(ev, ByPoll(i)) == ev(i).alert
    ensures DecisionTime(ev, ByJob(0), now, CHECK_POLL_INTERVAL) == now
    ensures ev(i + 1).before != None ==>
              var job := ev(i + 1).before.value;
              var back := PollStart(ev, i, now, CHECK_POLL_INTERVAL) + ev(i).took;
              && DecisionTime(ev, ByJob(i + 1), now, CHECK_POLL_INTERVAL)
                 == (if job.after <= 5_000_000_000 + ev(i).overslept then back + job.after
                     else PollStart(ev, i + 1, now, CHECK_POLL_INTERVAL))
    ensures ev(i).before != None ==> DecidingAlert(ev, ByJob(i)) == ev(i).before.value.alert
  {
  }

  /** Either somebody learns a decision in time, or nobody does. */
  lemma DecidedOrNot(ev: nat -> PollEvent, now: Time, deadline: Time, interval: nat)
    ensures NoDecision(ev, now, deadline, interval) <==> !exists d :: IsDecision(ev, d, now, deadline, interval)
  {
    if exists d :: IsDecision(ev, d, now, deadline, interval) {
      var d :| IsDecision(ev, d, now, deadline, interval);
      assert Reached(ev, d.i, now, deadline, interval) || Made(ev, d.i, now, deadline, interval);
    }
    if !NoDecision(ev, now, deadline, interval) {
      var i: nat :| (Reached(ev, i, now, deadline, interval) && JobDecides(ev(i)))
                    || (Made(ev, i, now, deadline, interval) && Decides(ev(i).reply));
      var d := FirstDecision(ev, i, now, deadline, interval);
    }
  }

  lemma {:induction false} FirstDecision(ev: nat -> PollEvent, i: nat, now: Time, deadline: Time, interval: nat)
    returns (d: Decider)
    requires (Reached(ev, i, now, deadline, interval) && JobDecides(ev(i)))
             || (Made(ev, i, now, deadline, interval) && Decides(ev(i).reply))
    ensures IsDecision(ev, d, now, deadline, interval)
    decreases i
  {
    if j: nat :| j < i && !Quiet(ev(j)) {
      PollStartsAscend(ev, j, i - 1, now, interval);
      PollStartsAscend(ev, i - 1, i, now, interval);
      d := FirstDecision(ev, j, now, deadline, interval);
    } else if JobDecides(ev(i)) {
      if i > 0 {
        PollStartsAscend(ev, i - 1, i, now, interval);
      }
      d := ByJob(i);
    } else {
      d := ByPoll(i);
    }
  }

  // ----- the tables after each part -----

  /** The tables after a check has been started, or has failed to. */
  function AfterRunCheck(t: Tables, checkTask: nat, n: NodeId, env: StartEnv, now: Time): Tables {
    var k, r := NewKey(t, Check), NewPending(checkTask, n);
    if env.checkRefsResolve && env.checkStart.Accepted?
    then Saved(Inserted(t, Check, r), k, Started(r, env.checkStart.job, now))
    else SavedAndAlerted(Inserted(t, Check, r), k, StartFailed(r, now), env.checkAlert, now)
  }

  /** `decision` is what ended the waiting. */
  function AfterWait(t: Tables, k: Key, env: StartEnv, decision: Option<Decider>, began: Time, now: Time,
                     timeoutSeconds: int): Tables
  {
    if k !in t.runs || !t.runs[k].status.Running? then t
    else match decision
      case Some(d) => AfterDecision(t, k, env.polls, d, began, CHECK_POLL_INTERVAL)
      case None => AfterTimeout(t, k, now, timeoutSeconds, env.timeoutAlert)
  }

  /** The bound check has been run and waited for. */
  function AfterChecking(t: Tables, checkTask: nat, n: NodeId, env: StartEnv, decision: Option<Decider>,
                         began: Time, now: Time, timeoutSeconds: int): Tables
  {
    AfterWait(AfterRunCheck(t, checkTask, n, env, began), NewKey(t, Check), env, decision, began, now, timeoutSeconds)
  }

  /** The check `kc` has decided about the run `k`. */
  function AfterVerdict(t: Tables, k: Key, run: Run, kc: Key, now: Time): Tables {
    if kc in t.runs && VerdictOf(t.runs[kc], kc.id).Skip?
    then Saved(t, k, SkippedBy(run, VerdictOf(t.runs[kc], kc.id).msg, now)) else t
  }

  /** The sync is submitted, unless something has failed. */
  function AfterFinish(t: Tables, k: Key, r: Run, failed: bool, env: StartEnv, now: Time): Tables {
    if !failed && env.start.Accepted? then Saved(t, k, Started(r, env.start.job, now))
    else SavedAndAlerted(t, k, StartFailed(r, now), env.alert, now)
  }

  /** A task that the guard let through has been started. */
  function AfterStart(t: Tables, taskId: nat, n: NodeId, env: StartEnv, preCheck: Option<nat>, checkTasks: set<nat>,
                      decision: Option<Decider>, began: Time, now: Time, timeoutSeconds: int): Tables
  {
    var k, run := NewKey(t, Sync), NewPending(taskId, n);
    var t1 := Inserted(t, Sync, run);
    if !Prepared(env, preCheck, checkTasks) then AfterFinish(t1, k, run, true, env, now)
    else if preCheck.None? then AfterFinish(t1, k, run, false, env, now)
    else
      var kc := NewKey(t1, Check);
      var t2 := AfterChecking(t1, preCheck.value, n, env, decision, began, now, timeoutSeconds);
      var t3 := AfterVerdict(t2, k, run, kc, now);
      if kc in t2.runs && VerdictOf(t2.runs[kc], kc.id).Skip? then t3 else AfterFinish(t3, k, run, false, env, now)
  }

  // ----- what starting a task leaves alone -----

  /** Apart from the rows in `own`, no row comes, goes or changes; only a check may lose its alert mark. */
  ghost predicate OthersKept(t: Tables, t': Tables, own: set<Key>) {
    forall x: Key :: x !in own ==>
      && (x in t'.runs <==> x in t.runs)
      && (x in t.runs && x in t'.runs ==>
            t'.runs[x] == t.runs[x] || (x.kind.Check? && t'.runs[x] == t.runs[x].(notifiedAt := None)))
  }

  lemma KeptInTurn(t: Tables, t': Tables, t'': Tables, own: set<Key>, more: set<Key>)
    requires OthersKept(t, t', own) && OthersKept(t', t'', more)
    ensures OthersKept(t, t'', own + more)
  {
  }

  lemma LandingLeavesOthers(t: Tables, k: Key, r: Run, alert: bool, now: Time)
    requires k in t.runs && (k.kind.Check? || !r.status.Success?)
    ensures OthersKept(t, SavedAndAlerted(t, k, r, alert, now), {k})
    ensures SavedAndAlerted(t, k, r, alert, now).nextSync == t.nextSync
    ensures SavedAndAlerted(t, k, r, alert, now).nextCheck == t.nextCheck
  {
    forall x: Key | x != k && x in t.runs
      ensures x in SavedAndAlerted(t, k, r, alert, now).runs
      ensures var x' := SavedAndAlerted(t, k, r, alert, now).runs[x];
              x' == t.runs[x] || (x.kind.Check? && x' == t.runs[x].(notifiedAt := None))
    {
      SavedAndAlertedFrame(t, k, r, alert, now, x);
    }
    SavedAndAlertedFrame(t, k, r, alert, now, k);
  }

  lemma CheckLeavesOthers(t: Tables, checkTask: nat, n: NodeId, env: StartEnv, now: Time)
    ensures OthersKept(t, AfterRunCheck(t, checkTask, n, env, now), {NewKey(t, Check)})
    ensures var k, t' := NewKey(t, Check), AfterRunCheck(t, checkTask, n, env, now);
            && t'.nextSync == t.nextSync && t'.nextCheck == t.nextCheck + 1 && k in t'.runs
            && (t'.runs[k].status.Running? <==> env.checkRefsResolve && env.checkStart.Accepted?)
            && (t'.runs[k].status.Running? ==> t'.runs[k].job.Some?)
            && t'.runs[k].verdict.None? && (t'.runs[k].status.Running? || t'.runs[k].status.Failed?)
  {
    var k, r := NewKey(t, Check), NewPending(checkTask, n);
    var inserted := Inserted(t, Check, r);
    LandingLeavesOthers(inserted, k, StartFailed(r, now), env.checkAlert, now);
    SavedAndAlertedFrame(inserted, k, StartFailed(r, now), env.checkAlert, now, k);
  }

  /** The row of a check that has just been started, or has failed to. */
  lemma CheckStarts(t: Tables, checkTask: nat, n: NodeId, env: StartEnv, now: Time)
    ensures var k, t' := Key(Check, t.nextCheck), AfterRunCheck(t, checkTask, n, env, now);
            && t'.nextCheck == t.nextCheck + 1 && k in t'.runs
            && t'.runs[k]
               == if env.checkRefsResolve && env.checkStart.Accepted?
                  then Run(checkTask, n, Running, Some(env.checkStart.job), Some(now), None, None, None, None)
                  else Run(checkTask, n, Failed, None, Some(now), Some(now), Some(StartError), None, Mark(env.checkAlert, now))
  {
  }

  lemma PollLeavesOthers(t: Tables, k: Key, reply: Reply, now: Time, alert: bool)
    requires k.kind.Check? && k in t.runs
    ensures var t' := AfterPoll(t, k, reply, now, alert);
            OthersKept(t, t', {k}) && t'.nextSync == t.nextSync && t'.nextCheck == t.nextCheck
  {
    LandingLeavesOthers(t, k, Polled(k.kind, t.runs[k], reply, now), alert, now);
  }

  lemma TimeoutLeavesOthers(t: Tables, k: Key, now: Time, seconds: int, alert: bool)
    requires k.kind.Check? && k in t.runs
    ensures var t' := AfterTimeout(t, k, now, seconds, alert);
            && OthersKept(t, t', {k}) && t'.nextSync == t.nextSync && t'.nextCheck == t.nextCheck && k in t'.runs
            && (t.runs[k].status.Running? ==> t'.runs[k].verdict == t.runs[k].verdict)
  {
    SavedAndAlertedFrame(t, k, TimedOut(t.runs[k], now, seconds), alert, now, k);
    LandingLeavesOthers(t, k, TimedOut(t.runs[k], now, seconds), alert, now);
  }

  /** A deciding answer lets the sync go on exactly if it is a finished job whose output says success = false. */
  lemma OutputDecides(t: Tables, k: Key, reply: Reply, now: Time, alert: bool)
    requires k.kind.Check? && Pollable(t, k) && t.runs[k].verdict.None? && Decides(reply)
    ensures var t' := AfterPoll(t, k, reply, now, alert);
            && k in t'.runs && Terminal(t'.runs[k])
            && (VerdictOf(t'.runs[k], k.id).Proceed? <==> reply.JobStatus? && reply.body.outputSuccess == Is(false))
  {
    SavedAndAlertedFrame(t, k, PolledCheck(t.runs[k], reply, now), alert, now, k);
  }

  lemma OneDecision(env: StartEnv, d: Decider, now: Time, timeoutSeconds: int)
    requires IsDecision(env.polls, d, now, now + timeoutSeconds * SECOND, CHECK_POLL_INTERVAL)
    requires env.checkRefsResolve && env.checkStart.Accepted?
    ensures ChecksDiffer(env, now, timeoutSeconds) <==> SaysDiffer(DecidingReply(env.polls, d))
  {
    var deadline := now + timeoutSeconds * SECOND;
    forall e | IsDecision(env.polls, e, now, deadline, CHECK_POLL_INTERVAL)
      ensures e == d
    {
      assert e.i < d.i ==> Quiet(env.polls(e.i));
      assert d.i < e.i ==> Quiet(env.polls(d.i));
    }
  }

  // ----- what the parts amount to -----

  /** The check's row, when it has been waited for, tells whether the check found differences in time. */
  lemma CheckingHolds(t: Tables, checkTask: nat, n: NodeId, env: StartEnv, decision: Option<Decider>,
                      began: Time, now: Time, timeoutSeconds: int)
    requires CheckRuns(env) ==> EndsWaiting(env, decision, began, now, timeoutSeconds)
    ensures var kc, t' := NewKey(t, Check), AfterChecking(t, checkTask, n, env, decision, began, now, timeoutSeconds);
            && kc in t'.runs && Terminal(t'.runs[kc])
            && (VerdictOf(t'.runs[kc], kc.id).Proceed? <==> ChecksDiffer(env, began, timeoutSeconds))
            && OthersKept(t, t', {kc}) && t'.nextSync == t.nextSync && t'.nextCheck == t.nextCheck + 1
  {
    var kc, t1 := NewKey(t, Check), AfterRunCheck(t, checkTask, n, env, began);
    CheckLeavesOthers(t, checkTask, n, env, began);
    if CheckRuns(env) {
      WaitingHolds(t1, kc, env, decision, began, now, timeoutSeconds);
      KeptInTurn(t, t1, AfterWait(t1, kc, env, decision, began, now, timeoutSeconds), {kc}, {kc});
      assert {kc} + {kc} == {kc};
    }
  }

  lemma WaitingHolds(t: Tables, k: Key, env: StartEnv, decision: Option<Decider>, began: Time, now: Time, timeoutSeconds: int)
    requires k.kind.Check? && Pollable(t, k) && t.runs[k].verdict.None? && CheckRuns(env)
    requires EndsWaiting(env, decision, began, now, timeoutSeconds)
    ensures var t' := AfterWait(t, k, env, decision, began, now, timeoutSeconds);
            && k in t'.runs && Terminal(t'.runs[k])
            && (VerdictOf(t'.runs[k], k.id).Proceed? <==> ChecksDiffer(env, began, timeoutSeconds))
            && OthersKept(t, t', {k}) && t'.nextSync == t.nextSync && t'.nextCheck == t.nextCheck
  {
    match decision {
      case Some(d) =>
        var reply, alert := DecidingReply(env.polls, d), DecidingAlert(env.polls, d);
        PollLeavesOthers(t, k, reply, DecisionTime(env.polls, d, began, CHECK_POLL_INTERVAL), alert);
        OutputDecides(t, k, reply, DecisionTime(env.polls, d, began, CHECK_POLL_INTERVAL), alert);
        OneDecision(env, d, began, timeoutSeconds);
      case None =>
        TimeoutLeavesOthers(t, k, now, timeoutSeconds, env.timeoutAlert);
        SavedAndAlertedFrame(t, k, TimedOut(t.runs[k], now, timeoutSeconds), env.timeoutAlert, now, k);
    }
  }

  lemma FinishHolds(t: Tables, k: Key, r: Run, failed: bool, env: StartEnv, now: Time)
    requires k in t.runs && r.notifiedAt.None?
    ensures var t' := AfterFinish(t, k, r, failed, env, now);
            && k in t'.runs && OthersKept(t, t', {k}) && t'.nextSync == t.nextSync && t'.nextCheck == t.nextCheck
            && t'.runs[k] == if !failed && env.start.Accepted? then Started(r, env.start.job, now)
                             else StartFailed(r, now).(notifiedAt := Mark(env.alert, now))
  {
    LandingLeavesOthers(t, k, StartFailed(r, now), env.alert, now);
    SavedAndAlertedFrame(t, k, StartFailed(r, now), env.alert, now, k);
  }

  /** The check that a start makes, if any. */
  function CheckMade(t: Tables, env: StartEnv, preCheck: Option<nat>, checkTasks: set<nat>): set<Key> {
    if Prepared(env, preCheck, checkTasks) && preCheck.Some? then {NewKey(t, Check)} else {}
  }

  /**
   How a start ends: the run is running with its job exactly if StartSync is called and accepts it, skipped
   exactly if the check found no differences in time, and failed otherwise. Apart from the run and the check
   nothing changes but the alert mark of an older check.
   */
  lemma StartHolds(t: Tables, taskId: nat, n: NodeId, env: StartEnv, preCheck: Option<nat>, checkTasks: set<nat>,
                   decision: Option<Decider>, began: Time, now: Time, timeoutSeconds: int)
    requires CheckRuns(env) && CheckMade(t, env, preCheck, checkTasks) != {} ==>
               EndsWaiting(env, decision, began, now, timeoutSeconds)
    ensures var k := Key(Sync, t.nextSync);
            var t' := AfterStart(t, taskId, n, env, preCheck, checkTasks, decision, began, now, timeoutSeconds);
            && k in t'.runs
            && var r := t'.runs[k];
            && (if Submits(env, preCheck, checkTasks, began, timeoutSeconds) && env.start.Accepted? then
                  r == Run(taskId, n, Running, Some(env.start.job), Some(now), None, None, None, None)
                else if Prepared(env, preCheck, checkTasks) && !Submits(env, preCheck, checkTasks, began, timeoutSeconds) then
                  var c := t.nextCheck;
                  && Key(Check, c) in t'.runs
                  && var check := t'.runs[Key(Check, c)];
                     var why := if check.status == Success then CheckPassed(c) else CheckBlocked(c, check.error);
                     r == Run(taskId, n, Skipped, None, Some(now), Some(now), Some(why), None, None)
                else
                  r == Run(taskId, n, Failed, None, Some(now), Some(now), Some(StartError), None, Mark(env.alert, now)))
            && OthersKept(t, t', {k} + CheckMade(t, env, preCheck, checkTasks))
            && t'.nextSync == t.nextSync + 1
            && t'.nextCheck == t.nextCheck + |CheckMade(t, env, preCheck, checkTasks)|
  {
    var k, run := NewKey(t, Sync), NewPending(taskId, n);
    var t1 := Inserted(t, Sync, run);
    assert OthersKept(t, t1, {k});
    if !Prepared(env, preCheck, checkTasks) || preCheck.None? {
      FinishHolds(t1, k, run, !Prepared(env, preCheck, checkTasks), env, now);
    } else {
      var kc := NewKey(t1, Check);
      var t2 := AfterChecking(t1, preCheck.value, n, env, decision, began, now, timeoutSeconds);
      CheckingHolds(t1, preCheck.value, n, env, decision, began, now, timeoutSeconds);
      if VerdictOf(t2.runs[kc], kc.id).Proceed? {
        FinishHolds(t2, k, run, false, env, now);
      }
    }
  }
}
