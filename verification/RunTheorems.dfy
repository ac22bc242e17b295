/** What every execution of `RunProtocol` guarantees. */
module RunTheorems {
  import opened Options
  import opened Runs
  import opened RunProtocol

  // ----- attribution -----

  /**
   The job a run points at is, on its owner's rcd, the very job submitted for that run; and a
   run that had a job ended with that job's report, with a definite refusal, or by the timeout.
   */
  lemma JobAttribution(e: Execution, i: nat, k: Key)
    requires IsRun(e) && i < |e.ws| && k in e.ws[i].db.runs && k !in e.ws[i].legacy
    requires e.ws[i].db.runs[k].job.Some?
    ensures var w, r := e.ws[i], e.ws[i].db.runs[k];
            && r.node in w.rcds && r.job.value in w.rcds[r.node].jobs
            && w.rcds[r.node].jobs[r.job.value].run == k
            && (Terminal(r) ==> EndIsJobs(k.kind, r, w.rcds[r.node].jobs[r.job.value].report))
  {
    InvHolds(e, i);
    RowIsOk(e.ws[i], k);
  }

  /** Two runs of one node never share a job id; runs of different nodes may. */
  lemma JobsAreNotShared(e: Execution, i: nat, a: Key, b: Key)
    requires IsRun(e) && i < |e.ws| && a in e.ws[i].db.runs && b in e.ws[i].db.runs && a != b
    requires a !in e.ws[i].legacy && b !in e.ws[i].legacy
    requires e.ws[i].db.runs[a].node == e.ws[i].db.runs[b].node && e.ws[i].db.runs[a].job.Some?
    ensures e.ws[i].db.runs[a].job != e.ws[i].db.runs[b].job
  {
    InvHolds(e, i);
    RowIsOk(e.ws[i], a);
    RowIsOk(e.ws[i], b);
  }

  /**
   A sync whose task has a check bound to it is submitted only after its thread has run that check, and the
   check's own job has reported success = false for its output.
   */
  lemma SubmittedOnDifferences(e: Execution, i: nat, k: Key, acked: bool)
    requires IsRun(e) && i < |e.steps| && e.steps[i] == Submit(k, acked) && e.ws[i].flights[k].bound.Some?
    ensures var w, f := e.ws[i], e.ws[i].flights[k];
            && f.check.Some? && f.check.value.kind.Check? && f.check.value in w.db.runs && Terminal(w.db.runs[f.check.value])
            && var r := w.db.runs[f.check.value];
            && r.task == f.bound.value && r.node in w.rcds && r.job.Some? && r.job.value in w.rcds[r.node].jobs
            && var job := w.rcds[r.node].jobs[r.job.value];
            && job.run == f.check.value && job.report.Some? && job.report.value.outputSuccess == Is(false)
  {
    InvHolds(e, i);
    assert Enabled(e.ws[i], e.steps[i]);
    RowIsOk(e.ws[i], k);
    RowIsOk(e.ws[i], e.ws[i].flights[k].check.value);
  }

  // ----- what a step leaves alone -----

  /** The row `x` after a step: gone nowhere, owned by whoever owned it, fixed once it is terminal. */
  ghost predicate Kept(before: Run, after: Run) {
    && after.task == before.task
    && (after.node == before.node
        || (before.node == UNOWNED && before.status.Running? && after == before.(node := after.node)))
    && (Terminal(before) ==> after == before.(notifiedAt := after.notifiedAt))
  }

  lemma StepKeeps(w: World, s: Step, x: Key)
    requires Inv(w) && Enabled(w, s) && x in w.db.runs
    ensures x in Next(w, s).db.runs && Kept(w.db.runs[x], Next(w, s).db.runs[x])
  {
    RowIsOk(w, x);
    if s.Record? || s.FailStart? || s.SkipByCheck? {
      RowIsOk(w, s.k);
      ThreadKeeps(w, s, x);
    } else if s.Poll? || s.TimeOut? {
      PollKeeps(w, s, x);
    } else {
      RowIsOk(w, NewKey(w.db, Sync));
      RowIsOk(w, NewKey(w.db, Check));
      OtherStepKeeps(w, s, x);
    }
  }

  lemma PollKeeps(w: World, s: Step, x: Key)
    requires Enabled(w, s) && x in w.db.runs && (s.Poll? || s.TimeOut?)
    ensures x in Next(w, s).db.runs && Kept(w.db.runs[x], Next(w, s).db.runs[x])
  {
    var r := if s.Poll? then Polled(s.k.kind, w.db.runs[s.k], s.reply, w.clock)
             else TimedOut(w.db.runs[s.k], w.clock, s.seconds);
    LandingKeeps(w.db, s.k, r, s.alert, w.clock, x);
  }

  lemma ThreadKeeps(w: World, s: Step, x: Key)
    requires Enabled(w, s) && x in w.db.runs && (s.Record? || s.FailStart? || s.SkipByCheck?) && RowOk(w, s.k)
    ensures x in Next(w, s).db.runs && Kept(w.db.runs[x], Next(w, s).db.runs[x])
  {
    ThreadRowIsGood(w, s);
    LandingKeeps(w.db, s.k, ThreadRow(w, s), s.FailStart? && s.alert, w.clock, x);
  }

  /** Saving an active row under its own task and owner keeps all rows. */
  lemma LandingKeeps(t: Tables, k: Key, r: Run, alert: bool, now: Time, x: Key)
    requires k in t.runs && x in t.runs && Active(t.runs[k]) && r.task == t.runs[k].task && r.node == t.runs[k].node
    ensures x in SavedAndAlerted(t, k, r, alert, now).runs
    ensures Kept(t.runs[x], SavedAndAlerted(t, k, r, alert, now).runs[x])
  {
    SavedAndAlertedFrame(t, k, r, alert, now, x);
  }

  lemma OtherStepKeeps(w: World, s: Step, x: Key)
    requires Enabled(w, s) && RowOk(w, x) && RowOk(w, NewKey(w.db, Sync)) && RowOk(w, NewKey(w.db, Check))
    requires x in w.db.runs && !s.Record? && !s.FailStart? && !s.SkipByCheck? && !s.Poll? && !s.TimeOut?
    ensures x in Next(w, s).db.runs && Kept(w.db.runs[x], Next(w, s).db.runs[x])
  {
  }

  /** Over any interleaving a row's owner changes at most once, from none to the first claimer. */
  lemma {:induction false} OwnerIsWriteOnce(e: Execution, i: nat, j: nat, k: Key)
    requires IsRun(e) && i <= j < |e.ws| && k in e.ws[i].db.runs
    ensures k in e.ws[j].db.runs && e.ws[j].db.runs[k].task == e.ws[i].db.runs[k].task
    ensures e.ws[i].db.runs[k].node != UNOWNED ==> e.ws[j].db.runs[k].node == e.ws[i].db.runs[k].node
  {
    if i < j {
      OwnerIsWriteOnce(e, i, j - 1, k);
      InvHolds(e, j - 1);
      StepKeeps(e.ws[j - 1], e.steps[j - 1], k);
    }
  }

  /** A run that has ended stays as it ended; only its alert mark may still change. */
  lemma {:induction false} EndIsFinal(e: Execution, i: nat, j: nat, k: Key)
    requires IsRun(e) && i <= j < |e.ws| && k in e.ws[i].db.runs && Terminal(e.ws[i].db.runs[k])
    ensures k in e.ws[j].db.runs
    ensures e.ws[j].db.runs[k] == e.ws[i].db.runs[k].(notifiedAt := e.ws[j].db.runs[k].notifiedAt)
  {
    if i < j {
      EndIsFinal(e, i, j - 1, k);
      InvHolds(e, j - 1);
      StepKeeps(e.ws[j - 1], e.steps[j - 1], k);
    }
  }

  /**
   A submission whose reply is lost: the job is there on the thread's rcd, under the next number of that rcd, but
   the thread can neither record it nor try again; what is left to it is to fail the run.
   */
  lemma LostReplyIsBroken(w: World, k: Key, alert: bool)
    requires Inv(w) && Enabled(w, Submit(k, false))
    ensures var n := w.flights[k].node;
            var w' := Next(w, Submit(k, false));
            && w'.rcds[n].jobs == w.rcds[n].jobs[w.rcds[n].next := Job(k, None)] && w'.rcds[n].next == w.rcds[n].next + 1
            && w'.db == w.db && !Enabled(w', Submit(k, false)) && !Enabled(w', Submit(k, true))
            && !Enabled(w', Record(k)) && !Enabled(w', SkipByCheck(k)) && Enabled(w', FailStart(k, alert))
  {
    assert FlightInv(w, k, w.flights[k]);
  }

  /** A run whose start has failed has no job and is failed, and its thread is done with it. */
  lemma FailedStartHasNoJob(w: World, k: Key, alert: bool)
    requires Inv(w) && Enabled(w, FailStart(k, alert))
    ensures var w' := Next(w, FailStart(k, alert));
            && k in w'.db.runs && w'.db.runs[k].status == Failed && w'.db.runs[k].error == Some(StartError)
            && w'.db.runs[k].job == None && k !in w'.flights
  {
    assert FlightInv(w, k, w.flights[k]);
    RowIsOk(w, k);
    var failed := StartFailed(w.db.runs[k], w.clock);
    SavedAndAlertedFrame(w.db, k, failed, alert, w.clock, k);
  }

  /** The poll takes the mark off `x`: a success with a receiver, and `x` the task's newest notified failure. */
  ghost predicate LosesMark(t: Tables, k: Key, reply: Reply, alert: bool, x: Key) {
    && alert && Pollable(t, k) && Decides(reply) && reply.JobStatus? && Succeeded(k.kind, reply.body)
    && Notified(t, x, k.kind, t.runs[k].task)
    && forall id: nat :: x.id < id ==> !Notified(t, Key(k.kind, id), k.kind, t.runs[k].task)
  }

  /**
   A poll of node n leaves the rows of other nodes alone, with one exception: the newest notified
   failure of a task that succeeds loses its alert mark, whoever owns that row.
   */
  lemma PollTouchesOwnRows(w: World, n: NodeId, k: Key, reply: Reply, alert: bool, x: Key)
    requires Inv(w) && Enabled(w, Poll(n, k, reply, alert)) && x in w.db.runs && w.db.runs[x].node != n
    ensures var w' := Next(w, Poll(n, k, reply, alert));
            && x in w'.db.runs
            && (w'.db.runs[x] != w.db.runs[x] <==> LosesMark(w.db, k, reply, alert, x))
            && (LosesMark(w.db, k, reply, alert, x) ==> w'.db.runs[x] == w.db.runs[x].(notifiedAt := None))
  {
    if Pollable(w.db, k) && Decides(reply) {
      RowIsOk(w, k);
      PolledOther(w.db, k, reply, w.clock, alert, x);
    }
  }

  lemma PolledOther(t: Tables, k: Key, reply: Reply, now: Time, alert: bool, x: Key)
    requires Numbered(t) && Pollable(t, k) && Decides(reply) && x in t.runs && x != k
    ensures var t' := AfterPoll(t, k, reply, now, alert);
            x in t'.runs
            && t'.runs[x] == if LosesMark(t, k, reply, alert, x) then t.runs[x].(notifiedAt := None) else t.runs[x]
  {
    var r := Polled(k.kind, t.runs[k], reply, now);
    if r.status.Success? {
      ResolvedOther(t, k, r, alert, x);
    }
  }

  lemma ResolvedOther(t: Tables, k: Key, r: Run, alert: bool, x: Key)
    requires Numbered(t) && k in t.runs && r.status.Success? && !t.runs[k].status.Failed? && x in t.runs && x != k
    ensures var t' := AfterSuccess(Saved(t, k, r), k, alert);
            && x in t'.runs
            && t'.runs[x] == if alert && Notified(t, x, k.kind, r.task)
                                && (forall id: nat :: x.id < id ==> !Notified(t, Key(k.kind, id), k.kind, r.task))
                             then t.runs[x].(notifiedAt := None) else t.runs[x]
  {
    var saved := Saved(t, k, r);
    assert forall y: Key :: Notified(saved, y, k.kind, r.task) <==> Notified(t, y, k.kind, r.task);
    assert forall y: Key :: Notified(t, y, k.kind, r.task) ==> y == Key(k.kind, y.id) && y.id < NextId(t, k.kind);
    NewestIsNewest(saved, k.kind, r.task, NextId(saved, k.kind));
  }

  // ----- the life of a run -----

  /** A task has at most one pending or running run, and every row has the shape of its status. */
  lemma RunLifecycle(e: Execution, i: nat, a: Key, b: Key)
    requires IsRun(e) && i < |e.ws| && a in e.ws[i].db.runs && b in e.ws[i].db.runs
    ensures Shape(a.kind, e.ws[i].db.runs[a], e.ws[i].clock)
    ensures a != b && ActiveSync(e.ws[i].db, a) && ActiveSync(e.ws[i].db, b)
            ==> e.ws[i].db.runs[a].task != e.ws[i].db.runs[b].task
  {
    InvHolds(e, i);
  }

  // ----- alerts -----

  /** In its whole life a run fires at most once, and only if it failed. */
  lemma FiresAtMostOnce(e: Execution, i: nat, k: Key)
    requires IsRun(e) && i < |e.ws| && k in e.ws[i].fired
    ensures e.ws[i].fired[k] <= 1
    ensures e.ws[i].fired[k] > 0 ==> k in e.ws[i].db.runs && e.ws[i].db.runs[k].status.Failed?
  {
    InvHolds(e, i);
    RowIsOk(e.ws[i], k);
  }

  /** The notified sync runs of a task with an id below `below`, oldest first. */
  ghost function Stack(t: Tables, task: nat, below: nat): seq<nat> {
    if below == 0 then []
    else Stack(t, task, below - 1) + if Notified(t, Key(Sync, below - 1), Sync, task) then [below - 1] else []
  }

  ghost function Alerts(t: Tables, task: nat): seq<nat> {
    Stack(t, task, t.nextSync)
  }

  ghost predicate SameMarks(t: Tables, t': Tables, task: nat, below: nat) {
    forall id: nat :: id < below ==>
      (Notified(t, Key(Sync, id), Sync, task) <==> Notified(t', Key(Sync, id), Sync, task))
  }

  lemma {:induction false} SameStack(t: Tables, t': Tables, task: nat, below: nat)
    requires SameMarks(t, t', task, below)
    ensures Stack(t', task, below) == Stack(t, task, below)
  {
    if below > 0 {
      SameStack(t, t', task, below - 1);
    }
  }

  /** One mark more, above all others, is one element more at the end. */
  lemma {:induction false} StackPush(t: Tables, t': Tables, task: nat, m: nat, below: nat)
    requires m < below && SameMarks(t, t', task, m) && !Notified(t, Key(Sync, m), Sync, task)
    requires Notified(t', Key(Sync, m), Sync, task)
    requires forall id: nat :: m < id < below ==>
               !Notified(t, Key(Sync, id), Sync, task) && !Notified(t', Key(Sync, id), Sync, task)
    ensures Stack(t', task, below) == Stack(t, task, below) + [m]
  {
    if below == m + 1 {
      SameStack(t, t', task, m);
    } else {
      StackPush(t, t', task, m, below - 1);
    }
  }

  lemma {:induction false} StackTop(t: Tables, task: nat, below: nat)
    ensures match NewestNotified(t, Sync, task, below)
            case None => Stack(t, task, below) == []
            case Some(m) => Stack(t, task, below) != [] && Stack(t, task, below)[|Stack(t, task, below)| - 1] == m
  {
    if below > 0 {
      StackTop(t, task, below - 1);
    }
  }

  /** The step delivers the firing alert of a sync run of the task. */
  predicate FiresFor(w: World, s: Step, task: nat)
    requires Enabled(w, s)
  {
    (s.FailStart? || s.Poll?) && s.alert && s.k.kind.Sync? && w.db.runs[s.k].task == task
    && (s.Poll? ==> Pollable(w.db, s.k) && Decides(s.reply) && PolledSync(w.db.runs[s.k], s.reply, w.clock).status.Failed?)
  }

  /** The step resolves for the task: a sync run of it succeeds while there is a receiver. */
  predicate ResolvesFor(w: World, s: Step, task: nat)
    requires Enabled(w, s)
  {
    s.Poll? && s.alert && s.k.kind.Sync? && w.db.runs[s.k].task == task
    && Pollable(w.db, s.k) && Decides(s.reply) && PolledSync(w.db.runs[s.k], s.reply, w.clock).status.Success?
  }

  function Pop(s: seq<nat>): seq<nat> {
    if s == [] then [] else s[..|s| - 1]
  }

  /** Saving and alerting a row is a push on its task's stack, a pop, or neither. */
  lemma LandingOnStack(w: World, k: Key, r: Run, alert: bool, task: nat)
    requires Inv(w) && GoodRow(w, k, r)
    ensures var t' := SavedAndAlerted(w.db, k, r, alert, w.clock);
            var mine := k.kind.Sync? && r.task == task && alert;
            Alerts(t', task) == if mine && r.status.Failed? then Alerts(w.db, task) + [k.id]
                                else if mine && r.status.Success? then Pop(Alerts(w.db, task))
                                else Alerts(w.db, task)
  {
    RowIsOk(w, k);
    var t, saved := w.db, Saved(w.db, k, r);
    assert k.id < NextId(t, k.kind);
    assert SameMarks(t, saved, task, t.nextSync);
    SameStack(t, saved, task, t.nextSync);
    if !(k.kind.Sync? && r.task == task && alert) {
      OtherStack(saved, k, alert, w.clock, task);
    } else if r.status.Failed? {
      NoneAbove(w, k);
      FailurePushes(saved, k, w.clock);
    } else if r.status.Success? {
      SuccessPops(saved, k);
    }
  }

  lemma FailurePushes(t: Tables, k: Key, now: Time)
    requires k in t.runs && k.kind.Sync? && k.id < t.nextSync && t.runs[k].status.Failed? && t.runs[k].notifiedAt.None?
    requires forall id: nat :: k.id < id ==> !Notified(t, Key(Sync, id), Sync, t.runs[k].task)
    ensures Alerts(AfterFailure(t, k, true, now), t.runs[k].task) == Alerts(t, t.runs[k].task) + [k.id]
  {
    StackPush(t, AfterFailure(t, k, true, now), t.runs[k].task, k.id, t.nextSync);
  }

  lemma SuccessPops(t: Tables, k: Key)
    requires k in t.runs && k.kind.Sync? && t.runs[k].status.Success?
    ensures Alerts(AfterSuccess(t, k, true), t.runs[k].task) == Pop(Alerts(t, t.runs[k].task))
  {
    var task := t.runs[k].task;
    StackTop(t, task, t.nextSync);
    NewestIsNewest(t, Sync, task, t.nextSync);
    match NewestNotified(t, Sync, task, t.nextSync) {
      case None =>
      case Some(m) => StackPush(AfterSuccess(t, k, true), t, task, m, t.nextSync);
    }
  }

  /** An alert for a run of another kind or task, or one that does not go out, marks nothing here. */
  lemma OtherStack(t: Tables, k: Key, alert: bool, now: Time, task: nat)
    requires k in t.runs && !(k.kind.Sync? && t.runs[k].task == task && alert)
    ensures Alerts(AfterFailure(t, k, alert, now), task) == Alerts(t, task)
    ensures Alerts(AfterSuccess(t, k, alert), task) == Alerts(t, task)
  {
    var f, g := AfterFailure(t, k, alert, now), AfterSuccess(t, k, alert);
    NewestIsNewest(t, k.kind, t.runs[k].task, NextId(t, k.kind));
    assert SameMarks(t, f, task, t.nextSync);
    assert SameMarks(t, g, task, t.nextSync);
    SameStack(t, f, task, t.nextSync);
    SameStack(t, g, task, t.nextSync);
  }

  /** No failed run of the task is newer than its active run. */
  lemma NoneAbove(w: World, k: Key)
    requires Inv(w) && ActiveSync(w.db, k)
    ensures forall id: nat :: k.id <= id ==> !Notified(w.db, Key(Sync, id), Sync, w.db.runs[k].task)
  {
    forall id: nat | k.id <= id
      ensures !Notified(w.db, Key(Sync, id), Sync, w.db.runs[k].task)
    {
      assert FailedSync(w.db, Key(Sync, id)) ==> Key(Sync, id) in w.db.runs;
    }
  }

  /**
   Over any history the notified sync runs of a task are a stack: a delivered failure pushes
   its run on top, a success pops the newest, and nothing else changes it.
   */
  lemma AlertsAreAStack(e: Execution, i: nat, task: nat)
    requires IsRun(e) && i < |e.steps|
    ensures var w, s, w' := e.ws[i], e.steps[i], e.ws[i + 1];
            Alerts(w'.db, task) == if FiresFor(w, s, task) then Alerts(w.db, task) + [s.k.id]
                                   else if ResolvesFor(w, s, task) then Pop(Alerts(w.db, task))
                                   else Alerts(w.db, task)
  {
    InvHolds(e, i);
    StepOnStack(e.ws[i], e.steps[i], task);
  }

  lemma StepOnStack(w: World, s: Step, task: nat)
    requires Inv(w) && Enabled(w, s)
    ensures Alerts(Next(w, s).db, task)
            == if FiresFor(w, s, task) then Alerts(w.db, task) + [s.k.id]
               else if ResolvesFor(w, s, task) then Pop(Alerts(w.db, task))
               else Alerts(w.db, task)
  {
    if s.Record? || s.FailStart? || s.SkipByCheck? {
      ThreadOnStack(w, s, task);
    } else if s.Poll? || s.TimeOut? {
      PollOnStack(w, s, task);
    } else if s.CreateSync? || s.CreateCheck? {
      CreateOnStack(w, s, task);
    } else if s.Claim? {
      SameStack(w.db, Claimed(w.db, s.kind, s.n), task, w.db.nextSync);
    }
  }

  lemma PollOnStack(w: World, s: Step, task: nat)
    requires Inv(w) && Enabled(w, s) && (s.Poll? || s.TimeOut?)
    ensures Alerts(Next(w, s).db, task)
            == if FiresFor(w, s, task) then Alerts(w.db, task) + [s.k.id]
               else if ResolvesFor(w, s, task) then Pop(Alerts(w.db, task))
               else Alerts(w.db, task)
  {
    RowIsOk(w, s.k);
    if s.TimeOut? {
      LandingOnStack(w, s.k, TimedOut(w.db.runs[s.k], w.clock, s.seconds), s.alert, task);
    } else if Pollable(w.db, s.k) && Decides(s.reply) {
      PolledIsGood(w, s.n, s.k, s.reply);
      LandingOnStack(w, s.k, Polled(s.k.kind, w.db.runs[s.k], s.reply, w.clock), s.alert, task);
    }
  }

  lemma ThreadOnStack(w: World, s: Step, task: nat)
    requires Inv(w) && Enabled(w, s) && (s.Record? || s.FailStart? || s.SkipByCheck?)
    ensures Alerts(Next(w, s).db, task) == if FiresFor(w, s, task) then Alerts(w.db, task) + [s.k.id] else Alerts(w.db, task)
  {
    RowIsOk(w, s.k);
    ThreadRowIsGood(w, s);
    LandingOnStack(w, s.k, ThreadRow(w, s), s.FailStart? && s.alert, task);
  }

  lemma CreateOnStack(w: World, s: Step, task: nat)
    requires Inv(w) && Enabled(w, s) && (s.CreateSync? || s.CreateCheck?)
    ensures Alerts(Next(w, s).db, task) == Alerts(w.db, task)
  {
    var kind := if s.CreateSync? then Sync else Check;
    var key := NewKey(w.db, kind);
    RowIsOk(w, key);
    InsertOnStack(w.db, kind, Next(w, s).db.runs[key], task);
  }

  lemma InsertOnStack(t: Tables, kind: Kind, r: Run, task: nat)
    requires NewKey(t, kind) !in t.runs && !r.status.Failed?
    ensures Alerts(Inserted(t, kind, r), task) == Alerts(t, task)
  {
    var t' := Inserted(t, kind, r);
    assert SameMarks(t, t', task, t.nextSync);
    SameStack(t, t', task, t.nextSync);
  }
}
