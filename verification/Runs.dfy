/**
 Run rows of the two kinds, sync and check, and the row changes that the run engine makes.
 `RunEngine` applies them in the order of the source, `RunProtocol` interleaves them.
 */
module Runs {
  import opened Options

  type NodeId = string
  type Time = int

  // The owner of a row that predates node attribution.
  const UNOWNED: NodeId := ""

  datatype Kind = Sync | Check
  datatype Key = Key(kind: Kind, id: nat)

  datatype Status = Pending | Running | Success | Failed | Skipped

  // A boolean field of a JSON body: missing, of another type, or a boolean.
  datatype Flag = Missing | NotBool | Is(value: bool)

  datatype Message =
    | PreviousRunning
    | StartError
    | QueryRefused(code: int)
    | JobError(text: string)
    | CheckJobError(text: string)
    | DifferencesFound
    | CheckTimedOut(seconds: int)
    | CheckPassed(check: nat)
    | CheckBlocked(check: nat, reason: Option<Message>)

  // `verdict` is the "success" entry of a check's result column.
  datatype Run = Run(task: nat, node: NodeId, status: Status, job: Option<nat>,
                     startedAt: Option<Time>, finishedAt: Option<Time>, error: Option<Message>,
                     verdict: Option<Flag>, notifiedAt: Option<Time>)

  predicate Active(r: Run) {
    r.status.Pending? || r.status.Running?
  }

  predicate Terminal(r: Run) {
    !Active(r)
  }

  // ----- what the rcd answers -----

  // A finished job's report, or the news that it is still running.
  datatype Body = Body(finished: Flag, success: Flag, error: string, outputSuccess: Flag)

  datatype Reply =
    | QueryError(fromRcd: bool, code: int)   // code 0: the request never reached the rcd
    | JobStatus(body: Body)

  /** Worth asking again: not an error of the rcd's API, not reached, or the rcd itself is unhealthy. */
  predicate IsTransient(r: Reply) {
    r.QueryError? && (!r.fromRcd || r.code == 0 || r.code >= 500)
  }

  /** The reply decides the run: it is refused for good, or the job has finished. */
  predicate Decides(r: Reply) {
    if r.QueryError? then !IsTransient(r) else r.body.finished == Is(true)
  }

  function OrDefault(text: string, default: string): string {
    if text == "" then default else text
  }

  // ----- one row -----

  function NewPending(task: nat, n: NodeId): Run {
    Run(task, n, Pending, None, None, None, None, None, None)
  }

  function SkippedAtOnce(task: nat, n: NodeId, now: Time): Run {
    Run(task, n, Skipped, None, Some(now), Some(now), Some(PreviousRunning), None, None)
  }

  function Started(r: Run, job: nat, now: Time): Run {
    r.(job := Some(job), status := Running, startedAt := Some(now))
  }

  function StartFailed(r: Run, now: Time): Run {
    r.(status := Failed, startedAt := Some(now), finishedAt := Some(now), error := Some(StartError))
  }

  function SkippedBy(r: Run, msg: Message, now: Time): Run {
    r.(status := Skipped, startedAt := Some(now), finishedAt := Some(now), error := Some(msg))
  }

  function TimedOut(r: Run, now: Time, seconds: int): Run {
    r.(status := Failed, finishedAt := Some(now), error := Some(CheckTimedOut(seconds)))
  }

  /** A poll of a running sync run. */
  function PolledSync(r: Run, reply: Reply, now: Time): Run {
    if !Decides(reply) then r
    else if reply.QueryError? then
      r.(status := Failed, finishedAt := Some(now), error := Some(QueryRefused(reply.code)))
    else if reply.body.success == Is(true) then
      r.(status := Success, finishedAt := Some(now))
    else
      r.(status := Failed, finishedAt := Some(now),
         error := Some(JobError(OrDefault(reply.body.error, "unknown rclone error"))))
  }

  /** A poll of a running check run. */
  function PolledCheck(r: Run, reply: Reply, now: Time): Run {
    if !Decides(reply) then r
    else if reply.QueryError? then
      r.(status := Failed, finishedAt := Some(now), error := Some(QueryRefused(reply.code)))
    else
      var done := r.(finishedAt := Some(now), verdict := Some(reply.body.outputSuccess));
      if reply.body.success != Is(true) then
        done.(status := Failed, error := Some(CheckJobError(OrDefault(reply.body.error, "rclone check job failed"))))
      else if reply.body.outputSuccess == Is(true) then
        done.(status := Success, error := None)
      else
        done.(status := Failed, error := Some(DifferencesFound))
  }

  function Polled(kind: Kind, r: Run, reply: Reply, now: Time): Run {
    if kind.Sync? then PolledSync(r, reply, now) else PolledCheck(r, reply, now)
  }

  /** Whether a finished job's report means success for a run of the kind. */
  predicate Succeeded(kind: Kind, b: Body) {
    b.success == Is(true) && (kind.Check? ==> b.outputSuccess == Is(true))
  }

  // ----- the pre-check's verdict on a task -----

  datatype Verdict = Proceed | Skip(msg: Message)

  /** Differences let the sync go on; agreement makes it unnecessary; anything else blocks it. */
  function VerdictOf(check: Run, id: nat): Verdict {
    if check.status.Success? then Skip(CheckPassed(id))
    else if check.verdict == Some(Is(false)) then Proceed
    else Skip(CheckBlocked(id, check.error))
  }

  // ----- the tables -----

  // `nextSync` and `nextCheck` are the ids the next insertions get.
  datatype Tables = Tables(runs: map<Key, Run>, nextSync: nat, nextCheck: nat)

  function NextId(t: Tables, kind: Kind): nat {
    if kind.Sync? then t.nextSync else t.nextCheck
  }

  function NewKey(t: Tables, kind: Kind): Key {
    Key(kind, NextId(t, kind))
  }

  function Inserted(t: Tables, kind: Kind, r: Run): Tables {
    var runs := t.runs[NewKey(t, kind) := r];
    if kind.Sync? then t.(runs := runs, nextSync := t.nextSync + 1)
    else t.(runs := runs, nextCheck := t.nextCheck + 1)
  }

  function Saved(t: Tables, k: Key, r: Run): Tables {
    t.(runs := t.runs[k := r])
  }

  /** Every row has got its id from the counter of its kind. */
  ghost predicate Numbered(t: Tables) {
    forall k :: k in t.runs ==> k.id < NextId(t, k.kind)
  }

  /** The concurrency guard: the task has a pending or running sync run. */
  predicate Busy(t: Tables, task: nat) {
    exists k :: k in t.runs && k.kind.Sync? && t.runs[k].task == task && Active(t.runs[k])
  }

  lemma BusyMeans(t: Tables, task: nat)
    ensures Busy(t, task)
            <==> exists id: nat :: Key(Sync, id) in t.runs && t.runs[Key(Sync, id)].task == task
                                   && (t.runs[Key(Sync, id)].status == Pending || t.runs[Key(Sync, id)].status == Running)
  {
    if Busy(t, task) {
      var k :| k in t.runs && k.kind.Sync? && t.runs[k].task == task && Active(t.runs[k]);
      assert k == Key(Sync, k.id);
    }
  }

  predicate Notified(t: Tables, k: Key, kind: Kind, task: nat) {
    k in t.runs && k.kind == kind && t.runs[k].task == task && t.runs[k].status.Failed? && t.runs[k].notifiedAt.Some?
  }

  /** The notified failed run of the task with the largest id below `below`. */
  function NewestNotified(t: Tables, kind: Kind, task: nat, below: nat): Option<nat> {
    if below == 0 then None
    else if Notified(t, Key(kind, below - 1), kind, task) then Some(below - 1)
    else NewestNotified(t, kind, task, below - 1)
  }

  /** The firing alert of a failed run; `delivered` tells whether it went out. */
  function AfterFailure(t: Tables, k: Key, delivered: bool, now: Time): Tables
    requires k in t.runs
  {
    var r := t.runs[k];
    if r.status.Failed? && r.notifiedAt.None? && delivered then Saved(t, k, r.(notifiedAt := Some(now))) else t
  }

  /** The resolving alert of a successful run; `enabled` tells whether there is a receiver. */
  function AfterSuccess(t: Tables, k: Key, enabled: bool): Tables
    requires k in t.runs
  {
    var r := t.runs[k];
    if !r.status.Success? || !enabled then t
    else match NewestNotified(t, k.kind, r.task, NextId(t, k.kind))
      case None => t
      case Some(id) =>
        var prev := Key(k.kind, id);
        if prev in t.runs then Saved(t, prev, t.runs[prev].(notifiedAt := None)) else t
  }

  /** The row is saved, then the alert for its new status goes out. */
  function SavedAndAlerted(t: Tables, k: Key, r: Run, alert: bool, now: Time): Tables {
    var t' := Saved(t, k, r);
    if r.status.Failed? then AfterFailure(t', k, alert, now)
    else if r.status.Success? then AfterSuccess(t', k, alert)
    else t'
  }

  predicate Pollable(t: Tables, k: Key) {
    k in t.runs && t.runs[k].status.Running? && t.runs[k].job.Some?
  }

  function AfterPoll(t: Tables, k: Key, reply: Reply, now: Time, alert: bool): Tables {
    if !Pollable(t, k) || !Decides(reply) then t
    else SavedAndAlerted(t, k, Polled(k.kind, t.runs[k], reply, now), alert, now)
  }

  /** Running rows without an owner become the node's. */
  function Claimed(t: Tables, kind: Kind, n: NodeId): Tables {
    t.(runs := map k | k in t.runs ::
         if k.kind == kind && t.runs[k].status.Running? && t.runs[k].node == UNOWNED
         then t.runs[k].(node := n) else t.runs[k])
  }

  /** A timed-out check. */
  function AfterTimeout(t: Tables, k: Key, now: Time, seconds: int, alert: bool): Tables {
    if k in t.runs && t.runs[k].status.Running?
    then SavedAndAlerted(t, k, TimedOut(t.runs[k], now, seconds), alert, now)
    else t
  }

  // ----- what the newest notified run is -----

  lemma {:induction false} NewestIsNewest(t: Tables, kind: Kind, task: nat, below: nat)
    ensures match NewestNotified(t, kind, task, below)
            case None => forall id: nat :: id < below ==> !Notified(t, Key(kind, id), kind, task)
            case Some(m) => m < below && Notified(t, Key(kind, m), kind, task)
                            && forall id: nat :: m < id < below ==> !Notified(t, Key(kind, id), kind, task)
  {
    if below > 0 {
      NewestIsNewest(t, kind, task, below - 1);
    }
  }

  /** What saving and alerting changes: the row itself and, on success, one older row's mark. */
  lemma SavedAndAlertedFrame(t: Tables, k: Key, r: Run, alert: bool, now: Time, x: Key)
    requires k in t.runs && x in t.runs
    ensures var t' := SavedAndAlerted(t, k, r, alert, now);
            && t'.nextSync == t.nextSync && t'.nextCheck == t.nextCheck && t'.runs.Keys == t.runs.Keys
            && (x == k ==> t'.runs[x] == r || (r.status.Failed? && t'.runs[x] == r.(notifiedAt := Some(now))))
            && (x != k && t'.runs[x] != t.runs[x] ==>
                  r.status.Success? && x.kind == k.kind && t'.runs[x] == t.runs[x].(notifiedAt := None))
  {
    NewestIsNewest(Saved(t, k, r), k.kind, r.task, NextId(t, k.kind));
  }

  /**
   A success with a receiver takes the mark off one row: the failure of its task and kind that has a mark and the
   largest id of those that have one. Nothing else changes.
   */
  lemma NewestIsResolved(t: Tables, k: Key, enabled: bool, x: Key)
    requires Numbered(t) && k in t.runs && x in t.runs
    ensures var r, t' := t.runs[k], AfterSuccess(t, k, enabled);
            && t'.runs.Keys == t.runs.Keys && t'.nextSync == t.nextSync && t'.nextCheck == t.nextCheck
            && t'.runs[x]
               == if r.status == Success && enabled
                     && x.kind == k.kind && t.runs[x].task == r.task
                     && t.runs[x].status == Failed && t.runs[x].notifiedAt != None
                     && (forall y |
                           y in t.runs && y.kind == k.kind && t.runs[y].task == r.task
                           && t.runs[y].status == Failed && t.runs[y].notifiedAt != None :: y.id <= x.id)
                  then t.runs[x].(notifiedAt := None) else t.runs[x]
  {
    var kind, task := k.kind, t.runs[k].task;
    NewestIsNewest(t, kind, task, NextId(t, kind));
    forall y | Notified(t, y, kind, task)
      ensures y == Key(kind, y.id) && y.id < NextId(t, kind)
    {
    }
  }

  // ----- what a poll does to the row it asks about -----

  /** The alert that goes out for a failed run leaves its mark. */
  function Mark(alert: bool, now: Time): Option<Time> {
    if alert then Some(now) else None
  }

  /**
   An error instead of an answer: the run fails, with that code, exactly if it is an error of the rcd below 500
   (and not 0, a request that never arrived); any other one is worth asking again, and changes nothing at all.
   */
  lemma ErrorsDecide(t: Tables, k: Key, fromRcd: bool, code: int, now: Time, alert: bool)
    requires k in t.runs && t.runs[k].status == Running && t.runs[k].job.Some? && t.runs[k].notifiedAt == None
    ensures var r, t' := t.runs[k], AfterPoll(t, k, QueryError(fromRcd, code), now, alert);
            if fromRcd && code != 0 && code < 500
            then t' == t.(runs := t.runs[k := Run(r.task, r.node, Failed, r.job, r.startedAt, Some(now),
                                                  Some(QueryRefused(code)), r.verdict, Mark(alert, now))])
            else t' == t
  {
  }

  /** An answer that does not say that the job has finished changes nothing. */
  lemma UnfinishedIsQuiet(t: Tables, k: Key, body: Body, now: Time, alert: bool)
    ensures body.finished != Is(true) ==> AfterPoll(t, k, JobStatus(body), now, alert) == t
  {
  }

  /** A finished sync: a success if the job says success = true, else a failure with the job's error. */
  lemma SyncReport(t: Tables, k: Key, body: Body, now: Time, alert: bool)
    requires k.kind == Sync && k in t.runs && t.runs[k].status == Running && t.runs[k].job.Some?
    requires t.runs[k].notifiedAt == None && body.finished == Is(true)
    ensures var r, t' := t.runs[k], AfterPoll(t, k, JobStatus(body), now, alert);
            && k in t'.runs
            && t'.runs[k]
               == if body.success == Is(true)
                  then Run(r.task, r.node, Success, r.job, r.startedAt, Some(now), r.error, r.verdict, None)
                  else Run(r.task, r.node, Failed, r.job, r.startedAt, Some(now),
                           Some(JobError(if body.error == "" then "unknown rclone error" else body.error)), r.verdict,
                           Mark(alert, now))
  {
    SavedAndAlertedFrame(t, k, PolledSync(t.runs[k], JobStatus(body), now), alert, now, k);
  }

  /** A finished check: its success needs that of the job and that of the output; the output's is kept as the verdict. */
  lemma CheckReport(t: Tables, k: Key, body: Body, now: Time, alert: bool)
    requires k.kind == Check && k in t.runs && t.runs[k].status == Running && t.runs[k].job.Some?
    requires t.runs[k].notifiedAt == None && body.finished == Is(true)
    ensures var r, t' := t.runs[k], AfterPoll(t, k, JobStatus(body), now, alert);
            && k in t'.runs
            && t'.runs[k]
               == if body.success == Is(true) && body.outputSuccess == Is(true)
                  then Run(r.task, r.node, Success, r.job, r.startedAt, Some(now), None, Some(body.outputSuccess), None)
                  else Run(r.task, r.node, Failed, r.job, r.startedAt, Some(now),
                           Some(if body.success == Is(true) then DifferencesFound
                                else CheckJobError(if body.error == "" then "rclone check job failed" else body.error)),
                           Some(body.outputSuccess), Mark(alert, now))
  {
    SavedAndAlertedFrame(t, k, PolledCheck(t.runs[k], JobStatus(body), now), alert, now, k);
  }

  /** A check whose time is up fails with that reason; one that is over is left alone. */
  lemma TimeoutFails(t: Tables, k: Key, now: Time, seconds: int, alert: bool)
    requires k in t.runs && t.runs[k].notifiedAt == None
    ensures var r, t' := t.runs[k], AfterTimeout(t, k, now, seconds, alert);
            t' == if r.status != Running then t
                  else t.(runs := t.runs[k := Run(r.task, r.node, Failed, r.job, r.startedAt, Some(now),
                                                  Some(CheckTimedOut(seconds)), r.verdict, Mark(alert, now))])
  {
  }

  /** After a claim no running row of the kind is without an owner, and nothing else has changed. */
  lemma ClaimsAll(t: Tables, kind: Kind, n: NodeId, k: Key)
    requires k in t.runs && n != UNOWNED
    ensures var t' := Claimed(t, kind, n);
            && t'.runs.Keys == t.runs.Keys && t'.nextSync == t.nextSync && t'.nextCheck == t.nextCheck
            && (k.kind == kind && t'.runs[k].status == Running ==> t'.runs[k].node != UNOWNED)
            && (if k.kind == kind && t.runs[k].status == Running && t.runs[k].node == UNOWNED
                then t'.runs[k].node == n && t'.runs[k].(node := UNOWNED) == t.runs[k]
                else t'.runs[k] == t.runs[k])
  {
  }

  /** What a check's row says of the sync that waits for it. */
  lemma VerdictSays(check: Run, id: nat)
    ensures VerdictOf(check, id) == Proceed <==> check.status != Success && check.verdict == Some(Is(false))
    ensures VerdictOf(check, id) == Skip(CheckPassed(id)) <==> check.status == Success
    ensures VerdictOf(check, id) == Skip(CheckBlocked(id, check.error))
            <==> check.status != Success && check.verdict != Some(Is(false))
  {
  }
}
