/**
 Several nodes run tasks against one database, each with an rcd of its own whose job ids are
 a local counter, so that the same number names different jobs on different nodes.

 One `Step` is one moment at which another node or thread may act. Assumed to be one step: the
 guard query with the insertion, and a poll of one row from loading to saving it, alert included.
 Rows are not deleted, an rcd is not restarted, and the clock does not run backwards.
 */
module RunProtocol {
  import opened Options
  import opened Runs

  // A job of an rcd: the run it was submitted for, and its report once it has finished.
  datatype Job = Job(run: Key, report: Option<Body>)
  datatype Rcd = Rcd(next: nat, jobs: map<nat, Job>)

  // What the thread that created a run has done so far. `bound` is the check task that has to be asked
  // first, `check` the run of it that this thread has made.
  datatype Progress = Fresh | Submitted(job: nat) | Broken
  datatype Flight = Flight(node: NodeId, progress: Progress, bound: Option<nat>, check: Option<Key>)

  // `legacy` holds the runs that were there, unowned, before; `fired` counts delivered alerts.
  datatype World = World(db: Tables, rcds: map<NodeId, Rcd>, clock: Time,
                         flights: map<Key, Flight>, legacy: set<Key>, fired: map<Key, nat>)

  datatype Step =
    | Tick(d: nat)
    | CreateSync(n: NodeId, task: nat, bound: Option<nat>)
    | CreateCheck(n: NodeId, task: nat, asker: Option<Key>)
    | Submit(k: Key, acked: bool)
    | Record(k: Key)
    | FailStart(k: Key, alert: bool)
    | SkipByCheck(k: Key)
    | Finish(n: NodeId, job: nat, report: Body)
    | Claim(kind: Kind, n: NodeId)
    | Poll(n: NodeId, k: Key, reply: Reply, alert: bool)
    | TimeOut(n: NodeId, k: Key, seconds: int, alert: bool)
    | Crash(n: NodeId)

  predicate IsNode(w: World, n: NodeId) {
    n in w.rcds && n != UNOWNED
  }

  /** What an rcd can answer about a job: any error, "still running", or the report of that job. */
  predicate Answers(rcd: Rcd, job: nat, reply: Reply) {
    reply.JobStatus? && reply.body.finished == Is(true) ==>
      job in rcd.jobs && rcd.jobs[job].report == Some(reply.body)
  }

  predicate OwnedRunning(w: World, n: NodeId, k: Key) {
    IsNode(w, n) && k in w.db.runs && w.db.runs[k].status.Running? && w.db.runs[k].node == n
  }

  /** The thread of the sync run `a` on node `n` is to ask the check task and has not done so. */
  predicate MayAsk(w: World, n: NodeId, task: nat, a: Key) {
    && a.kind.Sync? && a in w.flights
    && w.flights[a].node == n && w.flights[a].progress.Fresh? && w.flights[a].bound == Some(task) && w.flights[a].check.None?
  }

  /** The check that the thread has made is over. */
  predicate HasVerdict(w: World, f: Flight) {
    f.check.Some? && f.check.value in w.db.runs && Terminal(w.db.runs[f.check.value])
  }

  function VerdictFor(w: World, f: Flight): Verdict
    requires HasVerdict(w, f)
  {
    VerdictOf(w.db.runs[f.check.value], f.check.value.id)
  }

  predicate Enabled(w: World, s: Step) {
    match s
    case Tick(_) => true
    case CreateSync(n, _, _) => IsNode(w, n)
    case CreateCheck(n, task, asker) => IsNode(w, n) && (asker.Some? ==> MayAsk(w, n, task, asker.value))
    case Submit(k, _) =>
      && k in w.flights && w.flights[k].progress.Fresh? && w.flights[k].node in w.rcds
      && (w.flights[k].bound.Some? ==> HasVerdict(w, w.flights[k]) && VerdictFor(w, w.flights[k]).Proceed?)
    case Record(k) => k in w.flights && w.flights[k].progress.Submitted? && k in w.db.runs
    case FailStart(k, _) => k in w.flights && !w.flights[k].progress.Submitted? && k in w.db.runs
    case SkipByCheck(k) =>
      && k in w.flights && w.flights[k].progress.Fresh? && k in w.db.runs && k.kind.Sync?
      && HasVerdict(w, w.flights[k]) && VerdictFor(w, w.flights[k]).Skip?
    case Finish(n, job, report) =>
      n in w.rcds && job in w.rcds[n].jobs && w.rcds[n].jobs[job].report.None? && report.finished == Is(true)
    case Claim(_, n) => IsNode(w, n)
    case Poll(n, k, reply, _) =>
      OwnedRunning(w, n, k) && (w.db.runs[k].job.Some? ==> Answers(w.rcds[n], w.db.runs[k].job.value, reply))
    case TimeOut(n, k, _, _) => OwnedRunning(w, n, k) && k.kind.Check?
    case Crash(_) => true
  }

  function WithDb(w: World, db: Tables): World {
    w.(db := db, fired := Fired(w, db))
  }

  function CountOf(w: World, k: Key): nat {
    if k in w.fired then w.fired[k] else 0
  }

  /** A mark that appears on a row is a delivered firing. */
  function Fired(w: World, db: Tables): map<Key, nat> {
    map k | k in db.runs ::
      CountOf(w, k) + if db.runs[k].notifiedAt.Some? && (k !in w.db.runs || w.db.runs[k].notifiedAt.None?) then 1 else 0
  }

  function Create(w: World, n: NodeId, kind: Kind, r: Run, bound: Option<nat>): World {
    w.(db := Inserted(w.db, kind, r),
       flights := if r.status.Pending? then w.flights[NewKey(w.db, kind) := Flight(n, Fresh, bound, None)] else w.flights)
  }

  /** The thread of `asker` remembers the check it has made. */
  function Bind(w: World, asker: Option<Key>, check: Key): World {
    if asker.None? || asker.value !in w.flights then w
    else w.(flights := w.flights[asker.value := w.flights[asker.value].(check := Some(check))])
  }

  function DoSubmit(w: World, k: Key, acked: bool): World
    requires k in w.flights && w.flights[k].node in w.rcds
  {
    var n := w.flights[k].node;
    var rcd := w.rcds[n];
    w.(rcds := w.rcds[n := Rcd(rcd.next + 1, rcd.jobs[rcd.next := Job(k, None)])],
       flights := w.flights[k := w.flights[k].(progress := if acked then Submitted(rcd.next) else Broken)])
  }

  function Landed(w: World, k: Key, db: Tables): World {
    WithDb(w, db).(flights := w.flights - {k})
  }

  function DoFinish(w: World, n: NodeId, job: nat, report: Body): World
    requires n in w.rcds && job in w.rcds[n].jobs
  {
    var rcd := w.rcds[n];
    w.(rcds := w.rcds[n := rcd.(jobs := rcd.jobs[job := rcd.jobs[job].(report := Some(report))])])
  }

  ghost function Next(w: World, s: Step): World
    requires Enabled(w, s)
  {
    match s
    case Tick(d) => w.(clock := w.clock + d)
    case CreateSync(n, task, bound) =>
      Create(w, n, Sync, if Busy(w.db, task) then SkippedAtOnce(task, n, w.clock) else NewPending(task, n), bound)
    case CreateCheck(n, task, asker) => Bind(Create(w, n, Check, NewPending(task, n), None), asker, NewKey(w.db, Check))
    case Submit(k, acked) => DoSubmit(w, k, acked)
    case Record(k) => Landed(w, k, Saved(w.db, k, Started(w.db.runs[k], w.flights[k].progress.job, w.clock)))
    case FailStart(k, alert) =>
      Landed(w, k, SavedAndAlerted(w.db, k, StartFailed(w.db.runs[k], w.clock), alert, w.clock))
    case SkipByCheck(k) => Landed(w, k, Saved(w.db, k, SkippedBy(w.db.runs[k], VerdictFor(w, w.flights[k]).msg, w.clock)))
    case Finish(n, job, report) => DoFinish(w, n, job, report)
    case Claim(kind, n) => WithDb(w, Claimed(w.db, kind, n))
    case Poll(_, k, reply, alert) => WithDb(w, AfterPoll(w.db, k, reply, w.clock, alert))
    case TimeOut(_, k, seconds, alert) => WithDb(w, AfterTimeout(w.db, k, w.clock, seconds, alert))
    case Crash(n) => w.(flights := map k | k in w.flights && w.flights[k].node != n :: w.flights[k])
  }

  // An execution: the worlds passed through and the step taken from each.
  datatype Execution = Execution(ws: seq<World>, steps: seq<Step>)

  // ----- the shape of a row -----

  ghost predicate Shape(kind: Kind, r: Run, clock: Time) {
    && (r.startedAt.Some? ==> r.startedAt.value <= clock)
    && (r.notifiedAt.Some? ==> r.status.Failed?)
    && match r.status
       case Pending =>
         r.job.None? && r.startedAt.None? && r.finishedAt.None? && r.error.None? && r.verdict.None?
       case Running =>
         r.job.Some? && r.startedAt.Some? && r.finishedAt.None? && r.error.None? && r.verdict.None?
       case Success => r.job.Some? && Closed(r, clock) && r.error.None?
       case Failed => Closed(r, clock) && r.error.Some?
       case Skipped => kind.Sync? && r.job.None? && Closed(r, clock) && r.error.Some? && r.startedAt == r.finishedAt
  }

  predicate Closed(r: Run, clock: Time) {
    r.startedAt.Some? && r.finishedAt.Some? && r.startedAt.value <= r.finishedAt.value <= clock
  }

  // ----- the inductive invariant -----

  ghost predicate RowsInv(w: World) {
    && (forall k :: k in w.db.runs ==> k.id < NextId(w.db, k.kind) && Shape(k.kind, w.db.runs[k], w.clock))
    && (forall k :: k in w.fired || k in w.legacy ==> k in w.db.runs)
  }

  predicate ActiveSync(t: Tables, k: Key) {
    k in t.runs && k.kind.Sync? && Active(t.runs[k])
  }

  predicate FailedSync(t: Tables, k: Key) {
    k in t.runs && k.kind.Sync? && t.runs[k].status.Failed?
  }

  /** A task has one active sync run at most, and no failed run that is newer than it. */
  ghost predicate GuardInv(w: World) {
    && (forall a, b :: ActiveSync(w.db, a) && ActiveSync(w.db, b) && a != b ==> w.db.runs[a].task != w.db.runs[b].task)
    && (forall a, b :: ActiveSync(w.db, a) && FailedSync(w.db, b) && w.db.runs[a].task == w.db.runs[b].task ==> b.id < a.id)
  }

  ghost predicate FlightInv(w: World, k: Key, f: Flight) {
    && k in w.db.runs && w.db.runs[k].status.Pending? && w.db.runs[k].node == f.node && IsNode(w, f.node)
    && k !in w.legacy
    && (f.progress.Submitted? ==> JobOf(w, f.node, f.progress.job, k))
    && (f.check.Some? ==> AskedCheck(w, f.check.value, f.bound))
  }

  /** A check that a thread waits for is a run of the check task that the thread is bound to ask. */
  predicate AskedCheck(w: World, check: Key, bound: Option<nat>) {
    check.kind.Check? && check in w.db.runs && check !in w.legacy && bound == Some(w.db.runs[check].task)
  }

  predicate JobOf(w: World, n: NodeId, job: nat, k: Key) {
    n in w.rcds && job in w.rcds[n].jobs && w.rcds[n].jobs[job].run == k
  }

  /** A run's job is the one submitted for it on its owner's rcd, and its end and verdict are that job's. */
  ghost predicate Attributed(w: World, k: Key) {
    k in w.db.runs && k !in w.legacy ==>
      var r := w.db.runs[k];
      && r.node != UNOWNED
      && (r.job.Some? ==> JobOf(w, r.node, r.job.value, k))
      && (r.job.Some? && Terminal(r) ==> EndIsJobs(k.kind, r, w.rcds[r.node].jobs[r.job.value].report))
      && (r.verdict.Some? ==> r.job.Some? && VerdictIsJobs(r.verdict.value, w.rcds[r.node].jobs[r.job.value].report))
  }

  /** A check's verdict is what its job's report says of the output. */
  predicate VerdictIsJobs(verdict: Flag, report: Option<Body>) {
    report.Some? && verdict == report.value.outputSuccess
  }

  /** How a run that had a job may have ended: by the job's report, by a definite refusal, or by the timeout. */
  predicate EndIsJobs(kind: Kind, r: Run, report: Option<Body>) {
    || (r.status.Success? && report.Some? && Succeeded(kind, report.value))
    || (r.status.Failed? && report.Some? && !Succeeded(kind, report.value))
    || (r.status.Failed? && r.error.Some? && r.error.value.QueryRefused? && r.error.value.code < 500 && r.error.value.code != 0)
    || (r.status.Failed? && kind.Check? && r.error.Some? && r.error.value.CheckTimedOut?)
  }

  ghost predicate AlertInv(w: World, k: Key) {
    k in w.db.runs ==>
      && (k in w.fired && w.fired[k] > 0 ==> w.db.runs[k].status.Failed?)
      && (k in w.fired ==> w.fired[k] <= 1)
      && (k !in w.legacy && w.db.runs[k].notifiedAt.Some? ==> k in w.fired && w.fired[k] == 1)
  }

  ghost predicate RcdInv(rcd: Rcd) {
    forall j :: j in rcd.jobs ==> j < rcd.next
  }

  ghost predicate Inv(w: World) {
    && RowsInv(w) && GuardInv(w)
    && (forall k :: k in w.flights ==> FlightInv(w, k, w.flights[k]))
    && (forall k :: Attributed(w, k))
    && (forall k :: AlertInv(w, k))
    && (forall n :: n in w.rcds ==> RcdInv(w.rcds[n]))
  }

  // ----- every step keeps it -----

  /** All that the invariant says of one row and of the thread working on it. */
  ghost predicate RowOk(w: World, k: Key) {
    && Attributed(w, k) && AlertInv(w, k)
    && (k in w.db.runs ==> k.id < NextId(w.db, k.kind) && Shape(k.kind, w.db.runs[k], w.clock))
    && (k in w.flights ==> FlightInv(w, k, w.flights[k]))
    && (k in w.fired || k in w.legacy ==> k in w.db.runs)
  }

  lemma RowsOk(w: World)
    requires forall k :: RowOk(w, k)
    requires GuardInv(w) && forall n :: n in w.rcds ==> RcdInv(w.rcds[n])
    ensures Inv(w)
  {
    forall k
      ensures Attributed(w, k) && AlertInv(w, k)
      ensures k in w.flights ==> FlightInv(w, k, w.flights[k])
      ensures k in w.db.runs ==> k.id < NextId(w.db, k.kind) && Shape(k.kind, w.db.runs[k], w.clock)
      ensures k in w.fired || k in w.legacy ==> k in w.db.runs
    {
      assert RowOk(w, k);
    }
  }

  lemma RowIsOk(w: World, k: Key)
    requires Inv(w)
    ensures RowOk(w, k)
  {
    assert Attributed(w, k) && AlertInv(w, k);
  }

  /** The rows that count for the guard are those of before, with the same tasks. */
  lemma SameGuard(w: World, w': World)
    requires GuardInv(w)
    requires forall k :: ActiveSync(w'.db, k) ==> ActiveSync(w.db, k) && w'.db.runs[k].task == w.db.runs[k].task
    requires forall k :: FailedSync(w'.db, k) ==> FailedSync(w.db, k) && w'.db.runs[k].task == w.db.runs[k].task
    ensures GuardInv(w')
  {
  }

  lemma CreateRow(w: World, n: NodeId, kind: Kind, r: Run, bound: Option<nat>, x: Key)
    requires RowOk(w, x) && RowOk(w, NewKey(w.db, kind)) && IsNode(w, n)
    requires r == NewPending(r.task, n) || (kind.Sync? && r == SkippedAtOnce(r.task, n, w.clock))
    ensures RowOk(Create(w, n, kind, r, bound), x)
  {
    var added := NewKey(w.db, kind);
    assert added !in w.db.runs && added !in w.legacy && added !in w.fired;
  }

  lemma CreateGuard(w: World, n: NodeId, kind: Kind, r: Run, bound: Option<nat>)
    requires GuardInv(w) && RowsInv(w)
    requires r.status.Pending? || r.status.Skipped?
    requires kind.Sync? && r.status.Pending? ==> forall k :: ActiveSync(w.db, k) ==> w.db.runs[k].task != r.task
    ensures GuardInv(Create(w, n, kind, r, bound))
  {
    var w', added := Create(w, n, kind, r, bound), NewKey(w.db, kind);
    assert added !in w.db.runs && w'.db.runs == w.db.runs[added := r];
    if kind.Check? || r.status.Skipped? {
      SameGuard(w, w');
    } else {
      NewSyncGuard(w, w', added);
    }
  }

  lemma NewSyncGuard(w: World, w': World, added: Key)
    requires GuardInv(w) && added.kind.Sync? && added !in w.db.runs
    requires added in w'.db.runs && w'.db.runs == w.db.runs[added := w'.db.runs[added]] && w'.db.runs[added].status.Pending?
    requires forall k :: ActiveSync(w.db, k) ==> w.db.runs[k].task != w'.db.runs[added].task
    requires forall k :: k in w.db.runs && k.kind.Sync? ==> k.id < added.id
    ensures GuardInv(w')
  {
    assert forall k :: FailedSync(w'.db, k) ==> FailedSync(w.db, k);
    assert forall k :: ActiveSync(w'.db, k) ==> k == added || ActiveSync(w.db, k);
  }

  lemma InvCreate(w: World, n: NodeId, kind: Kind, r: Run, bound: Option<nat>)
    requires Inv(w) && IsNode(w, n)
    requires r == NewPending(r.task, n) || (kind.Sync? && r == SkippedAtOnce(r.task, n, w.clock))
    requires kind.Sync? && r.status.Pending? ==> !Busy(w.db, r.task)
    ensures Inv(Create(w, n, kind, r, bound))
  {
    forall x
      ensures RowOk(Create(w, n, kind, r, bound), x)
    {
      RowIsOk(w, x);
      RowIsOk(w, NewKey(w.db, kind));
      CreateRow(w, n, kind, r, bound, x);
    }
    CreateGuard(w, n, kind, r, bound);
    RowsOk(Create(w, n, kind, r, bound));
  }

  lemma InvBind(w: World, asker: Option<Key>, check: Key)
    requires Inv(w) && check.kind.Check? && check in w.db.runs && check !in w.legacy
    requires asker.Some? && asker.value in w.flights ==> w.flights[asker.value].bound == Some(w.db.runs[check].task)
    ensures Inv(Bind(w, asker, check))
  {
    var w' := Bind(w, asker, check);
    forall x
      ensures RowOk(w', x)
    {
      RowIsOk(w, x);
    }
    SameGuard(w, w');
    RowsOk(w');
  }

  /** The jobs an rcd has stay what they are when it takes on one more or finishes one. */
  ghost predicate JobsKept(w: World, w': World) {
    forall n, j :: n in w.rcds && j in w.rcds[n].jobs ==>
      && n in w'.rcds && j in w'.rcds[n].jobs && w'.rcds[n].jobs[j].run == w.rcds[n].jobs[j].run
      && (w.rcds[n].jobs[j].report.Some? ==> w'.rcds[n].jobs[j].report == w.rcds[n].jobs[j].report)
  }

  lemma SubmitRow(w: World, k: Key, acked: bool, x: Key)
    requires RowOk(w, x) && Enabled(w, Submit(k, acked)) && JobsKept(w, DoSubmit(w, k, acked))
    ensures RowOk(DoSubmit(w, k, acked), x)
  {
  }

  lemma InvSubmit(w: World, k: Key, acked: bool)
    requires Inv(w) && Enabled(w, Submit(k, acked))
    ensures Inv(DoSubmit(w, k, acked))
  {
    var w', n := DoSubmit(w, k, acked), w.flights[k].node;
    assert RcdInv(w.rcds[n]);
    forall x
      ensures RowOk(w', x)
    {
      RowIsOk(w, x);
      SubmitRow(w, k, acked, x);
    }
    SameGuard(w, w');
    RowsOk(w');
  }

  lemma FinishRow(w: World, n: NodeId, job: nat, report: Body, x: Key)
    requires RowOk(w, x) && Enabled(w, Finish(n, job, report)) && JobsKept(w, DoFinish(w, n, job, report))
    ensures RowOk(DoFinish(w, n, job, report), x)
  {
  }

  lemma InvFinish(w: World, n: NodeId, job: nat, report: Body)
    requires Inv(w) && Enabled(w, Finish(n, job, report))
    ensures Inv(DoFinish(w, n, job, report))
  {
    var w' := DoFinish(w, n, job, report);
    assert RcdInv(w.rcds[n]);
    forall x
      ensures RowOk(w', x)
    {
      RowIsOk(w, x);
      FinishRow(w, n, job, report, x);
    }
    SameGuard(w, w');
    RowsOk(w');
  }

  lemma ClaimRow(w: World, kind: Kind, n: NodeId, x: Key)
    requires RowOk(w, x) && IsNode(w, n)
    ensures RowOk(WithDb(w, Claimed(w.db, kind, n)), x)
  {
  }

  lemma InvClaim(w: World, kind: Kind, n: NodeId)
    requires Inv(w) && IsNode(w, n)
    ensures Inv(WithDb(w, Claimed(w.db, kind, n)))
  {
    var w' := WithDb(w, Claimed(w.db, kind, n));
    forall x
      ensures RowOk(w', x)
    {
      RowIsOk(w, x);
      ClaimRow(w, kind, n, x);
    }
    SameGuard(w, w');
    RowsOk(w');
  }

  /** What a new content of an active row has to meet. */
  ghost predicate GoodRow(w: World, k: Key, r: Run) {
    && k in w.db.runs && Active(w.db.runs[k])
    && r.task == w.db.runs[k].task && r.node == w.db.runs[k].node && !r.status.Pending? && r.notifiedAt.None?
    && Shape(k.kind, r, w.clock)
    && (k !in w.legacy && r.job.Some? ==> JobOf(w, r.node, r.job.value, k))
    && (k !in w.legacy && r.job.Some? && Terminal(r) ==>
          EndIsJobs(k.kind, r, w.rcds[r.node].jobs[r.job.value].report))
    && (k !in w.legacy && r.verdict.Some? ==>
          r.job.Some? && VerdictIsJobs(r.verdict.value, w.rcds[r.node].jobs[r.job.value].report))
  }

  ghost predicate TasksKept(t: Tables, t': Tables) {
    forall y :: y in t.runs ==> y in t'.runs && t'.runs[y].task == t.runs[y].task
  }

  lemma LandingKeepsTasks(t: Tables, k: Key, r: Run, alert: bool, now: Time)
    requires k in t.runs && r.task == t.runs[k].task
    ensures TasksKept(t, SavedAndAlerted(t, k, r, alert, now))
  {
    forall y | y in t.runs
      ensures y in SavedAndAlerted(t, k, r, alert, now).runs
      ensures SavedAndAlerted(t, k, r, alert, now).runs[y].task == t.runs[y].task
    {
      SavedAndAlertedFrame(t, k, r, alert, now, y);
    }
  }

  lemma LandedRow(w: World, k: Key, r: Run, alert: bool, x: Key)
    requires RowOk(w, x) && RowOk(w, k) && GoodRow(w, k, r)
    requires TasksKept(w.db, SavedAndAlerted(w.db, k, r, alert, w.clock))
    ensures RowOk(Landed(w, k, SavedAndAlerted(w.db, k, r, alert, w.clock)), x)
  {
    var db := SavedAndAlerted(w.db, k, r, alert, w.clock);
    SavedAndAlertedFrame(w.db, k, r, alert, w.clock, if x in w.db.runs then x else k);
    LandedRowTo(w, k, r, db, x);
  }

  /** The same, for whatever tables saving and alerting have led to. */
  lemma LandedRowTo(w: World, k: Key, r: Run, db: Tables, x: Key)
    requires RowOk(w, x) && RowOk(w, k) && GoodRow(w, k, r)
    requires db.runs.Keys == w.db.runs.Keys && db.nextSync == w.db.nextSync && db.nextCheck == w.db.nextCheck
    requires TasksKept(w.db, db)
    requires x == k ==> db.runs[x] == r || (r.status.Failed? && db.runs[x] == r.(notifiedAt := Some(w.clock)))
    requires x != k && x in w.db.runs ==> db.runs[x] == w.db.runs[x] || db.runs[x] == w.db.runs[x].(notifiedAt := None)
    ensures RowOk(Landed(w, k, db), x)
  {
  }

  lemma LandedGuard(w: World, k: Key, r: Run, alert: bool)
    requires Inv(w) && GoodRow(w, k, r)
    ensures GuardInv(Landed(w, k, SavedAndAlerted(w.db, k, r, alert, w.clock)))
  {
    var w' := Landed(w, k, SavedAndAlerted(w.db, k, r, alert, w.clock));
    forall x
      ensures ActiveSync(w'.db, x) ==> ActiveSync(w.db, x) && w'.db.runs[x].task == w.db.runs[x].task
      ensures FailedSync(w'.db, x) && x != k ==> FailedSync(w.db, x)
      ensures FailedSync(w'.db, x) ==> w'.db.runs[x].task == w.db.runs[x].task
    {
      SavedAndAlertedFrame(w.db, k, r, alert, w.clock, if x in w.db.runs then x else k);
    }
    if r.status.Failed? && k.kind.Sync? {
      assert ActiveSync(w.db, k);
      assert !ActiveSync(w'.db, k) by {
        SavedAndAlertedFrame(w.db, k, r, alert, w.clock, k);
      }
    }
  }

  lemma InvLanded(w: World, k: Key, r: Run, alert: bool)
    requires Inv(w) && GoodRow(w, k, r)
    ensures Inv(Landed(w, k, SavedAndAlerted(w.db, k, r, alert, w.clock)))
  {
    var w' := Landed(w, k, SavedAndAlerted(w.db, k, r, alert, w.clock));
    LandingKeepsTasks(w.db, k, r, alert, w.clock);
    forall x
      ensures RowOk(w', x)
    {
      RowIsOk(w, x);
      RowIsOk(w, k);
      LandedRow(w, k, r, alert, x);
    }
    LandedGuard(w, k, r, alert);
    RowsOk(w');
  }

  lemma InvTickOrCrash(w: World, s: Step)
    requires Inv(w) && (s.Tick? || s.Crash?)
    ensures Inv(Next(w, s))
  {
    var w' := Next(w, s);
    forall x
      ensures RowOk(w', x)
    {
      RowIsOk(w, x);
    }
    SameGuard(w, w');
    RowsOk(w');
  }

  /** Saving without an alert is saving and alerting, for a row that calls for none. */
  lemma PollIsLanding(w: World, k: Key, r: Run, alert: bool)
    requires Inv(w) && k in w.db.runs && w.db.runs[k].status.Running?
    ensures WithDb(w, SavedAndAlerted(w.db, k, r, alert, w.clock))
            == Landed(w, k, SavedAndAlerted(w.db, k, r, alert, w.clock))
  {
    RowIsOk(w, k);
    assert w.flights - {k} == w.flights;
  }

  lemma PolledIsGood(w: World, n: NodeId, k: Key, reply: Reply)
    requires RowOk(w, k) && OwnedRunning(w, n, k) && w.db.runs[k].job.Some?
    requires Answers(w.rcds[n], w.db.runs[k].job.value, reply) && Decides(reply)
    ensures GoodRow(w, k, Polled(k.kind, w.db.runs[k], reply, w.clock))
  {
  }

  lemma InvPoll(w: World, n: NodeId, k: Key, reply: Reply, alert: bool)
    requires Inv(w) && Enabled(w, Poll(n, k, reply, alert))
    ensures Inv(WithDb(w, AfterPoll(w.db, k, reply, w.clock, alert)))
  {
    RowIsOk(w, k);
    if Decides(reply) {
      var r := Polled(k.kind, w.db.runs[k], reply, w.clock);
      PolledIsGood(w, n, k, reply);
      PollIsLanding(w, k, r, alert);
      InvLanded(w, k, r, alert);
    } else {
      InvUnchanged(w);
    }
  }

  lemma InvUnchanged(w: World)
    requires Inv(w)
    ensures Inv(WithDb(w, w.db))
  {
    var w' := WithDb(w, w.db);
    forall x
      ensures RowOk(w', x)
    {
      RowIsOk(w, x);
    }
    SameGuard(w, w');
    RowsOk(w');
  }

  /** The row that the creating thread writes at the end. */
  function ThreadRow(w: World, s: Step): Run
    requires Enabled(w, s) && (s.Record? || s.FailStart? || s.SkipByCheck?)
  {
    match s
    case Record(k) => Started(w.db.runs[k], w.flights[k].progress.job, w.clock)
    case FailStart(k, _) => StartFailed(w.db.runs[k], w.clock)
    case SkipByCheck(k) => SkippedBy(w.db.runs[k], VerdictFor(w, w.flights[k]).msg, w.clock)
  }

  lemma ThreadRowIsGood(w: World, s: Step)
    requires Enabled(w, s) && (s.Record? || s.FailStart? || s.SkipByCheck?) && RowOk(w, s.k)
    ensures GoodRow(w, s.k, ThreadRow(w, s))
  {
  }

  lemma InvThread(w: World, s: Step)
    requires Inv(w) && Enabled(w, s) && (s.Record? || s.FailStart? || s.SkipByCheck?)
    ensures Inv(Next(w, s))
  {
    RowIsOk(w, s.k);
    ThreadRowIsGood(w, s);
    InvLanded(w, s.k, ThreadRow(w, s), s.FailStart? && s.alert);
  }

  lemma InvCreateSync(w: World, n: NodeId, task: nat, bound: Option<nat>)
    requires Inv(w) && IsNode(w, n)
    ensures Inv(Next(w, CreateSync(n, task, bound)))
  {
    InvCreate(w, n, Sync, if Busy(w.db, task) then SkippedAtOnce(task, n, w.clock) else NewPending(task, n), bound);
  }

  lemma InvCreateCheck(w: World, n: NodeId, task: nat, asker: Option<Key>)
    requires Inv(w) && Enabled(w, CreateCheck(n, task, asker))
    ensures Inv(Next(w, CreateCheck(n, task, asker)))
  {
    InvCreate(w, n, Check, NewPending(task, n), None);
    RowIsOk(w, NewKey(w.db, Check));
    InvBind(Create(w, n, Check, NewPending(task, n), None), asker, NewKey(w.db, Check));
  }

  lemma InvTimeOut(w: World, n: NodeId, k: Key, seconds: int, alert: bool)
    requires Inv(w) && OwnedRunning(w, n, k) && k.kind.Check?
    ensures Inv(WithDb(w, AfterTimeout(w.db, k, w.clock, seconds, alert)))
  {
    RowIsOk(w, k);
    var r := TimedOut(w.db.runs[k], w.clock, seconds);
    PollIsLanding(w, k, r, alert);
    InvLanded(w, k, r, alert);
  }

  lemma InvNext(w: World, s: Step)
    requires Inv(w) && Enabled(w, s)
    ensures Inv(Next(w, s))
  {
    match s {
      case Tick(_) => InvTickOrCrash(w, s);
      case Crash(_) => InvTickOrCrash(w, s);
      case CreateSync(n, task, bound) => InvCreateSync(w, n, task, bound);
      case CreateCheck(n, task, asker) => InvCreateCheck(w, n, task, asker);
      case Submit(k, acked) => InvSubmit(w, k, acked);
      case Finish(n, job, report) => InvFinish(w, n, job, report);
      case Claim(kind, n) => InvClaim(w, kind, n);
      case Poll(n, k, reply, alert) => InvPoll(w, n, k, reply, alert);
      case TimeOut(n, k, seconds, alert) => InvTimeOut(w, n, k, seconds, alert);
      case _ => InvThread(w, s);
    }
  }

  // ----- executions -----

  /** Before: any rows that fit the invariant, none of them in a thread's hands. */
  ghost predicate Initial(w: World) {
    && RowsInv(w) && GuardInv(w) && w.flights == map[] && w.fired == map[] && w.legacy == w.db.runs.Keys
    && forall n :: n in w.rcds ==> RcdInv(w.rcds[n])
  }

  ghost predicate IsRun(e: Execution) {
    && |e.ws| == |e.steps| + 1 && Initial(e.ws[0])
    && forall i :: 0 <= i < |e.steps| ==> Enabled(e.ws[i], e.steps[i]) && e.ws[i + 1] == Next(e.ws[i], e.steps[i])
  }

  lemma {:induction false} InvHolds(e: Execution, i: nat)
    requires IsRun(e) && i < |e.ws|
    ensures Inv(e.ws[i])
  {
    if i > 0 {
      InvHolds(e, i - 1);
      InvNext(e.ws[i - 1], e.steps[i - 1]);
    }
  }

  // ----- prolonging an execution -----

  function Last(e: Execution): World
    requires |e.ws| > 0
  {
    e.ws[|e.ws| - 1]
  }

  lemma Then(e: Execution, s: Step) returns (e': Execution)
    requires IsRun(e) && Enabled(Last(e), s)
    ensures IsRun(e') && Last(e') == Next(Last(e), s)
  {
    e' := Execution(e.ws + [Next(Last(e), s)], e.steps + [s]);
    forall i | 0 <= i < |e'.steps|
      ensures Enabled(e'.ws[i], e'.steps[i]) && e'.ws[i + 1] == Next(e'.ws[i], e'.steps[i])
    {
      assert e'.ws[i] == e.ws[i];
      assert i < |e.steps| ==> e'.steps[i] == e.steps[i] && e'.ws[i + 1] == e.ws[i + 1];
    }
  }
}
