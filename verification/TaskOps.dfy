/**
 Writing task rows and keeping the job table in step with them: the effect of each operation on
 the rows and on one node's scheduler, and what every sequence of operations keeps.

 On standby an operation changes the rows alone, so the operations that other nodes carry out
 while this one is standby are covered as well; assumed is that nobody else writes while this
 node leads. The rows are read and written without failure, except where a parameter says so.
 */
module TaskOps {
  import opened Options
  import opened Text
  import opened JobTable

  // `synced`: the rows could be read when leadership was last gained.
  datatype State = State(rows: Rows, leader: bool, synced: bool, table: Table)

  datatype Response = Created(id: nat) | Done | NotFound | BadFields | BadCron | BadRefs | NoSuchCheck | InUse

  // A field that is absent, or null where null means nothing, is None.
  datatype TaskPatch = TaskPatch(cron: Option<string>, enabled: Option<bool>, preCheck: Option<Option<nat>>)
  datatype CheckPatch = CheckPatch(cron: Option<Option<string>>, enabled: Option<bool>)

  // `fieldsOk` and `refsOk`: the other fields, and the data source references, pass validation.
  datatype Op =
    | CreateTask(task: SyncTask, fieldsOk: bool, refsOk: bool)
    | UpdateTask(id: nat, taskPatch: TaskPatch, fieldsOk: bool, refsOk: bool)
    | DeleteTask(id: nat)
    | CreateCheck(check: CheckTask, fieldsOk: bool, refsOk: bool)
    | UpdateCheck(id: nat, checkPatch: CheckPatch, fieldsOk: bool, refsOk: bool)
    | DeleteCheck(id: nat)
    | SetLeader(value: bool, dbOk: bool)

  function Or<T>(o: Option<T>, default: T): T {
    if o.Some? then o.value else default
  }

  predicate CronFits(env: Env, cron: Option<string>) {
    cron.Some? && cron.value != "" ==> env.validates(cron.value)
  }

  predicate KnownCheck(rows: Rows, c: Option<nat>) {
    c.Some? ==> c.value in rows.checks
  }

  // ----- the operations -----

  function TaskStored(env: Env, st: State, id: nat, t: SyncTask): State {
    st.(rows := st.rows.(tasks := st.rows.tasks[id := t]),
        table := if t.enabled then RegisterTaskIn(env, st.leader, st.table, id, t.cron)
                 else RemoveIn(st.leader, st.table, TaskName(id)))
  }

  function CheckStored(env: Env, st: State, id: nat, c: CheckTask): State {
    st.(rows := st.rows.(checks := st.rows.checks[id := c]),
        table := if c.enabled then RegisterCheckIn(env, st.leader, st.table, id, c)
                 else RemoveIn(st.leader, st.table, CheckName(id)))
  }

  function PatchedTask(t: SyncTask, p: TaskPatch): SyncTask {
    SyncTask(Or(p.cron, t.cron), Or(p.enabled, t.enabled), Or(p.preCheck, t.preCheck))
  }

  function PatchedCheck(c: CheckTask, p: CheckPatch): CheckTask {
    CheckTask(Or(p.cron, c.cron), Or(p.enabled, c.enabled))
  }

  function Respond(env: Env, st: State, op: Op): Response {
    match op
    case CreateTask(t, fieldsOk, refsOk) =>
      if !fieldsOk then BadFields
      else if !env.validates(t.cron) then BadCron
      else if !refsOk then BadRefs
      else if !KnownCheck(st.rows, t.preCheck) then NoSuchCheck
      else Created(st.rows.nextTask)
    case UpdateTask(id, p, fieldsOk, refsOk) =>
      if id !in st.rows.tasks then NotFound
      else if p.cron.Some? && !env.validates(p.cron.value) then BadCron
      else if !refsOk then BadRefs
      else if p.preCheck.Some? && !KnownCheck(st.rows, p.preCheck.value) then NoSuchCheck
      else if !fieldsOk then BadFields
      else Done
    case DeleteTask(id) => if id in st.rows.tasks then Done else NotFound
    case CreateCheck(c, fieldsOk, refsOk) =>
      if !CronFits(env, c.cron) then BadCron
      else if !fieldsOk then BadFields
      else if !refsOk then BadRefs
      else Created(st.rows.nextCheck)
    case UpdateCheck(id, p, fieldsOk, refsOk) =>
      if id !in st.rows.checks then NotFound
      else if p.cron.Some? && !CronFits(env, p.cron.value) then BadCron
      else if !refsOk then BadRefs
      else if !fieldsOk then BadFields
      else Done
    case DeleteCheck(id) =>
      if id !in st.rows.checks then NotFound
      else if UsedAsPreCheck(st.rows, id) then InUse
      else Done
    case SetLeader(_, _) => Done
  }

  predicate UsedAsPreCheck(rows: Rows, check: nat) {
    exists id :: id in rows.tasks && rows.tasks[id].preCheck == Some(check)
  }

  function Apply(env: Env, st: State, op: Op): State {
    if !Respond(env, st, op).Created? && !Respond(env, st, op).Done? then st
    else match op
      case CreateTask(t, _, _) =>
        TaskStored(env, st.(rows := st.rows.(nextTask := st.rows.nextTask + 1)), st.rows.nextTask, t)
      case UpdateTask(id, p, _, _) => TaskStored(env, st, id, PatchedTask(st.rows.tasks[id], p))
      case DeleteTask(id) =>
        st.(rows := st.rows.(tasks := st.rows.tasks - {id}), table := RemoveIn(st.leader, st.table, TaskName(id)))
      case CreateCheck(c, _, _) =>
        CheckStored(env, st.(rows := st.rows.(nextCheck := st.rows.nextCheck + 1)), st.rows.nextCheck, c)
      case UpdateCheck(id, p, _, _) => CheckStored(env, st, id, PatchedCheck(st.rows.checks[id], p))
      case DeleteCheck(id) =>
        st.(rows := st.rows.(checks := st.rows.checks - {id}), table := RemoveIn(st.leader, st.table, CheckName(id)))
      case SetLeader(value, dbOk) =>
        if value == st.leader then st
        else if !value then st.(leader := false, table := WithoutUserJobs(st.table))
        else st.(leader := true, synced := dbOk, table := if dbOk then Synced(env, true, st.rows, st.table) else st.table)
  }

  // ----- the full rebuild -----

  function WithoutUserJobs(tb: Table): Table {
    tb.(jobs := DropNamed(tb.jobs, UserNames(tb.jobs)))
  }

  predicate TaskDue(rows: Rows, id: nat) {
    id in rows.tasks && rows.tasks[id].enabled
  }

  predicate CheckDue(rows: Rows, id: nat) {
    id in rows.checks && rows.checks[id].enabled && HasCron(rows.checks[id])
  }

  function RegisterTasks(env: Env, leader: bool, rows: Rows, tb: Table, n: nat): Table {
    if n == 0 then tb
    else
      var tb' := RegisterTasks(env, leader, rows, tb, n - 1);
      if TaskDue(rows, n - 1)
      then RegisterTaskIn(env, leader, tb', n - 1, rows.tasks[n - 1].cron) else tb'
  }

  function RegisterChecks(env: Env, leader: bool, rows: Rows, tb: Table, n: nat): Table {
    if n == 0 then tb
    else
      var tb' := RegisterChecks(env, leader, rows, tb, n - 1);
      if CheckDue(rows, n - 1)
      then RegisterCheckIn(env, leader, tb', n - 1, rows.checks[n - 1]) else tb'
  }

  predicate TaskRegisters(env: Env, leader: bool, rows: Rows, id: nat) {
    TaskDue(rows, id) && (leader ==> Runnable(env, rows.tasks[id].cron))
  }

  predicate CheckRegisters(env: Env, leader: bool, rows: Rows, id: nat) {
    CheckDue(rows, id) && (leader ==> Runnable(env, rows.checks[id].cron.value))
  }

  /** The names of the rows that could be registered. */
  function EnabledNames(env: Env, leader: bool, rows: Rows): set<string> {
    (set id | id in rows.tasks && TaskRegisters(env, leader, rows, id) :: TaskName(id))
    + (set id | id in rows.checks && CheckRegisters(env, leader, rows, id) :: CheckName(id))
  }

  /** Registers what is enabled, then removes every user job whose name was not registered. */
  function Synced(env: Env, leader: bool, rows: Rows, tb: Table): Table {
    var full := RegisterChecks(env, leader, rows, RegisterTasks(env, leader, rows, tb, rows.nextTask), rows.nextCheck);
    full.(jobs := DropNamed(full.jobs, UserNames(full.jobs) - EnabledNames(env, leader, rows)))
  }

  predicate IdsOk(rows: Rows) {
    (forall id :: id in rows.tasks ==> id < rows.nextTask) && (forall id :: id in rows.checks ==> id < rows.nextCheck)
  }

  /** One turn of the loop over the task rows, seen at one name. */
  lemma TaskTurn(env: Env, rows: Rows, tb: Table, n: nat, x: string)
    requires WellFormed(tb) && TaskDue(rows, n)
    ensures var tb' := RegisterTaskIn(env, true, tb, n, rows.tasks[n].cron);
            && WellFormed(tb') && Internal(tb'.jobs) == Internal(tb.jobs)
            && CronsOf(tb'.jobs, x) == if x != TaskName(n) || !env.validates(rows.tasks[n].cron) then CronsOf(tb.jobs, x)
                                       else if env.accepts(rows.tasks[n].cron) then [rows.tasks[n].cron] else []
  {
    NamesDiffer(n, n);
    RegisteredHolds(env, tb, TaskName(n), "sync", rows.tasks[n].cron, x);
  }

  lemma {:induction false} RegisterTasksKeeps(env: Env, rows: Rows, tb: Table, n: nat)
    requires WellFormed(tb)
    ensures var tb' := RegisterTasks(env, true, rows, tb, n); WellFormed(tb') && Internal(tb'.jobs) == Internal(tb.jobs)
  {
    if n > 0 {
      RegisterTasksKeeps(env, rows, tb, n - 1);
      if TaskDue(rows, n - 1) {
        TaskTurn(env, rows, RegisterTasks(env, true, rows, tb, n - 1), n - 1, "");
      }
    }
  }

  /** Names that are not tasks' are left alone. */
  lemma {:induction false} RegisterTasksElsewhere(env: Env, rows: Rows, tb: Table, n: nat, x: string)
    requires WellFormed(tb) && x != "" && x[0] == 'c'
    ensures CronsOf(RegisterTasks(env, true, rows, tb, n).jobs, x) == CronsOf(tb.jobs, x)
  {
    if n > 0 {
      RegisterTasksElsewhere(env, rows, tb, n - 1, x);
      RegisterTasksKeeps(env, rows, tb, n - 1);
      NamesDiffer(n - 1, n - 1);
      if TaskDue(rows, n - 1) {
        TaskTurn(env, rows, RegisterTasks(env, true, rows, tb, n - 1), n - 1, x);
      }
    }
  }

  /** What the turn of row `n` makes of the jobs of row `id`. */
  lemma TaskTurnAt(env: Env, rows: Rows, tb: Table, n: nat, id: nat)
    requires WellFormed(tb)
    ensures CronsOf((if TaskDue(rows, n) then RegisterTaskIn(env, true, tb, n, rows.tasks[n].cron) else tb).jobs, TaskName(id))
            == if n == id && TaskDue(rows, id) && env.validates(rows.tasks[id].cron)
               then (if env.accepts(rows.tasks[id].cron) then [rows.tasks[id].cron] else [])
               else CronsOf(tb.jobs, TaskName(id))
  {
    NamesDiffer(n, id);
    if TaskDue(rows, n) {
      TaskTurn(env, rows, tb, n, TaskName(id));
    }
  }

  /** Each task row that is due, and whose cron validates, decides about the jobs of its name. */
  lemma {:induction false} RegisterTasksAt(env: Env, rows: Rows, tb: Table, n: nat, id: nat)
    requires WellFormed(tb)
    ensures CronsOf(RegisterTasks(env, true, rows, tb, n).jobs, TaskName(id))
            == if id < n && TaskDue(rows, id) && env.validates(rows.tasks[id].cron)
               then (if env.accepts(rows.tasks[id].cron) then [rows.tasks[id].cron] else [])
               else CronsOf(tb.jobs, TaskName(id))
  {
    if n > 0 {
      RegisterTasksAt(env, rows, tb, n - 1, id);
      RegisterTasksKeeps(env, rows, tb, n - 1);
      TaskTurnAt(env, rows, RegisterTasks(env, true, rows, tb, n - 1), n - 1, id);
    }
  }

  /** One turn of the loop over the check rows, seen at one name. */
  lemma CheckTurn(env: Env, rows: Rows, tb: Table, n: nat, x: string)
    requires WellFormed(tb) && CheckDue(rows, n)
    ensures var tb' := RegisterCheckIn(env, true, tb, n, rows.checks[n]);
            && WellFormed(tb') && Internal(tb'.jobs) == Internal(tb.jobs)
            && CronsOf(tb'.jobs, x) == if x != CheckName(n) || !env.validates(rows.checks[n].cron.value) then CronsOf(tb.jobs, x)
                                       else if env.accepts(rows.checks[n].cron.value) then [rows.checks[n].cron.value] else []
  {
    assert "check"[0] != TASK_PREFIX[0];
    NamesDiffer(n, n);
    RegisteredHolds(env, tb, CheckName(n), "check", rows.checks[n].cron.value, x);
  }

  lemma {:induction false} RegisterChecksKeeps(env: Env, rows: Rows, tb: Table, n: nat)
    requires WellFormed(tb)
    ensures var tb' := RegisterChecks(env, true, rows, tb, n); WellFormed(tb') && Internal(tb'.jobs) == Internal(tb.jobs)
  {
    if n > 0 {
      RegisterChecksKeeps(env, rows, tb, n - 1);
      if CheckDue(rows, n - 1) {
        CheckTurn(env, rows, RegisterChecks(env, true, rows, tb, n - 1), n - 1, "");
      }
    }
  }

  /** Names that are not checks' are left alone. */
  lemma {:induction false} RegisterChecksElsewhere(env: Env, rows: Rows, tb: Table, n: nat, x: string)
    requires WellFormed(tb) && x != "" && x[0] == 't'
    ensures CronsOf(RegisterChecks(env, true, rows, tb, n).jobs, x) == CronsOf(tb.jobs, x)
  {
    if n > 0 {
      RegisterChecksElsewhere(env, rows, tb, n - 1, x);
      RegisterChecksKeeps(env, rows, tb, n - 1);
      NamesDiffer(n - 1, n - 1);
      if CheckDue(rows, n - 1) {
        CheckTurn(env, rows, RegisterChecks(env, true, rows, tb, n - 1), n - 1, x);
      }
    }
  }

  /** What the turn of row `n` makes of the jobs of row `id`. */
  lemma CheckTurnAt(env: Env, rows: Rows, tb: Table, n: nat, id: nat)
    requires WellFormed(tb)
    ensures CronsOf((if CheckDue(rows, n) then RegisterCheckIn(env, true, tb, n, rows.checks[n]) else tb).jobs, CheckName(id))
            == if n == id && CheckDue(rows, id) && env.validates(rows.checks[id].cron.value)
               then (if env.accepts(rows.checks[id].cron.value) then [rows.checks[id].cron.value] else [])
               else CronsOf(tb.jobs, CheckName(id))
  {
    NamesDiffer(n, id);
    if CheckDue(rows, n) {
      CheckTurn(env, rows, tb, n, CheckName(id));
    }
  }

  /** Each check row that is due, and whose cron validates, decides about the jobs of its name. */
  lemma {:induction false} RegisterChecksAt(env: Env, rows: Rows, tb: Table, n: nat, id: nat)
    requires WellFormed(tb)
    ensures CronsOf(RegisterChecks(env, true, rows, tb, n).jobs, CheckName(id))
            == if id < n && CheckDue(rows, id) && env.validates(rows.checks[id].cron.value)
               then (if env.accepts(rows.checks[id].cron.value) then [rows.checks[id].cron.value] else [])
               else CronsOf(tb.jobs, CheckName(id))
  {
    if n > 0 {
      RegisterChecksAt(env, rows, tb, n - 1, id);
      RegisterChecksKeeps(env, rows, tb, n - 1);
      CheckTurnAt(env, rows, RegisterChecks(env, true, rows, tb, n - 1), n - 1, id);
    }
  }

  lemma DropStaleHolds(tb: Table, kept: set<string>, x: string)
    requires WellFormed(tb)
    ensures var tb' := tb.(jobs := DropNamed(tb.jobs, UserNames(tb.jobs) - kept));
            && WellFormed(tb') && Internal(tb'.jobs) == Internal(tb.jobs)
            && (IsUserName(x) ==> CronsOf(tb'.jobs, x) == if x in kept then CronsOf(tb.jobs, x) else [])
  {
    var gone := UserNames(tb.jobs) - kept;
    DropNamedCrons(tb.jobs, gone, x);
    DropNamedMembers(tb.jobs, gone);
    DropNamedInternal(tb.jobs, gone);
    CronsAreJobs(tb.jobs, x);
  }

  /** The rebuild makes any well-formed table the index of the rows. */
  lemma SyncedIndexes(env: Env, rows: Rows, tb: Table)
    requires WellFormed(tb) && IdsOk(rows)
    ensures var tb' := Synced(env, true, rows, tb);
            WellFormed(tb') && Internal(tb'.jobs) == Internal(tb.jobs) && Indexed(env, rows, tb')
  {
    forall x | IsUserName(x)
      ensures CronsOf(Synced(env, true, rows, tb).jobs, x) == Wanted(env, rows, x)
    {
      SyncedHolds(env, rows, tb, x);
    }
    SyncedHolds(env, rows, tb, TASK_PREFIX);
  }

  lemma SyncedHolds(env: Env, rows: Rows, tb: Table, x: string)
    requires WellFormed(tb) && IdsOk(rows) && IsUserName(x)
    ensures var tb' := Synced(env, true, rows, tb);
            && WellFormed(tb') && Internal(tb'.jobs) == Internal(tb.jobs)
            && CronsOf(tb'.jobs, x) == Wanted(env, rows, x)
  {
    var tasked := RegisterTasks(env, true, rows, tb, rows.nextTask);
    var full := RegisterChecks(env, true, rows, tasked, rows.nextCheck);
    var enabled := EnabledNames(env, true, rows);
    RegisterTasksKeeps(env, rows, tb, rows.nextTask);
    RegisterChecksKeeps(env, rows, tasked, rows.nextCheck);
    DropStaleHolds(full, enabled, x);
    EnabledAreWanted(env, rows, x);
    if x in enabled {
      RegisteredAreWanted(env, rows, tb, x);
    }
  }

  lemma RegisteredAreWanted(env: Env, rows: Rows, tb: Table, x: string)
    requires WellFormed(tb) && IdsOk(rows) && x in EnabledNames(env, true, rows)
    ensures CronsOf(RegisterChecks(env, true, rows, RegisterTasks(env, true, rows, tb, rows.nextTask), rows.nextCheck).jobs, x)
            == Wanted(env, rows, x)
  {
    var tasked := RegisterTasks(env, true, rows, tb, rows.nextTask);
    RegisterTasksKeeps(env, rows, tb, rows.nextTask);
    if id :| id in rows.tasks && TaskRegisters(env, true, rows, id) && x == TaskName(id) {
      NamesDiffer(id, id);
      WantedByName(env, rows, id);
      RegisterTasksAt(env, rows, tb, rows.nextTask, id);
      RegisterChecksElsewhere(env, rows, tasked, rows.nextCheck, x);
    } else {
      var id :| id in rows.checks && CheckRegisters(env, true, rows, id) && x == CheckName(id);
      NamesDiffer(id, id);
      WantedByName(env, rows, id);
      RegisterTasksElsewhere(env, rows, tb, rows.nextTask, x);
      RegisterChecksAt(env, rows, tasked, rows.nextCheck, id);
    }
  }

  /** The names that register are those of the rows that ask for a job. */
  lemma EnabledAreWanted(env: Env, rows: Rows, x: string)
    ensures x in EnabledNames(env, true, rows) <==> Wanted(env, rows, x) != []
  {
    forall id: nat
      ensures Wanted(env, rows, TaskName(id)) == TaskCrons(env, rows, id)
      ensures Wanted(env, rows, CheckName(id)) == CheckCrons(env, rows, id)
    {
      WantedByName(env, rows, id);
    }
    if Wanted(env, rows, x) != [] {
      match RowId(x, TASK_PREFIX) {
        case Some(id) => assert x == TaskName(id) && TaskRegisters(env, true, rows, id);
        case None =>
          var id := RowId(x, CHECK_PREFIX).value;
          assert x == CheckName(id) && CheckRegisters(env, true, rows, id);
      }
    }
  }

  // ----- what every operation keeps -----

  /**
   On standby there is no user job. On the leader no job is there that the rows do not ask for;
   and if the rows could be read when leadership was gained, every job they ask for is there.
   */
  ghost predicate Good(env: Env, st: State) {
    && IdsOk(st.rows) && WellFormed(st.table)
    && (!st.leader ==> NoUserJobs(st.table))
    && (st.leader ==> Sound(env, st.rows, st.table))
    && (st.leader && st.synced ==> Indexed(env, st.rows, st.table))
  }

  /** Rows and table change at one name only, and on the leader agree there afterwards. */
  ghost predicate RewrittenAt(env: Env, st: State, st': State, name: string) {
    && st'.leader == st.leader && st'.synced == st.synced
    && (forall x :: IsUserName(x) && x != name ==>
          CronsOf(st'.table.jobs, x) == CronsOf(st.table.jobs, x) && Wanted(env, st'.rows, x) == Wanted(env, st.rows, x))
    && if st.leader then CronsOf(st'.table.jobs, name) == Wanted(env, st'.rows, name) else st'.table == st.table
  }

  lemma Rewritten(env: Env, st: State, st': State, name: string)
    requires Good(env, st) && IdsOk(st'.rows) && WellFormed(st'.table) && RewrittenAt(env, st, st', name)
    ensures Good(env, st')
  {
  }

  lemma TaskRowAlone(env: Env, rows: Rows, rows': Rows, id: nat)
    requires rows'.checks == rows.checks && rows'.tasks - {id} == rows.tasks - {id}
    ensures forall x :: x != TaskName(id) ==> Wanted(env, rows', x) == Wanted(env, rows, x)
  {
    forall i: nat | i != id
      ensures TaskCrons(env, rows', i) == TaskCrons(env, rows, i)
    {
      assert i in rows'.tasks <==> i in rows'.tasks - {id};
      assert i in rows.tasks <==> i in rows.tasks - {id};
      assert i in rows.tasks && i in rows'.tasks ==>
          rows'.tasks[i] == (rows'.tasks - {id})[i] && rows.tasks[i] == (rows.tasks - {id})[i];
    }
  }

  lemma CheckRowAlone(env: Env, rows: Rows, rows': Rows, id: nat)
    requires rows'.tasks == rows.tasks && rows'.checks - {id} == rows.checks - {id}
    ensures forall x :: x != CheckName(id) ==> Wanted(env, rows', x) == Wanted(env, rows, x)
  {
    forall i: nat | i != id
      ensures CheckCrons(env, rows', i) == CheckCrons(env, rows, i)
    {
      assert i in rows'.checks <==> i in rows'.checks - {id};
      assert i in rows.checks <==> i in rows.checks - {id};
      assert i in rows.checks && i in rows'.checks ==>
          rows'.checks[i] == (rows'.checks - {id})[i] && rows.checks[i] == (rows.checks - {id})[i];
    }
  }

  /** The table after a task row has been stored, seen at one name. */
  lemma TaskStoredTable(env: Env, st: State, id: nat, t: SyncTask, x: string)
    requires WellFormed(st.table)
    ensures var tb := TaskStored(env, st, id, t).table;
            && WellFormed(tb) && Internal(tb.jobs) == Internal(st.table.jobs)
            && CronsOf(tb.jobs, x)
               == if !st.leader || x != TaskName(id) || (t.enabled && !env.validates(t.cron)) then CronsOf(st.table.jobs, x)
                  else if t.enabled && env.accepts(t.cron) then [t.cron] else []
  {
    NamesDiffer(id, id);
    RegisteredHolds(env, st.table, TaskName(id), "sync", t.cron, x);
    RemoveHolds(st.leader, st.table, TaskName(id), x);
  }

  /** A cron that does not validate is only ever stored where it was before; then no job was there either. */
  lemma TaskStoredGood(env: Env, st: State, id: nat, t: SyncTask)
    requires Good(env, st) && id < st.rows.nextTask
    requires env.validates(t.cron) || (id in st.rows.tasks && t.cron == st.rows.tasks[id].cron)
    ensures var st' := TaskStored(env, st, id, t);
            && Good(env, st') && RewrittenAt(env, st, st', TaskName(id))
            && Internal(st'.table.jobs) == Internal(st.table.jobs)
  {
    var st' := TaskStored(env, st, id, t);
    NamesDiffer(id, id);
    WantedByName(env, st.rows, id);
    WantedByName(env, st'.rows, id);
    TaskRowAlone(env, st.rows, st'.rows, id);
    forall x | IsUserName(x) && x != TaskName(id)
      ensures CronsOf(st'.table.jobs, x) == CronsOf(st.table.jobs, x)
    {
      TaskStoredTable(env, st, id, t, x);
    }
    TaskStoredTable(env, st, id, t, TaskName(id));
    Rewritten(env, st, st', TaskName(id));
  }

  /** The table after a check row has been stored, seen at one name. */
  lemma CheckStoredTable(env: Env, st: State, id: nat, c: CheckTask, x: string)
    requires WellFormed(st.table)
    ensures var tb := CheckStored(env, st, id, c).table;
            && WellFormed(tb) && Internal(tb.jobs) == Internal(st.table.jobs)
            && CronsOf(tb.jobs, x)
               == if !st.leader || x != CheckName(id) || (c.enabled && HasCron(c) && !env.validates(c.cron.value))
                  then CronsOf(st.table.jobs, x)
                  else if c.enabled && HasCron(c) && env.accepts(c.cron.value) then [c.cron.value] else []
  {
    NamesDiffer(id, id);
    assert "check"[0] != TASK_PREFIX[0];
    RegisteredHolds(env, st.table, CheckName(id), "check", if HasCron(c) then c.cron.value else "", x);
    RemoveHolds(st.leader, st.table, CheckName(id), x);
  }

  lemma CheckStoredGood(env: Env, st: State, id: nat, c: CheckTask)
    requires Good(env, st) && id < st.rows.nextCheck
    requires CronFits(env, c.cron) || (id in st.rows.checks && c.cron == st.rows.checks[id].cron)
    ensures var st' := CheckStored(env, st, id, c);
            && Good(env, st') && RewrittenAt(env, st, st', CheckName(id))
            && Internal(st'.table.jobs) == Internal(st.table.jobs)
  {
    var st' := CheckStored(env, st, id, c);
    NamesDiffer(id, id);
    WantedByName(env, st.rows, id);
    WantedByName(env, st'.rows, id);
    CheckRowAlone(env, st.rows, st'.rows, id);
    forall x | IsUserName(x) && x != CheckName(id)
      ensures CronsOf(st'.table.jobs, x) == CronsOf(st.table.jobs, x)
    {
      CheckStoredTable(env, st, id, c, x);
    }
    CheckStoredTable(env, st, id, c, CheckName(id));
    Rewritten(env, st, st', CheckName(id));
  }

  lemma DeleteTaskGood(env: Env, st: State, id: nat)
    requires Good(env, st) && id in st.rows.tasks
    ensures var st' := Apply(env, st, DeleteTask(id));
            && Good(env, st') && RewrittenAt(env, st, st', TaskName(id))
            && Internal(st'.table.jobs) == Internal(st.table.jobs)
  {
    var st' := Apply(env, st, DeleteTask(id));
    NamesDiffer(id, id);
    WantedByName(env, st'.rows, id);
    TaskRowAlone(env, st.rows, st'.rows, id);
    RemovedGood(env, st, st'.rows, TaskName(id));
  }

  lemma DeleteCheckGood(env: Env, st: State, id: nat)
    requires Good(env, st) && id in st.rows.checks && !UsedAsPreCheck(st.rows, id)
    ensures var st' := Apply(env, st, DeleteCheck(id));
            && Good(env, st') && RewrittenAt(env, st, st', CheckName(id))
            && Internal(st'.table.jobs) == Internal(st.table.jobs)
  {
    var st' := Apply(env, st, DeleteCheck(id));
    NamesDiffer(id, id);
    WantedByName(env, st'.rows, id);
    CheckRowAlone(env, st.rows, st'.rows, id);
    RemovedGood(env, st, st'.rows, CheckName(id));
  }

  /** A name that the rows no longer ask for, and whose jobs are removed. */
  lemma RemovedGood(env: Env, st: State, rows: Rows, name: string)
    requires Good(env, st) && IdsOk(rows) && IsUserName(name) && Wanted(env, rows, name) == []
    requires forall x :: x != name ==> Wanted(env, rows, x) == Wanted(env, st.rows, x)
    ensures var st' := st.(rows := rows, table := RemoveIn(st.leader, st.table, name));
            && Good(env, st') && RewrittenAt(env, st, st', name)
            && Internal(st'.table.jobs) == Internal(st.table.jobs)
  {
    forall x
      ensures CronsOf(RemoveIn(st.leader, st.table, name).jobs, x)
              == if st.leader && x == name then [] else CronsOf(st.table.jobs, x)
    {
      RemoveHolds(st.leader, st.table, name, x);
    }
    RemoveHolds(st.leader, st.table, name, name);
    Rewritten(env, st, st.(rows := rows, table := RemoveIn(st.leader, st.table, name)), name);
  }

  lemma SetLeaderGood(env: Env, st: State, value: bool, dbOk: bool)
    requires Good(env, st)
    ensures var st' := Apply(env, st, SetLeader(value, dbOk));
            Good(env, st') && Internal(st'.table.jobs) == Internal(st.table.jobs)
  {
    if value != st.leader {
      if value {
        forall x | IsUserName(x)
          ensures CronsOf(st.table.jobs, x) == []
        {
          CronsAreJobs(st.table.jobs, x);
        }
        SyncedIndexes(env, st.rows, st.table);
      } else {
        var gone := UserNames(st.table.jobs);
        DropNamedMembers(st.table.jobs, gone);
        DropNamedInternal(st.table.jobs, gone);
      }
    }
  }

  /** The job name of the row that an operation writes. */
  function WrittenName(env: Env, st: State, op: Op): Option<string> {
    if !Respond(env, st, op).Created? && !Respond(env, st, op).Done? then None
    else match op
      case CreateTask(_, _, _) => Some(TaskName(st.rows.nextTask))
      case UpdateTask(id, _, _, _) => Some(TaskName(id))
      case DeleteTask(id) => Some(TaskName(id))
      case CreateCheck(_, _, _) => Some(CheckName(st.rows.nextCheck))
      case UpdateCheck(id, _, _, _) => Some(CheckName(id))
      case DeleteCheck(id) => Some(CheckName(id))
      case SetLeader(_, _) => None
  }

  /** What an operation on the rows keeps, and where it changes anything at all. */
  ghost predicate WritesWell(env: Env, st: State, op: Op) {
    var st', name := Apply(env, st, op), WrittenName(env, st, op);
    && Good(env, st') && Internal(st'.table.jobs) == Internal(st.table.jobs)
    && if name.Some? then IsUserName(name.value) && RewrittenAt(env, st, st', name.value) else st' == st
  }

  lemma GoodTaskOp(env: Env, st: State, op: Op)
    requires Good(env, st) && (op.CreateTask? || op.UpdateTask?)
    ensures WritesWell(env, st, op)
  {
    if op.CreateTask? {
      var counted := st.(rows := st.rows.(nextTask := st.rows.nextTask + 1));
      Counted(env, st, counted.rows);
      NamesDiffer(st.rows.nextTask, 0);
      if Respond(env, st, op).Created? {
        TaskStoredGood(env, counted, st.rows.nextTask, op.task);
      }
    } else if Respond(env, st, op).Done? {
      NamesDiffer(op.id, 0);
      TaskStoredGood(env, st, op.id, PatchedTask(st.rows.tasks[op.id], op.taskPatch));
    }
  }

  lemma GoodCheckOp(env: Env, st: State, op: Op)
    requires Good(env, st) && (op.CreateCheck? || op.UpdateCheck?)
    ensures WritesWell(env, st, op)
  {
    if op.CreateCheck? {
      var counted := st.(rows := st.rows.(nextCheck := st.rows.nextCheck + 1));
      Counted(env, st, counted.rows);
      NamesDiffer(st.rows.nextCheck, 0);
      if Respond(env, st, op).Created? {
        CheckStoredGood(env, counted, st.rows.nextCheck, op.check);
      }
    } else if Respond(env, st, op).Done? {
      NamesDiffer(op.id, 0);
      CheckStoredGood(env, st, op.id, PatchedCheck(st.rows.checks[op.id], op.checkPatch));
    }
  }

  lemma GoodWrite(env: Env, st: State, op: Op)
    requires Good(env, st) && !op.SetLeader?
    ensures WritesWell(env, st, op)
  {
    if op.CreateTask? || op.UpdateTask? {
      GoodTaskOp(env, st, op);
    } else if op.CreateCheck? || op.UpdateCheck? {
      GoodCheckOp(env, st, op);
    } else if Respond(env, st, op).Done? {
      NamesDiffer(op.id, 0);
      if op.DeleteTask? {
        DeleteTaskGood(env, st, op.id);
      } else {
        DeleteCheckGood(env, st, op.id);
      }
    }
  }

  lemma GoodNext(env: Env, st: State, op: Op)
    requires Good(env, st)
    ensures Good(env, Apply(env, st, op))
    ensures Internal(Apply(env, st, op).table.jobs) == Internal(st.table.jobs)
  {
    if op.SetLeader? {
      SetLeaderGood(env, st, op.value, op.dbOk);
    } else {
      GoodWrite(env, st, op);
    }
  }

  lemma Counted(env: Env, st: State, rows: Rows)
    requires Good(env, st) && rows.tasks == st.rows.tasks && rows.checks == st.rows.checks
    requires rows.nextTask >= st.rows.nextTask && rows.nextCheck >= st.rows.nextCheck
    ensures Good(env, st.(rows := rows)) && forall x :: Wanted(env, rows, x) == Wanted(env, st.rows, x)
  {
    assert forall x :: Wanted(env, rows, x) == Wanted(env, st.rows, x);
  }

  // ----- whole histories -----

  function After(env: Env, st: State, ops: seq<Op>): State {
    if ops == [] then st else Apply(env, After(env, st, ops[..|ops| - 1]), ops[|ops| - 1])
  }

  /** Every history keeps the table good, and never removes or adds an internal job. */
  lemma {:induction false} HistoryIsGood(env: Env, st: State, ops: seq<Op>)
    requires Good(env, st)
    ensures Good(env, After(env, st, ops))
    ensures Internal(After(env, st, ops).table.jobs) == Internal(st.table.jobs)
  {
    if ops != [] {
      HistoryIsGood(env, st, ops[..|ops| - 1]);
      GoodNext(env, After(env, st, ops[..|ops| - 1]), ops[|ops| - 1]);
    }
  }

  /**
   After every history the leader's user jobs are those that a rebuild from the rows would make,
   out of any table whatever; on standby there are none.
   */
  lemma TableEqualsRebuild(env: Env, st: State, ops: seq<Op>, from: Table)
    requires Good(env, st) && WellFormed(from)
    ensures var end := After(env, st, ops);
            && (end.leader && end.synced ==>
                  UserEntries(end.table.jobs) == UserEntries(Synced(env, true, end.rows, from).jobs))
            && (!end.leader ==> NoUserJobs(end.table))
  {
    HistoryIsGood(env, st, ops);
    var end := After(env, st, ops);
    SyncedIndexes(env, end.rows, from);
    if end.leader && end.synced {
      IndexIsUnique(env, end.rows, end.table, Synced(env, true, end.rows, from));
    }
  }

  /** Row by row: one job, with the row's cron, for a row that is to run, and none for any other id. */
  lemma JobPerRow(env: Env, st: State, ops: seq<Op>, id: nat)
    requires Good(env, st)
    ensures var end := After(env, st, ops);
            end.leader && end.synced ==>
              && CronsOf(end.table.jobs, TaskName(id)) == TaskCrons(env, end.rows, id)
              && CronsOf(end.table.jobs, CheckName(id)) == CheckCrons(env, end.rows, id)
  {
    HistoryIsGood(env, st, ops);
    NamesRoundTrip(id);
    WantedByName(env, After(env, st, ops).rows, id);
  }

  /** When the rows cannot be read as leadership is gained, the leader starts with no user job at all. */
  lemma FailedGainHasNoJobs(env: Env, st: State)
    requires Good(env, st) && !st.leader
    ensures var end := Apply(env, st, SetLeader(true, false));
            end.leader && NoUserJobs(end.table)
            && (Indexed(env, end.rows, end.table) <==> forall x :: IsUserName(x) ==> Wanted(env, end.rows, x) == [])
  {
    forall x | IsUserName(x)
      ensures CronsOf(st.table.jobs, x) == []
    {
      CronsAreJobs(st.table.jobs, x);
    }
  }

  /** The row behind a job name has been written. */
  predicate Written(env: Env, st: State, ops: seq<Op>, name: string) {
    ops != []
    && (Written(env, st, ops[..|ops| - 1], name)
        || WrittenName(env, After(env, st, ops[..|ops| - 1]), ops[|ops| - 1]) == Some(name))
  }

  predicate Loses(op: Op) {
    op.SetLeader? && !op.value
  }

  /**
   As long as leadership lasts that was gained without reading the rows, a row has its job exactly if it has been
   written since.
   */
  lemma {:induction false} FailedGainHeals(env: Env, st: State, ops: seq<Op>, name: string)
    requires Good(env, st) && !st.leader && IsUserName(name)
    requires forall i :: 0 <= i < |ops| ==> !Loses(ops[i])
    ensures var start := Apply(env, st, SetLeader(true, false));
            var end := After(env, start, ops);
            && end.leader && Good(env, end)
            && CronsOf(end.table.jobs, name) == if Written(env, start, ops, name) then Wanted(env, end.rows, name) else []
  {
    var start := Apply(env, st, SetLeader(true, false));
    if ops == [] {
      FailedGainHasNoJobs(env, st);
      CronsAreJobs(start.table.jobs, name);
      SetLeaderGood(env, st, true, false);
    } else {
      var mid, op := After(env, start, ops[..|ops| - 1]), ops[|ops| - 1];
      FailedGainHeals(env, st, ops[..|ops| - 1], name);
      assert !Loses(op);
      if !op.SetLeader? {
        GoodWrite(env, mid, op);
      }
    }
  }

  // ----- the rows themselves -----

  /** Stored crons validate, and every pre-check that a task is bound to exists. */
  ghost predicate RowsFit(env: Env, rows: Rows) {
    && (forall id :: id in rows.tasks ==> env.validates(rows.tasks[id].cron) && KnownCheck(rows, rows.tasks[id].preCheck))
    && (forall id :: id in rows.checks ==> CronFits(env, rows.checks[id].cron))
  }

  lemma {:induction false} RowsStayFit(env: Env, st: State, ops: seq<Op>)
    requires RowsFit(env, st.rows)
    ensures RowsFit(env, After(env, st, ops).rows)
  {
    if ops != [] {
      RowsStayFit(env, st, ops[..|ops| - 1]);
      RowsFitNext(env, After(env, st, ops[..|ops| - 1]), ops[|ops| - 1]);
    }
  }

  lemma RowsFitNext(env: Env, st: State, op: Op)
    requires RowsFit(env, st.rows)
    ensures RowsFit(env, Apply(env, st, op).rows)
  {
    if op.DeleteCheck? && Respond(env, st, op).Done? {
      forall id | id in st.rows.tasks
        ensures KnownCheck(Apply(env, st, op).rows, st.rows.tasks[id].preCheck)
      {
        assert st.rows.tasks[id].preCheck != Some(op.id);
      }
    }
  }
}
