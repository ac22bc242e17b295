/**
 What the handlers make of a request: the answer, the rows as the request wants them, and the job of the row,
 told field by field.
 */
module TaskRequests {
  import opened Options
  import opened Text
  import opened JobTable
  import opened TaskOps

  /** Whether a cron that a check may leave out, or leave empty, is acceptable. */
  predicate Acceptable(env: Env, cron: Option<string>) {
    cron == None || cron.value == "" || env.validates(cron.value)
  }

  /** The job of a sync task: one with the row's cron if there is a row, enabled and with a good cron, else none. */
  ghost predicate TaskHasItsJob(env: Env, st: State, id: nat) {
    CronsOf(st.table.jobs, "task-" + Decimal(id))
    == if id in st.rows.tasks && st.rows.tasks[id].enabled && env.validates(st.rows.tasks[id].cron)
          && env.accepts(st.rows.tasks[id].cron)
       then [st.rows.tasks[id].cron] else []
  }

  /** The same for a check task, which may have no cron at all. */
  ghost predicate CheckHasItsJob(env: Env, st: State, id: nat) {
    CronsOf(st.table.jobs, "checktask-" + Decimal(id))
    == if id in st.rows.checks && st.rows.checks[id].enabled && st.rows.checks[id].cron != None
          && st.rows.checks[id].cron.value != "" && env.validates(st.rows.checks[id].cron.value)
          && env.accepts(st.rows.checks[id].cron.value)
       then [st.rows.checks[id].cron.value] else []
  }

  /** On the leader the row that was written has its job, on standby there is none. */
  lemma WrittenRowHasItsJob(env: Env, st: State, op: Op, id: nat)
    requires Good(env, st) && st.leader && !op.SetLeader?
    ensures WrittenName(env, st, op) == Some(TaskName(id)) ==> TaskHasItsJob(env, Apply(env, st, op), id)
    ensures WrittenName(env, st, op) == Some(CheckName(id)) ==> CheckHasItsJob(env, Apply(env, st, op), id)
  {
    GoodWrite(env, st, op);
    NamesRoundTrip(id);
    WantedByName(env, Apply(env, st, op).rows, id);
  }

  // ----- sync tasks -----

  lemma TaskIsCreated(env: Env, st: State, task: SyncTask, fieldsOk: bool, refsOk: bool)
    ensures var op, rows := CreateTask(task, fieldsOk, refsOk), st.rows;
            var r, st' := Respond(env, st, op), Apply(env, st, op);
            var noCheck := task.preCheck != None && task.preCheck.value !in rows.checks;
            && (r == BadFields <==> !fieldsOk)
            && (r == BadCron <==> fieldsOk && !env.validates(task.cron))
            && (r == BadRefs <==> fieldsOk && env.validates(task.cron) && !refsOk)
            && (r == NoSuchCheck <==> fieldsOk && env.validates(task.cron) && refsOk && noCheck)
            && (r == Created(rows.nextTask) <==> fieldsOk && env.validates(task.cron) && refsOk && !noCheck)
            && if r == Created(rows.nextTask)
               then st'.rows == Rows(rows.tasks[rows.nextTask := task], rows.checks, rows.nextTask + 1, rows.nextCheck)
               else st' == st
    ensures Good(env, st) && st.leader && Respond(env, st, CreateTask(task, fieldsOk, refsOk)).Created? ==>
              TaskHasItsJob(env, Apply(env, st, CreateTask(task, fieldsOk, refsOk)), st.rows.nextTask)
  {
    if Good(env, st) && st.leader {
      WrittenRowHasItsJob(env, st, CreateTask(task, fieldsOk, refsOk), st.rows.nextTask);
    }
  }

  /** A field of the row is what the patch says, or what it was if the patch does not say anything about it. */
  predicate Patched<T(==)>(after: T, patch: Option<T>, before: T) {
    if patch == None then after == before else after == patch.value
  }

  lemma TaskIsUpdated(env: Env, st: State, id: nat, p: TaskPatch, fieldsOk: bool, refsOk: bool)
    ensures var op, rows := UpdateTask(id, p, fieldsOk, refsOk), st.rows;
            var r, st' := Respond(env, st, op), Apply(env, st, op);
            var badCron := p.cron != None && !env.validates(p.cron.value);
            var noCheck := p.preCheck != None && p.preCheck.value != None && p.preCheck.value.value !in rows.checks;
            && (r == NotFound <==> id !in rows.tasks)
            && (r == BadCron <==> id in rows.tasks && badCron)
            && (r == BadRefs <==> id in rows.tasks && !badCron && !refsOk)
            && (r == NoSuchCheck <==> id in rows.tasks && !badCron && refsOk && noCheck)
            && (r == BadFields <==> id in rows.tasks && !badCron && refsOk && !noCheck && !fieldsOk)
            && (r == Done <==> id in rows.tasks && !badCron && refsOk && !noCheck && fieldsOk)
            && if r != Done then st' == st
               else
                 && id in st'.rows.tasks
                 && var before, after := rows.tasks[id], st'.rows.tasks[id];
                    && Patched(after.cron, p.cron, before.cron) && Patched(after.enabled, p.enabled, before.enabled)
                    && Patched(after.preCheck, p.preCheck, before.preCheck)
                    && st'.rows == rows.(tasks := rows.tasks[id := after])
    ensures Good(env, st) && st.leader && Respond(env, st, UpdateTask(id, p, fieldsOk, refsOk)) == Done ==>
              TaskHasItsJob(env, Apply(env, st, UpdateTask(id, p, fieldsOk, refsOk)), id)
  {
    if Good(env, st) && st.leader {
      WrittenRowHasItsJob(env, st, UpdateTask(id, p, fieldsOk, refsOk), id);
    }
  }

  lemma TaskIsDeleted(env: Env, st: State, id: nat)
    ensures var r, st' := Respond(env, st, DeleteTask(id)), Apply(env, st, DeleteTask(id));
            && (r == Done <==> id in st.rows.tasks) && (r == NotFound <==> id !in st.rows.tasks)
            && (if r == Done then st'.rows == st.rows.(tasks := st.rows.tasks - {id}) else st' == st)
    ensures Good(env, st) && st.leader && id in st.rows.tasks ==> TaskHasItsJob(env, Apply(env, st, DeleteTask(id)), id)
  {
    if Good(env, st) && st.leader {
      WrittenRowHasItsJob(env, st, DeleteTask(id), id);
    }
  }

  // ----- check tasks -----

  lemma CheckIsCreated(env: Env, st: State, check: CheckTask, fieldsOk: bool, refsOk: bool)
    ensures var op, rows := CreateCheck(check, fieldsOk, refsOk), st.rows;
            var r, st' := Respond(env, st, op), Apply(env, st, op);
            && (r == BadCron <==> !Acceptable(env, check.cron))
            && (r == BadFields <==> Acceptable(env, check.cron) && !fieldsOk)
            && (r == BadRefs <==> Acceptable(env, check.cron) && fieldsOk && !refsOk)
            && (r == Created(rows.nextCheck) <==> Acceptable(env, check.cron) && fieldsOk && refsOk)
            && if r == Created(rows.nextCheck)
               then st'.rows == Rows(rows.tasks, rows.checks[rows.nextCheck := check], rows.nextTask, rows.nextCheck + 1)
               else st' == st
    ensures Good(env, st) && st.leader && Respond(env, st, CreateCheck(check, fieldsOk, refsOk)).Created? ==>
              CheckHasItsJob(env, Apply(env, st, CreateCheck(check, fieldsOk, refsOk)), st.rows.nextCheck)
  {
    if Good(env, st) && st.leader {
      WrittenRowHasItsJob(env, st, CreateCheck(check, fieldsOk, refsOk), st.rows.nextCheck);
    }
  }

  /** A null in place of the cron clears it; a missing one leaves it. */
  lemma CheckIsUpdated(env: Env, st: State, id: nat, p: CheckPatch, fieldsOk: bool, refsOk: bool)
    ensures var op, rows := UpdateCheck(id, p, fieldsOk, refsOk), st.rows;
            var r, st' := Respond(env, st, op), Apply(env, st, op);
            var badCron := p.cron != None && !Acceptable(env, p.cron.value);
            && (r == NotFound <==> id !in rows.checks)
            && (r == BadCron <==> id in rows.checks && badCron)
            && (r == BadRefs <==> id in rows.checks && !badCron && !refsOk)
            && (r == BadFields <==> id in rows.checks && !badCron && refsOk && !fieldsOk)
            && (r == Done <==> id in rows.checks && !badCron && refsOk && fieldsOk)
            && if r != Done then st' == st
               else
                 && id in st'.rows.checks
                 && var before, after := rows.checks[id], st'.rows.checks[id];
                    && Patched(after.cron, p.cron, before.cron) && Patched(after.enabled, p.enabled, before.enabled)
                    && st'.rows == rows.(checks := rows.checks[id := after])
    ensures Good(env, st) && st.leader && Respond(env, st, UpdateCheck(id, p, fieldsOk, refsOk)) == Done ==>
              CheckHasItsJob(env, Apply(env, st, UpdateCheck(id, p, fieldsOk, refsOk)), id)
  {
    if Good(env, st) && st.leader {
      WrittenRowHasItsJob(env, st, UpdateCheck(id, p, fieldsOk, refsOk), id);
    }
  }

  /** A check that a task is bound to stays. */
  lemma CheckIsDeleted(env: Env, st: State, id: nat)
    ensures var r, st' := Respond(env, st, DeleteCheck(id)), Apply(env, st, DeleteCheck(id));
            var inUse := exists t :: t in st.rows.tasks && st.rows.tasks[t].preCheck == Some(id);
            && (r == NotFound <==> id !in st.rows.checks) && (r == InUse <==> id in st.rows.checks && inUse)
            && (r == Done <==> id in st.rows.checks && !inUse)
            && (if r == Done then st'.rows == st.rows.(checks := st.rows.checks - {id}) else st' == st)
    ensures Good(env, st) && st.leader && Respond(env, st, DeleteCheck(id)) == Done ==>
              CheckHasItsJob(env, Apply(env, st, DeleteCheck(id)), id)
  {
    if Good(env, st) && st.leader {
      WrittenRowHasItsJob(env, st, DeleteCheck(id), id);
    }
  }

  // ----- leadership -----

  /** Gaining leadership reads the rows and rebuilds the table, if they can be read; losing it drops every user job. */
  lemma LeadershipChanges(env: Env, st: State, value: bool, dbOk: bool)
    requires Good(env, st)
    ensures var st' := Apply(env, st, SetLeader(value, dbOk));
            && st'.rows == st.rows && st'.leader == value && (value == st.leader ==> st' == st)
            && (value && !st.leader ==> st'.synced == dbOk)
            && (value && !st.leader && dbOk ==> forall id: nat :: TaskHasItsJob(env, st', id) && CheckHasItsJob(env, st', id))
            && (!value ==> forall j :: j in st'.table.jobs ==> !("task-" <= j.name) && !("checktask-" <= j.name))
  {
    SetLeaderGood(env, st, value, dbOk);
    var st' := Apply(env, st, SetLeader(value, dbOk));
    forall id: nat | value && !st.leader && dbOk
      ensures TaskHasItsJob(env, st', id) && CheckHasItsJob(env, st', id)
    {
      NamesRoundTrip(id);
      WantedByName(env, st'.rows, id);
    }
  }

  /** After any history that the leader has begun by reading the rows, every id has the job that its row asks for. */
  lemma EveryIdHasItsJob(env: Env, st: State, ops: seq<Op>, id: nat)
    requires Good(env, st) && After(env, st, ops).leader && After(env, st, ops).synced
    ensures TaskHasItsJob(env, After(env, st, ops), id) && CheckHasItsJob(env, After(env, st, ops), id)
  {
    JobPerRow(env, st, ops, id);
  }

  // ----- jobs -----

  /** The jobs without the tag, in the order in which they were. */
  lemma {:induction false} TaggedAreDropped(jobs: seq<Job>, j: Job, more: seq<Job>, tag: string)
    ensures DropTagged(jobs + more, tag) == DropTagged(jobs, tag) + DropTagged(more, tag)
    ensures DropTagged([j], tag) == if tag in j.tags then [] else [j]
  {
    assert [j][..0] == [] && DropTagged([], tag) == [];
    if more == [] {
      assert jobs + more == jobs;
    } else {
      TaggedAreDropped(jobs, j, more[..|more| - 1], tag);
      assert (jobs + more)[..|jobs + more| - 1] == jobs + more[..|more| - 1];
    }
  }

  /** The job of a registration: its name, its three tags, its cron, at the end of the table; and its recorded schedule. */
  lemma JobIsAdded(env: Env, tb: Table, id: nat, task: SyncTask, check: CheckTask)
    ensures env.validates(task.cron) && env.accepts(task.cron) ==>
              var tb', name := RegisterTaskIn(env, true, tb, id, task.cron), "task-" + Decimal(id);
              && tb'.jobs != [] && tb'.jobs[|tb'.jobs| - 1] == Job(name, {"user", "sync", name}, task.cron)
              && tb'.schedules == tb.schedules[name := task.cron]
    ensures check.cron != None && check.cron.value != "" && env.validates(check.cron.value) && env.accepts(check.cron.value) ==>
              var tb', name := RegisterCheckIn(env, true, tb, id, check), "checktask-" + Decimal(id);
              && tb'.jobs != [] && tb'.jobs[|tb'.jobs| - 1] == Job(name, {"user", "check", name}, check.cron.value)
              && tb'.schedules == tb.schedules[name := check.cron.value]
    ensures RegisterTaskIn(env, false, tb, id, task.cron) == tb == RegisterCheckIn(env, false, tb, id, check)
  {
  }

  /** A name that is no user name is that of an internal job; so is one whose number does not fit 64 bits. */
  lemma OtherNamesAreInternal(name: string, id: nat)
    ensures !("task-" <= name) && !("checktask-" <= name) ==> KindFromName(name) == InternalJob
    ensures id > 9223372036854775807 ==> KindFromName("task-" + Decimal(id)) == InternalJob
    ensures id <= 9223372036854775807 ==>
              KindFromName("task-" + Decimal(id)) == TaskJob(id) && KindFromName("checktask-" + Decimal(id)) == CheckJob(id)
  {
    NamesRoundTrip(id);
    DecimalRoundTrip(id);
    var t := "task-" + Decimal(id);
    assert t[5..] == Decimal(id) && IsDigit(Decimal(id)[0]);
    assert t[0] == 't';
  }
}
