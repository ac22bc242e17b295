/** The scheduler of one node and the handlers that write task rows, statement by statement. */
module SchedulerService {
  import opened Options
  import opened JobTable
  import opened TaskOps

  class Database {
    var rows: Rows

    constructor (rows: Rows)
      ensures this.rows == rows
    {
      this.rows := rows;
    }
  }

  lemma OneMoreTask(env: Env, leader: bool, rows: Rows, n: nat)
    ensures (set x: nat | x < n + 1 && TaskRegisters(env, leader, rows, x) :: TaskName(x))
            == (set x: nat | x < n && TaskRegisters(env, leader, rows, x) :: TaskName(x))
               + if TaskRegisters(env, leader, rows, n) then {TaskName(n)} else {}
  {
  }

  class Service {
    const env: Env
    const db: Database
    var leader: bool
    var jobs: seq<Job>
    var schedules: map<string, string>
    ghost var synced: bool

    constructor (env: Env, db: Database, internalJobs: seq<Job>)
      ensures this.env == env && this.db == db && !leader && jobs == internalJobs && schedules == map[]
    {
      this.env, this.db, leader, jobs, schedules := env, db, false, internalJobs, map[];
      synced := false;
    }

    ghost function Contents(): Table
      reads this
    {
      Table(jobs, schedules)
    }

    method RemoveByTags(tag: string)
      modifies this`jobs
      ensures jobs == DropTagged(old(jobs), tag)
    {
      var kept := [];
      for i := 0 to |jobs|
        invariant kept == DropTagged(jobs[..i], tag)
      {
        assert jobs[..i + 1][..i] == jobs[..i];
        if tag !in jobs[i].tags {
          kept := kept + [jobs[i]];
        }
      }
      assert jobs[..|jobs|] == jobs;
      jobs := kept;
    }

    /** Removes the user jobs whose names are not among the given ones. */
    method RemoveUserJobsExcept(names: set<string>)
      modifies this`jobs
      ensures jobs == DropNamed(old(jobs), UserNames(old(jobs)) - names)
    {
      var kept := [];
      for i := 0 to |jobs|
        invariant kept == DropNamed(jobs[..i], UserNames(jobs) - names)
      {
        assert jobs[..i + 1][..i] == jobs[..i];
        assert jobs[i] in jobs;
        if !(IsUserName(jobs[i].name) && jobs[i].name !in names) {
          kept := kept + [jobs[i]];
        }
      }
      assert jobs[..|jobs|] == jobs;
      jobs := kept;
    }

    method NewJob(name: string, tags: set<string>, cron: string) returns (ok: bool)
      modifies this`jobs
      ensures ok == env.accepts(cron)
      ensures jobs == if ok then old(jobs) + [Job(name, tags, cron)] else old(jobs)
    {
      ok := env.accepts(cron);
      if ok {
        jobs := jobs + [Job(name, tags, cron)];
      }
    }

    /** Nothing happens on standby, and nothing is removed before the expression validates. */
    method RegisterTask(id: nat, task: SyncTask) returns (ok: bool)
      modifies this`jobs, this`schedules
      ensures ok <==> (leader ==> Runnable(env, task.cron))
      ensures Contents() == RegisterTaskIn(env, leader, old(Contents()), id, task.cron)
    {
      if !leader {
        return true;
      }
      if !env.validates(task.cron) {
        return false;
      }
      var name := TaskName(id);
      RemoveByTags(name);
      ok := NewJob(name, {"user", "sync", name}, task.cron);
      if ok {
        schedules := schedules[name := task.cron];
      }
    }

    method RegisterCheckTask(id: nat, check: CheckTask) returns (ok: bool)
      modifies this`jobs, this`schedules
      ensures ok <==> (leader && HasCron(check) ==> Runnable(env, check.cron.value))
      ensures Contents() == RegisterCheckIn(env, leader, old(Contents()), id, check)
    {
      if !leader {
        return true;
      }
      if check.cron.None? || check.cron.value == "" {
        RemoveCheckTask(id);
        return true;
      }
      if !env.validates(check.cron.value) {
        return false;
      }
      var name := CheckName(id);
      RemoveByTags(name);
      ok := NewJob(name, {"user", "check", name}, check.cron.value);
      if ok {
        schedules := schedules[name := check.cron.value];
      }
    }

    method RemoveTask(id: nat)
      modifies this`jobs
      ensures Contents() == RemoveIn(leader, old(Contents()), TaskName(id))
    {
      if !leader {
        return;
      }
      RemoveByTags(TaskName(id));
    }

    method RemoveCheckTask(id: nat)
      modifies this`jobs
      ensures Contents() == RemoveIn(leader, old(Contents()), CheckName(id))
    {
      if !leader {
        return;
      }
      RemoveByTags(CheckName(id));
    }

    method RegisterEnabledTasks() returns (enabled: set<string>)
      modifies this`jobs, this`schedules
      ensures Contents() == RegisterTasks(env, leader, db.rows, old(Contents()), db.rows.nextTask)
      ensures enabled == set id: nat | id < db.rows.nextTask && TaskRegisters(env, leader, db.rows, id) :: TaskName(id)
    {
      enabled := {};
      ghost var rows := db.rows;
      for id := 0 to db.rows.nextTask
        invariant Contents() == RegisterTasks(env, leader, rows, old(Contents()), id)
        invariant enabled == set x: nat | x < id && TaskRegisters(env, leader, rows, x) :: TaskName(x)
      {
        if id in db.rows.tasks && db.rows.tasks[id].enabled {
          var ok := RegisterTask(id, db.rows.tasks[id]);
          assert ok <==> TaskRegisters(env, leader, rows, id);
          if ok {
            enabled := enabled + {TaskName(id)};
          }
        }
        OneMoreTask(env, leader, rows, id);
      }
    }

    method RegisterEnabledChecks() returns (enabled: set<string>)
      modifies this`jobs, this`schedules
      ensures Contents() == RegisterChecks(env, leader, db.rows, old(Contents()), db.rows.nextCheck)
      ensures enabled == set id: nat | id < db.rows.nextCheck && CheckRegisters(env, leader, db.rows, id) :: CheckName(id)
    {
      enabled := {};
      ghost var rows := db.rows;
      for id := 0 to db.rows.nextCheck
        invariant Contents() == RegisterChecks(env, leader, rows, old(Contents()), id)
        invariant enabled == set x: nat | x < id && CheckRegisters(env, leader, rows, x) :: CheckName(x)
      {
        if id in db.rows.checks && db.rows.checks[id].enabled && HasCron(db.rows.checks[id]) {
          var ok := RegisterCheckTask(id, db.rows.checks[id]);
          assert ok <==> CheckRegisters(env, leader, rows, id);
          if ok {
            enabled := enabled + {CheckName(id)};
          }
        }
      }
    }

    /** `dbOk`: the rows can be read; otherwise nothing changes. */
    method SyncFromDB(dbOk: bool)
      requires IdsOk(db.rows)
      modifies this`jobs, this`schedules
      ensures Contents() == if dbOk then Synced(env, leader, db.rows, old(Contents())) else old(Contents())
    {
      if !dbOk {
        return;
      }
      var tasks := RegisterEnabledTasks();
      var checks := RegisterEnabledChecks();
      assert tasks + checks == EnabledNames(env, leader, db.rows);
      RemoveUserJobsExcept(tasks + checks);
    }

    ghost function St(): State
      reads this, db
    {
      State(db.rows, leader, synced, Contents())
    }

    method SetLeader(value: bool, dbOk: bool)
      requires IdsOk(db.rows)
      modifies this
      ensures St() == Apply(env, old(St()), Op.SetLeader(value, dbOk)) && db.rows == old(db.rows)
    {
      if value == leader {
        return;
      }
      leader := value;
      if value {
        SyncFromDB(dbOk);
        synced := dbOk;
        return;
      }
      assert UserNames(jobs) - {} == UserNames(jobs);
      RemoveUserJobsExcept({});
    }
  }

  // ----- the handlers -----

  class Api {
    const env: Env
    const db: Database
    const sched: Service?

    constructor (env: Env, db: Database, sched: Service?)
      requires sched != null ==> sched.env == env && sched.db == db
      ensures this.env == env && this.db == db && this.sched == sched && Valid()
    {
      this.env, this.db, this.sched := env, db, sched;
    }

    ghost predicate Valid() {
      sched != null ==> sched.env == env && sched.db == db
    }

    /** Without a scheduler a write is what it would be on standby. */
    ghost function St(): State
      reads this, db, sched
    {
      if sched == null then State(db.rows, false, false, Table([], map[]))
      else State(db.rows, sched.leader, sched.synced, sched.Contents())
    }

    method ApplyTaskSchedule(id: nat, task: SyncTask)
      requires Valid()
      modifies if sched == null then {} else {sched}
      ensures St() == old(St()).(table := if task.enabled then RegisterTaskIn(env, old(St()).leader, old(St()).table, id, task.cron)
                                          else RemoveIn(old(St()).leader, old(St()).table, TaskName(id)))
    {
      if sched == null {
        return;
      }
      if task.enabled {
        var _ := sched.RegisterTask(id, task);
      } else {
        sched.RemoveTask(id);
      }
    }

    method ApplyCheckSchedule(id: nat, check: CheckTask)
      requires Valid()
      modifies if sched == null then {} else {sched}
      ensures St() == old(St()).(table := if check.enabled then RegisterCheckIn(env, old(St()).leader, old(St()).table, id, check)
                                          else RemoveIn(old(St()).leader, old(St()).table, CheckName(id)))
    {
      if sched == null {
        return;
      }
      if check.enabled {
        var _ := sched.RegisterCheckTask(id, check);
      } else {
        sched.RemoveCheckTask(id);
      }
    }

    method CreateTask(task: SyncTask, fieldsOk: bool, refsOk: bool) returns (r: Response)
      requires Valid()
      modifies db, if sched == null then {} else {sched}
      ensures r == Respond(env, old(St()), Op.CreateTask(task, fieldsOk, refsOk))
      ensures St() == Apply(env, old(St()), Op.CreateTask(task, fieldsOk, refsOk))
    {
      if !fieldsOk {
        return BadFields;
      }
      if !env.validates(task.cron) {
        return BadCron;
      }
      if !refsOk {
        return BadRefs;
      }
      if task.preCheck.Some? && task.preCheck.value !in db.rows.checks {
        return NoSuchCheck;
      }
      var id := db.rows.nextTask;
      db.rows := db.rows.(tasks := db.rows.tasks[id := task], nextTask := id + 1);
      ApplyTaskSchedule(id, task);
      return Created(id);
    }

    /** The fields of a request, checked and put one by one into the row that was read. */
    method PatchTask(id: nat, before: SyncTask, p: TaskPatch, fieldsOk: bool, refsOk: bool)
      returns (r: Response, task: SyncTask)
      requires id in db.rows.tasks && db.rows.tasks[id] == before
      ensures r == Respond(env, St(), Op.UpdateTask(id, p, fieldsOk, refsOk))
      ensures r.Done? ==> task == PatchedTask(before, p)
    {
      task := before;
      if p.cron.Some? {
        if !env.validates(p.cron.value) {
          return BadCron, task;
        }
        task := task.(cron := p.cron.value);
      }
      if p.enabled.Some? {
        task := task.(enabled := p.enabled.value);
      }
      if !refsOk {
        return BadRefs, task;
      }
      if p.preCheck.Some? {
        if p.preCheck.value.Some? && p.preCheck.value.value !in db.rows.checks {
          return NoSuchCheck, task;
        }
        task := task.(preCheck := p.preCheck.value);
      }
      if !fieldsOk {
        return BadFields, task;
      }
      r := Done;
    }

    method UpdateTask(id: nat, p: TaskPatch, fieldsOk: bool, refsOk: bool) returns (r: Response)
      requires Valid()
      modifies db, if sched == null then {} else {sched}
      ensures r == Respond(env, old(St()), Op.UpdateTask(id, p, fieldsOk, refsOk))
      ensures St() == Apply(env, old(St()), Op.UpdateTask(id, p, fieldsOk, refsOk))
    {
      if id !in db.rows.tasks {
        return NotFound;
      }
      var task;
      r, task := PatchTask(id, db.rows.tasks[id], p, fieldsOk, refsOk);
      if r != Done {
        return;
      }
      db.rows := db.rows.(tasks := db.rows.tasks[id := task]);
      ApplyTaskSchedule(id, task);
    }

    method DeleteTask(id: nat) returns (r: Response)
      requires Valid()
      modifies db, if sched == null then {} else {sched}
      ensures r == Respond(env, old(St()), Op.DeleteTask(id)) && St() == Apply(env, old(St()), Op.DeleteTask(id))
    {
      if id !in db.rows.tasks {
        return NotFound;
      }
      if sched != null {
        sched.RemoveTask(id);
      }
      db.rows := db.rows.(tasks := db.rows.tasks - {id});
      return Done;
    }

    method CreateCheckTask(check: CheckTask, fieldsOk: bool, refsOk: bool) returns (r: Response)
      requires Valid()
      modifies db, if sched == null then {} else {sched}
      ensures r == Respond(env, old(St()), Op.CreateCheck(check, fieldsOk, refsOk))
      ensures St() == Apply(env, old(St()), Op.CreateCheck(check, fieldsOk, refsOk))
    {
      if check.cron.Some? && check.cron.value != "" && !env.validates(check.cron.value) {
        return BadCron;
      }
      if !fieldsOk {
        return BadFields;
      }
      if !refsOk {
        return BadRefs;
      }
      var id := db.rows.nextCheck;
      db.rows := db.rows.(checks := db.rows.checks[id := check], nextCheck := id + 1);
      ApplyCheckSchedule(id, check);
      return Created(id);
    }

    method UpdateCheckTask(id: nat, p: CheckPatch, fieldsOk: bool, refsOk: bool) returns (r: Response)
      requires Valid()
      modifies db, if sched == null then {} else {sched}
      ensures r == Respond(env, old(St()), Op.UpdateCheck(id, p, fieldsOk, refsOk))
      ensures St() == Apply(env, old(St()), Op.UpdateCheck(id, p, fieldsOk, refsOk))
    {
      if id !in db.rows.checks {
        return NotFound;
      }
      var check := db.rows.checks[id];
      if p.cron.Some? {
        var cron := p.cron.value;
        if cron.Some? && cron.value != "" && !env.validates(cron.value) {
          return BadCron;
        }
        check := check.(cron := cron);
      }
      if p.enabled.Some? {
        check := check.(enabled := p.enabled.value);
      }
      if !refsOk {
        return BadRefs;
      }
      if !fieldsOk {
        return BadFields;
      }
      db.rows := db.rows.(checks := db.rows.checks[id := check]);
      ApplyCheckSchedule(id, check);
      return Done;
    }

    method DeleteCheckTask(id: nat) returns (r: Response)
      requires Valid()
      modifies db, if sched == null then {} else {sched}
      ensures r == Respond(env, old(St()), Op.DeleteCheck(id)) && St() == Apply(env, old(St()), Op.DeleteCheck(id))
    {
      if id !in db.rows.checks {
        return NotFound;
      }
      if exists t | t in db.rows.tasks :: db.rows.tasks[t].preCheck == Some(id) {
        return InUse;
      }
      if sched != null {
        sched.RemoveCheckTask(id);
      }
      db.rows := db.rows.(checks := db.rows.checks - {id});
      return Done;
    }
  }
}
