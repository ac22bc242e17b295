/**
 The scheduler's table of jobs as values: names and tags, registration and removal, and what the
 table has to be for given task rows.
 */
module JobTable {
  import opened Options
  import opened Text

  // `validates` is the project's own check of a cron expression, `accepts` the scheduler
  // library's; both see the same text but are written by different hands.
  datatype Env = Env(validates: string -> bool, accepts: string -> bool)

  datatype Job = Job(name: string, tags: set<string>, cron: string)
  datatype Table = Table(jobs: seq<Job>, schedules: map<string, string>)

  datatype SyncTask = SyncTask(cron: string, enabled: bool, preCheck: Option<nat>)
  datatype CheckTask = CheckTask(cron: Option<string>, enabled: bool)

  // `nextTask` and `nextCheck` are the ids the next insertions get.
  datatype Rows = Rows(tasks: map<nat, SyncTask>, checks: map<nat, CheckTask>, nextTask: nat, nextCheck: nat)

  // ----- names -----

  const TASK_PREFIX := "task-"
  const CHECK_PREFIX := "checktask-"

  function TaskName(id: nat): string {
    TASK_PREFIX + Decimal(id)
  }

  function CheckName(id: nat): string {
    CHECK_PREFIX + Decimal(id)
  }

  predicate IsUserName(name: string) {
    TASK_PREFIX <= name || CHECK_PREFIX <= name
  }

  // What a name says about its job.
  datatype JobKind = TaskJob(id: int) | CheckJob(id: int) | InternalJob

  const INT64_LIMIT: nat := 0x8000_0000_0000_0000

  /** A signed decimal number of 64 bits; a sign may precede the digits, and so may zeros. */
  function ParseInt64(s: string): Option<int> {
    var negative := s != "" && s[0] == '-';
    var digits := if s != "" && (s[0] == '+' || s[0] == '-') then s[1..] else s;
    if digits == "" || !AllDigits(digits) then None
    else
      var n: int := DecimalValue(digits);
      if negative then (if n <= INT64_LIMIT then Some(-n) else None)
      else if n < INT64_LIMIT then Some(n) else None
  }

  function TrimId(name: string, prefix: string): Option<int> {
    if prefix <= name then ParseInt64(name[|prefix|..]) else None
  }

  function KindFromName(name: string): JobKind {
    match TrimId(name, TASK_PREFIX)
    case Some(id) => TaskJob(id)
    case None =>
      match TrimId(name, CHECK_PREFIX)
      case Some(id) => CheckJob(id)
      case None => InternalJob
  }

  lemma NamesDiffer(a: nat, b: nat)
    ensures TaskName(a) == TaskName(b) || CheckName(a) == CheckName(b) ==> a == b
    ensures IsUserName(TaskName(a)) && IsUserName(CheckName(a))
    ensures TaskName(a)[0] == 't' && CheckName(a)[0] == 'c'
  {
    DecimalRoundTrip(a);
    DecimalRoundTrip(b);
    assert TaskName(a)[|TASK_PREFIX|..] == Decimal(a) && CheckName(a)[|CHECK_PREFIX|..] == Decimal(a);
    assert TaskName(b)[|TASK_PREFIX|..] == Decimal(b) && CheckName(b)[|CHECK_PREFIX|..] == Decimal(b);
  }

  /** A task's id is read back from its job's name, and no other row's job has that name. */
  lemma NamesRoundTrip(id: nat)
    ensures IsUserName(TaskName(id)) && IsUserName(CheckName(id))
    ensures id < INT64_LIMIT ==> KindFromName(TaskName(id)) == TaskJob(id) && KindFromName(CheckName(id)) == CheckJob(id)
    ensures forall other :: TaskName(id) == TaskName(other) || CheckName(id) == CheckName(other) ==> id == other
    ensures forall other :: TaskName(id) != CheckName(other)
  {
    var t, c := TaskName(id), CheckName(id);
    assert t[|TASK_PREFIX|..] == Decimal(id) && c[|CHECK_PREFIX|..] == Decimal(id);
    assert IsDigit(Decimal(id)[0]);
    DecimalRoundTrip(id);
    NamesDiffer(id, id);
    forall other: nat
      ensures t == TaskName(other) || c == CheckName(other) ==> id == other
      ensures t != CheckName(other)
    {
      NamesDiffer(id, other);
      NamesDiffer(other, id);
    }
  }

  // ----- removing jobs -----

  function DropTagged(jobs: seq<Job>, tag: string): seq<Job> {
    if jobs == [] then []
    else
      var last := jobs[|jobs| - 1];
      DropTagged(jobs[..|jobs| - 1], tag) + if tag in last.tags then [] else [last]
  }

  function DropNamed(jobs: seq<Job>, gone: set<string>): seq<Job> {
    if jobs == [] then []
    else
      var last := jobs[|jobs| - 1];
      DropNamed(jobs[..|jobs| - 1], gone) + if last.name in gone then [] else [last]
  }

  function UserNames(jobs: seq<Job>): set<string> {
    set j | j in jobs && IsUserName(j.name) :: j.name
  }

  // ----- what a table holds -----

  /** The crons of the jobs with a name, oldest first. */
  function CronsOf(jobs: seq<Job>, name: string): seq<string> {
    if jobs == [] then []
    else
      var last := jobs[|jobs| - 1];
      CronsOf(jobs[..|jobs| - 1], name) + if last.name == name then [last.cron] else []
  }

  function Internal(jobs: seq<Job>): seq<Job> {
    if jobs == [] then []
    else
      var last := jobs[|jobs| - 1];
      Internal(jobs[..|jobs| - 1]) + if IsUserName(last.name) then [] else [last]
  }

  /** A job carries its own name as a tag if it is a user job, and no other user job's name. */
  ghost predicate TagsFit(j: Job) {
    forall t :: IsUserName(t) ==> (t in j.tags <==> t == j.name)
  }

  /** Tags fit names, and the recorded schedule of a user job is its cron. */
  ghost predicate WellFormed(tb: Table) {
    forall j :: j in tb.jobs ==>
      TagsFit(j) && (IsUserName(j.name) ==> j.name in tb.schedules && tb.schedules[j.name] == j.cron)
  }

  lemma {:induction false} DropTaggedIsNamed(jobs: seq<Job>, tag: string)
    requires IsUserName(tag) && forall j :: j in jobs ==> TagsFit(j)
    ensures DropTagged(jobs, tag) == DropNamed(jobs, {tag})
  {
    if jobs != [] {
      DropTaggedIsNamed(jobs[..|jobs| - 1], tag);
      assert jobs[|jobs| - 1] in jobs;
    }
  }

  lemma {:induction false} DropNamedCrons(jobs: seq<Job>, gone: set<string>, name: string)
    ensures CronsOf(DropNamed(jobs, gone), name) == if name in gone then [] else CronsOf(jobs, name)
  {
    if jobs != [] {
      var front, last := jobs[..|jobs| - 1], jobs[|jobs| - 1];
      DropNamedCrons(front, gone, name);
      if last.name in gone {
        assert DropNamed(jobs, gone) == DropNamed(front, gone);
      } else {
        AppendHolds(DropNamed(front, gone), last, name);
      }
    }
  }

  lemma {:induction false} DropNamedMembers(jobs: seq<Job>, gone: set<string>)
    ensures forall j :: j in DropNamed(jobs, gone) <==> j in jobs && j.name !in gone
  {
    if jobs != [] {
      var front, last := jobs[..|jobs| - 1], jobs[|jobs| - 1];
      DropNamedMembers(front, gone);
      assert jobs == front + [last];
    }
  }

  lemma {:induction false} DropNamedInternal(jobs: seq<Job>, gone: set<string>)
    requires forall x :: x in gone ==> IsUserName(x)
    ensures Internal(DropNamed(jobs, gone)) == Internal(jobs)
  {
    if jobs != [] {
      var front, last := jobs[..|jobs| - 1], jobs[|jobs| - 1];
      DropNamedInternal(front, gone);
      if last.name in gone {
        assert DropNamed(jobs, gone) == DropNamed(front, gone);
      } else {
        AppendHolds(DropNamed(front, gone), last, "");
      }
    }
  }

  lemma AppendHolds(jobs: seq<Job>, j: Job, name: string)
    ensures CronsOf(jobs + [j], name) == CronsOf(jobs, name) + if j.name == name then [j.cron] else []
    ensures Internal(jobs + [j]) == Internal(jobs) + if IsUserName(j.name) then [] else [j]
  {
    assert (jobs + [j])[..|jobs|] == jobs;
  }

  // ----- registration -----

  predicate Runnable(env: Env, cron: string) {
    env.validates(cron) && env.accepts(cron)
  }

  /** The table after a registration: an expression that does not validate leaves the old job in place. */
  function Registered(env: Env, tb: Table, name: string, kind: string, cron: string): Table {
    if !env.validates(cron) then tb
    else
      var dropped := DropTagged(tb.jobs, name);
      if !env.accepts(cron) then tb.(jobs := dropped)
      else Table(dropped + [Job(name, {"user", kind, name}, cron)], tb.schedules[name := cron])
  }

  function RegisterTaskIn(env: Env, leader: bool, tb: Table, id: nat, cron: string): Table {
    if !leader then tb else Registered(env, tb, TaskName(id), "sync", cron)
  }

  predicate HasCron(c: CheckTask) {
    c.cron.Some? && c.cron.value != ""
  }

  function RegisterCheckIn(env: Env, leader: bool, tb: Table, id: nat, c: CheckTask): Table {
    if !leader then tb
    else if !HasCron(c) then tb.(jobs := DropTagged(tb.jobs, CheckName(id)))
    else Registered(env, tb, CheckName(id), "check", c.cron.value)
  }

  function RemoveIn(leader: bool, tb: Table, name: string): Table {
    if !leader then tb else tb.(jobs := DropTagged(tb.jobs, name))
  }

  // ----- what the rows ask for -----

  function TaskCrons(env: Env, rows: Rows, id: nat): seq<string> {
    if id in rows.tasks && rows.tasks[id].enabled && Runnable(env, rows.tasks[id].cron)
    then [rows.tasks[id].cron] else []
  }

  function CheckCrons(env: Env, rows: Rows, id: nat): seq<string> {
    if id in rows.checks && rows.checks[id].enabled && HasCron(rows.checks[id])
       && Runnable(env, rows.checks[id].cron.value)
    then [rows.checks[id].cron.value] else []
  }

  // The id in a name that is printed the way task ids are.
  function RowId(name: string, prefix: string): Option<nat> {
    if prefix <= name && AllDigits(name[|prefix|..]) then
      var id := DecimalValue(name[|prefix|..]);
      if name == prefix + Decimal(id) then Some(id) else None
    else None
  }

  /** The crons of the jobs with a name that the rows ask for: one for a row that is to run, else none. */
  function Wanted(env: Env, rows: Rows, name: string): seq<string> {
    match RowId(name, TASK_PREFIX)
    case Some(id) => TaskCrons(env, rows, id)
    case None =>
      match RowId(name, CHECK_PREFIX)
      case Some(id) => CheckCrons(env, rows, id)
      case None => []
  }

  lemma WantedByName(env: Env, rows: Rows, id: nat)
    ensures Wanted(env, rows, TaskName(id)) == TaskCrons(env, rows, id)
    ensures Wanted(env, rows, CheckName(id)) == CheckCrons(env, rows, id)
  {
    var t, c := TaskName(id), CheckName(id);
    assert t[|TASK_PREFIX|..] == Decimal(id) && c[|CHECK_PREFIX|..] == Decimal(id);
    DecimalRoundTrip(id);
    assert c[0] == 'c';
  }

  /** The user jobs are exactly the jobs the rows ask for. */
  ghost predicate Indexed(env: Env, rows: Rows, tb: Table) {
    forall name :: IsUserName(name) ==> CronsOf(tb.jobs, name) == Wanted(env, rows, name)
  }

  /** No user job is there that the rows do not ask for. */
  ghost predicate Sound(env: Env, rows: Rows, tb: Table) {
    forall name :: IsUserName(name) ==> CronsOf(tb.jobs, name) == [] || CronsOf(tb.jobs, name) == Wanted(env, rows, name)
  }

  ghost predicate NoUserJobs(tb: Table) {
    forall j :: j in tb.jobs ==> !IsUserName(j.name)
  }

  lemma {:induction false} CronsAreJobs(jobs: seq<Job>, name: string)
    ensures CronsOf(jobs, name) == [] <==> forall j :: j in jobs ==> j.name != name
    ensures forall c :: c in CronsOf(jobs, name) ==> exists j :: j in jobs && j.name == name && j.cron == c
  {
    if jobs != [] {
      var front, last := jobs[..|jobs| - 1], jobs[|jobs| - 1];
      CronsAreJobs(front, name);
      assert jobs == front + [last];
    }
  }

  // ----- registration and removal do what is asked, name by name -----

  lemma RegisteredHolds(env: Env, tb: Table, name: string, kind: string, cron: string, x: string)
    requires WellFormed(tb) && IsUserName(name) && !IsUserName(kind)
    ensures var tb' := Registered(env, tb, name, kind, cron);
            && WellFormed(tb') && Internal(tb'.jobs) == Internal(tb.jobs)
            && CronsOf(tb'.jobs, x) == if x != name || !env.validates(cron) then CronsOf(tb.jobs, x)
                                       else if env.accepts(cron) then [cron] else []
  {
    RemoveHolds(true, tb, name, x);
    RemoveHolds(true, tb, name, name);
    AddHolds(RemoveIn(true, tb, name), name, kind, cron, x);
  }

  lemma AddHolds(tb: Table, name: string, kind: string, cron: string, x: string)
    requires WellFormed(tb) && IsUserName(name) && !IsUserName(kind) && CronsOf(tb.jobs, name) == []
    ensures var tb' := Table(tb.jobs + [Job(name, {"user", kind, name}, cron)], tb.schedules[name := cron]);
            && WellFormed(tb') && Internal(tb'.jobs) == Internal(tb.jobs)
            && CronsOf(tb'.jobs, x) == if x == name then [cron] else CronsOf(tb.jobs, x)
  {
    var job := Job(name, {"user", kind, name}, cron);
    AppendHolds(tb.jobs, job, x);
    CronsAreJobs(tb.jobs, name);
    assert TagsFit(job);
  }

  lemma RemoveHolds(leader: bool, tb: Table, name: string, x: string)
    requires WellFormed(tb) && IsUserName(name)
    ensures var tb' := RemoveIn(leader, tb, name);
            && WellFormed(tb') && Internal(tb'.jobs) == Internal(tb.jobs)
            && CronsOf(tb'.jobs, x) == if leader && x == name then [] else CronsOf(tb.jobs, x)
  {
    DropTaggedIsNamed(tb.jobs, name);
    DropNamedCrons(tb.jobs, {name}, x);
    DropNamedMembers(tb.jobs, {name});
    DropNamedInternal(tb.jobs, {name});
  }

  // ----- the index is unique -----

  /** Name and cron of each user job, with repetitions. */
  function UserEntries(jobs: seq<Job>): multiset<(string, string)> {
    if jobs == [] then multiset{}
    else
      var last := jobs[|jobs| - 1];
      UserEntries(jobs[..|jobs| - 1]) + if IsUserName(last.name) then multiset{(last.name, last.cron)} else multiset{}
  }

  lemma {:induction false} EntriesAreCrons(jobs: seq<Job>, name: string, cron: string)
    requires IsUserName(name)
    ensures UserEntries(jobs)[(name, cron)] == multiset(CronsOf(jobs, name))[cron]
  {
    if jobs != [] {
      EntriesAreCrons(jobs[..|jobs| - 1], name, cron);
    }
  }

  lemma {:induction false} EntriesAreUsers(jobs: seq<Job>, name: string, cron: string)
    requires !IsUserName(name)
    ensures UserEntries(jobs)[(name, cron)] == 0
  {
    if jobs != [] {
      EntriesAreUsers(jobs[..|jobs| - 1], name, cron);
    }
  }

  /** Two tables that index the same rows hold the same user jobs, each as often. */
  lemma IndexIsUnique(env: Env, rows: Rows, a: Table, b: Table)
    requires Indexed(env, rows, a) && Indexed(env, rows, b)
    ensures UserEntries(a.jobs) == UserEntries(b.jobs)
  {
    forall e: (string, string)
      ensures UserEntries(a.jobs)[e] == UserEntries(b.jobs)[e]
    {
      if IsUserName(e.0) {
        EntriesAreCrons(a.jobs, e.0, e.1);
        EntriesAreCrons(b.jobs, e.0, e.1);
      } else {
        EntriesAreUsers(a.jobs, e.0, e.1);
        EntriesAreUsers(b.jobs, e.0, e.1);
      }
    }
  }
}
