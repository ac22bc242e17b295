# Verification of rclone-sync

rclone-sync runs scheduled and manual `rclone` transfers and consistency checks on several nodes that
share one database. This project models the parts of it that are state machines, loops or arithmetic,
and proves what they promise.

- **Leader election** (`Lease`, `LeaseTheorems`, `LeaseRaces`, `LeaseSkew`, `Elector`). The nodes share one lease row.
  A heartbeat tick extends the lease, an elect tick takes an expired one by compare-and-set, and the local
  leader flag and the scheduler's switch change only after the commit. `Lease` is a transition system whose
  steps are the moments at which another node may act: reading the clock, reading the row, each commit, the
  flag change, the callback, a crash, a shutdown. Clocks may be off by a given skew, a commit may succeed
  without the client learning of it. "The leader flag implies ownership of the row" is not an invariant;
  the invariant is about the last lease that a node has written. `LeaseSkew` says how long two nodes can lead at
  once, and from which lease on that is bounded. `Elector` is the class with its ticks, and each tick is proved to be
  a continuation of a run of the transition system.
- **Run engine** (`Runs`, `TaskStart`, `RunEngine`, `RunProtocol`, `RunTheorems`, `EngineRuns`). Run rows go from
  pending over running to success or failed, or to skipped. `RunEngine` is the engine of one node, statement by
  statement: the concurrency guard, the blocking pre-check, polling, alerting. The check that a start waits for is
  polled by the waiting thread and by the node's poll job, and either may learn how it ended. `RunProtocol` interleaves any number of nodes,
  each with an rcd of its own whose job ids are a local counter and so collide with those of other nodes. `EngineRuns`
  shows that what the engine does, whoever learns the check's end, is an execution of that protocol, so that the
  theorems hold of it.
- **Log tail** (`ByteLines`, `LogTail`). The tail of a log is read backwards in chunks that may begin in the
  middle of a line; the result is the last bytes of the last lines of the file.
- **Cron preview** (`Calendar`, `CronParser`, `CronForms`, `CronNext`, `CronHorizon`). The five-field parser, what each
  form of a field's text means, the day-by-day
  search for the next runs over the proleptic Gregorian calendar (section 21.4.1 of ECMA-262), and how far
  that search reaches.
- **Scheduler** (`JobTable`, `TaskOps`, `TaskRequests`, `SchedulerService`). The scheduler's jobs are an index of the task and
  check-task rows that every write maintains; it equals the full rebuild made when leadership is gained.
- **Options and paths** (`RcloneWire`, `RcloneOptions`, `FsSpec`, `Paths`). Task options are distributed over the
  request and over the path of one side, whose text is read back unambiguously; paths are joined from three parts.

`Text`, `Arithmetic`, `Sequences` and `Options` hold what several modules need. `dafny verify dfyconfig.toml` checks everything.

## Results that differ from the documentation

- A shutdown that commits between an elect tick's commit and its flag change leaves two leaders with unexpired
  leases, even with perfect clocks (`StopRaceBreaksSafety`). It is the only step that can do so: from a world that
  meets the invariant a step keeps safety exactly if it is not such a shutdown of the row's owner, committed while
  the lease still has longer to run than the skew (`SafetyKeptExactly`). Runs exclude that one step.
- The scheduler's switch does not always follow the leader flag. Exactly two kinds of steps part them
  (`GateSlipsExactly`): a shutdown of a leader that has no loss under way to its callback, which clears the flag and
  calls nobody, and the first of two outstanding callbacks of one node if the other one, which then has the last word, disagrees with the flag. So a
  node can end as leader and owner with its scheduler switched off (`CallbackRaceClosesGate`).
- Two nodes can lead together, each by its own clock. Take the runs in which each
  UPDATE is executed at most `delay` after its clock reading, and in them the stretches without a shutdown inside an
  elect tick: the two lead for less than twice the skew without a break exactly if the lease is at least `delay` plus
  three times the skew (`OverlapBoundIsExact`). A stalled heartbeat that cuts a renewed lease
  short breaks the bound for every shorter lease (`OutlastsSkew`), and so, without a bound on the delay, for all.
- The comment that twelve years cover three 29 Februaries (frontend/src/lib/cron.ts:321) holds exactly if the third
  29 February to come lies less than 4392 days after the day of the start (`ThreeRunsExactly`). It fails in three
  stretches around each common century C: from the run of C - 12, of C - 8 and of C - 4 on, until 19 February four
  years later (`FallsShortExactly`); around 2100 these begin on 29 February of 2088, of 2092 and of 2096.
- The preview of the next runs is right except near the years 0 to 99, which Date.UTC moves by nineteen centuries:
  there the scan begins, and its moments are shown, in the twentieth century (`Listed`, `PlainListed`).
- The log tail is flagged as truncated also when the lines fill the limit exactly and the scan came to rest
  there; `Flagged` is the exact condition. With a limit of zero lines an unterminated tail is not dropped: the last
  chunk of the file is given.
- A poll leaves the rows of other nodes alone except for one thing: a success takes the alert mark off the
  newest notified failure of the same task, whoever owns that row.
- A pre-check whose rclone job failed but whose output says `success: false` lets the sync go on all the same.
- A submission whose reply is lost leaves a job on the rcd of which no row knows (`LostReplyIsBroken`, `FailedStartHasNoJob`).
- If the rows cannot be read when leadership is gained, the leader starts without any user job. As long as this
  leadership lasts, a row has its job exactly if it has been written since (`FailedGainHeals`).
- `splitRcloneOptions` depends on the iteration order of a Go map exactly when an unknown option is spelled like
  the field of a known one beside it and the two values differ.
- `buildFsSpec` does not look at the option names it writes; its text is read back exactly if none of them holds
  a separator, which is so for the names in rclone's table.

## Model

| member | source | states |
|---|---|---|
| Lease.InvNext | internal/cluster/elector.go:128-220 | every step of any node (clock, read, commit, flag, callback, crash, shutdown) except the one shutdown that breaks safety keeps: the row's epoch counts acquisitions, its expiry is at most one lease ahead, the written lease of a leading non-owner ended, up to the skew, by the time it was lost, and whoever leads has written a lease |
| Lease.InvHolds | internal/cluster/elector.go:98-240 | the invariant holds in every world of every run from an empty database |
| LeaseTheorems.LeaseSafety | internal/cluster/elector.go:128-220 | a node that leads, or is about to, without owning the row holds a lease that has run out, up to the skew |
| LeaseTheorems.SafetyKeptExactly | internal/cluster/elector.go:223-242 | from a world that meets the invariant, a step keeps safety exactly if it is not a committed shutdown of the row's owner, between commit and flag change of its elect tick, whose lease runs on for longer than the skew |
| LeaseTheorems.AtMostOneUnexpiredLeader | internal/cluster/elector.go:1-6 | with agreeing clocks at most one node leads under an unexpired lease, and it owns the row |
| LeaseTheorems.SkewOverlap | internal/cluster/elector.go:130-144 | two nodes that lead at two moments, each by its own clock, twice the skew or more apart, have both owned the row in between, whatever the lease |
| LeaseTheorems.OverlapHasNonOwner | internal/cluster/elector.go:176-195 | at any moment one of two leading nodes is not the owner, and its lease has run out up to the skew |
| LeaseTheorems.GrantFrozen | internal/cluster/elector.go:140-144 | the lease a node has written does not change while others own the row |
| LeaseTheorems.EpochCountsAcquisitions | internal/cluster/elector.go:190-195 | the epoch equals the number of compare-and-sets that matched |
| LeaseTheorems.EpochHasOneOwner | internal/cluster/elector.go:190-195 | over a whole run no epoch has two owners, and owners' epochs grow |
| LeaseTheorems.BelieversAreFenced | internal/cluster/elector.go:190-206 | two nodes that both lead hold different epochs, the owner the larger one |
| LeaseSkew.OverlapBound | internal/cluster/elector.go:128-220 | if UPDATEs are executed at most a delay after their clock readings and the lease covers that delay and three times the skew, two nodes lead together for less than twice the skew without a break |
| LeaseSkew.OutlastsSkew | internal/cluster/elector.go:136-195 | for every shorter lease, a run in which they lead together for twice the skew: a stalled heartbeat cuts the renewed lease short |
| LeaseSkew.OverlapBoundIsExact | internal/cluster/elector.go:128-220 | so the overlap is bounded exactly if the lease is at least the delay plus three times the skew |
| LeaseSkew.NoLeaseBoundsAllDelays | internal/cluster/elector.go:128-220 | without a bound on the delay no lease is long enough |
| LeaseSkew.NoOverlapWithoutSkew | internal/cluster/elector.go:1-6 | with agreeing clocks two nodes never both lead by their own clocks |
| LeaseTheorems.ReadAgreesWithCas | internal/cluster/elector.go:177-193 | on every reachable row the expiry test on the read row and the WHERE clause agree; owner and expiry are null together |
| LeaseTheorems.AgreementNeedsExpiry | internal/cluster/elector.go:177-193 | on arbitrary rows they agree exactly if an owned row has an expiry |
| LeaseTheorems.LeaseIsBounded | internal/cluster/elector.go:140-144 | no expiry lies further ahead than one lease, so every row can be claimed after that |
| LeaseTheorems.DeadLeaderIsReplaced | internal/cluster/elector.go:165-220 | one lease and twice the skew after the owner's last moment, the first elect tick that any node finishes ends with a new epoch |
| LeaseTheorems.ReplacedInTime | internal/scheduler/service.go:318-323 | so a node that runs a whole elect tick in every period replaces a dead leader within one lease, twice the skew and one period |
| LeaseTheorems.TimelyOwnerStays | internal/cluster/elector.go:139-150 | while the owner's lease is always ahead of the clock no compare-and-set ever matches |
| LeaseTheorems.GateSlipsExactly | internal/cluster/elector.go:223-295 | from a node in step, exactly a leader's shutdown (unless the callback of a loss is outstanding) and the first of two outstanding callbacks, if the last one disagrees with the flag, put the scheduler's switch and the flag out of step |
| LeaseTheorems.GateFollowsFlag | internal/cluster/elector.go:274-295 | over any stretch without such a step the switch equals the flag whenever no callback is outstanding |
| LeaseTheorems.LastCallbackDecides | internal/cluster/elector.go:274-295 | of two outstanding callbacks the last one decides: the switch ends equal to the flag exactly if the flag is off, or is what the elect tick announces |
| LeaseTheorems.StopLeavesGate | internal/cluster/elector.go:223-242 | a shutdown of a leader leaves the flag off and the switch as it was |
| LeaseTheorems.FlagChangeRestores | internal/cluster/elector.go:274-295 | the next change of the flag, with no other callback outstanding, brings them back in step |
| LeaseRaces.StopRaceBreaksSafety | internal/cluster/elector.go:223-235 | a run in which a shutdown inside an elect tick leaves two leaders with unexpired leases |
| LeaseRaces.CallbackRaceClosesGate | internal/cluster/elector.go:274-295 | a run that ends with leader and owner whose scheduler is off and no tick pending |
| Elector.LeaseTable.UpdateExpiry | internal/cluster/elector.go:141-144 | the UPDATE extends exactly the node's own row and tells whether it did |
| Elector.LeaseTable.CompareAndSet | internal/cluster/elector.go:190-195 | the UPDATE claims exactly an unowned or expired row, with the next epoch |
| Elector.LeaderElector.constructor | internal/cluster/elector.go:47-59 | a new elector does not lead and its scheduler is off |
| Elector.LeaderElector.SetLeaderState | internal/cluster/elector.go:274-295 | a transition fires one callback, a repetition none, so callbacks alternate and the gate follows |
| Elector.LeaderElector.Join | internal/cluster/elector.go:98-106 | a missing lease row is created, an existing one left alone |
| Elector.LeaderElector.HeartbeatTick | internal/cluster/elector.go:128-162 | row and memory after a tick, told on the row itself: a leader's tick that is not rolled back sets its own row's expiry to now plus the lease and leaves any other row alone; only a committed tick on another's row makes it step down, once, and an error leaves the flag as it was |
| Elector.LeaderElector.ElectTick | internal/cluster/elector.go:165-220 | row and memory after a tick, told on the row itself: an existing row without an owner or with an expiry not after now becomes (node, now + lease, epoch + 1) and the node leads once the commit is known; an unexpired row stays, and a leader that does not own it steps down |
| Elector.TickReplacesDeadLeader | internal/cluster/elector.go:165-220 | one lease and twice the skew after the owner's last moment in a run, if nobody has taken the row over yet, any elector's tick that is not rolled back makes its node the owner, with the next epoch and a full lease, and leader once the commit is known |
| Elector.LeaderElector.Stop | internal/cluster/elector.go:223-242 | the row is released only by its owner and no callback fires |
| Elector.HeartbeatIsARun | internal/cluster/elector.go:128-162 | a heartbeat tick, with any fate, continues a run of the protocol |
| Elector.ElectIsARun | internal/cluster/elector.go:165-220 | an elect tick, with any fate, continues a run of the protocol |
| Elector.StopIsARun | internal/cluster/elector.go:223-242 | a shutdown between ticks continues a run of the protocol |
| Runs.NewestIsNewest | internal/services/alerts.go:191-195 | the query finds the notified failure of the task with the largest id, or there is none |
| Runs.SavedAndAlertedFrame | internal/services/alerts.go:132-206 | saving a row and alerting changes that row and, on a success, takes the mark off at most one other |
| Runs.NewestIsResolved | internal/services/alerts.go:179-206 | a success with a receiver takes the mark off exactly the marked failure of its task and kind that has the largest id of those, and changes nothing else |
| Runs.ErrorsDecide | internal/services/runner.go:207-245 | an error instead of an answer fails a running row, with that code, exactly if the rcd sent it and the code is not 0 and below 500; any other one changes nothing |
| Runs.SyncReport | internal/services/runner.go:256-299 | a finished sync job: the whole row for a success and for a failure, with the job's error or the default text, and the alert mark |
| Runs.CheckReport | internal/services/checker.go:107-139 | a finished check job: the whole row; success needs both job and output to be successful, and the output's answer is kept |
| Runs.TimeoutFails | internal/services/checker.go:197-208 | a running check whose time is up fails with that reason; one that is over is left alone |
| Runs.ClaimsAll | internal/services/runner.go:304-311 | after a claim no running row of the kind is without an owner; a row that had none is the node's, and every other one is as it was |
| Runs.VerdictSays | internal/services/runner.go:154-205 | a successful check skips the sync as passed; one that failed on reported differences lets it go on; any other blocks it with the check's error |
| Runs.BusyMeans | internal/services/runner.go:92-95 | the guard sees exactly the pending or running sync runs of the task |
| RunEngine.Engine.NotifyFailure | internal/services/alerts.go:132-152 | only a failed run without a mark gets one, and only if the alert went out |
| RunEngine.Engine.NotifyResolved | internal/services/alerts.go:179-206 | the search from the newest run down clears exactly the newest notified failure, delivered or not |
| RunEngine.Engine.PollRun | internal/services/runner.go:219-299 | a poll of a running sync run: exactly the changes that `Runs.ErrorsDecide` and `Runs.SyncReport` spell out; a transient error or an unfinished job changes nothing |
| RunEngine.Engine.PollCheck | internal/services/checker.go:70-149 | a poll of a running check: exactly the changes that `Runs.ErrorsDecide` and `Runs.CheckReport` spell out |
| RunEngine.Engine.PollRunning | internal/services/runner.go:301-322 | one round claims unowned running rows, polls exactly the node's own, and changes no other row but for its alert mark |
| RunEngine.Engine.ListMine | internal/services/runner.go:312-316 | the listing holds each running row of the node once and no other |
| RunEngine.Engine.PollJobMeanwhile | internal/scheduler/service.go:302-306 | the node's own poll job polls the row that is waited for |
| RunEngine.Engine.Sleep | internal/services/checker.go:183-192 | the poll job may wake up at any moment of a sleep |
| RunEngine.Engine.WaitTurn | internal/services/checker.go:183-192 | one turn of the loop ends the waiting exactly if the row is no longer running after the poll, whoever decided it; else nothing was decided, or the poll job decided it in the sleep |
| RunEngine.Engine.WaitForCheck | internal/services/checker.go:178-209 | never returns a running row, polls at most ceil(timeout / interval) times, ends with the first deciding answer that the waiting thread or the poll job gets in time, and times out exactly if neither gets one |
| RunEngine.Engine.GiveUp | internal/services/checker.go:193-208 | the re-read at the end fails the row exactly if it is still running |
| TaskStart.PollTimes | internal/services/checker.go:178-192 | when the polls of a check begin: five seconds of sleep after the query before, and none once the timeout in seconds has passed |
| TaskStart.DecisionMeans | internal/services/checker.go:178-193 | what decides a check: the first answer in time that is a definite refusal (from the rcd, code not 0 and below 500) or the end of the job, whoever gets it |
| TaskStart.DecidedOrNot | internal/services/checker.go:178-209 | there is such a first answer exactly if not all answers in time leave it open |
| TaskStart.OutputDecides | internal/services/checker.go:107-139 | a deciding answer ends the check and lets the sync go on exactly if it is a finished job whose output says success = false |
| TaskStart.SubmitsExactly | internal/services/runner.go:110-125 | StartSync is due exactly if the references resolve and, if a check is bound, it exists, is started, and its deciding answer in time is that of a finished job whose output says success = false |
| RunEngine.Engine.RunCheck | internal/services/checker.go:20-67 | a check run is created and started, or failed and alerted; an unknown check task creates nothing |
| TaskStart.CheckStarts | internal/services/checker.go:20-67 | the row of a new check: running with its job, or failed at once with an alert that leaves its mark |
| TaskStart.CheckingHolds | internal/services/runner.go:154-190 | the row of the check that was waited for is terminal, and blocks or skips the sync except exactly if the check was started and the first deciding answer in time, be it the waiting thread's or the poll job's, reports differences; no other row changes but for an older check's mark |
| RunEngine.Engine.RunPreCheck | internal/services/runner.go:154-205 | runs and waits for the check, and skips the run exactly if the verdict of the check's final row is not to proceed; an unknown check is an error |
| RunEngine.Engine.FinishStart | internal/services/runner.go:126-151 | StartSync is called unless something failed; the run is then running with its job, or failed and alerted |
| RunEngine.Engine.StartRun | internal/services/runner.go:110-152 | behind the guard: the exact tables, and that StartSync is called exactly if the references resolve and a bound check exists, starts and is found in time, by the thread or the poll job, to report differences |
| TaskStart.StartHolds | internal/services/runner.go:80-152 | those tables: the run is running exactly if StartSync is called and accepts, skipped exactly if the check found no differences, else failed; apart from run and check no row changes but for an older check's mark |
| RunEngine.Engine.RunTask | internal/services/runner.go:80-152 | StartSync is called at most once, and exactly if the guard passed, the references resolve and a bound check exists, starts and is found in time, by the thread or the poll job, to report differences; a busy task gets a skipped run and nothing else changes |
| RunEngine.Engine.HasActiveRun | internal/services/runner.go:92-95 | looking through the ids finds a pending or running sync run of the task exactly if there is one |
| RunEngine.RoundHolds | internal/services/runner.go:301-322 | a round polls each listed row once, with its own answer, and leaves every other row alone but for its mark |
| EngineRuns.StartIsARun | internal/services/runner.go:85-152 | starting a task, pre-check included and whoever learns its end, is an execution of the protocol that ends in exactly those tables |
| EngineRuns.CheckingIsARun | internal/services/checker.go:178-209 | so is running a check and waiting for it, decided by the thread, by the poll job, or timed out |
| EngineRuns.RoundIsARun | internal/services/runner.go:306-322 | so is a round of claiming and polling |
| RunProtocol.InvNext | internal/services/runner.go:85-322 | every step of any node keeps the shapes of rows, one active sync run per task, the attribution of jobs, ends and verdicts, which check a thread has asked, and the marks |
| RunProtocol.InvHolds | internal/services/runner.go:85-322 | so they hold throughout every run, from any rows that have them |
| RunTheorems.JobAttribution | internal/services/runner.go:229-262 | a run's job is the one submitted for it on its owner's rcd, though ids collide; it ended with that job's report, a definite refusal below 500, or a check's timeout |
| RunTheorems.JobsAreNotShared | internal/services/runner.go:80-84 | two runs of one node, sync or check, never point at the same job |
| RunTheorems.SubmittedOnDifferences | internal/services/runner.go:118-205 | over any interleaving, a sync whose task has a check bound to it is submitted only after its thread has run that check task and the job of that very check has reported success = false for its output |
| RunTheorems.StepKeeps | internal/services/runner.go:301-322 | a step keeps a row's task, changes an owner only from none, and leaves a terminal row alone but for its mark |
| RunTheorems.OwnerIsWriteOnce | internal/services/runner.go:304-311 | over any interleaving an owner, once set, stays |
| RunTheorems.EndIsFinal | internal/services/runner.go:224-226 | a run that has ended stays as it ended, but for its mark |
| RunTheorems.LostReplyIsBroken | internal/services/runner.go:126-151 | a submission whose reply is lost leaves its job on the rcd, under the next number; the thread can neither record it nor try again, only fail the run |
| RunTheorems.FailedStartHasNoJob | internal/services/runner.go:139-151 | a run whose start has failed is failed without a job |
| RunTheorems.PollTouchesOwnRows | internal/services/runner.go:301-322 | a poll changes a row of another node exactly if it brings a success, there is a receiver, and the row is the newest notified failure of the task; then the row loses its mark and nothing else |
| RunTheorems.RunLifecycle | internal/services/runner.go:91-151 | at most one active sync run per task; each status fixes which fields are set, with start before end |
| RunTheorems.FiresAtMostOnce | internal/services/alerts.go:130-135 | over any history a run delivers at most one firing, and only if it failed |
| RunTheorems.AlertsAreAStack | internal/services/alerts.go:176-206 | over any history the notified sync runs of a task are a stack: a delivered failure pushes, a success pops the newest, nothing else changes it |
| ByteLines.LinesAreLines | internal/api/handlers_logs.go:97-100 | cutting into lines loses nothing, and all lines but the last are terminated |
| ByteLines.LineCount | internal/api/handlers_logs.go:119-123 | newlines plus an unterminated tail count the lines |
| ByteLines.LineFeedsEndLines | internal/api/handlers_logs.go:97-151 | line feeds, and nothing else, end lines |
| ByteLines.LastLinesAreLast | internal/api/handlers_logs.go:97-151 | the last lines of a text are the ones at its end, the unterminated one included |
| ByteLines.LastLinesOfSuffix | internal/api/handlers_logs.go:107-124 | a suffix that begins in the middle of a line but holds more lines than asked has the same last lines |
| LogTail.DropLines | internal/api/handlers_logs.go:133-147 | cutting behind a newline leaves exactly the last lines |
| LogTail.ScanSuffices | internal/api/handlers_logs.go:107-131 | whichever way the scan stops, the part read yields the specified bytes |
| LogTail.Scan | internal/api/handlers_logs.go:105-131 | the buffer is a suffix of the file, stays below limit plus chunk, and the scan ends |
| LogTail.ReadEnd | internal/api/handlers_logs.go:105-137 | what was read has the specified last bytes, and its lines are counted with the unterminated tail |
| LogTail.FlagIsExact | internal/api/handlers_logs.go:127-130 | the flag is set exactly if the lines exceed the limit, or equal it where the scan comes to rest |
| LogTail.TailFile | internal/api/handlers_logs.go:97-151 | for every file, limit and chunk size: content and flag, for zero lines too, the read errors, and the memory bound |
| LogTail.EndpointFlag | internal/api/handlers_logs.go:127-150 | with the endpoint's limits the flag is off exactly if the lines stay below the limit |
| LogTail.ZeroLinesMean | internal/api/handlers_logs.go:97-151 | what a limit of zero lines gives: nothing for a file that is empty or ends in a line feed, else its last bytes, as many as one chunk and the byte limit have, flagged exactly if the limit cuts them |
| LogTail.FlagTellsContent | internal/api/handlers_logs.go:148-151 | unflagged content is the lines in full, flagged content has exactly the limit's length |
| Calendar.YearBounds | frontend/src/lib/cron.ts:324-346 | every day lies in the year that the calendar gives it |
| Calendar.DateRoundTrip | frontend/src/lib/cron.ts:326-336 | the date of a day is a date, and building the day from it gives the day back |
| Calendar.DayNumberRoundTrip | frontend/src/lib/cron.ts:324-336 | year, month and day are recovered from the day number they make |
| Calendar.NextDate | frontend/src/lib/cron.ts:346 | one more in the day of the month is the next day, across months and years |
| Calendar.DaysOfMarchYears | frontend/src/lib/cron.ts:324-336 | days are counted by the usual formula for years that begin in March, and 1 January 1970 is day 0 |
| Calendar.WeekdayIsZellers | frontend/src/lib/cron.ts:328 | the weekday of every date is the one that Zeller's congruence gives for it |
| CronParser.RangeInBounds | frontend/src/lib/cron.ts:75-117 | an accepted range lies in the bounds with a positive step, and a wildcard covers them |
| CronParser.Fill | frontend/src/lib/cron.ts:132-134 | the loop adds exactly the values of the segment, each once |
| CronParser.ParseField | frontend/src/lib/cron.ts:119-145 | the field holds exactly the values its ranges hit, ascending and without repetition, or the first part's error; `CronForms` says what each form of a part's text hits |
| CronParser.FieldIsWellFormed | frontend/src/lib/cron.ts:119-145 | an accepted field is not empty and in bounds, and a wildcard field is full |
| CronParser.ParseCron | frontend/src/lib/cron.ts:147-166 | an expression is accepted exactly if its five fields are, and fails with the first reason; `CronForms` covers every text of a field |
| CronParser.PrintedSegmentParses | frontend/src/lib/cron.ts:75-117 | every segment in bounds, printed as a-b/n, is parsed back to itself |
| CronParser.PrintedFieldParses | frontend/src/lib/cron.ts:119-145 | every comma-separated list of such segments and wildcards is read as those ranges |
| CronParser.PrintedCronParses | frontend/src/lib/cron.ts:147-166 | five printed fields joined by blanks are accepted and read as the ranges they were printed from, for any ranges within the bounds of minute, hour, day, month and weekday |
| CronParser.NormalForm | frontend/src/lib/cron.ts:147-166 | whatever expression is accepted, printing the ranges it is read as gives an expression that is read in the same way |
| CronParser.WildcardParses | frontend/src/lib/cron.ts:84-108 | * and ? stand for the whole field, and are a wildcard only without a step above one |
| CronParser.NumberParses | frontend/src/lib/cron.ts:84-100 | a number alone is the range of that number |
| CronParser.NumberWithStepParses | frontend/src/lib/cron.ts:101-108 | a/n runs from a to the end of the field in steps of n |
| CronParser.NameParses | frontend/src/lib/cron.ts:66-72 | a name in any mixture of cases stands for its number |
| CronParser.NamesAreDistinct | frontend/src/lib/cron.ts:45-54 | the names of months and of weekdays are told apart |
| CronForms.WildcardForms | frontend/src/lib/cron.ts:84-108 | a wildcard, whatever stands behind a hyphen, is the whole field; a step above one makes it no wildcard |
| CronForms.ValueForms | frontend/src/lib/cron.ts:88-113 | "a" is that value, "a/n" runs to the end of the field, and which of the bounds is complained about first |
| CronForms.RangeForms | frontend/src/lib/cron.ts:88-113 | "a-b" and "a-b/n" run from the first value to the second and no further; below the minimum, above the maximum and start after end are refused, in this order |
| CronForms.NumberRangeParses | frontend/src/lib/cron.ts:93-113 | "a-b" for numbers within the bounds is the segment from a to b |
| CronForms.NameRangeParses | frontend/src/lib/cron.ts:66-113 | so it is for names on either side, in any mixture of cases |
| CronForms.UnreadableEnds | frontend/src/lib/cron.ts:89-98 | an end that is neither number nor name is refused |
| CronForms.UnusableStep | frontend/src/lib/cron.ts:102-105 | a step that is zero or no number is refused |
| CronForms.TwoSlashes | frontend/src/lib/cron.ts:76-77 | a second slash is refused |
| CronForms.TwoHyphens | frontend/src/lib/cron.ts:79-80 | a second hyphen is refused |
| CronForms.EveryTextHasAForm | frontend/src/lib/cron.ts:75-117 | no text is left out: each has one of these forms or is refused for a slash or hyphen too many |
| CronForms.NumbersAre | frontend/src/lib/cron.ts:59-64 | a number is a string of digits, perhaps with a plus in front, or minus zero, that a double holds |
| CronForms.OtherTexts | frontend/src/lib/cron.ts:66-72 | a text that is no name is read as a number or not at all |
| CronForms.MonthIs | frontend/src/lib/cron.ts:45-52 | each of the twelve month names stands for its number from 1 on |
| CronForms.WeekdayIs | frontend/src/lib/cron.ts:46-53 | each of the seven weekday names stands for its number, Sunday being 0 |
| CronForms.ValuesAre | frontend/src/lib/cron.ts:132-134 | a segment hits its start and every step from there that does not pass its end |
| CronForms.EmptyPieces | frontend/src/lib/cron.ts:120-122 | empty pieces between commas make no difference |
| CronForms.EmptyField | frontend/src/lib/cron.ts:120-122 | a field of nothing but commas is refused as empty |
| CronForms.SpacesSeparate | frontend/src/lib/cron.ts:148 | white space of any kind and amount separates fields and may surround them |
| CronForms.RefusedOutright | frontend/src/lib/cron.ts:148-154 | anything but five fields is refused, and a time zone in front in any mixture of cases |
| CronForms.AcceptedByFields | frontend/src/lib/cron.ts:155-166 | otherwise an expression is accepted exactly if each of its fields is, within the limits of minute, hour, day, month and weekday |
| CronNext.RunsOfHour | frontend/src/lib/cron.ts:335-341 | one listed hour appends exactly those of its firing minutes that are shown behind the start |
| CronNext.RunsOfDay | frontend/src/lib/cron.ts:334-343 | so does one matching day, up to the number asked for |
| CronNext.ScanDays | frontend/src/lib/cron.ts:324-347 | the scan lists the first firing minutes within the horizon that are shown behind the start |
| CronNext.NextCronRuns | frontend/src/lib/cron.ts:314-349 | for every start: exactly the first n firing minutes of the 4392 days from the first day on that are shown behind the floored start, in order; away from the years 0 to 99 these are the next n firing minutes themselves (`CronNext.FiresByDate` and `CronNext.RunsMean` say by dates what fires and what is listed) |
| CronNext.PlainListed | frontend/src/lib/cron.ts:322-347 | away from the years 0 to 99 what is listed is sound, complete and ordered: the first n firing minutes after the floored start within 4392 days |
| CronNext.FiresByDate | frontend/src/lib/cron.ts:326-336 | a minute of a date fires exactly if month, hour and minute are listed and the day is right: day of month and Zeller's weekday, both if one of the two is a wildcard, else either |
| CronNext.FiringIsDate | frontend/src/lib/cron.ts:335-336 | nothing fires but at the beginning of a minute of some date |
| CronNext.RunsMean | frontend/src/lib/cron.ts:314-349 | what a list of runs is: ascending, behind the minute of the start, within 4392 days, n at most, and without a gap |
| CronNext.ShownMeans | frontend/src/lib/cron.ts:336 | a moment of the years 0 to 99 is shown nineteen centuries later, any other as it is |
| CronParser.CronIsUnique | frontend/src/lib/cron.ts:147-166 | the ranges written in an expression determine what it is parsed to |
| CronNext.PreviewIsUnique | frontend/src/lib/cron.ts:309-313 | the description of NextCronRuns determines its result |
| CronHorizon.HorizonSuffices | frontend/src/lib/cron.ts:321-347 | asking for one run yields none exactly if the weekday is free, the day is not, and no listed day fits a listed month |
| CronHorizon.ThreeRunsExactly | frontend/src/lib/cron.ts:321 | three runs on 29 February are found exactly if the third leap day to come, the day of the start included while its minute is ahead, lies less than 4392 days after the day of the start |
| CronHorizon.FallsShortExactly | frontend/src/lib/cron.ts:321 | that fails exactly in three stretches around each common century C: from the runs of C - 12, C - 8 and C - 4 on, until 19 February four years later |
| CronHorizon.Around2100 | frontend/src/lib/cron.ts:321 | between the runs of 2088 and 2104 it fails exactly until 19 February 2092, from the run of 2092 until 19 February 2096, and from that of 2096 until 19 February 2100 |
| JobTable.NamesRoundTrip | internal/scheduler/service.go:138-145 | an id is read back from its job's name, and no other row has that name |
| JobTable.RegisteredHolds | internal/scheduler/service.go:165-183 | a registration replaces the jobs of its name alone; an expression that does not validate changes nothing |
| JobTable.RemoveHolds | internal/scheduler/service.go:212-225 | a removal by tag removes the jobs of that name alone, and nothing on standby |
| JobTable.IndexIsUnique | internal/scheduler/service.go:241-242 | two tables that index the same rows hold the same user jobs, each as often |
| TaskOps.SyncedIndexes | internal/scheduler/service.go:241-283 | the rebuild makes any well-formed table the index of the rows and keeps internal jobs |
| TaskOps.EnabledAreWanted | internal/scheduler/service.go:254-274 | the names that register are those of the rows that ask for a job |
| TaskOps.GoodNext | internal/api/handlers_tasks.go:62-82 | every operation keeps: no user job on standby, none unasked for on the leader, all that are asked for once the rows were read |
| TaskOps.HistoryIsGood | internal/scheduler/service.go:91-111 | so does every history, and it leaves the internal jobs as they were |
| TaskOps.TableEqualsRebuild | internal/scheduler/service.go:241-283 | after every history the leader's user jobs are those that a rebuild out of any table would make; on standby there are none |
| TaskOps.JobPerRow | internal/scheduler/service.go:162-209 | one job with the current cron for each enabled row with a valid cron, none for any other id |
| TaskOps.FailedGainHasNoJobs | internal/scheduler/service.go:104-109 | if the rows cannot be read, the new leader has no user job, which is right exactly if none is asked for |
| TaskOps.FailedGainHeals | internal/scheduler/service.go:104-109 | over every history of such a leadership a row has the job that it asks for exactly if it has been written since, and none otherwise |
| TaskOps.RowsStayFit | internal/api/handlers_check_tasks.go:257-275 | over every history stored crons validate and bound pre-checks exist |
| TaskRequests.TaskIsCreated | internal/api/handlers_tasks.go:197-273 | which answer a creation gets, and that the stored row is the request's; an enabled one has its job, a disabled one none |
| TaskRequests.TaskIsUpdated | internal/api/handlers_tasks.go:284-419 | which answer an update gets; each field of the row is the patch's where it has one and else the old one, other rows and counters stay, an enabled row has its job and a disabled one none |
| TaskRequests.TaskIsDeleted | internal/api/handlers_tasks.go:421-432 | the row is gone, and its job |
| TaskRequests.CheckIsCreated | internal/api/handlers_check_tasks.go:69-133 | the same for a check, whose cron may be missing or empty |
| TaskRequests.CheckIsUpdated | internal/api/handlers_check_tasks.go:142-255 | the same for a check; a null cron clears it, and with it the job |
| TaskRequests.CheckIsDeleted | internal/api/handlers_check_tasks.go:257-275 | refused exactly if a task is bound to the check, else row and job are gone |
| TaskRequests.LeadershipChanges | internal/scheduler/service.go:91-111 | a gain reads the rows, after which every id has its job; a loss leaves no user job; neither changes a row |
| TaskRequests.EveryIdHasItsJob | internal/scheduler/service.go:241-283 | after any history of a leadership that began by reading the rows, each id has exactly the job that its row asks for, with the row's cron |
| TaskRequests.TaggedAreDropped | internal/scheduler/service.go:212-225 | a removal by tag keeps the order of the jobs that stay |
| TaskRequests.OtherNamesAreInternal | internal/scheduler/service.go:138-145 | names that are no user names, and ids beyond 64 bits, are those of internal jobs |
| SchedulerService.Service.RemoveByTags | internal/scheduler/service.go:212-225 | the jobs with the tag are gone, the others keep their order |
| SchedulerService.Service.RegisterTask | internal/scheduler/service.go:163-183 | the table after a registration and whether it succeeded; nothing on standby |
| SchedulerService.Service.RegisterCheckTask | internal/scheduler/service.go:185-209 | the same for a check, where a missing or empty cron removes |
| SchedulerService.Service.RemoveTask | internal/scheduler/service.go:211-217 | the task's jobs are removed, on the leader only |
| SchedulerService.Service.RemoveCheckTask | internal/scheduler/service.go:219-225 | the check's jobs are removed, on the leader only |
| SchedulerService.Service.SyncFromDB | internal/scheduler/service.go:241-283 | the three loops make the rebuilt table; a failing read changes nothing |
| SchedulerService.Service.SetLeader | internal/scheduler/service.go:91-111 | gaining rebuilds, losing removes every user job, repeating does nothing |
| SchedulerService.Api.CreateTask | internal/api/handlers_tasks.go:197-273 | response, row and schedule after a creation, or the first failing validation, as `TaskRequests.TaskIsCreated` spells out |
| SchedulerService.Api.UpdateTask | internal/api/handlers_tasks.go:284-419 | response, patched row and re-applied schedule, field by field in `TaskRequests.TaskIsUpdated` |
| SchedulerService.Api.DeleteTask | internal/api/handlers_tasks.go:421-432 | job and row are gone |
| SchedulerService.Api.CreateCheckTask | internal/api/handlers_check_tasks.go:69-133 | response, row and schedule after a creation |
| SchedulerService.Api.UpdateCheckTask | internal/api/handlers_check_tasks.go:142-255 | response, patched row, where a null cron clears, and re-applied schedule, field by field in `TaskRequests.CheckIsUpdated` |
| SchedulerService.Api.DeleteCheckTask | internal/api/handlers_check_tasks.go:257-275 | refused while a task is bound to the check, else job and row are gone |
| FsSpec.EncodeOverrideValue | internal/rclone/client.go:265-293 | an encoded value is not empty and holds no separator |
| FsSpec.NumbersEncode | internal/rclone/client.go:268-293 | numbers and booleans are never refused, and a number is read back from its text |
| FsSpec.DriveIsLeftAlone | internal/rclone/client.go:295-312 | a path on a drive is no remote and is left alone |
| FsSpec.AscendingIsUnique | internal/rclone/client.go:313-317 | there is only one ascending list of given keys |
| FsSpec.OrderDoesNotMatter | internal/rclone/client.go:295-300 | the text does not depend on the order in which the map is iterated over |
| FsSpec.BuildFsSpec | internal/rclone/client.go:301-330 | the loops write the options in ascending order, and reject a value outside the whitelist first |
| FsSpec.SafeKeysDecode | internal/rclone/client.go:301-330 | cutting at the first colon and splitting at commas and equals signs gives back remote, options and path |
| FsSpec.SpecRoundTrip | internal/rclone/client.go:301-343 | when nothing is written, when it is an error, and that the text is read back exactly if no option name holds a separator |
| FsSpec.OptionsAsWritten | internal/rclone/client.go:301-330 | the options as they stand in the text: key, equals sign, value, joined by commas behind the remote |
| FsSpec.ValuesEncode | internal/rclone/client.go:265-293 | "true" and "false" for booleans; a text is written as it is exactly if every character is on the whitelist |
| FsSpec.IntegersEncode | internal/rclone/client.go:268-293 | an integer is written in decimal digits, behind a minus if it is negative |
| FsSpec.RemoteNames | internal/rclone/client.go:332-343 | which names are those of a remote |
| FsSpec.LessIsLexicographic | internal/rclone/client.go:314-318 | the order of the options is the lexicographic one of their characters |
| RcloneWire.WiresAreInjective | internal/rclone/client.go:136-185 | no two options set the same field |
| RcloneWire.RcloneFits | internal/rclone/client.go:136-214 | rclone's own tables meet what the proofs need of them |
| RcloneWire.FieldsAreNamedAlike | internal/rclone/client.go:136-214 | every option's field has its name, without underscores and letter case aside, but for the renamed ones |
| RcloneWire.OtherNames | internal/rclone/client.go:136-214 | the renamed options with their fields, and the backend options with their sides |
| RcloneOptions.SplitRcloneOptions | internal/rclone/client.go:220-240 | the loop puts each option into its place, the last one to arrive winning |
| RcloneOptions.LastWins | internal/rclone/client.go:220-240 | a place holds the value of the last option that goes there, and nothing if none does |
| RcloneOptions.SoleOption | internal/rclone/client.go:220-240 | where a single option ends up: on the backend, in the filter or in the config under its field's name, and an unknown one in the config under its own |
| RcloneOptions.SharedPlace | internal/rclone/client.go:220-240 | two options share a place exactly if an unknown one is spelled like the field of a known one |
| RcloneOptions.NothingIsLost | internal/rclone/client.go:216-240 | without such a pair each option is found, unchanged, in exactly its place, and nothing else is there |
| RcloneOptions.OrderMattersExactly | internal/rclone/client.go:216-240 | the result depends on the order exactly if such a pair disagrees |
| RcloneOptions.BackendIsKept | internal/rclone/client.go:224-228 | the backend bucket holds exactly the backend options |
| RcloneOptions.SplitBackendOverrides | internal/rclone/client.go:242-263 | each encodable option goes to its side under its name; an unknown or unencodable one is an error |
| RcloneOptions.Prepare | internal/rclone/client.go:345-380 | a submission is refused exactly for an unencodable backend option, and each side's path carries exactly its own options |
| RcloneOptions.SourceIsUntouched | internal/rclone/client.go:211-214 | with rclone's table the source path is sent unchanged |
| Paths.JoinIsAssociative | internal/services/runner.go:34-47 | root, data source path and task path give one string in either grouping, for all strings |
| Paths.JoinedPath | internal/services/runner.go:34-47 | the joined path begins with the root without its last slashes and ends with the subpath without its first ones, with one slash in between if both are there |
| Paths.RootsAre | internal/services/storage.go:18-42 | the root of a local storage is its path column unless missing or empty, else its extra root, else "/" |
| Paths.SpecsAre | internal/services/runner.go:49-78 | the text of a side: the joined local path, or the remote's name, a colon and the path |
| Paths.LocalSideIsUnderRoot | internal/services/storage.go:18-42 | a local side lies under its trimmed root exactly if the root is more than slashes or nothing follows |
| Paths.ResolvedSpecReads | internal/services/runner.go:61-78 | cutting the resolved spec at its first colon gives a valid remote and the whole path |

## Left out

- LeaseSkew.OverlapBound: speaks of stretches in which no shutdown commits between the commit and the flag change of the same node's elect tick.
- LeaseSkew.OverlapBoundIsExact: likewise, and a lease lasts for one unit of time at least; without skew see `LeaseSkew.NoOverlapWithoutSkew`.
- LeaseTheorems.ReplacedInTime: that a whole elect tick is run in every period is the timer's part (internal/scheduler/service.go:318-323) and a hypothesis.
- Elector.LeaderElector.Join: the registration in the table of cluster nodes, and a failing database.
- RunEngine.Engine.PollRun: the statistics that are collected with a success are no part of the row.
- RunEngine.Engine.PollCheck: of the result column only the entry `success` is part of the row.
- RunEngine.Engine.WaitForCheck: of several polls of the row by the poll job between two polls of the loop only the first that decides is an event; none falls between the loading and the saving of the loop's own poll. The database does not fail.
- RunEngine.Engine.RunTask: the database does not fail, and the guard and the insertion are one step; while a check is waited for, other threads are seen only where they touch its row. `RunProtocol` has the interleavings.
- RunEngine.Engine.StartRun: the same.
- RunEngine.Engine.RunPreCheck: the same.
- RunTheorems.JobAttribution: speaks of runs created after the start; rows that were there before, owned or not, only take part in write-once ownership, finality and alerting.
- CronNext.NextCronRuns: dates beyond the range of Date are not cut off.
- CronParser.ParseCron: a name that the name table finds among the members every JavaScript object inherits ("constructor", "__proto__") yields `Inherited`; what is computed with it is not modelled. Error texts are reduced to their kinds.
- SchedulerService.Api.CreateTask: the other columns are one flag for their validation, and the creator's binding is left out.
- SchedulerService.Api.UpdateTask: the other columns are one flag for their validation.
- SchedulerService.Api.DeleteTask: the deletion of the task's runs and bindings.
- SchedulerService.Api.CreateCheckTask: the other columns are one flag for their validation, and the creator's binding is left out.
- SchedulerService.Api.UpdateCheckTask: the other columns are one flag for their validation.
- SchedulerService.Api.DeleteCheckTask: the deletion of the check's runs and bindings.
- RcloneOptions.Prepare: a floating-point value is given by its shortest decimal text, and the rc command that the mode chooses (copy or sync) is not modelled.
- Between loading and saving a run row nobody else writes it, rows are not deleted, an rcd is not restarted, and the clock does not run backwards. Two live processes do not share a node id, and the lease row is not edited by hand.
- While a node leads nobody else writes task rows; its own operations are one after the other. The lost update of two handlers at once is not modelled.
- Valid cron expressions of the backend are an abstract predicate, as is acceptance by the scheduler library; the frontend's parser is not compared with them.
- Statistics and result details of runs, triggers, message texts, and the payloads of alerts.
- The table of cluster nodes, peers, roles and node ids.
- HTTP, JSON, SQL, authentication, permissions, bindings, migration, process management of the rcd, and all pages.
- Segment kinds, the `all` mark and the descriptions of cron expressions, which are display text.
- Job execution, job ids, monitoring, and the internal jobs' registration.
