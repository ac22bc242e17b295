/**
 One process taking part in the election. Each tick is modelled with the fate of its database
 transaction as a parameter, and is proved to be a continuation of a run of the protocol, so
 that what `LeaseTheorems` says of runs holds of the ticks.
 */
module Elector {
  import opened Options
  import opened Lease
  import opened LeaseTheorems

  // The fate of a transaction: committed, rolled back with an error, or committed by the
  // server while the client is told of an error.
  datatype Commit = Committed | RolledBack | Unacked

  // What a tick leaves behind: the lease row, if there is one, and the process's memory.
  datatype Outcome = Outcome(row: Option<Row>, local: Local)

  /** setLeaderState: the flag changes and, only then, the callback drives the scheduler's gate. */
  function Announced(l: Local, n: NodeId, value: bool): Local {
    if value == l.isLeader then l else WithFlag(l, n, value).(gate := value)
  }

  function AfterHeartbeat(n: NodeId, lease: Time, row: Option<Row>, l: Local, now: Time, commit: Commit): Outcome {
    if !l.isLeader || commit.RolledBack? then Outcome(row, l)
    else if row.Some? && row.value.owner == Some(n) then Outcome(Some(Extend(row.value, now + lease)), l)
    else Outcome(row, if commit.Committed? then Announced(l, n, false) else l)
  }

  function AfterElect(n: NodeId, lease: Time, row: Option<Row>, l: Local, now: Time, commit: Commit): Outcome {
    if row.None? then
      Outcome(if commit.RolledBack? then None else Some(EMPTY_ROW), l)
    else if !ReadSaysExpired(row.value, now) then
      var seen := l.(leaderID := row.value.owner);
      Outcome(row, if commit.Committed? && row.value.owner != Some(n) then Announced(seen, n, false) else seen)
    else if CasMatches(row.value, now) && !commit.RolledBack? then
      Outcome(Some(Claim(row.value, n, now + lease)), if commit.Committed? then Announced(l, n, true) else l)
    else
      Outcome(row, l)
  }

  function AfterStop(n: NodeId, row: Option<Row>, l: Local, commit: Commit): Outcome {
    if !l.isLeader then Outcome(row, l)
    else
      Outcome(if row.Some? && row.value.owner == Some(n) && !commit.RolledBack? then Some(Release(row.value)) else row,
              l.(isLeader := false, leaderID := None))
  }

  /** Nobody owns the row, or its expiry has passed. */
  predicate Free(row: Row, now: Time) {
    row.owner == None || (row.until != None && row.until.value <= now)
  }

  /** Somebody owns the row, and the expiry is still to come. */
  predicate Taken(row: Row, now: Time) {
    row.owner != None && row.until != None && now < row.until.value
  }

  /** Table leader_lease, as far as one cluster name is concerned. */
  class LeaseTable {
    var row: Option<Row>

    constructor ()
      ensures row == None
    {
      row := None;
    }

    /** UPDATE ... SET lease_until WHERE leader_node_id = n; tells whether a row was affected. */
    method UpdateExpiry(n: NodeId, until: Time) returns (affected: bool)
      modifies this
      ensures affected <==> old(row).Some? && old(row).value.owner == Some(n)
      ensures row == if affected then Some(Row(Some(n), Some(until), old(row).value.epoch)) else old(row)
    {
      affected := row.Some? && row.value.owner == Some(n);
      if affected {
        row := Some(row.value.(until := Some(until)));
      }
    }

    /** The compare-and-set: takes the row over when it is unowned or its expiry has passed. */
    method CompareAndSet(n: NodeId, now: Time, until: Time) returns (affected: bool)
      modifies this
      ensures affected <==> old(row).Some? && Free(old(row).value, now)
      ensures row == if affected then Some(Row(Some(n), Some(until), old(row).value.epoch + 1)) else old(row)
    {
      affected := row.Some? && (row.value.owner.None? || (row.value.until.Some? && row.value.until.value <= now));
      if affected {
        row := Some(row.value.(owner := Some(n), until := Some(until), epoch := row.value.epoch + 1));
      }
    }
  }

  class LeaderElector {
    const nodeId: NodeId
    const leaseDuration: Time
    const table: LeaseTable
    var isLeader: bool
    var leaderID: Option<NodeId>
    var gate: bool             // the scheduler's switch, driven by the callbacks
    var callbacks: seq<bool>   // the calls made: true for OnAcquired, false for OnLost

    constructor (nodeId: NodeId, leaseDuration: Time, table: LeaseTable)
      ensures this.nodeId == nodeId && this.leaseDuration == leaseDuration && this.table == table
      ensures !isLeader && leaderID == None && !gate && callbacks == [] && Memory() == FRESH && InStep()
    {
      this.nodeId, this.leaseDuration, this.table := nodeId, leaseDuration, table;
      isLeader, leaderID, gate, callbacks := false, None, false, [];
    }

    function Memory(): Local
      reads this
    {
      Local(isLeader, leaderID, gate, HbIdle, ElIdle)
    }

    /** The gate is in step with the flag, and the callbacks made so far alternate up to it. */
    ghost predicate InStep()
      reads this
    {
      && gate == isLeader
      && (forall i :: 0 <= i < |callbacks| ==> callbacks[i] == (i % 2 == 0))
      && isLeader == (|callbacks| % 2 == 1)
    }

    method SetLeaderState(value: bool)
      modifies this
      ensures Memory() == Announced(old(Memory()), nodeId, value)
      ensures callbacks == if value == old(isLeader) then old(callbacks) else old(callbacks) + [value]
      ensures isLeader == value
      ensures value != old(isLeader) ==> gate == value && leaderID == if value then Some(nodeId) else None
      ensures value == old(isLeader) ==> Memory() == old(Memory())
      ensures old(InStep()) ==> InStep()
    {
      if value == isLeader {
        return;
      }
      isLeader := value;
      leaderID := if value then Some(nodeId) else None;
      gate := value;
      callbacks := callbacks + [value];
    }

    /** Join makes sure the lease row exists, and leaves an existing row alone. */
    method Join()
      modifies table
      ensures table.row == if old(table.row).None? then Some(Row(None, None, 0)) else old(table.row)
    {
      if table.row.None? {
        table.row := Some(EMPTY_ROW);
      }
    }

    /** A leader that still owns the row renews it; one that does not steps down once that is committed. */
    method HeartbeatTick(now: Time, commit: Commit)
      modifies this, table
      ensures var renews := old(isLeader) && old(table.row).Some? && old(table.row).value.owner == Some(nodeId)
                            && commit != RolledBack;
              table.row == if renews then Some(Row(Some(nodeId), Some(now + leaseDuration), old(table.row).value.epoch))
                           else old(table.row)
      ensures var stepsDown := old(isLeader) && commit == Committed
                               && !(old(table.row).Some? && old(table.row).value.owner == Some(nodeId));
              if stepsDown then !isLeader && leaderID == None && !gate && callbacks == old(callbacks) + [false]
              else Memory() == old(Memory()) && callbacks == old(callbacks)
      ensures Outcome(table.row, Memory())
              == AfterHeartbeat(nodeId, leaseDuration, old(table.row), old(Memory()), now, commit)
      ensures old(InStep()) ==> InStep()
    {
      var fireLost := false;
      var before := table.row;
      if isLeader {
        var affected := table.UpdateExpiry(nodeId, now + leaseDuration);
        if !affected {
          fireLost := true;
        }
      }
      if commit.RolledBack? {
        table.row := before;
        return;
      }
      if commit.Unacked? {
        return;
      }
      if fireLost {
        SetLeaderState(false);
      }
    }

    /**
     A free row is claimed and, once that is committed, leadership taken; a taken one is left alone, and a leader
     that does not own it steps down. A missing row is created.
     */
    method ElectTick(now: Time, commit: Commit)
      modifies this, table
      ensures commit == RolledBack ==> table.row == old(table.row)
      ensures old(table.row) == None && commit != RolledBack ==> table.row == Some(Row(None, None, 0))
      ensures old(table.row) == None ==> Memory() == old(Memory()) && callbacks == old(callbacks)
      ensures old(table.row).Some? && !Free(old(table.row).value, now) ==> table.row == old(table.row)
      ensures old(table.row).Some? && Free(old(table.row).value, now) && commit != RolledBack ==>
                table.row == Some(Row(Some(nodeId), Some(now + leaseDuration), old(table.row).value.epoch + 1))
      ensures old(table.row).Some? && Free(old(table.row).value, now) ==>
                if commit == Committed && !old(isLeader)
                then isLeader && leaderID == Some(nodeId) && gate && callbacks == old(callbacks) + [true]
                else Memory() == old(Memory()) && callbacks == old(callbacks)
      ensures old(table.row).Some? && Taken(old(table.row).value, now) ==>
                if commit == Committed && old(isLeader) && old(table.row).value.owner != Some(nodeId)
                then !isLeader && leaderID == None && !gate && callbacks == old(callbacks) + [false]
                else Memory() == old(Memory()).(leaderID := old(table.row).value.owner) && callbacks == old(callbacks)
      ensures old(table.row).Some? && !Free(old(table.row).value, now) && !Taken(old(table.row).value, now) ==>
                Memory() == old(Memory()) && callbacks == old(callbacks)
      ensures Outcome(table.row, Memory())
              == AfterElect(nodeId, leaseDuration, old(table.row), old(Memory()), now, commit)
      ensures old(InStep()) ==> InStep()
    {
      var fireAcquired, fireLost := false, false;
      var before := table.row;
      if table.row.None? {
        table.row := Some(EMPTY_ROW);
      } else {
        var lease := table.row.value;
        var expired := lease.owner.None? || lease.until.None? || !(lease.until.value > now);
        if !expired {
          leaderID := lease.owner;
          if isLeader && (lease.owner.None? || lease.owner.value != nodeId) {
            fireLost := true;
          }
        } else {
          fireAcquired := table.CompareAndSet(nodeId, now, now + leaseDuration);
        }
      }
      if commit.RolledBack? {
        table.row := before;
        return;
      }
      if commit.Unacked? {
        return;
      }
      if fireAcquired {
        SetLeaderState(true);
      }
      if fireLost {
        SetLeaderState(false);
      }
    }

    /** Stop gives the lease back. It calls no callback, so the gate keeps its position. */
    method Stop(commit: Commit)
      modifies this, table
      ensures var releases := old(isLeader) && old(table.row).Some? && old(table.row).value.owner == Some(nodeId)
                              && commit != RolledBack;
              table.row == if releases then Some(Row(None, None, old(table.row).value.epoch)) else old(table.row)
      ensures !isLeader && leaderID == (if old(isLeader) then None else old(leaderID))
      ensures gate == old(gate) && callbacks == old(callbacks)
      ensures Outcome(table.row, Memory()) == AfterStop(nodeId, old(table.row), old(Memory()), commit)
    {
      if isLeader {
        if table.row.Some? && table.row.value.owner == Some(nodeId) && !commit.RolledBack? {
          table.row := Some(table.row.value.(owner := None, until := None));
        }
        isLeader := false;
        leaderID := None;
      }
    }
  }

  // ----- every tick continues a run of the protocol -----

  predicate Idle(w: World, n: NodeId) {
    n in w.local && w.local[n].hb.HbIdle? && w.local[n].el.ElIdle?
  }

  /** `w'` is `w` after node `n` alone has acted, with the given outcome. */
  predicate ActedAs(w: World, w': World, n: NodeId, o: Outcome) {
    w'.clock == w.clock && Some(w'.row) == o.row && w'.local == w.local[n := o.local]
  }

  /** From a heartbeat that found the row lost: the flag change and the callback. */
  lemma FinishHeartbeat(p: Params, r: Run, n: NodeId) returns (r': Run)
    requires IsRun(p, r) && n in Last(r).local && Last(r).local[n].hb.HbLost? && Last(r).local[n].isLeader
    ensures IsRun(p, r')
    ensures Last(r').row == Last(r).row && Last(r').clock == Last(r).clock
    ensures Last(r').local == Last(r).local[n := Announced(Last(r).local[n], n, false).(hb := HbIdle)]
  {
    r' := Then(p, r, HbFlag(n));
    r' := Then(p, r', HbCallback(n));
  }

  lemma HeartbeatIsARun(p: Params, r: Run, n: NodeId, now: Time, commit: Commit) returns (r': Run)
    requires IsRun(p, r) && Idle(Last(r), n) && ClockReading(p, Last(r), now)
    ensures IsRun(p, r')
    ensures ActedAs(Last(r), Last(r'), n,
                    AfterHeartbeat(n, p.lease, Some(Last(r).row), Last(r).local[n], now, commit))
  {
    var w := Last(r);
    r' := Then(p, r, HbCapture(n, now));
    if commit.RolledBack? {
      r' := Then(p, r', HbAbort(n));
    } else {
      r' := Then(p, r', HbCheck(n));
      if w.local[n].isLeader {
        r' := Then(p, r', HbExtend(n, commit.Committed?));
        if w.row.owner != Some(n) && commit.Committed? {
          r' := FinishHeartbeat(p, r', n);
        }
      }
    }
  }

  /** From a committed elect tick: the flag change and, if it changed anything, the callback. */
  lemma FinishElect(p: Params, r: Run, n: NodeId) returns (r': Run)
    requires IsRun(p, r) && n in Last(r).local && Last(r).local[n].el.ElDone?
    ensures IsRun(p, r')
    ensures Last(r').row == Last(r).row && Last(r').clock == Last(r).clock
    ensures var l := Last(r).local[n];
            Last(r').local == Last(r).local[n := Announced(l, n, l.el.gained).(el := ElIdle)]
  {
    r' := Then(p, r, ElFlag(n));
    if Last(r').local[n].el.ElCalling? {
      r' := Then(p, r', ElCallback(n));
    }
  }

  /** Reading the row and judging it. */
  lemma JudgesRow(p: Params, r: Run, n: NodeId, now: Time) returns (r': Run)
    requires IsRun(p, r) && Idle(Last(r), n) && ClockReading(p, Last(r), now)
    ensures IsRun(p, r')
    ensures Last(r').row == Last(r).row && Last(r').clock == Last(r).clock
    ensures var l := Last(r).local[n];
            Last(r').local == Last(r).local[n := if ReadSaysExpired(Last(r).row, now)
                                                 then l.(el := ElCasing(now)) else Observed(l, n, Last(r).row)]
  {
    r' := Then(p, r, ElRead(n));
    r' := Then(p, r', ElDecide(n, now));
  }

  lemma ElectIsARun(p: Params, r: Run, n: NodeId, now: Time, commit: Commit) returns (r': Run)
    requires IsRun(p, r) && Idle(Last(r), n) && ClockReading(p, Last(r), now)
    ensures IsRun(p, r')
    ensures ActedAs(Last(r), Last(r'), n,
                    AfterElect(n, p.lease, Some(Last(r).row), Last(r).local[n], now, commit))
  {
    r' := JudgesRow(p, r, n, now);
    if ReadSaysExpired(Last(r).row, now) {
      r' := Then(p, r', if commit.RolledBack? then ElAbort(n) else ElCas(n, commit.Committed?));
      if Last(r').local[n].el.ElDone? {
        r' := FinishElect(p, r', n);
      }
    } else if Last(r').local[n].el.ElDone? {
      if commit.Committed? {
        r' := FinishElect(p, r', n);
      } else {
        r' := Then(p, r', ElAbort(n));
      }
    }
  }

  /**
   A dead leader's row is taken by the first elect tick of whatever node: once its lease has run out, also by the
   most backward clock, either somebody has been faster or the tick, unless it is rolled back, claims the row.
   */
  lemma TickReplacesDeadLeader(p: Params, r: Run, i: nat, dead: NodeId, n: NodeId, l: Local, now: Time, commit: Commit)
    requires IsRun(p, r) && i < |r.ws| && Silent(r, i, |r.steps|, dead) && r.ws[i].row.owner == Some(dead)
    requires Last(r).clock >= r.ws[i].clock + p.lease + 2 * p.skew
    requires ClockReading(p, Last(r), now) && commit != RolledBack
    ensures var row, o := Last(r).row, AfterElect(n, p.lease, Some(Last(r).row), l, now, commit);
            || row.epoch > r.ws[i].row.epoch
            || (o.row == Some(Row(Some(n), Some(now + p.lease), row.epoch + 1)) && (commit == Committed ==> o.local.isLeader))
  {
    InvHolds(p, r, i);
    DeadRow(p, r, i, |r.steps|, dead);
  }

  lemma StopIsARun(p: Params, r: Run, n: NodeId, commit: Commit) returns (r': Run)
    requires IsRun(p, r) && Idle(Last(r), n)
    ensures IsRun(p, r')
    ensures ActedAs(Last(r), Last(r'), n, AfterStop(n, Some(Last(r).row), Last(r).local[n], commit))
  {
    r' := Then(p, r, Lease.Stop(n, !commit.RolledBack?));
  }
}
