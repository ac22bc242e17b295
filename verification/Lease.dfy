/**
 The leader-election protocol: several nodes share one lease row, each runs a heartbeat tick
 and an elect tick, and a database commit, a local flag change and a callback are separate
 moments at which any other node may act.

 One `Step` is one such moment. Times are integers (nanoseconds). A node's clock may differ
 from the true clock by at most `skew`; `skew == 0` is the case of perfectly agreeing clocks.
 */
module Lease {
  import opened Options

  type NodeId = string
  type Time = int

  // The single row of table leader_lease.
  datatype Row = Row(owner: Option<NodeId>, until: Option<Time>, epoch: nat)

  const EMPTY_ROW := Row(None, None, 0)

  /** The expiry test of ElectTick on the row it has read. */
  predicate ReadSaysExpired(row: Row, now: Time) {
    row.owner.None? || row.until.None? || row.until.value <= now
  }

  /** The WHERE clause of the compare-and-set; a comparison with NULL does not match. */
  predicate CasMatches(row: Row, now: Time) {
    row.owner.None? || (row.until.Some? && row.until.value <= now)
  }

  function Claim(row: Row, n: NodeId, until: Time): Row {
    Row(Some(n), Some(until), row.epoch + 1)
  }

  function Extend(row: Row, until: Time): Row {
    row.(until := Some(until))
  }

  function Release(row: Row): Row {
    row.(owner := None, until := None)
  }

  // Where a node's heartbeat tick stands.
  datatype Heartbeat =
    | HbIdle
    | HbCaptured(now: Time)   // the clock is read, the transaction has not looked at the flag
    | HbExtending(now: Time)  // the flag was set; the UPDATE has not been executed
    | HbLost                  // committed with zero rows; the flag is not cleared yet
    | HbCalling               // flag cleared, OnLost not called yet

  // Where a node's elect tick stands.
  datatype Elect =
    | ElIdle
    | ElHasRow(row: Row)      // the row is read, the clock is not
    | ElCasing(now: Time)     // judged expired; the UPDATE has not been executed
    | ElDone(gained: bool)    // committed; the flag is not changed yet
    | ElCalling(gained: bool) // flag changed, callback not called yet

  // What one process holds in memory. `gate` is the scheduler's leader switch.
  datatype Local = Local(isLeader: bool, leaderID: Option<NodeId>, gate: bool, hb: Heartbeat, el: Elect)

  const FRESH := Local(false, None, false, HbIdle, ElIdle)

  /** The flag change that setLeaderState makes. */
  function WithFlag(l: Local, n: NodeId, value: bool): Local {
    if value == l.isLeader then l
    else l.(isLeader := value, leaderID := if value then Some(n) else None)
  }

  /** The memory ElectTick leaves behind when it finds the lease `seen` unexpired. */
  function Observed(l: Local, n: NodeId, seen: Row): Local {
    l.(leaderID := seen.owner, el := if l.isLeader && seen.owner != Some(n) then ElDone(false) else ElIdle)
  }

  // History: the last lease a node wrote, the epoch it won with it, and when it stopped
  // being the owner.
  datatype Grant = Grant(until: Time, epoch: nat, lostAt: Option<Time>)

  datatype World = World(row: Row, clock: Time, local: map<NodeId, Local>,
                         grants: map<NodeId, Grant>, log: seq<NodeId>)

  datatype Params = Params(lease: Time, skew: nat)

  datatype Step =
    | Tick(d: nat)
    | Restart(n: NodeId)
    | HbCapture(n: NodeId, now: Time)
    | HbCheck(n: NodeId)
    | HbExtend(n: NodeId, acked: bool)
    | HbFlag(n: NodeId)
    | HbCallback(n: NodeId)
    | HbAbort(n: NodeId)
    | ElRead(n: NodeId)
    | ElDecide(n: NodeId, now: Time)
    | ElCas(n: NodeId, acked: bool)
    | ElFlag(n: NodeId)
    | ElCallback(n: NodeId)
    | ElAbort(n: NodeId)
    | Stop(n: NodeId, committed: bool)

  predicate ClockReading(p: Params, w: World, now: Time) {
    w.clock - p.skew <= now <= w.clock + p.skew
  }

  predicate Enabled(p: Params, w: World, s: Step) {
    match s
    case Tick(_) => true
    case Restart(_) => true
    case HbCapture(n, now) => n in w.local && w.local[n].hb.HbIdle? && ClockReading(p, w, now)
    case HbCheck(n) => n in w.local && w.local[n].hb.HbCaptured?
    case HbExtend(n, _) => n in w.local && w.local[n].hb.HbExtending?
    case HbFlag(n) => n in w.local && w.local[n].hb.HbLost?
    case HbCallback(n) => n in w.local && w.local[n].hb.HbCalling?
    case HbAbort(n) => n in w.local && (w.local[n].hb.HbCaptured? || w.local[n].hb.HbExtending?)
    case ElRead(n) => n in w.local && w.local[n].el.ElIdle?
    case ElDecide(n, now) => n in w.local && w.local[n].el.ElHasRow? && ClockReading(p, w, now)
    case ElCas(n, _) => n in w.local && w.local[n].el.ElCasing?
    case ElFlag(n) => n in w.local && w.local[n].el.ElDone?
    case ElCallback(n) => n in w.local && w.local[n].el.ElCalling?
    case ElAbort(n) => n in w.local && (w.local[n].el.ElHasRow? || w.local[n].el.ElCasing? || w.local[n].el == ElDone(false))
    case Stop(n, _) => n in w.local
  }

  function SetLocal(w: World, n: NodeId, l: Local): World {
    w.(local := w.local[n := l])
  }

  /** The previous owner, if any, loses the row at the current time. */
  function Dispossess(w: World): map<NodeId, Grant> {
    if w.row.owner.Some? && w.row.owner.value in w.grants
    then var n := w.row.owner.value; w.grants[n := w.grants[n].(lostAt := Some(w.clock))]
    else w.grants
  }

  function DoExtend(p: Params, w: World, n: NodeId, acked: bool): World
    requires n in w.local && w.local[n].hb.HbExtending?
  {
    var l := w.local[n];
    var until := l.hb.now + p.lease;
    if w.row.owner == Some(n) then
      var g := if n in w.grants then w.grants[n].(until := until) else Grant(until, w.row.epoch, None);
      SetLocal(w, n, l.(hb := HbIdle)).(row := Extend(w.row, until), grants := w.grants[n := g])
    else
      SetLocal(w, n, l.(hb := if acked then HbLost else HbIdle))
  }

  function DoCas(p: Params, w: World, n: NodeId, acked: bool): World
    requires n in w.local && w.local[n].el.ElCasing?
  {
    var l := w.local[n];
    var now := l.el.now;
    if CasMatches(w.row, now) then
      var until := now + p.lease;
      SetLocal(w, n, l.(el := if acked then ElDone(true) else ElIdle)).(
        row := Claim(w.row, n, until),
        grants := Dispossess(w)[n := Grant(until, w.row.epoch + 1, None)],
        log := w.log + [n])
    else
      SetLocal(w, n, l.(el := ElIdle))
  }

  function DoStop(w: World, n: NodeId, committed: bool): World
    requires n in w.local
  {
    var l := w.local[n];
    if !l.isLeader then w
    else
      var w' := SetLocal(w, n, l.(isLeader := false, leaderID := None));
      if committed && w.row.owner == Some(n)
      then w'.(row := Release(w.row), grants := Dispossess(w))
      else w'
  }

  function Next(p: Params, w: World, s: Step): World
    requires Enabled(p, w, s)
  {
    match s
    case Tick(d) => w.(clock := w.clock + d)
    case Restart(n) => SetLocal(w, n, FRESH)
    case HbCapture(n, now) => SetLocal(w, n, w.local[n].(hb := HbCaptured(now)))
    case HbCheck(n) =>
      var l := w.local[n];
      SetLocal(w, n, l.(hb := if l.isLeader then HbExtending(l.hb.now) else HbIdle))
    case HbExtend(n, acked) => DoExtend(p, w, n, acked)
    case HbFlag(n) =>
      var l := w.local[n];
      SetLocal(w, n, WithFlag(l, n, false).(hb := if l.isLeader then HbCalling else HbIdle))
    case HbCallback(n) => SetLocal(w, n, w.local[n].(gate := false, hb := HbIdle))
    case HbAbort(n) => SetLocal(w, n, w.local[n].(hb := HbIdle))
    case ElRead(n) => SetLocal(w, n, w.local[n].(el := ElHasRow(w.row)))
    case ElDecide(n, now) =>
      var l := w.local[n];
      SetLocal(w, n, if ReadSaysExpired(l.el.row, now) then l.(el := ElCasing(now)) else Observed(l, n, l.el.row))
    case ElCas(n, acked) => DoCas(p, w, n, acked)
    case ElFlag(n) =>
      var l := w.local[n];
      var v := l.el.gained;
      SetLocal(w, n, WithFlag(l, n, v).(el := if v != l.isLeader then ElCalling(v) else ElIdle))
    case ElCallback(n) => SetLocal(w, n, w.local[n].(gate := w.local[n].el.gained, el := ElIdle))
    case ElAbort(n) => SetLocal(w, n, w.local[n].(el := ElIdle))
    case Stop(n, committed) => DoStop(w, n, committed)
  }

  // A run: the worlds passed through and the step taken from each.
  datatype Run = Run(ws: seq<World>, steps: seq<Step>)

  ghost predicate Initial(w: World) {
    w.row == EMPTY_ROW && w.local == map[] && w.grants == map[] && w.log == []
  }

  ghost predicate Follows(p: Params, r: Run) {
    && |r.ws| == |r.steps| + 1
    && forall i :: 0 <= i < |r.steps| ==> Enabled(p, r.ws[i], r.steps[i]) && r.ws[i + 1] == Next(p, r.ws[i], r.steps[i])
  }

  /**
   A shutdown that gives an unexpired row back while the same node still has the gained lease to
   announce. `LeaseTheorems.SafetyKeptExactly` shows that no other step endangers safety.
   */
  predicate StopRaces(p: Params, w: World, s: Step) {
    && s.Stop? && s.committed && s.n in w.local && w.local[s.n].isLeader && w.local[s.n].el == ElDone(true)
    && w.row.owner == Some(s.n) && w.row.until.Some? && w.row.until.value > w.clock + p.skew
  }

  /** A run of the protocol from start-up, in which no Stop gives back a lease that is about to be announced. */
  ghost predicate IsRun(p: Params, r: Run) {
    && Follows(p, r) && Initial(r.ws[0])
    && forall i :: 0 <= i < |r.steps| ==> !StopRaces(p, r.ws[i], r.steps[i])
  }

  /** The node acts as leader, or is about to. */
  predicate Believes(w: World, n: NodeId) {
    n in w.local && (w.local[n].isLeader || w.local[n].el == ElDone(true))
  }

  // ----- the inductive invariant -----

  ghost predicate RowInv(p: Params, w: World) {
    && (w.row.owner.None? <==> w.row.until.None?)
    && w.row.epoch == |w.log|
    && (w.row.until.Some? ==> w.row.until.value <= w.clock + p.skew + p.lease)
    && (w.row.owner.Some? ==>
          var n := w.row.owner.value;
          n in w.grants && w.grants[n] == Grant(w.row.until.value, w.row.epoch, None))
  }

  ghost predicate GrantInv(p: Params, w: World, n: NodeId, g: Grant) {
    && 1 <= g.epoch <= |w.log| && w.log[g.epoch - 1] == n
    && (g.lostAt.None? <==> w.row.owner == Some(n))
    && (g.lostAt.Some? ==> g.lostAt.value <= w.clock)
  }

  ghost predicate LocalInv(p: Params, w: World, n: NodeId, l: Local) {
    && ((l.isLeader || l.el == ElDone(true)) ==>
          n in w.grants && (w.grants[n].lostAt.Some? ==> w.grants[n].until <= w.grants[n].lostAt.value + p.skew))
    && (l.hb.HbCaptured? || l.hb.HbExtending? ==> l.hb.now <= w.clock + p.skew)
    && (l.el.ElCasing? ==> l.el.now <= w.clock + p.skew)
  }

  ghost predicate Inv(p: Params, w: World) {
    && RowInv(p, w)
    && (forall n :: n in w.grants ==> GrantInv(p, w, n, w.grants[n]))
    && (forall n :: n in w.local ==> LocalInv(p, w, n, w.local[n]))
  }

  /** Every step but the three that write the row keeps the row and the grants. */
  predicate WritesRow(s: Step) {
    s.HbExtend? || s.ElCas? || s.Stop?
  }

  lemma InvLocalStep(p: Params, w: World, s: Step)
    requires Inv(p, w) && Enabled(p, w, s) && !WritesRow(s)
    ensures Inv(p, Next(p, w, s))
  {
    var w' := Next(p, w, s);
    assert w'.row == w.row && w'.grants == w.grants && w'.log == w.log && w'.clock >= w.clock;
    forall n | n in w'.local
      ensures LocalInv(p, w', n, w'.local[n])
    {
      if n in w.local {
        assert LocalInv(p, w, n, w.local[n]);
      }
    }
  }

  lemma ExtendGrant(p: Params, w: World, n: NodeId, acked: bool, m: NodeId)
    requires RowInv(p, w) && n in w.local && w.local[n].hb.HbExtending? && LocalInv(p, w, n, w.local[n])
    requires m in w.grants ==> GrantInv(p, w, m, w.grants[m])
    ensures var w' := DoExtend(p, w, n, acked); m in w'.grants ==> GrantInv(p, w', m, w'.grants[m])
  {
  }

  lemma ExtendLocal(p: Params, w: World, n: NodeId, acked: bool, m: NodeId)
    requires RowInv(p, w) && n in w.local && w.local[n].hb.HbExtending? && m in w.local && LocalInv(p, w, m, w.local[m])
    requires m in w.grants ==> GrantInv(p, w, m, w.grants[m])
    ensures var w' := DoExtend(p, w, n, acked); m in w'.local && LocalInv(p, w', m, w'.local[m])
  {
  }

  lemma InvExtend(p: Params, w: World, n: NodeId, acked: bool)
    requires Inv(p, w) && n in w.local && w.local[n].hb.HbExtending?
    ensures Inv(p, DoExtend(p, w, n, acked))
  {
    var w' := DoExtend(p, w, n, acked);
    assert LocalInv(p, w, n, w.local[n]);
    forall m | m in w'.grants
      ensures GrantInv(p, w', m, w'.grants[m])
    {
      ExtendGrant(p, w, n, acked, m);
    }
    forall m | m in w'.local
      ensures LocalInv(p, w', m, w'.local[m])
    {
      ExtendLocal(p, w, n, acked, m);
    }
  }

  lemma CasLocal(p: Params, w: World, n: NodeId, acked: bool, m: NodeId)
    requires RowInv(p, w) && n in w.local && w.local[n].el.ElCasing? && LocalInv(p, w, n, w.local[n])
    requires m in w.local && LocalInv(p, w, m, w.local[m])
    requires m in w.grants ==> GrantInv(p, w, m, w.grants[m])
    ensures var w' := DoCas(p, w, n, acked); m in w'.local && LocalInv(p, w', m, w'.local[m])
  {
  }

  lemma CasGrant(p: Params, w: World, n: NodeId, acked: bool, m: NodeId)
    requires RowInv(p, w) && n in w.local && w.local[n].el.ElCasing? && LocalInv(p, w, n, w.local[n])
    requires m in w.grants ==> GrantInv(p, w, m, w.grants[m])
    ensures var w' := DoCas(p, w, n, acked); m in w'.grants ==> GrantInv(p, w', m, w'.grants[m])
  {
  }

  lemma InvCas(p: Params, w: World, n: NodeId, acked: bool)
    requires Inv(p, w) && n in w.local && w.local[n].el.ElCasing?
    ensures Inv(p, DoCas(p, w, n, acked))
  {
    var w' := DoCas(p, w, n, acked);
    assert LocalInv(p, w, n, w.local[n]);
    forall m | m in w'.grants
      ensures GrantInv(p, w', m, w'.grants[m])
    {
      CasGrant(p, w, n, acked, m);
    }
    forall m | m in w'.local
      ensures LocalInv(p, w', m, w'.local[m])
    {
      CasLocal(p, w, n, acked, m);
    }
  }

  lemma InvStop(p: Params, w: World, n: NodeId, committed: bool)
    requires Inv(p, w) && n in w.local && !StopRaces(p, w, Stop(n, committed))
    ensures Inv(p, DoStop(w, n, committed))
  {
    var w' := DoStop(w, n, committed);
    forall m | m in w'.grants
      ensures GrantInv(p, w', m, w'.grants[m])
    {
      assert GrantInv(p, w, m, w.grants[m]);
    }
    forall m | m in w'.local
      ensures LocalInv(p, w', m, w'.local[m])
    {
      assert LocalInv(p, w, m, w.local[m]);
    }
  }

  lemma InvNext(p: Params, w: World, s: Step)
    requires Inv(p, w) && Enabled(p, w, s) && !StopRaces(p, w, s)
    ensures Inv(p, Next(p, w, s))
  {
    match s {
      case HbExtend(n, acked) => InvExtend(p, w, n, acked);
      case ElCas(n, acked) => InvCas(p, w, n, acked);
      case Stop(n, committed) => InvStop(p, w, n, committed);
      case _ => InvLocalStep(p, w, s);
    }
  }

  lemma {:induction false} InvHolds(p: Params, r: Run, i: nat)
    requires IsRun(p, r) && i < |r.ws|
    ensures Inv(p, r.ws[i])
  {
    if i > 0 {
      InvHolds(p, r, i - 1);
      InvNext(p, r.ws[i - 1], r.steps[i - 1]);
    }
  }

  // ----- prolonging a run -----

  function Last(r: Run): World
    requires |r.ws| > 0
  {
    r.ws[|r.ws| - 1]
  }

  lemma Then(p: Params, r: Run, s: Step) returns (r': Run)
    requires Follows(p, r) && Initial(r.ws[0]) && Enabled(p, Last(r), s)
    ensures Follows(p, r') && Initial(r'.ws[0])
    ensures r'.ws == r.ws + [Last(r')] && r'.steps == r.steps + [s] && Last(r') == Next(p, Last(r), s)
    ensures IsRun(p, r) && !StopRaces(p, Last(r), s) ==> IsRun(p, r')
  {
    r' := Run(r.ws + [Next(p, Last(r), s)], r.steps + [s]);
    assert r'.ws[0] == r.ws[0];
  }
}
