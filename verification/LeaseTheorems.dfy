/** What every run of the election protocol guarantees, and the two races that limit it. */
module LeaseTheorems {
  import opened Options
  import opened Lease

  // ----- safety -----

  /** A node that acts as leader without owning the row holds a lease that has run out. */
  lemma LeaseSafety(p: Params, r: Run, i: nat, n: NodeId)
    requires IsRun(p, r) && i < |r.ws|
    requires Believes(r.ws[i], n) && r.ws[i].row.owner != Some(n)
    ensures n in r.ws[i].grants && r.ws[i].grants[n].until <= r.ws[i].clock + p.skew
  {
    InvHolds(p, r, i);
    assert LocalInv(p, r.ws[i], n, r.ws[i].local[n]);
    assert GrantInv(p, r.ws[i], n, r.ws[i].grants[n]);
  }

  /** The conclusion of LeaseSafety, for all nodes of a world. */
  ghost predicate LeaseSafe(p: Params, w: World) {
    forall n :: Believes(w, n) && w.row.owner != Some(n) ==> n in w.grants && w.grants[n].until <= w.clock + p.skew
  }

  /** From a world that meets the invariant a step keeps safety exactly if it is not the one race of a shutdown. */
  lemma SafetyKeptExactly(p: Params, w: World, s: Step)
    requires Inv(p, w) && Enabled(p, w, s)
    ensures LeaseSafe(p, Next(p, w, s)) <==> !StopRaces(p, w, s)
  {
    var w' := Next(p, w, s);
    if StopRaces(p, w, s) {
      assert Believes(w', s.n) && w'.row.owner != Some(s.n) && w'.grants[s.n].until == w.row.until.value;
    } else {
      InvNext(p, w, s);
      forall n | Believes(w', n) && w'.row.owner != Some(n)
        ensures n in w'.grants && w'.grants[n].until <= w'.clock + p.skew
      {
        assert LocalInv(p, w', n, w'.local[n]);
        assert GrantInv(p, w', n, w'.grants[n]);
      }
    }
  }

  /** With agreeing clocks, two nodes never both act as leader under an unexpired lease. */
  lemma AtMostOneUnexpiredLeader(p: Params, r: Run, i: nat, a: NodeId, b: NodeId)
    requires IsRun(p, r) && i < |r.ws| && p.skew == 0
    requires Believes(r.ws[i], a) && a in r.ws[i].grants && r.ws[i].grants[a].until > r.ws[i].clock
    requires Believes(r.ws[i], b) && b in r.ws[i].grants && r.ws[i].grants[b].until > r.ws[i].clock
    ensures a == b && r.ws[i].row.owner == Some(a)
  {
    if r.ws[i].row.owner != Some(a) {
      LeaseSafety(p, r, i, a);
    }
    if r.ws[i].row.owner != Some(b) {
      LeaseSafety(p, r, i, b);
    }
  }

  /** The node acts as leader and its own clock, reading `now`, says its lease still runs. */
  predicate LeadsByOwnClock(p: Params, w: World, n: NodeId, now: Time) {
    Believes(w, n) && ClockReading(p, w, now) && n in w.grants && now < w.grants[n].until
  }

  ghost predicate NeverOwns(r: Run, i: nat, j: nat, n: NodeId)
    requires i <= j < |r.ws|
  {
    forall k :: i <= k <= j ==> r.ws[k].row.owner != Some(n)
  }

  /** The grant of a node does not change while others own the row. */
  lemma {:induction false} GrantFrozen(p: Params, r: Run, i: nat, j: nat, n: NodeId)
    requires IsRun(p, r) && i <= j < |r.ws| && NeverOwns(r, i, j, n) && n in r.ws[i].grants
    ensures n in r.ws[j].grants && r.ws[j].grants[n] == r.ws[i].grants[n]
  {
    if i < j {
      GrantFrozen(p, r, i, j - 1, n);
      var w := r.ws[j - 1];
      assert r.ws[j] == Next(p, w, r.steps[j - 1]);
      assert w.row.owner != Some(n) && r.ws[j].row.owner != Some(n);
    }
  }

  /**
   Two nodes that both lead by their own clocks, at two moments of a run that are `2 * skew` or more
   apart, have each owned the row in between: nothing but a row that changes hands makes it last.
   */
  lemma SkewOverlap(p: Params, r: Run, i: nat, j: nat, a: NodeId, b: NodeId,
                    aNow: Time, bNow: Time, aLater: Time, bLater: Time)
    requires IsRun(p, r) && i <= j < |r.ws| && a != b
    requires LeadsByOwnClock(p, r.ws[i], a, aNow) && LeadsByOwnClock(p, r.ws[i], b, bNow)
    requires LeadsByOwnClock(p, r.ws[j], a, aLater) && LeadsByOwnClock(p, r.ws[j], b, bLater)
    requires r.ws[j].clock - r.ws[i].clock >= 2 * p.skew
    ensures !NeverOwns(r, i, j, a) && !NeverOwns(r, i, j, b)
  {
    if NeverOwns(r, i, j, a) {
      LeadsOnAfterLoss(p, r, i, j, a, aLater);
    }
    if NeverOwns(r, i, j, b) {
      LeadsOnAfterLoss(p, r, i, j, b, bLater);
    }
  }

  lemma LeadsOnAfterLoss(p: Params, r: Run, i: nat, j: nat, n: NodeId, later: Time)
    requires IsRun(p, r) && i <= j < |r.ws| && NeverOwns(r, i, j, n)
    requires n in r.ws[i].grants && LeadsByOwnClock(p, r.ws[j], n, later)
    ensures r.ws[j].clock - r.ws[i].clock < 2 * p.skew
  {
    InvHolds(p, r, i);
    InvHolds(p, r, j);
    GrantFrozen(p, r, i, j, n);
    assert GrantInv(p, r.ws[i], n, r.ws[i].grants[n]);
    assert LocalInv(p, r.ws[j], n, r.ws[j].local[n]);
  }

  /** At every moment one of two distinct believers is not the owner. */
  lemma OverlapHasNonOwner(p: Params, r: Run, i: nat, a: NodeId, b: NodeId)
    requires IsRun(p, r) && i < |r.ws| && a != b
    requires Believes(r.ws[i], a) && Believes(r.ws[i], b)
    ensures exists n :: (n == a || n == b) && r.ws[i].row.owner != Some(n)
                        && n in r.ws[i].grants && r.ws[i].grants[n].until <= r.ws[i].clock + p.skew
  {
    if r.ws[i].row.owner != Some(a) {
      LeaseSafety(p, r, i, a);
    } else {
      LeaseSafety(p, r, i, b);
    }
  }

  // ----- the epoch as a fencing token -----

  predicate Acquires(w: World, s: Step) {
    s.ElCas? && s.n in w.local && w.local[s.n].el.ElCasing? && CasMatches(w.row, w.local[s.n].el.now)
  }

  ghost function Acquisitions(r: Run, j: nat): nat
    requires j <= |r.steps| <= |r.ws|
  {
    if j == 0 then 0 else Acquisitions(r, j - 1) + if Acquires(r.ws[j - 1], r.steps[j - 1]) then 1 else 0
  }

  lemma {:induction false} EpochCountsAcquisitions(p: Params, r: Run, j: nat)
    requires IsRun(p, r) && j < |r.ws|
    ensures r.ws[j].row.epoch == Acquisitions(r, j)
  {
    if j > 0 {
      EpochCountsAcquisitions(p, r, j - 1);
      assert r.ws[j] == Next(p, r.ws[j - 1], r.steps[j - 1]);
    }
  }

  lemma {:induction false} LogGrows(p: Params, r: Run, i: nat, j: nat)
    requires IsRun(p, r) && i <= j < |r.ws|
    ensures r.ws[i].log <= r.ws[j].log
  {
    if i < j {
      LogGrows(p, r, i, j - 1);
      assert r.ws[j] == Next(p, r.ws[j - 1], r.steps[j - 1]);
    }
  }

  /** No epoch is ever owned by two nodes, and a later owner never has a smaller epoch. */
  lemma EpochHasOneOwner(p: Params, r: Run, i: nat, j: nat)
    requires IsRun(p, r) && i <= j < |r.ws|
    requires r.ws[i].row.owner.Some? && r.ws[j].row.owner.Some?
    ensures r.ws[i].row.epoch <= r.ws[j].row.epoch
    ensures r.ws[i].row.owner != r.ws[j].row.owner ==> r.ws[i].row.epoch < r.ws[j].row.epoch
  {
    InvHolds(p, r, i);
    InvHolds(p, r, j);
    LogGrows(p, r, i, j);
    var a, b := r.ws[i].row.owner.value, r.ws[j].row.owner.value;
    assert GrantInv(p, r.ws[i], a, r.ws[i].grants[a]);
    assert GrantInv(p, r.ws[j], b, r.ws[j].grants[b]);
  }

  /** Two nodes that both act as leader hold different epochs, and the row owner the larger one. */
  lemma BelieversAreFenced(p: Params, r: Run, i: nat, a: NodeId, b: NodeId)
    requires IsRun(p, r) && i < |r.ws| && a != b
    requires Believes(r.ws[i], a) && Believes(r.ws[i], b)
    ensures a in r.ws[i].grants && b in r.ws[i].grants
    ensures r.ws[i].grants[a].epoch != r.ws[i].grants[b].epoch
    ensures r.ws[i].row.owner == Some(a) ==> r.ws[i].grants[a].epoch > r.ws[i].grants[b].epoch
  {
    InvHolds(p, r, i);
    assert LocalInv(p, r.ws[i], a, r.ws[i].local[a]);
    assert LocalInv(p, r.ws[i], b, r.ws[i].local[b]);
    assert GrantInv(p, r.ws[i], a, r.ws[i].grants[a]);
    assert GrantInv(p, r.ws[i], b, r.ws[i].grants[b]);
  }

  /** In every reachable row the test on the read row and the WHERE clause agree at all times. */
  lemma ReadAgreesWithCas(p: Params, r: Run, i: nat, now: Time)
    requires IsRun(p, r) && i < |r.ws|
    ensures ReadSaysExpired(r.ws[i].row, now) <==> CasMatches(r.ws[i].row, now)
    ensures r.ws[i].row.owner.None? <==> r.ws[i].row.until.None?
  {
    InvHolds(p, r, i);
  }

  /** They disagree exactly on a row with an owner and no expiry, which no statement writes. */
  lemma AgreementNeedsExpiry(row: Row)
    ensures (forall now :: ReadSaysExpired(row, now) <==> CasMatches(row, now))
            <==> (row.owner.None? || row.until.Some?)
  {
    if row.owner.Some? && row.until.None? {
      assert ReadSaysExpired(row, 0) && !CasMatches(row, 0);
    }
  }

  // ----- takeover and stability -----

  /** No lease ever reaches further than one lease duration beyond the clock. */
  lemma LeaseIsBounded(p: Params, r: Run, i: nat, now: Time)
    requires IsRun(p, r) && i < |r.ws|
    ensures r.ws[i].row.until.Some? ==> r.ws[i].row.until.value <= r.ws[i].clock + p.skew + p.lease
    ensures now >= r.ws[i].clock + p.skew + p.lease ==> CasMatches(r.ws[i].row, now)
  {
    InvHolds(p, r, i);
  }

  predicate ActsFor(s: Step, n: NodeId) {
    !s.Tick? && s.n == n
  }

  predicate TouchesElect(s: Step, n: NodeId) {
    (s.ElRead? || s.ElDecide? || s.ElCas? || s.ElFlag? || s.ElCallback? || s.ElAbort? || s.Restart?) && s.n == n
  }

  ghost predicate Silent(r: Run, i: nat, j: nat, n: NodeId)
    requires i <= j <= |r.steps|
  {
    forall k :: i <= k < j ==> !ActsFor(r.steps[k], n)
  }

  /** While its owner is silent the row only changes by a new acquisition. */
  lemma {:induction false} DeadRow(p: Params, r: Run, i: nat, j: nat, dead: NodeId)
    requires IsRun(p, r) && i <= j < |r.ws| && Silent(r, i, j, dead)
    requires r.ws[i].row.owner == Some(dead)
    ensures r.ws[j].row == r.ws[i].row || r.ws[j].row.epoch > r.ws[i].row.epoch
    ensures r.ws[j].clock >= r.ws[i].clock
  {
    if i < j {
      DeadRow(p, r, i, j - 1, dead);
      assert r.ws[j] == Next(p, r.ws[j - 1], r.steps[j - 1]);
      assert !ActsFor(r.steps[j - 1], dead);
    }
  }

  lemma ElectStepWaits(p: Params, r: Run, i: nat, n: NodeId)
    requires IsRun(p, r) && i < |r.steps| && n in r.ws[i].local && !TouchesElect(r.steps[i], n)
    ensures n in r.ws[i + 1].local && r.ws[i + 1].local[n].el == r.ws[i].local[n].el
  {
    assert Enabled(p, r.ws[i], r.steps[i]) && r.ws[i + 1] == Next(p, r.ws[i], r.steps[i]);
  }

  lemma {:induction false} ElectWaits(p: Params, r: Run, a: nat, b: nat, n: NodeId)
    requires IsRun(p, r) && a <= b < |r.ws| && n in r.ws[a].local
    requires forall k :: a <= k < b ==> !TouchesElect(r.steps[k], n)
    ensures n in r.ws[b].local && r.ws[b].local[n].el == r.ws[a].local[n].el
  {
    if a < b {
      ElectWaits(p, r, a, b - 1, n);
      ElectStepWaits(p, r, b - 1, n);
    }
  }

  /**
   A dead leader is replaced. Once one lease duration (plus the skew) has passed since its
   last moment, the first elect tick any node gets to finish ends with a new epoch: the tick
   reads the row at step `a`, judges it at step `b` and, unless somebody was faster, goes on
   to the compare-and-set; when that is executed, at step `c`, the row has changed hands.
   */
  lemma DeadLeaderIsReplaced(p: Params, r: Run, i: nat, a: nat, b: nat, c: nat, dead: NodeId, m: NodeId)
    requires IsRun(p, r) && i <= a < b < c < |r.steps| && Silent(r, i, c + 1, dead)
    requires r.ws[i].row.owner == Some(dead)
    requires r.steps[a] == ElRead(m) && r.steps[b].ElDecide? && r.steps[b].n == m
    requires forall k :: a < k < b || b < k < c ==> !TouchesElect(r.steps[k], m)
    requires r.ws[b].clock >= r.ws[i].clock + p.lease + 2 * p.skew
    ensures r.ws[b + 1].row.epoch > r.ws[i].row.epoch || r.ws[b + 1].local[m].el.ElCasing?
    ensures r.steps[c].ElCas? && r.steps[c].n == m ==> r.ws[c + 1].row.epoch > r.ws[i].row.epoch
  {
    InvHolds(p, r, i);
    assert r.ws[a + 1] == Next(p, r.ws[a], r.steps[a]);
    assert r.ws[b + 1] == Next(p, r.ws[b], r.steps[b]);
    assert r.ws[c + 1] == Next(p, r.ws[c], r.steps[c]);
    ElectWaits(p, r, a + 1, b, m);
    DeadRow(p, r, i, a, dead);
    DeadRow(p, r, i, b, dead);
    DeadRow(p, r, i, c, dead);
    DeadRow(p, r, i, b + 1, dead);
    LogGrows(p, r, a, b);
    EpochGrows(p, r, a, b + 1);
    EpochGrows(p, r, b, c);
    if r.ws[b + 1].row.epoch == r.ws[i].row.epoch {
      assert r.ws[a].row == r.ws[i].row;
      ElectWaits(p, r, b + 1, c, m);
    } else {
      EpochGrows(p, r, b + 1, c + 1);
    }
  }

  /** A whole elect tick of the node: it reads at `a`, judges at `b` and, if need be, executes its UPDATE at `c`. */
  ghost predicate ElectTick(r: Run, m: NodeId, a: nat, b: nat, c: nat)
    requires a < b < c < |r.steps| < |r.ws|
  {
    && r.steps[a] == ElRead(m) && r.steps[b].ElDecide? && r.steps[b].n == m
    && (forall k :: a < k < b || b < k < c ==> !TouchesElect(r.steps[k], m))
    && (m in r.ws[b + 1].local && r.ws[b + 1].local[m].el.ElCasing? ==> r.steps[c].ElCas? && r.steps[c].n == m)
  }

  /** Between the moments `i` and `j` the node runs a whole elect tick that begins at time `t` or later. */
  ghost predicate TicksSince(r: Run, m: NodeId, i: nat, j: nat, t: Time)
    requires i <= j <= |r.steps| < |r.ws|
  {
    exists a, b, c :: i <= a < b < c < j && t <= r.ws[a].clock && ElectTick(r, m, a, b, c)
  }

  /** Whoever waits for `period` sees the node run a whole elect tick. */
  ghost predicate ElectsEvery(r: Run, m: NodeId, i: nat, j: nat, period: nat)
    requires i <= j <= |r.steps| < |r.ws|
  {
    forall t: Time :: r.ws[i].clock <= t <= r.ws[j].clock - period ==> TicksSince(r, m, i, j, t)
  }

  /** So a dead leader is replaced within one lease, twice the skew, and one period of elect ticks. */
  lemma ReplacedInTime(p: Params, r: Run, i: nat, j: nat, dead: NodeId, m: NodeId, period: nat)
    requires IsRun(p, r) && i <= j <= |r.steps| && Silent(r, i, j, dead) && r.ws[i].row.owner == Some(dead)
    requires ElectsEvery(r, m, i, j, period) && p.lease >= 0
    requires r.ws[j].clock >= r.ws[i].clock + p.lease + 2 * p.skew + period
    ensures r.ws[j].row.epoch > r.ws[i].row.epoch
  {
    var t := r.ws[i].clock + p.lease + 2 * p.skew;
    assert TicksSince(r, m, i, j, t);
    var a, b, c :| i <= a < b < c < j && t <= r.ws[a].clock && ElectTick(r, m, a, b, c);
    ReplacedByTick(p, r, i, dead, m, a, b, c);
    EpochGrows(p, r, c + 1, j);
  }

  lemma ReplacedByTick(p: Params, r: Run, i: nat, dead: NodeId, m: NodeId, a: nat, b: nat, c: nat)
    requires IsRun(p, r) && i <= a < b < c < |r.steps| && Silent(r, i, c + 1, dead) && r.ws[i].row.owner == Some(dead)
    requires ElectTick(r, m, a, b, c) && r.ws[a].clock >= r.ws[i].clock + p.lease + 2 * p.skew
    ensures r.ws[c + 1].row.epoch > r.ws[i].row.epoch
  {
    ClockGrows(p, r, a, b);
    DeadLeaderIsReplaced(p, r, i, a, b, c, dead, m);
    EpochGrows(p, r, b + 1, c + 1);
    assert r.ws[b + 1] == Next(p, r.ws[b], r.steps[b]);
  }

  lemma {:induction false} ClockGrows(p: Params, r: Run, i: nat, j: nat)
    requires IsRun(p, r) && i <= j < |r.ws|
    ensures r.ws[i].clock <= r.ws[j].clock
  {
    if i < j {
      ClockGrows(p, r, i, j - 1);
      assert r.ws[j] == Next(p, r.ws[j - 1], r.steps[j - 1]);
    }
  }

  lemma EpochGrows(p: Params, r: Run, i: nat, j: nat)
    requires IsRun(p, r) && i <= j < |r.ws|
    ensures r.ws[i].row.epoch <= r.ws[j].row.epoch
  {
    InvHolds(p, r, i);
    InvHolds(p, r, j);
    LogGrows(p, r, i, j);
  }

  /** As long as its heartbeats commit in time, nobody else's compare-and-set ever matches. */
  lemma {:induction false} TimelyOwnerStays(p: Params, r: Run, i: nat, j: nat, n: NodeId)
    requires IsRun(p, r) && i <= j < |r.ws|
    requires r.ws[i].row.owner == Some(n)
    requires forall k :: i <= k < j ==> !(r.steps[k].Stop? && r.steps[k].n == n)
    requires forall k :: i <= k < j && r.ws[k].row.until.Some? ==> r.ws[k].row.until.value > r.ws[k].clock + p.skew
    ensures r.ws[j].row.owner == Some(n) && r.ws[j].row.epoch == r.ws[i].row.epoch
    ensures forall k :: i <= k < j ==> !Acquires(r.ws[k], r.steps[k])
  {
    if i < j {
      TimelyOwnerStays(p, r, i, j - 1, n);
      InvHolds(p, r, j - 1);
      var w, s := r.ws[j - 1], r.steps[j - 1];
      assert r.ws[j] == Next(p, w, s);
      if s.ElCas? {
        assert LocalInv(p, w, s.n, w.local[s.n]);
      }
    }
  }

  // ----- the scheduler's gate -----

  /** A loss that is announced is a loss: while its callback is outstanding the flag is off. */
  predicate LossStands(l: Local) {
    l.el == ElCalling(false) ==> !l.isLeader
  }

  lemma {:induction false} LossesStand(p: Params, r: Run, i: nat, n: NodeId)
    requires IsRun(p, r) && i < |r.ws| && n in r.ws[i].local
    ensures LossStands(r.ws[i].local[n])
  {
    if i > 0 {
      var w, s := r.ws[i - 1], r.steps[i - 1];
      assert r.ws[i] == Next(p, w, s);
      if n in w.local {
        LossesStand(p, r, i - 1, n);
      }
    }
  }

  /** The gate is where the flag says, or the one callback that is outstanding will put it there. */
  predicate InStep(l: Local) {
    if l.hb.HbCalling? && l.el.ElCalling? then true
    else if l.hb.HbCalling? then !l.isLeader
    else if l.el.ElCalling? then l.isLeader == l.el.gained
    else l.gate == l.isLeader
  }

  /**
   The steps that put gate and flag out of step: a shutdown of a leader, which clears the flag and
   calls nobody, and the first of two outstanding callbacks if the other one, which then has the last
   word, disagrees with the flag. The heartbeat's callback closes the gate, the elect tick's sets it
   to what that tick announces.
   */
  predicate Slips(w: World, s: Step, n: NodeId) {
    && n in w.local
    && var l := w.local[n];
       || (s.Stop? && s.n == n && l.isLeader && !l.hb.HbCalling?)
       || (s == HbCallback(n) && l.el.ElCalling? && l.isLeader != l.el.gained)
       || (s == ElCallback(n) && l.hb.HbCalling? && l.isLeader)
  }

  /** From a node in step, these steps lead out of step and no others do. */
  lemma GateSlipsExactly(p: Params, r: Run, i: nat, n: NodeId)
    requires IsRun(p, r) && i < |r.steps| && n in r.ws[i].local && InStep(r.ws[i].local[n])
    ensures n in r.ws[i + 1].local
    ensures InStep(r.ws[i + 1].local[n]) <==> !Slips(r.ws[i], r.steps[i], n)
  {
    LossesStand(p, r, i, n);
    GateStep(p, r.ws[i], r.steps[i], n);
  }

  lemma GateStep(p: Params, w: World, s: Step, n: NodeId)
    requires Enabled(p, w, s) && n in w.local && InStep(w.local[n]) && LossStands(w.local[n])
    ensures n in Next(p, w, s).local && (InStep(Next(p, w, s).local[n]) <==> !Slips(w, s, n))
  {
  }

  /** A node whose steps never slip keeps the gate equal to the flag whenever no callback is outstanding. */
  lemma {:induction false} GateFollowsFlag(p: Params, r: Run, i: nat, j: nat, n: NodeId)
    requires IsRun(p, r) && i <= j < |r.ws| && n in r.ws[i].local && InStep(r.ws[i].local[n])
    requires forall k :: i <= k < j ==> !Slips(r.ws[k], r.steps[k], n)
    ensures n in r.ws[j].local && InStep(r.ws[j].local[n])
  {
    if i < j {
      GateFollowsFlag(p, r, i, j - 1, n);
      GateSlipsExactly(p, r, j - 1, n);
    }
  }

  /**
   Two callbacks outstanding at once. If the heartbeat's comes last the gate ends off, if the elect
   tick's comes last it ends where that tick announces; so it ends equal to the flag exactly if the
   flag is off in the first case, and exactly if the flag is what was announced in the second.
   */
  lemma LastCallbackDecides(p: Params, w: World, n: NodeId)
    requires n in w.local && w.local[n].hb.HbCalling? && w.local[n].el.ElCalling?
    ensures var l, l' := w.local[n], Next(p, Next(p, w, ElCallback(n)), HbCallback(n)).local[n];
            l'.isLeader == l.isLeader && !l'.gate && (l'.gate == l'.isLeader <==> !l.isLeader)
    ensures var l, l' := w.local[n], Next(p, Next(p, w, HbCallback(n)), ElCallback(n)).local[n];
            l'.isLeader == l.isLeader && l'.gate == l.el.gained && (l'.gate == l'.isLeader <==> l.isLeader == l.el.gained)
  {
    assert Next(p, w, ElCallback(n)).local[n].hb.HbCalling? && Next(p, w, HbCallback(n)).local[n].el.ElCalling?;
  }

  /** A shutdown of a leader leaves the flag off and the gate as it was: out of step exactly if the gate was on. */
  lemma StopLeavesGate(p: Params, w: World, n: NodeId, committed: bool)
    requires Enabled(p, w, Stop(n, committed)) && w.local[n].isLeader
    ensures var l := Next(p, w, Stop(n, committed)).local[n];
            !l.isLeader && l.gate == w.local[n].gate && (l.gate != l.isLeader <==> w.local[n].gate)
  {
  }

  /** The next change of the flag, with no other callback outstanding, puts a node back in step. */
  lemma FlagChangeRestores(p: Params, w: World, s: Step, n: NodeId)
    requires Enabled(p, w, s) && n in w.local && Next(p, w, s).local[n].isLeader != w.local[n].isLeader
    requires (s == HbFlag(n) && !w.local[n].el.ElCalling?) || (s == ElFlag(n) && !w.local[n].hb.HbCalling?)
    ensures InStep(Next(p, w, s).local[n])
  {
  }
}
