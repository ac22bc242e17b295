/**
 How long two nodes can both lead, each by its own clock. For twice the skew or longer only if the row
 changes hands between them (`LeaseTheorems.SkewOverlap`). Whether it can depends on how long a statement
 may be under way: a lease that covers that delay and three times the skew prevents it, and nothing less does.
 */
module LeaseSkew {
  import opened Options
  import opened Lease
  import opened LeaseTheorems
  import opened LeaseRaces

  /** By some reading of its own clock the node leads under an unexpired lease. */
  predicate MayLead(p: Params, w: World, n: NodeId) {
    Believes(w, n) && n in w.grants && w.clock - p.skew < w.grants[n].until
  }

  lemma MayLeadByOwnClock(p: Params, w: World, n: NodeId)
    ensures MayLead(p, w, n) <==> exists now :: LeadsByOwnClock(p, w, n, now)
  {
    if MayLead(p, w, n) {
      assert LeadsByOwnClock(p, w, n, w.clock - p.skew);
    }
  }

  ghost predicate BothLead(p: Params, r: Run, i: nat, j: nat, a: NodeId, b: NodeId)
    requires i <= j < |r.ws|
  {
    forall k :: i <= k <= j ==> MayLead(p, r.ws[k], a) && MayLead(p, r.ws[k], b)
  }

  /** An UPDATE of the lease is executed at most `delay` after the time that was read for it. */
  predicate PromptStep(w: World, s: Step, delay: nat) {
    && (s.HbExtend? && s.n in w.local && w.local[s.n].hb.HbExtending? ==> w.clock <= w.local[s.n].hb.now + delay)
    && (s.ElCas? && s.n in w.local && w.local[s.n].el.ElCasing? ==> w.clock <= w.local[s.n].el.now + delay)
  }

  ghost predicate Prompt(r: Run, delay: nat) {
    |r.steps| <= |r.ws| && forall k :: 0 <= k < |r.steps| ==> PromptStep(r.ws[k], r.steps[k], delay)
  }

  /** A shutdown that gives the row back between the commit and the flag change of the same node's elect tick. */
  predicate StopsInTick(w: World, s: Step) {
    s.Stop? && s.committed && s.n in w.local && w.local[s.n].el == ElDone(true) && w.row.owner == Some(s.n)
  }

  ghost predicate NoStopInTick(r: Run, i: nat, j: nat)
    requires i <= j <= |r.steps| <= |r.ws|
  {
    forall k :: i <= k < j ==> !StopsInTick(r.ws[k], r.steps[k])
  }

  // ----- a lease that is long enough -----

  /** An owned row lasts long beyond the moment at which any other node has lost it. */
  ghost predicate Fresh(p: Params, w: World, delay: nat) {
    w.row.until.Some? ==>
      forall n :: n in w.grants && w.grants[n].lostAt.Some? ==>
        w.row.until.value >= w.grants[n].lostAt.value + p.lease - delay
  }

  lemma FreshNext(p: Params, w: World, s: Step, delay: nat)
    requires Inv(p, w) && Fresh(p, w, delay) && Enabled(p, w, s) && PromptStep(w, s, delay)
    ensures Fresh(p, Next(p, w, s), delay)
  {
    var w' := Next(p, w, s);
    if w'.row.until.Some? {
      forall n | n in w'.grants && w'.grants[n].lostAt.Some?
        ensures w'.row.until.value >= w'.grants[n].lostAt.value + p.lease - delay
      {
        if n in w.grants {
          assert GrantInv(p, w, n, w.grants[n]);
        }
      }
    }
  }

  lemma {:induction false} FreshHolds(p: Params, r: Run, i: nat, delay: nat)
    requires IsRun(p, r) && Prompt(r, delay) && i < |r.ws|
    ensures Fresh(p, r.ws[i], delay)
  {
    if i > 0 {
      FreshHolds(p, r, i - 1, delay);
      InvHolds(p, r, i - 1);
      FreshNext(p, r.ws[i - 1], r.steps[i - 1], delay);
    }
  }

  /** While a node leads without owning the row, nobody takes the row from its owner. */
  lemma NoTakeover(p: Params, r: Run, k: nat, n: NodeId, delay: nat)
    requires IsRun(p, r) && Prompt(r, delay) && k < |r.steps| && p.lease >= delay + 3 * p.skew
    requires MayLead(p, r.ws[k], n) && r.ws[k].row.owner.Some? && r.ws[k].row.owner != Some(n)
    ensures !Acquires(r.ws[k], r.steps[k])
  {
    var w, s := r.ws[k], r.steps[k];
    InvHolds(p, r, k);
    FreshHolds(p, r, k, delay);
    assert LocalInv(p, w, n, w.local[n]);
    assert GrantInv(p, w, n, w.grants[n]);
    if s.ElCas? && s.n in w.local {
      assert LocalInv(p, w, s.n, w.local[s.n]);
    }
  }

  /** Of two nodes that both lead, one that owns the row goes on owning it. */
  lemma {:induction false} OwnerStays(p: Params, r: Run, i: nat, j: nat, a: NodeId, b: NodeId, delay: nat)
    requires IsRun(p, r) && Prompt(r, delay) && i <= j < |r.ws| && p.lease >= delay + 3 * p.skew
    requires a != b && BothLead(p, r, i, j, a, b) && NoStopInTick(r, i, j) && r.ws[i].row.owner == Some(a)
    ensures r.ws[j].row.owner == Some(a)
  {
    if i < j {
      OwnerStays(p, r, i, j - 1, a, b, delay);
      assert MayLead(p, r.ws[j - 1], b) && MayLead(p, r.ws[j - 1], a) && MayLead(p, r.ws[j], a);
      assert !StopsInTick(r.ws[j - 1], r.steps[j - 1]);
      NoTakeover(p, r, j - 1, b, delay);
      assert r.ws[j] == Next(p, r.ws[j - 1], r.steps[j - 1]);
      OwnerKept(p, r.ws[j - 1], r.steps[j - 1], a);
    }
  }

  lemma OwnerKept(p: Params, w: World, s: Step, a: NodeId)
    requires Enabled(p, w, s) && !StopsInTick(w, s) && w.row.owner == Some(a) && !Acquires(w, s)
    requires MayLead(p, w, a) && MayLead(p, Next(p, w, s), a)
    ensures Next(p, w, s).row.owner == Some(a)
  {
  }

  /** With such a lease two nodes never both lead, each by its own clock, for twice the skew without a break. */
  lemma OverlapBound(p: Params, r: Run, i: nat, j: nat, a: NodeId, b: NodeId, delay: nat)
    requires IsRun(p, r) && Prompt(r, delay) && i <= j < |r.ws| && p.lease >= delay + 3 * p.skew
    requires a != b && BothLead(p, r, i, j, a, b) && NoStopInTick(r, i, j)
    ensures r.ws[j].clock - r.ws[i].clock < 2 * p.skew
  {
    if !NeverOwns(r, i, j, a) && !NeverOwns(r, i, j, b) {
      var k :| i <= k <= j && r.ws[k].row.owner == Some(a);
      var l :| i <= l <= j && r.ws[l].row.owner == Some(b);
      if k <= l {
        OwnerStays(p, r, k, l, a, b, delay);
      } else {
        OwnerStays(p, r, l, k, b, a, delay);
      }
    } else {
      MayLeadByOwnClock(p, r.ws[j], a);
      MayLeadByOwnClock(p, r.ws[j], b);
      assert MayLead(p, r.ws[i], a) && MayLead(p, r.ws[j], a) && MayLead(p, r.ws[j], b);
      if NeverOwns(r, i, j, a) {
        LeadsOnAfterLoss(p, r, i, j, a, r.ws[j].clock - p.skew);
      } else {
        LeadsOnAfterLoss(p, r, i, j, b, r.ws[j].clock - p.skew);
      }
    }
  }

  // ----- a lease that is too short -----

  ghost predicate PromptRun(p: Params, r: Run, delay: nat) {
    IsRun(p, r) && Prompt(r, delay) && NoStopInTick(r, 0, |r.steps|)
  }

  lemma PromptThen(p: Params, r: Run, delay: nat, s: Step) returns (r': Run)
    requires PromptRun(p, r, delay) && Enabled(p, Last(r), s) && PromptStep(Last(r), s, delay) && !s.Stop?
    ensures PromptRun(p, r', delay) && r'.ws == r.ws + [Last(r')] && Last(r') == Next(p, Last(r), s)
  {
    r' := Then(p, r, s);
  }

  /** `x` comes after `w` while node `n` takes the row over; leaders go on leading. */
  ghost predicate DuringTakeover(w: World, x: World, n: NodeId, until: Time) {
    && x.clock == w.clock
    && (forall m :: m in w.local && w.local[m].isLeader ==> m in x.local && x.local[m].isLeader)
    && (forall m :: m in w.grants ==>
          m in x.grants && (x.grants[m].until == w.grants[m].until || (m == n && x.grants[m].until == until)))
  }

  predicate TakeoverStep(w: World, s: Step, n: NodeId) {
    || ((s.ElRead? || s.ElDecide? || s.ElCas? || s.ElCallback?) && s.n == n)
    || (s == ElFlag(n) && n in w.local && w.local[n].el == ElDone(true))
  }

  lemma StepDuringTakeover(p: Params, w: World, x: World, n: NodeId, until: Time, s: Step)
    requires DuringTakeover(w, x, n, until) && Enabled(p, x, s) && TakeoverStep(x, s, n)
    requires s.ElCas? ==> x.local[n].el.now + p.lease == until
    ensures DuringTakeover(w, Next(p, x, s), n, until)
  {
  }

  /** One more step of a takeover that began in world `w`, the last of the first `start` worlds. */
  lemma GoesOn(p: Params, r: Run, delay: nat, start: nat, w: World, n: NodeId, until: Time, s: Step) returns (r': Run)
    requires PromptRun(p, r, delay) && 0 < start <= |r.ws| && w == r.ws[start - 1]
    requires forall k :: start <= k < |r.ws| ==> DuringTakeover(w, r.ws[k], n, until)
    requires Enabled(p, Last(r), s) && PromptStep(Last(r), s, delay) && TakeoverStep(Last(r), s, n)
    requires s.ElCas? ==> Last(r).local[n].el.now + p.lease == until
    ensures PromptRun(p, r', delay) && r'.ws == r.ws + [Next(p, Last(r), s)] && Last(r') == Next(p, Last(r), s)
    ensures forall k :: start <= k < |r'.ws| ==> DuringTakeover(w, r'.ws[k], n, until)
  {
    r' := PromptThen(p, r, delay, s);
    assert DuringTakeover(w, Last(r), n, until);
    StepDuringTakeover(p, w, Last(r), n, until, s);
  }

  lemma JudgesExpired(p: Params, r: Run, delay: nat, n: NodeId, now: Time) returns (r': Run)
    requires PromptRun(p, r, delay) && n in Last(r).local && Last(r).local[n].el.ElIdle? && ClockReading(p, Last(r), now)
    requires ReadSaysExpired(Last(r).row, now)
    ensures PromptRun(p, r', delay) && |r'.ws| > |r.ws| && r'.ws[..|r.ws|] == r.ws
    ensures forall k :: |r.ws| <= k < |r'.ws| ==> DuringTakeover(Last(r), r'.ws[k], n, now + p.lease)
    ensures Last(r') == SetLocal(Last(r), n, Last(r).local[n].(el := ElCasing(now)))
  {
    r' := GoesOn(p, r, delay, |r.ws|, Last(r), n, now + p.lease, ElRead(n));
    r' := GoesOn(p, r', delay, |r.ws|, Last(r), n, now + p.lease, ElDecide(n, now));
  }

  /** The node reads the row, judges it and wins it. */
  lemma TakesRow(p: Params, r: Run, delay: nat, n: NodeId, now: Time) returns (r': Run)
    requires PromptRun(p, r, delay) && n in Last(r).local && Last(r).local[n].el.ElIdle? && ClockReading(p, Last(r), now)
    requires ReadSaysExpired(Last(r).row, now) && CasMatches(Last(r).row, now) && now >= Last(r).clock
    ensures PromptRun(p, r', delay) && |r'.ws| > |r.ws| && r'.ws[..|r.ws|] == r.ws
    ensures forall k :: |r.ws| <= k < |r'.ws| ==> DuringTakeover(Last(r), r'.ws[k], n, now + p.lease)
    ensures var w, w' := Last(r), Last(r');
            && w'.row == Claim(w.row, n, now + p.lease)
            && w'.local == w.local[n := w.local[n].(el := ElDone(true))]
            && n in w'.grants && w'.grants[n].until == now + p.lease
  {
    r' := JudgesExpired(p, r, delay, n, now);
    r' := GoesOn(p, r', delay, |r.ws|, Last(r), n, now + p.lease, ElCas(n, true));
  }

  /** The node announces the lease that it has gained. */
  lemma Announces(p: Params, r: Run, delay: nat, start: nat, w: World, n: NodeId, until: Time) returns (r': Run)
    requires PromptRun(p, r, delay) && 0 < start < |r.ws| && w == r.ws[start - 1]
    requires forall k :: start <= k < |r.ws| ==> DuringTakeover(w, r.ws[k], n, until)
    requires n in Last(r).local && Last(r).local[n].el == ElDone(true)
    ensures PromptRun(p, r', delay) && |r'.ws| > |r.ws| && r'.ws[..|r.ws|] == r.ws
    ensures forall k :: start <= k < |r'.ws| ==> DuringTakeover(w, r'.ws[k], n, until)
    ensures var x, x' := Last(r), Last(r');
            && x'.row == x.row && x'.grants == x.grants && n in x'.local && x'.local == x.local[n := x'.local[n]]
            && x'.local[n].isLeader && x'.local[n].hb == x.local[n].hb && x'.local[n].el.ElIdle?
  {
    r' := GoesOn(p, r, delay, start, w, n, until, ElFlag(n));
    if Last(r').local[n].el.ElCalling? {
      r' := GoesOn(p, r', delay, start, w, n, until, ElCallback(n));
    }
  }

  /** Node `n`, possibly leading already, takes the row over and leads afterwards. */
  lemma TakesOver(p: Params, r: Run, delay: nat, n: NodeId, now: Time) returns (r': Run)
    requires PromptRun(p, r, delay) && n in Last(r).local && Last(r).local[n].el.ElIdle? && ClockReading(p, Last(r), now)
    requires ReadSaysExpired(Last(r).row, now) && CasMatches(Last(r).row, now) && now >= Last(r).clock
    ensures PromptRun(p, r', delay) && |r'.ws| > |r.ws| && r'.ws[..|r.ws|] == r.ws
    ensures forall k :: |r.ws| <= k < |r'.ws| ==> DuringTakeover(Last(r), r'.ws[k], n, now + p.lease)
    ensures var w, w' := Last(r), Last(r');
            && w'.row == Claim(w.row, n, now + p.lease) && w'.clock == w.clock
            && n in w'.local && w'.local[n].isLeader && w'.local[n].hb == w.local[n].hb && w'.local[n].el.ElIdle?
            && (forall m :: m in w.local && m != n ==> m in w'.local && w'.local[m] == w.local[m])
            && n in w'.grants && w'.grants[n].until == now + p.lease
            && (forall m :: m in w.grants && m != n ==> m in w'.grants && w'.grants[m].until == w.grants[m].until)
  {
    r' := TakesRow(p, r, delay, n, now);
    r' := Announces(p, r', delay, |r.ws|, Last(r), n, now + p.lease);
    assert DuringTakeover(Last(r), r'.ws[|r'.ws| - 1], n, now + p.lease);
  }

  lemma Waits(p: Params, r: Run, delay: nat, d: nat) returns (r': Run)
    requires PromptRun(p, r, delay)
    ensures PromptRun(p, r', delay) && r'.ws == r.ws + [Last(r')] && Last(r') == Last(r).(clock := Last(r).clock + d)
  {
    r' := PromptThen(p, r, delay, Tick(d));
  }

  /** When the clock is read for the heartbeat that will be executed late, relative to its execution. */
  function Reading(p: Params): int {
    if 3 * p.skew - 1 - p.lease < p.skew then 3 * p.skew - 1 - p.lease else p.skew
  }

  lemma TwoFreshNodes(p: Params, delay: nat) returns (r: Run)
    ensures PromptRun(p, r, delay)
    ensures var w := Last(r);
            w.clock == 0 && w.row == EMPTY_ROW && A in w.local && w.local[A] == FRESH && B in w.local && w.local[B] == FRESH
  {
    assert A != B;
    r := Run([World(EMPTY_ROW, 0, map[], map[], [])], []);
    r := PromptThen(p, r, delay, Restart(A));
    r := PromptThen(p, r, delay, Restart(B));
  }

  /** A owns the row until `until`, A and B lead, and neither has an elect tick under way. */
  predicate Stage(w: World, clock: Time, until: Time) {
    && w.clock == clock && w.row.owner == Some(A) && w.row.until == Some(until)
    && A in w.local && w.local[A].isLeader && w.local[A].el.ElIdle?
    && B in w.local && w.local[B].isLeader && w.local[B].el.ElIdle?
    && A in w.grants && w.grants[A].until == until && B in w.grants
  }

  /** B leads and A takes the row from it. */
  lemma LosesRow(p: Params, delay: nat) returns (r: Run)
    requires p.lease >= 1
    ensures PromptRun(p, r, delay) && Stage(Last(r), p.lease, 2 * p.lease + p.skew) && Last(r).local[B].hb.HbIdle?
  {
    assert A != B;
    r := TwoFreshNodes(p, delay);
    r := TakesOver(p, r, delay, B, 0);
    r := Waits(p, r, delay, p.lease);
    r := TakesOver(p, r, delay, A, p.lease + p.skew);
  }

  /** B, which has not noticed, reads the clock for one more heartbeat. */
  lemma StallsHeartbeat(p: Params, delay: nat) returns (r: Run)
    requires 1 <= p.lease < delay + 3 * p.skew && p.skew >= 1
    ensures PromptRun(p, r, delay) && Stage(Last(r), 2 * p.lease, 2 * p.lease + p.skew)
    ensures Last(r).local[B].hb == HbExtending(2 * p.lease + Reading(p))
  {
    var early := if Reading(p) < 0 then -Reading(p) else 0;
    r := LosesRow(p, delay);
    r := Waits(p, r, delay, p.lease - early);
    r := PromptThen(p, r, delay, HbCapture(B, 2 * p.lease + Reading(p)));
    r := PromptThen(p, r, delay, HbCheck(B));
    r := Waits(p, r, delay, early);
  }

  /**
   A lease one unit short of the bound, or shorter: B retakes the row, its stalled heartbeat cuts the new
   lease back, and A retakes the row in time for both to lead for twice the skew without a break.
   */
  lemma OutlastsSkew(p: Params, delay: nat) returns (r: Run, i: nat)
    requires 1 <= p.lease < delay + 3 * p.skew && p.skew >= 1
    ensures PromptRun(p, r, delay) && i < |r.ws|
    ensures Last(r).clock - r.ws[i].clock >= 2 * p.skew
    ensures BothLead(p, r, i, |r.ws| - 1, A, B)
  {
    assert A != B;
    var end := 3 * p.lease + Reading(p);
    var r1, r2, r3 := CutsLease(p, delay);
    var r4 := TakesOver(p, r3, delay, A, end);
    r := Waits(p, r4, delay, 2 * p.skew - 1);
    i := |r1.ws| - 1;
    Stretch(p, r1, r2, r3, r4, r, end + p.lease);
  }

  /** B retakes the row, its heartbeat is executed, and time passes until A may take the row again. */
  lemma CutsLease(p: Params, delay: nat) returns (r1: Run, r2: Run, r3: Run)
    requires 1 <= p.lease < delay + 3 * p.skew && p.skew >= 1
    ensures |r1.ws| > 0 && |r2.ws| > 0 && r2.ws == r1.ws + [Last(r2)] && PromptRun(p, r3, delay)
    ensures r3.ws == r2.ws + [Last(r3)] && Last(r1).clock == 2 * p.lease
    ensures MayLead(p, Last(r1), A) && MayLead(p, Last(r1), B) && MayLead(p, Last(r2), A) && MayLead(p, Last(r2), B)
    ensures MayLead(p, Last(r3), A) && MayLead(p, Last(r3), B)
    ensures var w, end := Last(r3), 3 * p.lease + Reading(p);
            && w.clock == end - p.skew && w.row.owner == Some(B) && w.row.until == Some(end)
            && w.local[A].isLeader && w.local[A].el.ElIdle? && w.local[B].isLeader
            && w.grants[B].until == end
  {
    assert A != B;
    var r0 := StallsHeartbeat(p, delay);
    r1 := TakesOver(p, r0, delay, B, 2 * p.lease + p.skew);
    r2 := PromptThen(p, r1, delay, HbExtend(B, true));
    r3 := Waits(p, r2, delay, Reading(p) + p.lease - p.skew);
  }

  /** The worlds of the stretch: before the last takeover, during it, and after it. */
  lemma Stretch(p: Params, r1: Run, r2: Run, r3: Run, r4: Run, r: Run, until: Time)
    requires |r1.ws| > 0 && |r2.ws| > 0 && |r3.ws| > 0 && |r.ws| > 0
    requires r2.ws == r1.ws + [Last(r2)] && r3.ws == r2.ws + [Last(r3)]
    requires |r4.ws| > |r3.ws| && r4.ws[..|r3.ws|] == r3.ws && r.ws == r4.ws + [Last(r)]
    requires forall k :: |r3.ws| <= k < |r4.ws| ==> DuringTakeover(Last(r3), r4.ws[k], A, until)
    requires MayLead(p, Last(r1), A) && MayLead(p, Last(r1), B) && MayLead(p, Last(r2), A) && MayLead(p, Last(r2), B)
    requires MayLead(p, Last(r3), A) && MayLead(p, Last(r3), B) && MayLead(p, Last(r), A) && MayLead(p, Last(r), B)
    requires Last(r3).local[A].isLeader && Last(r3).local[B].isLeader
    requires Last(r3).clock - p.skew < until
    ensures BothLead(p, r, |r1.ws| - 1, |r.ws| - 1, A, B)
  {
    forall k | |r1.ws| - 1 <= k <= |r.ws| - 1
      ensures MayLead(p, r.ws[k], A) && MayLead(p, r.ws[k], B)
    {
      if k < |r3.ws| {
        assert r.ws[k] == r4.ws[..|r3.ws|][k] == r3.ws[k];
      } else if k < |r4.ws| {
        assert DuringTakeover(Last(r3), r4.ws[k], A, until);
      }
    }
  }

  // ----- exactly -----

  /** However a prompt run goes, two nodes both lead for less than twice the skew without a break. */
  ghost predicate OverlapsAreBounded(p: Params, delay: nat) {
    forall r: Run, i: nat, j: nat, a: NodeId, b: NodeId ::
      i <= j < |r.ws| && a != b && IsRun(p, r) && Prompt(r, delay) && NoStopInTick(r, i, j) && BothLead(p, r, i, j, a, b)
      ==> r.ws[j].clock - r.ws[i].clock < 2 * p.skew
  }

  /** Exactly the leases that cover the delay and three times the skew bound the overlap by twice the skew. */
  lemma OverlapBoundIsExact(p: Params, delay: nat)
    requires p.lease >= 1 && p.skew >= 1
    ensures OverlapsAreBounded(p, delay) <==> p.lease >= delay + 3 * p.skew
  {
    if p.lease >= delay + 3 * p.skew {
      forall r: Run, i: nat, j: nat, a: NodeId, b: NodeId |
        i <= j < |r.ws| && a != b && IsRun(p, r) && Prompt(r, delay) && NoStopInTick(r, i, j) && BothLead(p, r, i, j, a, b)
        ensures r.ws[j].clock - r.ws[i].clock < 2 * p.skew
      {
        OverlapBound(p, r, i, j, a, b, delay);
      }
    } else {
      var r, i := OutlastsSkew(p, delay);
      assert A != B && NoStopInTick(r, i, |r.ws| - 1);
      assert r.ws[|r.ws| - 1].clock - r.ws[i].clock >= 2 * p.skew;
    }
  }

  /** So without a bound on the delay no lease is long enough. */
  lemma NoLeaseBoundsAllDelays(p: Params)
    requires p.lease >= 1 && p.skew >= 1
    ensures exists delay: nat :: !OverlapsAreBounded(p, delay)
  {
    OverlapBoundIsExact(p, p.lease);
  }

  /** With agreeing clocks two nodes never both lead by their own clocks. */
  lemma NoOverlapWithoutSkew(p: Params, r: Run, i: nat, a: NodeId, b: NodeId)
    requires IsRun(p, r) && i < |r.ws| && p.skew == 0 && a != b
    ensures !(MayLead(p, r.ws[i], a) && MayLead(p, r.ws[i], b))
  {
    if MayLead(p, r.ws[i], a) && MayLead(p, r.ws[i], b) {
      AtMostOneUnexpiredLeader(p, r, i, a, b);
    }
  }
}
