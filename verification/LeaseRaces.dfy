/**
 Two concrete runs that show why the conditions in `LeaseTheorems` are there: a shutdown that races
 its own elect tick, and two callbacks of one node that overtake each other.
 */
module LeaseRaces {
  import opened Options
  import opened Lease

  const TEN := Params(10, 0)
  const A: NodeId := "a"
  const B: NodeId := "b"

  /** Node `n` runs one whole elect tick that wins the row. */
  lemma WinsElection(p: Params, r: Run, n: NodeId) returns (r': Run)
    requires IsRun(p, r) && n in Last(r).local && Last(r).local[n].el.ElIdle?
    requires ReadSaysExpired(Last(r).row, Last(r).clock) && CasMatches(Last(r).row, Last(r).clock)
    ensures IsRun(p, r')
    ensures var w, w' := Last(r), Last(r');
            && w'.row == Claim(w.row, n, w.clock + p.lease) && w'.clock == w.clock
            && w'.local == w.local[n := w.local[n].(el := ElDone(true))]
            && n in w'.grants && w'.grants[n] == Grant(w.clock + p.lease, w.row.epoch + 1, None)
            && forall m :: m in w.grants && m != n ==> m in w'.grants && w'.grants[m].until == w.grants[m].until
  {
    var now := Last(r).clock;
    r' := Then(p, r, ElRead(n));
    r' := Then(p, r', ElDecide(n, now));
    r' := Then(p, r', ElCas(n, true));
  }

  /** A run that has not begun yet, and one more node starting up in a run. */
  lemma Begins(p: Params) returns (r: Run)
    ensures IsRun(p, r) && Last(r) == World(EMPTY_ROW, 0, map[], map[], [])
  {
    r := Run([World(EMPTY_ROW, 0, map[], map[], [])], []);
  }

  lemma StartsUp(p: Params, r: Run, n: NodeId) returns (r': Run)
    requires IsRun(p, r)
    ensures IsRun(p, r') && Last(r') == SetLocal(Last(r), n, FRESH)
  {
    r' := Then(p, r, Restart(n));
  }

  lemma TwoIdleNodes(p: Params) returns (r: Run)
    ensures IsRun(p, r)
    ensures var w := Last(r);
            w.clock == 0 && w.row == EMPTY_ROW && w.local == map[A := FRESH, B := FRESH] && w.grants == map[]
  {
    r := Begins(p);
    r := StartsUp(p, r, A);
    r := StartsUp(p, r, B);
    assert A != B;
    assert map[][A := FRESH][B := FRESH] == map[A := FRESH, B := FRESH];
  }

  lemma StartWithLeaderA() returns (r: Run)
    ensures IsRun(TEN, r)
    ensures var w := Last(r);
            && w.clock == 0 && w.row == Row(Some(A), Some(10), 1)
            && w.local == map[A := Local(true, Some(A), true, HbIdle, ElIdle), B := FRESH]
            && A in w.grants && w.grants[A].until == 10
  {
    assert A != B;
    r := TwoIdleNodes(TEN);
    r := WinsElection(TEN, r, A);
    r := Then(TEN, r, ElFlag(A));
    r := Then(TEN, r, ElCallback(A));
    assert Last(r).local == map[A := Local(true, Some(A), true, HbIdle, ElIdle), B := FRESH];
  }

  /** Node A wins once more while it leads, and its Stop commits before the elect tick goes on. */
  lemma StopsInsideElectTick() returns (r: Run)
    ensures Follows(TEN, r) && Initial(r.ws[0])
    ensures var w := Last(r);
            && w.clock == 10 && w.row == Row(None, None, 2)
            && w.local == map[A := Local(false, None, true, HbIdle, ElDone(true)), B := FRESH]
            && A in w.grants && w.grants[A].until == 20
  {
    r := StartWithLeaderA();
    r := Then(TEN, r, Tick(10));
    r := WinsElection(TEN, r, A);
    // From here the run is outside IsRun.
    r := Then(TEN, r, Stop(A, true));
    assert A != B;
    assert Last(r).local == map[A := Local(false, None, true, HbIdle, ElDone(true)), B := FRESH];
  }

  /**
   A Stop that commits between the elect tick's commit and its flag change breaks safety, even
   with perfect clocks: both nodes end up leading, and neither written lease has run out.
   */
  lemma StopRaceBreaksSafety() returns (r: Run)
    ensures Follows(TEN, r) && Initial(r.ws[0])
    ensures var w := Last(r);
            && Believes(w, A) && A in w.grants && w.clock < w.grants[A].until
            && Believes(w, B) && B in w.grants && w.clock < w.grants[B].until
            && w.row.owner == Some(B)
  {
    r := StopsInsideElectTick();
    r := Then(TEN, r, ElFlag(A));
    r := Then(TEN, r, ElRead(B));
    r := Then(TEN, r, ElDecide(B, 10));
    r := Then(TEN, r, ElCas(B, true));
  }

  /**
   A lost and a regained leadership whose callbacks overtake each other leave the node leader
   and owner of the row with its scheduler switched off, and no tick has anything left to do.
   */
  lemma CallbackRaceClosesGate() returns (r: Run)
    ensures IsRun(TEN, r)
    ensures var w := Last(r);
            && w.row.owner == Some(A) && A in w.local
            && w.local[A].isLeader && !w.local[A].gate && w.local[A].hb.HbIdle? && w.local[A].el.ElIdle?
  {
    r := StartWithLeaderA();
    r := Then(TEN, r, Tick(10));
    r := WinsElection(TEN, r, B);
    r := LosesAndRegains(r);
    r := Then(TEN, r, HbFlag(A));
    r := Then(TEN, r, ElFlag(A));
    r := Then(TEN, r, ElCallback(A));
    r := Then(TEN, r, HbCallback(A));
  }

  lemma LosesAndRegains(r: Run) returns (r': Run)
    requires IsRun(TEN, r)
    requires Last(r).clock == 10 && Last(r).row == Row(Some(B), Some(20), 2)
    requires A in Last(r).local && Last(r).local[A] == Local(true, Some(A), true, HbIdle, ElIdle)
    ensures IsRun(TEN, r')
    ensures Last(r').row.owner == Some(A)
    ensures A in Last(r').local && Last(r').local[A] == Local(true, Some(A), true, HbLost, ElDone(true))
  {
    r' := Then(TEN, r, HbCapture(A, 10));
    r' := Then(TEN, r', HbCheck(A));
    r' := Then(TEN, r', HbExtend(A, true));
    r' := Then(TEN, r', Tick(10));
    r' := WinsElection(TEN, r', A);
  }
}
