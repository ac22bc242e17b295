/** How far the scan of `CronNext` has to look. */
module CronHorizon {
  import opened Calendar
  import opened CronParser
  import opened CronNext

  /** The longest that month `m` ever gets. */
  function LongestMonth(m: int): int {
    if m == 2 then 29 else if m == 4 || m == 6 || m == 9 || m == 11 then 30 else 31
  }

  lemma MonthLengths(y: int, m: int)
    requires 1 <= m <= 12
    ensures 28 <= MonthLength(y, m) <= LongestMonth(m)
    ensures IsLeap(y) || m != 2 ==> MonthLength(y, m) == LongestMonth(m)
  {
  }

  /** Some listed day of the month exists in some listed month of some year. */
  ghost predicate SomeDayFits(c: Cron) {
    exists m, d :: m in c.month.values && d in c.dom.values && d <= LongestMonth(m)
  }

  /** The test a caller can make before the call. */
  ghost predicate NeverFires(c: Cron) {
    c.dow.star && !c.dom.star && !SomeDayFits(c)
  }

  lemma WildcardFits(c: Cron)
    requires WellFormed(c) && c.dom.star
    ensures SomeDayFits(c)
  {
    var m := c.month.values[0];
    assert m in c.month.values && 1 in c.dom.values && 1 <= LongestMonth(m);
  }

  lemma NeverFiresIsRight(c: Cron, t: int)
    requires WellFormed(c) && NeverFires(c)
    ensures !Fires(c, t)
  {
    var day := DayOf(t);
    DateRoundTrip(day);
    MonthLengths(YearOf(day), MonthOf(day));
  }

  /** With the weekday free, a listed day comes up in the first leap year after the current year. */
  lemma MatchingDate(c: Cron, first: int, m: int, d: int) returns (day: int)
    requires WellFormed(c) && c.dow.star && m in c.month.values && d in c.dom.values && d <= LongestMonth(m)
    ensures first < day < first + 9 * 366 && DayMatches(c, day)
  {
    var z := LeapYearWithinEight(YearOf(first) + 1);
    MonthLengths(z, m);
    day := DateInYear(first, z, m, d);
    assert 0 <= WeekdayOf(day) <= 6 && WeekdayOf(day) in c.dow.values;
  }

  /** Any weekday comes up within seven days of any month. */
  lemma MatchingWeekday(c: Cron, first: int) returns (day: int)
    requires WellFormed(c) && !c.dow.star
    ensures first < day < first + 9 * 366 && DayMatches(c, day)
  {
    var z := YearOf(first) + 1;
    var m, w := c.month.values[0], c.dow.values[0];
    assert m in c.month.values && w in c.dow.values;
    var one := DayNumber(z, m, 1);
    var d := 1 + (w - WeekdayOf(one)) % 7;
    MonthLengths(z, m);
    day := DateInYear(first, z, m, d);
    WeekdayShift(one, w);
    assert day == one + (w - WeekdayOf(one)) % 7;
  }

  /** A matching day in one of the eight years after the current one. */
  lemma MatchingDay(c: Cron, first: int) returns (day: int)
    requires WellFormed(c) && !NeverFires(c)
    ensures first < day < first + 9 * 366 && DayMatches(c, day)
  {
    if c.dow.star {
      if c.dom.star {
        WildcardFits(c);
      }
      var m, d :| m in c.month.values && d in c.dom.values && d <= LongestMonth(m);
      day := MatchingDate(c, first, m, d);
    } else {
      day := MatchingWeekday(c, first);
    }
  }

  lemma WeekdayShift(day: int, w: int)
    requires 0 <= w <= 6
    ensures WeekdayOf(day + (w - WeekdayOf(day)) % 7) == w
  {
  }

  /** A day of one of the eight years after the current one lies after the current day and within nine years. */
  lemma DayInYear(first: int, z: int, day: int)
    requires YearOf(first) < z <= YearOf(first) + 8 && YearOf(day) == z
    ensures first < day < first + 9 * 366
  {
    var y := YearOf(first);
    YearBounds(first);
    YearBounds(day);
    assert DayFromYear(y + 1) <= DayFromYear(z) by {
      YearsGrow(y + 1, z);
    }
    assert DayFromYear(z + 1) <= DayFromYear(y) + 9 * 366 by {
      YearsGrow(y, z + 1);
    }
  }

  lemma DateInYear(first: int, z: int, m: int, d: int) returns (day: int)
    requires YearOf(first) < z <= YearOf(first) + 8 && IsDate(z, m, d)
    ensures day == DayNumber(z, m, d) && MonthOf(day) == m && DomOf(day) == d
    ensures first < day < first + 9 * 366
  {
    day := DayNumber(z, m, d);
    DayNumberRoundTrip(z, m, d);
    DayInYear(first, z, day);
  }

  /**
   Asking for one run yields nothing exactly when the expression can never fire, so the horizon
   never hides a run, also not across a century year without 29 February.
   */
  lemma HorizonSuffices(c: Cron, from: int, out: seq<int>)
    requires WellFormed(c)
    requires RunsFrom(c, 1, from, out)
    ensures out == [] <==> NeverFires(c)
  {
    if NeverFires(c) {
      if out != [] {
        assert out[0] in out;
        NeverFiresIsRight(c, out[0]);
      }
    } else {
      var day := MatchingDay(c, DayOf(from));
      var h, m := c.hour.values[0], c.minute.values[0];
      assert h in c.hour.values && m in c.minute.values;
      MomentParts(day, h, m);
      FloorKeepsDay(from);
      var t := Moment(day, h, m);
      assert Moment(DayOf(from) + 1, 0, 0) > FloorToMinute(from);
      assert Hit(c, FloorToMinute(from), t) && t < Moment(DayOf(from) + HORIZON_DAYS, 0, 0);
    }
  }

  // ----- three runs on 29 February -----

  function LeapDay(y: int): int {
    DayNumber(y, 2, 29)
  }

  /** An expression for one minute of every 29 February. */
  ghost predicate OnLeapDays(c: Cron, h: int, mi: int) {
    && WellFormed(c) && c.dow.star && !c.dom.star
    && c.month.values == [2] && c.dom.values == [29] && c.hour.values == [h] && c.minute.values == [mi]
  }

  lemma NoLeapYear(y: int)
    requires y % 4 != 0
    ensures DayFromYear(y + 1) == DayFromYear(y) + 365
  {
    YearStep(y);
  }

  lemma LeapDayFires(c: Cron, h: int, mi: int, y: int)
    requires OnLeapDays(c, h, mi) && IsLeap(y)
    ensures Fires(c, Moment(LeapDay(y), h, mi))
  {
    assert 2 in c.month.values && 29 in c.dom.values && h in c.hour.values && mi in c.minute.values;
    MonthLengths(y, 2);
    DayNumberRoundTrip(y, 2, 29);
    assert 0 <= WeekdayOf(LeapDay(y)) <= 6 && WeekdayOf(LeapDay(y)) in c.dow.values;
    MomentParts(LeapDay(y), h, mi);
  }

  /** The year of the next run on a 29 February. */
  ghost predicate NextLeap(start: int, h: int, mi: int, y: int) {
    && IsLeap(y) && Moment(LeapDay(y), h, mi) > start
    && forall z :: z < y && IsLeap(z) ==> Moment(LeapDay(z), h, mi) <= start
  }

  /** The leap years after `y`: the next one, with none in between. */
  predicate LeapAfter(y: int, z: int) {
    y < z && IsLeap(z) && forall x :: y < x < z ==> !IsLeap(x)
  }

  lemma LeapDaysAscend(y: int, z: int)
    requires y < z
    ensures LeapDay(y) + 365 <= LeapDay(z)
  {
    YearsGrow(y, z);
  }

  lemma MomentOfLeapDay(y: int, h: int, mi: int)
    requires 0 <= h < 24 && 0 <= mi < 60 && IsLeap(y)
    ensures DayOf(Moment(LeapDay(y), h, mi)) == LeapDay(y) && YearOf(LeapDay(y)) == y
  {
    MomentParts(LeapDay(y), h, mi);
    MonthLengths(y, 2);
    DayNumberRoundTrip(y, 2, 29);
  }

  lemma HourAndMinute(c: Cron, h: int, mi: int)
    requires OnLeapDays(c, h, mi)
    ensures 0 <= h < 24 && 0 <= mi < 60
  {
    assert h in c.hour.values && mi in c.minute.values;
  }

  /** Every listed run is one on a leap day, after the start and before the end of the scan. */
  lemma ListedIsLeapDay(c: Cron, h: int, mi: int, from: int, n: int, out: seq<int>, t: int) returns (y: int)
    requires OnLeapDays(c, h, mi) && RunsFrom(c, n, from, out) && t in out
    ensures IsLeap(y) && t == Moment(LeapDay(y), h, mi) && FloorToMinute(from) < t
    ensures LeapDay(y) < DayOf(from) + HORIZON_DAYS
  {
    HourAndMinute(c, h, mi);
    FiresOnLeapDay(c, h, mi, t);
    y := YearOf(DayOf(t));
  }

  /** A run on a leap day after the start and before the end of the scan is listed, unless the list is full. */
  lemma LeapDayIsListed(c: Cron, h: int, mi: int, from: int, n: int, out: seq<int>, y: int)
    requires OnLeapDays(c, h, mi) && RunsFrom(c, n, from, out) && IsLeap(y)
    requires Moment(LeapDay(y), h, mi) > FloorToMinute(from) && LeapDay(y) < DayOf(from) + HORIZON_DAYS
    ensures |out| < n ==> Moment(LeapDay(y), h, mi) in out
  {
    LeapDayFires(c, h, mi, y);
    MomentOfLeapDay(y, h, mi);
  }

  /**
   Asking for three runs on 29 February yields three exactly if the third of them lies within the
   horizon; a run on the very day of the start counts if its minute is still to come.
   */
  lemma ThreeRunsExactly(c: Cron, h: int, mi: int, from: int, out: seq<int>, x: int, y: int, z: int)
    requires OnLeapDays(c, h, mi) && RunsFrom(c, 3, from, out)
    requires NextLeap(FloorToMinute(from), h, mi, x) && LeapAfter(x, y) && LeapAfter(y, z)
    ensures |out| == 3 <==> LeapDay(z) < DayOf(from) + HORIZON_DAYS
    ensures |out| <= 3
  {
    LeapDaysAscend(x, y);
    LeapDaysAscend(y, z);
    if LeapDay(z) < DayOf(from) + HORIZON_DAYS {
      LeapDayIsListed(c, h, mi, from, 3, out, x);
      LeapDayIsListed(c, h, mi, from, 3, out, y);
      LeapDayIsListed(c, h, mi, from, 3, out, z);
      if |out| < 3 {
        ThreeMembers(out, Moment(LeapDay(x), h, mi), Moment(LeapDay(y), h, mi), Moment(LeapDay(z), h, mi));
      }
    } else {
      TwoRunsAtMost(c, h, mi, from, out, x, y, z);
    }
  }

  lemma TwoRunsAtMost(c: Cron, h: int, mi: int, from: int, out: seq<int>, x: int, y: int, z: int)
    requires OnLeapDays(c, h, mi) && RunsFrom(c, 3, from, out) && LeapDay(z) >= DayOf(from) + HORIZON_DAYS
    requires NextLeap(FloorToMinute(from), h, mi, x) && LeapAfter(x, y) && LeapAfter(y, z)
    ensures |out| <= 2
  {
    assert |out| >= 3 ==> out[0] < out[1] < out[2];
    forall i | 0 <= i < |out|
      ensures out[i] == Moment(LeapDay(x), h, mi) || out[i] == Moment(LeapDay(y), h, mi)
    {
      ListedIsNear(c, h, mi, from, out, x, y, z, out[i]);
    }
  }

  lemma ListedIsNear(c: Cron, h: int, mi: int, from: int, out: seq<int>, x: int, y: int, z: int, t: int)
    requires OnLeapDays(c, h, mi) && RunsFrom(c, 3, from, out) && LeapDay(z) >= DayOf(from) + HORIZON_DAYS && t in out
    requires NextLeap(FloorToMinute(from), h, mi, x) && LeapAfter(x, y) && LeapAfter(y, z)
    ensures t == Moment(LeapDay(x), h, mi) || t == Moment(LeapDay(y), h, mi)
  {
    var l := ListedIsLeapDay(c, h, mi, from, 3, out, t);
    OneOfTwo(FloorToMinute(from), h, mi, x, y, z, l);
  }

  lemma OneOfTwo(start: int, h: int, mi: int, x: int, y: int, z: int, l: int)
    requires NextLeap(start, h, mi, x) && LeapAfter(x, y) && LeapAfter(y, z)
    requires IsLeap(l) && Moment(LeapDay(l), h, mi) > start && LeapDay(l) < LeapDay(z)
    ensures l == x || l == y
  {
    if l > z {
      LeapDaysAscend(z, l);
    }
  }

  lemma ThreeMembers(out: seq<int>, a: int, b: int, c: int)
    requires a < b < c && a in out && b in out && c in out
    ensures |out| >= 3
  {
    var i, j, k :| 0 <= i < |out| && 0 <= j < |out| && 0 <= k < |out| && out[i] == a && out[j] == b && out[k] == c;
    assert i != j && j != k && i != k;
  }

  /** A moment of the expression is a moment of a 29 February. */
  lemma FiresOnLeapDay(c: Cron, h: int, mi: int, t: int)
    requires OnLeapDays(c, h, mi) && Fires(c, t)
    ensures t == Moment(LeapDay(YearOf(DayOf(t))), h, mi) && IsLeap(YearOf(DayOf(t)))
  {
    DateRoundTrip(DayOf(t));
    MonthLengths(YearOf(DayOf(t)), 2);
    PartsMoment(t);
  }

  // ----- in dates -----

  /** A year that is no leap year although four divides it. */
  predicate CommonCentury(y: int) {
    y % 4 == 0 && !IsLeap(y)
  }

  lemma CenturiesAreFar(y: int, z: int)
    requires CommonCentury(y) && CommonCentury(z) && y != z
    ensures y + 100 <= z || z + 100 <= y
  {
    var a, b := y / 100, z / 100;
    assert y == 100 * a && z == 100 * b;
  }

  /** The two leap years after a leap year: each four years on, but eight across a common century. */
  function After(y: int): int {
    if CommonCentury(y + 4) then y + 8 else y + 4
  }

  lemma Remainders(y: int)
    requires y % 4 == 0
    ensures (y + 1) % 4 == 1 && (y + 2) % 4 == 2 && (y + 3) % 4 == 3 && (y + 4) % 4 == 0 && (y - 4) % 4 == 0
  {
  }

  lemma NoneBetweenFours(y: int, x: int)
    requires y % 4 == 0 && y < x < y + 4
    ensures !IsLeap(x)
  {
    Remainders(y);
  }

  lemma AfterIsNext(y: int)
    requires IsLeap(y)
    ensures LeapAfter(y, After(y))
  {
    Remainders(y);
    Remainders(y + 4);
    if CommonCentury(y + 4) && CommonCentury(y + 8) {
      CenturiesAreFar(y + 4, y + 8);
    }
    forall x | y < x < After(y)
      ensures !IsLeap(x)
    {
      if x < y + 4 {
        NoneBetweenFours(y, x);
      } else if x > y + 4 {
        NoneBetweenFours(y + 4, x);
      }
    }
  }

  /** Days of the four years from a year that four divides, the first of them a leap year or not. */
  lemma FourYearsFrom(y: int)
    requires y % 4 == 0
    ensures DayFromYear(y + 4) == DayFromYear(y) + if IsLeap(y) then 1461 else 1460
  {
    Remainders(y);
    YearStep(y);
    NoLeapYear(y + 1);
    NoLeapYear(y + 2);
    NoLeapYear(y + 3);
  }

  lemma LeapDayIs(y: int)
    ensures LeapDay(y) == DayFromYear(y) + 59
  {
  }

  lemma AfterInDays(y: int)
    requires IsLeap(y)
    ensures LeapDay(After(y)) == LeapDay(y) + if CommonCentury(y + 4) then 2921 else 1461
  {
    Remainders(y);
    FourYearsFrom(y);
    FourYearsFrom(y + 4);
    LeapDayIs(y);
    LeapDayIs(After(y));
  }

  /** Whether the scan falls short of the third run, told by the day of the start and the year of the next run. */
  predicate FallsShort(first: int, next: int) {
    || ((CommonCentury(next + 4) || CommonCentury(next + 8)) && first <= DayNumber(next, 2, 19))
    || (CommonCentury(next - 4) && first <= DayNumber(next - 4, 2, 19))
  }

  lemma FallsShortInDays(first: int, next: int)
    requires IsLeap(next)
    ensures FallsShort(first, next) <==>
              || ((CommonCentury(next + 4) || CommonCentury(next + 8)) && LeapDay(next) - first >= 10)
              || (CommonCentury(next - 4) && LeapDay(next) - first >= 1470)
  {
    if CommonCentury(next - 4) {
      FourYearsFrom(next - 4);
    }
  }

  function Previous(y: int): int {
    if CommonCentury(y - 4) then y - 8 else y - 4
  }

  lemma PreviousIsLeap(y: int)
    requires IsLeap(y)
    ensures IsLeap(Previous(y)) && After(Previous(y)) == y && LeapAfter(Previous(y), y)
  {
    if CommonCentury(y - 4) && CommonCentury(y - 8) {
      CenturiesAreFar(y - 4, y - 8);
    }
    Remainders(y);
    Remainders(y - 4);
    AfterIsNext(Previous(y));
  }

  /** There always is a next run. */
  lemma NextLeapExists(start: int, h: int, mi: int) returns (y: int)
    requires 0 <= h < 24 && 0 <= mi < 60
    ensures NextLeap(start, h, mi, y)
  {
    var z := LeapYearWithinEight(YearOf(DayOf(start)) + 1);
    MomentOfLeapDay(z, h, mi);
    YearBounds(DayOf(start));
    YearsGrow(YearOf(DayOf(start)) + 1, z);
    LeapDayIs(z);
    assert start < Moment(DayOf(start) + 1, 0, 0);
    y := FirstFrom(start, h, mi, z);
  }

  lemma {:induction false} FirstFrom(start: int, h: int, mi: int, z: int) returns (y: int)
    requires IsLeap(z) && Moment(LeapDay(z), h, mi) > start
    ensures NextLeap(start, h, mi, y)
    decreases Moment(LeapDay(z), h, mi) - start
  {
    PreviousIsLeap(z);
    LeapDaysAscend(Previous(z), z);
    if Moment(LeapDay(Previous(z)), h, mi) > start {
      y := FirstFrom(start, h, mi, Previous(z));
    } else {
      y := z;
      forall x | x < z && IsLeap(x)
        ensures Moment(LeapDay(x), h, mi) <= start
      {
        if x < Previous(z) {
          LeapDaysAscend(x, Previous(z));
        }
      }
    }
  }

  /** The next run is at most 1461 days away, or 2921 across a common century. */
  lemma NextIsNear(start: int, h: int, mi: int, y: int)
    requires NextLeap(start, h, mi, y) && 0 <= h < 24 && 0 <= mi < 60
    ensures LeapDay(y) - DayOf(start) <= if CommonCentury(y - 4) then 2921 else 1461
    ensures DayOf(start) <= LeapDay(y)
  {
    var z := Previous(y);
    PreviousIsLeap(y);
    AfterInDays(z);
    MomentOfLeapDay(z, h, mi);
    MomentOfLeapDay(y, h, mi);
    assert Moment(LeapDay(z), h, mi) <= start < Moment(LeapDay(y), h, mi);
  }

  /**
   Three runs on 29 February are found except exactly in three stretches around each common century C:
   from the run of C - 12, of C - 8 and of C - 4 on, until 19 February four years later.
   */
  lemma FallsShortExactly(c: Cron, h: int, mi: int, from: int, out: seq<int>, next: int)
    requires OnLeapDays(c, h, mi) && RunsFrom(c, 3, from, out) && NextLeap(FloorToMinute(from), h, mi, next)
    ensures |out| < 3 <==> FallsShort(DayOf(from), next)
  {
    HourAndMinute(c, h, mi);
    var y, z := After(next), After(After(next));
    AfterIsNext(next);
    AfterIsNext(y);
    AfterInDays(next);
    AfterInDays(y);
    ThreeRunsExactly(c, h, mi, from, out, next, y, z);
    NextIsNear(FloorToMinute(from), h, mi, next);
    FloorKeepsDay(from);
    FallsShortInDays(DayOf(from), next);
    OneCentury(next);
  }

  /** At most one of the years around a leap year is a common century. */
  lemma OneCentury(y: int)
    ensures !(CommonCentury(y - 4) && CommonCentury(y + 4)) && !(CommonCentury(y - 4) && CommonCentury(y + 8))
    ensures !(CommonCentury(y + 4) && CommonCentury(y + 8)) && !(CommonCentury(y + 4) && CommonCentury(y + 12))
    ensures !(CommonCentury(y - 4) && CommonCentury(y + 12)) && !(CommonCentury(y + 8) && CommonCentury(y + 12))
  {
    NotBoth(y - 4, y + 4);
    NotBoth(y - 4, y + 8);
    NotBoth(y + 4, y + 8);
    NotBoth(y + 4, y + 12);
    NotBoth(y - 4, y + 12);
    NotBoth(y + 8, y + 12);
  }

  lemma NotBoth(y: int, z: int)
    requires y < z < y + 100
    ensures !(CommonCentury(y) && CommonCentury(z))
  {
    if CommonCentury(y) && CommonCentury(z) {
      CenturiesAreFar(y, z);
    }
  }

  /**
   Around 2100: from the run of 2088 to that of 2104 asking for three runs falls short exactly until
   19 February 2092, from the run of 2092 until 19 February 2096, and from that of 2096 until 19 February 2100.
   */
  lemma Around2100(c: Cron, h: int, mi: int, from: int, out: seq<int>)
    requires OnLeapDays(c, h, mi) && RunsFrom(c, 3, from, out)
    requires Moment(LeapDay(2088), h, mi) <= FloorToMinute(from) < Moment(LeapDay(2104), h, mi)
    ensures var start, day := FloorToMinute(from), DayOf(from);
            |out| < 3 <==>
              || day <= DayNumber(2092, 2, 19)
              || (Moment(LeapDay(2092), h, mi) <= start && day <= DayNumber(2096, 2, 19))
              || (Moment(LeapDay(2096), h, mi) <= start && day <= DayNumber(2100, 2, 19))
  {
    HourAndMinute(c, h, mi);
    var start := FloorToMinute(from);
    var next := if start < Moment(LeapDay(2092), h, mi) then 2092
                else if start < Moment(LeapDay(2096), h, mi) then 2096 else 2104;
    forall z | z < next && IsLeap(z)
      ensures Moment(LeapDay(z), h, mi) <= start
    {
      var last := if next == 2104 then 2096 else next - 4;
      assert z <= last;
      if z < last {
        LeapDaysAscend(z, last);
      }
    }
    FallsShortExactly(c, h, mi, from, out, next);
    FloorKeepsDay(from);
    NextIsNear(start, h, mi, next);
    assert CommonCentury(2100) && !CommonCentury(2088) && !CommonCentury(2092) && !CommonCentury(2096);
    assert !CommonCentury(2104) && !CommonCentury(2108) && !CommonCentury(2112);
    MomentOfLeapDay(2092, h, mi);
    MomentOfLeapDay(2096, h, mi);
  }
}
