/** The proleptic Gregorian calendar of ECMA-262, section 21.4.1; day 0 is 1 January 1970. */
module Calendar {
  predicate IsLeap(y: int) {
    y % 4 == 0 && (y % 100 != 0 || y % 400 == 0)
  }

  /** The day number of 1 January. Dafny's division by a positive number is the floor. */
  function DayFromYear(y: int): int {
    365 * (y - 1970) + (y - 1969) / 4 - (y - 1901) / 100 + (y - 1601) / 400
  }

  function DaysInYear(y: int): int {
    if IsLeap(y) then 366 else 365
  }

  /** Days of the year before the first of month `m`; month 13 is the year's end. */
  function DaysBefore(y: int, m: int): int
    requires 1 <= m <= 13
  {
    var leap := if IsLeap(y) && m > 2 then 1 else 0;
    [0, 31, 59, 90, 120, 151, 181, 212, 243, 273, 304, 334, 365][m - 1] + leap
  }

  function MonthLength(y: int, m: int): int
    requires 1 <= m <= 12
  {
    DaysBefore(y, m + 1) - DaysBefore(y, m)
  }

  /** The first year from `y` on that ends after `day`. */
  function YearFrom(day: int, y: int): int
    requires DayFromYear(y) <= day
    decreases day - DayFromYear(y)
  {
    YearStep(y);
    if day < DayFromYear(y + 1) then y else YearFrom(day, y + 1)
  }

  function YearOf(day: int): int {
    var y := 1970 + if day < 0 then day / 365 else 0;
    EarlyYears(y);
    YearFrom(day, y)
  }

  function MonthFrom(y: int, dayInYear: int, m: int): int
    requires 1 <= m <= 12
    decreases 12 - m
  {
    if m == 12 || dayInYear < DaysBefore(y, m + 1) then m else MonthFrom(y, dayInYear, m + 1)
  }

  function MonthOf(day: int): int {
    MonthFrom(YearOf(day), day - DayFromYear(YearOf(day)), 1)
  }

  function DomOf(day: int): int {
    var y := YearOf(day);
    var k := day - DayFromYear(y);
    MonthBounds(y, k, 1);
    k - DaysBefore(y, MonthFrom(y, k, 1)) + 1
  }

  /** 0 is Sunday. */
  function WeekdayOf(day: int): int {
    (day + 4) % 7
  }

  /** MakeDay: a day of the month may lie beyond the month's end. */
  function DayNumber(y: int, m: int, dom: int): int
    requires 1 <= m <= 12
  {
    DayFromYear(y) + DaysBefore(y, m) + dom - 1
  }

  predicate IsDate(y: int, m: int, dom: int) {
    1 <= m <= 12 && 1 <= dom <= MonthLength(y, m)
  }

  // ----- years -----

  lemma YearStep(y: int)
    ensures DayFromYear(y + 1) == DayFromYear(y) + DaysInYear(y)
  {
    FourStep(y);
    HundredStep(y);
    FourHundredStep(y);
    Multiples(y);
  }

  lemma FourStep(y: int)
    ensures (y + 1 - 1969) / 4 == (y - 1969) / 4 + if y % 4 == 0 then 1 else 0
  {
  }

  lemma HundredStep(y: int)
    ensures (y + 1 - 1901) / 100 == (y - 1901) / 100 + if y % 100 == 0 then 1 else 0
  {
  }

  lemma FourHundredStep(y: int)
    ensures (y + 1 - 1601) / 400 == (y - 1601) / 400 + if y % 400 == 0 then 1 else 0
  {
  }

  lemma Multiples(y: int)
    ensures (y % 400 == 0 ==> y % 100 == 0) && (y % 100 == 0 ==> y % 4 == 0)
  {
  }

  lemma EarlyYears(y: int)
    requires y <= 1970
    ensures DayFromYear(y) <= 365 * (y - 1970)
  {
  }

  lemma {:induction false} YearsGrow(y: int, z: int)
    requires y <= z
    ensures 365 * (z - y) <= DayFromYear(z) - DayFromYear(y) <= 366 * (z - y)
    decreases z - y
  {
    if y < z {
      YearsGrow(y, z - 1);
      YearStep(z - 1);
    }
  }

  lemma {:induction false} YearFromBounds(day: int, y: int)
    requires DayFromYear(y) <= day
    ensures var z := YearFrom(day, y); DayFromYear(z) <= day < DayFromYear(z + 1)
    decreases day - DayFromYear(y)
  {
    YearStep(y);
    if day >= DayFromYear(y + 1) {
      YearFromBounds(day, y + 1);
    }
  }

  /** Every day lies in exactly one year, and that is its year. */
  lemma YearBounds(day: int)
    ensures DayFromYear(YearOf(day)) <= day < DayFromYear(YearOf(day) + 1)
  {
    var y := 1970 + if day < 0 then day / 365 else 0;
    EarlyYears(y);
    YearFromBounds(day, y);
  }

  lemma YearIsUnique(day: int, y: int)
    requires DayFromYear(y) <= day < DayFromYear(y + 1)
    ensures YearOf(day) == y
  {
    YearBounds(day);
    var z := YearOf(day);
    if z < y {
      YearsGrow(z + 1, y);
    } else if y < z {
      YearsGrow(y + 1, z);
    }
  }

  // ----- months and days -----

  lemma {:induction false} MonthBounds(y: int, k: int, m: int)
    requires 1 <= m <= 12
    ensures var r := MonthFrom(y, k, m);
            m <= r <= 12 && (DaysBefore(y, m) <= k ==> DaysBefore(y, r) <= k) && (r < 12 ==> k < DaysBefore(y, r + 1))
    decreases 12 - m
  {
    if m < 12 && k >= DaysBefore(y, m + 1) {
      MonthBounds(y, k, m + 1);
    }
  }

  lemma {:induction false} MonthsGrow(y: int, m: int, r: int)
    requires 1 <= m <= r <= 13
    ensures DaysBefore(y, m) + 28 * (r - m) <= DaysBefore(y, r)
    decreases r - m
  {
    if m < r {
      MonthsGrow(y, m, r - 1);
    }
  }

  lemma MonthIsUnique(y: int, k: int, m: int)
    requires 1 <= m <= 12 && DaysBefore(y, m) <= k < DaysBefore(y, m + 1)
    ensures MonthFrom(y, k, 1) == m
  {
    MonthBounds(y, k, 1);
    var r := MonthFrom(y, k, 1);
    MonthsGrow(y, 1, m);
    if r < m {
      MonthsGrow(y, r + 1, m);
    } else if m < r {
      MonthsGrow(y, m + 1, r);
    }
  }

  /** The date of a day number is a date, and its day number is the one started from. */
  lemma DateRoundTrip(day: int)
    ensures IsDate(YearOf(day), MonthOf(day), DomOf(day))
    ensures DayNumber(YearOf(day), MonthOf(day), DomOf(day)) == day
  {
    YearBounds(day);
    var y := YearOf(day);
    YearStep(y);
    MonthBounds(y, day - DayFromYear(y), 1);
  }

  /** A date is recovered from its day number. */
  lemma DayNumberRoundTrip(y: int, m: int, dom: int)
    requires IsDate(y, m, dom)
    ensures YearOf(DayNumber(y, m, dom)) == y
    ensures MonthOf(DayNumber(y, m, dom)) == m && DomOf(DayNumber(y, m, dom)) == dom
  {
    var day := DayNumber(y, m, dom);
    YearStep(y);
    MonthsGrow(y, 1, m);
    MonthsGrow(y, m + 1, 13);
    YearIsUnique(day, y);
    MonthIsUnique(y, day - DayFromYear(y), m);
  }

  /** One more in the day of the month is one more day, also across months and years. */
  lemma NextDate(day: int)
    ensures DayNumber(YearOf(day), MonthOf(day), DomOf(day) + 1) == day + 1
  {
    DateRoundTrip(day);
  }

  /** Among any eight years in a row there is a leap year, also across a century without one. */
  lemma LeapYearWithinEight(y: int) returns (z: int)
    ensures y <= z < y + 8 && IsLeap(z)
  {
    z := y + (4 - y % 4) % 4;
    assert z % 4 == 0;
    if !IsLeap(z) {
      assert (z + 4) % 100 == 4;
      z := z + 4;
    }
  }

  // ----- the calendar of almanacs -----

  /** January and February count as the months 13 and 14 of the year before. */
  function MarchYear(y: int, m: int): int {
    if m <= 2 then y - 1 else y
  }

  function MarchMonth(m: int): int {
    if m <= 2 then m + 12 else m
  }

  /** The leap days of all years up to and including `a`. */
  function LeapDays(a: int): int {
    a / 4 - a / 100 + a / 400
  }

  lemma YearInLeapDays(y: int)
    ensures DayFromYear(y) == 365 * y + LeapDays(y - 1) - 719527
  {
    assert (y - 1969) / 4 == (y - 1) / 4 - 492;
    assert (y - 1901) / 100 == (y - 1) / 100 - 19;
    assert (y - 1601) / 400 == (y - 1) / 400 - 4;
  }

  /** Days are counted as by the usual formula for years that begin in March; 1 January 1970 is day 0. */
  lemma DaysOfMarchYears(y: int, m: int, dom: int)
    requires 1 <= m <= 12
    ensures DayNumber(y, m, dom)
            == 365 * MarchYear(y, m) + LeapDays(MarchYear(y, m)) + (153 * (MarchMonth(m) - 3) + 2) / 5 + dom - 719469
    ensures DayNumber(1970, 1, 1) == 0
  {
    YearStep(y);
    YearInLeapDays(y);
    YearInLeapDays(y + 1);
  }

  /** Zeller's congruence, which begins the week with Saturday; here 0 is Sunday. */
  function Zeller(y: int, m: int, dom: int): int {
    var a := MarchYear(y, m);
    ((dom + 13 * (MarchMonth(m) + 1) / 5 + a + a / 4 - a / 100 + a / 400) % 7 + 6) % 7
  }

  lemma WeekdayIsZellers(y: int, m: int, dom: int)
    requires 1 <= m <= 12
    ensures WeekdayOf(DayNumber(y, m, dom)) == Zeller(y, m, dom)
    ensures WeekdayOf(DayNumber(1970, 1, 1)) == 4
  {
    DaysOfMarchYears(y, m, dom);
    var a, k := MarchYear(y, m), MarchMonth(m) - 3;
    var month := 13 * (k + 4) / 5;
    var sum := dom + month + a + LeapDays(a);
    MonthOfZeller(k);
    var q :| (153 * k + 2) / 5 == month - 10 + 7 * q;
    assert DayNumber(y, m, dom) + 4 == sum + 6 + 7 * (52 * a + q - 102783);
    SameWeekday(sum + 6, 52 * a + q - 102783);
    SameWeekday(sum % 7 + 6, sum / 7);
  }

  lemma MonthOfZeller(k: int)
    requires 0 <= k <= 11
    ensures exists q :: (153 * k + 2) / 5 == 13 * (k + 4) / 5 - 10 + 7 * q
  {
    var q := ((153 * k + 2) / 5 - 13 * (k + 4) / 5 + 10) / 7;
    assert (153 * k + 2) / 5 == 13 * (k + 4) / 5 - 10 + 7 * q;
  }

  lemma SameWeekday(n: int, weeks: int)
    ensures (n + 7 * weeks) % 7 == n % 7
  {
  }
}
