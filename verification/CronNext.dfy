/** The search for the next moments at which a cron expression fires. Times are UTC milliseconds. */
module CronNext {
  import opened Arithmetic
  import opened Calendar
  import opened CronParser

  const MS_PER_DAY := 86400000
  const MS_PER_HOUR := 3600000
  const MS_PER_MINUTE := 60000

  // The scan covers this many days.
  const HORIZON_DAYS := 366 * 12

  function DayOf(t: int): int { t / MS_PER_DAY }
  function HourOf(t: int): int { t / MS_PER_HOUR % 24 }
  function MinuteOf(t: int): int { t / MS_PER_MINUTE % 60 }

  function Moment(day: int, h: int, m: int): int {
    day * MS_PER_DAY + h * MS_PER_HOUR + m * MS_PER_MINUTE
  }

  function FloorToMinute(t: int): int {
    t - t % MS_PER_MINUTE
  }

  /** Date.UTC moves the years 0 to 99 into the twentieth century. */
  function DateUTC(y: int, m: int, dom: int, h: int, mi: int): int
    requires 1 <= m <= 12
  {
    Moment(DayNumber(if 0 <= y <= 99 then 1900 + y else y, m, dom), h, mi)
  }

  lemma MomentParts(day: int, h: int, m: int)
    requires 0 <= h < 24 && 0 <= m < 60
    ensures var t := Moment(day, h, m);
            DayOf(t) == day && HourOf(t) == h && MinuteOf(t) == m && t % MS_PER_MINUTE == 0
  {
    var t := Moment(day, h, m);
    assert t / MS_PER_HOUR == day * 24 + h;
    assert t / MS_PER_MINUTE == (day * 24 + h) * 60 + m;
  }

  lemma PartsMoment(t: int)
    requires t % MS_PER_MINUTE == 0
    ensures t == Moment(DayOf(t), HourOf(t), MinuteOf(t))
    ensures 0 <= HourOf(t) < 24 && 0 <= MinuteOf(t) < 60
  {
    var k := t / MS_PER_MINUTE;
    assert t / MS_PER_HOUR == k / 60 && DayOf(t) == k / 60 / 24;
  }

  // ----- when the expression fires -----

  /** Day of the month and day of the week must both match if one of them is a wildcard, else either may. */
  predicate DayMatches(c: Cron, day: int) {
    && MonthOf(day) in c.month.values
    && var domMatch, dowMatch := DomOf(day) in c.dom.values, WeekdayOf(day) in c.dow.values;
       if c.dom.star || c.dow.star then domMatch && dowMatch else domMatch || dowMatch
  }

  /** The expression fires at `t`, judged by the calendar fields of `t` itself. */
  predicate Fires(c: Cron, t: int) {
    && t % MS_PER_MINUTE == 0 && DayMatches(c, DayOf(t))
    && HourOf(t) in c.hour.values && MinuteOf(t) in c.minute.values
  }

  // ----- the same, told by date and time of day -----

  /** Milliseconds since the beginning of 1970 in UTC. */
  function Millis(y: int, m: int, dom: int, h: int, mi: int): int
    requires 1 <= m <= 12
  {
    1000 * (86400 * DayNumber(y, m, dom) + 3600 * h + 60 * mi)
  }

  /**
   The five fields, for a date and a time of the day. Of the two fields for the day one that is a wildcard leaves
   it to the other; two that are not are alternatives.
   */
  predicate Matches(c: Cron, y: int, m: int, dom: int, h: int, mi: int) {
    && mi in c.minute.values && h in c.hour.values && m in c.month.values
    && if c.dom.star && c.dow.star then true
       else if c.dom.star then Zeller(y, m, dom) in c.dow.values
       else if c.dow.star then dom in c.dom.values
       else dom in c.dom.values || Zeller(y, m, dom) in c.dow.values
  }

  lemma FiresByDate(c: Cron, y: int, m: int, dom: int, h: int, mi: int)
    requires WellFormed(c) && IsDate(y, m, dom) && 0 <= h < 24 && 0 <= mi < 60
    ensures Fires(c, Millis(y, m, dom, h, mi)) <==> Matches(c, y, m, dom, h, mi)
  {
    var day := DayNumber(y, m, dom);
    assert Millis(y, m, dom, h, mi) == Moment(day, h, mi);
    MomentParts(day, h, mi);
    DayNumberRoundTrip(y, m, dom);
    WeekdayIsZellers(y, m, dom);
    assert 1 <= dom <= 31;
    assert c.dom.star ==> dom in c.dom.values;
    assert 0 <= WeekdayOf(day) <= 6 && (c.dow.star ==> WeekdayOf(day) in c.dow.values);
  }

  /** And nothing fires but at the beginning of a minute of some date. */
  lemma FiringIsDate(c: Cron, t: int) returns (y: int, m: int, dom: int, h: int, mi: int)
    requires Fires(c, t)
    ensures IsDate(y, m, dom) && 0 <= h < 24 && 0 <= mi < 60 && t == Millis(y, m, dom, h, mi)
  {
    y, m, dom, h, mi := YearOf(DayOf(t)), MonthOf(DayOf(t)), DomOf(DayOf(t)), HourOf(t), MinuteOf(t);
    DateRoundTrip(DayOf(t));
    PartsMoment(t);
  }

  predicate Hit(c: Cron, start: int, t: int) {
    t > start && Fires(c, t)
  }

  /** `out` is the beginning, at most `n` long, of the increasing list of all hits before `limit`. */
  ghost predicate FirstRuns(c: Cron, start: int, limit: int, n: int, out: seq<int>) {
    && Ascending(out)
    && (out == [] || |out| <= n)
    && (forall t :: t in out ==> Hit(c, start, t) && t < limit)
    && (forall t :: Hit(c, start, t) && t < limit ==> t in out || (|out| >= n && forall x :: x in out ==> x < t))
  }

  // ----- what the scan comes across -----

  /** What Date.UTC makes of the calendar fields of `t`. */
  function Shown(t: int): int {
    DateRoundTrip(DayOf(t));
    DateUTC(YearOf(DayOf(t)), MonthOf(DayOf(t)), DomOf(DayOf(t)), HourOf(t), MinuteOf(t))
  }

  // A search: the expression, the moment behind which and the one from which on it looks, how many moments
  // it wants, and what is shown for a moment.
  datatype Search = Search(c: Cron, start: int, first: int, n: int, shown: int -> int)

  /** The scan lists `t`, by the moment `shown(t)` that it shows for it. */
  predicate Found(s: Search, t: int) {
    Fires(s.c, t) && s.shown(t) > s.start
  }

  /** `ts` is the beginning, at most `n` long, of the increasing list of all that is found from `first` on, before `limit`. */
  ghost predicate FirstFound(s: Search, limit: int, ts: seq<int>) {
    && Ascending(ts)
    && (ts == [] || |ts| <= s.n)
    && (forall t :: t in ts ==> Found(s, t) && s.first <= t < limit)
    && (forall t :: Found(s, t) && s.first <= t < limit ==> t in ts || (|ts| >= s.n && forall x :: x in ts ==> x < t))
  }

  /** `out` is what is shown for `ts`, one by one. */
  predicate Displays(shown: int -> int, out: seq<int>, ts: seq<int>) {
    |out| == |ts| && forall i :: 0 <= i < |ts| ==> out[i] == shown(ts[i])
  }

  /** What is shown for this minute is built from the calendar fields of its day. */
  predicate ShowsMinute(shown: int -> int, day: int, h: int, m: int) {
    1 <= MonthOf(day) <= 12 && shown(Moment(day, h, m)) == DateUTC(YearOf(day), MonthOf(day), DomOf(day), h, m)
  }

  ghost predicate ShowsFields(shown: int -> int) {
    forall day, h, m :: 0 <= h < 24 && 0 <= m < 60 ==> ShowsMinute(shown, day, h, m)
  }

  lemma Advance(s: Search, lo: int, hi: int, out: seq<int>)
    requires lo <= hi && FirstFound(s, lo, out)
    requires |out| >= s.n || forall t :: lo <= t < hi ==> !Found(s, t)
    ensures FirstFound(s, hi, out)
  {
  }

  lemma AppendRun(s: Search, t: int, out: seq<int>)
    requires FirstFound(s, t, out) && |out| < s.n && Found(s, t) && s.first <= t
    ensures FirstFound(s, t + 1, out + [t])
  {
    forall i | 0 <= i < |out|
      ensures out[i] < t
    {
      assert out[i] in out;
    }
  }

  /** Position by position, two such lists agree. */
  lemma {:induction false} SameRunAt(s: Search, limit: int, a: seq<int>, b: seq<int>, i: nat)
    requires FirstFound(s, limit, a) && FirstFound(s, limit, b)
    requires i <= |a| && i <= |b|
    ensures a[..i] == b[..i]
  {
    if i > 0 {
      SameRunAt(s, limit, a, b, i - 1);
      NotBefore(s, limit, a, b, i - 1);
      NotBefore(s, limit, b, a, i - 1);
    }
  }

  lemma NotBefore(s: Search, limit: int, a: seq<int>, b: seq<int>, i: nat)
    requires FirstFound(s, limit, a) && FirstFound(s, limit, b)
    requires i < |a| && i < |b| && a[..i] == b[..i]
    ensures b[i] <= a[i]
  {
    assert a[i] in a && b[i] in b;
    forall k | 0 <= k < i
      ensures b[k] < a[i]
    {
      assert a[..i][k] == b[..i][k];
    }
  }

  /** The description leaves no choice: there is at most one such list. */
  lemma FirstFoundIsUnique(s: Search, limit: int, a: seq<int>, b: seq<int>)
    requires FirstFound(s, limit, a) && FirstFound(s, limit, b)
    ensures a == b
  {
    NotLonger(s, limit, a, b);
    NotLonger(s, limit, b, a);
    SameRunAt(s, limit, a, b, |a|);
  }

  lemma NotLonger(s: Search, limit: int, a: seq<int>, b: seq<int>)
    requires FirstFound(s, limit, a) && FirstFound(s, limit, b)
    ensures |b| <= |a|
  {
    if |b| > |a| {
      assert b[|a|] in b;
      SameRunAt(s, limit, a, b, |a|);
      forall k | 0 <= k < |a|
        ensures a[k] < b[|a|]
      {
        assert b[..|a|][k] == a[..|a|][k];
      }
      assert false;
    }
  }

  // ----- the scan -----

  lemma MinuteAt(day: int, h: int, lo: int, hi: int, t: int)
    requires 0 <= h < 24 && 0 <= lo && hi <= 60 && t % MS_PER_MINUTE == 0
    requires Moment(day, h, lo) - MS_PER_MINUTE < t < Moment(day, h, hi)
    ensures lo <= MinuteOf(t) < hi
  {
    PartsMoment(t);
    var k := t / MS_PER_MINUTE;
    assert t == k * MS_PER_MINUTE;
    var m := k - (day * 24 + h) * 60;
    assert t == Moment(day, h, m);
    assert lo <= m < hi;
    MomentParts(day, h, m);
  }

  /** No minute between two neighbouring listed ones is a hit. */
  lemma MinuteGap(s: Search, day: int, h: int, lo: int, hi: int)
    requires 0 <= h < 24 && 0 <= lo && hi <= 60
    requires forall m :: lo <= m < hi ==> m !in s.c.minute.values
    ensures forall t :: Moment(day, h, lo) - MS_PER_MINUTE < t < Moment(day, h, hi) ==> !Found(s, t)
  {
    forall t | Moment(day, h, lo) - MS_PER_MINUTE < t < Moment(day, h, hi)
      ensures !Found(s, t)
    {
      if t % MS_PER_MINUTE == 0 {
        MinuteAt(day, h, lo, hi, t);
      }
    }
  }

  /** Neither is any minute of the hours between two neighbouring listed ones. */
  lemma HourGap(s: Search, day: int, lo: int, hi: int)
    requires 0 <= lo && hi <= 24
    requires forall h :: lo <= h < hi ==> h !in s.c.hour.values
    ensures forall t :: Moment(day, lo, 0) <= t < Moment(day, hi, 0) ==> !Found(s, t)
  {
    forall t | Moment(day, lo, 0) <= t < Moment(day, hi, 0)
      ensures !Found(s, t)
    {
      if t % MS_PER_MINUTE == 0 {
        PartsMoment(t);
        assert DayOf(t) == day;
        assert lo <= HourOf(t) < hi;
      }
    }
  }

  lemma DayGap(s: Search, day: int)
    requires !DayMatches(s.c, day)
    ensures forall t :: Moment(day, 0, 0) <= t < Moment(day + 1, 0, 0) ==> !Found(s, t)
  {
    forall t | Moment(day, 0, 0) <= t < Moment(day + 1, 0, 0)
      ensures !Found(s, t)
    {
      assert DayOf(t) == day;
    }
  }

  lemma ShownIs(shown: int -> int, day: int, h: int, m: int)
    requires ShowsFields(shown) && 0 <= h < 24 && 0 <= m < 60
    ensures 1 <= MonthOf(day) <= 12
    ensures shown(Moment(day, h, m)) == DateUTC(YearOf(day), MonthOf(day), DomOf(day), h, m)
  {
    assert ShowsMinute(shown, day, h, m);
  }

  /** The position behind the first `i` listed values. */
  function Behind(values: seq<int>, i: nat): int
    requires i <= |values|
  {
    if i == 0 then 0 else values[i - 1] + 1
  }

  lemma NoneBetween(values: seq<int>, i: nat)
    requires Ascending(values) && i <= |values|
    ensures forall v :: Behind(values, i) <= v && (i < |values| ==> v < values[i]) ==> v !in values
  {
    forall v | Behind(values, i) <= v && (i < |values| ==> v < values[i])
      ensures v !in values
    {
      forall k | 0 <= k < |values|
        ensures values[k] != v
      {
        if k < i - 1 {
          assert values[k] < values[i - 1];
        } else if k > i {
          assert values[i] < values[k];
        }
      }
    }
  }

  ghost predicate InBounds(f: Field, max: int) {
    Ascending(f.values) && forall i :: 0 <= i < |f.values| ==> 0 <= f.values[i] <= max
  }

  lemma FieldInBounds(f: Field, b: Bounds)
    requires WellFormedField(f, b)
    ensures InBounds(f, b.max)
  {
    forall i | 0 <= i < |f.values|
      ensures 0 <= f.values[i] <= b.max
    {
      assert f.values[i] in f.values;
    }
  }

  lemma OneMoreShown(shown: int -> int, out: seq<int>, ts: seq<int>, t: int)
    requires Displays(shown, out, ts)
    ensures Displays(shown, out + [shown(t)], ts + [t])
  {
  }

  /** A listed minute of a matching day that is shown behind the start is found. */
  lemma MinuteFound(s: Search, day: int, h: int, ts: seq<int>, j: nat)
    requires DayMatches(s.c, day) && InBounds(s.c.minute, 59) && 0 <= h < 24 && h in s.c.hour.values
    requires s.first <= Moment(day, 0, 0) && |ts| < s.n && j < |s.c.minute.values|
    requires FirstFound(s, Moment(day, h, Behind(s.c.minute.values, j)), ts)
    requires s.shown(Moment(day, h, s.c.minute.values[j])) > s.start
    ensures FirstFound(s, Moment(day, h, Behind(s.c.minute.values, j + 1)),
                       ts + [Moment(day, h, s.c.minute.values[j])])
  {
    var t := Moment(day, h, s.c.minute.values[j]);
    ToListedMinute(s, day, h, ts, j);
    AppendRun(s, t, ts);
    ToNextMinute(s, day, h, ts + [t], s.c.minute.values[j]);
  }

  /** Any other one is passed over. */
  lemma MinutePassed(s: Search, day: int, h: int, ts: seq<int>, j: nat)
    requires DayMatches(s.c, day) && InBounds(s.c.minute, 59) && 0 <= h < 24 && h in s.c.hour.values
    requires j < |s.c.minute.values| && s.shown(Moment(day, h, s.c.minute.values[j])) <= s.start
    requires FirstFound(s, Moment(day, h, Behind(s.c.minute.values, j)), ts)
    ensures FirstFound(s, Moment(day, h, Behind(s.c.minute.values, j + 1)), ts)
  {
    var t := Moment(day, h, s.c.minute.values[j]);
    ToListedMinute(s, day, h, ts, j);
    Advance(s, t, t + 1, ts);
    ToNextMinute(s, day, h, ts, s.c.minute.values[j]);
  }

  /** One listed minute of a matching day. */
  method RunOfMinute(s: Search, day: int, h: int, j: nat, before: seq<int>, ghost found: seq<int>)
    returns (out: seq<int>, ghost ts: seq<int>)
    requires ShowsFields(s.shown) && DayMatches(s.c, day) && InBounds(s.c.minute, 59) && 0 <= h < 24 && h in s.c.hour.values
    requires j < |s.c.minute.values| && s.first <= Moment(day, 0, 0) && |before| < s.n && Displays(s.shown, before, found)
    requires FirstFound(s, Moment(day, h, Behind(s.c.minute.values, j)), found)
    ensures Displays(s.shown, out, ts) && FirstFound(s, Moment(day, h, Behind(s.c.minute.values, j + 1)), ts)
  {
    var m := s.c.minute.values[j];
    ShownIs(s.shown, day, h, m);
    var t := DateUTC(YearOf(day), MonthOf(day), DomOf(day), h, m);
    if t > s.start {
      MinuteFound(s, day, h, found, j);
      OneMoreShown(s.shown, before, found, Moment(day, h, m));
      return before + [t], found + [Moment(day, h, m)];
    }
    MinutePassed(s, day, h, found, j);
    return before, found;
  }

  /** When the list is full, nothing that is found later in the hour matters. */
  lemma EnoughInHour(s: Search, day: int, h: int, j: nat, ts: seq<int>)
    requires InBounds(s.c.minute, 59) && j < |s.c.minute.values| && |ts| >= s.n
    requires FirstFound(s, Moment(day, h, Behind(s.c.minute.values, j + 1)), ts)
    ensures FirstFound(s, Moment(day, h + 1, 0), ts)
  {
    Advance(s, Moment(day, h, Behind(s.c.minute.values, j + 1)), Moment(day, h + 1, 0), ts);
  }

  lemma EnoughInDay(s: Search, day: int, i: nat, ts: seq<int>)
    requires InBounds(s.c.hour, 23) && i < |s.c.hour.values| && |ts| >= s.n
    requires FirstFound(s, Moment(day, Behind(s.c.hour.values, i + 1), 0), ts)
    ensures FirstFound(s, Moment(day + 1, 0, 0), ts)
  {
    Advance(s, Moment(day, Behind(s.c.hour.values, i + 1), 0), Moment(day + 1, 0, 0), ts);
  }

  /** One hour of a matching day: what is found in it is appended. */
  method RunsOfHour(s: Search, day: int, h: int, before: seq<int>, ghost found: seq<int>)
    returns (out: seq<int>, ghost ts: seq<int>)
    requires ShowsFields(s.shown) && DayMatches(s.c, day) && InBounds(s.c.minute, 59) && 0 <= h < 24 && h in s.c.hour.values
    requires s.first <= Moment(day, 0, 0) && |before| < s.n && Displays(s.shown, before, found)
    requires FirstFound(s, Moment(day, h, 0), found)
    ensures Displays(s.shown, out, ts) && FirstFound(s, Moment(day, h + 1, 0), ts)
  {
    out, ts := before, found;
    for j := 0 to |s.c.minute.values|
      invariant |out| < s.n && Displays(s.shown, out, ts)
      invariant FirstFound(s, Moment(day, h, Behind(s.c.minute.values, j)), ts)
    {
      out, ts := RunOfMinute(s, day, h, j, out, ts);
      if |out| >= s.n {
        EnoughInHour(s, day, h, j, ts);
        return;
      }
    }
    ToNextHour(s, day, h, ts);
  }

  /** From behind one listed minute to the next, which may be a hit. */
  lemma ToListedMinute(s: Search, day: int, h: int, out: seq<int>, j: nat)
    requires DayMatches(s.c, day) && InBounds(s.c.minute, 59) && 0 <= h < 24 && h in s.c.hour.values
    requires j < |s.c.minute.values|
    requires FirstFound(s, Moment(day, h, Behind(s.c.minute.values, j)), out)
    ensures FirstFound(s, Moment(day, h, s.c.minute.values[j]), out)
    ensures Fires(s.c, Moment(day, h, s.c.minute.values[j]))
  {
    var m := s.c.minute.values[j];
    NoneBetween(s.c.minute.values, j);
    MinuteGap(s, day, h, Behind(s.c.minute.values, j), m);
    Advance(s, Moment(day, h, Behind(s.c.minute.values, j)), Moment(day, h, m), out);
    MomentParts(day, h, m);
  }

  /** From behind the first instant of a listed minute to the end of that minute. */
  lemma ToNextMinute(s: Search, day: int, h: int, out: seq<int>, m: int)
    requires 0 <= h < 24 && 0 <= m < 60 && FirstFound(s, Moment(day, h, m) + 1, out)
    ensures FirstFound(s, Moment(day, h, m + 1), out)
  {
    MinuteGap(s, day, h, m + 1, m + 1);
    Advance(s, Moment(day, h, m) + 1, Moment(day, h, m + 1), out);
  }

  /** From behind the last listed minute to the end of the hour. */
  lemma ToNextHour(s: Search, day: int, h: int, out: seq<int>)
    requires InBounds(s.c.minute, 59) && 0 <= h < 24
    requires FirstFound(s, Moment(day, h, Behind(s.c.minute.values, |s.c.minute.values|)), out)
    ensures FirstFound(s, Moment(day, h + 1, 0), out)
  {
    var done := Behind(s.c.minute.values, |s.c.minute.values|);
    NoneBetween(s.c.minute.values, |s.c.minute.values|);
    MinuteGap(s, day, h, done, 60);
    Advance(s, Moment(day, h, done), Moment(day, h + 1, 0), out);
  }

  /** From behind one listed hour to the next, or to the end of the day. */
  lemma ToListedHour(s: Search, day: int, out: seq<int>, i: nat)
    requires InBounds(s.c.hour, 23) && i <= |s.c.hour.values|
    requires FirstFound(s, Moment(day, Behind(s.c.hour.values, i), 0), out)
    ensures FirstFound(s, Moment(day, if i < |s.c.hour.values| then s.c.hour.values[i] else 24, 0), out)
  {
    var lo, hi := Behind(s.c.hour.values, i), if i < |s.c.hour.values| then s.c.hour.values[i] else 24;
    NoneBetween(s.c.hour.values, i);
    HourGap(s, day, lo, hi);
    assert lo <= hi;
    Advance(s, Moment(day, lo, 0), Moment(day, hi, 0), out);
  }

  /** From behind the last listed hour to the end of the day. */
  lemma ToNextDay(s: Search, day: int, out: seq<int>)
    requires InBounds(s.c.hour, 23) && FirstFound(s, Moment(day, Behind(s.c.hour.values, |s.c.hour.values|), 0), out)
    ensures FirstFound(s, Moment(day + 1, 0, 0), out)
  {
    ToListedHour(s, day, out, |s.c.hour.values|);
    assert Moment(day, 24, 0) == Moment(day + 1, 0, 0);
  }

  /** The hour that stands at position `i` of the listed ones. */
  method RunsOfListedHour(s: Search, day: int, i: nat, before: seq<int>, ghost found: seq<int>)
    returns (out: seq<int>, ghost ts: seq<int>)
    requires ShowsFields(s.shown)
    requires DayMatches(s.c, day) && InBounds(s.c.minute, 59) && InBounds(s.c.hour, 23) && i < |s.c.hour.values|
    requires s.first <= Moment(day, 0, 0) && |before| < s.n && Displays(s.shown, before, found)
    requires FirstFound(s, Moment(day, Behind(s.c.hour.values, i), 0), found)
    ensures Displays(s.shown, out, ts) && FirstFound(s, Moment(day, Behind(s.c.hour.values, i + 1), 0), ts)
  {
    ToListedHour(s, day, found, i);
    out, ts := RunsOfHour(s, day, s.c.hour.values[i], before, found);
  }

  /** One matching day. */
  method RunsOfDay(s: Search, day: int, before: seq<int>, ghost found: seq<int>)
    returns (out: seq<int>, ghost ts: seq<int>)
    requires ShowsFields(s.shown)
    requires DayMatches(s.c, day) && InBounds(s.c.minute, 59) && InBounds(s.c.hour, 23) && |before| < s.n
    requires s.first <= Moment(day, 0, 0) && Displays(s.shown, before, found)
    requires FirstFound(s, Moment(day, 0, 0), found)
    ensures Displays(s.shown, out, ts) && FirstFound(s, Moment(day + 1, 0, 0), ts)
  {
    out, ts := before, found;
    for i := 0 to |s.c.hour.values|
      invariant |out| < s.n && Displays(s.shown, out, ts)
      invariant FirstFound(s, Moment(day, Behind(s.c.hour.values, i), 0), ts)
    {
      out, ts := RunsOfListedHour(s, day, i, out, ts);
      if |out| >= s.n {
        EnoughInDay(s, day, i, ts);
        return;
      }
    }
    ToNextDay(s, day, ts);
  }

  lemma SkipDay(s: Search, day: int, out: seq<int>)
    requires !DayMatches(s.c, day) && FirstFound(s, Moment(day, 0, 0), out)
    ensures FirstFound(s, Moment(day + 1, 0, 0), out)
  {
    DayGap(s, day);
    Advance(s, Moment(day, 0, 0), Moment(day + 1, 0, 0), out);
  }

  lemma FloorKeepsDay(from: int)
    ensures DayOf(FloorToMinute(from)) == DayOf(from)
  {
    var k := from / MS_PER_MINUTE;
    assert FloorToMinute(from) == k * MS_PER_MINUTE;
    assert DayOf(from) == k / 1440;
  }

  lemma NothingBefore(s: Search)
    ensures FirstFound(s, s.first, [])
  {
  }

  // Null: the expression is not accepted. Unknown: see CronParser.Inherited.
  datatype Preview = Null | Unknown | Times(runs: seq<int>)

  /** The day with which the scan begins: the one that is shown for the day of the start. */
  function FirstDay(start: int): int {
    DateRoundTrip(DayOf(start));
    DayOf(DateUTC(YearOf(DayOf(start)), MonthOf(DayOf(start)), DomOf(DayOf(start)), 0, 0))
  }

  /** The scan from the day `day` on, day by day, over the horizon. */
  method ScanDays(s: Search, day: int) returns (out: seq<int>, ghost ts: seq<int>)
    requires InBounds(s.c.minute, 59) && InBounds(s.c.hour, 23) && ShowsFields(s.shown) && s.first == Moment(day, 0, 0)
    ensures Displays(s.shown, out, ts) && FirstFound(s, Moment(day + HORIZON_DAYS, 0, 0), ts)
  {
    var today := day;
    out, ts := [], [];
    NothingBefore(s);
    var d := 0;
    while d < HORIZON_DAYS && |out| < s.n
      invariant 0 <= d <= HORIZON_DAYS && today == day + d && Displays(s.shown, out, ts)
      invariant FirstFound(s, Moment(today, 0, 0), ts)
      decreases HORIZON_DAYS - d
    {
      if DayMatches(s.c, today) {
        out, ts := RunsOfDay(s, today, out, ts);
      } else {
        SkipDay(s, today, ts);
      }
      today := Tomorrow(today);
      d := d + 1;
    }
    Advance(s, Moment(today, 0, 0), Moment(day + HORIZON_DAYS, 0, 0), ts);
  }

  /** setUTCDate with one more than the day of the month. */
  function Tomorrow(day: int): (r: int)
    ensures r == day + 1
  {
    DateRoundTrip(day);
    DayNumber(YearOf(day), MonthOf(day), DomOf(day) + 1)
  }

  lemma FieldsAreShown()
    ensures ShowsFields(Shown)
  {
    forall day, h, m | 0 <= h < 24 && 0 <= m < 60
      ensures ShowsMinute(Shown, day, h, m)
    {
      DateRoundTrip(day);
      MomentParts(day, h, m);
    }
  }

  /** The search for the next `n` moments from `from` on. */
  function SearchFrom(c: Cron, n: int, from: int): Search {
    Search(c, FloorToMinute(from), Moment(FirstDay(FloorToMinute(from)), 0, 0), n, Shown)
  }

  /** What is listed: the first `n` moments that the scan finds within the horizon, as they are shown. */
  ghost predicate Listed(c: Cron, n: int, from: int, out: seq<int>) {
    Lists(SearchFrom(c, n, from), out)
  }

  ghost predicate Lists(s: Search, out: seq<int>) {
    exists ts :: Displays(s.shown, out, ts) && FirstFound(s, s.first + HORIZON_DAYS * MS_PER_DAY, ts)
  }

  lemma ListsIsUnique(s: Search, a: seq<int>, b: seq<int>)
    requires Lists(s, a) && Lists(s, b)
    ensures a == b
  {
    var limit := s.first + HORIZON_DAYS * MS_PER_DAY;
    var ts :| Displays(s.shown, a, ts) && FirstFound(s, limit, ts);
    var us :| Displays(s.shown, b, us) && FirstFound(s, limit, us);
    FirstFoundIsUnique(s, limit, ts, us);
    assert a == b;
  }

  // ----- away from the years 0 to 99 -----

  /** Day numbers whose year Date.UTC takes at its word. */
  predicate PlainYear(day: int) {
    !(0 <= YearOf(day) <= 99)
  }

  /** The scan does not pass through the years 0 to 99. */
  ghost predicate PlainYears(from: int) {
    forall day :: DayOf(from) <= day < DayOf(from) + HORIZON_DAYS ==> PlainYear(day)
  }

  /** The first `n` hits behind the minute of `from`, within the horizon. */
  ghost predicate RunsFrom(c: Cron, n: int, from: int, out: seq<int>) {
    FirstRuns(c, FloorToMinute(from), Moment(DayOf(from) + HORIZON_DAYS, 0, 0), n, out)
  }

  lemma PlainIsShown(t: int)
    requires PlainYear(DayOf(t)) && t % MS_PER_MINUTE == 0
    ensures Shown(t) == t
  {
    DateRoundTrip(DayOf(t));
    PartsMoment(t);
  }

  lemma PlainFirstDay(from: int)
    requires PlainYears(from)
    ensures FirstDay(FloorToMinute(from)) == DayOf(from)
    ensures Moment(DayOf(from), 0, 0) <= FloorToMinute(from)
  {
    FloorKeepsDay(from);
    assert PlainYear(DayOf(from));
    DateRoundTrip(DayOf(from));
    MomentParts(DayOf(from), 0, 0);
  }

  /** A moment of the years 0 to 99 is shown nineteen centuries later, one of any other year as it is. */
  lemma ShownMeans(y: int, m: int, dom: int, h: int, mi: int)
    requires IsDate(y, m, dom) && 0 <= h < 24 && 0 <= mi < 60
    ensures Shown(Millis(y, m, dom, h, mi)) == Millis(if 0 <= y < 100 then y + 1900 else y, m, dom, h, mi)
  {
    assert Millis(y, m, dom, h, mi) == Moment(DayNumber(y, m, dom), h, mi);
    MomentParts(DayNumber(y, m, dom), h, mi);
    DayNumberRoundTrip(y, m, dom);
  }

  /** A moment that the scan comes across is shown as it is. */
  lemma PlainMoment(from: int, t: int)
    requires PlainYears(from) && t % MS_PER_MINUTE == 0
    requires Moment(DayOf(from), 0, 0) <= t < Moment(DayOf(from) + HORIZON_DAYS, 0, 0)
    ensures Shown(t) == t
  {
    assert DayOf(from) <= DayOf(t) < DayOf(from) + HORIZON_DAYS;
    PlainIsShown(t);
  }

  /** Between the day of the start and the horizon the scan finds exactly the hits. */
  lemma PlainFound(c: Cron, n: int, from: int, t: int)
    requires PlainYears(from) && t < Moment(DayOf(from) + HORIZON_DAYS, 0, 0)
    ensures var s := SearchFrom(c, n, from); Hit(c, s.start, t) <==> Found(s, t) && s.first <= t
  {
    PlainFirstDay(from);
    if Moment(DayOf(from), 0, 0) <= t && t % MS_PER_MINUTE == 0 {
      PlainMoment(from, t);
    }
  }

  /** The first moments that it finds are the first hits. */
  lemma PlainFirst(c: Cron, n: int, from: int, ts: seq<int>)
    requires PlainYears(from) && FirstFound(SearchFrom(c, n, from), Moment(DayOf(from) + HORIZON_DAYS, 0, 0), ts)
    ensures RunsFrom(c, n, from, ts)
  {
    var s, limit := SearchFrom(c, n, from), Moment(DayOf(from) + HORIZON_DAYS, 0, 0);
    forall t | t in ts
      ensures Hit(c, s.start, t) && t < limit
    {
      PlainFound(c, n, from, t);
    }
    forall t | Hit(c, s.start, t) && t < limit
      ensures t in ts || (|ts| >= n && forall x :: x in ts ==> x < t)
    {
      PlainFound(c, n, from, t);
    }
  }

  /** What has been found: the same as what is listed, if all of it is shown as it is. */
  lemma TimesFound(s: Search, out: seq<int>) returns (ts: seq<int>)
    requires Lists(s, out)
    ensures FirstFound(s, s.first + HORIZON_DAYS * MS_PER_DAY, ts)
    ensures (forall t :: t in ts ==> s.shown(t) == t) ==> out == ts
  {
    ts :| Displays(s.shown, out, ts) && FirstFound(s, s.first + HORIZON_DAYS * MS_PER_DAY, ts);
    if forall t :: t in ts ==> s.shown(t) == t {
      forall i | 0 <= i < |ts|
        ensures out[i] == ts[i]
      {
        assert ts[i] in ts;
      }
    }
  }

  lemma PlainShown(c: Cron, n: int, from: int, ts: seq<int>)
    requires PlainYears(from) && FirstFound(SearchFrom(c, n, from), Moment(DayOf(from) + HORIZON_DAYS, 0, 0), ts)
    ensures forall t :: t in ts ==> Shown(t) == t
  {
    PlainFirstDay(from);
    forall t | t in ts
      ensures Shown(t) == t
    {
      PlainMoment(from, t);
    }
  }

  /** Away from the years 0 to 99 what is listed are the next moments at which the expression fires. */
  lemma PlainListed(c: Cron, n: int, from: int, out: seq<int>)
    requires PlainYears(from) && Listed(c, n, from, out)
    ensures RunsFrom(c, n, from, out)
  {
    var s := SearchFrom(c, n, from);
    var ts := TimesFound(s, out);
    PlainFirstDay(from);
    PlainFirst(c, n, from, ts);
    PlainShown(c, n, from, ts);
  }

  /** What follows once the expression has been accepted. */
  method RunsOf(p: Cron, n: int, from: int) returns (out: seq<int>)
    requires WellFormed(p)
    ensures Listed(p, n, from, out) && (PlainYears(from) ==> RunsFrom(p, n, from, out))
  {
    FieldInBounds(p.minute, MINUTE);
    FieldInBounds(p.hour, HOUR);
    FieldsAreShown();
    var s := SearchFrom(p, n, from);
    ghost var ts;
    out, ts := ScanDays(s, FirstDay(s.start));
    assert Lists(s, out);
    if PlainYears(from) {
      PlainListed(p, n, from, out);
    }
  }

  /**
   The next `n` moments, after the minute of `from`, at which the expression fires: the first
   `n` of them in order, none skipped and none twice, as far as they lie within the horizon. In the
   years 0 to 99 the scan begins, and the moments are shown, nineteen centuries later.
   */
  method NextCronRuns(expr: string, n: int, from: int) returns (r: Preview)
    ensures match CronRanges(expr)
            case Bad(_) => r == Null
            case Inherited => r == Unknown
            case Ok(ranges) =>
              && r.Times?
              && exists c :: CronOf(c, ranges) && WellFormed(c) && Listed(c, n, from, r.runs)
                             && (PlainYears(from) ==> RunsFrom(c, n, from, r.runs))
  {
    var parsed := ParseCron(expr);
    if !parsed.Ok? {
      return if parsed.Bad? then Null else Unknown;
    }
    var out := RunsOf(parsed.value, n, from);
    r := Times(out);
  }

  /** A list of runs in plain words: ascending, behind the minute of the start, within 4392 days, and complete. */
  lemma RunsMean(c: Cron, n: int, from: int, out: seq<int>)
    requires RunsFrom(c, n, from, out)
    ensures forall i, j :: 0 <= i < j < |out| ==> out[i] < out[j]
    ensures |out| <= if n < 0 then 0 else n
    ensures forall t :: t in out ==> Fires(c, t) && from - from % 60000 < t < 86400000 * (from / 86400000 + 4392)
    ensures forall t :: Fires(c, t) && from - from % 60000 < t < 86400000 * (from / 86400000 + 4392) && t !in out ==>
              |out| >= n && forall x :: x in out ==> x < t
  {
  }

  /** Two results for the same expression, number and start are the same. */
  lemma PreviewIsUnique(ranges: seq<seq<Range>>, c: Cron, d: Cron, n: int, from: int, a: seq<int>, b: seq<int>)
    requires |ranges| == 5 && CronOf(c, ranges) && CronOf(d, ranges)
    requires Listed(c, n, from, a) && Listed(d, n, from, b)
    ensures a == b
  {
    CronIsUnique(c, d, ranges);
    ListsIsUnique(SearchFrom(c, n, from), a, b);
  }
}
