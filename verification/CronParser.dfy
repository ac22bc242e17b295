/** The five-field cron expression parser. */
module CronParser {
  import opened Arithmetic
  import opened Options
  import opened Text

  // Names, if any, stand for min, min + 1, and so on.
  datatype Bounds = Bounds(min: nat, max: nat, names: seq<string>)

  const MONTH_NAMES := ["jan", "feb", "mar", "apr", "may", "jun", "jul", "aug", "sep", "oct", "nov", "dec"]
  const DOW_NAMES := ["sun", "mon", "tue", "wed", "thu", "fri", "sat"]

  const MINUTE := Bounds(0, 59, [])
  const HOUR := Bounds(0, 23, [])
  const DOM := Bounds(1, 31, [])
  const MONTH := Bounds(1, 12, MONTH_NAMES)
  const DOW := Bounds(0, 6, DOW_NAMES)

  const FIELD_BOUNDS := [MINUTE, HOUR, DOM, MONTH, DOW]

  datatype Error =
    | FieldCount | TimeZonePrefix | EmptyField
    | TooManySlashes | TooManyHyphens | NotANumber | BadStep
    | BelowMinimum | AboveMaximum | StartAfterEnd

  // The values start, start + step, ... up to end.
  datatype Segment = Segment(start: int, end: int, step: int)

  // Inherited: a name that the source's name table finds among the members every object
  // inherits. What the source then computes with is not a number; it is not modelled further.
  datatype Parsed<+T> = Ok(value: T) | Bad(error: Error) | Inherited

  datatype Range = Range(segment: Segment, star: bool)
  datatype Field = Field(values: seq<int>, star: bool)
  datatype Cron = Cron(minute: Field, hour: Field, dom: Field, month: Field, dow: Field)

  // ----- numbers and names -----

  function Pow2(n: nat): nat {
    if n == 0 then 1 else 2 * Pow2(n - 1)
  }

  /** The smallest integer that a double no longer holds as a finite number. */
  const DOUBLE_OVERFLOW: int := Pow2(1024) - Pow2(970)

  function ParseIntStrict(s: string): Option<nat> {
    var negative := s != "" && s[0] == '-';
    var digits := if s != "" && (s[0] == '+' || s[0] == '-') then s[1..] else s;
    if digits == "" || !AllDigits(digits) then None
    else
      var n := DecimalValue(digits);
      if n >= DOUBLE_OVERFLOW || (negative && n > 0) then None else Some(n)
  }

  function LowerChar(c: char): char {
    if 'A' <= c <= 'Z' then ((c as int) + 32) as char else c
  }

  function ToLower(s: string): (r: string)
    ensures |r| == |s|
  {
    seq(|s|, i requires 0 <= i < |s| => LowerChar(s[i]))
  }

  function IndexOf(names: seq<string>, name: string): Option<nat> {
    if names == [] then None
    else if names[0] == name then Some(0)
    else match IndexOf(names[1..], name)
      case Some(i) => Some(i + 1)
      case None => None
  }

  function ParseIntOrName(s: string, b: Bounds): Parsed<nat> {
    var name := ToLower(s);
    if b.names != [] && IndexOf(b.names, name).Some? then Ok(b.min + IndexOf(b.names, name).value)
    else if b.names != [] && (name == "constructor" || name == "__proto__") then Inherited
    else match ParseIntStrict(s)
      case Some(n) => Ok(n)
      case None => Bad(NotANumber)
  }

  // ----- one segment -----

  /** The ends of "a" or "a-b" before the step is known, and whether it is a wildcard. */
  function GetEnds(lowAndHigh: seq<string>, b: Bounds): Parsed<(nat, nat, bool)>
    requires |lowAndHigh| >= 1
  {
    if lowAndHigh[0] == "*" || lowAndHigh[0] == "?" then Ok((b.min, b.max, true))
    else match ParseIntOrName(lowAndHigh[0], b)
      case Bad(e) => Bad(e)
      case Inherited => Inherited
      case Ok(lo) =>
        if |lowAndHigh| == 1 then Ok((lo, lo, false))
        else match ParseIntOrName(lowAndHigh[1], b)
          case Bad(e) => Bad(e)
          case Inherited => Inherited
          case Ok(hi) => Ok((lo, hi, false))
  }

  function GetRange(expr: string, b: Bounds): Parsed<Range> {
    var rangeAndStep := Split(expr, '/');
    if |rangeAndStep| > 2 then Bad(TooManySlashes)
    else
      var lowAndHigh := Split(rangeAndStep[0], '-');
      if |lowAndHigh| > 2 then Bad(TooManyHyphens)
      else match GetEnds(lowAndHigh, b)
        case Bad(e) => Bad(e)
        case Inherited => Inherited
        case Ok((start, end, star)) =>
          if |rangeAndStep| == 1 then CheckedRange(start, end, 1, star, b)
          else match ParseIntStrict(rangeAndStep[1])
            case None => Bad(BadStep)
            case Some(step) =>
              if step == 0 then Bad(BadStep)
              else CheckedRange(start, if |lowAndHigh| == 1 then b.max else end, step, star && step == 1, b)
  }

  function CheckedRange(start: int, end: int, step: int, star: bool, b: Bounds): Parsed<Range> {
    if start < b.min then Bad(BelowMinimum)
    else if end > b.max then Bad(AboveMaximum)
    else if start > end then Bad(StartAfterEnd)
    else Ok(Range(Segment(start, end, step), star))
  }

  /** A range that is accepted lies in the bounds, and a wildcard covers them. */
  lemma RangeInBounds(expr: string, b: Bounds)
    requires b.min <= b.max && GetRange(expr, b).Ok?
    ensures var r := GetRange(expr, b).value;
            && b.min <= r.segment.start <= r.segment.end <= b.max && r.segment.step >= 1
            && (r.star ==> r.segment == Segment(b.min, b.max, 1))
  {
  }

  // ----- one field -----

  /** The value is one of the segment's. */
  predicate Hits(seg: Segment, v: int)
    requires seg.step >= 1
  {
    seg.start <= v <= seg.end && (v - seg.start) % seg.step == 0
  }

  /** Empty pieces between commas are dropped. */
  function NonEmpty(parts: seq<string>): seq<string> {
    if parts == [] then []
    else if parts[0] == "" then NonEmpty(parts[1..])
    else [parts[0]] + NonEmpty(parts[1..])
  }

  /** The ranges of the parts in order, or what the first unacceptable part yields. */
  function GetRanges(parts: seq<string>, b: Bounds): (r: Parsed<seq<Range>>)
    ensures r.Ok? ==> |r.value| == |parts| && forall i :: 0 <= i < |parts| ==> GetRange(parts[i], b) == Ok(r.value[i])
  {
    if parts == [] then Ok([])
    else match GetRange(parts[0], b)
      case Bad(e) => Bad(e)
      case Inherited => Inherited
      case Ok(range) =>
        match GetRanges(parts[1..], b)
        case Bad(e) => Bad(e)
        case Inherited => Inherited
        case Ok(rest) => Ok([range] + rest)
  }

  predicate Ascending(s: seq<int>) {
    forall i, j :: 0 <= i < j < |s| ==> s[i] < s[j]
  }

  /** What a field stands for: exactly the values its ranges hit, in ascending order. */
  ghost predicate FieldOf(f: Field, ranges: seq<Range>) {
    Ascending(f.values) && Collected(f.values, f.star, ranges)
  }

  // The source's Set: its members in the order in which they were added.
  predicate Distinct(s: seq<int>) {
    forall i, j :: 0 <= i < j < |s| ==> s[i] != s[j]
  }

  /** `x` put where it belongs in an ascending list. */
  function Insert(x: int, s: seq<int>): seq<int> {
    if s == [] || x < s[0] then [x] + s else [s[0]] + Insert(x, s[1..])
  }

  function Sorted(s: seq<int>): seq<int> {
    if s == [] then [] else Insert(s[0], Sorted(s[1..]))
  }

  lemma {:induction false} InsertIsAscending(x: int, s: seq<int>)
    requires Ascending(s) && x !in s
    ensures Ascending(Insert(x, s))
    ensures forall v :: v in Insert(x, s) <==> v == x || v in s
  {
    if s == [] || x < s[0] {
      assert forall i :: 0 <= i < |s| ==> x < s[i];
    } else {
      InsertIsAscending(x, s[1..]);
      var t := Insert(x, s[1..]);
      forall i | 0 <= i < |t|
        ensures s[0] < t[i]
      {
        assert t[i] in t;
      }
      assert s == [s[0]] + s[1..];
    }
  }

  lemma {:induction false} SortedIsAscending(s: seq<int>)
    requires Distinct(s)
    ensures Ascending(Sorted(s))
    ensures forall v :: v in Sorted(s) <==> v in s
  {
    if s != [] {
      SortedIsAscending(s[1..]);
      InsertIsAscending(s[0], Sorted(s[1..]));
      assert s == [s[0]] + s[1..];
    }
  }

  /** The values and the wildcard mark gathered from some ranges. */
  ghost predicate Collected(values: seq<int>, star: bool, ranges: seq<Range>) {
    && (forall i :: 0 <= i < |ranges| ==> ranges[i].segment.step >= 1)
    && (forall v :: v in values <==> exists i :: 0 <= i < |ranges| && Hits(ranges[i].segment, v))
    && (star <==> exists i :: 0 <= i < |ranges| && ranges[i].star)
  }

  lemma CollectOne(values: seq<int>, star: bool, ranges: seq<Range>, r: Range, values': seq<int>)
    requires Collected(values, star, ranges) && r.segment.step >= 1
    requires forall v :: v in values' <==> v in values || Hits(r.segment, v)
    ensures Collected(values', star || r.star, ranges + [r])
  {
    var ranges' := ranges + [r];
    assert ranges'[|ranges|] == r;
    assert forall i :: 0 <= i < |ranges| ==> ranges'[i] == ranges[i];
    forall v
      ensures v in values' <==> exists i :: 0 <= i < |ranges'| && Hits(ranges'[i].segment, v)
    {
      if v in values {
        var i :| 0 <= i < |ranges| && Hits(ranges[i].segment, v);
        assert Hits(ranges'[i].segment, v);
      }
    }
  }

  /** Splits at commas, adds up what the parts hit, and sorts. */
  method ParseField(text: string, b: Bounds) returns (r: Parsed<Field>)
    requires b.min <= b.max
    ensures var parts := NonEmpty(Split(text, ','));
            match GetRanges(parts, b)
            case Bad(e) => r == Bad(e)
            case Inherited => r == Inherited
            case Ok(ranges) => if parts == [] then r == Bad(EmptyField) else r.Ok? && FieldOf(r.value, ranges)
  {
    var parts := NonEmpty(Split(text, ','));
    if |parts| == 0 {
      return Bad(EmptyField);
    }
    var values: seq<int> := [];
    var star := false;
    ghost var ranges: seq<Range> := [];
    for i := 0 to |parts|
      invariant |ranges| == i && forall k :: 0 <= k < i ==> GetRange(parts[k], b) == Ok(ranges[k])
      invariant Distinct(values) && Collected(values, star, ranges)
    {
      var range := GetRange(parts[i], b);
      if !range.Ok? {
        FirstFailure(parts, b, i);
        return if range.Bad? then Bad(range.error) else Inherited;
      }
      RangeInBounds(parts[i], b);
      var filled := Fill(values, range.value.segment);
      CollectOne(values, star, ranges, range.value, filled);
      values := filled;
      star := star || range.value.star;
      ranges := ranges + [range.value];
    }
    AllAccepted(parts, b, ranges);
    SortedIsAscending(values);
    r := Ok(Field(Sorted(values), star));
  }

  /** Adds the segment's values one by one. */
  method Fill(values: seq<int>, seg: Segment) returns (filled: seq<int>)
    requires seg.step >= 1 && Distinct(values)
    ensures Distinct(filled)
    ensures forall v :: v in filled <==> v in values || Hits(seg, v)
  {
    filled := values;
    var v := seg.start;
    ghost var n: nat := 0;
    while v <= seg.end
      invariant v == seg.start + n * seg.step && Distinct(filled)
      invariant forall x :: x in filled <==> x in values || (Hits(seg, x) && x < v)
      decreases seg.end - v
    {
      QuotientIsUnique(v - seg.start, n, seg.step);
      forall x | Hits(seg, x) && v <= x < v + seg.step
        ensures x == v
      {
        NextHit(seg, n, x);
      }
      if v !in filled {
        filled := filled + [v];
      }
      n := n + 1;
      v := v + seg.step;
    }
  }

  /** Between two values of a segment there is no third. */
  lemma NextHit(seg: Segment, n: nat, x: int)
    requires seg.step >= 1 && (x - seg.start) % seg.step == 0
    requires seg.start + n * seg.step <= x < seg.start + n * seg.step + seg.step
    ensures x == seg.start + n * seg.step
  {
    QuotientIsUnique(x - seg.start, n, seg.step);
  }

  lemma {:induction false} FirstFailure(parts: seq<string>, b: Bounds, i: nat)
    requires i < |parts| && !GetRange(parts[i], b).Ok?
    requires forall k :: 0 <= k < i ==> GetRange(parts[k], b).Ok?
    ensures match GetRange(parts[i], b)
            case Bad(e) => GetRanges(parts, b) == Bad(e)
            case Inherited => GetRanges(parts, b) == Inherited
  {
    if i > 0 {
      FirstFailure(parts[1..], b, i - 1);
    }
  }

  lemma {:induction false} AllAccepted(parts: seq<string>, b: Bounds, ranges: seq<Range>)
    requires |ranges| == |parts|
    requires forall k :: 0 <= k < |parts| ==> GetRange(parts[k], b) == Ok(ranges[k])
    ensures GetRanges(parts, b) == Ok(ranges)
  {
    if parts != [] {
      AllAccepted(parts[1..], b, ranges[1..]);
      assert ranges == [ranges[0]] + ranges[1..];
    }
  }

  /** What a field's text yields: its ranges, or why it is not accepted. */
  function FieldRanges(text: string, b: Bounds): Parsed<seq<Range>> {
    var parts := NonEmpty(Split(text, ','));
    if parts == [] then Bad(EmptyField) else GetRanges(parts, b)
  }

  ghost predicate WellFormedField(f: Field, b: Bounds) {
    && f.values != [] && Ascending(f.values)
    && (forall v :: v in f.values ==> b.min <= v <= b.max)
    && (f.star ==> forall v :: b.min <= v <= b.max ==> v in f.values)
  }

  /** An accepted field has values, all within its bounds, and a wildcard field has all of them. */
  lemma FieldIsWellFormed(text: string, b: Bounds, f: Field)
    requires b.min <= b.max && FieldRanges(text, b).Ok? && FieldOf(f, FieldRanges(text, b).value)
    ensures WellFormedField(f, b)
  {
    var parts := NonEmpty(Split(text, ','));
    var ranges := FieldRanges(text, b).value;
    forall i | 0 <= i < |ranges|
      ensures b.min <= ranges[i].segment.start <= ranges[i].segment.end <= b.max
      ensures ranges[i].star ==> ranges[i].segment == Segment(b.min, b.max, 1)
    {
      RangeInBounds(parts[i], b);
    }
    assert Hits(ranges[0].segment, ranges[0].segment.start);
    assert ranges[0].segment.start in f.values;
    if f.star {
      var i :| 0 <= i < |ranges| && ranges[i].star;
      forall v | b.min <= v <= b.max
        ensures v in f.values
      {
        assert Hits(ranges[i].segment, v);
      }
    }
  }

  // ----- the whole expression -----

  predicate IsSpace(c: char) {
    var n := c as int;
    || 0x9 <= n <= 0xD || n == 0x20 || n == 0xA0 || n == 0x1680 || 0x2000 <= n <= 0x200A
    || n == 0x2028 || n == 0x2029 || n == 0x202F || n == 0x205F || n == 0x3000 || n == 0xFEFF
  }

  /** The maximal runs of characters that are not white space. */
  function Words(s: string): (r: seq<string>)
    ensures s != "" && !IsSpace(s[0]) ==> r != []
  {
    if s == "" then []
    else
      var rest := Words(s[1..]);
      if IsSpace(s[0]) then rest
      else if |s| > 1 && !IsSpace(s[1]) then [[s[0]] + rest[0]] + rest[1..]
      else [[s[0]]] + rest
  }

  function UpperChar(c: char): char {
    if 'a' <= c <= 'z' then ((c as int) - 32) as char else c
  }

  /** The text begins with `prefix`, which is in capitals, in any mixture of cases. */
  predicate HasPrefixAnyCase(s: string, prefix: string) {
    |s| >= |prefix| && forall i :: 0 <= i < |prefix| ==> UpperChar(s[i]) == prefix[i]
  }

  /** The ranges of the fields in order, or what the first unacceptable one yields. */
  function ExprRanges(words: seq<string>, bounds: seq<Bounds>): (r: Parsed<seq<seq<Range>>>)
    requires |words| == |bounds|
    ensures r.Ok? ==> |r.value| == |words|
                      && forall i :: 0 <= i < |words| ==> FieldRanges(words[i], bounds[i]) == Ok(r.value[i])
  {
    if words == [] then Ok([])
    else match FieldRanges(words[0], bounds[0])
      case Bad(e) => Bad(e)
      case Inherited => Inherited
      case Ok(ranges) =>
        match ExprRanges(words[1..], bounds[1..])
        case Bad(e) => Bad(e)
        case Inherited => Inherited
        case Ok(rest) => Ok([ranges] + rest)
  }

  function CronRanges(expr: string): (r: Parsed<seq<seq<Range>>>)
    ensures r.Ok? ==> |r.value| == 5
  {
    var words := Words(expr);
    if |words| != 5 then Bad(FieldCount)
    else if HasPrefixAnyCase(words[0], "TZ=") || HasPrefixAnyCase(words[0], "CRON_TZ=") then Bad(TimeZonePrefix)
    else ExprRanges(words, FIELD_BOUNDS)
  }

  ghost predicate CronOf(c: Cron, ranges: seq<seq<Range>>)
    requires |ranges| == 5
  {
    && FieldOf(c.minute, ranges[0]) && FieldOf(c.hour, ranges[1]) && FieldOf(c.dom, ranges[2])
    && FieldOf(c.month, ranges[3]) && FieldOf(c.dow, ranges[4])
  }

  ghost predicate WellFormed(c: Cron) {
    && WellFormedField(c.minute, MINUTE) && WellFormedField(c.hour, HOUR) && WellFormedField(c.dom, DOM)
    && WellFormedField(c.month, MONTH) && WellFormedField(c.dow, DOW)
  }

  /** The field is what the text stands for. */
  ghost predicate ReadAs(text: string, b: Bounds, f: Field) {
    FieldRanges(text, b).Ok? && FieldOf(f, FieldRanges(text, b).value) && WellFormedField(f, b)
  }

  /** Field after field; the first one that is not accepted decides. */
  method ParseFields(words: seq<string>, bounds: seq<Bounds>) returns (r: Parsed<seq<Field>>)
    requires |words| == |bounds| && forall i :: 0 <= i < |bounds| ==> bounds[i].min <= bounds[i].max
    ensures match ExprRanges(words, bounds)
            case Bad(e) => r == Bad(e)
            case Inherited => r == Inherited
            case Ok(ranges) =>
              && r.Ok? && |r.value| == |words|
              && forall i :: 0 <= i < |words| ==> FieldOf(r.value[i], ranges[i]) && WellFormedField(r.value[i], bounds[i])
  {
    var parsed: seq<Field> := [];
    for i := 0 to |words|
      invariant |parsed| == i
      invariant forall k :: 0 <= k < i ==> ReadAs(words[k], bounds[k], parsed[k])
    {
      var field := ParseField(words[i], bounds[i]);
      if !field.Ok? {
        FirstBadField(words, bounds, i);
        return if field.Bad? then Bad(field.error) else Inherited;
      }
      FieldIsWellFormed(words[i], bounds[i], field.value);
      assert ReadAs(words[i], bounds[i], field.value);
      parsed := parsed + [field.value];
    }
    AllFieldsAccepted(words, bounds);
    r := Ok(parsed);
  }

  method ParseCron(expr: string) returns (r: Parsed<Cron>)
    ensures match CronRanges(expr)
            case Bad(e) => r == Bad(e)
            case Inherited => r == Inherited
            case Ok(ranges) => r.Ok? && CronOf(r.value, ranges) && WellFormed(r.value)
  {
    var words := Words(expr);
    if |words| != 5 {
      return Bad(FieldCount);
    }
    if HasPrefixAnyCase(words[0], "TZ=") || HasPrefixAnyCase(words[0], "CRON_TZ=") {
      return Bad(TimeZonePrefix);
    }
    var parsed := ParseFields(words, FIELD_BOUNDS);
    if !parsed.Ok? {
      return if parsed.Bad? then Bad(parsed.error) else Inherited;
    }
    var fields := parsed.value;
    r := Ok(Cron(fields[0], fields[1], fields[2], fields[3], fields[4]));
  }

  /** The ranges leave no choice: they determine a field, and so the expression. */
  lemma FieldIsUnique(f: Field, g: Field, ranges: seq<Range>)
    requires FieldOf(f, ranges) && FieldOf(g, ranges)
    ensures f == g
  {
    SameAscending(f.values, g.values);
  }

  lemma {:induction false} SameAscending(a: seq<int>, b: seq<int>)
    requires Ascending(a) && Ascending(b) && forall v :: v in a <==> v in b
    ensures a == b
  {
    assert a != [] ==> a[0] in a && a[0] in b;
    assert b != [] ==> b[0] in b && b[0] in a;
    if a != [] {
      assert a[0] == b[0];
      assert a == [a[0]] + a[1..] && b == [b[0]] + b[1..];
      forall v
        ensures v in a[1..] <==> v in b[1..]
      {
        assert v in a <==> v == a[0] || v in a[1..];
        assert v in b <==> v == b[0] || v in b[1..];
      }
      SameAscending(a[1..], b[1..]);
    }
  }

  lemma CronIsUnique(c: Cron, d: Cron, ranges: seq<seq<Range>>)
    requires |ranges| == 5 && CronOf(c, ranges) && CronOf(d, ranges)
    ensures c == d
  {
    FieldIsUnique(c.minute, d.minute, ranges[0]);
    FieldIsUnique(c.hour, d.hour, ranges[1]);
    FieldIsUnique(c.dom, d.dom, ranges[2]);
    FieldIsUnique(c.month, d.month, ranges[3]);
    FieldIsUnique(c.dow, d.dow, ranges[4]);
  }

  lemma {:induction false} FirstBadField(words: seq<string>, bounds: seq<Bounds>, i: nat)
    requires |words| == |bounds| && i < |words| && !FieldRanges(words[i], bounds[i]).Ok?
    requires forall k :: 0 <= k < i ==> FieldRanges(words[k], bounds[k]).Ok?
    ensures match FieldRanges(words[i], bounds[i])
            case Bad(e) => ExprRanges(words, bounds) == Bad(e)
            case Inherited => ExprRanges(words, bounds) == Inherited
  {
    if i > 0 {
      FirstBadField(words[1..], bounds[1..], i - 1);
    }
  }

  lemma {:induction false} AllFieldsAccepted(words: seq<string>, bounds: seq<Bounds>)
    requires |words| == |bounds|
    requires forall k :: 0 <= k < |words| ==> FieldRanges(words[k], bounds[k]).Ok?
    ensures ExprRanges(words, bounds).Ok?
  {
    if words != [] {
      AllFieldsAccepted(words[1..], bounds[1..]);
    }
  }

  // ----- printing and parsing -----

  /** "a-b/n" */
  function PrintSegment(seg: Segment): string
    requires seg.start >= 0 && seg.end >= 0 && seg.step >= 0
  {
    Decimal(seg.start) + "-" + Decimal(seg.end) + "/" + Decimal(seg.step)
  }

  predicate Printable(seg: Segment, b: Bounds) {
    0 <= b.min <= seg.start <= seg.end <= b.max && 1 <= seg.step < DOUBLE_OVERFLOW
  }

  /** A segment within the bounds, or the wildcard. */
  predicate PrintableRange(r: Range, b: Bounds) {
    Printable(r.segment, b) && (r.star ==> r.segment == Segment(b.min, b.max, 1))
  }

  function PrintRange(r: Range, b: Bounds): string
    requires PrintableRange(r, b)
  {
    if r.star then "*" else PrintSegment(r.segment)
  }

  predicate AllPrintable(ranges: seq<Range>, b: Bounds) {
    forall i :: 0 <= i < |ranges| ==> PrintableRange(ranges[i], b)
  }

  function PrintRanges(ranges: seq<Range>, b: Bounds): (parts: seq<string>)
    requires AllPrintable(ranges, b)
    ensures |parts| == |ranges| && forall i :: 0 <= i < |ranges| ==> parts[i] == PrintRange(ranges[i], b)
  {
    if ranges == [] then [] else [PrintRange(ranges[0], b)] + PrintRanges(ranges[1..], b)
  }

  /** The names of a field are not numerals, and its numbers are within a double's reach. */
  predicate Reasonable(b: Bounds) {
    b.max < DOUBLE_OVERFLOW && forall i :: 0 <= i < |b.names| ==> !AllDigits(b.names[i])
  }

  lemma {:induction false} Pow2Grows(n: nat)
    ensures Pow2(n) >= n + 1
  {
    if n > 0 {
      Pow2Grows(n - 1);
    }
  }

  lemma {:induction false} Pow2Monotone(m: nat, n: nat)
    requires m <= n
    ensures Pow2(m) <= Pow2(n)
  {
    if m < n {
      Pow2Monotone(m, n - 1);
    }
  }

  lemma OverflowIsFar()
    ensures DOUBLE_OVERFLOW >= 970
  {
    Pow2Monotone(970, 1023);
    assert Pow2(1024) == 2 * Pow2(1023);
    Pow2Grows(970);
  }

  lemma BoundsAreReasonable(i: nat)
    requires i < 5
    ensures Reasonable(FIELD_BOUNDS[i])
  {
    OverflowIsFar();
    forall k | 0 <= k < |FIELD_BOUNDS[i].names|
      ensures !AllDigits(FIELD_BOUNDS[i].names[k])
    {
      assert !IsDigit(FIELD_BOUNDS[i].names[k][0]);
    }
  }

  lemma {:induction false} IndexOfMember(names: seq<string>, name: string)
    ensures IndexOf(names, name).Some? ==> name in names
  {
    if names != [] {
      IndexOfMember(names[1..], name);
    }
  }

  lemma NumeralIsStrict(n: nat)
    requires n < DOUBLE_OVERFLOW
    ensures ParseIntStrict(Decimal(n)) == Some(n)
  {
    DecimalRoundTrip(n);
    assert IsDigit(Decimal(n)[0]);
  }

  lemma DigitsHaveNoCase(s: string)
    requires AllDigits(s)
    ensures ToLower(s) == s
  {
  }

  lemma NumeralParses(n: nat, b: Bounds)
    requires Reasonable(b) && n < DOUBLE_OVERFLOW
    ensures ParseIntStrict(Decimal(n)) == Some(n)
    ensures ParseIntOrName(Decimal(n), b) == Ok(n)
  {
    var s := Decimal(n);
    NumeralIsStrict(n);
    assert IsDigit(s[0]);
    DigitsHaveNoCase(s);
    IndexOfMember(b.names, s);
  }

  /** The printed text falls apart into the three numerals. */
  lemma PrintedSegmentSplits(seg: Segment, b: Bounds)
    requires Printable(seg, b)
    ensures var lo, hi, step := Decimal(seg.start), Decimal(seg.end), Decimal(seg.step);
            && Split(PrintSegment(seg), '/') == [lo + "-" + hi, step]
            && Split(lo + "-" + hi, '-') == [lo, hi]
    ensures ',' !in PrintSegment(seg) && PrintSegment(seg) != ""
  {
    var lo, hi, step := Decimal(seg.start), Decimal(seg.end), Decimal(seg.step);
    DigitsAreNot(lo, '/');
    DigitsAreNot(hi, '/');
    DigitsAreNot(step, '/');
    SplitHead(lo + "-" + hi, '/', step);
    SplitHead(step, '/', "");
    DigitsAreNot(lo, '-');
    DigitsAreNot(hi, '-');
    SplitHead(lo, '-', hi);
    SplitHead(hi, '-', "");
    DigitsAreNot(lo, ',');
    DigitsAreNot(hi, ',');
    DigitsAreNot(step, ',');
  }

  lemma PrintedEndsParse(lo: nat, hi: nat, b: Bounds)
    requires Reasonable(b) && lo < DOUBLE_OVERFLOW && hi < DOUBLE_OVERFLOW
    ensures GetEnds([Decimal(lo), Decimal(hi)], b) == Ok((lo, hi, false))
  {
    NumeralParses(lo, b);
    NumeralParses(hi, b);
    assert IsDigit(Decimal(lo)[0]);
  }

  /** A printed segment is parsed back to itself. */
  lemma PrintedSegmentParses(seg: Segment, b: Bounds)
    requires Printable(seg, b) && Reasonable(b)
    ensures GetRange(PrintSegment(seg), b) == Ok(Range(seg, false))
  {
    PrintedSegmentSplits(seg, b);
    PrintedEndsParse(seg.start, seg.end, b);
    NumeralParses(seg.step, b);
  }

  lemma {:induction false} NothingEmpty(parts: seq<string>)
    requires forall i :: 0 <= i < |parts| ==> parts[i] != ""
    ensures NonEmpty(parts) == parts
  {
    if parts != [] {
      NothingEmpty(parts[1..]);
    }
  }

  /** "*" and "?" stand for everything; with a step above one they are no wildcard any more. */
  lemma WildcardParses(c: char, n: nat, b: Bounds)
    requires (c == '*' || c == '?') && b.min <= b.max && 1 <= n < DOUBLE_OVERFLOW
    ensures GetRange([c], b) == Ok(Range(Segment(b.min, b.max, 1), true))
    ensures GetRange([c] + "/" + Decimal(n), b) == Ok(Range(Segment(b.min, b.max, n), n == 1))
  {
    assert c !in "/-";
    SplitHead([c], '/', Decimal(n));
    SplitHead([c], '-', "");
    DigitsAreNot(Decimal(n), '/');
    SplitHead(Decimal(n), '/', "");
    NumeralIsStrict(n);
  }

  lemma PrintedRangeIsOneWord(r: Range, b: Bounds)
    requires PrintableRange(r, b)
    ensures OneWord(PrintRange(r, b))
  {
    assert IsDigit(Decimal(r.segment.start)[0]);
  }

  /** A printed range is parsed back to itself. */
  lemma PrintedRangeParses(r: Range, b: Bounds)
    requires PrintableRange(r, b) && Reasonable(b)
    ensures GetRange(PrintRange(r, b), b) == Ok(r) && ',' !in PrintRange(r, b)
  {
    if r.star {
      OverflowIsFar();
      WildcardParses('*', 1, b);
    } else {
      PrintedSegmentSplits(r.segment, b);
      PrintedSegmentParses(r.segment, b);
    }
  }

  function PrintField(ranges: seq<Range>, b: Bounds): string
    requires AllPrintable(ranges, b)
  {
    Join(PrintRanges(ranges, b), ',')
  }

  /** Printing any list of ranges and parsing the text gives these ranges. */
  lemma PrintedFieldParses(ranges: seq<Range>, b: Bounds)
    requires ranges != [] && Reasonable(b) && AllPrintable(ranges, b)
    ensures FieldRanges(PrintField(ranges, b), b) == Ok(ranges) && OneWord(PrintField(ranges, b))
  {
    var parts := PrintRanges(ranges, b);
    forall i | 0 <= i < |ranges|
      ensures ',' !in parts[i] && OneWord(parts[i]) && GetRange(parts[i], b) == Ok(ranges[i])
    {
      PrintedRangeIsOneWord(ranges[i], b);
      PrintedRangeParses(ranges[i], b);
    }
    SplitJoin(parts, ',');
    NothingEmpty(parts);
    AllAccepted(parts, b, ranges);
    JoinedIsOneWord(parts);
  }

  // ----- the whole expression, printed -----

  /** Text that begins with a digit or a star and holds no white space. */
  predicate OneWord(s: string) {
    s != "" && (IsDigit(s[0]) || s[0] == '*') && forall i :: 0 <= i < |s| ==> !IsSpace(s[i])
  }

  lemma {:induction false} JoinedIsOneWord(parts: seq<string>)
    requires parts != [] && forall i :: 0 <= i < |parts| ==> OneWord(parts[i])
    ensures OneWord(Join(parts, ','))
  {
    if |parts| > 1 {
      JoinedIsOneWord(parts[1..]);
    }
  }

  lemma {:induction false} FirstWord(a: string, rest: string)
    requires a != "" && forall i :: 0 <= i < |a| ==> !IsSpace(a[i])
    ensures Words(a + " " + rest) == [a] + Words(rest) && Words(a) == [a]
  {
    var s := a + " " + rest;
    assert s[1..] == a[1..] + " " + rest;
    if |a| == 1 {
      assert s[1] == ' ' && IsSpace(' ') && s[1..][0] == ' ' && s[1..][1..] == rest;
      assert a == [a[0]] && a[1..] == "" && Words("") == [];
    } else {
      FirstWord(a[1..], rest);
      assert s[0] == a[0] && s[1] == a[1] && !IsSpace(a[0]) && !IsSpace(a[1]);
      assert a == [a[0]] + a[1..];
      assert ([a[1..]] + Words(rest))[1..] == Words(rest) && [a[1..]][1..] == [];
    }
  }

  lemma {:induction false} WordsJoin(words: seq<string>)
    requires words != [] && forall i :: 0 <= i < |words| ==> OneWord(words[i])
    ensures Words(Join(words, ' ')) == words
  {
    FirstWord(words[0], Join(words[1..], ' '));
    if |words| > 1 {
      WordsJoin(words[1..]);
    }
  }

  /** A list of ranges for each of the five fields, none of them empty. */
  predicate PrintableCron(fields: seq<seq<Range>>) {
    |fields| == 5 && forall i :: 0 <= i < 5 ==> fields[i] != [] && AllPrintable(fields[i], FIELD_BOUNDS[i])
  }

  function PrintCron(fields: seq<seq<Range>>): string
    requires PrintableCron(fields)
  {
    Join(seq(5, i requires 0 <= i < 5 => PrintField(fields[i], FIELD_BOUNDS[i])), ' ')
  }

  lemma {:induction false} ExprRangesAre(words: seq<string>, bounds: seq<Bounds>, ranges: seq<seq<Range>>)
    requires |words| == |bounds| == |ranges|
    requires forall k :: 0 <= k < |words| ==> FieldRanges(words[k], bounds[k]) == Ok(ranges[k])
    ensures ExprRanges(words, bounds) == Ok(ranges)
  {
    if words != [] {
      ExprRangesAre(words[1..], bounds[1..], ranges[1..]);
      assert FieldRanges(words[0], bounds[0]) == Ok(ranges[0]);
      assert ranges == [ranges[0]] + ranges[1..];
    }
  }

  /** Such text names no time zone. */
  lemma NoTimeZone(expr: string, words: seq<string>)
    requires |words| == 5 && OneWord(words[0]) && Words(expr) == words
    ensures CronRanges(expr) == ExprRanges(words, FIELD_BOUNDS)
  {
    assert UpperChar(words[0][0]) == words[0][0];
    assert "TZ="[0] == 'T' && "CRON_TZ="[0] == 'C';
  }

  /** An expression printed from any ranges within the bounds of the five fields is read as those ranges. */
  lemma PrintedCronParses(fields: seq<seq<Range>>)
    requires PrintableCron(fields)
    ensures CronRanges(PrintCron(fields)) == Ok(fields)
  {
    var words := seq(5, i requires 0 <= i < 5 => PrintField(fields[i], FIELD_BOUNDS[i]));
    forall i | 0 <= i < 5
      ensures OneWord(words[i]) && FieldRanges(words[i], FIELD_BOUNDS[i]) == Ok(fields[i])
    {
      BoundsAreReasonable(i);
      PrintedFieldParses(fields[i], FIELD_BOUNDS[i]);
    }
    WordsJoin(words);
    NoTimeZone(PrintCron(fields), words);
    ExprRangesAre(words, FIELD_BOUNDS, fields);
  }

  lemma AcceptedRangeIsPrintable(expr: string, b: Bounds)
    requires b.min <= b.max && GetRange(expr, b).Ok?
    ensures PrintableRange(GetRange(expr, b).value, b)
  {
    RangeInBounds(expr, b);
    OverflowIsFar();
  }

  lemma AcceptedFieldIsPrintable(text: string, b: Bounds)
    requires b.min <= b.max && FieldRanges(text, b).Ok?
    ensures FieldRanges(text, b).value != [] && AllPrintable(FieldRanges(text, b).value, b)
  {
    var parts, ranges := NonEmpty(Split(text, ',')), FieldRanges(text, b).value;
    forall i | 0 <= i < |ranges|
      ensures PrintableRange(ranges[i], b)
    {
      AcceptedRangeIsPrintable(parts[i], b);
    }
  }

  /** Whatever is accepted means the same as the five printed fields that it is read as. */
  lemma NormalForm(expr: string)
    requires CronRanges(expr).Ok?
    ensures PrintableCron(CronRanges(expr).value)
    ensures CronRanges(PrintCron(CronRanges(expr).value)) == CronRanges(expr)
  {
    var words, fields := Words(expr), CronRanges(expr).value;
    forall i | 0 <= i < 5
      ensures fields[i] != [] && AllPrintable(fields[i], FIELD_BOUNDS[i])
    {
      assert FieldRanges(words[i], FIELD_BOUNDS[i]) == Ok(fields[i]);
      AcceptedFieldIsPrintable(words[i], FIELD_BOUNDS[i]);
    }
    PrintedCronParses(fields);
  }

  // ----- the other forms of a segment -----

  lemma NumeralSplits(v: nat, n: nat)
    ensures Split(Decimal(v), '/') == [Decimal(v)] && Split(Decimal(v), '-') == [Decimal(v)]
    ensures Split(Decimal(v) + "/" + Decimal(n), '/') == [Decimal(v), Decimal(n)]
  {
    DigitsAreNot(Decimal(v), '/');
    DigitsAreNot(Decimal(v), '-');
    DigitsAreNot(Decimal(n), '/');
    SplitHead(Decimal(v), '/', Decimal(n));
    SplitHead(Decimal(v), '-', "");
    SplitHead(Decimal(n), '/', "");
  }

  lemma NumberEndsParse(v: nat, b: Bounds)
    requires Reasonable(b) && v < DOUBLE_OVERFLOW
    ensures GetEnds([Decimal(v)], b) == Ok((v, v, false))
  {
    NumeralParses(v, b);
    assert IsDigit(Decimal(v)[0]);
  }

  /** "a" is the number alone. */
  lemma NumberParses(v: nat, b: Bounds)
    requires Reasonable(b) && b.min <= v <= b.max
    ensures GetRange(Decimal(v), b) == Ok(Range(Segment(v, v, 1), false))
  {
    NumeralSplits(v, 0);
    NumberEndsParse(v, b);
  }

  /** "a/n" goes on in steps to the end of the field. */
  lemma NumberWithStepParses(v: nat, n: nat, b: Bounds)
    requires Reasonable(b) && b.min <= v <= b.max && 1 <= n < DOUBLE_OVERFLOW
    ensures GetRange(Decimal(v) + "/" + Decimal(n), b) == Ok(Range(Segment(v, b.max, n), false))
  {
    NumeralSplits(v, n);
    NumberEndsParse(v, b);
    NumeralIsStrict(n);
  }

  predicate DistinctNames(names: seq<string>) {
    forall k, l :: 0 <= k < l < |names| ==> names[k] != names[l]
  }

  lemma {:induction false} FirstIndex(names: seq<string>, i: nat)
    requires i < |names| && DistinctNames(names)
    ensures IndexOf(names, names[i]) == Some(i)
  {
    if i > 0 {
      FirstIndex(names[1..], i - 1);
    }
  }

  /** A name, in whatever mixture of cases, stands for its place in the list. */
  lemma NameParses(s: string, i: nat, b: Bounds)
    requires i < |b.names| && DistinctNames(b.names) && ToLower(s) == b.names[i]
    ensures ParseIntOrName(s, b) == Ok(b.min + i)
  {
    FirstIndex(b.names, i);
  }

  // Names are told apart by their second and third letters.
  function NameCode(name: string): int {
    if |name| == 3 then 1000 * name[1] as int + name[2] as int else 0
  }

  /** The names of months and weekdays are such names: January is 1, Sunday is 0. */
  lemma NamesAreDistinct()
    ensures DistinctNames(MONTH_NAMES) && DistinctNames(DOW_NAMES)
  {
    forall k, l | 0 <= k < l < 12
      ensures NameCode(MONTH_NAMES[k]) != NameCode(MONTH_NAMES[l])
    {
    }
    forall k, l | 0 <= k < l < 7
      ensures NameCode(DOW_NAMES[k]) != NameCode(DOW_NAMES[l])
    {
    }
  }
}
