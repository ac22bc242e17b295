/**
 The texts that a segment of a cron field may be, form by form: what each of them means, and why any other is
 refused. Told by the texts alone, beside the parser.
 */
module CronForms {
  import opened Arithmetic
  import opened Options
  import opened Text
  import opened CronParser

  // "low", "low-high", "low/step" or "low-high/step".
  datatype Form = Form(low: string, high: Option<string>, step: Option<string>)

  function Ends(f: Form): string {
    if f.high.Some? then f.low + "-" + f.high.value else f.low
  }

  function Written(f: Form): string {
    if f.step.Some? then Ends(f) + "/" + f.step.value else Ends(f)
  }

  predicate Clean(f: Form) {
    && '/' !in f.low && '-' !in f.low && (f.high.Some? ==> '/' !in f.high.value && '-' !in f.high.value)
    && (f.step.Some? ==> '/' !in f.step.value)
  }

  predicate IsWildcard(f: Form) {
    f.low == "*" || f.low == "?"
  }

  lemma EndsSplit(f: Form)
    requires Clean(f)
    ensures '/' !in Ends(f)
    ensures Split(Ends(f), '-') == if f.high.Some? then [f.low, f.high.value] else [f.low]
  {
    if f.high.Some? {
      SplitHead(f.low, '-', f.high.value);
      SplitHead(f.high.value, '-', "");
    } else {
      SplitHead(f.low, '-', "");
    }
  }

  lemma FormSplits(f: Form)
    requires Clean(f)
    ensures Split(Written(f), '/') == if f.step.Some? then [Ends(f), f.step.value] else [Ends(f)]
    ensures Split(Ends(f), '-') == if f.high.Some? then [f.low, f.high.value] else [f.low]
  {
    EndsSplit(f);
    if f.step.Some? {
      SplitHead(Ends(f), '/', f.step.value);
      SplitHead(f.step.value, '/', "");
    } else {
      SplitHead(Ends(f), '/', "");
    }
  }

  // ----- wildcards -----

  /** "*" and "?" are the whole field, whatever stands behind a hyphen; a step above one makes them no wildcard. */
  lemma WildcardForms(f: Form, b: Bounds)
    requires Clean(f) && IsWildcard(f) && b.min <= b.max
    ensures f.step.None? ==> GetRange(Written(f), b) == Ok(Range(Segment(b.min, b.max, 1), true))
    ensures f.step.Some? && ParseIntStrict(f.step.value).Some? && ParseIntStrict(f.step.value).value > 0 ==>
              var n := ParseIntStrict(f.step.value).value;
              GetRange(Written(f), b) == Ok(Range(Segment(b.min, b.max, n), n == 1))
  {
    FormSplits(f);
  }

  // ----- values and ranges -----

  /** The ends, once they are known, against the bounds of the field. */
  function Checked(lo: nat, hi: nat, step: nat, b: Bounds): Parsed<Range> {
    if lo < b.min then Bad(BelowMinimum)
    else if b.max < hi then Bad(AboveMaximum)
    else if hi < lo then Bad(StartAfterEnd)
    else Ok(Range(Segment(lo, hi, step), false))
  }

  /** A value alone, or with a step, which runs to the end of the field. */
  lemma ValueForms(low: string, step: string, lo: nat, n: nat, b: Bounds)
    requires Clean(Form(low, None, Some(step))) && !IsWildcard(Form(low, None, None))
    requires ParseIntOrName(low, b) == Ok(lo)
    ensures GetRange(low, b) == Checked(lo, lo, 1, b)
    ensures ParseIntStrict(step) == Some(n) && n > 0 ==> GetRange(low + "/" + step, b) == Checked(lo, b.max, n, b)
  {
    FormSplits(Form(low, None, None));
    FormSplits(Form(low, None, Some(step)));
  }

  /** A range runs from its first value to its second one, and no further. */
  lemma RangeForms(low: string, high: string, step: string, lo: nat, hi: nat, n: nat, b: Bounds)
    requires Clean(Form(low, Some(high), Some(step))) && !IsWildcard(Form(low, None, None))
    requires ParseIntOrName(low, b) == Ok(lo) && ParseIntOrName(high, b) == Ok(hi)
    ensures GetRange(low + "-" + high, b) == Checked(lo, hi, 1, b)
    ensures ParseIntStrict(step) == Some(n) && n > 0 ==> GetRange(low + "-" + high + "/" + step, b) == Checked(lo, hi, n, b)
  {
    FormSplits(Form(low, Some(high), None));
    FormSplits(Form(low, Some(high), Some(step)));
  }

  /** "a-b" for numbers within the bounds. */
  lemma NumberRangeParses(lo: nat, hi: nat, b: Bounds)
    requires Reasonable(b) && b.min <= lo <= hi <= b.max
    ensures GetRange(Decimal(lo) + "-" + Decimal(hi), b) == Ok(Range(Segment(lo, hi, 1), false))
  {
    NumeralIsClean(lo);
    NumeralIsClean(hi);
    NumeralParses(lo, b);
    NumeralParses(hi, b);
    RangeForms(Decimal(lo), Decimal(hi), "", lo, hi, 1, b);
  }

  lemma NumeralIsClean(n: nat)
    ensures '/' !in Decimal(n) && '-' !in Decimal(n) && Decimal(n) != "*" && Decimal(n) != "?"
  {
    assert IsDigit(Decimal(n)[0]);
    DigitsAreNot(Decimal(n), '/');
    DigitsAreNot(Decimal(n), '-');
  }

  /** Names stand for their numbers on either side of the hyphen, in whatever mixture of cases. */
  lemma NameRangeParses(low: string, high: string, i: nat, j: nat, b: Bounds)
    requires i <= j < |b.names| && DistinctNames(b.names) && ToLower(low) == b.names[i] && ToLower(high) == b.names[j]
    requires Clean(Form(low, Some(high), None)) && !IsWildcard(Form(low, None, None)) && b.max == b.min + |b.names| - 1
    ensures GetRange(low + "-" + high, b) == Ok(Range(Segment(b.min + i, b.min + j, 1), false))
  {
    NameParses(low, i, b);
    NameParses(high, j, b);
    RangeForms(low, high, "", b.min + i, b.min + j, 1, b);
  }

  // ----- what is refused -----

  /** A value that is neither a number nor a name, on either side of the hyphen. */
  lemma UnreadableEnds(f: Form, b: Bounds)
    requires Clean(f) && !IsWildcard(f)
    ensures ParseIntOrName(f.low, b) == Bad(NotANumber) ==> GetRange(Written(f), b) == Bad(NotANumber)
    ensures ParseIntOrName(f.low, b).Ok? && f.high.Some? && ParseIntOrName(f.high.value, b) == Bad(NotANumber) ==>
              GetRange(Written(f), b) == Bad(NotANumber)
  {
    FormSplits(f);
  }

  /** A step that is no number, or zero. */
  lemma UnusableStep(f: Form, b: Bounds)
    requires Clean(f) && f.step.Some? && (ParseIntStrict(f.step.value) == None || ParseIntStrict(f.step.value) == Some(0))
    requires IsWildcard(f) || (ParseIntOrName(f.low, b).Ok? && (f.high.Some? ==> ParseIntOrName(f.high.value, b).Ok?))
    ensures GetRange(Written(f), b) == Bad(BadStep)
  {
    FormSplits(f);
  }

  lemma TwoSlashes(x: string, y: string, z: string, b: Bounds)
    ensures GetRange(x + "/" + y + "/" + z, b) == Bad(TooManySlashes)
  {
    TwoSeparators(x, '/', y, z);
  }

  lemma TwoHyphens(x: string, y: string, z: string, step: Option<string>, b: Bounds)
    requires '/' !in x && '/' !in y && '/' !in z && (step.Some? ==> '/' !in step.value)
    ensures GetRange(x + "-" + y + "-" + z + if step.Some? then "/" + step.value else "", b) == Bad(TooManyHyphens)
  {
    var ends := x + "-" + y + "-" + z;
    TwoSeparators(x, '-', y, z);
    if step.Some? {
      SplitHead(ends, '/', step.value);
      SplitHead(step.value, '/', "");
      assert ends + ("/" + step.value) == ends + "/" + step.value;
    } else {
      SplitHead(ends, '/', "");
      assert ends + "" == ends;
    }
  }

  lemma TwoSeparators(x: string, sep: char, y: string, z: string)
    ensures |Split(x + [sep] + y + [sep] + z, sep)| >= 3
  {
    var s := x + [sep] + y + [sep] + z;
    SplitCounts(s, sep);
    CountConcat(x + [sep] + y + [sep], z, sep);
    CountConcat(x + [sep] + y, [sep], sep);
    CountConcat(x + [sep], y, sep);
    CountConcat(x, [sep], sep);
    assert [sep][1..] == "";
  }

  /** There is no other text: it has one of the forms, or one slash or hyphen too many. */
  lemma EveryTextHasAForm(expr: string, b: Bounds) returns (f: Form)
    ensures (Clean(f) && Written(f) == expr) || GetRange(expr, b) == Bad(TooManySlashes)
            || GetRange(expr, b) == Bad(TooManyHyphens)
  {
    CutIsInverse(expr, '/');
    if CutAt(expr, '/').NoSeparator? {
      f := EndsHaveAForm(expr, expr, None, b);
    } else if '/' in CutAt(expr, '/').after {
      f := Form("", None, None);
      CutTwice(expr, CutAt(expr, '/').before, CutAt(expr, '/').after, b);
    } else {
      f := EndsHaveAForm(expr, CutAt(expr, '/').before, Some(CutAt(expr, '/').after), b);
    }
  }

  lemma CutTwice(expr: string, x: string, rest: string, b: Bounds)
    requires '/' in rest && expr == x + "/" + rest
    ensures GetRange(expr, b) == Bad(TooManySlashes)
  {
    CutIsInverse(rest, '/');
    var y, z := CutAt(rest, '/').before, CutAt(rest, '/').after;
    assert expr == x + "/" + y + "/" + z;
    TwoSlashes(x, y, z, b);
  }

  lemma EndsHaveAForm(expr: string, ends: string, step: Option<string>, b: Bounds) returns (f: Form)
    requires '/' !in ends && (step.Some? ==> '/' !in step.value)
    requires expr == if step.Some? then ends + "/" + step.value else ends
    ensures (Clean(f) && Written(f) == expr) || GetRange(expr, b) == Bad(TooManyHyphens)
  {
    CutIsInverse(ends, '-');
    match CutAt(ends, '-') {
      case NoSeparator =>
        f := Form(ends, None, step);
      case Cut(low, high) =>
        f := Form(low, Some(high), step);
        if '-' in high {
          SecondHyphen(expr, low, high, step, b);
        }
    }
  }

  lemma SecondHyphen(expr: string, low: string, rest: string, step: Option<string>, b: Bounds)
    requires '/' !in low && '/' !in rest && '-' in rest && (step.Some? ==> '/' !in step.value)
    requires expr == if step.Some? then low + "-" + rest + "/" + step.value else low + "-" + rest
    ensures GetRange(expr, b) == Bad(TooManyHyphens)
  {
    CutIsInverse(rest, '-');
    var y, z := CutAt(rest, '-').before, CutAt(rest, '-').after;
    assert low + "-" + rest == low + "-" + y + "-" + z;
    var behind := if step.Some? then "/" + step.value else "";
    assert expr == low + "-" + y + "-" + z + behind;
    TwoHyphens(low, y, z, step, b);
  }

  // ----- numbers and names -----

  predicate IsNumeral(s: string, n: nat, digits: string) {
    && digits != "" && AllDigits(digits) && DecimalValue(digits) == n
    && (s == digits || s == "+" + digits || (s == "-" + digits && n == 0))
  }

  /** A number is a string of digits, perhaps with a plus in front, or minus zero, that a double can hold. */
  lemma NumbersAre(s: string, n: nat)
    ensures ParseIntStrict(s) == Some(n) <==> n < DOUBLE_OVERFLOW && exists digits :: IsNumeral(s, n, digits)
  {
    var digits := if s != "" && (s[0] == '+' || s[0] == '-') then s[1..] else s;
    if ParseIntStrict(s) == Some(n) {
      assert IsNumeral(s, n, digits);
    }
    if n < DOUBLE_OVERFLOW && exists d :: IsNumeral(s, n, d) {
      var d :| IsNumeral(s, n, d);
      assert s == d ==> IsDigit(d[0]);
      assert d == digits;
    }
  }

  /** A text that is no name, in any mixture of cases, is read as a number or not at all. */
  lemma OtherTexts(s: string, b: Bounds)
    requires ToLower(s) !in b.names && (b.names != [] ==> ToLower(s) != "constructor" && ToLower(s) != "__proto__")
    ensures ParseIntOrName(s, b) == if ParseIntStrict(s).Some? then Ok(ParseIntStrict(s).value) else Bad(NotANumber)
  {
    IndexOfMember(b.names, ToLower(s));
  }

  /** The two names that a field with names finds although they are not its own. */
  lemma InheritedNames(s: string, b: Bounds)
    requires b.names != [] && ToLower(s) !in b.names && (ToLower(s) == "constructor" || ToLower(s) == "__proto__")
    ensures ParseIntOrName(s, b) == Inherited
  {
    IndexOfMember(b.names, ToLower(s));
  }

  /** The limits of minute, hour, day, month and weekday. */
  lemma FieldLimits()
    ensures FIELD_BOUNDS[..3] == [Bounds(0, 59, []), Bounds(0, 23, []), Bounds(1, 31, [])]
    ensures |FIELD_BOUNDS| == 5
    ensures FIELD_BOUNDS[3] == MONTH == Bounds(1, 12, MONTH_NAMES) && FIELD_BOUNDS[4] == DOW == Bounds(0, 6, DOW_NAMES)
  {
  }

  /** The months by their names, in any mixture of cases. */
  lemma MonthIs(s: string, i: nat)
    requires i < 12
    requires ToLower(s) == ["jan", "feb", "mar", "apr", "may", "jun", "jul", "aug", "sep", "oct", "nov", "dec"][i]
    ensures ParseIntOrName(s, MONTH) == Ok(1 + i)
  {
    NamesAreDistinct();
    NameParses(s, i, MONTH);
  }

  /** The weekdays by their names; the week begins with Sunday as 0. */
  lemma WeekdayIs(s: string, i: nat)
    requires i < 7 && ToLower(s) == ["sun", "mon", "tue", "wed", "thu", "fri", "sat"][i]
    ensures ParseIntOrName(s, DOW) == Ok(i)
  {
    NamesAreDistinct();
    NameParses(s, i, DOW);
  }

  // ----- the values of a field -----

  /** The values of a segment: its start, and every step from there that does not pass the end. */
  lemma ValuesAre(seg: Segment, v: int)
    requires seg.step >= 1
    ensures Hits(seg, v) <==> v <= seg.end && exists k: nat :: v == seg.start + k * seg.step
  {
    if Hits(seg, v) {
      var k := (v - seg.start) / seg.step;
      assert v == seg.start + k * seg.step;
    }
    if exists k: nat :: v == seg.start + k * seg.step {
      var k: nat :| v == seg.start + k * seg.step;
      QuotientIsUnique(v - seg.start, k, seg.step);
    }
  }

  /** Empty pieces between commas are dropped; nothing but empty pieces is an empty field. */
  lemma {:induction false} EmptyPieces(parts: seq<string>)
    ensures forall x :: x in NonEmpty(parts) <==> x in parts && x != ""
    ensures forall front, back :: parts == front + [""] + back ==> NonEmpty(parts) == NonEmpty(front + back)
  {
    if parts != [] {
      EmptyPieces(parts[1..]);
      assert parts == [parts[0]] + parts[1..];
      forall front, back | parts == front + [""] + back
        ensures NonEmpty(parts) == NonEmpty(front + back)
      {
        if front == [] {
          assert parts[1..] == back && front + back == back;
        } else {
          assert parts[1..] == front[1..] + [""] + back;
          assert (front + back)[1..] == front[1..] + back;
        }
      }
    }
  }

  lemma EmptyField(text: string, b: Bounds)
    requires forall i :: 0 <= i < |text| ==> text[i] == ','
    ensures FieldRanges(text, b) == Bad(Error.EmptyField)
  {
    CommasAlone(text);
    NothingLeft(Split(text, ','));
  }

  lemma {:induction false} NothingLeft(parts: seq<string>)
    requires forall x :: x in parts ==> x == ""
    ensures NonEmpty(parts) == []
  {
    if parts != [] {
      assert parts[0] in parts;
      forall x | x in parts[1..]
        ensures x == ""
      {
        assert x in parts;
      }
      NothingLeft(parts[1..]);
    }
  }

  lemma {:induction false} CommasAlone(text: string)
    requires forall i :: 0 <= i < |text| ==> text[i] == ','
    ensures forall x :: x in Split(text, ',') ==> x == ""
  {
    if text != "" {
      CommasAlone(text[1..]);
    }
  }

  // ----- the whole expression -----

  /** White space separates fields, any amount of it and of whatever kind; it may stand in front and at the end. */
  lemma {:induction false} SpacesSeparate(space: char, word: string, rest: string)
    requires IsSpace(space) && word != "" && forall i :: 0 <= i < |word| ==> !IsSpace(word[i])
    ensures Words([space] + rest) == Words(rest)
    ensures Words(word + [space] + rest) == [word] + Words(rest)
    ensures Words(word) == [word]
    decreases |word|
  {
    assert ([space] + rest)[1..] == rest;
    var s := word + [space] + rest;
    assert s[1..] == word[1..] + [space] + rest;
    if |word| == 1 {
      assert s[1..] == [space] + rest;
      assert word[1..] == "" && Words("") == [] && word == [word[0]];
    } else {
      SpacesSeparate(space, word[1..], rest);
      assert word == [word[0]] + word[1..];
      assert ([word[1..]] + Words(rest))[1..] == Words(rest) && [word[1..]][1..] == [];
    }
  }

  /** Blank, tab, line feed and carriage return are white space; letters, digits and the signs of a field are not. */
  lemma SpacesAre(c: char)
    ensures c == ' ' || c == '\t' || c == '\n' || c == '\r' ==> IsSpace(c)
    ensures IsDigit(c) || 'a' <= c <= 'z' || 'A' <= c <= 'Z' || c in "*?,-/+" ==> !IsSpace(c)
  {
  }

  /** Anything but five fields is refused, and so is a first field that begins with a time zone, in any mixture of cases. */
  lemma RefusedOutright(expr: string)
    ensures |Words(expr)| != 5 ==> CronRanges(expr) == Bad(FieldCount)
    ensures |Words(expr)| == 5 && ("tz=" <= ToLower(Words(expr)[0]) || "cron_tz=" <= ToLower(Words(expr)[0])) ==>
              CronRanges(expr) == Bad(TimeZonePrefix)
  {
    if |Words(expr)| == 5 {
      var w := Words(expr)[0];
      if "tz=" <= ToLower(w) {
        AnyCase(w, "tz=", "TZ=");
      }
      if "cron_tz=" <= ToLower(w) {
        AnyCase(w, "cron_tz=", "CRON_TZ=");
      }
    }
  }

  lemma AnyCase(s: string, lower: string, upper: string)
    requires lower <= ToLower(s) && |upper| == |lower|
    requires forall i :: 0 <= i < |lower| ==> UpperChar(lower[i]) == upper[i]
    ensures HasPrefixAnyCase(s, upper)
  {
    forall i | 0 <= i < |upper|
      ensures UpperChar(s[i]) == upper[i]
    {
      assert ToLower(s)[i] == lower[i];
    }
  }

  /** Otherwise the expression is accepted exactly if each of its fields is. */
  lemma AcceptedByFields(expr: string)
    requires |Words(expr)| == 5
    requires !HasPrefixAnyCase(Words(expr)[0], "TZ=") && !HasPrefixAnyCase(Words(expr)[0], "CRON_TZ=")
    ensures CronRanges(expr).Ok? <==> forall i :: 0 <= i < 5 ==> FieldRanges(Words(expr)[i], FIELD_BOUNDS[i]).Ok?
  {
    if forall i :: 0 <= i < 5 ==> FieldRanges(Words(expr)[i], FIELD_BOUNDS[i]).Ok? {
      AllFieldsAccepted(Words(expr), FIELD_BOUNDS);
    }
  }
}
