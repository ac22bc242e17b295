/** Cutting and joining text at a separator, and decimal numerals. */
module Text {
  import opened Options

  // ----- separators -----

  /** The pieces between the separators; text without a separator is one piece. */
  function Split(s: string, sep: char): (parts: seq<string>)
    ensures |parts| >= 1
  {
    if s == "" then [""]
    else
      var rest := Split(s[1..], sep);
      if s[0] == sep then [""] + rest else [[s[0]] + rest[0]] + rest[1..]
  }

  function Join(parts: seq<string>, sep: char): string {
    if parts == [] then ""
    else if |parts| == 1 then parts[0]
    else parts[0] + [sep] + Join(parts[1..], sep)
  }

  lemma {:induction false} SplitHead(a: string, sep: char, b: string)
    requires sep !in a
    ensures Split(a + [sep] + b, sep) == [a] + Split(b, sep)
    ensures Split(a, sep) == [a]
  {
    if a == "" {
      assert a + [sep] + b == [sep] + b;
      assert ([sep] + b)[1..] == b;
    } else {
      SplitHead(a[1..], sep, b);
      assert a[0] in a && a[0] != sep;
      assert a == [a[0]] + a[1..];
      assert (a + [sep] + b)[1..] == a[1..] + [sep] + b;
    }
  }

  /** Pieces that do not hold the separator are recovered from the joined text. */
  lemma {:induction false} SplitJoin(parts: seq<string>, sep: char)
    requires parts != [] && forall i :: 0 <= i < |parts| ==> sep !in parts[i]
    ensures Split(Join(parts, sep), sep) == parts
  {
    if |parts| == 1 {
      SplitHead(parts[0], sep, "");
    } else {
      SplitJoin(parts[1..], sep);
      SplitHead(parts[0], sep, Join(parts[1..], sep));
    }
  }

  // ----- counting separators -----

  function Count(s: string, c: char): nat {
    if s == "" then 0 else (if s[0] == c then 1 else 0) + Count(s[1..], c)
  }

  lemma {:induction false} CountConcat(a: string, b: string, c: char)
    ensures Count(a + b, c) == Count(a, c) + Count(b, c)
  {
    if a == "" {
      assert a + b == b;
    } else {
      CountConcat(a[1..], b, c);
      assert (a + b)[1..] == a[1..] + b;
    }
  }

  lemma {:induction false} CountIsZero(s: string, c: char)
    ensures Count(s, c) == 0 <==> c !in s
  {
    if s != "" {
      CountIsZero(s[1..], c);
      assert s == [s[0]] + s[1..];
    }
  }

  lemma {:induction false} SplitCounts(s: string, sep: char)
    ensures |Split(s, sep)| == 1 + Count(s, sep)
  {
    if s != "" {
      SplitCounts(s[1..], sep);
    }
  }

  // ----- cutting once -----

  datatype CutResult = Cut(before: string, after: string) | NoSeparator

  /** Cuts at the first separator. */
  function CutAt(s: string, sep: char): CutResult {
    if s == "" then NoSeparator
    else if s[0] == sep then Cut("", s[1..])
    else
      match CutAt(s[1..], sep)
      case Cut(before, after) => Cut([s[0]] + before, after)
      case NoSeparator => NoSeparator
  }

  lemma {:induction false} CutAtFirst(a: string, sep: char, b: string)
    requires sep !in a
    ensures CutAt(a + [sep] + b, sep) == Cut(a, b)
  {
    if a == "" {
      assert (a + [sep] + b)[1..] == b;
    } else {
      CutAtFirst(a[1..], sep, b);
      assert a[0] in a && a[0] != sep;
      assert (a + [sep] + b)[1..] == a[1..] + [sep] + b;
    }
  }

  lemma {:induction false} CutIsInverse(s: string, sep: char)
    ensures match CutAt(s, sep)
            case Cut(before, after) => sep !in before && s == before + [sep] + after
            case NoSeparator => sep !in s
  {
    if s != "" && s[0] != sep {
      CutIsInverse(s[1..], sep);
      assert s == [s[0]] + s[1..];
    }
  }

  // ----- decimal numerals -----

  const DIGITS := "0123456789"

  predicate IsDigit(c: char) {
    '0' <= c <= '9'
  }

  function DigitValue(c: char): nat
    requires IsDigit(c)
  {
    (c - '0') as nat
  }

  predicate AllDigits(s: string) {
    forall i :: 0 <= i < |s| ==> IsDigit(s[i])
  }

  /** The number a string of digits stands for. */
  function DecimalValue(s: string): nat
    requires AllDigits(s)
  {
    if s == "" then 0 else 10 * DecimalValue(s[..|s| - 1]) + DigitValue(s[|s| - 1])
  }

  /** The numeral of a number, without leading zeros. */
  function Decimal(n: nat): (s: string)
    ensures s != "" && AllDigits(s)
  {
    if n < 10 then [DIGITS[n]] else Decimal(n / 10) + [DIGITS[n % 10]]
  }

  lemma {:induction false} DecimalRoundTrip(n: nat)
    ensures DecimalValue(Decimal(n)) == n
  {
    if n < 10 {
      assert Decimal(n)[..0] == "";
    } else {
      DecimalRoundTrip(n / 10);
      var s := Decimal(n);
      assert s[..|s| - 1] == Decimal(n / 10);
    }
  }

  /** A numeral has no zero in front, but for zero itself. */
  lemma {:induction false} DecimalIsPlain(n: nat)
    ensures Decimal(n)[0] == '0' <==> n == 0
    ensures Decimal(0) == "0"
  {
    if n >= 10 {
      DecimalIsPlain(n / 10);
    }
  }

  lemma DigitsAreNot(s: string, c: char)
    requires AllDigits(s) && !IsDigit(c)
    ensures c !in s
  {
  }
}
