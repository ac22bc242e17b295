/** Lines of a byte sequence: each line keeps its terminator, an unterminated tail is a line. */
module ByteLines {
  import opened Sequences

  newtype byte = x: int | 0 <= x < 256

  const NEWLINE: byte := 10

  /** One more byte in front of some lines: a line of its own if it is a newline. */
  function Prepend(c: byte, ls: seq<seq<byte>>): seq<seq<byte>> {
    if c == NEWLINE || ls == [] then [[c]] + ls else [[c] + ls[0]] + ls[1..]
  }

  function Lines(s: seq<byte>): seq<seq<byte>> {
    if s == [] then [] else Prepend(s[0], Lines(s[1..]))
  }

  function Flatten(ls: seq<seq<byte>>): seq<byte> {
    if ls == [] then [] else ls[0] + Flatten(ls[1..])
  }

  function LastN<T>(s: seq<T>, n: nat): seq<T> {
    if |s| <= n then s else s[|s| - n..]
  }

  /** The last `n` lines of `s`. */
  function LastLines(s: seq<byte>, n: nat): seq<byte> {
    Flatten(LastN(Lines(s), n))
  }

  function Newlines(s: seq<byte>): nat {
    if s == [] then 0 else (if s[0] == NEWLINE then 1 else 0) + Newlines(s[1..])
  }

  predicate Unterminated(s: seq<byte>) {
    s != [] && s[|s| - 1] != NEWLINE
  }

  // ----- what Lines is -----

  /** A line is not empty and has no newline before its last byte. */
  predicate IsLine(l: seq<byte>) {
    l != [] && forall i :: 0 <= i < |l| - 1 ==> l[i] != NEWLINE
  }

  /** Cutting into lines loses nothing; every piece is a line, and all but the last are terminated. */
  lemma {:induction false} LinesAreLines(s: seq<byte>)
    ensures Flatten(Lines(s)) == s
    ensures forall i :: 0 <= i < |Lines(s)| ==> IsLine(Lines(s)[i])
    ensures forall i :: 0 <= i < |Lines(s)| - 1 ==> !Unterminated(Lines(s)[i])
  {
    if s != [] {
      LinesAreLines(s[1..]);
      var rest, all := Lines(s[1..]), Lines(s);
      assert all[1..] == if s[0] == NEWLINE || rest == [] then rest else rest[1..];
      assert s == [s[0]] + s[1..];
    }
  }

  /** All lines but the last end in a line feed, the byte 10, and none has one before its end. */
  lemma LineFeedsEndLines(s: seq<byte>, i: nat)
    requires i < |Lines(s)|
    ensures var l := Lines(s)[i]; l != [] && (i < |Lines(s)| - 1 ==> l[|l| - 1] == 10) && 10 !in l[..|l| - 1]
  {
    LinesAreLines(s);
    assert IsLine(Lines(s)[i]);
  }

  lemma {:induction false} LineCount(s: seq<byte>)
    ensures |Lines(s)| == Newlines(s) + if Unterminated(s) then 1 else 0
  {
    if s != [] {
      LineCount(s[1..]);
    }
  }

  lemma {:induction false} NewlinesConcat(a: seq<byte>, b: seq<byte>)
    ensures Newlines(a + b) == Newlines(a) + Newlines(b)
  {
    if a == [] {
      assert a + b == b;
    } else {
      NewlinesConcat(a[1..], b);
      assert (a + b)[1..] == a[1..] + b;
    }
  }

  lemma {:induction false} FlattenConcat(a: seq<seq<byte>>, b: seq<seq<byte>>)
    ensures Flatten(a + b) == Flatten(a) + Flatten(b)
  {
    if a == [] {
      assert a + b == b;
    } else {
      FlattenConcat(a[1..], b);
      Associative(a[0], Flatten(a[1..]), Flatten(b));
      assert (a + b)[1..] == a[1..] + b;
    }
  }

  /** A terminated part is cut into lines on its own. */
  lemma {:induction false} LinesConcat(a: seq<byte>, b: seq<byte>)
    requires !Unterminated(a)
    ensures Lines(a + b) == Lines(a) + Lines(b)
  {
    if a == [] {
      assert a + b == b;
    } else {
      var t := a[1..];
      assert (a + b)[1..] == t + b;
      LinesConcat(t, b);
      if t != [] {
        LineCount(t);
        NewlineAtEnd(t);
      }
      PrependConcat(a[0], Lines(t), Lines(b));
    }
  }

  lemma PrependConcat(c: byte, x: seq<seq<byte>>, y: seq<seq<byte>>)
    requires c == NEWLINE || x != []
    ensures Prepend(c, x + y) == Prepend(c, x) + y
  {
    if c != NEWLINE {
      assert (x + y)[1..] == x[1..] + y;
    }
  }

  lemma {:induction false} NewlineAtEnd(s: seq<byte>)
    requires s != [] && s[|s| - 1] == NEWLINE
    ensures Newlines(s) > 0
  {
    if |s| > 1 {
      NewlineAtEnd(s[1..]);
    }
  }

  // ----- the last lines of a suffix -----

  /** `t` is what remains of `s` when something is cut off its front. */
  predicate IsSuffix<T(==)>(t: seq<T>, s: seq<T>) {
    |t| <= |s| && s[|s| - |t|..] == t
  }

  lemma LastLinesIsSuffix(s: seq<byte>, n: nat)
    ensures IsSuffix(LastLines(s, n), s)
    ensures n >= |Lines(s)| ==> LastLines(s, n) == s
    ensures n < |Lines(s)| ==> |LastLines(s, n)| < |s|
    ensures n > 0 && s != [] ==> LastLines(s, n) != []
  {
    LinesAreLines(s);
    var ls := Lines(s);
    if n < |ls| {
      var k := |ls| - n;
      assert ls == ls[..k] + ls[k..];
      FlattenConcat(ls[..k], ls[k..]);
      assert IsLine(ls[0]);
      if n > 0 {
        assert IsLine(ls[k..][0]);
      }
    }
  }

  /** The last lines are lines, at most as many as asked for, and all there are if there are no more. */
  lemma LastLinesAreLast(s: seq<byte>, n: nat)
    ensures var k := if |Lines(s)| <= n then 0 else |Lines(s)| - n;
            s == Flatten(Lines(s)[..k]) + LastLines(s, n) && LastLines(s, n) == Flatten(Lines(s)[k..])
  {
    LinesAreLines(s);
    var k := if |Lines(s)| <= n then 0 else |Lines(s)| - n;
    assert Lines(s) == Lines(s)[..k] + Lines(s)[k..];
    FlattenConcat(Lines(s)[..k], Lines(s)[k..]);
    assert Lines(s)[0..] == Lines(s);
  }

  lemma NoLines(s: seq<byte>)
    ensures LastLines(s, 0) == []
  {
    assert LastN(Lines(s), 0) == [];
  }

  /** A byte in front of the first line is not seen among the later ones. */
  lemma LastNOfPrepend(c: byte, ls: seq<seq<byte>>, n: nat)
    requires n < |ls|
    ensures LastN(Prepend(c, ls), n) == LastN(ls, n)
  {
    var all := Prepend(c, ls);
    assert all[|all| - n..] == ls[|ls| - n..];
  }

  /** One more byte in front. */
  lemma LastLinesOneByte(s: seq<byte>, n: nat)
    requires s != []
    ensures |Lines(s[1..])| <= |Lines(s)|
    ensures n < |Lines(s[1..])| ==> LastLines(s, n) == LastLines(s[1..], n)
    ensures |LastLines(s, n)| >= |LastLines(s[1..], n)|
  {
    var rest := Lines(s[1..]);
    LinesAreLines(s);
    LinesAreLines(s[1..]);
    if n < |rest| {
      LastNOfPrepend(s[0], rest, n);
    } else if n < |Lines(s)| {
      assert LastN(Lines(s), n) == rest;
    }
  }

  lemma {:induction false} LastLinesOfSuffix(s: seq<byte>, end: nat, n: nat)
    requires end <= |s|
    ensures |Lines(s)| >= |Lines(s[end..])|
    ensures n < |Lines(s[end..])| ==> LastLines(s, n) == LastLines(s[end..], n)
    ensures |LastLines(s, n)| >= |LastLines(s[end..], n)|
  {
    if end == 0 {
      assert s[end..] == s;
    } else {
      assert s[1..][end - 1..] == s[end..];
      LastLinesOfSuffix(s[1..], end - 1, n);
      LastLinesOneByte(s, n);
    }
  }
}
