/** The tail of the log file, read backwards in chunks. */
module LogTail {
  import opened Arithmetic
  import opened ByteLines

  datatype TailResult = Tail(content: seq<byte>, truncated: bool) | ReadError

  const LOG_SCAN_CHUNK := 0x10000
  const LOG_TAIL_MAX_BYTES := 0x100000

  function LastBytes(s: seq<byte>, n: nat): seq<byte> {
    LastN(s, n)
  }

  /** What the reader of the log is promised: the last lines, cut to the last bytes. */
  function Spec(file: seq<byte>, maxLines: nat, maxBytes: nat): seq<byte> {
    LastBytes(LastLines(file, maxLines), maxBytes)
  }

  /**
   When the result is flagged: the lines do not fit, or they fill the limit exactly and the
   scan came to rest there, at a chunk boundary or at the start of the file.
   */
  predicate Flagged(file: seq<byte>, chunk: nat, maxLines: nat, maxBytes: nat)
    requires chunk > 0
  {
    var lines := |LastLines(file, maxLines)|;
    lines > maxBytes || (lines == maxBytes && (maxBytes % chunk == 0 || |file| == maxBytes))
  }

  /** The answer to a request for no lines: the last chunk, if the last line is unterminated. */
  function ZeroLines(file: seq<byte>, chunk: nat, maxBytes: nat): TailResult {
    var last := LastBytes(file, chunk);
    if Unterminated(file) then Tail(LastBytes(last, maxBytes), |last| > maxBytes) else Tail([], false)
  }

  // ----- cutting lines off the front -----

  /** Behind the `extra`-th newline stand the lines but the first `extra`. */
  lemma CutAfterNewline(buf: seq<byte>, p: nat, extra: nat)
    requires 0 < p <= |buf| && buf[p - 1] == NEWLINE && Newlines(buf[..p]) == extra
    ensures extra <= |Lines(buf)| && buf[p..] == Flatten(Lines(buf)[extra..])
  {
    assert buf == buf[..p] + buf[p..];
    LinesConcat(buf[..p], buf[p..]);
    LineCount(buf[..p]);
    LinesAreLines(buf[p..]);
    assert Lines(buf)[extra..] == Lines(buf[p..]);
  }

  lemma NewlinesStep(buf: seq<byte>, i: nat)
    requires i < |buf|
    ensures Newlines(buf[..i + 1]) == Newlines(buf[..i]) + if buf[i] == NEWLINE then 1 else 0
  {
    assert buf[..i + 1] == buf[..i] + [buf[i]];
    NewlinesConcat(buf[..i], [buf[i]]);
  }

  lemma NewlinesPrefix(buf: seq<byte>, i: nat)
    requires i <= |buf|
    ensures Newlines(buf[..i]) <= Newlines(buf)
  {
    assert buf == buf[..i] + buf[i..];
    NewlinesConcat(buf[..i], buf[i..]);
  }

  /** Drops whole lines until at most `maxLines` are left, or finds too few newlines to cut at. */
  method DropLines(buf: seq<byte>, lines: nat, maxLines: nat) returns (kept: seq<byte>)
    requires lines == |Lines(buf)|
    ensures maxLines > 0 || !Unterminated(buf) ==> kept == LastLines(buf, maxLines)
    ensures maxLines == 0 && Unterminated(buf) ==> kept == buf
    ensures |kept| <= |buf|
  {
    kept := buf;
    LastLinesIsSuffix(buf, maxLines);
    if lines > maxLines {
      var extra: int := lines - maxLines;
      LineCount(buf);
      for i := 0 to |buf|
        invariant extra + Newlines(buf[..i]) == lines - maxLines && extra > 0
      {
        NewlinesStep(buf, i);
        if buf[i] == NEWLINE {
          extra := extra - 1;
          if extra == 0 {
            kept := buf[i + 1..];
            CutAfterNewline(buf, i + 1, lines - maxLines);
            NewlinesPrefix(buf, i + 1);
            return;
          }
        }
      }
      assert buf[..|buf|] == buf;
    }
  }

  // ----- the scan -----

  /** What the scan knows when it stops: enough of the file has been read. */
  ghost predicate ScanDone(file: seq<byte>, chunk: nat, maxLines: nat, maxBytes: nat, end: nat, truncated: bool)
    requires chunk > 0 && end <= |file|
  {
    var buf := file[end..];
    || (|Lines(buf)| > maxLines && !truncated)
    || (|Lines(buf)| <= maxLines && |buf| >= maxBytes && truncated)
    || (end == 0 && |buf| < maxBytes && |Lines(buf)| <= maxLines && !truncated)
  }

  /** Whatever made the scan stop, the part read holds all that the result needs. */
  lemma ScanSuffices(file: seq<byte>, chunk: nat, maxLines: nat, maxBytes: nat, end: nat, truncated: bool)
    requires chunk > 0 && end <= |file| && ScanDone(file, chunk, maxLines, maxBytes, end, truncated)
    ensures var kept := LastLines(file[end..], maxLines);
            && LastBytes(kept, maxBytes) == Spec(file, maxLines, maxBytes)
            && (|Lines(file[end..])| > maxLines ==> kept == LastLines(file, maxLines))
            && (truncated ==> |kept| == |file| - end <= |LastLines(file, maxLines)|)
            && (!truncated ==> kept == LastLines(file, maxLines))
  {
    var buf := file[end..];
    LastLinesOfSuffix(file, end, maxLines);
    LastLinesIsSuffix(buf, maxLines);
    LastLinesIsSuffix(file, maxLines);
    if truncated {
      SameLastBytes(file, buf, LastLines(file, maxLines), maxBytes);
    } else if end == 0 {
      assert buf == file;
    }
  }

  /** Two suffixes of one sequence that both reach the limit end in the same bytes. */
  lemma SameLastBytes(file: seq<byte>, a: seq<byte>, b: seq<byte>, n: nat)
    requires IsSuffix(a, file) && IsSuffix(b, file) && n <= |a| && n <= |b|
    ensures LastBytes(a, n) == LastBytes(b, n)
  {
    assert LastBytes(a, n) == file[|file| - n..] == LastBytes(b, n);
  }

  lemma NoMultipleBetween(n: nat, m: nat, chunk: nat)
    requires chunk > 0 && m % chunk == 0 && m < n < m + chunk
    ensures n % chunk != 0
  {
    QuotientIsUnique(n, m / chunk, chunk);
  }

  lemma NextMultiple(m: nat, chunk: nat)
    requires chunk > 0 && m % chunk == 0
    ensures (m + chunk) % chunk == 0
  {
    var q := m / chunk;
    assert m + chunk == (q + 1) * chunk;
    QuotientIsUnique(m + chunk, q + 1, chunk);
  }

  /** How far the scan has come: `before` bytes, in whole chunks, had been read before the last read. */
  ghost predicate Scanned(file: seq<byte>, chunk: nat, maxBytes: nat, end: nat, before: nat)
    requires chunk > 0
  {
    && end < |file| && before % chunk == 0
    && before < |file| - end <= before + chunk
    && (end > 0 ==> |file| - end == before + chunk)
    && (before > 0 ==> before < maxBytes)
  }

  /** The scan stops inside the limit only when the lines it needs are inside the limit too. */
  lemma FlagIsExact(file: seq<byte>, chunk: nat, maxLines: nat, maxBytes: nat, end: nat, before: nat, truncated: bool)
    requires chunk > 0 && 0 < maxLines && Scanned(file, chunk, maxBytes, end, before)
    requires ScanDone(file, chunk, maxLines, maxBytes, end, truncated)
    ensures (truncated || |LastLines(file[end..], maxLines)| > maxBytes) <==> Flagged(file, chunk, maxLines, maxBytes)
  {
    ScanSuffices(file, chunk, maxLines, maxBytes, end, truncated);
    LastLinesIsSuffix(file, maxLines);
    LastLinesIsSuffix(file[end..], maxLines);
    var n := |LastLines(file, maxLines)|;
    if truncated {
      NextMultiple(before, chunk);
    } else if n == maxBytes {
      NoMultipleBetween(maxBytes, before, chunk);
    }
  }

  ghost predicate PeakOk(peak: nat, chunk: nat, maxBytes: nat) {
    peak < maxBytes + chunk || (maxBytes == 0 && peak <= chunk)
  }

  lemma ScanStep(file: seq<byte>, chunk: nat, maxBytes: nat, end: nat, before: nat)
    requires chunk > 0 && 0 < end <= |file|
    requires end < |file| ==> Scanned(file, chunk, maxBytes, end, before) && |file| - end < maxBytes
    ensures Scanned(file, chunk, maxBytes, if end < chunk then 0 else end - chunk, |file| - end)
  {
    if end < |file| {
      NextMultiple(before, chunk);
    }
  }

  /** Reads chunk after chunk, from the end of the file, until enough is in the buffer. */
  method Scan(file: seq<byte>, chunk: nat, maxLines: nat, maxBytes: nat, failing: set<nat>)
    returns (failed: bool, buf: seq<byte>, newlines: nat, truncated: bool, ghost end: nat, ghost before: nat, ghost peak: nat)
    requires chunk > 0 && file != []
    ensures failing == {} ==> !failed
    ensures PeakOk(peak, chunk, maxBytes)
    ensures !failed ==> |buf| <= peak
    ensures !failed ==> end < |file| && buf == file[end..] && newlines == Newlines(buf)
    ensures !failed ==> Scanned(file, chunk, maxBytes, end, before)
    ensures !failed ==> ScanDone(file, chunk, maxLines, maxBytes, end, truncated)
    ensures !failed && maxLines == 0 ==> before == 0 && !truncated
  {
    failed, buf, newlines, truncated, before, peak := false, [], 0, false, 0, 0;
    var offset: nat := |file|;
    while offset > 0
      invariant offset <= |file| && buf == file[offset..] && newlines == Newlines(buf) && !truncated
      invariant offset < |file| ==> Scanned(file, chunk, maxBytes, offset, before)
      invariant offset < |file| ==> |Lines(buf)| <= maxLines && |buf| < maxBytes
      invariant |buf| <= peak && PeakOk(peak, chunk, maxBytes)
      decreases offset
    {
      var start := if offset < chunk then 0 else offset - chunk;
      if start in failing {
        failed, end := true, offset;
        return;
      }
      var part := file[start..offset];
      assert file[start..] == part + file[offset..];
      NewlinesConcat(part, buf);
      ScanStep(file, chunk, maxBytes, offset, before);
      LineCount(buf);
      assert maxLines == 0 ==> buf == [] by {
        LinesAreLines(buf);
      }
      before := |buf|;
      buf := part + buf;
      newlines := newlines + Newlines(part);
      offset := start;
      peak := if |buf| > peak then |buf| else peak;
      LineCount(buf);
      var total := if buf[|buf| - 1] != NEWLINE then newlines + 1 else newlines;
      if total > maxLines {
        break;
      }
      if |buf| >= maxBytes {
        truncated := true;
        break;
      }
    }
    end := offset;
  }

  /** A scan that stopped after its first read has the last chunk. */
  lemma FirstChunk(file: seq<byte>, chunk: nat, maxBytes: nat, end: nat)
    requires chunk > 0 && Scanned(file, chunk, maxBytes, end, 0)
    ensures file[end..] == LastBytes(file, chunk)
  {
  }

  lemma SameEnd(file: seq<byte>, end: nat)
    requires end < |file|
    ensures Unterminated(file[end..]) <==> Unterminated(file)
  {
    assert file[end..][|file| - end - 1] == file[|file| - 1];
  }

  /** The first half of the work: what has been read, with its lines counted. */
  method ReadEnd(file: seq<byte>, chunk: nat, maxLines: nat, maxBytes: nat, failing: set<nat>)
    returns (failed: bool, buf: seq<byte>, lines: nat, truncated: bool, ghost peak: nat)
    requires chunk > 0 && file != []
    ensures failing == {} ==> !failed
    ensures PeakOk(peak, chunk, maxBytes) && (!failed ==> |buf| <= peak)
    ensures !failed ==> lines == |Lines(buf)| && buf != [] && (Unterminated(buf) <==> Unterminated(file))
    ensures !failed ==> LastBytes(LastLines(buf, maxLines), maxBytes) == Spec(file, maxLines, maxBytes)
    ensures !failed && maxLines > 0 ==>
              (truncated || |LastLines(buf, maxLines)| > maxBytes <==> Flagged(file, chunk, maxLines, maxBytes))
    ensures !failed && maxLines == 0 ==> buf == LastBytes(file, chunk) && !truncated
  {
    lines := 0;
    var newlines;
    ghost var end, before;
    failed, buf, newlines, truncated, end, before, peak := Scan(file, chunk, maxLines, maxBytes, failing);
    if failed {
      return;
    }
    ScanSuffices(file, chunk, maxLines, maxBytes, end, truncated);
    if maxLines > 0 {
      FlagIsExact(file, chunk, maxLines, maxBytes, end, before, truncated);
    } else {
      FirstChunk(file, chunk, maxBytes, end);
    }
    LineCount(buf);
    SameEnd(file, end);
    lines := if buf[|buf| - 1] != NEWLINE then newlines + 1 else newlines;
  }

  /**
   The tail of `file`. `failing` holds the offsets at which a read would fail. `peak` is the
   largest size the buffer ever has.
   */
  method TailFile(file: seq<byte>, chunk: nat, maxLines: nat, maxBytes: nat, failing: set<nat>)
    returns (r: TailResult, ghost peak: nat)
    requires chunk > 0
    ensures failing == {} ==> r.Tail?
    ensures r.Tail? && (maxLines > 0 || !Unterminated(file)) ==> r.content == Spec(file, maxLines, maxBytes)
    ensures r.Tail? && maxLines == 0 ==> r == ZeroLines(file, chunk, maxBytes)
    ensures r.Tail? && maxLines > 0 ==> (r.truncated <==> file != [] && Flagged(file, chunk, maxLines, maxBytes))
    ensures PeakOk(peak, chunk, maxBytes) && (r.Tail? ==> |r.content| <= peak)
  {
    if |file| == 0 {
      return Tail([], false), 0;
    }
    var failed, buf, lines, truncated;
    failed, buf, lines, truncated, peak := ReadEnd(file, chunk, maxLines, maxBytes, failing);
    if failed {
      return ReadError, peak;
    }
    r := KeepEnd(buf, lines, truncated, maxLines, maxBytes);
  }

  /** The second half: whole lines are dropped, then bytes. */
  method KeepEnd(buf: seq<byte>, lines: nat, truncated: bool, maxLines: nat, maxBytes: nat) returns (r: TailResult)
    requires lines == |Lines(buf)|
    ensures r.Tail? && |r.content| <= |buf|
    ensures var kept := if maxLines == 0 then (if Unterminated(buf) then buf else []) else LastLines(buf, maxLines);
            r == Tail(LastBytes(kept, maxBytes), truncated || |kept| > maxBytes)
  {
    var kept := DropLines(buf, lines, maxLines);
    assert maxLines == 0 ==> LastLines(buf, maxLines) == [] by {
      NoLines(buf);
    }
    if |kept| > maxBytes {
      return Tail(kept[|kept| - maxBytes..], true);
    }
    r := Tail(kept, truncated);
  }

  // ----- what the caller sees -----

  /** The limits of the log endpoint: the flag is off exactly when the lines stay below the limit. */
  lemma EndpointFlag(file: seq<byte>, maxLines: nat)
    requires maxLines > 0
    ensures LOG_SCAN_CHUNK == 64 * 1024 && LOG_TAIL_MAX_BYTES == 1024 * 1024
    ensures Flagged(file, LOG_SCAN_CHUNK, maxLines, LOG_TAIL_MAX_BYTES) <==> |LastLines(file, maxLines)| >= 1024 * 1024
  {
    assert LOG_TAIL_MAX_BYTES % LOG_SCAN_CHUNK == 0;
  }

  /** Asked for no lines: nothing, or, if the file ends within a line, its last bytes, as far as one chunk has them. */
  lemma ZeroLinesMean(file: seq<byte>, chunk: nat, maxBytes: nat)
    ensures var r, read := ZeroLines(file, chunk, maxBytes), if |file| < chunk then |file| else chunk;
            && r.Tail? && IsSuffix(r.content, file)
            && (file == [] || file[|file| - 1] == 10 ==> r.content == [] && !r.truncated)
            && (file != [] && file[|file| - 1] != 10 ==>
                  && |r.content| == (if read < maxBytes then read else maxBytes) && (r.truncated <==> read > maxBytes))
  {
    SuffixOfSuffix(file, file, chunk);
    SuffixOfSuffix(file, LastBytes(file, chunk), maxBytes);
  }

  /** Unflagged content is the lines in full; flagged content has exactly the limit's length. */
  lemma FlagTellsContent(file: seq<byte>, chunk: nat, maxLines: nat, maxBytes: nat)
    requires chunk > 0
    ensures !Flagged(file, chunk, maxLines, maxBytes) ==> Spec(file, maxLines, maxBytes) == LastLines(file, maxLines)
    ensures Flagged(file, chunk, maxLines, maxBytes) ==> |Spec(file, maxLines, maxBytes)| == maxBytes
    ensures IsSuffix(Spec(file, maxLines, maxBytes), file)
  {
    LastLinesIsSuffix(file, maxLines);
    SuffixOfSuffix(file, LastLines(file, maxLines), maxBytes);
  }

  lemma SuffixOfSuffix(file: seq<byte>, s: seq<byte>, n: nat)
    requires IsSuffix(s, file)
    ensures IsSuffix(LastBytes(s, n), file)
  {
    var m := |LastBytes(s, n)|;
    assert file[|file| - m..] == file[|file| - |s|..][|s| - m..];
  }
}
