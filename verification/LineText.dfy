/** From the bytes of a file to the lines scanFile sees (bufio.ScanLines with a 1 MiB buffer),
    and what ByteOffset means in those bytes. */
module LineText {
  import opened Grep

  /** scanner.Buffer(..., 1024*1024): a line whose bytes before '\n' reach this size is an error. */
  const MAX_LINE := 1024 * 1024

  /** The position of the first line feed from position i on, or the end. */
  function FeedFrom(s: string, i: nat): (n: nat)
    requires i <= |s|
    ensures i <= n <= |s| && (n < |s| ==> s[n] == '\n') && forall k | i <= k < n :: s[k] != '\n'
    decreases |s| - i
  {
    if i == |s| || s[i] == '\n' then i else FeedFrom(s, i + 1)
  }

  /** The runs of bytes between line feeds from position i on; no empty run after a final line feed. */
  function LinesFrom(s: string, i: nat): (raws: seq<string>)
    requires i <= |s|
    decreases |s| - i
  {
    if i == |s| then []
    else
      var n := FeedFrom(s, i);
      [s[i..n]] + if n == |s| then [] else LinesFrom(s, n + 1)
  }

  function RawLines(s: string): (raws: seq<string>) { LinesFrom(s, 0) }

  predicate EndsInCR(raw: string) { raw != "" && raw[|raw| - 1] == '\r' }

  function DropCR(raw: string): string {
    if EndsInCR(raw) then raw[..|raw| - 1] else raw
  }

  /** Lines before the first over-long one. */
  function Delivered(raws: seq<string>): (n: nat)
    ensures n <= |raws|
    ensures forall i | 0 <= i < n :: |raws[i]| < MAX_LINE
    ensures n < |raws| ==> |raws[n]| >= MAX_LINE
  {
    if raws == [] || |raws[0]| >= MAX_LINE then 0 else 1 + Delivered(raws[1..])
  }

  function TooLong(bytes: string): bool { Delivered(RawLines(bytes)) < |RawLines(bytes)| }

  /** The lines the scanner delivers. */
  function Lines(bytes: string): (lines: seq<string>)
    ensures |lines| == Delivered(RawLines(bytes))
  {
    var raws := RawLines(bytes);
    seq(Delivered(raws), i requires 0 <= i < Delivered(raws) => DropCR(raws[i]))
  }

  /** How many of the first n raw lines end in a carriage return. */
  function CRs(raws: seq<string>, n: nat): nat
    requires n <= |raws|
  {
    if n == 0 then 0 else CRs(raws, n - 1) + if EndsInCR(raws[n - 1]) then 1 else 0
  }

  /** Position `at` is where raw line `raw` begins and ends in the bytes. */
  predicate IsLineAt(bytes: string, at: nat, raw: string) {
    && at + |raw| <= |bytes|
    && bytes[at..at + |raw|] == raw
    && (at == 0 || bytes[at - 1] == '\n')
    && (at + |raw| == |bytes| || bytes[at + |raw|] == '\n')
  }

  /** OffsetOf is the sum over a suffix plus the first line. */
  lemma {:induction false} OffsetCons(raws: seq<string>, n: nat)
    requires 1 <= n <= |raws|
    ensures OffsetOf(raws, n) == |raws[0]| + 1 + OffsetOf(raws[1..], n - 1)
  {
    if n > 1 {
      OffsetCons(raws, n - 1);
    }
  }

  /** The first raw line from position i on, and the rest. */
  lemma LinesUnfold(bytes: string, i: nat) returns (n: nat, rest: seq<string>)
    requires i < |bytes|
    ensures n == FeedFrom(bytes, i) && LinesFrom(bytes, i) == [bytes[i..n]] + rest
    ensures n == |bytes| ==> rest == []
    ensures n < |bytes| ==> rest == LinesFrom(bytes, n + 1)
    ensures LinesFrom(bytes, i)[0] == bytes[i..n] && LinesFrom(bytes, i)[1..] == rest
  {
    n := FeedFrom(bytes, i);
    rest := if n == |bytes| then [] else LinesFrom(bytes, n + 1);
  }

  lemma FirstLineAt(bytes: string, i: nat, n: nat)
    requires i <= n <= |bytes| && (i == 0 || bytes[i - 1] == '\n') && (n < |bytes| ==> bytes[n] == '\n')
    ensures IsLineAt(bytes, i, bytes[i..n])
  {
  }

  /** Raw line `raw` comes j lines behind position i, at position `at`. */
  ghost predicate Follows(bytes: string, i: nat, j: nat, at: nat, raw: string) {
    && i <= |bytes| && (i == 0 || bytes[i - 1] == '\n') && j < |LinesFrom(bytes, i)|
    && at == i + OffsetOf(LinesFrom(bytes, i), j) && raw == LinesFrom(bytes, i)[j]
  }

  /** Behind the first line, line j is line j - 1. */
  lemma NextLine(bytes: string, i: nat, j: nat, at: nat, raw: string) returns (next: nat)
    requires j > 0 && Follows(bytes, i, j, at, raw)
    ensures Follows(bytes, next, j - 1, at, raw)
  {
    var n, rest := LinesUnfold(bytes, i);
    OffsetCons(LinesFrom(bytes, i), j);
    next := n + 1;
  }

  lemma FirstLine(bytes: string, i: nat, at: nat, raw: string)
    requires Follows(bytes, i, 0, at, raw)
    ensures IsLineAt(bytes, at, raw)
  {
    var n, rest := LinesUnfold(bytes, i);
    FirstLineAt(bytes, i, n);
  }

  lemma {:induction false} LineStart(bytes: string, i: nat, j: nat, at: nat, raw: string)
    requires Follows(bytes, i, j, at, raw)
    ensures IsLineAt(bytes, at, raw)
    decreases j
  {
    if j == 0 {
      FirstLine(bytes, i, at, raw);
    } else {
      var next := NextLine(bytes, i, j, at, raw);
      LineStart(bytes, next, j - 1, at, raw);
    }
  }

  /** Raw line i of the bytes begins at OffsetOf(raws, i). */
  lemma RawLineStart(bytes: string, raws: seq<string>, i: nat)
    requires raws == RawLines(bytes) && i < |raws|
    ensures IsLineAt(bytes, OffsetOf(raws, i), raws[i])
  {
    LineStart(bytes, 0, i, OffsetOf(raws, i), raws[i]);
  }

  lemma {:induction false} DroppedCRs(lines: seq<string>, raws: seq<string>, i: nat)
    requires i <= |lines| <= |raws| && forall k | 0 <= k < |lines| :: lines[k] == DropCR(raws[k])
    ensures OffsetOf(raws, i) == OffsetOf(lines, i) + CRs(raws, i)
  {
    if i > 0 {
      DroppedCRs(lines, raws, i - 1);
    }
  }

  /** The reported offset falls short of the true one by the carriage returns dropped before it. */
  lemma OffsetDrift(bytes: string, i: nat)
    requires i <= |Lines(bytes)|
    ensures OffsetOf(RawLines(bytes), i) == OffsetOf(Lines(bytes), i) + CRs(RawLines(bytes), i)
  {
    DroppedCRs(Lines(bytes), RawLines(bytes), i);
  }

  lemma {:induction false} CRsPositive(raws: seq<string>, n: nat)
    requires n <= |raws|
    ensures CRs(raws, n) == 0 <==> forall k | 0 <= k < n :: !EndsInCR(raws[k])
  {
    if n > 0 {
      CRsPositive(raws, n - 1);
    }
  }

  /** ByteOffset of line i is the position where that line starts exactly when
      no earlier line ended in CR LF. */
  lemma ByteOffsetExact(bytes: string, i: nat)
    requires i < |Lines(bytes)|
    ensures IsLineAt(bytes, OffsetOf(RawLines(bytes), i), RawLines(bytes)[i])
    ensures OffsetOf(Lines(bytes), i) == OffsetOf(RawLines(bytes), i)
       <==> forall k | 0 <= k < i :: !EndsInCR(RawLines(bytes)[k])
  {
    RawLineStart(bytes, RawLines(bytes), i);
    OffsetDrift(bytes, i);
    CRsPositive(RawLines(bytes), i);
  }

  lemma {:induction false} LinesHoldNoFeed(bytes: string, i: nat, raws: seq<string>)
    requires i <= |bytes| && raws == LinesFrom(bytes, i)
    ensures forall j | 0 <= j < |raws| :: '\n' !in raws[j]
    decreases |bytes| - i
  {
    if i < |bytes| {
      var n, rest := LinesUnfold(bytes, i);
      assert '\n' !in bytes[i..n];
      if n < |bytes| {
        LinesHoldNoFeed(bytes, n + 1, rest);
      }
    }
  }

  /** The first line with its terminator, and what the rest adds up to. */
  lemma SumUnfold(bytes: string, i: nat, raws: seq<string>) returns (n: nat, rest: seq<string>)
    requires i < |bytes| && raws == LinesFrom(bytes, i)
    ensures i <= n <= |bytes| && OffsetOf(raws, |raws|) == n - i + 1 + OffsetOf(rest, |rest|)
    ensures if n + 1 < |bytes| then rest == LinesFrom(bytes, n + 1)
            else OffsetOf(rest, |rest|) == 0 && (n < |bytes| <==> bytes[|bytes| - 1] == '\n')
  {
    n, rest := LinesUnfold(bytes, i);
    OffsetCons(raws, |raws|);
    if n == |bytes| {
      assert bytes[n - 1] != '\n';
    }
  }

  lemma {:induction false} LinesAreBytes(bytes: string, i: nat, raws: seq<string>, total: nat)
    requires i < |bytes| && raws == LinesFrom(bytes, i) && total == OffsetOf(raws, |raws|)
    ensures i + total == |bytes| + if bytes[|bytes| - 1] == '\n' then 0 else 1
    decreases |bytes| - i
  {
    var n, rest := SumUnfold(bytes, i, raws);
    if n + 1 < |bytes| {
      LinesAreBytes(bytes, n + 1, rest, OffsetOf(rest, |rest|));
    }
  }

  /** The raw lines and their terminators are the bytes, and no raw line holds a line feed. */
  lemma RawLinesAreBytes(bytes: string)
    ensures var raws := RawLines(bytes);
            && (bytes != "" ==> OffsetOf(raws, |raws|) == |bytes| + if bytes[|bytes| - 1] == '\n' then 0 else 1)
            && (forall i | 0 <= i < |raws| :: '\n' !in raws[i])
  {
    if bytes != "" {
      LinesAreBytes(bytes, 0, RawLines(bytes), OffsetOf(RawLines(bytes), |RawLines(bytes)|));
    }
    LinesHoldNoFeed(bytes, 0, RawLines(bytes));
  }

  /** A delivered line is its raw line without one carriage return at the end. */
  lemma LinesMean(bytes: string, i: nat)
    requires i < |Lines(bytes)|
    ensures var raw, line := RawLines(bytes)[i], Lines(bytes)[i];
            line == (if raw != "" && raw[|raw| - 1] == '\r' then raw[..|raw| - 1] else raw)
    ensures i < |RawLines(bytes)| && |RawLines(bytes)[i]| < 1024 * 1024
  {
  }

  /** A match of a scan is on one of the lines, with its text and the running offset. */
  lemma MatchOnLine(key: string, lines: seq<string>, p: string -> bool, opts: Options, k: nat)
    requires k < |Scan(key, lines, p, opts)|
    ensures var m := Scan(key, lines, p, opts)[k];
            1 <= m.line <= |lines| && m.text == lines[m.line - 1] && m.byteOffset == OffsetOf(lines, m.line - 1)
  {
    var ms, n := Scan(key, lines, p, opts), LinesRead(lines, p, opts.maxMatches, 0);
    ScanRecord(key, lines, p, opts, Hits(lines, p, n), n, ms, k);
  }

  /** Match m stands in the bytes: its raw line at its offset shifted by the carriage returns dropped before it,
      and in CR-free text its own text at its offset, as a whole line. */
  ghost predicate Stands(bytes: string, raws: seq<string>, m: Match) {
    && 1 <= m.line <= |raws| && 0 <= m.byteOffset
    && StandsAt(bytes, m.byteOffset + CRs(raws, m.line - 1), raws[m.line - 1])
    && ('\r' !in bytes ==> StandsAt(bytes, m.byteOffset, m.text))
  }

  predicate StandsAt(bytes: string, at: int, raw: string) { 0 <= at && IsLineAt(bytes, at, raw) }

  lemma RawStands(bytes: string, i: nat, at: int)
    requires i < |Lines(bytes)| && at == OffsetOf(Lines(bytes), i) + CRs(RawLines(bytes), i)
    ensures StandsAt(bytes, at, RawLines(bytes)[i])
  {
    OffsetDrift(bytes, i);
    assert at == OffsetOf(RawLines(bytes), i);
    LineStart(bytes, 0, i, at, RawLines(bytes)[i]);
  }

  lemma PlainStands(bytes: string, i: nat, at: int)
    requires '\r' !in bytes && i < |Lines(bytes)| && at == OffsetOf(Lines(bytes), i)
    ensures StandsAt(bytes, at, Lines(bytes)[i])
  {
    ByteOffsetInPlainText(bytes, i);
  }

  /** Every match of a scan of a file's bytes stands where it says. */
  lemma MatchesStandInFile(bytes: string, key: string, p: string -> bool, opts: Options, ms: seq<Match>, k: nat)
    requires ms == Scan(key, Lines(bytes), p, opts) && k < |ms|
    ensures Stands(bytes, RawLines(bytes), ms[k])
  {
    MatchOnLine(key, Lines(bytes), p, opts, k);
    var m := ms[k];
    RawStands(bytes, m.line - 1, m.byteOffset + CRs(RawLines(bytes), m.line - 1));
    if '\r' !in bytes {
      PlainStands(bytes, m.line - 1, m.byteOffset);
    }
  }

  lemma CarriageReturnLines()
    ensures RawLines("a\r\nb") == ["a\r", "b"]
  {
    var bytes := "a\r\nb";
    assert bytes[2] == '\n' && FeedFrom(bytes, 2) == 2 && FeedFrom(bytes, 1) == 2 && FeedFrom(bytes, 0) == 2;
    assert FeedFrom(bytes, 4) == 4 && FeedFrom(bytes, 3) == 4;
    assert bytes[3..4] == "b" && bytes[0..2] == "a\r";
    assert LinesFrom(bytes, 3) == ["b"] + [];
  }

  /** A carriage return shifts every later offset: the second of these lines starts at 3, not at 2. */
  lemma CarriageReturnShifts()
    ensures Lines("a\r\nb") == ["a", "b"] && OffsetOf(Lines("a\r\nb"), 1) == 2
    ensures IsLineAt("a\r\nb", 3, "b") && !IsLineAt("a\r\nb", 2, "b")
  {
    CarriageReturnLines();
    var raws := ["a\r", "b"];
    assert raws[1..] == ["b"] && ["b"][1..] == [];
    assert Delivered(["b"]) == 1 && Delivered(raws) == 2;
    assert DropCR("a\r") == "a" by { assert "a\r"[..1] == "a"; }
    assert OffsetOf(["a", "b"], 0) == 0;
  }

  lemma RawLinesKeepBytes(bytes: string, i: nat, c: char)
    requires i < |RawLines(bytes)| && c in RawLines(bytes)[i]
    ensures c in bytes
  {
    var raws := RawLines(bytes);
    var at := OffsetOf(raws, i);
    RawLineStart(bytes, raws, i);
    var j :| 0 <= j < |raws[i]| && raws[i][j] == c;
    assert bytes[at..at + |raws[i]|][j] == bytes[at + j];
  }

  /** In CR-free text every delivered line starts at its ByteOffset and ends at a line feed or the end. */
  lemma ByteOffsetInPlainText(bytes: string, i: nat)
    requires '\r' !in bytes && i < |Lines(bytes)|
    ensures IsLineAt(bytes, OffsetOf(Lines(bytes), i), Lines(bytes)[i])
  {
    forall k | 0 <= k <= i
      ensures !EndsInCR(RawLines(bytes)[k])
    {
      var raw := RawLines(bytes)[k];
      if EndsInCR(raw) {
        assert raw[|raw| - 1] in raw;
        RawLinesKeepBytes(bytes, k, '\r');
      }
    }
    ByteOffsetExact(bytes, i);
  }
}
