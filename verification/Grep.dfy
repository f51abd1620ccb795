/** connectors/file/local.go, scanFile: what a streaming grep with context windows returns. */
module Grep {
  import opened Order

  datatype Options = Options(before: int, after: int, maxMatches: int)

  datatype Match = Match(key: string, line: int, text: string,
                         before: seq<string>, after: seq<string>, byteOffset: int)

  /* ---------- What a scan means, without buffers or queues ---------- */

  function NonNegative(x: int): nat { if x > 0 then x else 0 }

  /** Indices below n of the matching lines, in order. */
  function Hits(lines: seq<string>, p: string -> bool, n: nat): (hits: seq<nat>)
    requires n <= |lines|
    ensures forall k | 0 <= k < |hits| :: hits[k] < n
  {
    if n == 0 then []
    else if p(lines[n - 1]) then Hits(lines, p, n - 1) + [n - 1]
    else Hits(lines, p, n - 1)
  }

  /** Sum of (length + 1) over the first n lines. */
  function OffsetOf(lines: seq<string>, n: nat): nat
    requires n <= |lines|
  {
    if n == 0 then 0 else OffsetOf(lines, n - 1) + |lines[n - 1]| + 1
  }

  /** The last min(before, i) lines that precede line i. */
  function BeforeWindow(lines: seq<string>, before: int, i: nat): seq<string>
    requires i <= |lines|
  {
    lines[i - Min(NonNegative(before), i)..i]
  }

  /** The record of a match on line i once the first n lines have been read. */
  function RecordAt(key: string, lines: seq<string>, opts: Options, i: nat, n: nat): Match
    requires i < n <= |lines|
  {
    Match(key, i + 1, lines[i],
          BeforeWindow(lines, opts.before, i),
          lines[i + 1..Min(i + 1 + NonNegative(opts.after), n)],
          OffsetOf(lines, i))
  }

  function Records(key: string, lines: seq<string>, opts: Options, hits: seq<nat>, n: nat): (ms: seq<Match>)
    requires n <= |lines| && forall k | 0 <= k < |hits| :: hits[k] < n
    ensures |ms| == |hits|
    ensures forall k | 0 <= k < |hits| :: ms[k] == RecordAt(key, lines, opts, hits[k], n)
  {
    seq(|hits|, k requires 0 <= k < |hits| => RecordAt(key, lines, opts, hits[k], n))
  }

  /** How many lines a scan reads: up to the maxMatches-th hit, or all of them. */
  function LinesRead(lines: seq<string>, p: string -> bool, cap: int, n: nat): (r: nat)
    requires n <= |lines|
    ensures n <= r <= |lines|
    decreases |lines| - n
  {
    if n == |lines| then n
    else if p(lines[n]) && 0 < cap <= |Hits(lines, p, n + 1)| then n + 1
    else LinesRead(lines, p, cap, n + 1)
  }

  /** The declarative result of a scan. */
  function Scan(key: string, lines: seq<string>, p: string -> bool, opts: Options): seq<Match> {
    var n := LinesRead(lines, p, opts.maxMatches, 0);
    Records(key, lines, opts, Hits(lines, p, n), n)
  }

  /* ---------- Properties of the declarative result ---------- */

  lemma Bounds(before: int, after: int, i: nat, n: nat)
    requires i < n
    ensures Min(NonNegative(before), i) == if before <= 0 then 0 else if before < i then before else i
    ensures Min(i + 1 + NonNegative(after), n) ==
              if after <= 0 then i + 1 else if i + 1 + after < n then i + 1 + after else n
  {
  }

  /** What a record carries, in terms of the lines: line number, text, the lines just before it in file order,
      those just after it among the n lines read, and its offset. */
  lemma RecordMeans(key: string, lines: seq<string>, opts: Options, i: nat, n: nat, from: nat, to: nat)
    requires i < n <= |lines|
    requires from == i - (if opts.before <= 0 then 0 else if opts.before < i then opts.before else i)
    requires to == if opts.after <= 0 then i + 1 else if i + 1 + opts.after < n then i + 1 + opts.after else n
    ensures RecordAt(key, lines, opts, i, n) ==
              Match(key, i + 1, lines[i], lines[from..i], lines[i + 1..to], OffsetOf(lines, i))
  {
    Bounds(opts.before, opts.after, i, n);
  }

  /** Match m carries what the lines say: number, text, context before and after, and offset. */
  predicate Carries(m: Match, key: string, lines: seq<string>, opts: Options, n: nat) {
    var i := m.line - 1;
    && 0 <= i < n <= |lines| && m.key == key && m.text == lines[i] && m.byteOffset == OffsetOf(lines, i)
    && m.before == lines[i - (if opts.before <= 0 then 0 else if opts.before < i then opts.before else i)..i]
    && m.after == lines[i + 1..if opts.after <= 0 then i + 1
                               else if i + 1 + opts.after < n then i + 1 + opts.after else n]
  }

  /** The k-th hit. */
  lemma HitAt(lines: seq<string>, p: string -> bool, n: nat, k: nat)
    requires n <= |lines| && k < |Hits(lines, p, n)|
    ensures p(lines[Hits(lines, p, n)[k]])
    ensures k > 0 ==> Hits(lines, p, n)[k - 1] < Hits(lines, p, n)[k]
  {
    var hits := Hits(lines, p, n);
    HitsAreTheMatches(lines, p, n);
    assert hits[k] in hits;
  }

  lemma RecordCarries(m: Match, key: string, lines: seq<string>, opts: Options, i: nat, n: nat)
    requires i < n <= |lines| && m == RecordAt(key, lines, opts, i, n)
    ensures m.line == i + 1 && m.text == lines[i] && Carries(m, key, lines, opts, n)
  {
    var from: nat := i - (if opts.before <= 0 then 0 else if opts.before < i then opts.before else i);
    var to: nat := if opts.after <= 0 then i + 1 else if i + 1 + opts.after < n then i + 1 + opts.after else n;
    RecordMeans(key, lines, opts, i, n, from, to);
  }

  /** The scan's records are those of the matching lines among the n read, in order. */
  lemma ScanRecord(key: string, lines: seq<string>, p: string -> bool, opts: Options, hits: seq<nat>, n: nat,
                   ms: seq<Match>, k: nat)
    requires n <= |lines| && hits == Hits(lines, p, n) && k < |hits| && ms == Records(key, lines, opts, hits, n)
    ensures Carries(ms[k], key, lines, opts, n) && p(ms[k].text)
    ensures k > 0 ==> ms[k - 1].line < ms[k].line
  {
    HitAt(lines, p, n, k);
    RecordCarries(ms[k], key, lines, opts, hits[k], n);
    if k > 0 {
      assert ms[k - 1] == RecordAt(key, lines, opts, hits[k - 1], n);
    }
  }

  predicate HasLine(ms: seq<Match>, line: int) { exists k | 0 <= k < |ms| :: ms[k].line == line }

  lemma ScanHasAll(key: string, lines: seq<string>, p: string -> bool, opts: Options, line: nat)
    requires 1 <= line <= LinesRead(lines, p, opts.maxMatches, 0) && p(lines[line - 1])
    ensures HasLine(Scan(key, lines, p, opts), line)
  {
    var ms, n := Scan(key, lines, p, opts), LinesRead(lines, p, opts.maxMatches, 0);
    var hits := Hits(lines, p, n);
    HitsAreTheMatches(lines, p, n);
    assert line - 1 in hits;
    var k :| 0 <= k < |hits| && hits[k] == line - 1;
    assert ms[k] == RecordAt(key, lines, opts, hits[k], n);
  }

  /** A scan stops short of the end only behind the record that fills the cap. */
  lemma ScanStops(key: string, lines: seq<string>, p: string -> bool, opts: Options)
    ensures var ms, n := Scan(key, lines, p, opts), LinesRead(lines, p, opts.maxMatches, 0);
            && (n < |lines| ==> 0 < opts.maxMatches == |ms| && ms[|ms| - 1].line == n)
            && (opts.maxMatches > 0 ==> |ms| <= opts.maxMatches)
  {
    var ms, n := Scan(key, lines, p, opts), LinesRead(lines, p, opts.maxMatches, 0);
    var hits := Hits(lines, p, n);
    ReadStops(lines, p, opts.maxMatches, 0);
    if n < |lines| {
      var last := |hits| - 1;
      assert ms[last] == RecordAt(key, lines, opts, hits[last], n);
    }
  }

  /** What a scan returns, in terms of the lines it reads. */
  lemma ScanMeans(key: string, lines: seq<string>, p: string -> bool, opts: Options, ms: seq<Match>, n: nat)
    requires ms == Scan(key, lines, p, opts) && n == LinesRead(lines, p, opts.maxMatches, 0)
    ensures forall k | 0 <= k < |ms| ::
              Carries(ms[k], key, lines, opts, n) && p(ms[k].text) && (k > 0 ==> ms[k - 1].line < ms[k].line)
    ensures forall line | 1 <= line <= n <= |lines| && p(lines[line - 1]) :: HasLine(ms, line)
    ensures n < |lines| ==> 0 < opts.maxMatches == |ms| && ms[|ms| - 1].line == n
    ensures opts.maxMatches > 0 ==> |ms| <= opts.maxMatches
  {
    forall k | 0 <= k < |ms|
      ensures Carries(ms[k], key, lines, opts, n) && p(ms[k].text) && (k > 0 ==> ms[k - 1].line < ms[k].line)
    {
      ScanRecord(key, lines, p, opts, Hits(lines, p, n), n, ms, k);
    }
    forall line | 1 <= line <= n <= |lines| && p(lines[line - 1])
      ensures HasLine(ms, line)
    {
      ScanHasAll(key, lines, p, opts, line);
    }
    ScanStops(key, lines, p, opts);
  }

  /** Reading stops short of the end only behind the hit that fills the cap. */
  lemma {:induction false} ReadStops(lines: seq<string>, p: string -> bool, cap: int, n: nat)
    requires n <= |lines| && (cap > 0 ==> |Hits(lines, p, n)| < cap)
    ensures var r := LinesRead(lines, p, cap, n);
            var hits := Hits(lines, p, r);
            && (r < |lines| ==> cap > 0 && |hits| == cap && hits[cap - 1] == r - 1)
            && (cap > 0 ==> |hits| <= cap)
    decreases |lines| - n
  {
    if n < |lines| && !(p(lines[n]) && 0 < cap <= |Hits(lines, p, n + 1)|) {
      ReadStops(lines, p, cap, n + 1);
    }
  }

  predicate Increasing(s: seq<nat>) { forall i, j | 0 <= i < j < |s| :: s[i] < s[j] }

  /** Hits lists every matching index below n, once, in increasing order. */
  lemma {:induction false} HitsAreTheMatches(lines: seq<string>, p: string -> bool, n: nat)
    requires n <= |lines|
    ensures Increasing(Hits(lines, p, n))
    ensures forall i: nat :: i in Hits(lines, p, n) <==> i < n && p(lines[i])
  {
    if n > 0 {
      HitsAreTheMatches(lines, p, n - 1);
    }
  }

  lemma {:induction false} LinesReadUncapped(lines: seq<string>, p: string -> bool, cap: int, n: nat)
    requires n <= |lines| && cap <= 0
    ensures LinesRead(lines, p, cap, n) == |lines|
    decreases |lines| - n
  {
    if n < |lines| {
      LinesReadUncapped(lines, p, cap, n + 1);
    }
  }

  /** Without a cap: one record per matching line, in order, with full windows. */
  lemma UncappedScan(key: string, lines: seq<string>, p: string -> bool, opts: Options)
    requires opts.maxMatches <= 0
    ensures var ms := Scan(key, lines, p, opts);
            && (forall i, j | 0 <= i < j < |ms| :: ms[i].line < ms[j].line)
            && (forall m | m in ms :: 1 <= m.line <= |lines|
                 && p(lines[m.line - 1]) && Carries(m, key, lines, opts, |lines|)
                 && m == RecordAt(key, lines, opts, m.line - 1, |lines|))
            && (forall i | 0 <= i < |lines| && p(lines[i]) :: RecordAt(key, lines, opts, i, |lines|) in ms)
  {
    var ms := Scan(key, lines, p, opts);
    var hits := Hits(lines, p, |lines|);
    LinesReadUncapped(lines, p, opts.maxMatches, 0);
    HitsAreTheMatches(lines, p, |lines|);
    forall k | 0 <= k < |ms|
      ensures ms[k].line == hits[k] + 1 && p(lines[hits[k]]) && ms[k] == RecordAt(key, lines, opts, hits[k], |lines|)
      ensures Carries(ms[k], key, lines, opts, |lines|)
    {
      assert hits[k] in hits;
      RecordCarries(ms[k], key, lines, opts, hits[k], |lines|);
    }
    forall i | 0 <= i < |lines| && p(lines[i])
      ensures RecordAt(key, lines, opts, i, |lines|) in ms
    {
      assert i in hits;
      var k :| 0 <= k < |hits| && hits[k] == i;
      assert ms[k] == RecordAt(key, lines, opts, i, |lines|);
    }
  }

  /** Two records of the same match, the first perhaps cut short. */
  predicate Clips(a: Match, b: Match) {
    a.after <= b.after && a.(after := []) == b.(after := [])
  }

  predicate ClippedPrefix(a: seq<Match>, b: seq<Match>) {
    |a| <= |b| && forall k | 0 <= k < |a| :: Clips(a[k], b[k])
  }

  lemma {:induction false} HitsGrow(lines: seq<string>, p: string -> bool, m: nat, n: nat)
    requires m <= n <= |lines|
    ensures Hits(lines, p, m) <= Hits(lines, p, n)
  {
    if m < n {
      HitsGrow(lines, p, m, n - 1);
    }
  }

  /** A capped scan that starts below its cap stops at the cap or at the end. */
  lemma {:induction false} LinesReadCapped(lines: seq<string>, p: string -> bool, cap: int, n: nat)
    requires n <= |lines| && |Hits(lines, p, n)| < cap
    ensures var r := LinesRead(lines, p, cap, n);
            |Hits(lines, p, r)| == Min(cap, |Hits(lines, p, |lines|)|)
    decreases |lines| - n
  {
    if n < |lines| {
      if |Hits(lines, p, n + 1)| < cap {
        LinesReadCapped(lines, p, cap, n + 1);
      } else {
        HitsGrow(lines, p, n + 1, |lines|);
      }
    }
  }

  lemma RecordClips(key: string, lines: seq<string>, opts: Options, opts': Options, i: nat, n: nat)
    requires i < n <= |lines| && opts.before == opts'.before && opts.after == opts'.after
    ensures Clips(RecordAt(key, lines, opts, i, n), RecordAt(key, lines, opts', i, |lines|))
  {
    var a, b := Min(i + 1 + NonNegative(opts.after), n), Min(i + 1 + NonNegative(opts.after), |lines|);
    assert lines[i + 1..b] == lines[i + 1..a] + lines[a..b];
  }

  /** With a cap M > 0: the first M uncapped records, each After perhaps shorter. */
  lemma CappedScan(key: string, lines: seq<string>, p: string -> bool, opts: Options)
    requires opts.maxMatches > 0
    ensures var capped := Scan(key, lines, p, opts);
            var all := Scan(key, lines, p, opts.(maxMatches := 0));
            |capped| == Min(opts.maxMatches, |all|) && ClippedPrefix(capped, all)
  {
    var opts' := opts.(maxMatches := 0);
    var capped, all := Scan(key, lines, p, opts), Scan(key, lines, p, opts');
    var n := LinesRead(lines, p, opts.maxMatches, 0);
    var hits, hits' := Hits(lines, p, n), Hits(lines, p, |lines|);
    LinesReadCapped(lines, p, opts.maxMatches, 0);
    LinesReadUncapped(lines, p, 0, 0);
    HitsGrow(lines, p, n, |lines|);
    forall k | 0 <= k < |capped|
      ensures Clips(capped[k], all[k])
    {
      assert hits'[k] == hits[k];
      RecordClips(key, lines, opts, opts', hits[k], n);
    }
  }
}
