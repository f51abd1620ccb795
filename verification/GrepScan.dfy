/** connectors/file/local.go, scanFile: the pass with its heap-allocated matches and in-place queue. */
module GrepScan {
  import opened Grep
  import opened GrepPass

  /** A heap-allocated match that is still collecting After lines. */
  class Pending {
    var m: Match

    constructor (m: Match)
      ensures this.m == m
    {
      this.m := m;
    }
  }

  /** The queue as the proofs see it: the first n cells of the array point to distinct objects,
      which hold the records `held`. */
  ghost predicate Queue(queued: array<Pending?>, n: nat, objs: seq<Pending>, held: seq<Match>)
    reads queued, objs
  {
    && n == |objs| == |held| <= queued.Length
    && (forall i | 0 <= i < n :: queued[i] == objs[i])
    && (forall i, j | 0 <= i < j < n :: objs[i] != objs[j])
    && (forall i | 0 <= i < n :: objs[i].m == held[i])
  }

  /** Give every queued match one more After line. */
  method Drain(queued: array<Pending?>, n: nat, line: string, ghost objs: seq<Pending>, ghost held: seq<Match>)
    requires Queue(queued, n, objs, held)
    modifies set o | o in objs
    ensures Queue(queued, n, objs, Grown(held, line))
  {
    ghost var grown := Grown(held, line);
    for i := 0 to n
      invariant forall j | 0 <= j < i :: objs[j].m == grown[j]
      invariant forall j | i <= j < n :: objs[j].m == held[j]
    {
      var q := queued[i];
      assert q == objs[i];
      q.m := q.m.(after := q.m.after + [line]);
    }
  }

  /** Move full matches out of the queue; compact the rest over the same array.
      At most the front match can be full: the ones behind it started later. */
  method Compact(queued: array<Pending?>, n: nat, after: int, matches0: seq<Match>,
                 ghost objs: seq<Pending>, ghost held: seq<Match>)
    returns (matches: seq<Match>, kept: nat)
    requires Queue(queued, n, objs, held) && Waiting(held, after)
    modifies queued
    ensures var full := FullFront(held, after);
            matches == matches0 + held[..full] && Queue(queued, kept, objs[full..], held[full..])
  {
    matches, kept := matches0, 0;
    ghost var full := FullFront(held, after);
    for i := 0 to n
      invariant kept == if i < full then 0 else i - full
      invariant matches == if i < full then matches0 else matches0 + held[..full]
      invariant forall j | 0 <= j < kept :: queued[j] == objs[full + j]
      invariant forall j | i <= j < n :: queued[j] == objs[j]
    {
      var q := queued[i];
      assert q == objs[i] && q.m == held[i];
      if |q.m.after| >= after {
        matches := matches + [q.m];
      } else {
        queued[kept] := q;
        kept := kept + 1;
      }
    }
  }

  /** Go's append on the queue: in place while there is room, else into a larger array. */
  method Enqueue(queued: array<Pending?>, n: nat, q: Pending, ghost objs: seq<Pending>, ghost held: seq<Match>)
    returns (grown: array<Pending?>)
    requires Queue(queued, n, objs, held) && q !in objs
    modifies queued
    ensures Queue(grown, n + 1, objs + [q], held + [q.m])
    ensures grown == queued || fresh(grown)
  {
    if n < queued.Length {
      grown := queued;
    } else {
      grown := new Pending?[2 * n + 1];
      for i := 0 to n
        invariant forall j | 0 <= j < n :: queued[j] == objs[j]
        invariant forall j | 0 <= j < i :: grown[j] == objs[j]
      {
        grown[i] := queued[i];
      }
    }
    grown[n] := q;
  }

  /** Lines 366-378: drain one line into the queue, then compact it. */
  method Advance(line: string, after: int, queued: array<Pending?>, qlen: nat, matches0: seq<Match>,
                 ghost objs: seq<Pending>, ghost s: Pass)
    returns (matches: seq<Match>, kept: nat, ghost rest: seq<Pending>)
    requires Queue(queued, qlen, objs, s.held) && matches0 == s.matches
    requires Waiting(Grown(s.held, line), after)
    modifies queued, set o | o in objs
    ensures Queue(queued, kept, rest, Drained(s, line, after).held) && matches == Drained(s, line, after).matches
    ensures forall o | o in rest :: o in objs
  {
    Drain(queued, qlen, line, objs, s.held);
    ghost var grown := Grown(s.held, line);
    matches, kept := Compact(queued, qlen, after, matches0, objs, grown);
    rest := objs[FullFront(grown, after)..];
  }

  /** Lines 380-395: record a hit on the line just read. */
  method RecordHit(m: Match, after: int, queued0: array<Pending?>, qlen0: nat, matches0: seq<Match>,
                   ghost objs0: seq<Pending>, ghost s: Pass)
    returns (queued: array<Pending?>, qlen: nat, matches: seq<Match>, ghost objs: seq<Pending>)
    requires Queue(queued0, qlen0, objs0, s.held) && matches0 == s.matches
    modifies queued0
    ensures Queue(queued, qlen, objs, WithHit(s, m, after).held) && matches == WithHit(s, m, after).matches
    ensures (queued == queued0 || fresh(queued)) && forall o | o in objs :: o in objs0 || fresh(o)
  {
    queued, qlen, matches, objs := queued0, qlen0, matches0, objs0;
    if after > 0 {
      var cp := new Pending(m);
      queued := Enqueue(queued0, qlen0, cp, objs0, s.held);
      qlen, objs := qlen0 + 1, objs0 + [cp];
    } else {
      matches := matches + [m];
    }
  }

  /** Lines 366-395: everything one line does to the queue and the result. */
  method QueueLine(key: string, lineNo: int, line: string, p: string -> bool, opts: Options,
                  buf: seq<string>, offset: int, queued0: array<Pending?>, qlen0: nat, matches0: seq<Match>,
                  ghost objs0: seq<Pending>, ghost s: Pass)
    returns (queued: array<Pending?>, qlen: nat, matches: seq<Match>, ghost objs: seq<Pending>)
    requires Queue(queued0, qlen0, objs0, s.held) && matches0 == s.matches
    requires Waiting(Grown(s.held, line), opts.after)
    modifies queued0, set o | o in objs0
    ensures var t := Next(s, line, p(line), Fresh(key, lineNo, line, opts, buf, offset), opts.after);
            Queue(queued, qlen, objs, t.held) && matches == t.matches
    ensures (queued == queued0 || fresh(queued)) && forall o | o in objs :: o in objs0 || fresh(o)
  {
    queued := queued0;
    matches, qlen, objs := Advance(line, opts.after, queued, qlen0, matches0, objs0, s);
    if p(line) {
      var m := Fresh(key, lineNo, line, opts, buf, offset);
      queued, qlen, matches, objs :=
        RecordHit(m, opts.after, queued, qlen, matches, objs, Drained(s, line, opts.after));
    }
  }

  /** The rolling window and the offset are in step with n lines read. */
  ghost predicate InStep(lines: seq<string>, before: int, n: nat, buf: seq<string>, offset: int) {
    n <= |lines| && buf == BeforeWindow(lines, before, n) && offset == OffsetOf(lines, n)
  }

  /** Lines 401-407: roll the window of recent lines and advance the offset. */
  method Remember(ghost lines: seq<string>, line: string, before: int, ghost n: nat, ghost n': nat,
                  buf0: seq<string>, offset0: int)
    returns (buf: seq<string>, offset: int)
    requires n' == n + 1 <= |lines| && InStep(lines, before, n, buf0, offset0) && line == lines[n]
    ensures InStep(lines, before, n', buf, offset)
  {
    buf, offset := buf0, offset0;
    if before > 0 {
      BufferStep(lines, before, n);
      if |buf| == before {
        buf := buf[1..];
      }
      buf := buf + [line];
    }
    offset := offset + |line| + 1;
  }

  /** The closure flushQueued: matches still waiting for After lines go out as they are. */
  method FlushQueued(queued: array<Pending?>, qlen: nat, matches0: seq<Match>,
                     ghost objs: seq<Pending>, ghost held: seq<Match>)
    returns (matches: seq<Match>)
    requires Queue(queued, qlen, objs, held)
    ensures matches == matches0 + held
  {
    matches := matches0;
    for i := 0 to qlen
      invariant matches == matches0 + held[..i]
    {
      matches := matches + [queued[i].m];
    }
  }

  /** What is known after n lines: the state of the pass, and whether the cap ended it. */
  ghost predicate Scanned(key: string, lines: seq<string>, p: string -> bool, opts: Options,
                          n: nat, s: Pass, stopped: bool)
  {
    && n <= |lines| && s == PassOver(RecorderOf(key, lines, opts), lines, p, opts.after, n)
    && Means(key, lines, opts, Hits(lines, p, n), n, s)
    && LinesRead(lines, p, opts.maxMatches, 0) == (if stopped then n else LinesRead(lines, p, opts.maxMatches, n))
    && (stopped <==> 0 < opts.maxMatches <= |s.matches| + |s.held|)
  }

  lemma ScanStart(key: string, lines: seq<string>, p: string -> bool, opts: Options, n: nat, s: Pass, stopped: bool)
    requires n == 0 && s == Pass([], []) && !stopped
    ensures Scanned(key, lines, p, opts, n, s, stopped)
  {
    PassMeaning(key, lines, p, opts, 0, s, []);
  }

  lemma ScanStep(key: string, lines: seq<string>, p: string -> bool, opts: Options, n: nat, s: Pass,
                 buf: seq<string>, offset: int, stopped: bool, n': nat, s': Pass, stopped': bool)
    requires Scanned(key, lines, p, opts, n, s, stopped) && !stopped && n' == n + 1 <= |lines|
    requires InStep(lines, opts.before, n, buf, offset)
    requires s' == Next(s, lines[n], p(lines[n]), Fresh(key, n', lines[n], opts, buf, offset), opts.after)
    requires stopped' == (p(lines[n]) && opts.maxMatches > 0 && |s'.matches| + |s'.held| >= opts.maxMatches)
    ensures Scanned(key, lines, p, opts, n', s', stopped')
  {
    FirstRecord(key, lines, opts, n);
    PassMeaning(key, lines, p, opts, n', s', Hits(lines, p, n'));
  }

  /** Before each line, only the front match of the queue can become full. */
  lemma QueueReady(key: string, lines: seq<string>, p: string -> bool, opts: Options, n: nat, s: Pass, stopped: bool)
    requires Scanned(key, lines, p, opts, n, s, stopped) && n < |lines|
    ensures Waiting(Grown(s.held, lines[n]), opts.after)
  {
  }

  lemma ScanEnd(key: string, lines: seq<string>, p: string -> bool, opts: Options, n: nat, s: Pass, stopped: bool)
    requires Scanned(key, lines, p, opts, n, s, stopped) && (n == |lines| || stopped)
    ensures s.matches + s.held == Scan(key, lines, p, opts)
    ensures stopped <==> 0 < opts.maxMatches <= |Scan(key, lines, p, opts)|
    ensures n == LinesRead(lines, p, opts.maxMatches, 0)
  {
  }

  /** Lines 364-407: one turn of the loop. */
  method ReadLine(key: string, lines: seq<string>, p: string -> bool, opts: Options, n: nat,
                  buf0: seq<string>, offset0: int, queued0: array<Pending?>, qlen0: nat, matches0: seq<Match>,
                  ghost objs0: seq<Pending>, ghost s0: Pass, ghost stopped0: bool)
    returns (queued: array<Pending?>, qlen: nat, matches: seq<Match>, buf: seq<string>, offset: int, lineNo: nat,
             stopped: bool, ghost objs: seq<Pending>, ghost s: Pass)
    requires Scanned(key, lines, p, opts, n, s0, stopped0) && n < |lines| && !stopped0
    requires Queue(queued0, qlen0, objs0, s0.held) && matches0 == s0.matches
    requires InStep(lines, opts.before, n, buf0, offset0)
    modifies queued0, set o | o in objs0
    ensures lineNo == n + 1 && Scanned(key, lines, p, opts, lineNo, s, stopped)
    ensures Queue(queued, qlen, objs, s.held) && matches == s.matches
    ensures !stopped ==> InStep(lines, opts.before, lineNo, buf, offset)
    ensures (queued == queued0 || fresh(queued)) && forall o | o in objs :: o in objs0 || fresh(o)
  {
    var line := lines[n];
    buf, offset, lineNo := buf0, offset0, n + 1;
    QueueReady(key, lines, p, opts, n, s0, stopped0);
    s := Next(s0, line, p(line), Fresh(key, lineNo, line, opts, buf, offset), opts.after);
    queued, qlen, matches, objs :=
      QueueLine(key, lineNo, line, p, opts, buf, offset, queued0, qlen0, matches0, objs0, s0);
    stopped := p(line) && opts.maxMatches > 0 && |matches| + qlen >= opts.maxMatches;
    ScanStep(key, lines, p, opts, n, s0, buf, offset, stopped0, lineNo, s, stopped);
    if !stopped {
      buf, offset := Remember(lines, line, opts.before, n, lineNo, buf, offset);
    }
  }

  /** The loop of scanFile, against the declarative scan. */
  method ScanPass(key: string, lines: seq<string>, p: string -> bool, opts: Options)
    returns (matches: seq<Match>, stoppedEarly: bool, lineNo: nat)
    ensures matches == Scan(key, lines, p, opts)
    ensures stoppedEarly <==> 0 < opts.maxMatches <= |matches|
    ensures lineNo == LinesRead(lines, p, opts.maxMatches, 0)
  {
    matches, stoppedEarly, lineNo := [], false, 0;
    var buf: seq<string> := [];
    var queued := new Pending?[0];
    var qlen := 0;
    var offset := 0;
    ghost var objs: seq<Pending>, s := [], Pass([], []);
    ScanStart(key, lines, p, opts, lineNo, s, stoppedEarly);
    while lineNo < |lines| && !stoppedEarly
      invariant Scanned(key, lines, p, opts, lineNo, s, stoppedEarly)
      invariant fresh(queued) && forall o | o in objs :: fresh(o)
      invariant Queue(queued, qlen, objs, s.held) && matches == s.matches
      invariant !stoppedEarly ==> InStep(lines, opts.before, lineNo, buf, offset)
    {
      queued, qlen, matches, buf, offset, lineNo, stoppedEarly, objs, s :=
        ReadLine(key, lines, p, opts, lineNo, buf, offset, queued, qlen, matches, objs, s, stoppedEarly);
    }
    ScanEnd(key, lines, p, opts, lineNo, s, stoppedEarly);
    matches := FlushQueued(queued, qlen, matches, objs, s.held);
  }

  /** scanFile on the lines its scanner delivers. Each match carries its line's number and text, the lines just
      before it in file order, and those just after it among the lines read; the matches are those of all
      matching lines read, in order; and reading stops early only behind the match that fills the cap. */
  method ScanLines(key: string, lines: seq<string>, p: string -> bool, opts: Options)
    returns (matches: seq<Match>, stoppedEarly: bool, lineNo: nat)
    ensures matches == Scan(key, lines, p, opts) && lineNo == LinesRead(lines, p, opts.maxMatches, 0)
    ensures stoppedEarly <==> 0 < opts.maxMatches <= |matches|
    ensures forall k | 0 <= k < |matches| ::
              && Carries(matches[k], key, lines, opts, lineNo) && p(matches[k].text)
              && (k > 0 ==> matches[k - 1].line < matches[k].line)
    ensures forall line | 1 <= line <= lineNo <= |lines| && p(lines[line - 1]) :: HasLine(matches, line)
    ensures lineNo < |lines| ==> 0 < opts.maxMatches == |matches| && matches[|matches| - 1].line == lineNo
    ensures opts.maxMatches > 0 ==> |matches| <= opts.maxMatches
  {
    matches, stoppedEarly, lineNo := ScanPass(key, lines, p, opts);
    ScanMeans(key, lines, p, opts, matches, lineNo);
  }
}
