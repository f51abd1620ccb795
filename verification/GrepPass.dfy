/** connectors/file/local.go, scanFile: the running state of the pass, as values, and its meaning. */
module GrepPass {
  import opened Order
  import opened Grep

  /** matches: finished records; held: records still collecting After lines, oldest first. */
  datatype Pass = Pass(matches: seq<Match>, held: seq<Match>)

  function Grown(held: seq<Match>, line: string): (grown: seq<Match>)
    ensures |grown| == |held|
    ensures forall i | 0 <= i < |held| :: grown[i] == held[i].(after := held[i].after + [line])
  {
    seq(|held|, i requires 0 <= i < |held| => held[i].(after := held[i].after + [line]))
  }

  /** How many matches at the front of a queue are full: none or one. */
  function FullFront(held: seq<Match>, after: int): nat {
    if |held| > 0 && |held[0].after| >= after then 1 else 0
  }

  /** Lines 366-378: every held match takes the line; a full one at the front is finished. */
  function Drained(s: Pass, line: string, after: int): Pass {
    var grown := Grown(s.held, line);
    var full := FullFront(grown, after);
    s.(matches := s.matches + grown[..full], held := grown[full..])
  }

  /** Lines 381-389: the record a hit starts with. */
  function Fresh(key: string, lineNo: int, line: string, opts: Options, buf: seq<string>, offset: int): Match {
    Match(key, lineNo, line, if opts.before > 0 then buf else [], [], offset)
  }

  /** Lines 390-395: a hit is held while it wants After lines, else finished at once. */
  function WithHit(s: Pass, m: Match, after: int): Pass {
    if after > 0 then s.(held := s.held + [m]) else s.(matches := s.matches + [m])
  }

  /** Everything one line does to the queue and the result. */
  function Next(s: Pass, line: string, hit: bool, m: Match, after: int): Pass {
    var d := Drained(s, line, after);
    if hit then WithHit(d, m, after) else d
  }

  /** rec(i, n) stands for the record of a hit on line i once n lines are read.
      How records look does not matter to the queue; how they grow does. */
  type Recorder = (nat, nat) -> Match

  /** The state after the first n lines, started by the records rec(i, i + 1). */
  function PassOver(rec: Recorder, lines: seq<string>, p: string -> bool, after: int, n: nat): Pass
    requires n <= |lines|
  {
    if n == 0 then Pass([], [])
    else Next(PassOver(rec, lines, p, after, n - 1), lines[n - 1], p(lines[n - 1]), rec(n - 1, n), after)
  }

  /** The record of line i takes line n as one more After line exactly while its window is open. */
  ghost predicate GrowsAt(rec: Recorder, lines: seq<string>, after: int, i: nat, n: nat)
    requires n < |lines|
  {
    && |rec(i, n).after| == Min(NonNegative(after), n - i - 1)
    && rec(i, n + 1) == if n < i + 1 + NonNegative(after) then rec(i, n).(after := rec(i, n).after + [lines[n]]) else rec(i, n)
  }

  ghost predicate Grows(rec: Recorder, lines: seq<string>, after: int) {
    forall i: nat, n: nat | i < n < |lines| :: GrowsAt(rec, lines, after, i, n)
  }

  /** The finished and the held matches are, in order, the records of all hits so far. */
  ghost predicate Contents(rec: Recorder, hits: seq<nat>, n: nat, matches: seq<Match>, held: seq<Match>) {
    && (forall k | 0 <= k < |hits| :: hits[k] < n)
    && |matches| + |held| == |hits|
    && (forall k | 0 <= k < |matches| :: matches[k] == rec(hits[k], n))
    && (forall k | 0 <= k < |held| :: held[k] == rec(hits[|matches| + k], n))
  }

  /** Exactly the first c hits have seen all their After lines. */
  ghost predicate Complete(after: int, hits: seq<nat>, n: nat, c: nat) {
    && Increasing(hits) && c <= |hits|
    && (forall k | 0 <= k < c :: hits[k] + 1 + NonNegative(after) <= n)
    && (forall k | c <= k < |hits| :: n < hits[k] + 1 + NonNegative(after))
  }

  ghost predicate Progress(rec: Recorder, after: int, hits: seq<nat>, n: nat, s: Pass) {
    Contents(rec, hits, n, s.matches, s.held) && Complete(after, hits, n, |s.matches|)
  }

  /** Reading line n: every held match grows by it. */
  lemma GrowStep(rec: Recorder, lines: seq<string>, after: int, hits: seq<nat>, n: nat, s: Pass)
    requires n < |lines| && Grows(rec, lines, after) && Progress(rec, after, hits, n, s)
    ensures Contents(rec, hits, n + 1, s.matches, Grown(s.held, lines[n]))
    ensures forall i | 0 <= i < |s.held| :: |Grown(s.held, lines[n])[i].after| == n - hits[|s.matches| + i]
  {
    assert forall k | 0 <= k < |hits| :: GrowsAt(rec, lines, after, hits[k], n);
  }

  /** Handing the front held match over keeps the contents. */
  lemma HandOver(rec: Recorder, hits: seq<nat>, n: nat, matches: seq<Match>, held: seq<Match>)
    requires Contents(rec, hits, n, matches, held) && held != []
    ensures Contents(rec, hits, n, matches + held[..1], held[1..])
  {
  }

  /** One more line completes at most the front hit: those behind it started later. */
  lemma CompletesFront(after: int, hits: seq<nat>, n: nat, c: nat)
    requires Complete(after, hits, n, c)
    requires c < |hits| && forall k | 0 <= k < |hits| :: hits[k] < n
    ensures Complete(after, hits, n + 1, if n - hits[c] >= after then c + 1 else c)
    ensures forall k | c < k < |hits| :: n - hits[k] < after
  {
    forall k | c < k < |hits|
      ensures n + 1 < hits[k] + 1 + NonNegative(after)
    {
      assert hits[c] < hits[k];
      assert n < hits[c] + 1 + NonNegative(after);
    }
  }

  /** Behind the front of the queue every match still wants lines. */
  ghost predicate Waiting(held: seq<Match>, after: int) {
    forall i | 1 <= i < |held| :: |held[i].after| < after
  }

  /** Draining line n keeps the invariant, and only the front match can have become full. */
  lemma DrainStep(rec: Recorder, lines: seq<string>, after: int, hits: seq<nat>, n: nat, s: Pass)
    requires n < |lines| && Grows(rec, lines, after) && Progress(rec, after, hits, n, s)
    ensures Progress(rec, after, hits, n + 1, Drained(s, lines[n], after))
    ensures Waiting(Grown(s.held, lines[n]), after)
  {
    var grown := Grown(s.held, lines[n]);
    GrowStep(rec, lines, after, hits, n, s);
    if |grown| > 0 {
      CompletesFront(after, hits, n, |s.matches|);
    }
    if FullFront(grown, after) == 1 {
      HandOver(rec, hits, n + 1, s.matches, grown);
    } else {
      assert s.matches + grown[..0] == s.matches && grown[0..] == grown;
    }
  }

  /** A hit on the line just read joins the queue, or the result when no After lines are wanted. */
  lemma HitStep(rec: Recorder, after: int, hits: seq<nat>, n: nat, s: Pass)
    requires Progress(rec, after, hits, n + 1, s)
    requires forall k | 0 <= k < |hits| :: hits[k] < n
    ensures Progress(rec, after, hits + [n], n + 1, WithHit(s, rec(n, n + 1), after))
  {
    assert s.held != [] ==> hits[|s.matches|] < n;
  }

  /** One line keeps the invariant. */
  lemma NextStep(rec: Recorder, lines: seq<string>, after: int, hits: seq<nat>, n: nat, s: Pass, hit: bool,
                 hits': seq<nat>, n': nat, s': Pass)
    requires n < |lines| && Grows(rec, lines, after) && Progress(rec, after, hits, n, s)
    requires hits' == (if hit then hits + [n] else hits) && n' == n + 1
    requires s' == Next(s, lines[n], hit, rec(n, n'), after)
    ensures Progress(rec, after, hits', n', s')
  {
    DrainStep(rec, lines, after, hits, n, s);
    if hit {
      HitStep(rec, after, hits, n, Drained(s, lines[n], after));
    }
  }

  /** The invariant of the whole pass, by induction on the lines read. */
  lemma {:induction false} PassInvariant(rec: Recorder, lines: seq<string>, p: string -> bool, after: int, n: nat,
                                         hits: seq<nat>, s: Pass)
    requires n <= |lines| && Grows(rec, lines, after)
    requires hits == Hits(lines, p, n) && s == PassOver(rec, lines, p, after, n)
    ensures Progress(rec, after, hits, n, s)
  {
    if n > 0 {
      var hits0, s0 := Hits(lines, p, n - 1), PassOver(rec, lines, p, after, n - 1);
      PassInvariant(rec, lines, p, after, n - 1, hits0, s0);
      NextStep(rec, lines, after, hits0, n - 1, s0, p(lines[n - 1]), hits, n, s);
    }
  }

  /** The records of the declarative result, as a Recorder. */
  function RecorderOf(key: string, lines: seq<string>, opts: Options): Recorder {
    (i: nat, n: nat) => if i < n <= |lines| then RecordAt(key, lines, opts, i, n)
                        else Match(key, 0, "", [], [], 0)
  }

  lemma RecordsGrow(key: string, lines: seq<string>, opts: Options)
    ensures Grows(RecorderOf(key, lines, opts), lines, opts.after)
  {
    var rec := RecorderOf(key, lines, opts);
    forall i: nat, n: nat | i < n < |lines|
      ensures GrowsAt(rec, lines, opts.after, i, n)
    {
      RecordGrows(key, lines, opts, i, n);
    }
  }

  lemma RecordGrows(key: string, lines: seq<string>, opts: Options, i: nat, n: nat)
    requires i < n < |lines|
    ensures var r := RecordAt(key, lines, opts, i, n);
            && |r.after| == Min(NonNegative(opts.after), n - i - 1)
            && RecordAt(key, lines, opts, i, n + 1) ==
                 if n < i + 1 + NonNegative(opts.after) then r.(after := r.after + [lines[n]]) else r
  {
    if n < i + 1 + NonNegative(opts.after) {
      assert lines[i + 1..n] + [lines[n]] == lines[i + 1..n + 1];
    }
  }

  /** With the rolling window and the offset in step, a fresh match is the first record of its line. */
  lemma FirstRecord(key: string, lines: seq<string>, opts: Options, n: nat)
    requires n < |lines|
    ensures RecorderOf(key, lines, opts)(n, n + 1) ==
              Fresh(key, n + 1, lines[n], opts, BeforeWindow(lines, opts.before, n), OffsetOf(lines, n))
  {
    var r := RecordAt(key, lines, opts, n, n + 1);
    assert RecorderOf(key, lines, opts)(n, n + 1) == r;
    assert r.after == [];
    assert opts.before <= 0 ==> r.before == [];
  }

  lemma BufferStep(lines: seq<string>, before: int, n: nat)
    requires n < |lines| && before > 0
    ensures var buf := BeforeWindow(lines, before, n);
            BeforeWindow(lines, before, n + 1) == (if |buf| == before then buf[1..] else buf) + [lines[n]]
  {
  }

  /** The pass holds exactly the records of the hits among the first n lines. */
  ghost predicate Means(key: string, lines: seq<string>, opts: Options, hits: seq<nat>, n: nat, s: Pass) {
    && n <= |lines| && (forall k | 0 <= k < |hits| :: hits[k] < n)
    && s.matches + s.held == Records(key, lines, opts, hits, n)
    && |s.matches| + |s.held| == |hits|
    && (n < |lines| ==> Waiting(Grown(s.held, lines[n]), opts.after))
  }

  /** Finished and held matches that hold the records of the hits are the records, one after the other. */
  lemma ContentsAreRecords(key: string, lines: seq<string>, opts: Options, hits: seq<nat>, n: nat,
                           matches: seq<Match>, held: seq<Match>)
    requires n <= |lines| && Contents(RecorderOf(key, lines, opts), hits, n, matches, held)
    ensures matches + held == Records(key, lines, opts, hits, n)
  {
    var rec, all := RecorderOf(key, lines, opts), matches + held;
    forall k | 0 <= k < |hits|
      ensures all[k] == RecordAt(key, lines, opts, hits[k], n)
    {
      assert rec(hits[k], n) == RecordAt(key, lines, opts, hits[k], n);
      if k >= |matches| {
        assert all[k] == held[k - |matches|] == rec(hits[|matches| + (k - |matches|)], n);
      }
    }
  }

  lemma PassMeaning(key: string, lines: seq<string>, p: string -> bool, opts: Options, n: nat, s: Pass, hits: seq<nat>)
    requires n <= |lines| && hits == Hits(lines, p, n)
    requires s == PassOver(RecorderOf(key, lines, opts), lines, p, opts.after, n)
    ensures Means(key, lines, opts, hits, n, s)
  {
    var rec := RecorderOf(key, lines, opts);
    RecordsGrow(key, lines, opts);
    PassInvariant(rec, lines, p, opts.after, n, hits, s);
    ContentsAreRecords(key, lines, opts, hits, n, s.matches, s.held);
    if n < |lines| {
      DrainStep(rec, lines, opts.after, hits, n, s);
    }
  }
}
