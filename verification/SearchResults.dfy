/** What a file search finds, in terms of the tree's entries, the files' bytes and their lines. */
module SearchResults {
  import opened Wrappers
  import opened Grep
  import opened LineText
  import opened Search

  /* ---------- Binary files ---------- */

  lemma SetWith<T>(a: set<T>, b: set<T>, x: T)
    requires x !in a && (forall y :: y in b <==> y in a || y == x)
    ensures |b| == |a| + 1
  {
    assert b == a + {x};
  }

  lemma SameSet<T>(a: set<T>, b: set<T>)
    requires forall y :: y in b <==> y in a
    ensures |b| == |a|
  {
    assert b == a;
  }

  /** The non-printable bytes, counted by their positions. */
  lemma {:induction false} NonPrintableMeans(sample: string)
    ensures CountNonPrintable(sample) ==
              |set i | 0 <= i < |sample| && (sample[i] as int < 9 || 13 < sample[i] as int < 32)|
  {
    var all := set i | 0 <= i < |sample| && (sample[i] as int < 9 || 13 < sample[i] as int < 32);
    if sample != "" {
      var n := |sample| - 1;
      var front := sample[..n];
      NonPrintableMeans(front);
      var before := set i | 0 <= i < |front| && (front[i] as int < 9 || 13 < front[i] as int < 32);
      if sample[n] as int < 9 || 13 < sample[n] as int < 32 {
        SetWith(before, all, n);
      } else {
        SameSet(before, all);
      }
    }
  }

  /** A sample looks binary exactly when it holds a zero byte or more than 30 percent, rounded down, of its
      bytes are below 9 or between 14 and 31. */
  lemma BinaryMeans(sample: string)
    requires sample != ""
    ensures LooksBinary(sample) <==>
              || (exists i :: 0 <= i < |sample| && sample[i] as int == 0)
              || |set i | 0 <= i < |sample| && (sample[i] as int < 9 || 13 < sample[i] as int < 32)| * 100 / |sample| > 30
  {
    NonPrintableMeans(sample);
    PercentAbove30(CountNonPrintable(sample), |sample|);
    assert '\0' as int == 0;
    assert forall i | 0 <= i < |sample| && sample[i] as int == 0 :: sample[i] == '\0';
  }

  /* ---------- One file ---------- */

  lemma TooLongMeans(bytes: string)
    ensures TooLong(bytes) <==> exists i :: 0 <= i < |RawLines(bytes)| && |RawLines(bytes)[i]| >= 1024 * 1024
  {
  }

  /** Which files are scanned, judged by their first 512 bytes, and what an uncapped scan returns: its matches,
      and an error exactly when reading fails or a line reaches a mebibyte. */
  lemma FileMeans(body: Body, key: string, p: string -> bool, opts: Options, o: Outcome)
    requires o == ScanOutcome(body, key, p, opts)
    ensures body.Unopenable? ==> o == Outcome([], false, true)
    ensures body.Body? ==> (!o.scanned <==>
              body.bytes != "" && LooksBinary(if |body.bytes| <= 512 then body.bytes else body.bytes[..512]))
    ensures !o.scanned ==> o.matches == [] && (o.failed <==> body.Unopenable?)
    ensures o.scanned ==> o.matches == Scan(key, Lines(body.bytes), p, opts)
    ensures o.scanned && opts.maxMatches <= 0 ==>
              (o.failed <==> body.readFails ||
                             exists i :: 0 <= i < |RawLines(body.bytes)| && |RawLines(body.bytes)[i]| >= 1024 * 1024)
  {
    if body.Body? {
      TooLongMeans(body.bytes);
      assert |body.bytes| <= 512 ==> Peek(body.bytes) == body.bytes;
    }
  }

  /** A file that an uncapped scan gets through: not binary, no failing read and no over-long line. */
  predicate Scannable(body: Body) {
    && body.Body? && !body.readFails
    && (forall i | 0 <= i < |RawLines(body.bytes)| :: |RawLines(body.bytes)[i]| < 1024 * 1024)
    && (body.bytes == "" || !LooksBinary(if |body.bytes| <= 512 then body.bytes else body.bytes[..512]))
  }

  /** A scan that counts exactly when its file is scannable, and then holds, in order, a match for every matching
      line, carrying what the lines say. */
  ghost predicate Describes(o: Outcome, e: Entry, p: string -> bool, opts: Options) {
    && (Counts(o) <==> Scannable(e.body))
    && (Counts(o) ==>
          var lines := Lines(e.body.bytes);
          && (forall k | 0 <= k < |o.matches| :: Carries(o.matches[k], e.key, lines, opts, |lines|) && p(o.matches[k].text))
          && (forall j, k | 0 <= j < k < |o.matches| :: o.matches[j].line < o.matches[k].line)
          && (forall i | 0 <= i < |lines| && p(lines[i]) :: HasLine(o.matches, i + 1)))
  }

  lemma ScanDescribes(e: Entry, p: string -> bool, opts: Options, o: Outcome)
    requires opts.maxMatches <= 0 && o == ScannerOf(p, opts)(e)
    ensures Describes(o, e, p, opts)
  {
    FileMeans(e.body, e.key, p, opts, o);
    if Counts(o) {
      var lines := Lines(e.body.bytes);
      LinesReadUncapped(lines, p, opts.maxMatches, 0);
      ScanMeans(e.key, lines, p, opts, o.matches, |lines|);
      LinesIncrease(o.matches, |o.matches|);
    }
  }

  lemma {:induction false} LinesIncrease(ms: seq<Match>, n: nat)
    requires n <= |ms| && forall k | 0 < k < |ms| :: ms[k - 1].line < ms[k].line
    ensures forall j, k | 0 <= j < k < n :: ms[j].line < ms[k].line
  {
    if n > 1 {
      LinesIncrease(ms, n - 1);
      assert ms[n - 2].line < ms[n - 1].line;
    }
  }

  /* ---------- The files of a tree ---------- */

  /** The entries a search is to scan: files that no glob, failing stat or size limit excludes. */
  predicate Chosen(e: Entry, opts: SearchOpts) {
    && !e.walkFails && !e.isDir && !e.infoFails
    && (opts.included == None || opts.included.value(e.name))
    && (opts.excluded == None || !opts.excluded.value(e.name))
    && (opts.maxSize <= 0 || e.size <= opts.maxSize)
  }

  predicate Increasing(at: seq<nat>) { forall j, k | 0 <= j < k < |at| :: at[j] < at[k] }

  predicate Among(at: seq<nat>, i: nat) { exists k | 0 <= k < |at| :: at[k] == i }

  /** The files are the chosen entries, at these positions of the walk, in order and without omission. */
  ghost predicate Placed(entries: seq<Entry>, opts: SearchOpts, files: seq<Entry>, at: seq<nat>) {
    && |at| == |files| && Increasing(at)
    && (forall k | 0 <= k < |at| :: at[k] < |entries| && entries[at[k]] == files[k] && Chosen(files[k], opts))
    && (forall i: nat | i < |entries| && Chosen(entries[i], opts) :: Among(at, i))
  }

  /** The positions one further on, with the new first one if it is taken. */
  function Moved(at: seq<nat>, taken: bool): (at': seq<nat>)
    ensures |at'| == |at| + if taken then 1 else 0
    ensures taken ==> at'[0] == 0
    ensures forall k | (if taken then 1 else 0) <= k < |at'| :: at'[k] == at[k - if taken then 1 else 0] + 1
  {
    (if taken then [0] else []) + seq(|at|, k requires 0 <= k < |at| => at[k] + 1)
  }

  lemma MovedIncreases(at: seq<nat>, taken: bool)
    requires Increasing(at)
    ensures Increasing(Moved(at, taken))
  {
  }

  lemma AmongMoved(at: seq<nat>, taken: bool, i: nat)
    requires if i == 0 then taken else Among(at, i - 1)
    ensures Among(Moved(at, taken), i)
  {
    var d, at' := if taken then 1 else 0, Moved(at, taken);
    if i > 0 {
      var k :| 0 <= k < |at| && at[k] == i - 1;
      assert at'[k + d] == i;
    }
  }

  /** One more entry in front. */
  lemma PlacedMore(e: Entry, rest: seq<Entry>, opts: SearchOpts, files: seq<Entry>, at: seq<nat>)
    returns (at': seq<nat>)
    requires Placed(rest, opts, files, at)
    ensures Placed([e] + rest, opts, (if Chosen(e, opts) then [e] else []) + files, at')
  {
    var taken, entries := Chosen(e, opts), [e] + rest;
    var d := if taken then 1 else 0;
    at' := Moved(at, taken);
    MovedIncreases(at, taken);
    forall k | d <= k < |at'|
      ensures at'[k] < |entries| && entries[at'[k]] == files[k - d] && Chosen(files[k - d], opts)
    {
    }
    forall i: nat | i < |entries| && Chosen(entries[i], opts)
      ensures Among(at', i)
    {
      if i > 0 {
        assert Among(at, i - 1);
      }
      AmongMoved(at, taken, i);
    }
  }

  lemma SelectedMeans(e: Entry, opts: SearchOpts)
    ensures Visited(e) && Selected(e, opts) <==> Chosen(e, opts)
  {
  }

  /** What the walk collects behind its first entry, and with it. */
  lemma WalkUnfold(entries: seq<Entry>, opts: SearchOpts, live: nat) returns (files: seq<Entry>, rest: nat)
    requires entries != [] && live >= CountVisited(entries)
    ensures rest >= CountVisited(entries[1..]) && files == FilesOf(Reached(entries[1..], rest), opts)
    ensures FilesOf(Reached(entries, live), opts) == (if Chosen(entries[0], opts) then [entries[0]] else []) + files
  {
    SelectedMeans(entries[0], opts);
    rest := if Visited(entries[0]) then live - 1 else live;
    files := FilesOf(Reached(entries[1..], rest), opts);
    if Visited(entries[0]) {
      FilesOfUnfold(entries[0], Reached(entries[1..], rest), opts);
    }
  }

  /** Without cancellation the files of a tree are its chosen entries, in walk order. */
  lemma {:induction false} FilesPlaced(entries: seq<Entry>, opts: SearchOpts, live: nat) returns (at: seq<nat>)
    requires live >= CountVisited(entries)
    ensures Placed(entries, opts, FilesOf(Reached(entries, live), opts), at)
  {
    if entries == [] {
      at := [];
    } else {
      var files, rest := WalkUnfold(entries, opts, live);
      at := FilesPlaced(entries[1..], opts, rest);
      at := PlacedMore(entries[0], entries[1..], opts, files, at);
      assert entries == [entries[0]] + entries[1..];
    }
  }

  /* ---------- The matches of all scans ---------- */

  /** Match j of a search is match idx[j] of scan from[j]; the pairs are in order and none is left out. */
  ghost predicate Collected(os: seq<Outcome>, n: nat, ms: seq<Match>, from: seq<nat>, idx: seq<nat>) {
    && n <= |os| && |from| == |idx| == |ms|
    && (forall j | 0 <= j < |ms| :: from[j] < n && Counts(os[from[j]])
                                 && idx[j] < |os[from[j]].matches| && ms[j] == os[from[j]].matches[idx[j]])
    && (forall j, k | 0 <= j < k < |ms| :: from[j] < from[k] || (from[j] == from[k] && idx[j] < idx[k]))
    && (forall f: nat, x: nat | f < n && Counts(os[f]) && x < |os[f].matches| :: Listed(from, idx, f, x))
  }

  predicate Listed(from: seq<nat>, idx: seq<nat>, f: nat, x: nat)
    requires |from| == |idx|
  {
    exists j | 0 <= j < |from| :: from[j] == f && idx[j] == x
  }

  lemma CollectedMore(os: seq<Outcome>, n: nat, ms: seq<Match>, from: seq<nat>, idx: seq<nat>)
    returns (from': seq<nat>, idx': seq<nat>)
    requires Collected(os, n, ms, from, idx) && n < |os|
    ensures Collected(os, n + 1, ms + Contribution(os[n]), from', idx')
  {
    var c := Contribution(os[n]);
    from', idx' := from + seq(|c|, x => n), idx + seq(|c|, x requires 0 <= x < |c| => x);
    forall f: nat, x: nat | f < n + 1 && Counts(os[f]) && x < |os[f].matches|
      ensures Listed(from', idx', f, x)
    {
      if f < n {
        assert Listed(from, idx, f, x);
        var j :| 0 <= j < |from| && from[j] == f && idx[j] == x;
        assert from'[j] == f && idx'[j] == x;
      } else {
        assert from'[|from| + x] == f && idx'[|from| + x] == x;
      }
    }
  }

  lemma {:induction false} AllCollected(os: seq<Outcome>, n: nat) returns (from: seq<nat>, idx: seq<nat>)
    requires n <= |os|
    ensures Collected(os, n, Raw(os, n), from, idx)
  {
    from, idx := [], [];
    if n > 0 {
      from, idx := AllCollected(os, n - 1);
      from, idx := CollectedMore(os, n - 1, Raw(os, n - 1), from, idx);
    }
  }

  /* ---------- The whole search ---------- */

  /** Match m, found in entry i, is on a matching line of a chosen, scannable file and carries what its lines say. */
  ghost predicate FoundIn(entries: seq<Entry>, p: string -> bool, opts: SearchOpts, m: Match, i: nat) {
    && i < |entries| && Chosen(entries[i], opts) && Scannable(entries[i].body) && p(m.text)
    && Carries(m, entries[i].key, Lines(entries[i].body.bytes), opts.grep, |Lines(entries[i].body.bytes)|)
  }

  /** Some match found in entry i is on this line. */
  ghost predicate Reported(ms: seq<Match>, where: seq<nat>, i: nat, line: int)
    requires |where| == |ms|
  {
    exists j | 0 <= j < |ms| :: where[j] == i && ms[j].line == line
  }

  /** The matches are those of all matching lines of all chosen, scannable files, in walk and line order. */
  ghost predicate FindsExactly(entries: seq<Entry>, p: string -> bool, opts: SearchOpts, ms: seq<Match>, where: seq<nat>) {
    && |where| == |ms|
    && (forall j | 0 <= j < |ms| :: FoundIn(entries, p, opts, ms[j], where[j]))
    && (forall j, k | 0 <= j < k < |ms| :: where[j] < where[k] || (where[j] == where[k] && ms[j].line < ms[k].line))
    && (forall i: nat | i < |entries| && Chosen(entries[i], opts) && Scannable(entries[i].body) ::
          AllReported(Lines(entries[i].body.bytes), p, ms, where, i))
  }

  /** Every matching line of entry i has its match. */
  ghost predicate AllReported(lines: seq<string>, p: string -> bool, ms: seq<Match>, where: seq<nat>, i: nat)
    requires |where| == |ms|
  {
    forall l: nat | l < |lines| && p(lines[l]) :: Reported(ms, where, i, l + 1)
  }

  ghost predicate AllDescribed(os: seq<Outcome>, files: seq<Entry>, p: string -> bool, opts: Options) {
    |os| == |files| && forall f | 0 <= f < |os| :: Describes(os[f], files[f], p, opts)
  }

  /** Where each match was found: the entry of the scan it comes from. */
  function Origins(at: seq<nat>, from: seq<nat>): (where: seq<nat>)
    requires forall j | 0 <= j < |from| :: from[j] < |at|
    ensures |where| == |from| && forall j | 0 <= j < |from| :: where[j] == at[from[j]]
  {
    seq(|from|, j requires 0 <= j < |from| => at[from[j]])
  }

  lemma MatchFound(entries: seq<Entry>, p: string -> bool, opts: SearchOpts, files: seq<Entry>, at: seq<nat>,
                   os: seq<Outcome>, f: nat, x: nat)
    requires Placed(entries, opts, files, at) && AllDescribed(os, files, p, opts.grep)
    requires f < |os| && Counts(os[f]) && x < |os[f].matches|
    ensures FoundIn(entries, p, opts, os[f].matches[x], at[f])
  {
    assert Describes(os[f], files[f], p, opts.grep);
  }

  lemma MatchesInOrder(opts: SearchOpts, p: string -> bool, files: seq<Entry>, at: seq<nat>, os: seq<Outcome>,
                       f: nat, x: nat, g: nat, y: nat)
    requires |at| == |files| && Increasing(at) && AllDescribed(os, files, p, opts.grep)
    requires f < |os| && g < |os| && Counts(os[f]) && Counts(os[g]) && x < |os[f].matches| && y < |os[g].matches|
    requires f < g || (f == g && x < y)
    ensures at[f] < at[g] || (at[f] == at[g] && os[f].matches[x].line < os[g].matches[y].line)
  {
    assert Describes(os[f], files[f], p, opts.grep);
  }

  /** The scan of a chosen entry. */
  lemma EntryScanned(entries: seq<Entry>, p: string -> bool, opts: SearchOpts, files: seq<Entry>, at: seq<nat>,
                     os: seq<Outcome>, i: nat) returns (f: nat)
    requires Placed(entries, opts, files, at) && AllDescribed(os, files, p, opts.grep)
    requires i < |entries| && Chosen(entries[i], opts)
    ensures f < |os| && at[f] == i && Describes(os[f], entries[i], p, opts.grep)
  {
    assert Among(at, i);
    f :| 0 <= f < |at| && at[f] == i;
    assert Describes(os[f], files[f], p, opts.grep);
  }

  /** It is among the matches of the search. */
  lemma MatchReported(os: seq<Outcome>, ms: seq<Match>, at: seq<nat>, from: seq<nat>, idx: seq<nat>, f: nat, x: nat)
    requires Collected(os, |os|, ms, from, idx) && |at| == |os|
    requires f < |os| && Counts(os[f]) && x < |os[f].matches|
    ensures Reported(ms, Origins(at, from), at[f], os[f].matches[x].line)
  {
    assert Listed(from, idx, f, x);
    var j :| 0 <= j < |from| && from[j] == f && idx[j] == x;
    assert Origins(at, from)[j] == at[f] && ms[j].line == os[f].matches[x].line;
  }

  lemma ScanReported(os: seq<Outcome>, ms: seq<Match>, at: seq<nat>, from: seq<nat>, idx: seq<nat>, f: nat,
                     lines: seq<string>, p: string -> bool)
    requires Collected(os, |os|, ms, from, idx) && |at| == |os| && f < |os| && Counts(os[f])
    requires forall l | 0 <= l < |lines| && p(lines[l]) :: HasLine(os[f].matches, l + 1)
    ensures AllReported(lines, p, ms, Origins(at, from), at[f])
  {
    forall l: nat | l < |lines| && p(lines[l])
      ensures Reported(ms, Origins(at, from), at[f], l + 1)
    {
      assert HasLine(os[f].matches, l + 1);
      var x :| 0 <= x < |os[f].matches| && os[f].matches[x].line == l + 1;
      MatchReported(os, ms, at, from, idx, f, x);
    }
  }

  lemma AllFound(entries: seq<Entry>, p: string -> bool, opts: SearchOpts, files: seq<Entry>, at: seq<nat>,
                 os: seq<Outcome>, ms: seq<Match>, from: seq<nat>, idx: seq<nat>, where: seq<nat>)
    requires Placed(entries, opts, files, at) && AllDescribed(os, files, p, opts.grep)
    requires Collected(os, |os|, ms, from, idx) && where == Origins(at, from)
    ensures FindsExactly(entries, p, opts, ms, where)
  {
    forall j | 0 <= j < |ms|
      ensures FoundIn(entries, p, opts, ms[j], where[j])
    {
      MatchFound(entries, p, opts, files, at, os, from[j], idx[j]);
    }
    forall j, k | 0 <= j < k < |ms|
      ensures where[j] < where[k] || (where[j] == where[k] && ms[j].line < ms[k].line)
    {
      MatchesInOrder(opts, p, files, at, os, from[j], idx[j], from[k], idx[k]);
    }
    forall i: nat | i < |entries| && Chosen(entries[i], opts) && Scannable(entries[i].body)
      ensures AllReported(Lines(entries[i].body.bytes), p, ms, where, i)
    {
      var f := EntryScanned(entries, p, opts, files, at, os, i);
      ScanReported(os, ms, at, from, idx, f, Lines(entries[i].body.bytes), p);
    }
  }

  /** A search of a tree, without a cap and not cancelled, finds exactly the matching lines of the chosen files that
      can be scanned, in walk order and within a file in line order, each with its number, text, context and
      offset. */
  lemma SearchFinds(entries: seq<Entry>, p: string -> bool, opts: SearchOpts, live: nat, r: SearchResult, done: nat)
    returns (where: seq<nat>)
    requires Found(Directory(entries), ScannerOf(p, opts.grep), opts, live, r, done)
    requires live >= 2 * CountVisited(entries) && opts.grep.maxMatches <= 0
    ensures FindsExactly(entries, p, opts, r.matches, where)
  {
    var scan, files := ScannerOf(p, opts.grep), FilesUnder(Directory(entries), opts, live);
    var os := Outcomes(files, scan);
    SearchMeaning(entries, scan, opts, live, r, done);
    var at := FilesPlaced(entries, opts, live);
    var from, idx := AllCollected(os, |os|);
    forall f | 0 <= f < |os|
      ensures Describes(os[f], files[f], p, opts.grep)
    {
      ScanDescribes(files[f], p, opts.grep, os[f]);
    }
    where := Origins(at, from);
    AllFound(entries, p, opts, files, at, os, r.matches, from, idx, where);
  }

  /* ---------- The counters ---------- */

  /** Below n: the positions of the files whose scans count. */
  lemma {:induction false} ScannedPositions(os: seq<Outcome>, at: seq<nat>, n: nat) returns (counted: set<nat>)
    requires n <= |os| == |at| && Increasing(at)
    ensures CountScanned(os, n) == |counted|
    ensures forall i :: i in counted <==> exists k :: 0 <= k < n && at[k] == i && Counts(os[k])
  {
    counted := {};
    if n > 0 {
      var before := ScannedPositions(os, at, n - 1);
      if Counts(os[n - 1]) {
        counted := before + {at[n - 1]};
        SetWith(before, counted, at[n - 1]);
      } else {
        counted := before;
      }
    }
  }

  lemma {:induction false} VisitedMore(entries: seq<Entry>, e: Entry)
    ensures CountVisited(entries + [e]) == CountVisited(entries) + if Visited(e) then 1 else 0
  {
    if entries == [] {
      assert ([] + [e])[1..] == [];
    } else {
      assert (entries + [e])[1..] == entries[1..] + [e];
      VisitedMore(entries[1..], e);
    }
  }

  lemma {:induction false} VisitedMeans(entries: seq<Entry>)
    ensures CountVisited(entries) == |set i: nat | i < |entries| && !entries[i].walkFails && !entries[i].isDir|
  {
    var all := set i: nat | i < |entries| && !entries[i].walkFails && !entries[i].isDir;
    if entries != [] {
      var n := |entries| - 1;
      var front := entries[..n];
      var before := set i: nat | i < |front| && !front[i].walkFails && !front[i].isDir;
      VisitedMeans(front);
      VisitedMore(front, entries[n]);
      assert entries == front + [entries[n]];
      if Visited(entries[n]) {
        SetWith(before, all, n);
      } else {
        SameSet(before, all);
      }
    }
  }

  lemma ScannedAmong(entries: seq<Entry>, p: string -> bool, opts: SearchOpts, files: seq<Entry>, at: seq<nat>,
                     os: seq<Outcome>)
    requires Placed(entries, opts, files, at) && AllDescribed(os, files, p, opts.grep)
    ensures CountScanned(os, |os|) == |set i: nat | i < |entries| && Chosen(entries[i], opts) && Scannable(entries[i].body)|
  {
    var counted := ScannedPositions(os, at, |os|);
    var all := set i: nat | i < |entries| && Chosen(entries[i], opts) && Scannable(entries[i].body);
    forall i: nat | i in all
      ensures i in counted
    {
      assert Among(at, i);
      var k :| 0 <= k < |at| && at[k] == i;
      assert Describes(os[k], files[k], p, opts.grep);
    }
    forall i: nat | i in counted
      ensures i in all
    {
      var k :| 0 <= k < |os| && at[k] == i && Counts(os[k]);
      assert Describes(os[k], files[k], p, opts.grep);
    }
    SameSet(counted, all);
  }

  /** The counters of such a search: the chosen files that can be scanned, and all other files the walk saw. */
  lemma CountersMean(entries: seq<Entry>, p: string -> bool, opts: SearchOpts, live: nat, r: SearchResult, done: nat)
    requires Found(Directory(entries), ScannerOf(p, opts.grep), opts, live, r, done)
    requires live >= 2 * CountVisited(entries) && opts.grep.maxMatches <= 0
    ensures r.scanned == |set i: nat | i < |entries| && Chosen(entries[i], opts) && Scannable(entries[i].body)|
    ensures r.scanned + r.skipped == |set i: nat | i < |entries| && !entries[i].walkFails && !entries[i].isDir|
    ensures r.count == |r.matches|
  {
    var scan, files := ScannerOf(p, opts.grep), FilesUnder(Directory(entries), opts, live);
    var os := Outcomes(files, scan);
    SearchMeaning(entries, scan, opts, live, r, done);
    ReachedCount(entries, live);
    FilesOfCount(Reached(entries, live), opts);
    var at := FilesPlaced(entries, opts, live);
    forall f | 0 <= f < |os|
      ensures Describes(os[f], files[f], p, opts.grep)
    {
      ScanDescribes(files[f], p, opts.grep, os[f]);
    }
    ScannedAmong(entries, p, opts, files, at, os);
    VisitedMeans(entries);
  }

  /* ---------- Other bases ---------- */

  /** A missing base is an empty result, and so is a cancelled search of a single file. */
  lemma EmptyResults(base: Base, scan: Scanner, opts: SearchOpts, live: nat, r: SearchResult, done: nat)
    requires Found(base, scan, opts, live, r, done) && (base.Missing? || (base.SingleFile? && live == 0))
    ensures r == SearchResult([], 0, 0, 0)
  {
    assert done == 0;
    assert Raw([], 0) == [] && CountScanned([], 0) == 0;
  }

  /** A single file is scanned whatever its name and size. */
  lemma SingleFileMeans(e: Entry, p: string -> bool, opts: SearchOpts, live: nat, r: SearchResult, done: nat)
    requires Found(SingleFile(e), ScannerOf(p, opts.grep), opts, live, r, done)
    requires live > 0 && opts.grep.maxMatches <= 0
    ensures if Scannable(e.body)
            then r.scanned == 1 && r.skipped == 0 && r.matches == Scan(e.key, Lines(e.body.bytes), p, opts.grep)
            else r.scanned == 0 && r.skipped == 1 && r.matches == []
  {
    var os := Outcomes([e], ScannerOf(p, opts.grep));
    var o := os[0];
    assert Raw(os, 1) == Raw(os, 0) + Contribution(o) == Contribution(o);
    assert CountScanned(os, 1) == CountScanned(os, 0) + if Counts(o) then 1 else 0;
    FileMeans(e.body, e.key, p, opts.grep, o);
    ScanDescribes(e, p, opts.grep, o);
  }
}
