/** connectors/file/local.go, scanFile's guards and localDriver.Search: grep over a directory tree. */
module Search {
  import opened Order
  import opened Wrappers
  import opened Grep
  import opened GrepScan
  import opened LineText

  /** What the operating system answers for a file. A read error ends the bytes early. */
  datatype Body = Unopenable | Body(bytes: string, readFails: bool)

  datatype Outcome = Outcome(matches: seq<Match>, scanned: bool, failed: bool)

  /* ---------- Binary detection ---------- */

  predicate NonPrintable(c: char) { c < 9 as char || 13 as char < c < 32 as char }

  function CountNonPrintable(sample: string): (n: nat)
    ensures n <= |sample|
  {
    if sample == "" then 0
    else CountNonPrintable(sample[..|sample| - 1]) + if NonPrintable(sample[|sample| - 1]) then 1 else 0
  }

  /** A NUL, or at least 31 percent non-printable bytes. */
  predicate LooksBinary(sample: string) {
    '\0' in sample || 100 * CountNonPrintable(sample) >= 31 * |sample|
  }

  /** The rounded-down percentage exceeds 30 exactly from 31 percent on. */
  lemma PercentAbove30(part: nat, whole: nat)
    requires whole > 0
    ensures part * 100 / whole > 30 <==> 100 * part >= 31 * whole
  {
    var q, r := part * 100 / whole, part * 100 % whole;
    assert part * 100 == q * whole + r;
    if q > 30 {
      assert (q - 31) * whole >= 0;
    } else {
      assert (30 - q) * whole >= 0;
    }
  }

  method IsLikelyBinary(sample: string) returns (binary: bool)
    requires sample != ""
    ensures binary == LooksBinary(sample)
  {
    for i := 0 to |sample|
      invariant '\0' !in sample[..i]
    {
      if sample[i] == '\0' {
        return true;
      }
    }
    var nonPrintable := 0;
    for i := 0 to |sample|
      invariant nonPrintable == CountNonPrintable(sample[..i])
    {
      assert sample[..i + 1][..i] == sample[..i];
      if NonPrintable(sample[i]) {
        nonPrintable := nonPrintable + 1;
      }
    }
    assert sample[..|sample|] == sample;
    PercentAbove30(nonPrintable, |sample|);
    binary := nonPrintable * 100 / |sample| > 30;
  }

  /* ---------- One file ---------- */

  function Peek(bytes: string): string { bytes[..Min(512, |bytes|)] }

  predicate SkippedAsBinary(body: Body) {
    body.Body? && body.bytes != "" && LooksBinary(Peek(body.bytes))
  }

  /** The scanner meets an error if it gets as far as the end of what it can read. */
  predicate EndsInError(body: Body) {
    body.Body? && (body.readFails || TooLong(body.bytes))
  }

  predicate EndsInLineFeed(bytes: string) { bytes != "" && bytes[|bytes| - 1] == '\n' }

  /** The scanner looks for the end of a last line that has no line feed, so it has met the read error
      by the time it delivers that line. */
  predicate LastLineMeetsError(body: Body)
    requires body.Body?
  {
    body.readFails && !TooLong(body.bytes) && !EndsInLineFeed(body.bytes)
  }

  /** Whether a scan that the cap stopped after n lines has met an error. */
  predicate MetAtCap(body: Body, n: nat)
    requires body.Body?
  {
    n == |Lines(body.bytes)| && LastLineMeetsError(body)
  }

  predicate HitsCap(cap: int, ms: seq<Match>) { 0 < cap <= |ms| }

  function ScanOutcome(body: Body, key: string, p: string -> bool, opts: Options): Outcome {
    if body.Unopenable? then Outcome([], false, true)
    else if SkippedAsBinary(body) then Outcome([], false, false)
    else
      var ms := Scan(key, Lines(body.bytes), p, opts);
      Outcome(ms, true,
              if HitsCap(opts.maxMatches, ms) then MetAtCap(body, LinesRead(Lines(body.bytes), p, opts.maxMatches, 0))
              else EndsInError(body))
  }

  method ScanFile(body: Body, key: string, p: string -> bool, opts: Options)
    returns (matches: seq<Match>, scanned: bool, failed: bool)
    ensures Outcome(matches, scanned, failed) == ScanOutcome(body, key, p, opts)
  {
    if body.Unopenable? {
      return [], false, true;
    }
    var peek := Peek(body.bytes);
    if |peek| > 0 {
      var binary := IsLikelyBinary(peek);
      if binary {
        return [], false, false;
      }
    }
    var stoppedEarly, lineNo;
    var lines := Lines(body.bytes);
    matches, stoppedEarly, lineNo := ScanLines(key, lines, p, opts);
    scanned := true;
    failed := if stoppedEarly then lineNo == |lines| && LastLineMeetsError(body)
              else body.readFails || TooLong(body.bytes);
  }

  /* ---------- The tree ---------- */

  /** One entry of the walk, in walk order. */
  datatype Entry = Entry(name: string, key: string, walkFails: bool, isDir: bool,
                         infoFails: bool, size: int, body: Body)

  datatype Base = Missing | SingleFile(entry: Entry) | Directory(entries: seq<Entry>)

  /** The globs act on base names; glob matching itself stays a parameter. */
  datatype SearchOpts = SearchOpts(grep: Options, maxSize: int,
                                   included: Option<string -> bool>, excluded: Option<string -> bool>)

  datatype SearchResult = SearchResult(matches: seq<Match>, count: int, scanned: int, skipped: int)

  predicate Visited(e: Entry) { !e.walkFails && !e.isDir }

  predicate Selected(e: Entry, opts: SearchOpts) {
    && (opts.included.Some? ==> opts.included.value(e.name))
    && (opts.excluded.Some? ==> !opts.excluded.value(e.name))
    && !e.infoFails
    && (opts.maxSize > 0 ==> e.size <= opts.maxSize)
  }

  /** The entries the walk reaches before cancellation, `live` context checks away. */
  function Reached(entries: seq<Entry>, live: nat): seq<Entry> {
    if entries == [] then []
    else if !Visited(entries[0]) then Reached(entries[1..], live)
    else if live == 0 then []
    else [entries[0]] + Reached(entries[1..], live - 1)
  }

  function FilesOf(reached: seq<Entry>, opts: SearchOpts): seq<Entry> {
    if reached == [] then []
    else (if Selected(reached[0], opts) then [reached[0]] else []) + FilesOf(reached[1..], opts)
  }

  /** How one file is scanned; what a search makes of the outcomes does not depend on it. */
  type Scanner = Entry -> Outcome

  function ScannerOf(p: string -> bool, opts: Options): Scanner {
    (e: Entry) => ScanOutcome(e.body, e.key, p, opts)
  }

  /** The outcomes of scanning each file. */
  function Outcomes(files: seq<Entry>, scan: Scanner): (os: seq<Outcome>)
    ensures |os| == |files|
    ensures forall i | 0 <= i < |files| :: os[i] == scan(files[i])
  {
    seq(|files|, i requires 0 <= i < |files| => scan(files[i]))
  }

  predicate Counts(o: Outcome) { o.scanned && !o.failed }

  /** What one scan contributes to a search: nothing when the file is skipped or the scan fails. */
  function Contribution(o: Outcome): seq<Match> { if Counts(o) then o.matches else [] }

  /** The contributions of the first n scans, in walk order. */
  function Raw(os: seq<Outcome>, n: nat): seq<Match>
    requires n <= |os|
  {
    if n == 0 then [] else Raw(os, n - 1) + Contribution(os[n - 1])
  }

  function Truncated(ms: seq<Match>, cap: int): seq<Match> {
    if 0 < cap < |ms| then ms[..cap] else ms
  }

  /** How many of the first n scans count. */
  function CountScanned(os: seq<Outcome>, n: nat): (c: nat)
    requires n <= |os|
    ensures c <= n
  {
    if n == 0 then 0 else CountScanned(os, n - 1) + if Counts(os[n - 1]) then 1 else 0
  }

  /* ---------- The search ---------- */

  method Keep(e: Entry, opts: SearchOpts) returns (keep: bool)
    ensures keep == Selected(e, opts)
  {
    if opts.included.Some? && !opts.included.value(e.name) {
      return false;
    }
    if opts.excluded.Some? && opts.excluded.value(e.name) {
      return false;
    }
    if e.infoFails {
      return false;
    }
    keep := !(opts.maxSize > 0 && e.size > opts.maxSize);
  }

  lemma ReachedUnfold(entries: seq<Entry>, i: nat, live: nat)
    requires i < |entries|
    ensures Reached(entries[i..], live) ==
              if !Visited(entries[i]) then Reached(entries[i + 1..], live)
              else if live == 0 then [] else [entries[i]] + Reached(entries[i + 1..], live - 1)
  {
    assert entries[i..][1..] == entries[i + 1..];
  }

  lemma FilesOfUnfold(e: Entry, rest: seq<Entry>, opts: SearchOpts)
    ensures FilesOf([e] + rest, opts) == (if Selected(e, opts) then [e] else []) + FilesOf(rest, opts)
  {
    assert ([e] + rest)[1..] == rest;
  }

  /** What the walk knows when it still has `rest` of the files it will reach: what it collected and counted. */
  ghost predicate Walked(opts: SearchOpts, live0: nat, reached: seq<Entry>, rest: seq<Entry>,
                         files: seq<Entry>, skipped: nat, live: nat)
  {
    && files + FilesOf(rest, opts) == FilesOf(reached, opts)
    && skipped + |files| + |rest| == |reached| && live + |reached| == live0 + |rest|
  }

  lemma WalkFile(opts: SearchOpts, live0: nat, reached: seq<Entry>, e: Entry, rest: seq<Entry>,
                 files: seq<Entry>, skipped: nat, live: nat, files': seq<Entry>, skipped': nat)
    requires Walked(opts, live0, reached, [e] + rest, files, skipped, live) && live > 0
    requires files' == (if Selected(e, opts) then files + [e] else files)
    requires skipped' == (if Selected(e, opts) then skipped else skipped + 1)
    ensures Walked(opts, live0, reached, rest, files', skipped', live - 1)
  {
    FilesOfUnfold(e, rest, opts);
  }

  /** Lines 254-288: the walk collects files and counts the entries it leaves out. */
  method WalkFiles(entries: seq<Entry>, opts: SearchOpts, live0: nat)
    returns (files: seq<Entry>, skipped: nat, live: nat)
    ensures var reached := Reached(entries, live0);
            files == FilesOf(reached, opts) && skipped + |files| == |reached| && live == live0 - |reached|
  {
    files, skipped, live := [], 0, live0;
    ghost var reached, rest := Reached(entries, live0), Reached(entries, live0);
    assert entries[0..] == entries;
    for i := 0 to |entries|
      invariant rest == Reached(entries[i..], live)
      invariant Walked(opts, live0, reached, rest, files, skipped, live)
    {
      var e := entries[i];
      ReachedUnfold(entries, i, live);
      if !e.walkFails && !e.isDir {
        if live == 0 {
          break;
        }
        ghost var files0, skipped0 := files, skipped;
        var keep := Keep(e, opts);
        if keep {
          files := files + [e];
        } else {
          skipped := skipped + 1;
        }
        rest := Reached(entries[i + 1..], live - 1);
        WalkFile(opts, live0, reached, e, rest, files0, skipped0, live, files, skipped);
        live := live - 1;
      }
    }
  }

  /** Lines 310-316: copy one file's matches until the cap is reached. */
  method TakeMatches(matches: seq<Match>, cap: int, all0: seq<Match>, count0: int)
    returns (all: seq<Match>, count: int)
    requires count0 == |all0| && (cap > 0 ==> count0 < cap)
    ensures all == Truncated(all0 + matches, cap) && count == |all|
  {
    all, count := all0, count0;
    for i := 0 to |matches|
      invariant count == |all| && all == Truncated(all0 + matches[..i], cap)
    {
      if cap > 0 && count >= cap {
        return;
      }
      all := all + [matches[i]];
      count := count + 1;
    }
  }

  predicate IsOutcome(o: Outcome, e: Entry, p: string -> bool, opts: Options) {
    o == ScanOutcome(e.body, e.key, p, opts)
  }

  /** Lines 300-316: one file of the loop. */
  method AddFile(e: Entry, p: string -> bool, opts: Options, r0: SearchResult, ghost o: Outcome)
    returns (r: SearchResult)
    requires IsOutcome(o, e, p, opts) && r0.count == |r0.matches|
    requires opts.maxMatches > 0 ==> r0.count < opts.maxMatches
    ensures r.matches == Truncated(r0.matches + Contribution(o), opts.maxMatches) && r.count == |r.matches|
    ensures r.scanned == r0.scanned + (if Counts(o) then 1 else 0)
    ensures r.skipped == r0.skipped + (if Counts(o) then 0 else 1)
  {
    r := r0;
    var matches, scanned, failed := ScanFile(e.body, e.key, p, opts);
    assert r0.matches + [] == r0.matches;
    if failed {
      return r.(skipped := r.skipped + 1);
    }
    if !scanned {
      return r.(skipped := r.skipped + 1);
    }
    r := r.(scanned := r.scanned + 1);
    var all, count := TakeMatches(matches, opts.maxMatches, r.matches, r.count);
    r := r.(matches := all, count := count);
  }

  /** What the loop knows after its first i files. */
  ghost predicate ScannedSoFar(os: seq<Outcome>, cap: int, i: nat, r: SearchResult) {
    && i <= |os| && r.matches == Truncated(Raw(os, i), cap) && r.count == |r.matches|
    && r.scanned == CountScanned(os, i) && r.scanned + r.skipped == i
  }

  /** The last of the first n scans began below the cap. */
  predicate HasRoom(os: seq<Outcome>, cap: int, n: nat)
    requires n <= |os|
  {
    n == 0 || !HitsCap(cap, Raw(os, n - 1))
  }

  lemma ScannedMore(os: seq<Outcome>, cap: int, i: nat, r: SearchResult, r': SearchResult)
    requires i < |os| && ScannedSoFar(os, cap, i, r) && !HitsCap(cap, r.matches)
    requires r'.matches == Truncated(r.matches + Contribution(os[i]), cap) && r'.count == |r'.matches|
    requires r'.scanned == r.scanned + (if Counts(os[i]) then 1 else 0)
    requires r'.skipped == r.skipped + (if Counts(os[i]) then 0 else 1)
    ensures ScannedSoFar(os, cap, i + 1, r')
  {
  }

  /** Lines 293-317: scan the files in walk order. `done` is how many were scanned, `os` their outcomes. */
  method ScanFiles(files: seq<Entry>, p: string -> bool, opts: Options, live0: nat, ghost os: seq<Outcome>)
    returns (r: SearchResult, ghost done: nat)
    requires |os| == |files|
    requires forall i {:trigger IsOutcome(os[i], files[i], p, opts)} | 0 <= i < |files| :: IsOutcome(os[i], files[i], p, opts)
    ensures done <= |files| && ScannedSoFar(os, opts.maxMatches, done, r)
    ensures r.count == |r.matches| && r.scanned + r.skipped == done
    ensures done < |files| ==> done == live0 || HitsCap(opts.maxMatches, r.matches)
    ensures done <= live0 && HasRoom(os, opts.maxMatches, done)
  {
    r, done := SearchResult([], 0, 0, 0), 0;
    var live := live0;
    for i := 0 to |files|
      invariant done == i && live == live0 - i && ScannedSoFar(os, opts.maxMatches, i, r)
      invariant HasRoom(os, opts.maxMatches, done)
    {
      if live == 0 {
        return;
      }
      live := live - 1;
      if opts.maxMatches > 0 && r.count >= opts.maxMatches {
        return;
      }
      done := i + 1;
      ghost var r0 := r;
      r := AddFile(files[i], p, opts, r, os[i]);
      ScannedMore(os, opts.maxMatches, i, r0, r);
    }
  }

  function FilesUnder(base: Base, opts: SearchOpts, live: nat): seq<Entry> {
    match base
    case Missing => []
    case SingleFile(e) => [e]
    case Directory(entries) => FilesOf(Reached(entries, live), opts)
  }

  /** The context checks that the walk and the first `done` files need. */
  function Checks(base: Base, live: nat, done: nat): nat {
    done + if base.Directory? then |Reached(base.entries, live)| else 0
  }

  /** Nothing was scanned after cancellation or behind the cap. */
  predicate InTime(base: Base, os: seq<Outcome>, cap: int, live: nat, done: nat)
    requires done <= |os|
  {
    Checks(base, live, done) <= live && HasRoom(os, cap, done)
  }

  /** The result of a search that scanned the first `done` of the files it collected. */
  ghost predicate Found(base: Base, scan: Scanner, opts: SearchOpts, live: nat, r: SearchResult, done: nat) {
    var files := FilesUnder(base, opts, live);
    && ScannedSoFar(Outcomes(files, scan), opts.grep.maxMatches, done, r.(skipped := done - r.scanned))
    && (done < |files| ==> live == Checks(base, live, done) || HitsCap(opts.grep.maxMatches, r.matches))
    && InTime(base, Outcomes(files, scan), opts.grep.maxMatches, live, done)
    && r.scanned + r.skipped == done + if base.Directory? then |Reached(base.entries, live)| - |files| else 0
  }

  /** Search, once the pattern compiled and the prefix resolved. */
  method Search(base: Base, p: string -> bool, opts: SearchOpts, live0: nat)
    returns (r: SearchResult, ghost done: nat)
    ensures Found(base, ScannerOf(p, opts.grep), opts, live0, r, done)
    ensures r.count == |r.matches| && (opts.grep.maxMatches > 0 ==> r.count <= opts.grep.maxMatches)
  {
    if base.Missing? {
      return SearchResult([], 0, 0, 0), 0;
    }
    var files, skipped, live := [], 0, live0;
    if base.Directory? {
      files, skipped, live := WalkFiles(base.entries, opts, live0);
    } else {
      files := [base.entry];
    }
    r, done := ScanFiles(files, p, opts.grep, live, Outcomes(files, ScannerOf(p, opts.grep)));
    r := r.(skipped := r.skipped + skipped);
  }

  /* ---------- What a capped search returns ---------- */

  /** A file whose scan meets an error that the cap hides: the scan ends at the cap, before the error
      that makes a scan without a cap drop the whole file. */
  predicate Hidden(e: Entry, p: string -> bool, opts: Options) {
    && EndsInError(e.body) && !SkippedAsBinary(e.body)
    && HitsCap(opts.maxMatches, Scan(e.key, Lines(e.body.bytes), p, opts))
    && !MetAtCap(e.body, LinesRead(Lines(e.body.bytes), p, opts.maxMatches, 0))
  }

  /** The capped list is the first `cap` entries of the full one, each After perhaps shorter. */
  ghost predicate FirstOf(capped: seq<Match>, cap: int, all: seq<Match>) {
    ClippedPrefix(capped, all) && |capped| == Min(cap, |all|)
  }

  /** The scan under the cap fills it, while the one without contributes nothing. */
  predicate Swallows(o: Outcome, o': Outcome, cap: int) {
    |Contribution(o)| >= cap && Contribution(o') == []
  }

  /** What a file contributes with a cap against what it contributes without. */
  lemma ContributionClips(e: Entry, p: string -> bool, opts: Options, opts': Options)
    requires opts.maxMatches > 0 && opts' == opts.(maxMatches := 0)
    ensures var o, o' := ScanOutcome(e.body, e.key, p, opts), ScanOutcome(e.body, e.key, p, opts');
            && (Hidden(e, p, opts) <==> Swallows(o, o', opts.maxMatches))
            && (!Hidden(e, p, opts) ==> FirstOf(Contribution(o), opts.maxMatches, Contribution(o')))
  {
    if e.body.Body? {
      CappedScan(e.key, Lines(e.body.bytes), p, opts);
    }
  }

  lemma ClipAppend(a: seq<Match>, b: seq<Match>, c: seq<Match>, u: seq<Match>, cap: int)
    requires cap > 0
    requires FirstOf(Truncated(a, cap), cap, b) && FirstOf(c, cap, u)
    ensures FirstOf(Truncated(a + c, cap), cap, b + u)
  {
    var t := Truncated(a + c, cap);
    if |a| >= cap {
      assert t == Truncated(a, cap);
    } else {
      assert |a| == |b|;
    }
  }

  /** When no scan that still has room swallows its file, the capped list is the first of the full one. */
  lemma {:induction false} FirstMatches(os: seq<Outcome>, os': seq<Outcome>, cap: int, n: nat)
    requires cap > 0 && n <= |os| == |os'|
    requires forall i | 0 <= i < n :: FirstOf(Contribution(os[i]), cap, Contribution(os'[i]))
                                   || (Swallows(os[i], os'[i], cap) && |Raw(os, i)| >= cap)
    ensures FirstOf(Truncated(Raw(os, n), cap), cap, Raw(os', n))
  {
    if n > 0 {
      FirstMatches(os, os', cap, n - 1);
      if FirstOf(Contribution(os[n - 1]), cap, Contribution(os'[n - 1])) {
        ClipAppend(Raw(os, n - 1), Raw(os', n - 1), Contribution(os[n - 1]), Contribution(os'[n - 1]), cap);
      } else {
        assert Truncated(Raw(os, n), cap) == Truncated(Raw(os, n - 1), cap);
      }
    }
  }

  lemma {:induction false} RawGrows(os: seq<Outcome>, m: nat, n: nat)
    requires m <= n <= |os|
    ensures Raw(os, m) <= Raw(os, n)
  {
    if m < n {
      RawGrows(os, m, n - 1);
    }
  }

  /** Every match of scan i names file i. */
  ghost predicate Keyed(os: seq<Outcome>, keys: seq<string>) {
    |os| == |keys| && forall i | 0 <= i < |os| :: forall x | 0 <= x < |os[i].matches| :: os[i].matches[x].key == keys[i]
  }

  /** Every match names a file that contributed. */
  lemma {:induction false} RawKeys(os: seq<Outcome>, keys: seq<string>, n: nat, j: nat) returns (k: nat)
    requires n <= |os| && Keyed(os, keys) && j < |Raw(os, n)|
    ensures k < n && Contribution(os[k]) != [] && Raw(os, n)[j].key == keys[k]
  {
    var front := Raw(os, n - 1);
    if j < |front| {
      k := RawKeys(os, keys, n - 1, j);
    } else {
      k := n - 1;
      assert Raw(os, n)[j] == os[k].matches[j - |front|];
    }
  }

  /** A file swallowed while there is room puts a match into the capped list that the full one leaves out. */
  lemma SwallowBreaks(os: seq<Outcome>, os': seq<Outcome>, keys: seq<string>, cap: int, i: nat, n: nat)
    requires cap > 0 && i < n <= |os| && Keyed(os, keys) && Keyed(os', keys)
    requires forall a, b | 0 <= a < b < |keys| :: keys[a] != keys[b]
    requires Swallows(os[i], os'[i], cap) && |Raw(os, i)| < cap
    ensures !FirstOf(Truncated(Raw(os, n), cap), cap, Raw(os', n))
  {
    var j := |Raw(os, i)|;
    RawGrows(os, i + 1, n);
    assert Raw(os, n)[j] == Raw(os, i + 1)[j] == os[i].matches[0];
    if FirstOf(Truncated(Raw(os, n), cap), cap, Raw(os', n)) {
      assert Clips(Truncated(Raw(os, n), cap)[j], Raw(os', n)[j]);
      var k := RawKeys(os', keys, n, j);
    }
  }

  /** A scan that swallows its file while the scans before it leave room under the cap. */
  predicate SwallowsAt(os: seq<Outcome>, os': seq<Outcome>, cap: int, i: nat)
    requires i < |os| == |os'|
  {
    Swallows(os[i], os'[i], cap) && |Raw(os, i)| < cap
  }

  /** Scan by scan, the capped matches are the first of the full ones, or the file is swallowed. */
  ghost predicate Clipping(os: seq<Outcome>, os': seq<Outcome>, cap: int) {
    |os| == |os'| && forall i | 0 <= i < |os| ::
      Swallows(os[i], os'[i], cap) || FirstOf(Contribution(os[i]), cap, Contribution(os'[i]))
  }

  /** The capped list is the first of the full one exactly when no file is swallowed where there is room. */
  lemma CappedExactly(os: seq<Outcome>, os': seq<Outcome>, keys: seq<string>, cap: int)
    requires cap > 0 && Clipping(os, os', cap) && Keyed(os, keys) && Keyed(os', keys)
    requires forall a, b | 0 <= a < b < |keys| :: keys[a] != keys[b]
    ensures FirstOf(Truncated(Raw(os, |os|), cap), cap, Raw(os', |os'|))
       <==> forall i | 0 <= i < |os| :: !SwallowsAt(os, os', cap, i)
  {
    if i :| 0 <= i < |os| && SwallowsAt(os, os', cap, i) {
      SwallowBreaks(os, os', keys, cap, i, |os|);
    } else {
      forall i | 0 <= i < |os|
        ensures FirstOf(Contribution(os[i]), cap, Contribution(os'[i]))
             || (Swallows(os[i], os'[i], cap) && |Raw(os, i)| >= cap)
      {
        assert !SwallowsAt(os, os', cap, i);
      }
      FirstMatches(os, os', cap, |os|);
    }
  }

  ghost predicate DistinctKeys(files: seq<Entry>) {
    forall i, j | 0 <= i < j < |files| :: files[i].key != files[j].key
  }

  function Keys(files: seq<Entry>): (keys: seq<string>)
    ensures |keys| == |files| && forall i | 0 <= i < |files| :: keys[i] == files[i].key
  {
    seq(|files|, i requires 0 <= i < |files| => files[i].key)
  }

  lemma OutcomesKeyed(files: seq<Entry>, p: string -> bool, opts: Options)
    ensures Keyed(Outcomes(files, ScannerOf(p, opts)), Keys(files))
  {
  }

  /** The scan of file i hides an error, and the files before it leave room under the cap. */
  predicate HiddenAt(files: seq<Entry>, p: string -> bool, opts: Options, i: nat)
    requires i < |files|
  {
    Hidden(files[i], p, opts) && |Raw(Outcomes(files, ScannerOf(p, opts)), i)| < opts.maxMatches
  }

  /** Swallowed files are those whose scan hides an error. */
  lemma ScansClip(files: seq<Entry>, p: string -> bool, opts: Options, opts': Options)
    requires opts.maxMatches > 0 && opts' == opts.(maxMatches := 0)
    ensures var os, os' := Outcomes(files, ScannerOf(p, opts)), Outcomes(files, ScannerOf(p, opts'));
            && Clipping(os, os', opts.maxMatches)
            && forall i | 0 <= i < |files| :: SwallowsAt(os, os', opts.maxMatches, i) <==> HiddenAt(files, p, opts, i)
  {
    forall i | 0 <= i < |files|
      ensures var o, o' := ScannerOf(p, opts)(files[i]), ScannerOf(p, opts')(files[i]);
              && (Hidden(files[i], p, opts) <==> Swallows(o, o', opts.maxMatches))
              && (!Hidden(files[i], p, opts) ==> FirstOf(Contribution(o), opts.maxMatches, Contribution(o')))
    {
      ContributionClips(files[i], p, opts, opts');
    }
  }

  /** Such an error exists: one matching line with its line feed, then a failing read, under a cap of one.
      Without the line feed the scan meets the error first, and no error is hidden. */
  lemma CapHidesReadError()
    ensures var opts, p := Options(0, 0, 1), (line: string) => true;
            && Hidden(Entry("f", "f", false, false, false, 2, Body("x\n", true)), p, opts)
            && ScanOutcome(Body("x", true), "f", p, opts).failed
  {
    OneLine("x");
    OneLine("x\n");
    var p := (line: string) => true;
    assert LinesRead(["x"], p, 1, 0) == 1 && Hits(["x"], p, 1) == [0];
  }

  /** A text of one line is neither over-long nor binary. */
  lemma OneLine(bytes: string)
    requires bytes == "x" || bytes == "x\n"
    ensures Lines(bytes) == ["x"] && !TooLong(bytes) && !LooksBinary(Peek(bytes))
  {
    assert FeedFrom(bytes, 1) == 1 && FeedFrom(bytes, 0) == 1;
    assert bytes[0..1] == "x";
    assert |bytes| == 2 ==> LinesFrom(bytes, 2) == [];
    assert RawLines(bytes) == ["x"] + [];
    assert Peek(bytes) == bytes && bytes[..0] == "" && bytes[..|bytes|] == bytes;
    assert CountNonPrintable("x") == 0 by { assert "x"[..0] == ""; }
    assert CountNonPrintable(bytes) == 0;
  }

  function CountVisited(entries: seq<Entry>): nat {
    if entries == [] then 0 else (if Visited(entries[0]) then 1 else 0) + CountVisited(entries[1..])
  }

  lemma {:induction false} ReachedCount(entries: seq<Entry>, live: nat)
    ensures |Reached(entries, live)| == Min(live, CountVisited(entries))
  {
    if entries != [] {
      ReachedCount(entries[1..], live);
      if live > 0 {
        ReachedCount(entries[1..], live - 1);
      }
    }
  }

  lemma {:induction false} FilesOfCount(reached: seq<Entry>, opts: SearchOpts)
    ensures |FilesOf(reached, opts)| <= |reached|
  {
    if reached != [] {
      FilesOfCount(reached[1..], opts);
    }
  }

  lemma TruncatedPrefix(a: seq<Match>, b: seq<Match>, cap: int)
    requires a <= b && (a == b || HitsCap(cap, Truncated(a, cap)))
    ensures Truncated(a, cap) == Truncated(b, cap) && (cap > 0 ==> |Truncated(a, cap)| <= cap)
  {
  }

  /** Scanning on past the cap would add nothing. */
  lemma ScannedAll(os: seq<Outcome>, cap: int, done: nat, r: SearchResult)
    requires ScannedSoFar(os, cap, done, r) && (done < |os| ==> HitsCap(cap, r.matches))
    ensures r.matches == Truncated(Raw(os, |os|), cap) && (cap > 0 ==> |r.matches| <= cap)
  {
    RawGrows(os, done, |os|);
    TruncatedPrefix(Raw(os, done), Raw(os, |os|), cap);
  }

  /** Search as a whole, when the context outlives it. */
  lemma SearchMeaning(entries: seq<Entry>, scan: Scanner, opts: SearchOpts, live: nat, r: SearchResult, done: nat)
    requires Found(Directory(entries), scan, opts, live, r, done)
    requires live >= 2 * CountVisited(entries)
    ensures var os := Outcomes(FilesUnder(Directory(entries), opts, live), scan);
            r.matches == Truncated(Raw(os, |os|), opts.grep.maxMatches)
    ensures r.count == |r.matches| && (opts.grep.maxMatches > 0 ==> r.count <= opts.grep.maxMatches)
    ensures opts.grep.maxMatches <= 0 ==> r.scanned + r.skipped == CountVisited(entries)
  {
    var files := FilesUnder(Directory(entries), opts, live);
    ReachedCount(entries, live);
    FilesOfCount(Reached(entries, live), opts);
    assert done < |files| ==> HitsCap(opts.grep.maxMatches, r.matches);
    ScannedAll(Outcomes(files, scan), opts.grep.maxMatches, done, r.(skipped := done - r.scanned));
  }

  lemma {:induction false} FilesOfSame(reached: seq<Entry>, opts: SearchOpts, opts': SearchOpts)
    requires opts' == opts.(grep := opts'.grep)
    ensures FilesOf(reached, opts) == FilesOf(reached, opts')
  {
    if reached != [] {
      FilesOfSame(reached[1..], opts, opts');
      assert Selected(reached[0], opts) == Selected(reached[0], opts');
    }
  }

  /** The same on the files collected. */
  lemma CappedFiles(files: seq<Entry>, p: string -> bool, opts: Options, opts': Options, ms: seq<Match>, ms': seq<Match>)
    requires opts.maxMatches > 0 && opts' == opts.(maxMatches := 0) && DistinctKeys(files)
    requires ms == Truncated(Raw(Outcomes(files, ScannerOf(p, opts)), |files|), opts.maxMatches)
    requires ms' == Raw(Outcomes(files, ScannerOf(p, opts')), |files|)
    ensures FirstOf(ms, opts.maxMatches, ms') <==> forall i | 0 <= i < |files| :: !HiddenAt(files, p, opts, i)
  {
    OutcomesKeyed(files, p, opts);
    OutcomesKeyed(files, p, opts');
    ScansClip(files, p, opts, opts');
    CappedExactly(Outcomes(files, ScannerOf(p, opts)), Outcomes(files, ScannerOf(p, opts')), Keys(files), opts.maxMatches);
  }

  /** A capped and an uncapped search of the same tree, without cancellation: the capped one returns the
      first M matches of the other, each After a prefix of the full one, exactly when the cap hides no error. */
  lemma CappedSearchResult(entries: seq<Entry>, p: string -> bool, opts: SearchOpts, opts': SearchOpts,
                           live: nat, r: SearchResult, done: nat, r': SearchResult, done': nat)
    requires opts.grep.maxMatches > 0 && opts' == opts.(grep := opts.grep.(maxMatches := 0))
    requires Found(Directory(entries), ScannerOf(p, opts.grep), opts, live, r, done)
    requires Found(Directory(entries), ScannerOf(p, opts'.grep), opts', live, r', done')
    requires live >= 2 * CountVisited(entries)
    requires DistinctKeys(FilesUnder(Directory(entries), opts, live))
    ensures FirstOf(r.matches, opts.grep.maxMatches, r'.matches) <==>
              forall i | 0 <= i < |FilesUnder(Directory(entries), opts, live)| ::
                !HiddenAt(FilesUnder(Directory(entries), opts, live), p, opts.grep, i)
  {
    var files := FilesUnder(Directory(entries), opts, live);
    var scan, scan' := ScannerOf(p, opts.grep), ScannerOf(p, opts'.grep);
    FilesOfSame(Reached(entries, live), opts, opts');
    SearchMeaning(entries, scan, opts, live, r, done);
    SearchMeaning(entries, scan', opts', live, r', done');
    CappedFiles(files, p, opts.grep, opts'.grep, r.matches, r'.matches);
  }
}
