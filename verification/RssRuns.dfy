/** What the RSS trigger and list-new guarantee over all runs against an append-only log. */
module RssRuns {
  import opened Order
  import opened Rss
  import opened Wrappers

  /** What happened so far, in positions of the log.
      w: how many entries the persisted watermark says have been seen;
      at: the positions emitted, in order; since: how many of them came before the last save;
      first: the end of the window of the first poll that completed;
      missed: positions the watermark passed although no poll could or should emit them: they had left the
      window, or were backlog, in the feed's past when the first poll completed. */
  datatype Record = Record(w: nat, at: seq<nat>, since: nat, first: Option<nat>, missed: set<nat>)

  const BLANK := Record(0, [], 0, None, {})

  function Range(a: nat, b: nat): (r: seq<nat>)
    requires a <= b
    ensures |r| == b - a && forall i | 0 <= i < b - a :: r[i] == a + i
  {
    seq(b - a, i requires 0 <= i < b - a => a + i)
  }

  function Interval(a: nat, b: nat): (r: set<nat>)
    ensures forall p: nat :: p in r <==> a <= p < b
    decreases if a < b then b - a else 0
  {
    if a < b then {a} + Interval(a + 1, b) else {}
  }

  /** The watermark a poll works with: one that fails to load counts as none. */
  function Known(w: nat, loadFails: bool): nat { if loadFails then 0 else w }

  /** The end of the backlog, for a poll that completes with a window up to hi. */
  function BacklogEnd(first: Option<nat>, hi: nat): nat { if first.Some? then first.value else hi }

  /** The first entry a poll should emit: one not seen, in the window and, unless the poll is to include
      it, after the backlog. */
  function Due(r: Record, lo: nat, hi: nat, backlog: bool): (due: nat)
    ensures r.w <= due
  {
    Max(Max(r.w, lo), if backlog then 0 else BacklogEnd(r.first, hi))
  }

  function PollRecorded(r: Record, lo: nat, hi: nat, backlog: bool, loadFails: bool, fate: Fate): Record
    requires lo <= hi && r.w <= hi
  {
    var from := FirstFresh(Known(r.w, loadFails), lo, hi, backlog);
    match fate
    case Completes(saved) =>
      var t := r.(at := r.at + Range(from, hi), first := Some(BacklogEnd(r.first, hi)));
      if saved && lo < hi then
        t.(w := hi, since := |t.at|, missed := r.missed + Interval(r.w, Due(r, lo, hi, backlog)))
      else t
    case DiesAfter(j) =>
      r.(at := r.at + Range(from, if j < hi - from then from + j else hi))
  }

  function Recorded(r: Record, s: State, c: Choice): Record {
    match c
    case Poll(lo, hi, loadFails, fate) =>
      if CanPoll(s, lo, hi) && r.w <= hi then PollRecorded(r, lo, hi, s.backlog, loadFails, fate) else r
    case _ => r
  }

  function RecordOf(script: seq<Choice>, n: nat): Record
    requires n <= |script|
  {
    if n == 0 then BLANK else Recorded(RecordOf(script, n - 1), Steps(FRESH, script, 0, n - 1), script[n - 1])
  }

  /* ---------- Every run, with any emit, save or process failure ---------- */

  /** The emitted ids are the log's entries at the recorded positions. */
  ghost predicate Places(log: seq<string>, emitted: seq<string>, at: seq<nat>) {
    && |at| == |emitted|
    && forall k | 0 <= k < |at| :: at[k] < |log| && emitted[k] == log[at[k]]
  }

  ghost predicate Delivered(at: seq<nat>, p: nat) { exists k :: 0 <= k < |at| && at[k] == p }

  /** All positions lie below top; the missed ones and those before the last save lie below the watermark. */
  ghost predicate Kept(r: Record, top: nat) {
    && r.w <= top && (forall k | 0 <= k < |r.at| :: r.at[k] < top)
    && r.since <= |r.at| && (forall k | 0 <= k < r.since :: r.at[k] < r.w)
    && (forall p | p in r.missed :: p < r.w)
    && (r.first.Some? ==> r.first.value <= top)
    && (r.w > 0 ==> r.first.Some? && r.first.value <= r.w)
  }

  /** The record is that of the state. */
  ghost predicate Inv(s: State, r: Record) {
    && IsLog(s.log) && Kept(r, s.top) && s.top <= |s.log| && s.mark == MarkAt(s.log, r.w)
    && Places(s.log, s.emitted, r.at)
  }

  /** No loss: everything the watermark has passed was emitted or had been missed. */
  ghost predicate Covered(r: Record) {
    forall p: nat | p < r.w :: p in r.missed || Delivered(r.at, p)
  }

  /** A choice that does not make the watermark pass entries that were due and never emitted. Only a poll that
      works without a watermark, and does not include the backlog, can: it takes itself for a first run. It has
      no watermark because the load failed, no save has worked yet, or no window has held an entry. */
  ghost predicate Harmless(s: State, r: Record, c: Choice) {
    c.Poll? && CanPoll(s, c.lo, c.hi) && c.lo < c.hi && c.fate == Completes(true) && !s.backlog
      && Known(r.w, c.loadFails) == 0 ==>
      forall p: nat | Due(r, c.lo, c.hi, false) <= p < c.hi :: Delivered(r.at, p)
  }

  lemma ReverseWindow(log: seq<string>, a: nat, b: nat)
    requires a <= b <= |log|
    ensures Reverse(Window(log, a, b)) == log[a..b]
  {
  }

  /** The difference a poll works with: the unseen part of the window and its end. */
  lemma PollDiffers(s: State, r: Record, lo: nat, hi: nat, loadFails: bool)
    requires Inv(s, r) && CanPoll(s, lo, hi)
    ensures var items, mark := Window(s.log, lo, hi), if loadFails then "" else s.mark;
            var from := FirstFresh(Known(r.w, loadFails), lo, hi, s.backlog);
            && from <= hi && Reverse(Fresh(items, mark, s.backlog)) == s.log[from..hi]
            && NewMark(items, mark, s.backlog) == if lo < hi then MarkAt(s.log, hi) else mark
  {
    var w := Known(r.w, loadFails);
    DiffOnWindow(s.log, w, lo, hi, s.backlog);
    ReverseWindow(s.log, FirstFresh(w, lo, hi, s.backlog), hi);
  }

  /** What one poll of a window does: it emits the unseen part of the window in log order, all or
      a front of it, and a completed and saved poll moves the watermark to the end of the window. */
  lemma PollEmits(s: State, r: Record, lo: nat, hi: nat, loadFails: bool, fate: Fate)
    requires Inv(s, r) && CanPoll(s, lo, hi)
    ensures var from := FirstFresh(Known(r.w, loadFails), lo, hi, s.backlog);
            var t := Polled(s, lo, hi, loadFails, fate);
            && from <= hi
            && t.emitted == s.emitted + Received(s.log[from..hi], fate)
            && t.mark == MarkAt(s.log, if fate == Completes(true) && lo < hi then hi else r.w)
  {
    PollDiffers(s, r, lo, hi, loadFails);
    assert lo < hi ==> MarkAt(s.log, hi) != "";
  }

  lemma PlacesAppend(log: seq<string>, emitted: seq<string>, at: seq<nat>, a: nat, b: nat)
    requires Places(log, emitted, at) && a <= b <= |log|
    ensures Places(log, emitted + log[a..b], at + Range(a, b))
  {
  }

  lemma DeliveredAppend(at: seq<nat>, a: nat, b: nat)
    requires a <= b
    ensures forall p: nat | Delivered(at, p) :: Delivered(at + Range(a, b), p)
    ensures forall p: nat | a <= p < b :: Delivered(at + Range(a, b), p)
  {
    var all := at + Range(a, b);
    forall p: nat | Delivered(at, p)
      ensures Delivered(all, p)
    {
      var k :| 0 <= k < |at| && at[k] == p;
      assert all[k] == p;
    }
    forall p: nat | a <= p < b
      ensures Delivered(all, p)
    {
      assert all[|at| + (p - a)] == p;
    }
  }

  lemma RangeMembers(at: seq<nat>, a: nat, b: nat, p: nat)
    requires a <= b && Delivered(at + Range(a, b), p)
    ensures Delivered(at, p) || a <= p < b
  {
    var all := at + Range(a, b);
    var k :| 0 <= k < |all| && all[k] == p;
    if k < |at| {
      assert at[k] == p;
    }
  }

  /** The positions a poll emits. */
  function Upto(from: nat, hi: nat, fate: Fate): (to: nat)
    requires from <= hi
    ensures from <= to <= hi
  {
    if fate.DiesAfter? && fate.j < hi - from then from + fate.j else hi
  }

  lemma ReceivedSlice(log: seq<string>, from: nat, hi: nat, fate: Fate)
    requires from <= hi <= |log|
    ensures Received(log[from..hi], fate) == log[from..Upto(from, hi, fate)]
  {
  }

  /** The record of a poll stays within the log seen so far. */
  lemma RecordKeeps(r: Record, lo: nat, hi: nat, backlog: bool, loadFails: bool, fate: Fate)
    requires lo <= hi && r.w <= hi && Kept(r, hi)
    ensures Kept(PollRecorded(r, lo, hi, backlog, loadFails, fate), hi)
    ensures r.w <= PollRecorded(r, lo, hi, backlog, loadFails, fate).w
  {
  }

  lemma RecordFields(r: Record, lo: nat, hi: nat, backlog: bool, loadFails: bool, fate: Fate)
    requires lo <= hi && r.w <= hi && FirstFresh(Known(r.w, loadFails), lo, hi, backlog) <= hi
    ensures var q, from := PollRecorded(r, lo, hi, backlog, loadFails, fate), FirstFresh(Known(r.w, loadFails), lo, hi, backlog);
            && q.at == r.at + Range(from, Upto(from, hi, fate))
            && q.w == if fate == Completes(true) && lo < hi then hi else r.w
  {
  }

  /** What a poll emits stands at the positions recorded. */
  lemma PollPlaces(log: seq<string>, emitted: seq<string>, at: seq<nat>, from: nat, hi: nat, fate: Fate)
    requires Places(log, emitted, at) && from <= hi <= |log|
    ensures Places(log, emitted + Received(log[from..hi], fate), at + Range(from, Upto(from, hi, fate)))
  {
    ReceivedSlice(log, from, hi, fate);
    PlacesAppend(log, emitted, at, from, Upto(from, hi, fate));
  }

  lemma PollKeeps(s: State, r: Record, lo: nat, hi: nat, loadFails: bool, fate: Fate)
    requires Inv(s, r) && CanPoll(s, lo, hi)
    ensures Inv(Polled(s, lo, hi, loadFails, fate), PollRecorded(r, lo, hi, s.backlog, loadFails, fate))
    ensures r.w <= PollRecorded(r, lo, hi, s.backlog, loadFails, fate).w
  {
    PollEmits(s, r, lo, hi, loadFails, fate);
    RecordKeeps(r, lo, hi, s.backlog, loadFails, fate);
    RecordFields(r, lo, hi, s.backlog, loadFails, fate);
    PollPlaces(s.log, s.emitted, r.at, FirstFresh(Known(r.w, loadFails), lo, hi, s.backlog), hi, fate);
  }

  lemma StepKeeps(s: State, r: Record, c: Choice)
    requires Inv(s, r)
    ensures Inv(Apply(s, c), Recorded(r, s, c))
    ensures r.w <= Recorded(r, s, c).w
  {
    match c {
      case Poll(lo, hi, loadFails, fate) =>
        if CanPoll(s, lo, hi) {
          PollKeeps(s, r, lo, hi, loadFails, fate);
        }
      case _ =>
    }
  }

  /** A poll keeps the coverage exactly when every entry that is due and that it passes over has been emitted. */
  lemma PollCovers(r: Record, lo: nat, hi: nat, backlog: bool, loadFails: bool, fate: Fate, top: nat)
    requires lo <= hi && top <= hi && Kept(r, top) && Covered(r)
    ensures var from := FirstFresh(Known(r.w, loadFails), lo, hi, backlog);
            Covered(PollRecorded(r, lo, hi, backlog, loadFails, fate)) <==>
              (fate == Completes(true) && lo < hi ==>
                 forall p: nat | Due(r, lo, hi, backlog) <= p < from :: Delivered(r.at, p))
  {
    var from := FirstFresh(Known(r.w, loadFails), lo, hi, backlog);
    var q := PollRecorded(r, lo, hi, backlog, loadFails, fate);
    DeliveredAppend(r.at, from, Upto(from, hi, fate));
    if Covered(q) && fate == Completes(true) && lo < hi {
      forall p: nat | Due(r, lo, hi, backlog) <= p < from
        ensures Delivered(r.at, p)
      {
        assert p < q.w && p !in q.missed;
        RangeMembers(r.at, from, hi, p);
      }
    }
  }

  /** One step loses nothing exactly when it is harmless. */
  lemma StepCovers(s: State, r: Record, c: Choice)
    requires Inv(s, r) && Covered(r)
    ensures Covered(Recorded(r, s, c)) <==> Harmless(s, r, c)
  {
    if c.Poll? && CanPoll(s, c.lo, c.hi) {
      PollCovers(r, c.lo, c.hi, s.backlog, c.loadFails, c.fate, s.top);
    }
  }

  lemma {:induction false} StepsKeep(script: seq<Choice>, n: nat)
    requires n <= |script|
    ensures Inv(Steps(FRESH, script, 0, n), RecordOf(script, n))
  {
    if n > 0 {
      StepsKeep(script, n - 1);
      StepKeeps(Steps(FRESH, script, 0, n - 1), RecordOf(script, n - 1), script[n - 1]);
    }
  }

  ghost predicate HarmlessAt(script: seq<Choice>, k: nat)
    requires k < |script|
  {
    Harmless(Steps(FRESH, script, 0, k), RecordOf(script, k), script[k])
  }

  ghost predicate CoveredAt(script: seq<Choice>, k: nat)
    requires k <= |script|
  {
    Covered(RecordOf(script, k))
  }

  lemma RunStepCovers(script: seq<Choice>, k: nat)
    requires k < |script| && CoveredAt(script, k)
    ensures CoveredAt(script, k + 1) <==> HarmlessAt(script, k)
  {
    StepsKeep(script, k);
    StepCovers(Steps(FRESH, script, 0, k), RecordOf(script, k), script[k]);
  }

  /** In every run, with any failing loads, emits and saves and any deaths: nothing is ever lost exactly
      when every step is harmless. */
  lemma {:induction false} NoLossExactly(script: seq<Choice>, n: nat)
    requires n <= |script|
    ensures (forall k | 0 <= k <= n :: CoveredAt(script, k)) <==> (forall k | 0 <= k < n :: HarmlessAt(script, k))
  {
    if n == 0 {
      assert RecordOf(script, 0) == BLANK;
    } else {
      var m := n - 1;
      NoLossExactly(script, m);
      if CoveredAt(script, m) {
        RunStepCovers(script, m);
      }
    }
  }

  /* ---------- What was missed ---------- */

  /** At poll k the watermark passed p, which had left the window or was backlog. */
  ghost predicate MissedAt(script: seq<Choice>, k: nat, p: nat)
    requires k < |script|
  {
    var s, r, c := Steps(FRESH, script, 0, k), RecordOf(script, k), script[k];
    && c.Poll? && CanPoll(s, c.lo, c.hi) && c.fate == Completes(true)
    && r.w <= p < c.hi && (p < c.lo || (r.w == 0 && !s.backlog && p < BacklogEnd(r.first, c.hi)))
  }

  lemma {:induction false} MissedMeans(script: seq<Choice>, n: nat, p: nat)
    requires n <= |script| && p in RecordOf(script, n).missed
    ensures exists k :: 0 <= k < n && MissedAt(script, k, p)
  {
    var m := n - 1;
    StepsKeep(script, m);
    if p in RecordOf(script, m).missed {
      MissedMeans(script, m, p);
    } else {
      assert MissedAt(script, m, p);
    }
  }

  /** Choice k is the first poll to complete, and its window ends at f, a position the log has reached. */
  ghost predicate FirstCompletes(script: seq<Choice>, k: nat, f: nat)
    requires k < |script|
  {
    var s, c := Steps(FRESH, script, 0, k), script[k];
    && c.Poll? && CanPoll(s, c.lo, c.hi) && c.fate.Completes? && c.hi == f <= |s.log|
    && RecordOf(script, k).first == None
  }

  lemma {:induction false} FirstMeans(script: seq<Choice>, n: nat)
    requires n <= |script| && RecordOf(script, n).first.Some?
    ensures exists k :: 0 <= k < n && FirstCompletes(script, k, RecordOf(script, n).first.value)
  {
    var m := n - 1;
    if RecordOf(script, m).first.Some? {
      FirstMeans(script, m);
      var k :| 0 <= k < m && FirstCompletes(script, k, RecordOf(script, m).first.value);
      assert RecordOf(script, n).first == RecordOf(script, m).first;
    } else {
      assert FirstCompletes(script, m, RecordOf(script, n).first.value);
    }
  }

  /** At least once: every entry the watermark has passed was emitted, or had left the window or was backlog
      when the watermark passed it. */
  lemma AtLeastOnce(script: seq<Choice>, p: nat)
    requires forall k | 0 <= k < |script| :: HarmlessAt(script, k)
    requires p < RecordOf(script, |script|).w
    ensures p < |Steps(FRESH, script, 0, |script|).log|
    ensures (exists k :: 0 <= k < |script| && MissedAt(script, k, p))
         || Steps(FRESH, script, 0, |script|).log[p] in Steps(FRESH, script, 0, |script|).emitted
  {
    NoLossExactly(script, |script|);
    StepsKeep(script, |script|);
    var s, r := Steps(FRESH, script, 0, |script|), RecordOf(script, |script|);
    assert CoveredAt(script, |script|);
    if Delivered(r.at, p) {
      var k :| 0 <= k < |r.at| && r.at[k] == p;
      assert s.emitted[k] == s.log[p];
    } else {
      MissedMeans(script, |script|, p);
    }
  }

  /** The watermark never moves back. */
  lemma WatermarkMonotone(script: seq<Choice>, n: nat)
    requires n < |script|
    ensures RecordOf(script, n).w <= RecordOf(script, n + 1).w
    ensures RecordOf(script, n + 1).w <= |Steps(FRESH, script, 0, n + 1).log|
    ensures Steps(FRESH, script, 0, n + 1).mark == MarkAt(Steps(FRESH, script, 0, n + 1).log, RecordOf(script, n + 1).w)
  {
    StepsKeep(script, n);
    StepsKeep(script, n + 1);
    StepKeeps(Steps(FRESH, script, 0, n), RecordOf(script, n), script[n]);
  }

  /** Only what was emitted after the last save can come again while loads work: any poll emits positions
      from the watermark on, and everything emitted before the last save lies below it. */
  lemma SavedNeverRepeats(script: seq<Choice>, lo: nat, hi: nat, fate: Fate)
    requires CanPoll(Steps(FRESH, script, 0, |script|), lo, hi)
    ensures var s, r := Steps(FRESH, script, 0, |script|), RecordOf(script, |script|);
            var from := FirstFresh(r.w, lo, hi, s.backlog);
            && r.since <= |r.at|
            && (forall k | 0 <= k < r.since :: r.at[k] < r.w <= from)
            && from <= hi && Polled(s, lo, hi, false, fate).emitted == s.emitted + Received(s.log[from..hi], fate)
  {
    StepsKeep(script, |script|);
    PollEmits(Steps(FRESH, script, 0, |script|), RecordOf(script, |script|), lo, hi, false, fate);
  }

  /* ---------- Runs without failures ---------- */

  predicate Smooth(c: Choice) { c.Poll? ==> !c.loadFails && c.fate == Completes(true) }

  /** Emitted in log order, nothing twice, nothing missed that was emitted. */
  ghost predicate Once(r: Record) {
    && (forall i, j | 0 <= i < j < |r.at| :: r.at[i] < r.at[j])
    && (forall k | 0 <= k < |r.at| :: r.at[k] < r.w && r.at[k] !in r.missed)
  }

  lemma SmoothRecord(r: Record, lo: nat, hi: nat, backlog: bool, top: nat)
    requires lo <= hi && top <= hi && Kept(r, top) && Once(r)
    ensures Once(PollRecorded(r, lo, hi, backlog, false, Completes(true)))
  {
  }

  lemma SmoothStep(s: State, r: Record, c: Choice)
    requires Inv(s, r) && Once(r) && Smooth(c)
    ensures Once(Recorded(r, s, c))
  {
    if c.Poll? && CanPoll(s, c.lo, c.hi) {
      SmoothRecord(r, c.lo, c.hi, s.backlog, s.top);
    }
  }

  lemma {:induction false} SmoothSteps(script: seq<Choice>, n: nat)
    requires n <= |script| && forall k | 0 <= k < n :: Smooth(script[k])
    ensures Inv(Steps(FRESH, script, 0, n), RecordOf(script, n)) && Once(RecordOf(script, n))
  {
    StepsKeep(script, n);
    if n > 0 {
      SmoothSteps(script, n - 1);
      SmoothStep(Steps(FRESH, script, 0, n - 1), RecordOf(script, n - 1), script[n - 1]);
    }
  }

  /** While nothing fails, what was lost stays lost. */
  lemma LossStays(s: State, r: Record, c: Choice)
    requires Inv(s, r) && Smooth(c) && Covered(Recorded(r, s, c))
    ensures Covered(r)
  {
    if c.Poll? && CanPoll(s, c.lo, c.hi) {
      var from := FirstFresh(r.w, c.lo, c.hi, s.backlog);
      forall p: nat | p < r.w
        ensures p in r.missed || Delivered(r.at, p)
      {
        if p !in r.missed {
          RangeMembers(r.at, from, c.hi, p);
        }
      }
    }
  }

  lemma RunLossStays(script: seq<Choice>, m: nat, n: nat)
    requires n == m + 1 <= |script| && Smooth(script[m]) && CoveredAt(script, n)
    ensures CoveredAt(script, m)
  {
    StepsKeep(script, m);
    LossStays(Steps(FRESH, script, 0, m), RecordOf(script, m), script[m]);
  }

  /** Without failures nothing has been lost exactly when every step was harmless. */
  lemma {:induction false} SmoothNoLoss(script: seq<Choice>, n: nat)
    requires n <= |script| && forall k | 0 <= k < n :: Smooth(script[k])
    ensures CoveredAt(script, n) <==> forall k | 0 <= k < n :: HarmlessAt(script, k)
  {
    if n == 0 {
      assert RecordOf(script, 0) == BLANK;
    } else {
      var m := n - 1;
      SmoothNoLoss(script, m);
      if CoveredAt(script, n) {
        RunLossStays(script, m, n);
      }
      if CoveredAt(script, m) {
        RunStepCovers(script, m);
      }
    }
  }

  /** While nothing fails, a poll does harm exactly when it is the first to find items and does not include the
      backlog, an earlier poll completed with an empty window, and one of the items came after that poll. */
  lemma SmoothHarm(s: State, r: Record, c: Choice)
    requires Inv(s, r) && Once(r) && Smooth(c)
    ensures !Harmless(s, r, c) <==>
              c.Poll? && CanPoll(s, c.lo, c.hi) && r.w == 0 && !s.backlog && r.first.Some?
              && Max(c.lo, r.first.value) < c.hi
  {
    if c.Poll? && CanPoll(s, c.lo, c.hi) && r.w == 0 && !s.backlog && r.first.Some? && Max(c.lo, r.first.value) < c.hi {
      var p: nat := Max(c.lo, r.first.value);
      assert Due(r, c.lo, c.hi, false) <= p < c.hi && !Delivered(r.at, p);
    }
  }

  /** While loads, emits and saves work, items are emitted in log order and none twice, whatever deaths there
      are between polls; and exactly when every step is harmless in the sense above, each entry below the
      watermark was either emitted or missed. */
  lemma SmoothRunsEmitOnce(script: seq<Choice>)
    requires forall k | 0 <= k < |script| :: Smooth(script[k])
    ensures var s, r := Steps(FRESH, script, 0, |script|), RecordOf(script, |script|);
            && Once(r) && Places(s.log, s.emitted, r.at)
            && (forall i, j | 0 <= i < j < |s.emitted| :: s.emitted[i] != s.emitted[j])
            && ((forall p: nat | p < r.w :: p in r.missed <==> !Delivered(r.at, p)) <==>
                forall k | 0 <= k < |script| :: HarmlessAt(script, k))
  {
    SmoothSteps(script, |script|);
    SmoothNoLoss(script, |script|);
    var s, r := Steps(FRESH, script, 0, |script|), RecordOf(script, |script|);
    forall i, j | 0 <= i < j < |s.emitted|
      ensures s.emitted[i] != s.emitted[j]
    {
      assert r.at[i] < r.at[j];
    }
    assert Covered(r) <==> CoveredAt(script, |script|);
  }

  /** A watermark that fails to load is taken for a first run: a poll then moves it to the end of the
      window and emits nothing. */
  lemma FailedLoadEmitsNothing(s: State, r: Record, lo: nat, hi: nat)
    requires Inv(s, r) && CanPoll(s, lo, hi) && lo < hi && !s.backlog
    ensures var t := Polled(s, lo, hi, true, Completes(true));
            t.emitted == s.emitted && t.mark == MarkAt(s.log, hi)
  {
    DiffOnWindow(s.log, 0, lo, hi, false);
    assert Fresh(Window(s.log, lo, hi), "", false) == [];
    assert Received(Reverse([]), Completes(true)) == [];
  }

  /** Item a is backlog, item b is published after it, and the poll that would emit b fails to load the
      watermark. */
  function LossyRun(a: string, b: string): seq<Choice> {
    [Publish(a), Start(false), Poll(0, 1, false, Completes(true)), Publish(b), Poll(0, 2, true, Completes(true))]
  }

  /** One more choice of a run. */
  lemma RunOn(script: seq<Choice>, n: nat, s: State, r: Record)
    requires n < |script| && s == Steps(FRESH, script, 0, n) && r == RecordOf(script, n)
    ensures Steps(FRESH, script, 0, n + 1) == Apply(s, script[n])
    ensures RecordOf(script, n + 1) == Recorded(r, s, script[n])
  {
  }

  lemma PolledRest(s: State, lo: nat, hi: nat, loadFails: bool, saved: bool)
    requires CanPoll(s, lo, hi) && !s.backlog
    ensures var t := Polled(s, lo, hi, loadFails, Completes(saved));
            t == s.(top := hi, emitted := t.emitted, mark := t.mark)
  {
  }

  lemma FirstRecord(saved: bool)
    ensures var r := PollRecorded(BLANK, 0, 1, false, false, Completes(saved));
            r.w == (if saved then 1 else 0) && r.at == [] && 1 !in r.missed && r.first == Some(1)
  {
    assert Range(1, 1) == [];
  }

  /** The first poll takes item a for seen. */
  lemma FirstPollSkips(a: string, s: State, saved: bool)
    requires a != "" && s == State([a], 0, "", [], true, false)
    ensures Apply(s, Poll(0, 1, false, Completes(saved))) == s.(top := 1, mark := if saved then a else "")
    ensures var r := Recorded(BLANK, s, Poll(0, 1, false, Completes(saved)));
            r.w == (if saved then 1 else 0) && r.at == [] && 1 !in r.missed && r.first == Some(1)
  {
    StartsBlank(a, s);
    PollEmits(s, BLANK, 0, 1, false, Completes(saved));
    FirstEmitsNothing(s, saved);
    PolledRest(s, 0, 1, false, saved);
    FirstRecord(saved);
  }

  lemma StartsBlank(a: string, s: State)
    requires a != "" && s == State([a], 0, "", [], true, false)
    ensures Inv(s, BLANK) && CanPoll(s, 0, 1)
  {
  }

  lemma FirstEmitsNothing(s: State, saved: bool)
    requires |s.log| == 1 && s.emitted == []
    ensures s.emitted + Received(s.log[1..1], Completes(saved)) == []
  {
  }

  /** Item a is backlog, the first poll completes with its save working or not, and item b is published. */
  lemma FirstPollThenPublish(a: string, b: string, script: seq<Choice>, saved: bool, s: State, r: Record)
    requires a != "" && b != "" && a != b && |script| == 5
    requires script[..4] == [Publish(a), Start(false), Poll(0, 1, false, Completes(saved)), Publish(b)]
    requires s == Steps(FRESH, script, 0, 4) && r == RecordOf(script, 4)
    ensures s == State([a, b], 1, if saved then a else "", [], true, false)
    ensures r.w == (if saved then 1 else 0) && r.at == [] && 1 !in r.missed && r.first == Some(1)
  {
    var s1 := State([a], 0, "", [], false, false);
    assert forall k | 0 <= k < 4 :: script[k] == script[..4][k];
    RunOn(script, 0, FRESH, BLANK);
    assert [] + [a] == [a];
    RunOn(script, 1, s1, BLANK);
    RunOn(script, 2, s1.(alive := true), BLANK);
    FirstPollSkips(a, s1.(alive := true), saved);
    RunOn(script, 3, Steps(FRESH, script, 0, 3), RecordOf(script, 3));
    assert [a] + [b] == [a, b];
  }

  /** The record of a poll that works without a watermark and stores: it passes everything, and its last entry
      was due. */
  lemma PassesRecord(r: Record, hi: nat, loadFails: bool)
    requires Known(r.w, loadFails) == 0 && r.w < hi && r.first.Some? && r.first.value < hi
    requires forall p | p in r.missed :: p < r.w
    ensures Due(r, 0, hi, false) < hi
    ensures var q := PollRecorded(r, 0, hi, false, loadFails, Completes(true));
            q.w == hi && hi - 1 !in q.missed
  {
  }

  /** Such a poll emits nothing and moves the watermark to its window's end. */
  lemma PassesState(s: State, r: Record, loadFails: bool, hi: nat)
    requires Inv(s, r) && 0 < hi == |s.log| && CanPoll(s, 0, hi) && !s.backlog && Known(r.w, loadFails) == 0
    ensures Polled(s, 0, hi, loadFails, Completes(true)) == s.(top := hi, mark := s.log[hi - 1])
  {
    PollEmits(s, r, 0, hi, loadFails, Completes(true));
    PolledRest(s, 0, hi, loadFails, true);
    assert Received(s.log[hi..hi], Completes(true)) == [];
  }

  lemma PassHarms(s: State, r: Record, loadFails: bool, hi: nat)
    requires CanPoll(s, 0, hi) && 0 < hi && !s.backlog && r.at == []
    requires Known(r.w, loadFails) == 0 && Due(r, 0, hi, false) < hi
    ensures !Harmless(s, r, Poll(0, hi, loadFails, Completes(true)))
  {
    assert !Delivered(r.at, Due(r, 0, hi, false));
  }

  lemma NothingPlaced(s: State, r: Record)
    requires Inv(s, r) && s.emitted == []
    ensures r.at == []
  {
  }

  /** The last step of a run whose poll works without a watermark: it passes over the last entry of the log,
      which nothing had emitted. */
  lemma RunPassesOver(script: seq<Choice>, n: nat, s: State, r: Record, loadFails: bool, hi: nat)
    requires n < |script| && s == Steps(FRESH, script, 0, n) && r == RecordOf(script, n)
    requires hi == |s.log| && CanPoll(s, 0, hi) && !s.backlog && s.emitted == []
    requires script[n] == Poll(0, hi, loadFails, Completes(true)) && Known(r.w, loadFails) == 0
    requires r.w < hi && r.first.Some? && r.first.value < hi
    ensures !HarmlessAt(script, n)
    ensures Steps(FRESH, script, 0, n + 1) == s.(top := hi, mark := s.log[hi - 1])
    ensures RecordOf(script, n + 1).w == hi && hi - 1 !in RecordOf(script, n + 1).missed
  {
    StepsKeep(script, n);
    NothingPlaced(s, r);
    PassesRecord(r, hi, loadFails);
    PassesState(s, r, loadFails, hi);
    PassHarms(s, r, loadFails, hi);
    RunOn(script, n, s, r);
  }

  /** In this run the watermark ends past item b, which was neither emitted nor missed. */
  lemma LoadErrorLosesItem(a: string, b: string)
    requires a != "" && b != "" && a != b
    ensures !HarmlessAt(LossyRun(a, b), 4)
    ensures var s, r := Steps(FRESH, LossyRun(a, b), 0, 5), RecordOf(LossyRun(a, b), 5);
            r.w == 2 && 1 !in r.missed && s.log == [a, b] && s.mark == b && s.emitted == []
  {
    var script := LossyRun(a, b);
    var s, r := Steps(FRESH, script, 0, 4), RecordOf(script, 4);
    FirstPollThenPublish(a, b, script, true, s, r);
    RunPassesOver(script, 4, s, r, true, 2);
  }

  /** The first poll's save fails, so the next poll takes itself for a first run too. */
  function FailedSaveRun(a: string, b: string): seq<Choice> {
    [Publish(a), Start(false), Poll(0, 1, false, Completes(false)), Publish(b), Poll(0, 2, false, Completes(true))]
  }

  /** No load fails in this run, and item b, published after a completed poll, is lost all the same. */
  lemma FailedSaveLosesItem(a: string, b: string)
    requires a != "" && b != "" && a != b
    ensures !HarmlessAt(FailedSaveRun(a, b), 4)
    ensures var s, r := Steps(FRESH, FailedSaveRun(a, b), 0, 5), RecordOf(FailedSaveRun(a, b), 5);
            r.w == 2 && 1 !in r.missed && s.log == [a, b] && s.mark == b && s.emitted == []
  {
    var script := FailedSaveRun(a, b);
    var s, r := Steps(FRESH, script, 0, 4), RecordOf(script, 4);
    FirstPollThenPublish(a, b, script, false, s, r);
    RunPassesOver(script, 4, s, r, false, 2);
  }

  /** The first poll finds an empty feed, so the next one takes itself for a first run too. */
  function EmptyFeedRun(a: string): seq<Choice> {
    [Start(false), Poll(0, 0, false, Completes(true)), Publish(a), Poll(0, 1, false, Completes(true))]
  }

  lemma EmptyFeedReaches(a: string, s: State, r: Record)
    requires a != "" && s == Steps(FRESH, EmptyFeedRun(a), 0, 3) && r == RecordOf(EmptyFeedRun(a), 3)
    ensures s == State([a], 0, "", [], true, false) && r.w == 0 && r.first == Some(0)
  {
    var script, s1 := EmptyFeedRun(a), State([], 0, "", [], true, false);
    RunOn(script, 0, FRESH, BLANK);
    RunOn(script, 1, s1, BLANK);
    StepsKeep(script, 1);
    PollEmits(s1, BLANK, 0, 0, false, Completes(true));
    assert s1.log[0..0] == [] && [] + [a] == [a];
    RunOn(script, 2, s1, RecordOf(script, 2));
  }

  lemma EmptyFeedIsSmooth(a: string, k: nat)
    requires k < 4
    ensures Smooth(EmptyFeedRun(a)[k])
  {
  }

  /** Nothing fails in this run, and item a, published after a completed poll, is lost all the same. */
  lemma EmptyFeedLosesItem(a: string)
    requires a != ""
    ensures forall k | 0 <= k < 4 :: Smooth(EmptyFeedRun(a)[k])
    ensures !HarmlessAt(EmptyFeedRun(a), 3)
    ensures var s, r := Steps(FRESH, EmptyFeedRun(a), 0, 4), RecordOf(EmptyFeedRun(a), 4);
            r.w == 1 && 0 !in r.missed && s.log == [a] && s.mark == a && s.emitted == []
  {
    forall k | 0 <= k < 4
      ensures Smooth(EmptyFeedRun(a)[k])
    {
      EmptyFeedIsSmooth(a, k);
    }
    EmptyFeedEnds(a, EmptyFeedRun(a));
  }

  lemma EmptyFeedEnds(a: string, script: seq<Choice>)
    requires a != "" && script == EmptyFeedRun(a)
    ensures !HarmlessAt(script, 3)
    ensures var s, r := Steps(FRESH, script, 0, 4), RecordOf(script, 4);
            r.w == 1 && 0 !in r.missed && s.log == [a] && s.mark == a && s.emitted == []
  {
    var s, r := Steps(FRESH, script, 0, 3), RecordOf(script, 3);
    EmptyFeedReaches(a, s, r);
    RunPassesOver(script, 3, s, r, false, 1);
  }
}
