/** How often the offset protocol of Telegram can deliver an update again. */
module TelegramRepeats {
  import opened Order
  import opened Wrappers
  import opened Telegram
  import opened TelegramRuns
  import Sets

  /** What happened so far, kept beside the state.
      fetched: how many ids at the front of the queue some poll has returned;
      started: how much was emitted before this incarnation;
      risk: the fetched ids the server still held when the last incarnation ended;
      again: ids this incarnation emitted although they had been emitted before;
      earlier: such repeats in earlier incarnations; deaths: how many of those there were. */
  datatype Record = Record(fetched: nat, started: nat, risk: seq<int>, again: set<int>, earlier: nat, deaths: nat)

  const BLANK := Record(0, 0, [], {}, 0, 0)

  function Ended(r: Record, w: World): Record {
    Record(r.fetched, |w.emitted|, w.pending[..Min(r.fetched, |w.pending|)], {}, r.earlier + |r.again|, r.deaths + 1)
  }

  function Noted(r: Record, w: World, id: int): Record {
    if id in w.emitted then r.(again := r.again + {id}) else r
  }

  /** After a poll that left `after` of `before` at the server and returned `returned` ids. */
  function Refetched(r: Record, before: seq<int>, after: seq<int>, returned: nat): Record {
    var left := r.fetched - (|before| - |after|);
    r.(fetched := if left > returned then left else returned)
  }

  function Recorded(r: Record, s: State, c: Choice): Record {
    match c
    case Start(_) => if s.phase.Dead? then r.(started := |s.w.emitted|) else r
    case Crash => if s.phase.Dead? then r else Ended(r, s.w)
    case PollLost =>
      if s.phase.Polling? then Refetched(r, s.w.pending, Confirmed(s.w.pending, s.offset), 0) else r
    case PollOk(n) =>
      if s.phase.Polling? then
        var pending := Confirmed(s.w.pending, s.offset);
        Refetched(r, s.w.pending, pending, |Batch(pending, n)|)
      else r
    case EmitOk => if CanEmit(s) then Noted(r, s.w, NextId(s)) else r
    case EmitFail(delivered) =>
      if !CanEmit(s) then r
      else if delivered then Ended(Noted(r, s.w, NextId(s)), Emitted(s.w, NextId(s)))
      else Ended(r, s.w)
    case _ => r
  }

  function RecordOf(script: seq<Choice>, n: nat): Record
    requires n <= |script|
  {
    if n == 0 then BLANK else Recorded(RecordOf(script, n - 1), Steps(FRESH, script, 0, n - 1), script[n - 1])
  }

  ghost function Ids(ids: seq<int>): set<int> { set id | id in ids }

  lemma {:induction false} IdsAtMost(ids: seq<int>)
    ensures |Ids(ids)| <= |ids|
  {
    if ids != [] {
      var rest := ids[..|ids| - 1];
      IdsAtMost(rest);
      assert Ids(ids) == Ids(rest) + {ids[|ids| - 1]};
    }
  }

  /* ---------- The invariant ---------- */

  /** Only fetched ids at the front of the queue can have been emitted. */
  ghost predicate FrontOnly(w: World, fetched: nat) {
    && fetched <= |w.pending| && fetched <= LIMIT
    && forall j | fetched <= j < |w.pending| :: w.pending[j] !in w.emitted
  }

  /** This incarnation emitted ids in increasing order, all below its offset; a dead one's are all past. */
  ghost predicate OwnOrder(s: State, started: nat) {
    && started <= |s.w.emitted|
    && (forall i, j | started <= i < j < |s.w.emitted| :: s.w.emitted[i] < s.w.emitted[j])
    && (if s.phase.Dead? then started == |s.w.emitted|
        else forall i | started <= i < |s.w.emitted| :: s.w.emitted[i] < s.offset)
  }

  /** Ids the server still holds that came before this incarnation are at risk. */
  ghost predicate RiskCovers(w: World, started: nat, risk: seq<int>) {
    && |risk| <= LIMIT && started <= |w.emitted|
    && forall j | 0 <= j < |w.pending| :: w.pending[j] in w.emitted[..started] ==> w.pending[j] in risk
  }

  /** Repeats are at risk, counted once each, and below the offset. */
  ghost predicate Counted(s: State, r: Record) {
    && (forall id | id in r.again :: id in r.risk && id < s.offset)
    && (s.phase.Dead? ==> r.again == {})
    && |s.w.emitted| == |Ids(s.w.emitted)| + r.earlier + |r.again|
    && r.earlier <= (if r.deaths == 0 then 0 else LIMIT * (r.deaths - 1))
    && (r.deaths == 0 ==> r.risk == [])
  }

  /** The newest id ever queued. */
  function Newest(history: seq<int>): int { if history == [] then 0 else history[|history| - 1] }

  /** Nothing emitted is newer than what was queued. */
  ghost predicate EmittedBounded(emitted: seq<int>, newest: int) {
    forall k | 0 <= k < |emitted| :: emitted[k] <= newest
  }

  ghost predicate Kept(s: State, r: Record) {
    && EmittedBounded(s.w.emitted, Newest(s.w.history)) && FrontOnly(s.w, r.fetched)
    && (s.phase.Emitting? ==> |s.phase.batch| <= r.fetched)
    && OwnOrder(s, r.started) && RiskCovers(s.w, r.started, r.risk) && Counted(s, r)
  }

  ghost predicate RInv(s: State, r: Record) { Inv(s) && Kept(s, r) }

  lemma AgainAtMostLimit(s: State, r: Record)
    requires RiskCovers(s.w, r.started, r.risk) && Counted(s, r)
    ensures |r.again| <= |r.risk| <= LIMIT
  {
    IdsAtMost(r.risk);
    forall id | id in r.again
      ensures id in Ids(r.risk)
    {
    }
    Sets.SubsetSize(r.again, Ids(r.risk));
  }

  lemma ArriveRecorded(s: State, r: Record, id: int)
    requires RInv(s, r)
    ensures Kept(Apply(s, Arrive(id)), r)
  {
    var v := Queued(s.w, id);
    if v != s.w {
      assert id !in s.w.emitted;
      assert v.pending[|s.w.pending|] == id;
    }
  }

  /** A poll leaves a suffix of the queue, whose fetched front grows by what it returned. */
  lemma PollFront(w: World, r: Record, pending: seq<int>, returned: nat)
    requires FrontOnly(w, r.fetched) && RiskCovers(w, r.started, r.risk)
    requires |pending| <= |w.pending| && pending == w.pending[|w.pending| - |pending|..]
    requires returned <= LIMIT && returned <= |pending|
    ensures var v, n := w.(pending := pending), Refetched(r, w.pending, pending, returned);
            FrontOnly(v, n.fetched) && RiskCovers(v, n.started, n.risk) && returned <= n.fetched
  {
    var k := |w.pending| - |pending|;
    forall j | 0 <= j < |pending|
      ensures pending[j] == w.pending[k + j]
    {
    }
  }

  /** A poll changes neither what was emitted nor the offset. */
  lemma OwnOrderKept(s: State, s': State, started: nat)
    requires OwnOrder(s, started) && !s.phase.Dead? && !s'.phase.Dead?
    requires s'.offset == s.offset && s'.w.emitted == s.w.emitted
    ensures OwnOrder(s', started)
  {
    var e := s.w.emitted;
    assert forall i | started <= i < |e| :: e[i] < s.offset;
  }

  lemma CountedKept(s: State, r: Record, s': State, fetched: nat)
    requires Counted(s, r) && !s'.phase.Dead? && s'.offset == s.offset && s'.w.emitted == s.w.emitted
    ensures Counted(s', r.(fetched := fetched))
  {
    var r' := r.(fetched := fetched);
    assert r'.again == r.again && r'.risk == r.risk && r'.earlier == r.earlier && r'.deaths == r.deaths;
  }

  /** Any poll that reached the server: it confirmed ids and returned some of the rest. */
  lemma PolledKept(s: State, r: Record, pending: seq<int>, returned: nat, s': State, r': Record)
    requires Kept(s, r) && Increasing(s.w.pending) && s.phase.Polling?
    requires pending == Confirmed(s.w.pending, s.offset) && returned <= LIMIT && returned <= |pending|
    requires s'.w == s.w.(pending := pending) && s'.offset == s.offset && !s'.phase.Dead?
    requires s'.phase.Emitting? ==> |s'.phase.batch| == returned
    requires r' == Refetched(r, s.w.pending, pending, returned)
    ensures Kept(s', r')
  {
    ConfirmDrops(s.w.pending, s.offset);
    PollFront(s.w, r, pending, returned);
    OwnOrderKept(s, s', r.started);
    CountedKept(s, r, s', r'.fetched);
  }

  lemma BatchSize(pending: seq<int>, n: nat)
    ensures |Batch(pending, n)| <= LIMIT && |Batch(pending, n)| <= |pending|
  {
  }

  lemma PollRecorded(s: State, r: Record, n: nat)
    requires RInv(s, r)
    ensures Kept(Apply(s, PollOk(n)), Recorded(r, s, PollOk(n)))
  {
    if s.phase.Polling? {
      var pending := Confirmed(s.w.pending, s.offset);
      var batch, t := Batch(pending, n), Apply(s, PollOk(n));
      BatchSize(pending, n);
      PendingPositive(s.w);
      assert t == State(s.w.(pending := pending), if batch == [] then Polling else Emitting(batch, 0), s.offset);
      PolledKept(s, r, pending, |batch|, t, Refetched(r, s.w.pending, pending, |batch|));
    }
  }

  lemma PollLostRecorded(s: State, r: Record)
    requires RInv(s, r)
    ensures Kept(Apply(s, PollLost), Recorded(r, s, PollLost))
  {
    if s.phase.Polling? {
      var pending := Confirmed(s.w.pending, s.offset);
      PendingPositive(s.w);
      PolledKept(s, r, pending, 0, Apply(s, PollLost), Refetched(r, s.w.pending, pending, 0));
    }
  }

  /** The next id of a batch is new to this incarnation; if it is a repeat it was at risk. */
  lemma NextIsNew(s: State, r: Record)
    requires RInv(s, r) && CanEmit(s)
    ensures s.offset <= NextId(s) && NextId(s) !in r.again
    ensures NextId(s) in s.w.emitted ==> NextId(s) in r.risk
  {
    var id, e := NextId(s), s.w.emitted;
    assert id == s.w.pending[s.phase.next];
    if id in e {
      var k :| 0 <= k < |e| && e[k] == id;
      assert k < r.started;
      assert e[..r.started][k] == id;
    }
  }

  /** The parts of the invariant about the world and the order, after an emit. */
  lemma EmitOrders(s: State, r: Record)
    requires RInv(s, r) && CanEmit(s)
    ensures var v := Emitted(s.w, NextId(s));
            && EmittedBounded(v.emitted, Newest(v.history)) && FrontOnly(v, r.fetched) && RiskCovers(v, r.started, r.risk)
            && OwnOrder(State(v, Saving, NextId(s) + 1), r.started)
  {
    var w, next, id := s.w, s.phase.next, NextId(s);
    var v := Emitted(w, id);
    NextIsNew(s, r);
    PendingPositive(w);
    assert id == w.pending[next] == w.history[Dropped(w) + next];
    if Dropped(w) + next < |w.history| - 1 {
      assert w.history[Dropped(w) + next] < w.history[|w.history| - 1];
    }
    assert v.emitted[..r.started] == w.emitted[..r.started];
    forall j | r.fetched <= j < |w.pending|
      ensures w.pending[j] !in v.emitted
    {
      assert w.pending[next] < w.pending[j];
    }
  }

  lemma EmitCounts(w: World, r: Record, id: int)
    requires id !in r.again
    requires |w.emitted| == |Ids(w.emitted)| + r.earlier + |r.again|
    ensures var n, v := Noted(r, w, id), Emitted(w, id);
            |v.emitted| == |Ids(v.emitted)| + n.earlier + |n.again|
  {
    var v := Emitted(w, id);
    assert Ids(v.emitted) == Ids(w.emitted) + {id};
    if id in w.emitted {
      assert Ids(v.emitted) == Ids(w.emitted);
    }
  }

  lemma EmitOkRecorded(s: State, r: Record)
    requires RInv(s, r)
    ensures Kept(Apply(s, EmitOk), Recorded(r, s, EmitOk))
  {
    if CanEmit(s) {
      NextIsNew(s, r);
      EmitOrders(s, r);
      EmitCounts(s.w, r, NextId(s));
    }
  }

  /** Death keeps the invariant: what can come again is the fetched front of the queue. */
  lemma EndRecorded(s: State, r: Record)
    requires EmittedBounded(s.w.emitted, Newest(s.w.history)) && FrontOnly(s.w, r.fetched)
    requires RiskCovers(s.w, r.started, r.risk) && Counted(s, r)
    ensures Kept(Died(s), Ended(r, s.w))
  {
    var w, e := s.w, Ended(r, s.w);
    AgainAtMostLimit(s, r);
    assert w.emitted[..e.started] == w.emitted;
    forall j | 0 <= j < |w.pending| && w.pending[j] in w.emitted
      ensures w.pending[j] in e.risk
    {
      assert j < r.fetched;
      assert e.risk[j] == w.pending[j];
    }
  }

  lemma EmitFailRecorded(s: State, r: Record, delivered: bool)
    requires RInv(s, r)
    ensures Kept(Apply(s, EmitFail(delivered)), Recorded(r, s, EmitFail(delivered)))
  {
    if CanEmit(s) {
      if delivered {
        var id := NextId(s);
        NextIsNew(s, r);
        EmitOrders(s, r);
        EmitCounts(s.w, r, id);
        EndRecorded(State(Emitted(s.w, id), Saving, id + 1), Noted(r, s.w, id));
      } else {
        EndRecorded(s, r);
      }
    }
  }

  lemma StartRecorded(s: State, r: Record, loadFails: bool)
    requires RInv(s, r)
    ensures Kept(Apply(s, Start(loadFails)), Recorded(r, s, Start(loadFails)))
  {
  }

  lemma SaveRecorded(s: State, r: Record, c: Choice)
    requires RInv(s, r) && (c.SaveOk? || c.SaveFail? || c.PollFail?)
    ensures Kept(Apply(s, c), r)
  {
  }

  lemma StepRecorded(s: State, r: Record, c: Choice)
    requires RInv(s, r)
    ensures RInv(Apply(s, c), Recorded(r, s, c))
  {
    StepKeeps(s, c);
    match c {
      case Arrive(id) => ArriveRecorded(s, r, id);
      case Start(loadFails) => StartRecorded(s, r, loadFails);
      case PollOk(n) => PollRecorded(s, r, n);
      case PollLost => PollLostRecorded(s, r);
      case EmitOk => EmitOkRecorded(s, r);
      case EmitFail(delivered) => EmitFailRecorded(s, r, delivered);
      case Crash => if !s.phase.Dead? { EndRecorded(s, r); }
      case _ => SaveRecorded(s, r, c);
    }
  }

  lemma {:induction false} StepsRecorded(script: seq<Choice>, n: nat)
    requires n <= |script|
    ensures RInv(Steps(FRESH, script, 0, n), RecordOf(script, n))
  {
    if n == 0 {
      assert Ids([]) == {};
    } else {
      StepsRecorded(script, n - 1);
      StepRecorded(Steps(FRESH, script, 0, n - 1), RecordOf(script, n - 1), script[n - 1]);
    }
  }

  /* ---------- What holds of every run ---------- */

  /** Within one incarnation the ids emitted strictly increase; the next one, which a failing emit may
      deliver at its end, lies above them all. */
  lemma IncarnationIncreases(script: seq<Choice>)
    ensures var s, r := Run(script), RecordOf(script, |script|);
            && r.started <= |s.w.emitted| && Increasing(s.w.emitted[r.started..])
            && (CanEmit(s) ==> forall i | r.started <= i < |s.w.emitted| :: s.w.emitted[i] < NextId(s))
  {
    StepsRecorded(script, |script|);
    var s, r := Run(script), RecordOf(script, |script|);
    if CanEmit(s) {
      NextIsNew(s, r);
    }
  }

  /** An update that comes a second time was, when the last incarnation ended, one of the at most
      LIMIT fetched ids at the front of the server's queue. */
  lemma RepeatsWereAtRisk(script: seq<Choice>)
    ensures var s, r := Run(script), RecordOf(script, |script|);
            && |r.risk| <= 100
            && (CanEmit(s) && NextId(s) in s.w.emitted ==> NextId(s) in r.risk)
            && (r.deaths == 0 && CanEmit(s) ==> NextId(s) !in s.w.emitted)
  {
    StepsRecorded(script, |script|);
    var s, r := Run(script), RecordOf(script, |script|);
    if CanEmit(s) {
      NextIsNew(s, r);
    }
  }

  /** Over a whole run the sink receives at most LIMIT repeats for each time the process died. */
  lemma RepeatsBounded(script: seq<Choice>)
    ensures var w, r := Run(script).w, RecordOf(script, |script|);
            |w.emitted| <= |Ids(w.emitted)| + 100 * r.deaths
  {
    StepsRecorded(script, |script|);
    AgainAtMostLimit(Run(script), RecordOf(script, |script|));
  }

  /* ---------- The batch at risk ---------- */

  /** A poll that reaches the loop returns as much as it may. */
  predicate FullPoll(c: Choice) { c.PollOk? ==> c.n >= LIMIT }

  function Fetch(s: State, last: seq<int>, c: Choice): seq<int> {
    if c.PollOk? && s.phase.Polling? then Batch(Confirmed(s.w.pending, s.offset), c.n) else last
  }

  /** The batch last fetched. */
  function LastBatch(script: seq<Choice>, n: nat): seq<int>
    requires n <= |script|
  {
    if n == 0 then [] else Fetch(Steps(FRESH, script, 0, n - 1), LastBatch(script, n - 1), script[n - 1])
  }

  predicate IsEndOf(part: seq<int>, whole: seq<int>) {
    |part| <= |whole| && part == whole[|whole| - |part|..]
  }

  /** The fetched front of the queue is the end of the batch last fetched. */
  ghost predicate FrontIsBatch(pending: seq<int>, fetched: nat, last: seq<int>) {
    fetched <= |pending| && IsEndOf(pending[..fetched], last)
  }

  lemma DropKeepsFront(pending: seq<int>, k: nat, fetched: nat, fetched': nat, last: seq<int>)
    requires k <= |pending| && FrontIsBatch(pending, fetched, last)
    requires fetched' == if fetched > k then fetched - k else 0
    ensures FrontIsBatch(pending[k..], fetched', last)
  {
    assert pending[k..][..fetched'] == if fetched > k then pending[..fetched][k..] else [];
  }

  /** A poll that reaches the loop returns at least those ids fetched before that the server still holds. */
  predicate Refetches(s: State, r: Record, c: Choice) {
    c.PollOk? && s.phase.Polling? ==>
      var pending := Confirmed(s.w.pending, s.offset);
      r.fetched <= |s.w.pending| - |pending| + |Batch(pending, c.n)|
  }

  /** The fetched front is the batch of a poll exactly when no earlier poll had returned more of it. */
  lemma BatchIsFront(pending: seq<int>, n: nat, fetched: nat)
    requires |Batch(pending, n)| <= fetched <= |pending|
    ensures FrontIsBatch(pending, fetched, Batch(pending, n)) <==> fetched == |Batch(pending, n)|
  {
    if fetched == |Batch(pending, n)| {
      assert pending[..fetched] == Batch(pending, n);
    }
  }

  lemma PollFetches(s: State, r: Record, n: nat)
    requires RInv(s, r) && s.phase.Polling?
    ensures var pending := Confirmed(s.w.pending, s.offset);
            var fetched := Refetched(r, s.w.pending, pending, |Batch(pending, n)|).fetched;
            FrontIsBatch(pending, fetched, Batch(pending, n)) <==> Refetches(s, r, PollOk(n))
  {
    var pending := Confirmed(s.w.pending, s.offset);
    var batch := Batch(pending, n);
    BatchSize(pending, n);
    PendingPositive(s.w);
    ConfirmDrops(s.w.pending, s.offset);
    PollFront(s.w, r, pending, |batch|);
    BatchIsFront(pending, n, Refetched(r, s.w.pending, pending, |batch|).fetched);
  }

  /** At most LIMIT ids were fetched, and the server still holds them. */
  lemma FetchedBounds(s: State, r: Record)
    requires RInv(s, r)
    ensures r.fetched <= LIMIT && r.fetched <= |s.w.pending| && Increasing(s.w.pending)
  {
    PendingPositive(s.w);
  }

  lemma FullBatchSize(before: seq<int>, pending: seq<int>, n: nat, fetched: nat)
    requires n >= LIMIT && fetched <= LIMIT && fetched <= |before| && |pending| <= |before|
    ensures fetched <= |before| - |pending| + |Batch(pending, n)|
  {
  }

  /** A poll that returns as much as it may is such a poll. */
  lemma FullPollRefetches(s: State, r: Record, c: Choice)
    requires RInv(s, r) && FullPoll(c)
    ensures Refetches(s, r, c)
  {
    if c.PollOk? && s.phase.Polling? {
      FetchedBounds(s, r);
      ConfirmDrops(s.w.pending, s.offset);
      FullBatchSize(s.w.pending, Confirmed(s.w.pending, s.offset), c.n, r.fetched);
    }
  }

  lemma FrontStep(s: State, r: Record, last: seq<int>, c: Choice)
    requires RInv(s, r) && FrontIsBatch(s.w.pending, r.fetched, last)
    ensures FrontIsBatch(Apply(s, c).w.pending, Recorded(r, s, c).fetched, Fetch(s, last, c)) <==> Refetches(s, r, c)
  {
    match c {
      case Arrive(id) =>
        assert Queued(s.w, id).pending[..r.fetched] == s.w.pending[..r.fetched];
      case PollOk(n) =>
        if s.phase.Polling? {
          PollFetches(s, r, n);
        }
      case PollLost =>
        if s.phase.Polling? {
          PendingPositive(s.w);
          ConfirmDrops(s.w.pending, s.offset);
          var k := |s.w.pending| - |Confirmed(s.w.pending, s.offset)|;
          DropKeepsFront(s.w.pending, k, r.fetched, Recorded(r, s, c).fetched, last);
        }
      case _ =>
    }
  }

  ghost predicate FrontAt(script: seq<Choice>, k: nat)
    requires k <= |script|
  {
    FrontIsBatch(Steps(FRESH, script, 0, k).w.pending, RecordOf(script, k).fetched, LastBatch(script, k))
  }

  predicate RefetchesAt(script: seq<Choice>, k: nat)
    requires k < |script|
  {
    Refetches(Steps(FRESH, script, 0, k), RecordOf(script, k), script[k])
  }

  lemma RunFrontStep(script: seq<Choice>, k: nat)
    requires k < |script| && FrontAt(script, k)
    ensures FrontAt(script, k + 1) <==> RefetchesAt(script, k)
  {
    StepsRecorded(script, k);
    FrontStep(Steps(FRESH, script, 0, k), RecordOf(script, k), LastBatch(script, k), script[k]);
  }

  lemma {:induction false} FrontHolds(script: seq<Choice>, n: nat)
    requires n <= |script| && forall k | 0 <= k < n :: RefetchesAt(script, k)
    ensures FrontAt(script, n)
  {
    if n > 0 {
      var m := n - 1;
      FrontHolds(script, m);
      RunFrontStep(script, m);
    }
  }

  /** All along a run the fetched front is the end of the batch last fetched, exactly when each poll returns at
      least what had been fetched and is still held. */
  lemma FrontsAreBatches(script: seq<Choice>, n: nat)
    requires n <= |script|
    ensures (forall k | 0 <= k <= n :: FrontAt(script, k)) <==> (forall k | 0 <= k < n :: RefetchesAt(script, k))
  {
    if forall k | 0 <= k < n :: RefetchesAt(script, k) {
      forall k | 0 <= k <= n
        ensures FrontAt(script, k)
      {
        FrontHolds(script, k);
      }
    } else {
      var k :| 0 <= k < n && !RefetchesAt(script, k);
      var next := k + 1;
      if FrontAt(script, k) {
        RunFrontStep(script, k);
        assert !FrontAt(script, next);
      }
    }
  }

  /** What a death puts at risk is the fetched front of the queue. */
  lemma DeathRisks(s: State, r: Record, last: seq<int>, c: Choice)
    requires RInv(s, r) && Recorded(r, s, c).deaths > r.deaths
    ensures FrontIsBatch(s.w.pending, r.fetched, last) <==> IsEndOf(Recorded(r, s, c).risk, last)
  {
  }

  /** When each poll so far returned at least what had been fetched and was still held, a death puts at risk
      only the end of the single batch last fetched: the ids of it that the server still held. */
  lemma DeathRisksLastBatch(script: seq<Choice>, n: nat)
    requires n < |script| && forall k | 0 <= k < n :: RefetchesAt(script, k)
    requires RecordOf(script, n + 1).deaths > RecordOf(script, n).deaths
    ensures IsEndOf(RecordOf(script, n + 1).risk, LastBatch(script, n))
  {
    FrontHolds(script, n);
    StepsRecorded(script, n);
    DeathRisks(Steps(FRESH, script, 0, n), RecordOf(script, n), LastBatch(script, n), script[n]);
  }

  /** That holds in every run whose polls return as much as they may. */
  lemma FullPollsRefetch(script: seq<Choice>, k: nat)
    requires k < |script| && FullPoll(script[k])
    ensures RefetchesAt(script, k)
  {
    StepsRecorded(script, k);
    FullPollRefetches(Steps(FRESH, script, 0, k), RecordOf(script, k), script[k]);
  }

  /* ---------- A short poll widens the risk ---------- */

  /** Both updates are emitted but not confirmed; the next incarnation fetches again. */
  function ShortPollRun(rest: seq<Choice>): seq<Choice> {
    [Arrive(1), Arrive(2), Start(false), PollOk(2), EmitOk, EmitOk, Crash, Start(false)] + rest
  }

  /** One more choice of a run. */
  lemma RunOn(script: seq<Choice>, n: nat, s: State, r: Record, last: seq<int>)
    requires n < |script| && s == Steps(FRESH, script, 0, n) && r == RecordOf(script, n) && last == LastBatch(script, n)
    ensures Steps(FRESH, script, 0, n + 1) == Apply(s, script[n])
    ensures RecordOf(script, n + 1) == Recorded(r, s, script[n])
    ensures LastBatch(script, n + 1) == Fetch(s, last, script[n])
  {
  }

  lemma ShortPollStart(rest: seq<Choice>)
    ensures Steps(FRESH, ShortPollRun(rest), 0, 4) == State(World([1, 2], [1, 2], [], None), Emitting([1, 2], 0), 0)
    ensures RecordOf(ShortPollRun(rest), 4) == BLANK.(fetched := 2) && LastBatch(ShortPollRun(rest), 4) == [1, 2]
  {
    var script := ShortPollRun(rest);
    var s1 := State(World([1], [1], [], None), Dead, 0);
    var s2 := State(World([1, 2], [1, 2], [], None), Dead, 0);
    RunOn(script, 0, FRESH, BLANK, []);
    RunOn(script, 1, s1, BLANK, []);
    RunOn(script, 2, s2, BLANK, []);
    RunOn(script, 3, s2.(phase := Polling), BLANK, []);
    assert Batch([1, 2], 2) == [1, 2];
  }

  /** Emitting an update for the first time. */
  lemma EmitsFirst(w: World, batch: seq<int>, next: nat, offset: int, r: Record)
    requires next < |batch| && batch[next] !in w.emitted && offset <= batch[next]
    ensures var s := State(w, Emitting(batch, next), offset);
            && Apply(s, EmitOk).w == w.(emitted := w.emitted + [batch[next]])
            && Apply(s, EmitOk).phase == (if next + 1 == |batch| then Saving else Emitting(batch, next + 1))
            && Apply(s, EmitOk).offset == batch[next] + 1 && Recorded(r, s, EmitOk) == r
  {
  }

  lemma ShortPollEmitsOne(rest: seq<Choice>)
    ensures Steps(FRESH, ShortPollRun(rest), 0, 5) == State(World([1, 2], [1, 2], [1], None), Emitting([1, 2], 1), 2)
    ensures RecordOf(ShortPollRun(rest), 5) == BLANK.(fetched := 2)
  {
    var w, r := World([1, 2], [1, 2], [], None), BLANK.(fetched := 2);
    ShortPollStart(rest);
    EmitsFirst(w, [1, 2], 0, 0, r);
    RunOn(ShortPollRun(rest), 4, State(w, Emitting([1, 2], 0), 0), r, [1, 2]);
    assert w.emitted + [1] == [1];
  }

  lemma ShortPollEmitsBoth(rest: seq<Choice>)
    ensures Steps(FRESH, ShortPollRun(rest), 0, 6) == State(World([1, 2], [1, 2], [1, 2], None), Saving, 3)
    ensures RecordOf(ShortPollRun(rest), 6) == BLANK.(fetched := 2)
  {
    var w, r := World([1, 2], [1, 2], [1], None), BLANK.(fetched := 2);
    ShortPollEmitsOne(rest);
    EmitsFirst(w, [1, 2], 1, 2, r);
    RunOn(ShortPollRun(rest), 5, State(w, Emitting([1, 2], 1), 2), r, LastBatch(ShortPollRun(rest), 5));
    assert w.emitted + [2] == [1, 2];
  }

  /** A death that leaves what was fetched at the server. */
  lemma DiesHolding(s: State, r: Record)
    requires !s.phase.Dead? && r.fetched == |s.w.pending| && r.again == {}
    ensures Apply(s, Crash) == State(s.w, Dead, 0)
    ensures Recorded(r, s, Crash) == Record(r.fetched, |s.w.emitted|, s.w.pending, {}, r.earlier, r.deaths + 1)
  {
  }

  lemma ShortPollRestart(rest: seq<Choice>)
    ensures Steps(FRESH, ShortPollRun(rest), 0, 8) == State(World([1, 2], [1, 2], [1, 2], None), Polling, 0)
    ensures RecordOf(ShortPollRun(rest), 8) == Record(2, 2, [1, 2], {}, 0, 1)
  {
    var script, w, r := ShortPollRun(rest), World([1, 2], [1, 2], [1, 2], None), BLANK.(fetched := 2);
    ShortPollEmitsBoth(rest);
    DiesHolding(State(w, Saving, 3), r);
    RunOn(script, 6, State(w, Saving, 3), r, LastBatch(script, 6));
    RunOn(script, 7, State(w, Dead, 0), Record(2, 2, [1, 2], {}, 0, 1), LastBatch(script, 7));
  }

  /** The short poll itself. */
  lemma ShortPoll(s: State, r: Record)
    requires s == State(World([1, 2], [1, 2], [1, 2], None), Polling, 0) && r == Record(2, 2, [1, 2], {}, 0, 1)
    ensures !Refetches(s, r, PollOk(1)) && Apply(s, PollOk(1)) == s.(phase := Emitting([1], 0))
    ensures Recorded(r, s, PollOk(1)) == r && forall last :: Fetch(s, last, PollOk(1)) == [1]
  {
    assert Batch([1, 2], 1) == [1];
  }

  /** After the second death an update is at risk that was emitted and is not in the batch last fetched. */
  lemma ShortPollWidensRisk()
    ensures var script := ShortPollRun([PollOk(1), Crash]);
            && !RefetchesAt(script, 8) && LastBatch(script, 9) == [1]
            && RecordOf(script, 10).risk == [1, 2] && Steps(FRESH, script, 0, 10).w.emitted == [1, 2]
  {
    var rest := [PollOk(1), Crash];
    var script, r := ShortPollRun(rest), Record(2, 2, [1, 2], {}, 0, 1);
    var s := State(World([1, 2], [1, 2], [1, 2], None), Polling, 0);
    ShortPollRestart(rest);
    ShortPoll(s, r);
    RunOn(script, 8, s, r, LastBatch(script, 8));
    DiesHolding(s.(phase := Emitting([1], 0)), r);
    RunOn(script, 9, s.(phase := Emitting([1], 0)), r, [1]);
  }
}
