/** What the offset protocol of Telegram guarantees over all runs. */
module TelegramRuns {
  import opened Wrappers
  import opened Telegram

  ghost predicate Increasing(ids: seq<int>) { forall i, j | 0 <= i < j < |ids| :: ids[i] < ids[j] }

  /** Every queued id below the offset has reached the sink, and every later arrival will be at or above it. */
  ghost predicate Covered(w: World, offset: int) {
    && (forall i | 0 <= i < |w.history| :: w.history[i] < offset ==> w.history[i] in w.emitted)
    && (offset <= 0 || (w.history != [] && offset <= w.history[|w.history| - 1] + 1))
  }

  function Dropped(w: World): int { |w.history| - |w.pending| }

  /** Queued ids are positive and grow, and the server holds the last of them. */
  ghost predicate Ordered(w: World) {
    && Increasing(w.history) && (w.history != [] ==> w.history[0] > 0)
    && 0 <= Dropped(w) && w.pending == w.history[Dropped(w)..]
  }

  /** The server has dropped only emitted ids, and the persisted offset covers what is below it. */
  ghost predicate Delivered(w: World) {
    && (forall i | 0 <= i < Dropped(w) && i < |w.history| :: w.history[i] in w.emitted)
    && (w.saved.Some? ==> Covered(w, w.saved.value))
  }

  /** A batch being emitted is the front of the queue; what precedes its next id has been emitted. */
  ghost predicate InBatch(w: World, offset: int, batch: seq<int>, next: nat) {
    && next < |batch| && batch <= w.pending
    && (forall j | 0 <= j < next :: batch[j] in w.emitted)
    && offset <= batch[next]
  }

  ghost predicate Inv(s: State) {
    && Ordered(s.w) && Delivered(s.w)
    && (!s.phase.Dead? ==> Covered(s.w, s.offset) && s.offset >= 0)
    && (s.phase.Emitting? ==> InBatch(s.w, s.offset, s.phase.batch, s.phase.next))
    && (s.w.saved.Some? ==> s.w.saved.value >= 0)
  }

  lemma {:induction false} DropBelowIsSuffix(ids: seq<int>, offset: int)
    requires Increasing(ids)
    ensures var k := |ids| - |DropBelow(ids, offset)|;
            && 0 <= k && DropBelow(ids, offset) == ids[k..]
            && (forall i | 0 <= i < k :: ids[i] < offset)
            && (forall i | k <= i < |ids| :: ids[i] >= offset)
  {
    if ids != [] && ids[0] < offset {
      DropBelowIsSuffix(ids[1..], offset);
    }
  }

  /** What a poll leaves at the server: a suffix at or above the offset; the rest was below it. */
  lemma ConfirmDrops(pending: seq<int>, offset: int)
    requires Increasing(pending)
    ensures var k := |pending| - |Confirmed(pending, offset)|;
            && 0 <= k && Confirmed(pending, offset) == pending[k..]
            && (forall i | 0 <= i < k :: pending[i] < offset)
            && (offset > 0 ==> forall i | k <= i < |pending| :: pending[i] >= offset)
  {
    DropBelowIsSuffix(pending, offset);
  }

  lemma PendingPositive(w: World)
    requires Ordered(w)
    ensures Increasing(w.pending) && forall i | 0 <= i < |w.pending| :: w.pending[i] > 0
  {
    forall i | 0 <= i < |w.pending|
      ensures w.pending[i] > 0
    {
      var j := Dropped(w) + i;
      if j > 0 { assert w.history[0] < w.history[j]; }
    }
  }

  /** What the server drops in a poll had been emitted. */
  lemma DropsEmitted(w: World, offset: int, k: nat)
    requires Ordered(w) && Delivered(w) && Covered(w, offset) && k <= |w.pending|
    requires forall i | 0 <= i < k :: w.pending[i] < offset
    ensures Delivered(w.(pending := w.pending[k..])) && Ordered(w.(pending := w.pending[k..]))
  {
    var v := w.(pending := w.pending[k..]);
    assert v.pending == w.history[Dropped(v)..];
    forall i | 0 <= i < Dropped(v)
      ensures w.history[i] in w.emitted
    {
      if i >= Dropped(w) {
        assert w.history[i] == w.pending[i - Dropped(w)];
      }
    }
    if w.saved.Some? {
      assert Covered(v, w.saved.value);
    }
  }

  lemma SameCover(w: World, v: World, offset: int)
    requires Covered(w, offset) && v == w.(pending := v.pending)
    ensures Covered(v, offset)
  {
  }

  /** A poll drops only ids below the offset, so only emitted ones. */
  lemma ConfirmKeeps(w: World, offset: int, pending: seq<int>)
    requires Ordered(w) && Delivered(w) && Covered(w, offset) && offset >= 0
    requires pending == Confirmed(w.pending, offset)
    ensures var v := w.(pending := pending);
            Ordered(v) && Delivered(v) && Covered(v, offset)
    ensures forall i | 0 <= i < |pending| :: pending[i] >= offset
  {
    PendingPositive(w);
    ConfirmDrops(w.pending, offset);
    var k: nat := |w.pending| - |pending|;
    assert pending == w.pending[k..];
    DropsEmitted(w, offset, k);
    SameCover(w, w.(pending := pending), offset);
  }

  /** More emitted ids cover at least as much. */
  lemma EmitKeepsCovered(w: World, id: int, offset: int)
    requires Covered(w, offset)
    ensures Covered(Emitted(w, id), offset)
  {
  }

  lemma EmitKeepsDelivered(w: World, id: int)
    requires Ordered(w) && Delivered(w)
    ensures Ordered(Emitted(w, id)) && Delivered(Emitted(w, id))
  {
    if w.saved.Some? {
      EmitKeepsCovered(w, id, w.saved.value);
    }
  }

  /** Emitting the next id of a batch covers everything up to it. */
  lemma EmitCovers(w: World, offset: int, batch: seq<int>, next: nat)
    requires Ordered(w) && Delivered(w) && InBatch(w, offset, batch, next)
    ensures Covered(Emitted(w, batch[next]), batch[next] + 1)
  {
    var at := Dropped(w) + next;
    var v := Emitted(w, batch[next]);
    assert w.history[at] == w.pending[next] == batch[next];
    assert forall i | at < i < |w.history| :: w.history[at] < w.history[i];
    forall i | 0 <= i <= at
      ensures w.history[i] in v.emitted
    {
      if Dropped(w) <= i {
        assert w.history[i] == w.pending[i - Dropped(w)] == batch[i - Dropped(w)];
      }
    }
    if at < |w.history| - 1 {
      assert w.history[at] < w.history[|w.history| - 1];
    }
  }

  lemma NextInBatch(w: World, offset: int, batch: seq<int>, next: nat)
    requires Ordered(w) && InBatch(w, offset, batch, next) && next + 1 < |batch|
    ensures InBatch(Emitted(w, batch[next]), batch[next] + 1, batch, next + 1)
  {
    PendingPositive(w);
    assert batch[next] == w.pending[next] < w.pending[next + 1] == batch[next + 1];
  }

  lemma QueueCovers(w: World, id: int, offset: int)
    requires Covered(w, offset)
    requires offset <= 0 ==> id > 0
    ensures Covered(Queued(w, id), offset)
  {
  }

  lemma QueueKeeps(w: World, id: int)
    requires Ordered(w) && Delivered(w)
    ensures Ordered(Queued(w, id)) && Delivered(Queued(w, id)) && w.pending <= Queued(w, id).pending
  {
    var v := Queued(w, id);
    if v != w {
      forall i | 0 <= i < |w.history|
        ensures v.history[i] < id
      {
        if i < |w.history| - 1 { assert w.history[i] < w.history[|w.history| - 1]; }
      }
      if w.saved.Some? {
        QueueCovers(w, id, w.saved.value);
      }
    }
  }

  /* ---------- Every step keeps the invariant ---------- */

  lemma ArriveKeeps(s: State, id: int)
    requires Inv(s)
    ensures Inv(Apply(s, Arrive(id)))
  {
    QueueKeeps(s.w, id);
    if !s.phase.Dead? && Queued(s.w, id) != s.w {
      QueueCovers(s.w, id, s.offset);
    }
  }

  lemma PollKeeps(s: State, c: Choice)
    requires Inv(s) && (c.PollOk? || c.PollLost?)
    ensures Inv(Apply(s, c))
  {
    if s.phase.Polling? {
      ConfirmKeeps(s.w, s.offset, Confirmed(s.w.pending, s.offset));
    }
  }

  /** The last id of a batch done, or the next one begun. */
  lemma EmitAdvances(w: World, offset: int, batch: seq<int>, next: nat)
    requires Ordered(w) && Delivered(w) && InBatch(w, offset, batch, next)
    ensures batch[next] > 0 && Advanced(offset, batch[next]) == batch[next] + 1
    ensures next + 1 < |batch| ==> InBatch(Emitted(w, batch[next]), batch[next] + 1, batch, next + 1)
  {
    PendingPositive(w);
    assert batch[next] == w.pending[next];
    if next + 1 < |batch| {
      NextInBatch(w, offset, batch, next);
    }
  }

  lemma EmitOkKeeps(s: State)
    requires Inv(s)
    ensures Inv(Apply(s, EmitOk))
  {
    if CanEmit(s) {
      var batch, next := s.phase.batch, s.phase.next;
      EmitKeepsDelivered(s.w, batch[next]);
      EmitCovers(s.w, s.offset, batch, next);
      EmitAdvances(s.w, s.offset, batch, next);
    }
  }

  lemma EmitFailKeeps(s: State, delivered: bool)
    requires Inv(s)
    ensures Inv(Apply(s, EmitFail(delivered)))
  {
    if CanEmit(s) {
      EmitKeepsDelivered(s.w, NextId(s));
    }
  }

  lemma StepKeeps(s: State, c: Choice)
    requires Inv(s)
    ensures Inv(Apply(s, c))
  {
    match c {
      case Arrive(id) => ArriveKeeps(s, id);
      case PollLost => PollKeeps(s, c);
      case PollOk(n) => PollKeeps(s, c);
      case EmitOk => EmitOkKeeps(s);
      case EmitFail(delivered) => EmitFailKeeps(s, delivered);
      case _ =>
    }
  }

  lemma {:induction false} StepsKeep(script: seq<Choice>, n: nat)
    requires n <= |script|
    ensures Inv(Steps(FRESH, script, 0, n))
  {
    if n > 0 {
      StepsKeep(script, n - 1);
      StepKeeps(Steps(FRESH, script, 0, n - 1), script[n - 1]);
    }
  }

  /** No loss: in every run, each update ever queued has been emitted or is still held by the server. */
  lemma NoLoss(script: seq<Choice>)
    ensures var w := Run(script).w;
            forall id | id in w.history :: id in w.emitted || id in w.pending
  {
    StepsKeep(script, |script|);
    var w := Run(script).w;
    forall i | 0 <= i < |w.history|
      ensures w.history[i] in w.emitted || w.history[i] in w.pending
    {
      if i >= Dropped(w) {
        assert w.pending[i - Dropped(w)] == w.history[i];
      }
    }
  }

  lemma OffsetStep(s: State, c: Choice)
    requires !s.phase.Dead? && !Apply(s, c).phase.Dead?
    ensures s.offset <= Apply(s, c).offset
  {
  }

  /** While an incarnation lives its offset never decreases: between two points of a run with no death in
      between. */
  lemma {:induction false} OffsetMonotone(script: seq<Choice>, m: nat, n: nat)
    requires m <= n <= |script| && forall k | m <= k <= n :: !Steps(FRESH, script, 0, k).phase.Dead?
    ensures Steps(FRESH, script, 0, m).offset <= Steps(FRESH, script, 0, n).offset
  {
    if m < n {
      OffsetMonotone(script, m, n - 1);
      assert !Steps(FRESH, script, 0, n - 1).phase.Dead? && !Steps(FRESH, script, 0, n).phase.Dead?;
      OffsetStep(Steps(FRESH, script, 0, n - 1), script[n - 1]);
    }
  }
}
