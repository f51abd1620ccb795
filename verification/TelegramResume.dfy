/** What a working save of the Telegram offset is worth: a restart resumes behind it. */
module TelegramResume {
  import opened Wrappers
  import opened Telegram
  import opened TelegramRuns
  import opened TelegramRepeats

  /* ---------- A round of the loop ---------- */

  /** While a save is due the offset is one past the last id emitted. */
  ghost predicate PastLast(s: State) {
    s.phase.Saving? ==> s.w.emitted != [] && s.offset == s.w.emitted[|s.w.emitted| - 1] + 1
  }

  lemma StepPastLast(s: State, c: Choice)
    requires Inv(s) && PastLast(s)
    ensures PastLast(Apply(s, c))
  {
  }

  lemma {:induction false} RunPastLast(script: seq<Choice>, n: nat)
    requires n <= |script|
    ensures PastLast(Steps(FRESH, script, 0, n))
  {
    if n > 0 {
      RunPastLast(script, n - 1);
      StepsKeep(script, n - 1);
      StepPastLast(Steps(FRESH, script, 0, n - 1), script[n - 1]);
    }
  }

  /** From step `at` on: a poll that may return n updates, b emits that work, and a save that works. */
  predicate Round(script: seq<Choice>, at: nat, n: nat, b: nat) {
    && at + b + 2 <= |script| && script[at] == PollOk(n) && script[at + b + 1] == SaveOk
    && forall k | at < k <= at + b :: script[k] == EmitOk
  }

  lemma FetchesBatch(s: State, held: seq<int>, n: nat, b: nat)
    requires s.phase.Polling? && held == Confirmed(s.w.pending, s.offset)
    requires 0 < b <= |held| && b <= n && b <= 100 && (b == n || b == |held| || b == 100)
    ensures Apply(s, PollOk(n)) == State(s.w.(pending := held), Emitting(held[..b], 0), s.offset)
  {
    assert Batch(held, n) == held[..b];
  }

  /** One more emit of the round, not the last. */
  lemma EmitsNext(s: State, batch: seq<int>, i: nat, emitted: seq<int>)
    requires s.phase == Emitting(batch, i) && i + 1 < |batch| && s.w.emitted == emitted + batch[..i]
    ensures var t := Apply(s, EmitOk);
            t.phase == Emitting(batch, i + 1) && t.w == s.w.(emitted := emitted + batch[..i + 1])
  {
    assert batch[..i + 1] == batch[..i] + [batch[i]];
  }

  /** The state before the last emit of the round. */
  lemma {:induction false} RoundEmits(script: seq<Choice>, at: nat, n: nat, b: nat, s: State, batch: seq<int>, i: nat)
    requires Round(script, at, n, b) && i < b == |batch|
    requires s == Steps(FRESH, script, 0, at + 1) && s.phase == Emitting(batch, 0)
    ensures var t := Steps(FRESH, script, 0, at + 1 + i);
            t.phase == Emitting(batch, i) && t.w == s.w.(emitted := s.w.emitted + batch[..i])
  {
    if i > 0 {
      RoundEmits(script, at, n, b, s, batch, i - 1);
      EmitsNext(Steps(FRESH, script, 0, at + i), batch, i - 1, s.w.emitted);
    } else {
      assert s.w.emitted + batch[..0] == s.w.emitted;
    }
  }

  /** The last emit of the round, and the save. */
  lemma EmitsLast(s: State, batch: seq<int>, emitted: seq<int>)
    requires batch != [] && s.phase == Emitting(batch, |batch| - 1) && s.offset <= batch[|batch| - 1]
    requires s.w.emitted == emitted + batch[..|batch| - 1]
    ensures var last := batch[|batch| - 1];
            Apply(Apply(s, EmitOk), SaveOk) ==
              State(s.w.(emitted := emitted + batch, saved := Some(last + 1)), Polling, last + 1)
  {
    assert batch[..|batch| - 1] + [batch[|batch| - 1]] == batch;
    assert s.w.emitted + [batch[|batch| - 1]] == emitted + batch;
  }

  lemma RoundEnds(script: seq<Choice>, at: nat, n: nat, b: nat, s: State, batch: seq<int>)
    requires Round(script, at, n, b) && 0 < b == |batch|
    requires s == Steps(FRESH, script, 0, at + 1) && s.phase == Emitting(batch, 0)
    ensures Steps(FRESH, script, 0, at + b + 2) ==
              State(s.w.(emitted := s.w.emitted + batch, saved := Some(batch[b - 1] + 1)), Polling, batch[b - 1] + 1)
  {
    var t := Steps(FRESH, script, 0, at + b);
    RoundEmits(script, at, n, b, s, batch, b - 1);
    OffsetBehind(script, at + b);
    TwoMore(script, at + b);
    LastOfRound(s, t, batch);
  }

  /** The offset never lies above the next id to emit. */
  lemma OffsetBehind(script: seq<Choice>, k: nat)
    requires k <= |script| && CanEmit(Steps(FRESH, script, 0, k))
    ensures Steps(FRESH, script, 0, k).offset <= NextId(Steps(FRESH, script, 0, k))
  {
    StepsKeep(script, k);
  }

  lemma LastOfRound(s: State, t: State, batch: seq<int>)
    requires batch != [] && t.phase == Emitting(batch, |batch| - 1) && t.offset <= batch[|batch| - 1]
    requires t.w == s.w.(emitted := s.w.emitted + batch[..|batch| - 1])
    ensures var last := batch[|batch| - 1];
            Apply(Apply(t, EmitOk), SaveOk) ==
              State(s.w.(emitted := s.w.emitted + batch, saved := Some(last + 1)), Polling, last + 1)
  {
    EmitsLast(t, batch, s.w.emitted);
  }

  /** An undisturbed round of a run: of what the server still holds at or above the offset, up to 100 updates and
      as many as it chooses to return, are emitted in order, and the offset one past the last is saved. */
  lemma RoundDelivers(script: seq<Choice>, at: nat, n: nat, b: nat, s: State, held: seq<int>)
    requires Round(script, at, n, b) && s == Steps(FRESH, script, 0, at)
    requires s.phase.Polling? && held == Confirmed(s.w.pending, s.offset)
    requires 0 < b <= |held| && b <= n && b <= 100 && (b == n || b == |held| || b == 100)
    ensures var t := Steps(FRESH, script, 0, at + b + 2);
            && t.phase == Polling && t.offset == held[b - 1] + 1
            && t.w == s.w.(pending := held, emitted := s.w.emitted + held[..b], saved := Some(held[b - 1] + 1))
  {
    FetchesBatch(s, held, n, b);
    RoundEnds(script, at, n, b, Apply(s, PollOk(n)), held[..b]);
  }

  lemma TwoMore(script: seq<Choice>, k: nat)
    requires k + 2 <= |script|
    ensures Steps(FRESH, script, 0, k + 2) == Apply(Apply(Steps(FRESH, script, 0, k), script[k]), script[k + 1])
  {
    assert Steps(FRESH, script, 0, k + 1) == Apply(Steps(FRESH, script, 0, k), script[k]);
  }

  /* ---------- After a save ---------- */

  /** Neither the persisted offset nor a live one is below v, and from position c on nothing below v was emitted. */
  ghost predicate Beyond(s: State, v: int, c: nat) {
    && s.w.saved.Some? && s.w.saved.value >= v && (!s.phase.Dead? ==> s.offset >= v)
    && c <= |s.w.emitted| && forall j | c <= j < |s.w.emitted| :: s.w.emitted[j] >= v
  }

  lemma StepBeyond(s: State, ch: Choice, v: int, c: nat)
    requires Inv(s) && Beyond(s, v, c) && ch != Start(true)
    ensures Beyond(Apply(s, ch), v, c)
  {
  }

  lemma {:induction false} RunBeyond(script: seq<Choice>, m: nat, n: nat, v: int, c: nat)
    requires m <= n <= |script| && Beyond(Steps(FRESH, script, 0, m), v, c)
    requires forall k | m <= k < n :: script[k] != Start(true)
    ensures Beyond(Steps(FRESH, script, 0, n), v, c)
  {
    if m < n {
      RunBeyond(script, m, n - 1, v, c);
      StepsKeep(script, n - 1);
      StepBeyond(Steps(FRESH, script, 0, n - 1), script[n - 1], v, c);
    }
  }

  /** A save that works at step m. */
  predicate SavesAt(script: seq<Choice>, m: nat)
    requires m < |script|
  {
    script[m] == SaveOk && Steps(FRESH, script, 0, m).phase.Saving?
  }

  /** Once a save has worked, and while no start fails to load, only ids above the last one emitted before the
      save are emitted, whatever else fails and however often the process dies. */
  lemma OnlyHigherAfterSave(script: seq<Choice>, m: nat, n: nat)
    requires m < n <= |script| && SavesAt(script, m) && forall k | m < k < n :: script[k] != Start(true)
    ensures var before, after := Steps(FRESH, script, 0, m).w.emitted, Steps(FRESH, script, 0, n).w.emitted;
            && 0 < |before| <= |after|
            && forall j | |before| <= j < |after| :: after[j] > before[|before| - 1]
  {
    RunPastLast(script, m);
    var s := Steps(FRESH, script, 0, m);
    var c, last := |s.w.emitted|, s.w.emitted[|s.w.emitted| - 1];
    assert Beyond(Steps(FRESH, script, 0, m + 1), last + 1, c);
    RunBeyond(script, m + 1, n, last + 1, c);
  }

  lemma {:induction false} SavedStays(script: seq<Choice>, m: nat, n: nat)
    requires m <= n <= |script| && forall k | m <= k < n :: script[k] != SaveOk
    ensures Steps(FRESH, script, 0, n).w.saved == Steps(FRESH, script, 0, m).w.saved
  {
    if m < n {
      SavedStays(script, m, n - 1);
    }
  }

  /** After the last save that worked and a death, a start whose load works resumes one past the last id
      emitted before that save. */
  lemma ResumesPastSaved(script: seq<Choice>, m: nat, n: nat)
    requires m < n < |script| && SavesAt(script, m) && forall k | m < k < n :: script[k] != SaveOk
    requires Steps(FRESH, script, 0, n).phase.Dead? && script[n] == Start(false)
    ensures var before, t := Steps(FRESH, script, 0, m).w.emitted, Steps(FRESH, script, 0, n + 1);
            before != [] && t.phase == Polling && t.offset == before[|before| - 1] + 1
  {
    RunPastLast(script, m);
    SavedStays(script, m + 1, n);
  }

  /** Before any save has worked, or when the load fails, a start begins at 0: the server decides. */
  lemma StartsAtZero(script: seq<Choice>, n: nat)
    requires n < |script| && Steps(FRESH, script, 0, n).phase.Dead? && script[n].Start?
    requires script[n].loadFails || forall k | 0 <= k < n :: script[k] != SaveOk
    ensures Steps(FRESH, script, 0, n + 1).phase == Polling && Steps(FRESH, script, 0, n + 1).offset == 0
  {
    if !script[n].loadFails {
      SavedStays(script, 0, n);
    }
  }

  /* ---------- Nothing emitted before a save comes again ---------- */

  /** Everything emitted had been queued. */
  ghost predicate FromHistory(w: World) { forall k | 0 <= k < |w.emitted| :: w.emitted[k] in w.history }

  lemma StepFromHistory(s: State, c: Choice)
    requires Inv(s) && FromHistory(s.w)
    ensures FromHistory(Apply(s, c).w)
  {
    if CanEmit(s) {
      assert NextId(s) == s.w.pending[s.phase.next] == s.w.history[Dropped(s.w) + s.phase.next];
    }
  }

  lemma {:induction false} RunFromHistory(script: seq<Choice>, n: nat)
    requires n <= |script|
    ensures FromHistory(Steps(FRESH, script, 0, n).w)
  {
    if n > 0 {
      RunFromHistory(script, n - 1);
      StepsKeep(script, n - 1);
      StepFromHistory(Steps(FRESH, script, 0, n - 1), script[n - 1]);
    }
  }

  /** The fetched front of the queue is the batch in hand, and once it is emitted its last id is the last emitted. */
  ghost predicate HoldsBatch(s: State, fetched: nat) {
    && (s.phase.Emitting? ==> fetched == |s.phase.batch|)
    && (s.phase.Saving? ==>
          && 0 < fetched <= |s.w.pending| && s.w.emitted != []
          && s.w.pending[fetched - 1] == s.w.emitted[|s.w.emitted| - 1])
  }

  /** A poll's batch is all that is fetched. */
  lemma PollHoldsBatch(s: State, r: Record, n: nat)
    requires RInv(s, r) && s.phase.Polling? && Refetches(s, r, PollOk(n))
    ensures Recorded(r, s, PollOk(n)).fetched == |Batch(Confirmed(s.w.pending, s.offset), n)|
  {
    FetchedBounds(s, r);
    ConfirmDrops(s.w.pending, s.offset);
  }

  lemma StepHoldsBatch(s: State, r: Record, c: Choice)
    requires RInv(s, r) && HoldsBatch(s, r.fetched) && Refetches(s, r, c)
    ensures HoldsBatch(Apply(s, c), Recorded(r, s, c).fetched)
  {
    if c.PollOk? && s.phase.Polling? {
      PollHoldsBatch(s, r, c.n);
    }
  }

  lemma {:induction false} RunHoldsBatch(script: seq<Choice>, n: nat)
    requires n <= |script| && forall k | 0 <= k < n :: RefetchesAt(script, k)
    ensures HoldsBatch(Steps(FRESH, script, 0, n), RecordOf(script, n).fetched)
  {
    if n > 0 {
      RunHoldsBatch(script, n - 1);
      StepsRecorded(script, n - 1);
      assert RefetchesAt(script, n - 1);
      StepHoldsBatch(Steps(FRESH, script, 0, n - 1), RecordOf(script, n - 1), script[n - 1]);
    }
  }

  /** While a save is due, nothing emitted so far lies above the last id emitted. */
  lemma LastIsHighest(s: State, fetched: nat, i: nat)
    requires Ordered(s.w) && FrontOnly(s.w, fetched) && FromHistory(s.w) && HoldsBatch(s, fetched)
    requires s.phase.Saving? && i < |s.w.emitted|
    ensures s.w.emitted[i] <= s.w.emitted[|s.w.emitted| - 1]
  {
    var w := s.w;
    var h :| 0 <= h < |w.history| && w.history[h] == w.emitted[i];
    var front := Dropped(w) + fetched;
    assert w.history[front - 1] == w.pending[fetched - 1];
    forall g | front <= g < |w.history|
      ensures w.history[g] !in w.emitted
    {
      assert w.history[g] == w.pending[g - Dropped(w)];
    }
    assert w.emitted[i] in w.emitted;
  }

  /** When polls return at least what had been fetched and is still held, and no start after a save that worked
      fails to load, no id emitted up to the save is emitted again. */
  lemma SavedNeverRepeats(script: seq<Choice>, m: nat, n: nat)
    requires m < n <= |script| && SavesAt(script, m) && forall k | m < k < n :: script[k] != Start(true)
    requires forall k | 0 <= k < m :: RefetchesAt(script, k)
    ensures var before, after := Steps(FRESH, script, 0, m).w.emitted, Steps(FRESH, script, 0, n).w.emitted;
            && |before| <= |after|
            && forall i, j | 0 <= i < |before| && |before| <= j < |after| :: after[j] != before[i]
  {
    OnlyHigherAfterSave(script, m, n);
    StepsRecorded(script, m);
    RunFromHistory(script, m);
    RunHoldsBatch(script, m);
    var s := Steps(FRESH, script, 0, m);
    forall i | 0 <= i < |s.w.emitted|
      ensures s.w.emitted[i] <= s.w.emitted[|s.w.emitted| - 1]
    {
      LastIsHighest(s, RecordOf(script, m).fetched, i);
    }
  }

  /** That needs the polls: after a shorter poll a working save leaves an id to come a third time. */
  lemma SavedIdRepeats()
    ensures var script := ShortPollRun([PollOk(1), EmitOk, SaveOk, PollOk(1), EmitOk]);
            && SavesAt(script, 10) && script[11] == PollOk(1) && script[12] == EmitOk
            && Steps(FRESH, script, 0, 10).w.emitted == [1, 2, 1] && Steps(FRESH, script, 0, 13).w.emitted == [1, 2, 1, 2]
  {
    var rest := [PollOk(1), EmitOk, SaveOk, PollOk(1), EmitOk];
    ShortPollRestart(rest);
    SecondRound(ShortPollRun(rest), rest);
  }

  lemma SecondRound(script: seq<Choice>, rest: seq<Choice>)
    requires |script| == 13 && script[8..] == rest == [PollOk(1), EmitOk, SaveOk, PollOk(1), EmitOk]
    requires Steps(FRESH, script, 0, 8) == State(World([1, 2], [1, 2], [1, 2], None), Polling, 0)
    ensures SavesAt(script, 10) && script[11] == PollOk(1) && script[12] == EmitOk
    ensures Steps(FRESH, script, 0, 10).w.emitted == [1, 2, 1] && Steps(FRESH, script, 0, 13).w.emitted == [1, 2, 1, 2]
  {
    assert forall k | 8 <= k < 13 :: script[k] == rest[k - 8];
    SecondSave(script);
    SecondTail(script);
  }

  lemma SecondSave(script: seq<Choice>)
    requires |script| == 13 && script[8..] == [PollOk(1), EmitOk, SaveOk, PollOk(1), EmitOk]
    requires Steps(FRESH, script, 0, 8) == State(World([1, 2], [1, 2], [1, 2], None), Polling, 0)
    ensures script[10] == SaveOk && Steps(FRESH, script, 0, 10) == State(World([1, 2], [1, 2], [1, 2, 1], None), Saving, 2)
    ensures Steps(FRESH, script, 0, 11) == State(World([1, 2], [1, 2], [1, 2, 1], Some(2)), Polling, 2)
  {
    assert forall k | 8 <= k < 13 :: script[k] == script[8..][k - 8];
    SavedState(script, Steps(FRESH, script, 0, 8));
  }

  lemma SecondTail(script: seq<Choice>)
    requires |script| == 13 && script[11] == PollOk(1) && script[12] == EmitOk
    requires Steps(FRESH, script, 0, 11) == State(World([1, 2], [1, 2], [1, 2, 1], Some(2)), Polling, 2)
    ensures Steps(FRESH, script, 0, 13).w.emitted == [1, 2, 1, 2]
  {
    ThenSecond(Steps(FRESH, script, 0, 11));
    TwoMore(script, 11);
  }

  lemma SavedState(script: seq<Choice>, s: State)
    requires |script| == 13 && script[8] == PollOk(1) && script[9] == EmitOk
    requires s == State(World([1, 2], [1, 2], [1, 2], None), Polling, 0) && s == Steps(FRESH, script, 0, 8)
    ensures Steps(FRESH, script, 0, 10) == State(World([1, 2], [1, 2], [1, 2, 1], None), Saving, 2)
  {
    FetchesBatch(s, [1, 2], 1, 1);
    assert [1, 2][..1] == [1] && [1, 2] + [1] == [1, 2, 1];
    TwoMore(script, 8);
  }

  /** The next poll confirms update 1 and fetches update 2 again. */
  lemma ThenSecond(t: State)
    requires t == State(World([1, 2], [1, 2], [1, 2, 1], Some(2)), Polling, 2)
    ensures Apply(Apply(t, PollOk(1)), EmitOk).w.emitted == [1, 2, 1, 2]
  {
    assert DropBelow([2], 2) == [2] && [1, 2][1..] == [2];
    assert Confirmed([1, 2], 2) == [2];
    FetchesBatch(t, [2], 1, 1);
    assert [2][..1] == [2] && [1, 2, 1] + [2] == [1, 2, 1, 2];
  }

  /* ---------- When the sink fails ---------- */

  /** A failing emit ends the subscription: nothing is confirmed or saved, and the id may have arrived. */
  lemma FailingEmitStops(s: State, delivered: bool)
    requires CanEmit(s)
    ensures var t := Apply(s, EmitFail(delivered));
            && t.phase.Dead? && t.w.saved == s.w.saved && t.w.pending == s.w.pending
            && t.w.emitted == if delivered then s.w.emitted + [s.phase.batch[s.phase.next]] else s.w.emitted
  {
  }
}
