/** Exactly when a working save of the Telegram offset rules out that an id emitted before it comes again. */
module TelegramSaved {
  import opened Wrappers
  import opened Telegram
  import opened TelegramRuns
  import opened TelegramResume

  /* ---------- Continuations of a run ---------- */

  /** No start of a continuation fails to load. */
  predicate LoadsWork(more: seq<Choice>) { forall k | 0 <= k < |more| :: more[k] != Start(true) }

  function From(s: State, more: seq<Choice>): State
    decreases |more|
  {
    if more == [] then s else From(Apply(s, more[0]), more[1..])
  }

  lemma {:induction false} FromAppend(s: State, a: seq<Choice>, b: seq<Choice>)
    ensures From(s, a + b) == From(From(s, a), b)
    decreases |a|
  {
    if a == [] {
      assert a + b == b;
    } else {
      assert (a + b)[1..] == a[1..] + b;
      FromAppend(Apply(s, a[0]), a[1..], b);
    }
  }

  lemma {:induction false} FromSteps(script: seq<Choice>, n: nat)
    requires n <= |script|
    ensures Steps(FRESH, script, 0, n) == From(FRESH, script[..n])
  {
    if n > 0 {
      FromSteps(script, n - 1);
      assert script[..n] == script[..n - 1] + [script[n - 1]];
      FromAppend(FRESH, script[..n - 1], [script[n - 1]]);
      FromOne(Steps(FRESH, script, 0, n - 1), script[n - 1]);
    }
  }

  lemma FromOne(s: State, c: Choice)
    ensures From(s, [c]) == Apply(s, c)
  {
    assert [c][1..] == [];
  }

  /** A run continued. */
  lemma RunContinues(script: seq<Choice>, more: seq<Choice>)
    ensures Run(script + more) == From(Run(script), more)
  {
    FromSteps(script, |script|);
    FromSteps(script + more, |script + more|);
    assert script[..|script|] == script && (script + more)[..|script + more|] == script + more;
    FromAppend(FRESH, script, more);
  }

  lemma {:induction false} FromBeyond(s: State, more: seq<Choice>, v: int, c: nat)
    requires Inv(s) && Beyond(s, v, c) && LoadsWork(more)
    ensures Beyond(From(s, more), v, c)
    decreases |more|
  {
    if more != [] {
      StepBeyond(s, more[0], v, c);
      StepKeeps(s, more[0]);
      FromBeyond(Apply(s, more[0]), more[1..], v, c);
    }
  }

  /* ---------- What the server still holds at a save ---------- */

  predicate Held(ids: seq<int>, id: int) { exists k | 0 <= k < |ids| :: ids[k] == id }

  /** While a save is due the server holds the last id emitted. */
  ghost predicate HoldsLast(s: State) {
    s.phase.Saving? ==> s.w.emitted != [] && Held(s.w.pending, s.w.emitted[|s.w.emitted| - 1])
  }

  lemma StepHoldsLast(s: State, c: Choice)
    requires Inv(s) && HoldsLast(s)
    ensures HoldsLast(Apply(s, c))
  {
    match c {
      case EmitOk =>
        if CanEmit(s) {
          assert s.w.pending[s.phase.next] == NextId(s);
        }
      case Arrive(id) =>
        if s.phase.Saving? {
          HeldLonger(s.w.pending, Queued(s.w, id).pending, s.w.emitted[|s.w.emitted| - 1]);
        }
      case _ =>
    }
  }

  lemma HeldLonger(ids: seq<int>, more: seq<int>, id: int)
    requires ids <= more && Held(ids, id)
    ensures Held(more, id)
  {
    var k :| 0 <= k < |ids| && ids[k] == id;
    assert more[k] == id;
  }

  lemma {:induction false} RunHoldsLast(script: seq<Choice>, n: nat)
    requires n <= |script|
    ensures HoldsLast(Steps(FRESH, script, 0, n))
  {
    if n > 0 {
      RunHoldsLast(script, n - 1);
      StepsKeep(script, n - 1);
      StepHoldsLast(Steps(FRESH, script, 0, n - 1), script[n - 1]);
    }
  }

  /** The server holds the end of its history, so with an id it holds every later one. */
  lemma HigherIsHeld(w: World, last: int, x: int)
    requires Ordered(w) && Held(w.pending, last) && x in w.history && x > last
    ensures Held(w.pending, x)
  {
    var k :| 0 <= k < |w.pending| && w.pending[k] == last;
    var g :| 0 <= g < |w.history| && w.history[g] == x;
    var h := Dropped(w) + k;
    assert w.history[h] == last;
    assert g > h;
    assert w.pending[g - Dropped(w)] == x;
  }

  lemma HeldBehind(ids: seq<int>, rest: seq<int>, k: nat, x: int)
    requires k <= |ids| && rest == ids[k..] && Held(ids, x) && forall i | 0 <= i < k :: ids[i] != x
    ensures Held(rest, x)
  {
    var j :| 0 <= j < |ids| && ids[j] == x;
    assert rest[j - k] == x;
  }

  lemma ConfirmedHolds(pending: seq<int>, offset: int, x: int)
    requires Increasing(pending) && Held(pending, x) && x >= offset
    ensures Held(Confirmed(pending, offset), x)
  {
    ConfirmDrops(pending, offset);
    var rest := Confirmed(pending, offset);
    HeldBehind(pending, rest, |pending| - |rest|, x);
  }

  /* ---------- A held id can come again ---------- */

  const ROUND := [PollOk(1), EmitOk, SaveOk]

  /** A round that fetches one update, of the ids the server holds at or above the offset. */
  lemma OneRound(s: State, held: seq<int>, t: State)
    requires Inv(s) && s.phase.Polling? && held == Confirmed(s.w.pending, s.offset) && held != []
    requires t == From(s, ROUND)
    ensures Inv(t) && t.phase.Polling? && t.offset == held[0] + 1 && t.w.pending == held
    ensures t.w.emitted == s.w.emitted + [held[0]]
  {
    var u := Apply(s, PollOk(1));
    RoundUnfold(s);
    FetchesBatch(s, held, 1, 1);
    StepKeeps(s, PollOk(1));
    assert held[..1] == [held[0]];
    EmitsLast(u, [held[0]], s.w.emitted);
    StepKeeps(u, EmitOk);
    StepKeeps(Apply(u, EmitOk), SaveOk);
  }

  lemma RoundUnfold(s: State)
    ensures From(s, ROUND) == Apply(Apply(Apply(s, PollOk(1)), EmitOk), SaveOk)
  {
    assert ROUND[1..] == [EmitOk, SaveOk] && ROUND[1..][1..] == [SaveOk];
    FromOne(Apply(Apply(s, PollOk(1)), EmitOk), SaveOk);
  }

  /** The next poll after the round drops what the round emitted. */
  lemma NextHeld(held: seq<int>, j: nat) returns (i: nat)
    requires Increasing(held) && 0 < j < |held| && held[0] >= 0
    ensures i < j && i < |Confirmed(held, held[0] + 1)| && Confirmed(held, held[0] + 1)[i] == held[j]
  {
    var next := Confirmed(held, held[0] + 1);
    ConfirmDrops(held, held[0] + 1);
    var k := |held| - |next|;
    assert held[j] >= held[0] + 1;
    var first := held[0];
    assert first < first + 1 ==> k > 0;
    i := j - k;
  }

  predicate Gains(before: seq<int>, after: seq<int>, x: int) { exists k | |before| <= k < |after| :: after[k] == x }

  /** Rounds of one update each bring every id the server holds at or above the offset. */
  lemma {:induction false} Reaches(s: State, held: seq<int>, j: nat) returns (more: seq<Choice>)
    requires Inv(s) && s.phase.Polling? && held == Confirmed(s.w.pending, s.offset) && j < |held|
    ensures LoadsWork(more) && s.w.emitted <= From(s, more).w.emitted && Gains(s.w.emitted, From(s, more).w.emitted, held[j])
    decreases j
  {
    var t := From(s, ROUND);
    OneRound(s, held, t);
    if j == 0 {
      more := ROUND;
      assert t.w.emitted[|s.w.emitted|] == held[0];
    } else {
      PendingPositive(t.w);
      var i := NextHeld(held, j);
      var rest := Reaches(t, Confirmed(held, held[0] + 1), i);
      more := ROUND + rest;
      FromAppend(s, ROUND, rest);
      GainsMore(s.w.emitted, t.w.emitted, From(t, rest).w.emitted, held[j]);
    }
  }

  lemma GainsMore(a: seq<int>, b: seq<int>, c: seq<int>, x: int)
    requires a <= b <= c && Gains(b, c, x)
    ensures Gains(a, c, x)
  {
    var k :| |b| <= k < |c| && c[k] == x;
    assert c[k] == x;
  }

  /* ---------- The exact condition ---------- */

  /** From `before` to `after` no id came that had been there. */
  predicate NoneNew(before: seq<int>, after: seq<int>) {
    |before| <= |after| && forall i, j | 0 <= i < |before| && |before| <= j < |after| :: before[i] != after[j]
  }

  /** The continuation emits no id that the run had emitted. */
  predicate NoneAgain(script: seq<Choice>, more: seq<Choice>) {
    NoneNew(Run(script).w.emitted, Run(script + more).w.emitted)
  }

  /** None of these lies above the last one. */
  predicate LastHighest(ids: seq<int>) { forall i | 0 <= i < |ids| :: ids[i] <= ids[|ids| - 1] }

  /** Behind a save that worked. */
  ghost predicate Behind(t: State) {
    && Inv(t) && t.phase.Polling? && t.w.emitted != [] && FromHistory(t.w)
    && var last := t.w.emitted[|t.w.emitted| - 1];
       t.offset == last + 1 && t.w.saved == Some(last + 1) && Held(t.w.pending, last)
  }

  lemma SaveIsBehind(s: State, t: State)
    requires Inv(t) && t == Apply(s, SaveOk) && s.phase.Saving? && PastLast(s) && HoldsLast(s) && FromHistory(t.w)
    ensures Behind(t)
  {
    assert t == State(s.w.(saved := Some(s.offset)), Polling, s.offset);
    assert t.w.pending == s.w.pending && t.w.emitted == s.w.emitted;
  }

  lemma SavedBehind(script: seq<Choice>, m: nat, n: nat, s: State, t: State)
    requires n == m + 1 == |script| && SavesAt(script, m)
    requires s == Steps(FRESH, script, 0, m) && t == Steps(FRESH, script, 0, n)
    ensures Behind(t)
  {
    assert t == Apply(s, SaveOk);
    StepsKeep(script, n);
    RunPastLast(script, m);
    RunHoldsLast(script, m);
    RunFromHistory(script, n);
    SaveIsBehind(s, t);
  }

  /** An id above the last one emitted before the save comes again in some continuation. */
  lemma HigherComesAgain(t: State, i: nat) returns (more: seq<Choice>)
    requires Behind(t) && i < |t.w.emitted| && t.w.emitted[i] > t.w.emitted[|t.w.emitted| - 1]
    ensures LoadsWork(more) && !NoneNew(t.w.emitted, From(t, more).w.emitted)
  {
    var x := t.w.emitted[i];
    HigherIsHeld(t.w, t.w.emitted[|t.w.emitted| - 1], x);
    PendingPositive(t.w);
    var held := Confirmed(t.w.pending, t.offset);
    ConfirmedHolds(t.w.pending, t.offset, x);
    var j :| 0 <= j < |held| && held[j] == x;
    more := Reaches(t, held, j);
    GainsAgain(t.w.emitted, From(t, more).w.emitted, i);
  }

  lemma GainsAgain(before: seq<int>, after: seq<int>, i: nat)
    requires i < |before| && Gains(before, after, before[i])
    ensures !NoneNew(before, after)
  {
    var k :| |before| <= k < |after| && after[k] == before[i];
  }

  lemma NoneComesAgain(t: State, more: seq<Choice>)
    requires Behind(t) && LastHighest(t.w.emitted) && LoadsWork(more)
    ensures NoneNew(t.w.emitted, From(t, more).w.emitted)
  {
    var c, last := |t.w.emitted|, t.w.emitted[|t.w.emitted| - 1];
    FromBeyond(t, more, last + 1, c);
    FromGrows(t, more);
    AboveAreNew(t.w.emitted, From(t, more).w.emitted, last);
  }

  lemma AboveAreNew(before: seq<int>, after: seq<int>, last: int)
    requires before <= after && (forall i | 0 <= i < |before| :: before[i] <= last)
    requires forall j | |before| <= j < |after| :: after[j] >= last + 1
    ensures NoneNew(before, after)
  {
  }

  lemma {:induction false} FromGrows(s: State, more: seq<Choice>)
    ensures s.w.emitted <= From(s, more).w.emitted
    decreases |more|
  {
    if more != [] {
      FromGrows(Apply(s, more[0]), more[1..]);
    }
  }

  /** After a save that worked, no continuation whose loads work emits an id emitted before, if and only if none of
      these lies above the last one. */
  lemma RepeatsExactly(script: seq<Choice>, m: nat)
    requires |script| == m + 1 && SavesAt(script, m)
    ensures (forall more | LoadsWork(more) :: NoneAgain(script, more)) <==> LastHighest(Run(script).w.emitted)
  {
    var t := Run(script);
    SavedBehind(script, m, |script|, Steps(FRESH, script, 0, m), t);
    if LastHighest(t.w.emitted) {
      forall more | LoadsWork(more)
        ensures NoneAgain(script, more)
      {
        NoneComesAgain(t, more);
        RunContinues(script, more);
      }
    } else {
      var i :| 0 <= i < |t.w.emitted| && t.w.emitted[i] > t.w.emitted[|t.w.emitted| - 1];
      var more := HigherComesAgain(t, i);
      RunContinues(script, more);
      assert LoadsWork(more) && !NoneAgain(script, more);
    }
  }
}
