/** What the Matrix trigger's persisted token is for: where a subscription goes on after the process died. */
module MatrixResume {
  import opened Wrappers
  import opened Matrix
  import opened MatrixRuns
  import opened MatrixFilter

  /* ---------- The token never moves back ---------- */

  /** The tokens are positions of the log, and no subscription works from before the persisted one. */
  predicate Tokens(s: State) {
    && (s.saved.Some? ==> s.saved.value <= |s.log|)
    && (s.alive ==> s.cursor <= |s.log| && (s.saved.Some? ==> s.saved.value <= s.cursor))
  }

  lemma TokenStep(s: State, c: Choice, kinds: seq<string>)
    requires Tokens(s)
    ensures var t := Apply(s, c, kinds);
            Tokens(t) && (s.saved.Some? ==> t.saved.Some? && s.saved.value <= t.saved.value)
  {
  }

  lemma {:induction false} TokensKept(script: seq<Choice>, kinds: seq<string>, n: nat)
    requires n <= |script|
    ensures Tokens(Steps(script, kinds, n))
  {
    if n > 0 {
      TokensKept(script, kinds, n - 1);
      TokenStep(Steps(script, kinds, n - 1), script[n - 1], kinds);
    }
  }

  /** Event e is in the log at position `from` or behind it. */
  ghost predicate Behind(log: seq<Event>, e: Event, from: nat) { exists p | from <= p < |log| :: log[p] == e }

  /** From s on, whatever was emitted stood in the log at `from` or behind it, and the token is there too. */
  ghost predicate OnlyBehind(emitted0: seq<Event>, s: State, from: nat) {
    && emitted0 <= s.emitted && s.saved.Some? && from <= s.saved.value
    && forall k | |emitted0| <= k < |s.emitted| :: Behind(s.log, s.emitted[k], from)
  }

  lemma SyncBehind(emitted0: seq<Event>, s: State, rooms: seq<string>, kinds: seq<string>, fate: Fate, from: nat)
    requires OnlyBehind(emitted0, s, from) && CanSync(s, rooms) && from <= s.cursor
    ensures forall k | |emitted0| <= k < |Synced(s, rooms, kinds, fate).emitted| ::
              Behind(s.log, Synced(s, rooms, kinds, fate).emitted[k], from)
  {
    var t, events := Synced(s, rooms, kinds, fate), s.log[s.cursor..];
    var out := Emissions(events, rooms, kinds);
    forall k | |s.emitted| <= k < |t.emitted|
      ensures Behind(s.log, t.emitted[k], from)
    {
      var e := out[k - |s.emitted|];
      EmittedIsFiltered(events, rooms, kinds, e);
      var q :| 0 <= q < |events| && events[q] == e;
      assert s.log[s.cursor + q] == e;
    }
  }

  lemma StepBehind(emitted0: seq<Event>, s: State, c: Choice, kinds: seq<string>, from: nat)
    requires OnlyBehind(emitted0, s, from) && Tokens(s)
    ensures OnlyBehind(emitted0, Apply(s, c, kinds), from)
  {
    TokenStep(s, c, kinds);
    match c {
      case Append(e) =>
        forall k | |emitted0| <= k < |s.emitted|
          ensures Behind(s.log + [e], s.emitted[k], from)
        {
          assert Behind(s.log, s.emitted[k], from);
          var p :| from <= p < |s.log| && s.log[p] == s.emitted[k];
          assert (s.log + [e])[p] == s.emitted[k];
        }
      case Sync(rooms, fate) =>
        if CanSync(s, rooms) {
          SyncBehind(emitted0, s, rooms, kinds, fate, from);
        }
      case _ =>
    }
  }

  /** In every run, whatever fails and dies: once a token is persisted, nothing that stands before it in the log is
      ever emitted again, and the token never moves back. */
  lemma {:induction false} NothingBeforeToken(script: seq<Choice>, kinds: seq<string>, m: nat, n: nat, token: nat)
    requires m <= n <= |script| && Steps(script, kinds, m).saved == Some(token)
    ensures OnlyBehind(Steps(script, kinds, m).emitted, Steps(script, kinds, n), token)
  {
    if m < n {
      NothingBeforeToken(script, kinds, m, n - 1, token);
      TokensKept(script, kinds, n - 1);
      StepBehind(Steps(script, kinds, m).emitted, Steps(script, kinds, n - 1), script[n - 1], kinds, token);
    }
  }

  /** A subscription that starts with a token goes on exactly there. Without one, or when it fails to load, it starts
      behind everything the server holds; when the seed request fails too, it does not start. */
  lemma StartsAt(script: seq<Choice>, kinds: seq<string>, k: nat, n: nat)
    requires n == k + 1 <= |script| && script[k].Start? && !Steps(script, kinds, k).alive
    ensures var s, t, c := Steps(script, kinds, k), Steps(script, kinds, n), script[k];
            && t.emitted == s.emitted && t.log == s.log
            && (s.saved.Some? && !c.loadFails ==> t.alive && t.cursor == s.saved.value && t.saved == s.saved)
            && ((s.saved == None || c.loadFails) && c.seedFails ==> t == s)
            && ((s.saved == None || c.loadFails) && !c.seedFails ==>
                  t.alive && t.cursor == |s.log| && t.saved == if c.saves then Some(|s.log|) else s.saved)
  {
  }

  /* ---------- Deaths between syncs: still exactly once ---------- */

  /** Loads, saves and emits work; the process may die between them. */
  predicate Clean(c: Choice) {
    (c.Start? ==> !c.loadFails) && (c.Sync? ==> c.fate == Completes(true))
  }

  /** Emitted since some point: exactly the passing events from there to the persisted token. */
  ghost predicate OnceToToken(s: State, kinds: seq<string>, from: nat, emitted0: seq<Event>) {
    && s.saved.Some? && from <= s.saved.value <= |s.log| && (s.alive ==> s.cursor == s.saved.value)
    && emitted0 <= s.emitted
    && multiset(s.emitted[|emitted0|..]) == multiset(Passing(s.log[from..s.saved.value], kinds))
  }

  lemma CleanStep(s: State, kinds: seq<string>, from: nat, emitted0: seq<Event>, c: Choice)
    requires OnceToToken(s, kinds, from, emitted0) && Clean(c)
    ensures OnceToToken(Apply(s, c, kinds), kinds, from, emitted0)
  {
    match c {
      case Append(e) =>
        assert (s.log + [e])[from..s.saved.value] == s.log[from..s.saved.value];
      case Sync(rooms, fate) =>
        if CanSync(s, rooms) {
          SmoothSync(s, kinds, from, emitted0, rooms, true);
        }
      case _ =>
    }
  }

  lemma {:induction false} CleanSteps(s: State, script: seq<Choice>, kinds: seq<string>, n: nat)
    requires s.alive && s.cursor <= |s.log| && s.saved == Some(s.cursor)
    requires n <= |script| && forall k | 0 <= k < n :: Clean(script[k])
    ensures OnceToToken(Run(s, script, kinds, n), kinds, s.cursor, s.emitted)
  {
    if n == 0 {
      assert s.log[s.cursor..s.cursor] == [] && s.emitted[|s.emitted|..] == [];
    } else {
      CleanSteps(s, script, kinds, n - 1);
      CleanStep(Run(s, script, kinds, n - 1), kinds, s.cursor, s.emitted, script[n - 1]);
    }
  }

  /** Exactly once across restarts: while loads, saves and emits work, whatever deaths and restarts there are, each
      event between the token at the outset and the token now is emitted as often as it stands there if its kind is
      asked for, and nothing else is. */
  lemma CleanRunsEmitOnce(s: State, script: seq<Choice>, kinds: seq<string>, e: Event)
    requires s.alive && s.cursor <= |s.log| && s.saved == Some(s.cursor) && forall k | 0 <= k < |script| :: Clean(script[k])
    ensures var t := Run(s, script, kinds, |script|);
            && t.saved.Some? && s.cursor <= t.saved.value <= |t.log| && s.emitted <= t.emitted
            && multiset(t.emitted[|s.emitted|..])[e] ==
                 if kinds == [] || e.kind in kinds then multiset(t.log[s.cursor..t.saved.value])[e] else 0
  {
    var t := Run(s, script, kinds, |script|);
    CleanSteps(s, script, kinds, |script|);
    PassingMeans(t.log[s.cursor..t.saved.value], kinds, e);
  }
}
