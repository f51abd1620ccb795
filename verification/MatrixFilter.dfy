/** What the type filter of the Matrix trigger lets through, in terms of the events' own fields. */
module MatrixFilter {
  import opened Wrappers
  import opened Matrix
  import opened MatrixRuns

  /* ---------- One response ---------- */

  /** An event passes as often as it occurs if the filter is empty or names its kind, and never otherwise. */
  lemma {:induction false} PassingMeans(events: seq<Event>, kinds: seq<string>, e: Event)
    ensures multiset(Passing(events, kinds))[e] ==
              if kinds == [] || e.kind in kinds then multiset(events)[e] else 0
  {
    if events != [] {
      var front, last := events[..|events| - 1], events[|events| - 1];
      PassingMeans(front, kinds, e);
      assert events == front + [last];
      assert Passing(events, kinds) == Passing(front, kinds) + if Passes(last, kinds) then [last] else [];
      if Passes(last, kinds) {
        assert multiset(Passing(front, kinds) + [last]) == multiset(Passing(front, kinds)) + multiset{last};
      }
    }
  }

  /** A response emits each of its events as often as it occurs there if the filter is empty or names its kind,
      and never otherwise. */
  lemma EmissionsMean(events: seq<Event>, rooms: seq<string>, kinds: seq<string>, e: Event)
    requires Visits(events, rooms)
    ensures multiset(Emissions(events, rooms, kinds))[e] ==
              if kinds == [] || e.kind in kinds then multiset(events)[e] else 0
  {
    ResponseEmittedOnce(events, rooms, kinds);
    PassingMeans(events, kinds, e);
  }

  /** The events of one room, by their positions, in order. */
  lemma {:induction false} TimelineMeans(events: seq<Event>, room: string) returns (at: seq<nat>)
    ensures |at| == |Timeline(events, room)|
    ensures forall k | 0 <= k < |at| :: at[k] < |events| && events[at[k]] == Timeline(events, room)[k]
                                      && events[at[k]].room == room
    ensures forall j, k | 0 <= j < k < |at| :: at[j] < at[k]
    ensures forall i | 0 <= i < |events| && events[i].room == room :: i in at
  {
    if events == [] {
      at := [];
    } else {
      var front, last := events[..|events| - 1], events[|events| - 1];
      at := TimelineMeans(front, room);
      if last.room == room {
        at := at + [|front|];
      }
    }
  }

  /** A complete response, whatever the order of its rooms, adds exactly the events whose kind is asked for. */
  method EmitResponse(events: seq<Event>, rooms: seq<string>, kinds: seq<string>, emitted0: seq<Event>)
    returns (emitted: seq<Event>)
    requires Visits(events, rooms)
    ensures emitted0 <= emitted
    ensures forall e :: multiset(emitted[|emitted0|..])[e] ==
              if kinds == [] || e.kind in kinds then multiset(events)[e] else 0
  {
    var ok;
    emitted, ok := EmitAll(events, rooms, kinds, emitted0, Completes(true));
    assert emitted[|emitted0|..] == Emissions(events, rooms, kinds);
    forall e
      ensures multiset(emitted[|emitted0|..])[e] == if kinds == [] || e.kind in kinds then multiset(events)[e] else 0
    {
      EmissionsMean(events, rooms, kinds, e);
    }
  }

  /* ---------- Runs ---------- */

  /** Every emitted event is one of the server's, and of a kind asked for. */
  ghost predicate Filtered(s: State, kinds: seq<string>) {
    forall k | 0 <= k < |s.emitted| :: s.emitted[k] in s.log && (kinds == [] || s.emitted[k].kind in kinds)
  }

  lemma EmittedIsFiltered(events: seq<Event>, rooms: seq<string>, kinds: seq<string>, e: Event)
    requires Visits(events, rooms) && e in Emissions(events, rooms, kinds)
    ensures e in events && (kinds == [] || e.kind in kinds)
  {
    EmissionsMean(events, rooms, kinds, e);
    assert multiset(Emissions(events, rooms, kinds))[e] > 0;
    assert multiset(events)[e] > 0;
  }

  lemma SyncFiltered(s: State, rooms: seq<string>, kinds: seq<string>, fate: Fate)
    requires CanSync(s, rooms) && Filtered(s, kinds)
    ensures Filtered(Synced(s, rooms, kinds, fate), kinds)
  {
    var t, events := Synced(s, rooms, kinds, fate), s.log[s.cursor..];
    var out := Emissions(events, rooms, kinds);
    forall k | |s.emitted| <= k < |t.emitted|
      ensures t.emitted[k] in s.log && (kinds == [] || t.emitted[k].kind in kinds)
    {
      assert t.emitted[k] == out[k - |s.emitted|];
      EmittedIsFiltered(events, rooms, kinds, out[k - |s.emitted|]);
    }
  }

  lemma StepFiltered(s: State, c: Choice, kinds: seq<string>)
    requires Filtered(s, kinds)
    ensures Filtered(Apply(s, c, kinds), kinds)
  {
    match c {
      case Sync(rooms, fate) =>
        if CanSync(s, rooms) {
          SyncFiltered(s, rooms, kinds, fate);
        }
      case _ =>
    }
  }

  /** In every run, whatever fails, only events of the server's log and of a kind asked for are emitted. */
  lemma {:induction false} OnlyKindsAskedFor(script: seq<Choice>, kinds: seq<string>, n: nat)
    requires n <= |script|
    ensures Filtered(Steps(script, kinds, n), kinds)
  {
    if n > 0 {
      OnlyKindsAskedFor(script, kinds, n - 1);
      StepFiltered(Steps(script, kinds, n - 1), script[n - 1], kinds);
    }
  }

  /** In every harmless run each event of a kind asked for between the first persisted token and the current one
      has been emitted. */
  lemma EveryKindAskedFor(script: seq<Choice>, kinds: seq<string>, p: nat)
    requires forall k | 0 <= k < |script| :: HarmlessAt(script, kinds, k)
    requires BaseOf(script, kinds, |script|).Some? && Steps(script, kinds, |script|).saved.Some?
    requires BaseOf(script, kinds, |script|).value <= p < Steps(script, kinds, |script|).saved.value
    ensures var s := Steps(script, kinds, |script|);
            p < |s.log| && (kinds == [] || s.log[p].kind in kinds ==> s.log[p] in s.emitted)
  {
    AtLeastOnce(script, kinds, p);
    var e := Steps(script, kinds, |script|).log[p];
    PassingMeans([e], kinds, e);
    assert [e][..0] == [] && Passing([e], kinds) == if Passes(e, kinds) then [e] else [];
  }

  /** While nothing fails a live loop emits each event between its old and its new token as often as it occurs
      there if its kind is asked for, and never otherwise. */
  lemma SmoothCounts(s: State, script: seq<Choice>, kinds: seq<string>, n: nat, e: Event)
    requires s.alive && s.cursor <= |s.log| && n <= |script| && forall k | 0 <= k < n :: Smooth(script[k])
    ensures var t := Run(s, script, kinds, n);
            && s.cursor <= t.cursor <= |t.log| && s.emitted <= t.emitted
            && multiset(t.emitted[|s.emitted|..])[e] ==
                 if kinds == [] || e.kind in kinds then multiset(t.log[s.cursor..t.cursor])[e] else 0
  {
    SmoothRunsEmitOnce(s, script, kinds, n);
    var t := Run(s, script, kinds, n);
    PassingMeans(t.log[s.cursor..t.cursor], kinds, e);
  }
}
