/** What the Matrix sync loop guarantees over all runs. */
module MatrixRuns {
  import opened Wrappers
  import opened Matrix

  /* ---------- One response is emitted completely, room by room in order ---------- */

  lemma {:induction false} PassingAppend(a: seq<Event>, b: seq<Event>, kinds: seq<string>)
    ensures Passing(a + b, kinds) == Passing(a, kinds) + Passing(b, kinds)
  {
    if b == [] {
      assert a + b == a;
    } else {
      assert (a + b)[..|a + b| - 1] == a + b[..|b| - 1];
      PassingAppend(a, b[..|b| - 1], kinds);
    }
  }

  lemma {:induction false} TimelineAppend(a: seq<Event>, b: seq<Event>, room: string)
    ensures Timeline(a + b, room) == Timeline(a, room) + Timeline(b, room)
  {
    if b == [] {
      assert a + b == a;
    } else {
      assert (a + b)[..|a + b| - 1] == a + b[..|b| - 1];
      TimelineAppend(a, b[..|b| - 1], room);
    }
  }

  /** The passing events of one room's timeline are the room's part of the passing events. */
  lemma {:induction false} PassingTimeline(events: seq<Event>, room: string, kinds: seq<string>)
    ensures Passing(Timeline(events, room), kinds) == Timeline(Passing(events, kinds), room)
  {
    if events != [] {
      var front, e := events[..|events| - 1], events[|events| - 1];
      PassingTimeline(front, room, kinds);
      PassingAppend(Timeline(front, room), if e.room == room then [e] else [], kinds);
      TimelineAppend(Passing(front, kinds), if Passes(e, kinds) then [e] else [], room);
      assert [e][..0] == [];
    }
  }

  lemma {:induction false} TimelineOfTimeline(events: seq<Event>, room: string, other: string)
    ensures Timeline(Timeline(events, room), other) == if room == other then Timeline(events, room) else []
  {
    if events != [] {
      var front, e := events[..|events| - 1], events[|events| - 1];
      TimelineOfTimeline(front, room, other);
      TimelineAppend(Timeline(front, room), if e.room == room then [e] else [], other);
      assert [e][..0] == [];
    }
  }

  lemma LastRoom(rooms: seq<string>, room: string)
    requires rooms != [] && forall i, j | 0 <= i < j < |rooms| :: rooms[i] != rooms[j]
    ensures var front, last := rooms[..|rooms| - 1], rooms[|rooms| - 1];
            (room in rooms <==> room in front || room == last) && last !in front
  {
    var front, last := rooms[..|rooms| - 1], rooms[|rooms| - 1];
    assert rooms == front + [last];
  }

  /** Within one response each room's events come in timeline order: the room's part of what is
      emitted is the room's part of the passing events, as a sequence. */
  lemma {:induction false} RoomOrder(events: seq<Event>, rooms: seq<string>, kinds: seq<string>, room: string)
    requires forall i, j | 0 <= i < j < |rooms| :: rooms[i] != rooms[j]
    ensures Timeline(Emissions(events, rooms, kinds), room) ==
              if room in rooms then Timeline(Passing(events, kinds), room) else []
  {
    if rooms != [] {
      var front, last := rooms[..|rooms| - 1], rooms[|rooms| - 1];
      var a, b := Emissions(events, front, kinds), Passing(Timeline(events, last), kinds);
      RoomOrder(events, front, kinds, room);
      TimelineAppend(a, b, room);
      PassingTimeline(events, last, kinds);
      TimelineOfTimeline(Passing(events, kinds), last, room);
      LastRoom(rooms, room);
    }
  }

  lemma {:induction false} PassingMembers(events: seq<Event>, kinds: seq<string>, i: nat)
    requires i < |events| && Passes(events[i], kinds)
    ensures events[i] in Passing(events, kinds)
  {
    if i < |events| - 1 {
      PassingMembers(events[..|events| - 1], kinds, i);
    }
  }

  lemma {:induction false} TimelineMembers(events: seq<Event>, e: Event)
    ensures e in events <==> e in Timeline(events, e.room)
  {
    if events != [] {
      TimelineMembers(events[..|events| - 1], e);
      assert events == events[..|events| - 1] + [events[|events| - 1]];
    }
  }

  /** Every passing event of a response is emitted. */
  lemma AllEmitted(events: seq<Event>, rooms: seq<string>, kinds: seq<string>, i: nat)
    requires Visits(events, rooms) && i < |events| && Passes(events[i], kinds)
    ensures events[i] in Emissions(events, rooms, kinds)
  {
    PassingMembers(events, kinds, i);
    TimelineMembers(Passing(events, kinds), events[i]);
    RoomOrder(events, rooms, kinds, events[i].room);
    TimelineMembers(Emissions(events, rooms, kinds), events[i]);
  }

  /* ---------- Runs ---------- */

  /** Every passing event between two positions of the log has been emitted. */
  ghost predicate Covered(s: State, kinds: seq<string>, from: nat, to: nat) {
    forall p | from <= p < to && p < |s.log| && Passes(s.log[p], kinds) :: s.log[p] in s.emitted
  }

  /** base: the first token ever persisted. The persisted token is never ahead of what was emitted. */
  ghost predicate Inv(s: State, base: Option<nat>, kinds: seq<string>) {
    && (s.saved.Some? <==> base.Some?)
    && (s.alive ==> s.cursor <= |s.log|)
    && (base.Some? ==>
          && base.value <= s.saved.value <= |s.log| && Covered(s, kinds, base.value, s.saved.value)
          && (s.alive ==> s.saved.value <= s.cursor && Covered(s, kinds, base.value, s.cursor)))
  }

  /** A choice that does not seed afresh past a persisted token it failed to load, unless every passing
      event from that token on had been emitted before. */
  ghost predicate Harmless(s: State, c: Choice, kinds: seq<string>) {
    c.Start? && !s.alive && c.loadFails && !c.seedFails && s.saved.Some? ==> Covered(s, kinds, s.saved.value, |s.log|)
  }

  function Based(base: Option<nat>, s: State): Option<nat> {
    if base.Some? then base else s.saved
  }

  /** A completed sync covers everything up to the end of the log. */
  lemma SyncCovers(s: State, rooms: seq<string>, kinds: seq<string>, saved: bool, from: nat)
    requires CanSync(s, rooms) && from <= s.cursor && Covered(s, kinds, from, s.cursor)
    ensures Covered(Synced(s, rooms, kinds, Completes(saved)), kinds, from, |s.log|)
  {
    var t, events := Synced(s, rooms, kinds, Completes(saved)), s.log[s.cursor..];
    forall p | s.cursor <= p < |s.log| && Passes(s.log[p], kinds)
      ensures s.log[p] in t.emitted
    {
      assert events[p - s.cursor] == s.log[p];
      AllEmitted(events, rooms, kinds, p - s.cursor);
    }
  }

  lemma SyncKeeps(s: State, base: Option<nat>, rooms: seq<string>, kinds: seq<string>, fate: Fate)
    requires Inv(s, base, kinds) && CanSync(s, rooms)
    ensures Inv(Synced(s, rooms, kinds, fate), Based(base, Synced(s, rooms, kinds, fate)), kinds)
  {
    if fate.Completes? && base.Some? {
      SyncCovers(s, rooms, kinds, fate.saved, base.value);
    }
  }

  lemma CoveredJoin(s: State, kinds: seq<string>, from: nat, mid: nat, to: nat)
    requires from <= mid <= to
    ensures Covered(s, kinds, from, to) <==> Covered(s, kinds, from, mid) && Covered(s, kinds, mid, to)
  {
  }

  /** A start keeps the tokens behind what was emitted exactly when it is harmless. */
  lemma StartCovers(s: State, base: Option<nat>, c: Choice, kinds: seq<string>)
    requires Inv(s, base, kinds) && c.Start?
    ensures Inv(Apply(s, c, kinds), Based(base, Apply(s, c, kinds)), kinds) <==> Harmless(s, c, kinds)
  {
    if !s.alive && c.loadFails && !c.seedFails && s.saved.Some? {
      CoveredJoin(s, kinds, base.value, s.saved.value, |s.log|);
      var t := Apply(s, c, kinds);
      assert Covered(t, kinds, base.value, |s.log|) <==> Covered(s, kinds, base.value, |s.log|);
    }
  }

  /** One step keeps the tokens behind what was emitted exactly when it is harmless. */
  lemma StepCovers(s: State, base: Option<nat>, c: Choice, kinds: seq<string>)
    requires Inv(s, base, kinds)
    ensures Inv(Apply(s, c, kinds), Based(base, Apply(s, c, kinds)), kinds) <==> Harmless(s, c, kinds)
  {
    match c {
      case Start(_, _, _) => StartCovers(s, base, c, kinds);
      case Sync(rooms, fate) =>
        if CanSync(s, rooms) {
          SyncKeeps(s, base, rooms, kinds, fate);
        }
      case _ =>
    }
  }

  function BaseOf(script: seq<Choice>, kinds: seq<string>, n: nat): Option<nat>
    requires n <= |script|
  {
    if n == 0 then None else Based(BaseOf(script, kinds, n - 1), Steps(script, kinds, n))
  }

  ghost predicate InvAt(script: seq<Choice>, kinds: seq<string>, k: nat)
    requires k <= |script|
  {
    Inv(Steps(script, kinds, k), BaseOf(script, kinds, k), kinds)
  }

  ghost predicate HarmlessAt(script: seq<Choice>, kinds: seq<string>, k: nat)
    requires k < |script|
  {
    Harmless(Steps(script, kinds, k), script[k], kinds)
  }

  /** In every run, with any failing loads, seeds, emits, saves and syncs and any deaths: neither token is
      ever ahead of what was emitted exactly when every step is harmless. */
  lemma {:induction false} NoLossExactly(script: seq<Choice>, kinds: seq<string>, n: nat)
    requires n <= |script|
    ensures (forall k | 0 <= k <= n :: InvAt(script, kinds, k)) <==> (forall k | 0 <= k < n :: HarmlessAt(script, kinds, k))
  {
    if n == 0 {
      assert InvAt(script, kinds, 0);
    } else {
      var m := n - 1;
      NoLossExactly(script, kinds, m);
      if InvAt(script, kinds, m) {
        StepCovers(Steps(script, kinds, m), BaseOf(script, kinds, m), script[m], kinds);
        assert InvAt(script, kinds, n) <==> HarmlessAt(script, kinds, m);
      }
    }
  }

  /** At least once: in every harmless run, each passing event between the first persisted token and the
      current one has been emitted. */
  lemma AtLeastOnce(script: seq<Choice>, kinds: seq<string>, p: nat)
    requires forall k | 0 <= k < |script| :: HarmlessAt(script, kinds, k)
    requires BaseOf(script, kinds, |script|).Some? && Steps(script, kinds, |script|).saved.Some?
    requires BaseOf(script, kinds, |script|).value <= p < Steps(script, kinds, |script|).saved.value
    ensures var s := Steps(script, kinds, |script|);
            p < |s.log| && (Passes(s.log[p], kinds) ==> s.log[p] in s.emitted)
  {
    NoLossExactly(script, kinds, |script|);
    assert InvAt(script, kinds, |script|);
  }

  /** A harmful start exists: a token that fails to load is taken for a new instance, and the event between
      the persisted token and the end of the log is passed over. */
  lemma LoadErrorSkips(e: Event)
    ensures var script := [Start(false, false, true), Append(e), Dies, Start(true, false, true)];
            !HarmlessAt(script, [], 3) && Steps(script, [], 4).saved == Some(1) && Steps(script, [], 4).emitted == []
  {
    var script := [Start(false, false, true), Append(e), Dies, Start(true, false, true)];
    assert Steps(script, [], 1) == State([], Some(0), [], true, 0);
    assert Steps(script, [], 2) == State([e], Some(0), [], true, 0);
    assert Steps(script, [], 3) == State([e], Some(0), [], false, 0);
    assert Passes(Steps(script, [], 3).log[0], []);
  }

  /* ---------- Runs without failures: exactly once ---------- */

  lemma {:induction false} MultisetSplit(events: seq<Event>, rooms: seq<string>, room: string)
    requires room !in rooms
    ensures multiset(InRooms(events, rooms + [room])) == multiset(InRooms(events, rooms)) + multiset(Timeline(events, room))
  {
    if events != [] {
      var front, e := events[..|events| - 1], events[|events| - 1];
      MultisetSplit(front, rooms, room);
      assert e.room in rooms + [room] <==> e.room in rooms || e.room == room;
      var one: seq<Event>, none: seq<Event> := [e], [];
      assert multiset(InRooms(events, rooms)) ==
               multiset(InRooms(front, rooms)) + multiset(if e.room in rooms then one else none);
      assert multiset(Timeline(events, room)) ==
               multiset(Timeline(front, room)) + multiset(if e.room == room then one else none);
    }
  }

  /** The events of the given rooms. */
  function InRooms(events: seq<Event>, rooms: seq<string>): seq<Event> {
    if events == [] then []
    else InRooms(events[..|events| - 1], rooms) +
         if events[|events| - 1].room in rooms then [events[|events| - 1]] else []
  }

  /** One more room. */
  lemma RoomMultiset(emitted: seq<Event>, passing: seq<Event>, front: seq<string>, last: string)
    requires multiset(emitted) == multiset(InRooms(passing, front)) && last !in front
    ensures multiset(emitted + Timeline(passing, last)) == multiset(InRooms(passing, front + [last]))
  {
    MultisetSplit(passing, front, last);
  }

  lemma {:induction false} EmissionsMultiset(events: seq<Event>, rooms: seq<string>, kinds: seq<string>)
    requires forall i, j | 0 <= i < j < |rooms| :: rooms[i] != rooms[j]
    ensures multiset(Emissions(events, rooms, kinds)) == multiset(InRooms(Passing(events, kinds), rooms))
  {
    if rooms == [] {
      NoRooms(Passing(events, kinds));
    } else {
      var front, last := rooms[..|rooms| - 1], rooms[|rooms| - 1];
      EmissionsMultiset(events, front, kinds);
      PassingTimeline(events, last, kinds);
      RoomMultiset(Emissions(events, front, kinds), Passing(events, kinds), front, last);
      assert rooms == front + [last];
    }
  }

  lemma {:induction false} NoRooms(events: seq<Event>)
    ensures InRooms(events, []) == []
  {
    if events != [] {
      NoRooms(events[..|events| - 1]);
    }
  }

  lemma {:induction false} AllRooms(events: seq<Event>, rooms: seq<string>, kinds: seq<string>)
    requires forall i | 0 <= i < |events| :: events[i].room in rooms
    ensures InRooms(Passing(events, kinds), rooms) == Passing(events, kinds)
  {
    if events != [] {
      var front, e := events[..|events| - 1], events[|events| - 1];
      AllRooms(front, rooms, kinds);
      var passing := Passing(front, kinds);
      if Passes(e, kinds) {
        assert (passing + [e])[..|passing|] == passing;
      } else {
        assert Passing(events, kinds) == passing + [] == passing;
      }
    }
  }

  /** One response, whatever the order of its rooms, emits exactly its passing events. */
  lemma ResponseEmittedOnce(events: seq<Event>, rooms: seq<string>, kinds: seq<string>)
    requires Visits(events, rooms)
    ensures multiset(Emissions(events, rooms, kinds)) == multiset(Passing(events, kinds))
  {
    EmissionsMultiset(events, rooms, kinds);
    AllRooms(events, rooms, kinds);
  }

  predicate Smooth(c: Choice) { !c.Dies? && (c.Sync? ==> c.fate.Completes?) }

  /** Once an incarnation lives, and without failures, what was emitted since some point is, up to the
      order of rooms within responses, exactly the passing events from there to the cursor. */
  ghost predicate ExactlySince(s: State, kinds: seq<string>, from: nat, emitted0: seq<Event>) {
    && s.alive && from <= s.cursor <= |s.log|
    && emitted0 <= s.emitted
    && multiset(s.emitted[|emitted0|..]) == multiset(Passing(s.log[from..s.cursor], kinds))
  }

  lemma SmoothSync(s: State, kinds: seq<string>, from: nat, emitted0: seq<Event>, rooms: seq<string>, saved: bool)
    requires ExactlySince(s, kinds, from, emitted0) && CanSync(s, rooms)
    ensures ExactlySince(Synced(s, rooms, kinds, Completes(saved)), kinds, from, emitted0)
  {
    var events, t := s.log[s.cursor..], Synced(s, rooms, kinds, Completes(saved));
    var out, before := Emissions(events, rooms, kinds), s.log[from..s.cursor];
    ResponseEmittedOnce(events, rooms, kinds);
    PassingAppend(before, events, kinds);
    SameAppend(s.emitted[|emitted0|..], out, Passing(before, kinds), Passing(events, kinds));
    CutAt(s.log, from, s.cursor);
    DropAppend(s.emitted, out, |emitted0|);
  }

  lemma CutAt(log: seq<Event>, from: nat, mid: nat)
    requires from <= mid <= |log|
    ensures log[from..mid] + log[mid..] == log[from..|log|]
  {
  }

  lemma SameAppend(a: seq<Event>, b: seq<Event>, c: seq<Event>, d: seq<Event>)
    requires multiset(a) == multiset(c) && multiset(b) == multiset(d)
    ensures multiset(a + b) == multiset(c + d)
  {
  }

  lemma DropAppend(a: seq<Event>, b: seq<Event>, n: nat)
    requires n <= |a|
    ensures (a + b)[n..] == a[n..] + b
    ensures a[..n] == (a + b)[..n]
  {
  }

  lemma SmoothStep(s: State, kinds: seq<string>, from: nat, emitted0: seq<Event>, c: Choice)
    requires ExactlySince(s, kinds, from, emitted0) && Smooth(c)
    ensures ExactlySince(Apply(s, c, kinds), kinds, from, emitted0)
  {
    match c {
      case Append(e) =>
        assert (s.log + [e])[from..s.cursor] == s.log[from..s.cursor];
      case Sync(rooms, fate) =>
        if CanSync(s, rooms) {
          SmoothSync(s, kinds, from, emitted0, rooms, fate.saved);
        }
      case _ =>
    }
  }

  function Run(s: State, script: seq<Choice>, kinds: seq<string>, n: nat): State
    requires n <= |script|
  {
    if n == 0 then s else Apply(Run(s, script, kinds, n - 1), script[n - 1], kinds)
  }

  /** Exactly once: from any live state, a failure-free continuation emits exactly the passing events
      between the old and the new cursor. */
  lemma {:induction false} SmoothRunsEmitOnce(s: State, script: seq<Choice>, kinds: seq<string>, n: nat)
    requires s.alive && s.cursor <= |s.log| && n <= |script| && forall k | 0 <= k < n :: Smooth(script[k])
    ensures ExactlySince(Run(s, script, kinds, n), kinds, s.cursor, s.emitted)
  {
    if n == 0 {
      assert s.log[s.cursor..s.cursor] == [] && s.emitted[|s.emitted|..] == [];
    } else {
      SmoothRunsEmitOnce(s, script, kinds, n - 1);
      SmoothStep(Run(s, script, kinds, n - 1), kinds, s.cursor, s.emitted, script[n - 1]);
    }
  }
}
