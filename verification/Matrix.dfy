/** connectors/matrix/trigger.go: the sync loop with its persisted next_batch token. */
module Matrix {
  import opened Wrappers

  datatype Event = Event(room: string, id: string, kind: string)

  /** How a sync goes on after its response: to the end, with the save working or not, or the process
      (or the sink) fails after j emits. */
  datatype Fate = Completes(saved: bool) | DiesAfter(j: nat)

  /** rooms: the order in which the loop happens to visit the response's map of rooms. */
  datatype Choice = Append(e: Event) | Start(loadFails: bool, seedFails: bool, saves: bool)
                  | Dies | SyncFails | Sync(rooms: seq<string>, fate: Fate)

  /** log: the server's events in order; a token is a position in it, and timelines are unlimited.
      saved: the persisted token; cursor: the process's own token. */
  datatype State = State(log: seq<Event>, saved: Option<nat>, emitted: seq<Event>, alive: bool, cursor: nat)

  const FRESH := State([], None, [], false, 0)

  /* ---------- One response ---------- */

  predicate Passes(e: Event, kinds: seq<string>) { kinds == [] || e.kind in kinds }

  /** The timeline of one room. */
  function Timeline(events: seq<Event>, room: string): seq<Event> {
    if events == [] then []
    else Timeline(events[..|events| - 1], room) +
         if events[|events| - 1].room == room then [events[|events| - 1]] else []
  }

  function Passing(events: seq<Event>, kinds: seq<string>): seq<Event> {
    if events == [] then []
    else Passing(events[..|events| - 1], kinds) +
         if Passes(events[|events| - 1], kinds) then [events[|events| - 1]] else []
  }

  /** What a loop over the rooms in this order emits. */
  function Emissions(events: seq<Event>, rooms: seq<string>, kinds: seq<string>): seq<Event> {
    if rooms == [] then []
    else Emissions(events, rooms[..|rooms| - 1], kinds) + Passing(Timeline(events, rooms[|rooms| - 1]), kinds)
  }

  /** The rooms of a response: each once, and every room with an event. */
  predicate Visits(events: seq<Event>, rooms: seq<string>) {
    && (forall i, j | 0 <= i < j < |rooms| :: rooms[i] != rooms[j])
    && (forall i | 0 <= i < |events| :: events[i].room in rooms)
  }

  function Received(out: seq<Event>, fate: Fate): seq<Event> {
    if fate.DiesAfter? && fate.j < |out| then out[..fate.j] else out
  }

  /* ---------- Steps ---------- */

  function Synced(s: State, rooms: seq<string>, kinds: seq<string>, fate: Fate): State
    requires s.cursor <= |s.log|
  {
    var emitted := s.emitted + Received(Emissions(s.log[s.cursor..], rooms, kinds), fate);
    match fate
    case Completes(saved) =>
      s.(emitted := emitted, cursor := |s.log|, saved := if saved then Some(|s.log|) else s.saved)
    case DiesAfter(_) => s.(emitted := emitted, alive := false)
  }

  /** Subscribe's opening: resume from the persisted token, or mint one and skip the backlog. */
  function Started(s: State, loadFails: bool, seedFails: bool, saves: bool): State {
    if !loadFails && s.saved.Some? then s.(alive := true, cursor := s.saved.value)
    else if seedFails then s
    else s.(alive := true, cursor := |s.log|, saved := if saves then Some(|s.log|) else s.saved)
  }

  predicate CanSync(s: State, rooms: seq<string>) {
    s.alive && s.cursor <= |s.log| && Visits(s.log[s.cursor..], rooms)
  }

  function Apply(s: State, c: Choice, kinds: seq<string>): State {
    match c
    case Append(e) => s.(log := s.log + [e])
    case Start(loadFails, seedFails, saves) =>
      if s.alive then s else Started(s, loadFails, seedFails, saves)
    case Dies => s.(alive := false)
    case SyncFails => s
    case Sync(rooms, fate) => if CanSync(s, rooms) then Synced(s, rooms, kinds, fate) else s
  }

  function Steps(script: seq<Choice>, kinds: seq<string>, n: nat): State
    requires n <= |script|
  {
    if n == 0 then FRESH else Apply(Steps(script, kinds, n - 1), script[n - 1], kinds)
  }

  /* ---------- The loop ---------- */

  /** Lines 103-123 for one room: emit its passing events in timeline order; the process or the sink
      may fail when `left` emits have succeeded. */
  method EmitRoom(timeline: seq<Event>, kinds: seq<string>, emitted0: seq<Event>, left0: Option<nat>)
    returns (emitted: seq<Event>, left: Option<nat>, ok: bool)
    ensures var out := Passing(timeline, kinds);
            if left0.Some? && left0.value < |out|
            then !ok && emitted == emitted0 + out[..left0.value]
            else ok && emitted == emitted0 + out
                 && left == if left0.Some? then Some(left0.value - |out|) else None
  {
    emitted, left, ok := emitted0, left0, true;
    ghost var out := Passing(timeline, kinds);
    for i := 0 to |timeline|
      invariant ok && Passing(timeline[..i], kinds) <= out && emitted == emitted0 + Passing(timeline[..i], kinds)
      invariant if left0.Some? then left == Some(left0.value - |Passing(timeline[..i], kinds)|) &&
                                    left0.value >= |Passing(timeline[..i], kinds)| else left == None
    {
      var ev := timeline[i];
      PassingPrefix(timeline, kinds, i + 1);
      assert timeline[..i + 1][..i] == timeline[..i];
      if |kinds| > 0 && ev.kind !in kinds {
        continue;
      }
      if left == Some(0) {
        return emitted, left, false;
      }
      emitted := emitted + [ev];
      if left.Some? {
        left := Some(left.value - 1);
      }
    }
    assert timeline[..|timeline|] == timeline;
  }

  lemma {:induction false} PassingPrefix(events: seq<Event>, kinds: seq<string>, n: nat)
    requires n <= |events|
    ensures Passing(events[..n], kinds) <= Passing(events, kinds)
  {
    if n < |events| {
      assert events[..|events| - 1][..n] == events[..n];
      PassingPrefix(events[..|events| - 1], kinds, n);
    } else {
      assert events[..n] == events;
    }
  }

  lemma {:induction false} EmissionsPrefix(events: seq<Event>, rooms: seq<string>, kinds: seq<string>, n: nat)
    requires n <= |rooms|
    ensures Emissions(events, rooms[..n], kinds) <= Emissions(events, rooms, kinds)
  {
    if n < |rooms| {
      assert rooms[..|rooms| - 1][..n] == rooms[..n];
      EmissionsPrefix(events, rooms[..|rooms| - 1], kinds, n);
    } else {
      assert rooms[..n] == rooms;
    }
  }

  /** Visiting one more room. */
  lemma EmissionsStep(events: seq<Event>, rooms: seq<string>, kinds: seq<string>, i: nat)
    requires i < |rooms|
    ensures Emissions(events, rooms[..i + 1], kinds) ==
              Emissions(events, rooms[..i], kinds) + Passing(Timeline(events, rooms[i]), kinds)
    ensures Emissions(events, rooms[..i + 1], kinds) <= Emissions(events, rooms, kinds)
  {
    assert rooms[..i + 1][..i] == rooms[..i];
    EmissionsPrefix(events, rooms, kinds, i + 1);
  }

  /** A failure inside a room's part of the output. */
  lemma FailsWithin(emitted0: seq<Event>, all: seq<Event>, done: seq<Event>, part: seq<Event>, fate: Fate)
    requires done + part <= all && fate.DiesAfter? && |done| <= fate.j < |done| + |part|
    ensures emitted0 + Received(all, fate) == emitted0 + done + part[..fate.j - |done|]
  {
    assert all[..fate.j] == (done + part)[..fate.j] == done + part[..fate.j - |done|];
  }

  /** The emits still allowed after `done`. */
  function Left(fate: Fate, done: seq<Event>): Option<nat>
    requires fate.DiesAfter? ==> fate.j >= |done|
  {
    if fate.DiesAfter? then Some(fate.j - |done|) else None
  }

  /** The room at position i, after the rooms before it went through. */
  method VisitRoom(events: seq<Event>, rooms: seq<string>, kinds: seq<string>, i: nat, fate: Fate,
                   emitted1: seq<Event>, left1: Option<nat>, ghost emitted0: seq<Event>, ghost done: seq<Event>)
    returns (emitted: seq<Event>, left: Option<nat>, ok: bool, ghost done': seq<Event>)
    requires i < |rooms| && done == Emissions(events, rooms[..i], kinds) && emitted1 == emitted0 + done
    requires (fate.DiesAfter? ==> fate.j >= |done|) && left1 == Left(fate, done)
    ensures ok ==> done' == Emissions(events, rooms[..i + 1], kinds) && emitted == emitted0 + done'
                   && (fate.DiesAfter? ==> fate.j >= |done'|) && left == Left(fate, done')
    ensures !ok ==> fate.DiesAfter? && emitted == emitted0 + Received(Emissions(events, rooms, kinds), fate)
  {
    EmissionsStep(events, rooms, kinds, i);
    var timeline := Timeline(events, rooms[i]);
    ghost var part := Passing(timeline, kinds);
    emitted, left, ok := EmitRoom(timeline, kinds, emitted1, left1);
    done' := done + part;
    if ok {
      assert emitted0 + done + part == emitted0 + done';
    } else {
      FailsWithin(emitted0, Emissions(events, rooms, kinds), done, part, fate);
    }
  }

  /** Lines 102-124: all rooms of a response. */
  method EmitAll(events: seq<Event>, rooms: seq<string>, kinds: seq<string>, emitted0: seq<Event>, fate: Fate)
    returns (emitted: seq<Event>, ok: bool)
    ensures emitted == emitted0 + Received(Emissions(events, rooms, kinds), fate)
    ensures !ok ==> fate.DiesAfter?
  {
    emitted, ok := emitted0, true;
    var left := Left(fate, []);
    ghost var done: seq<Event> := [];
    var i := 0;
    while i < |rooms|
      invariant 0 <= i <= |rooms| && ok
      invariant done == Emissions(events, rooms[..i], kinds) && emitted == emitted0 + done
      invariant (fate.DiesAfter? ==> fate.j >= |done|) && left == Left(fate, done)
    {
      emitted, left, ok, done := VisitRoom(events, rooms, kinds, i, fate, emitted, left, emitted0, done);
      if !ok {
        return;
      }
      i := i + 1;
    }
    assert rooms[..|rooms|] == rooms;
  }

  /** Lines 88-127: one turn of the sync loop. */
  method SyncOnce(s0: State, rooms: seq<string>, kinds: seq<string>, fate: Fate) returns (s: State)
    requires s0.cursor <= |s0.log|
    ensures s == Synced(s0, rooms, kinds, fate)
  {
    var emitted, ok := EmitAll(s0.log[s0.cursor..], rooms, kinds, s0.emitted, fate);
    s := s0.(emitted := emitted);
    if !ok || fate.DiesAfter? {
      return s.(alive := false);
    }
    s := s.(cursor := |s.log|);
    if fate.saved {
      s := s.(saved := Some(s.cursor));
    }
  }

  /** Lines 65-78: resume from the persisted token, or seed. */
  method Open(s0: State, loadFails: bool, seedFails: bool, saves: bool) returns (s: State)
    ensures s == Started(s0, loadFails, seedFails, saves)
  {
    s := s0;
    var nextBatch := if loadFails then None else s.saved;
    if nextBatch.None? {
      if seedFails {
        return;
      }
      nextBatch := Some(|s.log|);
      if saves {
        s := s.(saved := nextBatch);
      }
    }
    s := s.(alive := true, cursor := nextBatch.value);
  }

  /** Subscribe under a supervisor, for as long as the script goes on. */
  method Subscribe(script: seq<Choice>, kinds: seq<string>) returns (s: State)
    ensures s == Steps(script, kinds, |script|)
  {
    s := FRESH;
    for k := 0 to |script|
      invariant s == Steps(script, kinds, k)
    {
      match script[k] {
        case Append(e) => s := s.(log := s.log + [e]);
        case Start(loadFails, seedFails, saves) =>
          if !s.alive {
            s := Open(s, loadFails, seedFails, saves);
          }
        case Dies => s := s.(alive := false);
        case SyncFails =>
        case Sync(rooms, fate) =>
          if CanSync(s, rooms) {
            s := SyncOnce(s, rooms, kinds, fate);
          }
      }
    }
  }
}
