/** What the session cache guarantees in every interleaving. */
module SessionRuns {
  import opened Wrappers
  import opened SessionCache

  /** Where an opened session is. */
  datatype Place = Cached(key: string) | Held(c: nat) | Closed(at: nat)

  /** The place of every opened session, kept beside the state. */
  type Places = map<nat, Place>

  predicate Holds(call: Call, id: nat) { (call.Opened? || call.Discarding?) && call.sess == id }

  /** Place pl is where session id is, according to the state. */
  predicate Is(s: State, id: nat, pl: Place) {
    match pl
    case Cached(key) => key in s.sessions && s.sessions[key] == id
    case Held(c) => c in s.calls && Holds(s.calls[c], id)
    case Closed(at) => at < |s.closes| && s.closes[at] == id
  }

  /** Exactly the opened sessions are anywhere, each in its one place and in no other. */
  ghost predicate Placed(s: State, places: Places) {
    && (forall id: nat :: id in places <==> id < s.minted)
    && (forall id: nat, pl: Place :: PlacedAt(s, places, id, pl))
  }

  /** Session id is at place pl exactly when that is its recorded place. */
  ghost predicate PlacedAt(s: State, places: Places, id: nat, pl: Place) {
    Is(s, id, pl) <==> id in places && places[id] == pl
  }

  /** Position of a key in an order. */
  function KeyAt(order: seq<string>, key: string): (i: nat)
    ensures key in order ==> i < |order| && order[i] == key
  {
    if order == [] || order[0] == key then 0 else 1 + KeyAt(order[1..], key)
  }

  lemma {:induction false} KeyAtFinds(order: seq<string>, i: nat)
    requires i < |order| && forall a, b | 0 <= a < b < |order| :: order[a] != order[b]
    ensures KeyAt(order, order[i]) == i
  {
    if i > 0 {
      assert order[0] != order[i];
      KeyAtFinds(order[1..], i - 1);
    }
  }

  ghost function Moved(places: Places, s: State, e: Step): Places {
    match e
    case OpenWorks(c) => if c in s.calls && s.calls[c].Missed? then places[s.minted := Held(c)] else places
    case Commit(c) =>
      if c in s.calls && s.calls[c].Opened? && s.calls[c].key !in s.sessions
      then places[s.calls[c].sess := Cached(s.calls[c].key)] else places
    case CloseDuplicate(c) =>
      if c in s.calls && s.calls[c].Discarding? then places[s.calls[c].sess := Closed(|s.closes|)] else places
    case CloseAll(order) =>
      if Enumerates(order, s.sessions) then
        map id | id in places ::
          if places[id].Cached? then Closed(|s.closes| + KeyAt(order, places[id].key)) else places[id]
      else places
    case _ => places
  }

  /** closeAll turns the session cached under a key into the close at the key's turn, and only that one. */
  lemma CloseAllPlacedAt(s: State, places: Places, order: seq<string>, id: nat, pl: Place)
    requires Placed(s, places) && Enumerates(order, s.sessions)
    ensures PlacedAt(Apply(s, CloseAll(order)), Moved(places, s, CloseAll(order)), id, pl)
  {
    assert PlacedAt(s, places, id, pl);
    if pl.Closed? && pl.at >= |s.closes| {
      TurnCloses(s, places, order, id, pl.at - |s.closes|);
    } else if pl.Closed? && pl.at < |s.closes| {
      assert Apply(s, CloseAll(order)).closes[pl.at] == s.closes[pl.at];
    }
  }

  /** The recorded place after closeAll is the close at turn i exactly for what was cached under the i-th key. */
  lemma TurnMoves(s: State, places: Places, order: seq<string>, id: nat, i: nat)
    requires Placed(s, places) && Enumerates(order, s.sessions)
    ensures var after := Moved(places, s, CloseAll(order));
            (id in after && after[id] == Closed(|s.closes| + i)) <==>
              i < |order| && id in places && places[id] == Cached(order[i])
  {
    if i < |order| {
      KeyAtFinds(order, i);
    }
    if id in places {
      assert PlacedAt(s, places, id, places[id]);
      if places[id].Cached? {
        assert places[id].key in order;
      }
    }
  }

  /** The close at turn i is that of the session cached under the i-th key. */
  lemma TurnCloses(s: State, places: Places, order: seq<string>, id: nat, i: nat)
    requires Placed(s, places) && Enumerates(order, s.sessions)
    ensures PlacedAt(Apply(s, CloseAll(order)), Moved(places, s, CloseAll(order)), id, Closed(|s.closes| + i))
  {
    TurnMoves(s, places, order, id, i);
    if i < |order| {
      assert Apply(s, CloseAll(order)).closes[|s.closes| + i] == Values(order, s.sessions)[i] == s.sessions[order[i]];
      assert PlacedAt(s, places, id, Cached(order[i]));
    }
  }

  lemma CloseAllPlaced(s: State, places: Places, order: seq<string>)
    requires Placed(s, places) && Enumerates(order, s.sessions)
    ensures Placed(Apply(s, CloseAll(order)), Moved(places, s, CloseAll(order)))
  {
    forall id: nat, pl: Place
      ensures PlacedAt(Apply(s, CloseAll(order)), Moved(places, s, CloseAll(order)), id, pl)
    {
      CloseAllPlacedAt(s, places, order, id, pl);
    }
  }

  lemma OpenPlaced(s: State, places: Places, c: nat, id: nat, pl: Place)
    requires Placed(s, places)
    ensures PlacedAt(Apply(s, OpenWorks(c)), Moved(places, s, OpenWorks(c)), id, pl)
  {
    assert PlacedAt(s, places, id, pl);
    assert s.minted !in places;
  }

  lemma CommitPlaced(s: State, places: Places, c: nat, id: nat, pl: Place)
    requires Placed(s, places)
    ensures PlacedAt(Apply(s, Commit(c)), Moved(places, s, Commit(c)), id, pl)
  {
    assert PlacedAt(s, places, id, pl);
    if c in s.calls && s.calls[c].Opened? {
      assert PlacedAt(s, places, s.calls[c].sess, Held(c));
    }
  }

  lemma DiscardPlaced(s: State, places: Places, c: nat, id: nat, pl: Place)
    requires Placed(s, places)
    ensures PlacedAt(Apply(s, CloseDuplicate(c)), Moved(places, s, CloseDuplicate(c)), id, pl)
  {
    assert PlacedAt(s, places, id, pl);
    if c in s.calls && s.calls[c].Discarding? {
      assert PlacedAt(s, places, s.calls[c].sess, Held(c));
    }
  }

  /** Steps that open, cache and close nothing. */
  lemma OtherPlaced(s: State, places: Places, e: Step, id: nat, pl: Place)
    requires Placed(s, places) && (e.Begin? || e.OpenFails?)
    ensures PlacedAt(Apply(s, e), places, id, pl)
  {
    assert PlacedAt(s, places, id, pl);
  }

  lemma StepPlacedAt(s: State, places: Places, e: Step, id: nat, pl: Place)
    requires Placed(s, places)
    ensures PlacedAt(Apply(s, e), Moved(places, s, e), id, pl)
  {
    match e {
      case OpenWorks(c) => OpenPlaced(s, places, c, id, pl);
      case Commit(c) => CommitPlaced(s, places, c, id, pl);
      case CloseDuplicate(c) => DiscardPlaced(s, places, c, id, pl);
      case CloseAll(order) =>
        if Enumerates(order, s.sessions) {
          CloseAllPlacedAt(s, places, order, id, pl);
        } else {
          assert PlacedAt(s, places, id, pl);
        }
      case _ => OtherPlaced(s, places, e, id, pl);
    }
  }

  lemma StepMinted(s: State, places: Places, e: Step)
    requires Placed(s, places)
    ensures forall id: nat :: id in Moved(places, s, e) <==> id < Apply(s, e).minted
  {
    match e {
      case Commit(c) =>
        if c in s.calls && s.calls[c].Opened? { assert PlacedAt(s, places, s.calls[c].sess, Held(c)); }
      case CloseDuplicate(c) =>
        if c in s.calls && s.calls[c].Discarding? { assert PlacedAt(s, places, s.calls[c].sess, Held(c)); }
      case _ =>
    }
  }

  lemma StepPlaced(s: State, places: Places, e: Step)
    requires Placed(s, places)
    ensures Placed(Apply(s, e), Moved(places, s, e))
  {
    StepMinted(s, places, e);
    forall id: nat, pl: Place
      ensures PlacedAt(Apply(s, e), Moved(places, s, e), id, pl)
    {
      StepPlacedAt(s, places, e, id, pl);
    }
  }

  ghost function PlacesOf(steps: seq<Step>, n: nat): Places
    requires n <= |steps|
  {
    if n == 0 then map[] else Moved(PlacesOf(steps, n - 1), Run(steps, n - 1), steps[n - 1])
  }

  lemma {:induction false} RunPlaced(steps: seq<Step>, n: nat)
    requires n <= |steps|
    ensures Placed(Run(steps, n), PlacesOf(steps, n))
  {
    if n > 0 {
      RunPlaced(steps, n - 1);
      StepPlaced(Run(steps, n - 1), PlacesOf(steps, n - 1), steps[n - 1]);
    }
  }

  /** In every interleaving each session opened so far is in exactly one place: cached under one key,
      held by one call that has not committed or closed it, or closed, once. */
  lemma ExactlyOnePlace(steps: seq<Step>, id: nat)
    requires id < Run(steps, |steps|).minted
    ensures exists pl :: Is(Run(steps, |steps|), id, pl) && forall other | Is(Run(steps, |steps|), id, other) :: other == pl
  {
    RunPlaced(steps, |steps|);
    var s, places := Run(steps, |steps|), PlacesOf(steps, |steps|);
    assert PlacedAt(s, places, id, places[id]);
    forall other | Is(s, id, other)
      ensures other == places[id]
    {
      assert PlacedAt(s, places, id, other);
    }
  }

  /* ---------- Before closeAll: one session per key ---------- */

  /** Whoever got a session for a key got the cached one. */
  ghost predicate Agreed(s: State) {
    forall c | c in s.calls ::
      match s.calls[c]
      case Finished(key, Ok(sess)) => key in s.sessions && s.sessions[key] == sess
      case Discarding(key, _, existing) => key in s.sessions && s.sessions[key] == existing
      case _ => true
  }

  lemma StepAgreed(s: State, e: Step)
    requires Agreed(s) && !e.CloseAll?
    ensures Agreed(Apply(s, e))
  {
  }

  lemma {:induction false} RunAgreed(steps: seq<Step>, n: nat)
    requires n <= |steps| && forall i | 0 <= i < n :: !steps[i].CloseAll?
    ensures Agreed(Run(steps, n))
  {
    if n > 0 {
      RunAgreed(steps, n - 1);
      StepAgreed(Run(steps, n - 1), steps[n - 1]);
    }
  }

  /** Until closeAll, all successful calls for a key return the same session, and it is not closed. */
  lemma SameSession(steps: seq<Step>, a: nat, b: nat)
    requires forall i | 0 <= i < |steps| :: !steps[i].CloseAll?
    requires a in Run(steps, |steps|).calls && b in Run(steps, |steps|).calls
    requires Run(steps, |steps|).calls[a].Finished? && Run(steps, |steps|).calls[b].Finished?
    requires Run(steps, |steps|).calls[a].key == Run(steps, |steps|).calls[b].key
    requires Run(steps, |steps|).calls[a].result.Ok? && Run(steps, |steps|).calls[b].result.Ok?
    ensures Run(steps, |steps|).calls[a].result == Run(steps, |steps|).calls[b].result
    ensures forall at | 0 <= at < |Run(steps, |steps|).closes| ::
              Run(steps, |steps|).closes[at] != Run(steps, |steps|).calls[a].result.value
  {
    RunAgreed(steps, |steps|);
    RunPlaced(steps, |steps|);
    var s, places := Run(steps, |steps|), PlacesOf(steps, |steps|);
    CachedIsOpen(s, places, s.calls[a].key);
  }

  lemma CachedIsOpen(s: State, places: Places, key: string)
    requires Placed(s, places) && key in s.sessions
    ensures forall at | 0 <= at < |s.closes| :: s.closes[at] != s.sessions[key]
  {
    var id := s.sessions[key];
    assert PlacedAt(s, places, id, Cached(key));
    forall at | 0 <= at < |s.closes|
      ensures s.closes[at] != id
    {
      assert PlacedAt(s, places, id, Closed(at));
    }
  }

  /* ---------- closeAll ---------- */

  predicate InFlight(call: Call) { !call.Finished? }

  /** A closed session has been closed once. */
  lemma ClosedOnce(s: State, places: Places, id: nat)
    requires Placed(s, places) && id in places && places[id].Closed?
    ensures exists at :: 0 <= at < |s.closes| && s.closes[at] == id && forall b | 0 <= b < |s.closes| && s.closes[b] == id :: b == at
  {
    assert PlacedAt(s, places, id, places[id]);
    forall b | 0 <= b < |s.closes| && s.closes[b] == id
      ensures b == places[id].at
    {
      assert PlacedAt(s, places, id, Closed(b));
    }
  }

  /** If closeAll runs with no call in flight, every session ever opened has then been closed exactly once. */
  lemma CloseAllClosesEverything(steps: seq<Step>, order: seq<string>, id: nat)
    requires Enumerates(order, Run(steps, |steps|).sessions)
    requires forall c | c in Run(steps, |steps|).calls :: !InFlight(Run(steps, |steps|).calls[c])
    requires id < Run(steps, |steps|).minted
    ensures var closes := Apply(Run(steps, |steps|), CloseAll(order)).closes;
            exists at :: 0 <= at < |closes| && closes[at] == id && forall b | 0 <= b < |closes| && closes[b] == id :: b == at
  {
    RunPlaced(steps, |steps|);
    var s, places := Run(steps, |steps|), PlacesOf(steps, |steps|);
    HeldByPlace(s, places, id);
    CloseAllMoves(s, places, order, id);
    CloseAllPlaced(s, places, order);
    ClosedOnce(Apply(s, CloseAll(order)), Moved(places, s, CloseAll(order)), id);
  }

  /** Some call holds session id. */
  predicate HeldBySome(s: State, id: nat) { exists c | c in s.calls :: Holds(s.calls[c], id) }

  /** Which sessions are closed and which are held can be read off their places. */
  lemma ClosedByPlace(s: State, places: Places, id: nat)
    requires Placed(s, places) && id in places
    ensures id in s.closes <==> places[id].Closed?
  {
    assert PlacedAt(s, places, id, places[id]);
    if at :| 0 <= at < |s.closes| && s.closes[at] == id {
      assert PlacedAt(s, places, id, Closed(at));
    }
  }

  lemma HeldByPlace(s: State, places: Places, id: nat)
    requires Placed(s, places) && id in places
    ensures HeldBySome(s, id) <==> places[id].Held?
  {
    assert PlacedAt(s, places, id, places[id]);
    if c :| c in s.calls && Holds(s.calls[c], id) {
      assert PlacedAt(s, places, id, Held(c));
    }
  }

  /** closeAll moves every session that is not held to the closed ones. */
  lemma CloseAllMoves(s: State, places: Places, order: seq<string>, id: nat)
    requires Enumerates(order, s.sessions) && id in places
    ensures id in Moved(places, s, CloseAll(order))
    ensures Moved(places, s, CloseAll(order))[id].Closed? <==> !places[id].Held?
  {
  }

  lemma CloseAllSpares(s: State, places: Places, order: seq<string>, id: nat)
    requires Placed(s, places) && Enumerates(order, s.sessions) && id < s.minted
    ensures id in Apply(s, CloseAll(order)).closes <==> !HeldBySome(s, id)
  {
    CloseAllPlaced(s, places, order);
    HeldByPlace(s, places, id);
    CloseAllMoves(s, places, order, id);
    var t, after := Apply(s, CloseAll(order)), Moved(places, s, CloseAll(order));
    ClosedByPlace(t, after, id);
  }

  /** Whoever is in flight: closeAll leaves a session open exactly when a call still holds it. */
  lemma ClosedUnlessHeld(steps: seq<Step>, order: seq<string>, id: nat)
    requires Enumerates(order, Run(steps, |steps|).sessions) && id < Run(steps, |steps|).minted
    ensures id in Apply(Run(steps, |steps|), CloseAll(order)).closes <==> !HeldBySome(Run(steps, |steps|), id)
  {
    RunPlaced(steps, |steps|);
    CloseAllSpares(Run(steps, |steps|), PlacesOf(steps, |steps|), order, id);
  }

  /** A call still in flight can cache a session after closeAll, which nothing then closes: the reason
      the server stops its handlers first. */
  lemma LateCommitStaysOpen()
    ensures var steps := [Begin(0, "k"), OpenWorks(0), CloseAll([]), Commit(0)];
            Run(steps, 4).sessions == map["k" := 0] && Run(steps, 4).closes == []
  {
    var steps := [Begin(0, "k"), OpenWorks(0), CloseAll([]), Commit(0)];
    assert Run(steps, 1) == Apply(EMPTY, Begin(0, "k"));
    assert Run(steps, 2) == Apply(Run(steps, 1), OpenWorks(0));
    assert Run(steps, 3) == Apply(Run(steps, 2), CloseAll([]));
    assert Run(steps, 4) == Apply(Run(steps, 3), Commit(0));
  }
}
