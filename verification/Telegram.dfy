/** connectors/telegram/updates.go: the getUpdates offset protocol as a transition system over the
    server's queue, the event sink and the persisted offset, for start_offset 0. */
module Telegram {
  import opened Order
  import opened Wrappers

  /** The limit every poll passes to getUpdates. */
  const LIMIT := 100

  /** history: every update id ever queued; pending: those the server still holds;
      emitted: what the sink received; saved: the persisted offset. */
  datatype World = World(history: seq<int>, pending: seq<int>, emitted: seq<int>, saved: Option<int>)

  datatype Phase = Dead | Polling | Emitting(batch: seq<int>, next: nat) | Saving

  datatype State = State(w: World, phase: Phase, offset: int)

  /** One step of the environment's choosing. A poll may fail outright or lose its reply after the server
      acted on it; a failing emit may or may not have reached the sink; the process may die anywhere. */
  datatype Choice = Arrive(id: int) | Start(loadFails: bool)
                  | PollOk(n: nat) | PollLost | PollFail
                  | EmitOk | EmitFail(delivered: bool) | SaveOk | SaveFail | Crash

  const FRESH := State(World([], [], [], None), Dead, 0)

  /* ---------- Steps ---------- */

  /** Ids are positive and grow. */
  function Queued(w: World, id: int): World {
    if id > 0 && (w.history == [] || id > w.history[|w.history| - 1])
    then w.(history := w.history + [id], pending := w.pending + [id]) else w
  }

  function DropBelow(ids: seq<int>, offset: int): seq<int> {
    if ids != [] && ids[0] < offset then DropBelow(ids[1..], offset) else ids
  }

  /** The server forgets ids below a positive offset; offset 0 is not sent. */
  function Confirmed(pending: seq<int>, offset: int): seq<int> {
    if offset > 0 then DropBelow(pending, offset) else pending
  }

  /** The first n pending ids, at most LIMIT. */
  function Batch(pending: seq<int>, n: nat): seq<int> {
    pending[..Min(Min(n, LIMIT), |pending|)]
  }

  function Loaded(saved: Option<int>, loadFails: bool): int {
    if !loadFails && saved.Some? then saved.value else 0
  }

  function Advanced(offset: int, id: int): int { if id >= offset then id + 1 else offset }

  function Emitted(w: World, id: int): World { w.(emitted := w.emitted + [id]) }

  function Died(s: State): State { State(s.w, Dead, 0) }

  /** The id the next emit is about. */
  predicate CanEmit(s: State) { s.phase.Emitting? && s.phase.next < |s.phase.batch| }

  function NextId(s: State): int
    requires CanEmit(s)
  {
    s.phase.batch[s.phase.next]
  }

  /** The effect of a choice; one that does not apply in the current phase has none. */
  function Apply(s: State, c: Choice): State {
    match c
    case Arrive(id) => s.(w := Queued(s.w, id))
    case Start(loadFails) =>
      if s.phase.Dead? then State(s.w, Polling, Loaded(s.w.saved, loadFails)) else s
    case Crash => if s.phase.Dead? then s else Died(s)
    case PollFail => s
    case PollLost =>
      if s.phase.Polling? then s.(w := s.w.(pending := Confirmed(s.w.pending, s.offset))) else s
    case PollOk(n) =>
      if s.phase.Polling? then
        var pending := Confirmed(s.w.pending, s.offset);
        var batch := Batch(pending, n);
        s.(w := s.w.(pending := pending), phase := if batch == [] then Polling else Emitting(batch, 0))
      else s
    case EmitOk =>
      if CanEmit(s) then
        State(Emitted(s.w, NextId(s)),
              if s.phase.next + 1 == |s.phase.batch| then Saving else s.phase.(next := s.phase.next + 1),
              Advanced(s.offset, NextId(s)))
      else s
    case EmitFail(delivered) =>
      if CanEmit(s) then Died(if delivered then s.(w := Emitted(s.w, NextId(s))) else s) else s
    case SaveOk => if s.phase.Saving? then s.(w := s.w.(saved := Some(s.offset)), phase := Polling) else s
    case SaveFail => if s.phase.Saving? then s.(phase := Polling) else s
  }

  /** The state after the choices script[from..to]. */
  function Steps(s: State, script: seq<Choice>, from: nat, to: nat): State
    requires from <= to <= |script|
  {
    if from == to then s else Apply(Steps(s, script, from, to - 1), script[to - 1])
  }

  /** A whole run, from an empty server, an empty sink and no persisted offset. */
  function Run(script: seq<Choice>): State { Steps(FRESH, script, 0, |script|) }

  /* ---------- The loop itself ---------- */

  /** A state reached from `begun` by the choices between two points of the script. */
  ghost predicate At(begun: State, script: seq<Choice>, from: nat, used: nat, s: State) {
    from <= used <= |script| && s == Steps(begun, script, from, used)
  }

  /** One more choice: the environment's own move or the answer to the call in progress. */
  lemma Advance(begun: State, script: seq<Choice>, from: nat, used: nat, s0: State) returns (s: State)
    requires used < |script| && At(begun, script, from, used, s0)
    ensures s == Apply(s0, script[used]) && At(begun, script, from, used + 1, s)
  {
    s := Apply(s0, script[used]);
  }

  /** Lines 193-207: emit the batch in order, moving the offset past each id. */
  method EmitBatch(w0: World, offset0: int, ups: seq<int>, script: seq<Choice>, used0: nat,
                   ghost begun: State, ghost from: nat, ghost s0: State)
    returns (w: World, offset: int, used: nat, ok: bool, ghost s: State)
    requires ups != [] && At(begun, script, from, used0, s0)
    requires s0.w == w0 && s0.offset == offset0 && s0.phase == Emitting(ups, 0)
    ensures used0 <= used && At(begun, script, from, used, s) && s.w == w
    ensures if ok then s.phase == Saving && s.offset == offset else used == |script| || s.phase.Dead?
  {
    w, offset, used, ok, s := w0, offset0, used0, false, s0;
    var i := 0;
    while used < |script|
      invariant used0 <= used && At(begun, script, from, used, s)
      invariant 0 <= i < |ups| && s.w == w && s.offset == offset && s.phase == Emitting(ups, i)
    {
      var c := script[used];
      s := Advance(begun, script, from, used, s);
      used := used + 1;
      match c {
        case Arrive(id) => w := Queued(w, id);
        case Crash => return;
        case EmitFail(delivered) =>
          if delivered {
            w := Emitted(w, ups[i]);
          }
          return;
        case EmitOk =>
          w := Emitted(w, ups[i]);
          if ups[i] >= offset {
            offset := ups[i] + 1;
          }
          i := i + 1;
          if i == |ups| {
            ok := true;
            return;
          }
        case _ =>
      }
    }
  }

  /** Lines 211-213: persist the offset; a failure is ignored. */
  method Save(w0: World, offset: int, script: seq<Choice>, used0: nat,
              ghost begun: State, ghost from: nat, ghost s0: State)
    returns (w: World, used: nat, ok: bool, ghost s: State)
    requires At(begun, script, from, used0, s0) && s0.w == w0 && s0.offset == offset && s0.phase == Saving
    ensures used0 <= used && At(begun, script, from, used, s) && s.w == w
    ensures if ok then s.phase == Polling && s.offset == offset else used == |script| || s.phase.Dead?
  {
    w, used, ok, s := w0, used0, false, s0;
    while used < |script|
      invariant used0 <= used && At(begun, script, from, used, s)
      invariant s.w == w && s.offset == offset && s.phase == Saving
    {
      var c := script[used];
      s := Advance(begun, script, from, used, s);
      used := used + 1;
      match c {
        case Arrive(id) => w := Queued(w, id);
        case Crash => return;
        case SaveOk =>
          w, ok := w.(saved := Some(offset)), true;
          return;
        case SaveFail =>
          ok := true;
          return;
        case _ =>
      }
    }
  }

  /** Subscribe, from its start until it returns, dies, or the script ends. */
  method Subscribe(w0: World, script: seq<Choice>, from: nat, loadFails: bool, ghost s0: State)
    returns (w: World, used: nat, ghost s: State)
    requires from <= |script| && s0.phase.Dead? && s0.w == w0
    ensures At(Apply(s0, Start(loadFails)), script, from, used, s)
    ensures w == Steps(Apply(s0, Start(loadFails)), script, from, used).w
    ensures used < |script| ==> s.phase.Dead?
  {
    w, used := w0, from;
    ghost var begun := Apply(s0, Start(loadFails));
    s := begun;
    var offset := 0;
    if !loadFails && w.saved.Some? {
      offset := w.saved.value;
    }
    while used < |script|
      invariant At(begun, script, from, used, s)
      invariant s.w == w && s.offset == offset && s.phase == Polling
    {
      var c := script[used];
      s := Advance(begun, script, from, used, s);
      used := used + 1;
      match c {
        case Arrive(id) => w := Queued(w, id);
        case Crash => return;
        case PollLost => w := w.(pending := Confirmed(w.pending, offset));
        case PollOk(n) =>
          w := w.(pending := Confirmed(w.pending, offset));
          var ups := Batch(w.pending, n);
          if |ups| > 0 {
            var ok;
            w, offset, used, ok, s := EmitBatch(w, offset, ups, script, used, begun, from, s);
            if !ok {
              return;
            }
            w, used, ok, s := Save(w, offset, script, used, begun, from, s);
            if !ok {
              return;
            }
          }
        case _ =>
      }
    }
  }

  lemma {:induction false} StepsAppend(s: State, script: seq<Choice>, from: nat, mid: nat, to: nat)
    requires from <= mid <= to <= |script|
    ensures Steps(s, script, from, to) == Steps(Steps(s, script, from, mid), script, mid, to)
  {
    if mid < to {
      StepsAppend(s, script, from, mid, to - 1);
    }
  }

  /** A supervisor that starts Subscribe again whenever the script says so. */
  method Serve(script: seq<Choice>) returns (w: World)
    ensures w == Run(script).w
  {
    w := FRESH.w;
    var used := 0;
    ghost var s := FRESH;
    while used < |script|
      invariant At(FRESH, script, 0, used, s)
      invariant s.w == w && (used < |script| ==> s.phase.Dead?)
    {
      ghost var s0, from := s, used;
      s := Advance(FRESH, script, 0, used, s);
      used := used + 1;
      match script[used - 1] {
        case Arrive(id) =>
          w := Queued(w, id);
        case Start(loadFails) =>
          w, used, s := Subscribe(w, script, used, loadFails, s0);
          StepsAppend(FRESH, script, 0, from + 1, used);
        case _ =>
      }
    }
  }
}
