/** connectors/rss: the difference of a feed against a watermark, the polling trigger and list-new. */
module Rss {
  import opened Order

  /* ---------- diff.go: diffItems ---------- */

  /** Position of the first item with this id, or the number of items. */
  function IndexOf(items: seq<string>, id: string): (i: nat)
    ensures i <= |items| && id !in items[..i] && (i < |items| ==> items[i] == id)
  {
    if items == [] || items[0] == id then 0
    else
      var i := IndexOf(items[1..], id);
      assert items[..i + 1] == [items[0]] + items[1..][..i];
      i + 1
  }

  /** The items above the watermark, newest first, by item id. */
  function Fresh(items: seq<string>, watermark: string, backlog: bool): seq<string> {
    if watermark == "" then (if backlog then items else []) else items[..IndexOf(items, watermark)]
  }

  function NewMark(items: seq<string>, watermark: string, backlog: bool): string {
    if items == [] then watermark
    else if watermark != "" && Fresh(items, watermark, backlog) == [] then watermark
    else items[0]
  }

  method DiffItems(items: seq<string>, watermark: string, backlog: bool) returns (unseen: seq<string>, mark: string)
    ensures unseen == Fresh(items, watermark, backlog) && mark == NewMark(items, watermark, backlog)
  {
    if |items| == 0 {
      return [], watermark;
    }
    var newest := items[0];
    if watermark == "" {
      if backlog {
        return items, newest;
      }
      return [], newest;
    }
    unseen := [];
    for i := 0 to |items|
      invariant unseen == items[..i] && watermark !in items[..i]
    {
      if items[i] == watermark {
        break;
      }
      unseen := unseen + [items[i]];
    }
    if |unseen| == 0 {
      return [], watermark;
    }
    mark := newest;
  }

  /* ---------- The feed as a window on a log ---------- */

  /** Ids are non-empty and unique. */
  ghost predicate IsLog(log: seq<string>) {
    && (forall i | 0 <= i < |log| :: log[i] != "")
    && (forall i, j | 0 <= i < j < |log| :: log[i] != log[j])
  }

  /** Entries lo..hi of the log, newest first. */
  function Window(log: seq<string>, lo: nat, hi: nat): (items: seq<string>)
    requires lo <= hi <= |log|
    ensures |items| == hi - lo && forall i | 0 <= i < hi - lo :: items[i] == log[hi - 1 - i]
  {
    seq(hi - lo, i requires 0 <= i < hi - lo => log[hi - 1 - i])
  }

  /** The watermark that says the first w entries have been seen. */
  function MarkAt(log: seq<string>, w: nat): string
    requires w <= |log|
  {
    if w == 0 then "" else log[w - 1]
  }

  /** The first entry a poll of window lo..hi hands out when w entries have been seen. */
  function FirstFresh(w: nat, lo: nat, hi: nat, backlog: bool): nat {
    if w == 0 && !backlog then hi else Max(w, lo)
  }

  lemma IndexOfMark(log: seq<string>, w: nat, lo: nat, hi: nat)
    requires IsLog(log) && 0 < w <= hi <= |log| && lo <= hi
    ensures IndexOf(Window(log, lo, hi), MarkAt(log, w)) == hi - Max(w, lo)
  {
    var items, k := Window(log, lo, hi), IndexOf(Window(log, lo, hi), MarkAt(log, w));
    assert forall i | 0 <= i < k :: items[..k][i] == items[i];
    assert lo < w ==> items[hi - w] == log[w - 1];
    assert forall i | 0 <= i < |items| :: items[i] == log[hi - 1 - i];
  }

  /** On a window of the log, the difference is exactly the unseen part of the window. */
  lemma DiffOnWindow(log: seq<string>, w: nat, lo: nat, hi: nat, backlog: bool)
    requires IsLog(log) && w <= hi <= |log| && lo <= hi
    ensures var items, from := Window(log, lo, hi), FirstFresh(w, lo, hi, backlog);
            && from <= hi && Fresh(items, MarkAt(log, w), backlog) == Window(log, from, hi)
            && NewMark(items, MarkAt(log, w), backlog) == MarkAt(log, if lo == hi then w else hi)
  {
    var items, from := Window(log, lo, hi), FirstFresh(w, lo, hi, backlog);
    if w == 0 {
      assert Window(log, hi, hi) == [];
    } else {
      IndexOfMark(log, w, lo, hi);
      assert items[..hi - Max(w, lo)] == Window(log, from, hi);
    }
  }

  /* ---------- trigger.go: the polling trigger ---------- */

  /** How a poll goes on after the fetch: to its end, with the save working or not, or the process (or
      the sink) fails after j emits. */
  datatype Fate = Completes(saved: bool) | DiesAfter(j: nat)

  datatype Choice = Publish(id: string) | Start(backlog: bool) | Dies | FetchFails
                  | Poll(lo: nat, hi: nat, loadFails: bool, fate: Fate)

  /** top: how far polls have seen the log; mark: the persisted watermark; backlog: the trigger's flag. */
  datatype State = State(log: seq<string>, top: nat, mark: string, emitted: seq<string>, alive: bool, backlog: bool)

  const FRESH := State([], 0, "", [], false, false)

  function Published(s: State, id: string): State {
    if id != "" && id !in s.log then s.(log := s.log + [id]) else s
  }

  /** Feeds do not go back in time. */
  predicate CanPoll(s: State, lo: nat, hi: nat) { s.alive && s.top <= hi <= |s.log| && lo <= hi }

  function Reverse(ids: seq<string>): (r: seq<string>)
    ensures |r| == |ids| && forall i | 0 <= i < |ids| :: r[i] == ids[|ids| - 1 - i]
  {
    seq(|ids|, i requires 0 <= i < |ids| => ids[|ids| - 1 - i])
  }

  /** What reaches the sink of a list of ids to emit in order. */
  function Received(out: seq<string>, fate: Fate): seq<string> {
    if fate.DiesAfter? && fate.j < |out| then out[..fate.j] else out
  }

  function Polled(s: State, lo: nat, hi: nat, loadFails: bool, fate: Fate): State
    requires CanPoll(s, lo, hi)
  {
    var items, mark := Window(s.log, lo, hi), if loadFails then "" else s.mark;
    var next := NewMark(items, mark, s.backlog);
    var emitted := s.emitted + Received(Reverse(Fresh(items, mark, s.backlog)), fate);
    match fate
    case Completes(saved) =>
      s.(top := hi, emitted := emitted, backlog := false,
         mark := if saved && next != "" && next != mark then next else s.mark)
    case DiesAfter(_) => s.(top := hi, emitted := emitted, alive := false)
  }

  function Apply(s: State, c: Choice): State {
    match c
    case Publish(id) => Published(s, id)
    case Start(backlog) => if s.alive then s else s.(alive := true, backlog := backlog)
    case Dies => s.(alive := false)
    case FetchFails => s
    case Poll(lo, hi, loadFails, fate) =>
      if CanPoll(s, lo, hi) then Polled(s, lo, hi, loadFails, fate) else s
  }

  function Steps(s: State, script: seq<Choice>, from: nat, to: nat): State
    requires from <= to <= |script|
  {
    if from == to then s else Apply(Steps(s, script, from, to - 1), script[to - 1])
  }

  /** Lines 76-88: emit oldest first; the sink or the process may fail on the way. */
  method EmitOldestFirst(emitted0: seq<string>, unseen: seq<string>, fate: Fate)
    returns (emitted: seq<string>, ok: bool)
    ensures emitted == emitted0 + Received(Reverse(unseen), fate)
    ensures ok ==> fate.Completes? || fate.j >= |unseen|
    ensures !ok ==> fate.DiesAfter?
  {
    emitted, ok := emitted0, true;
    var i := |unseen| - 1;
    ghost var out := Reverse(unseen);
    while i >= 0
      invariant -1 <= i < |unseen| && emitted == emitted0 + out[..|unseen| - 1 - i]
      invariant fate.DiesAfter? ==> |unseen| - 1 - i <= fate.j
    {
      if fate.DiesAfter? && fate.j == |unseen| - 1 - i {
        return emitted, false;
      }
      emitted := emitted + [unseen[i]];
      i := i - 1;
    }
  }

  /** Lines 72-93: what one poll does once the feed is there. */
  method PollOnce(s0: State, lo: nat, hi: nat, loadFails: bool, fate: Fate) returns (s: State)
    requires CanPoll(s0, lo, hi)
    ensures s == Polled(s0, lo, hi, loadFails, fate)
  {
    var watermark := if loadFails then "" else s0.mark;
    var unseen, newWatermark := DiffItems(Window(s0.log, lo, hi), watermark, s0.backlog);
    var emitted, ok := EmitOldestFirst(s0.emitted, unseen, fate);
    s := s0.(top := hi, emitted := emitted);
    if !ok || fate.DiesAfter? {
      return s.(alive := false);
    }
    if newWatermark != "" && newWatermark != watermark {
      if fate.saved {
        s := s.(mark := newWatermark);
      }
    }
    s := s.(backlog := false);
  }

  /** Subscribe under a supervisor, for as long as the script goes on. */
  method Subscribe(script: seq<Choice>) returns (s: State)
    ensures s == Steps(FRESH, script, 0, |script|)
  {
    s := FRESH;
    for k := 0 to |script|
      invariant s == Steps(FRESH, script, 0, k)
    {
      match script[k] {
        case Publish(id) => s := Published(s, id);
        case Start(backlog) =>
          if !s.alive {
            s := s.(alive := true, backlog := backlog);
          }
        case Dies => s := s.(alive := false);
        case FetchFails =>
        case Poll(lo, hi, loadFails, fate) =>
          if CanPoll(s, lo, hi) {
            s := PollOnce(s, lo, hi, loadFails, fate);
          }
      }
    }
  }
}
