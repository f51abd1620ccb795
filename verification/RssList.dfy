/** connectors/rss/actions.go: list-new, which saves the watermark before it returns the items. */
module RssList {
  import opened Rss
  import opened RssRuns

  /** What follows the difference: both puts work, a put fails (the first one perhaps after the watermark
      was stored), or the process dies once the watermark is stored. */
  datatype Ending = Returns | SaveFails(stored: bool) | DiesAfterSave

  datatype Call = Publish(id: string) | ListNew(lo: nat, hi: nat, loadFails: bool, backlog: bool, ending: Ending)

  /** returned: every item id any call handed to its caller. */
  datatype Reader = Reader(log: seq<string>, top: nat, mark: string, returned: seq<string>)

  predicate CanList(s: Reader, lo: nat, hi: nat) { s.top <= hi <= |s.log| && lo <= hi }

  function Listed(s: Reader, lo: nat, hi: nat, backlog: bool, ending: Ending): Reader
    requires CanList(s, lo, hi)
  {
    var items := Window(s.log, lo, hi);
    var unseen, next := Fresh(items, s.mark, backlog), NewMark(items, s.mark, backlog);
    var t := s.(top := hi);
    if next == "" || next == s.mark then t.(returned := s.returned + unseen)
    else match ending
      case Returns => t.(mark := next, returned := s.returned + unseen)
      case SaveFails(stored) => t.(mark := if stored then next else s.mark)
      case DiesAfterSave => t.(mark := next)
  }

  function Answer(s: Reader, c: Call): Reader {
    match c
    case Publish(id) => if id != "" && id !in s.log then s.(log := s.log + [id]) else s
    case ListNew(lo, hi, loadFails, backlog, ending) =>
      if !CanList(s, lo, hi) then s
      else if loadFails then s.(top := hi)
      else Listed(s, lo, hi, backlog, ending)
  }

  /** listNewAction.Run. Nothing is returned when it fails. */
  method RunListNew(s0: Reader, lo: nat, hi: nat, loadFails: bool, backlog: bool, ending: Ending)
    returns (s: Reader, items: seq<string>)
    requires CanList(s0, lo, hi)
    ensures s == Answer(s0, ListNew(lo, hi, loadFails, backlog, ending)) && s.returned == s0.returned + items
  {
    s, items := s0.(top := hi), [];
    if loadFails {
      return;
    }
    var newItems, newWatermark := DiffItems(Window(s.log, lo, hi), s.mark, backlog);
    if newWatermark != "" && newWatermark != s.mark {
      match ending {
        case SaveFails(stored) =>
          if stored {
            s := s.(mark := newWatermark);
          }
          return;
        case DiesAfterSave =>
          s := s.(mark := newWatermark);
          return;
        case Returns =>
          s := s.(mark := newWatermark);
      }
    }
    items := newItems;
    s := s.(returned := s.returned + items);
  }

  function After(calls: seq<Call>, n: nat): Reader
    requires n <= |calls|
  {
    if n == 0 then Reader([], 0, "", []) else Answer(After(calls, n - 1), calls[n - 1])
  }

  /** Everything returned lies below the watermark and is there once. */
  ghost predicate Inv(s: Reader, w: nat, at: seq<nat>) {
    && IsLog(s.log) && w <= s.top <= |s.log| && s.mark == MarkAt(s.log, w)
    && Places(s.log, s.returned, at)
    && (forall k | 0 <= k < |at| :: at[k] < w)
    && (forall i, j | 0 <= i < j < |at| :: at[i] != at[j])
  }

  /** Positions a..b, last first. */
  function Down(a: nat, b: nat): (r: seq<nat>)
    requires a <= b
    ensures |r| == b - a && forall i | 0 <= i < b - a :: r[i] == b - 1 - i
  {
    seq(b - a, i requires 0 <= i < b - a => b - 1 - i)
  }

  /** Whether a call that has something new stores the watermark. */
  predicate Stores(ending: Ending) { ending.SaveFails? ==> ending.stored }

  /** One call, in positions: it returns the unseen part of the window, newest first, only if the
      watermark has moved to the window's end. */
  lemma ListedMeans(s: Reader, w: nat, lo: nat, hi: nat, backlog: bool, ending: Ending)
    requires CanList(s, lo, hi) && IsLog(s.log) && w <= s.top && s.mark == MarkAt(s.log, w)
    ensures var t, from := Listed(s, lo, hi, backlog, ending), FirstFresh(w, lo, hi, backlog);
            && from <= hi && w <= from && t.log == s.log && t.top == hi
            && t.mark == MarkAt(s.log, if lo < hi && w < hi && Stores(ending) then hi else w)
            && t.returned == (if lo < hi && w < hi && ending != Returns then s.returned
                              else s.returned + Window(s.log, from, hi))
            && (!(lo < hi && w < hi) ==> Window(s.log, from, hi) == [])
  {
    DiffOnWindow(s.log, w, lo, hi, backlog);
    assert w > 0 && lo < hi ==> (s.log[w - 1] == s.log[hi - 1] <==> w == hi);
  }

  lemma PlacesDown(log: seq<string>, returned: seq<string>, at: seq<nat>, w: nat, a: nat, b: nat)
    requires Places(log, returned, at) && w <= a <= b <= |log|
    requires forall k | 0 <= k < |at| :: at[k] < w
    requires forall i, j | 0 <= i < j < |at| :: at[i] != at[j]
    ensures var all := at + Down(a, b);
            && Places(log, returned + Window(log, a, b), all)
            && (forall k | 0 <= k < |all| :: all[k] < if a < b then b else w)
            && (forall i, j | 0 <= i < j < |all| :: all[i] != all[j])
  {
  }

  lemma AnswerKeeps(s: Reader, w: nat, at: seq<nat>, c: Call) returns (w': nat, at': seq<nat>)
    requires Inv(s, w, at)
    ensures Inv(Answer(s, c), w', at') && w <= w'
  {
    w', at' := w, at;
    if c.ListNew? && CanList(s, c.lo, c.hi) && !c.loadFails {
      var from, moves := FirstFresh(w, c.lo, c.hi, c.backlog), c.lo < c.hi && w < c.hi;
      ListedMeans(s, w, c.lo, c.hi, c.backlog, c.ending);
      w' := if moves && Stores(c.ending) then c.hi else w;
      if !(moves && c.ending != Returns) {
        PlacesDown(s.log, s.returned, at, w, from, c.hi);
        at' := at + Down(from, c.hi);
      }
    }
  }

  lemma {:induction false} Reachable(calls: seq<Call>, n: nat) returns (w: nat, at: seq<nat>)
    requires n <= |calls|
    ensures Inv(After(calls, n), w, at)
  {
    if n == 0 {
      w, at := 0, [];
    } else {
      w, at := Reachable(calls, n - 1);
      w, at := AnswerKeeps(After(calls, n - 1), w, at, calls[n - 1]);
    }
  }

  /** list-new never returns an item twice, whatever loads, saves and processes fail. */
  lemma NeverTwice(calls: seq<Call>)
    ensures var out := After(calls, |calls|).returned;
            forall i, j | 0 <= i < j < |out| :: out[i] != out[j]
  {
    var w, at := Reachable(calls, |calls|);
    var s := After(calls, |calls|);
    forall i, j | 0 <= i < j < |s.returned|
      ensures s.returned[i] != s.returned[j]
    {
      assert at[i] != at[j];
    }
  }
}
