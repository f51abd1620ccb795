/** What the RSS trigger's include_backlog flag does: it decides over the first poll of a subscription that has
    no watermark, and over nothing else. */
module RssBacklog {
  import opened Order
  import opened Rss
  import opened RssRuns

  /** Choice k starts a subscription with this flag. */
  predicate StartsWith(script: seq<Choice>, k: nat, backlog: bool)
    requires k < |script|
  {
    script[k] == Start(backlog) && !Steps(FRESH, script, 0, k).alive
  }

  /** Choice k is a poll that completes. */
  predicate PollCompletes(script: seq<Choice>, k: nat)
    requires k < |script|
  {
    var c := script[k];
    c.Poll? && CanPoll(Steps(FRESH, script, 0, k), c.lo, c.hi) && c.fate.Completes?
  }

  /** A subscription lives from choice k on, up to choice n. */
  predicate LivesOn(script: seq<Choice>, k: nat, n: nat)
    requires k <= n <= |script|
  {
    forall j | k < j <= n :: Steps(FRESH, script, 0, j).alive
  }

  lemma FlagStep(s: State, c: Choice)
    requires s.alive && Apply(s, c).alive
    ensures Apply(s, c).backlog == (s.backlog && !(c.Poll? && CanPoll(s, c.lo, c.hi) && c.fate.Completes?))
  {
  }

  /** The flag holds from the start that set it to the first poll that completes, and is then off for as long as the
      subscription lives. */
  lemma {:induction false} FlagMeans(script: seq<Choice>, k: nat, backlog: bool, n: nat)
    requires k < n <= |script| && StartsWith(script, k, backlog) && LivesOn(script, k, n)
    ensures Steps(FRESH, script, 0, n).backlog <==> backlog && forall j | k < j < n :: !PollCompletes(script, j)
  {
    var m := n - 1;
    assert Steps(FRESH, script, 0, n) == Apply(Steps(FRESH, script, 0, m), script[m]);
    if m > k {
      assert Steps(FRESH, script, 0, m).alive && Steps(FRESH, script, 0, n).alive;
      FlagMeans(script, k, backlog, m);
      FlagStep(Steps(FRESH, script, 0, m), script[m]);
      assert (forall j | k < j < n :: !PollCompletes(script, j)) <==>
             (forall j | k < j < m :: !PollCompletes(script, j)) && !PollCompletes(script, m);
    }
  }

  /** From s to t the entries from..hi of the log were handed out in order, or as many as reached the sink. */
  predicate Hands(s: State, t: State, from: nat, hi: nat, fate: Fate) {
    && from <= hi <= |s.log|
    && t.emitted == s.emitted + s.log[from..if fate.DiesAfter? && fate.j < hi - from then from + fate.j else hi]
  }

  /** A poll that knows w entries of the log to be seen. */
  lemma PollHands(s: State, r: Record, lo: nat, hi: nat, loadFails: bool, fate: Fate, w: nat, t: State)
    requires Inv(s, r) && CanPoll(s, lo, hi) && w == (if loadFails then 0 else r.w)
    requires t == Polled(s, lo, hi, loadFails, fate)
    ensures Hands(s, t, if w == 0 && !s.backlog then hi else if w < lo then lo else w, hi, fate)
    ensures t.log == s.log && (t.alive <==> fate.Completes?)
  {
    var from := if w == 0 && !s.backlog then hi else if w < lo then lo else w;
    PollEmits(s, r, lo, hi, loadFails, fate);
    assert from == FirstFresh(w, lo, hi, s.backlog);
    ReceivedHands(s, t, from, hi, fate);
  }

  lemma ReceivedHands(s: State, t: State, from: nat, hi: nat, fate: Fate)
    requires from <= hi <= |s.log| && t.emitted == s.emitted + Received(s.log[from..hi], fate)
    ensures Hands(s, t, from, hi, fate)
  {
    ReceivedSlice(s.log, from, hi, fate);
  }

  lemma MarkSaved(s: State, r: Record)
    requires Inv(s, r)
    ensures s.mark == "" <==> r.w == 0
    ensures r.w > 0 ==> r.w <= |s.log| && s.log[r.w - 1] == s.mark
  {
  }

  /** A poll without a watermark, because none was saved or the load fails, hands out its whole window, oldest
      first, exactly when the subscription was started to include the backlog and no poll of it has completed;
      otherwise it hands out nothing. */
  lemma BacklogMeans(script: seq<Choice>, k: nat, backlog: bool, n: nat, lo: nat, hi: nat, loadFails: bool, fate: Fate,
                     s: State, t: State)
    requires k < n <= |script| && StartsWith(script, k, backlog) && LivesOn(script, k, n)
    requires s == Steps(FRESH, script, 0, n) && CanPoll(s, lo, hi) && (loadFails || s.mark == "")
    requires t == Polled(s, lo, hi, loadFails, fate)
    ensures if backlog && forall j | k < j < n :: !PollCompletes(script, j) then Hands(s, t, lo, hi, fate)
            else t.emitted == s.emitted
  {
    var r := RecordOf(script, n);
    FlagMeans(script, k, backlog, n);
    StepsKeep(script, n);
    MarkSaved(s, r);
    PollHands(s, r, lo, hi, loadFails, fate, 0, t);
  }

  lemma MarkHands(s: State, r: Record, lo: nat, hi: nat, fate: Fate, t: State)
    requires Inv(s, r) && CanPoll(s, lo, hi) && s.mark != "" && t == Polled(s, lo, hi, false, fate)
    ensures 0 < r.w <= |s.log| && s.log[r.w - 1] == s.mark && Hands(s, t, if r.w < lo then lo else r.w, hi, fate)
  {
    MarkSaved(s, r);
    PollHands(s, r, lo, hi, false, fate, r.w, t);
  }

  /** With a watermark the flag changes nothing: a poll hands out the entries of its window behind the watermark. */
  lemma MarkMeans(script: seq<Choice>, n: nat, lo: nat, hi: nat, fate: Fate, s: State, t: State) returns (w: nat)
    requires n <= |script| && s == Steps(FRESH, script, 0, n) && CanPoll(s, lo, hi) && s.mark != ""
    requires t == Polled(s, lo, hi, false, fate)
    ensures 0 < w <= |s.log| && s.log[w - 1] == s.mark && Hands(s, t, if w < lo then lo else w, hi, fate)
  {
    StepsKeep(script, n);
    var r := RecordOf(script, n);
    w := r.w;
    MarkHands(s, r, lo, hi, fate, t);
  }
}
