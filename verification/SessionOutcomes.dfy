/** What the calls of sessionFor return, in every interleaving. */
module SessionOutcomes {
  import opened Wrappers
  import opened SessionCache
  import opened SessionRuns

  /** At step k the open of call c fails. */
  predicate OpenFailsAt(steps: seq<Step>, calls: map<nat, Call>, k: nat, c: nat) {
    k < |steps| && steps[k] == OpenFails(c) && c in calls && calls[c].Missed?
  }

  ghost predicate FailsAt(steps: seq<Step>, k: nat, c: nat)
    requires k < |steps|
  {
    OpenFailsAt(steps, Run(steps, k).calls, k, c)
  }

  /** A call that has ended keeps its answer; and a call ends with an error only when its own open fails. */
  lemma StepEnds(s: State, e: Step, c: nat)
    requires c in Apply(s, e).calls && Apply(s, e).calls[c].Finished?
    ensures if c in s.calls && s.calls[c].Finished? then Apply(s, e).calls[c] == s.calls[c]
            else Apply(s, e).calls[c].result.Err? <==> e == OpenFails(c) && c in s.calls && s.calls[c].Missed?
    ensures c in s.calls ==> Apply(s, e).calls[c].key == s.calls[c].key
  {
  }

  lemma {:induction false} StaysEnded(steps: seq<Step>, m: nat, n: nat, c: nat)
    requires m <= n <= |steps| && c in Run(steps, m).calls && Run(steps, m).calls[c].Finished?
    ensures c in Run(steps, n).calls && Run(steps, n).calls[c] == Run(steps, m).calls[c]
  {
    if m < n {
      StaysEnded(steps, m, n - 1, c);
      EndedStays(Run(steps, n - 1), steps[n - 1], c);
    }
  }

  lemma EndedStays(s: State, e: Step, c: nat)
    requires c in s.calls && s.calls[c].Finished?
    ensures c in Apply(s, e).calls && Apply(s, e).calls[c] == s.calls[c]
  {
  }

  /** A finished call ended with an error if and only if its own open failed. */
  lemma {:induction false} FailsExactly(steps: seq<Step>, n: nat, c: nat)
    requires n <= |steps| && c in Run(steps, n).calls && Run(steps, n).calls[c].Finished?
    ensures Run(steps, n).calls[c].result.Err? <==> exists k :: 0 <= k < n && FailsAt(steps, k, c)
  {
    var m := n - 1;
    var s := Run(steps, m);
    StepEnds(s, steps[m], c);
    if c in s.calls && s.calls[c].Finished? {
      FailsExactly(steps, m, c);
      assert !FailsAt(steps, m, c);
    } else {
      if FailsAt(steps, m, c) {
        assert Run(steps, n).calls[c].result.Err?;
      }
      forall k | 0 <= k < m
        ensures !FailsAt(steps, k, c)
      {
        NotYetFailed(steps, k, m, c);
      }
    }
  }

  /** A call that has not ended has not failed. */
  lemma NotYetFailed(steps: seq<Step>, k: nat, m: nat, c: nat)
    requires k < m <= |steps| && !(c in Run(steps, m).calls && Run(steps, m).calls[c].Finished?)
    ensures !FailsAt(steps, k, c)
  {
    if FailsAt(steps, k, c) {
      var t := Run(steps, k + 1);
      assert t == Apply(Run(steps, k), steps[k]);
      StaysEnded(steps, k + 1, m, c);
    }
  }

  /** Until closeAll, every finished call whose own open did not fail returned the session cached for its key:
      the winner of a race, its losers and those who found it cached. */
  lemma ReturnsCached(steps: seq<Step>, c: nat)
    requires forall i | 0 <= i < |steps| :: !steps[i].CloseAll?
    requires c in Run(steps, |steps|).calls && Run(steps, |steps|).calls[c].Finished?
    requires forall k | 0 <= k < |steps| :: !FailsAt(steps, k, c)
    ensures var s := Run(steps, |steps|);
            s.calls[c].key in s.sessions && s.calls[c].result == Ok(s.sessions[s.calls[c].key])
  {
    FailsExactly(steps, |steps|, c);
    RunAgreed(steps, |steps|);
  }

  /** A call is about the key it was made for. */
  lemma {:induction false} KeepsKey(steps: seq<Step>, n: nat, c: nat)
    requires n <= |steps| && c in Run(steps, n).calls
    ensures exists k :: 0 <= k < n && steps[k] == Begin(c, Run(steps, n).calls[c].key)
  {
    var m := n - 1;
    var s := Run(steps, m);
    if c in s.calls {
      KeepsKey(steps, m, c);
      assert Run(steps, n).calls[c].key == s.calls[c].key;
    } else {
      assert steps[m] == Begin(c, Run(steps, n).calls[c].key);
    }
  }

  /** The race of two calls for one key: both get the first one's session, and the second one's own is closed. */
  lemma RaceResolved()
    ensures var steps := [Begin(0, "k"), Begin(1, "k"), OpenWorks(0), OpenWorks(1), Commit(0), Commit(1), CloseDuplicate(1)];
            var s := Run(steps, 7);
            && s.sessions == map["k" := 0] && s.closes == [1]
            && s.calls == map[0 := Finished("k", Ok(0)), 1 := Finished("k", Ok(0))]
  {
    var steps := [Begin(0, "k"), Begin(1, "k"), OpenWorks(0), OpenWorks(1), Commit(0), Commit(1), CloseDuplicate(1)];
    assert Run(steps, 1) == EMPTY.(calls := map[0 := Missed("k")]);
    assert Run(steps, 2) == EMPTY.(calls := map[0 := Missed("k"), 1 := Missed("k")]);
    assert Run(steps, 3) == State(map[], 1, [], map[0 := Opened("k", 0), 1 := Missed("k")]);
    assert Run(steps, 4) == State(map[], 2, [], map[0 := Opened("k", 0), 1 := Opened("k", 1)]);
    assert Run(steps, 5) == State(map["k" := 0], 2, [], map[0 := Finished("k", Ok(0)), 1 := Opened("k", 1)]);
    assert Run(steps, 6) == State(map["k" := 0], 2, [], map[0 := Finished("k", Ok(0)), 1 := Discarding("k", 1, 0)]);
  }
}
