/** cmd/pgf/serve.go: the session cache under one mutex, as interleaved atomic sections. */
module SessionCache {
  import opened Wrappers

  /** Where a call of sessionFor stands between two critical sections. */
  datatype Call = Missed(key: string)
                | Opened(key: string, sess: nat)
                | Discarding(key: string, sess: nat, existing: nat)
                | Finished(key: string, result: Result<nat>)

  /** sessions: the cache; minted: how many sessions connectors have opened (they are numbered from 0);
      closes: every Close, in order; calls: the calls made so far. */
  datatype State = State(sessions: map<string, nat>, minted: nat, closes: seq<nat>, calls: map<nat, Call>)

  const EMPTY := State(map[], 0, [], map[])

  /** One atomic step of some thread. CloseAll visits the keys in the order the map iteration picks. */
  datatype Step = Begin(c: nat, key: string) | OpenFails(c: nat) | OpenWorks(c: nat)
                | Commit(c: nat) | CloseDuplicate(c: nat) | CloseAll(order: seq<string>)

  ghost predicate Enumerates(order: seq<string>, m: map<string, nat>) {
    && (forall k | k in m :: k in order)
    && (forall i | 0 <= i < |order| :: order[i] in m)
    && (forall i, j | 0 <= i < j < |order| :: order[i] != order[j])
  }

  function Values(order: seq<string>, m: map<string, nat>): (ids: seq<nat>)
    requires forall i | 0 <= i < |order| :: order[i] in m
    ensures |ids| == |order| && forall i | 0 <= i < |order| :: ids[i] == m[order[i]]
  {
    seq(|order|, i requires 0 <= i < |order| => m[order[i]])
  }

  ghost function Apply(s: State, e: Step): State {
    match e
    case Begin(c, key) =>
      if c in s.calls then s
      else s.(calls := s.calls[c := if key in s.sessions then Finished(key, Ok(s.sessions[key])) else Missed(key)])
    case OpenFails(c) =>
      if c in s.calls && s.calls[c].Missed? then s.(calls := s.calls[c := Finished(s.calls[c].key, Err)]) else s
    case OpenWorks(c) =>
      if c in s.calls && s.calls[c].Missed? then
        s.(calls := s.calls[c := Opened(s.calls[c].key, s.minted)], minted := s.minted + 1)
      else s
    case Commit(c) =>
      if c in s.calls && s.calls[c].Opened? then
        var Opened(key, sess) := s.calls[c];
        if key in s.sessions then s.(calls := s.calls[c := Discarding(key, sess, s.sessions[key])])
        else s.(sessions := s.sessions[key := sess], calls := s.calls[c := Finished(key, Ok(sess))])
      else s
    case CloseDuplicate(c) =>
      if c in s.calls && s.calls[c].Discarding? then
        var Discarding(key, sess, existing) := s.calls[c];
        s.(closes := s.closes + [sess], calls := s.calls[c := Finished(key, Ok(existing))])
      else s
    case CloseAll(order) =>
      if Enumerates(order, s.sessions) then
        s.(closes := s.closes + Values(order, s.sessions), sessions := map[])
      else s
  }

  ghost function Run(steps: seq<Step>, n: nat): State
    requires n <= |steps|
  {
    if n == 0 then EMPTY else Apply(Run(steps, n - 1), steps[n - 1])
  }

  /** rpcServer, with the connectors' sessions and the calls in progress beside it. */
  class RpcServer {
    var sessions: map<string, nat>
    var minted: nat
    var closes: seq<nat>
    var calls: map<nat, Call>

    constructor ()
      ensures View() == EMPTY
    {
      sessions, minted, closes, calls := map[], 0, [], map[];
    }

    ghost function View(): State
      reads this
    {
      State(sessions, minted, closes, calls)
    }

    /** Lines 278-284, under the lock: a hit returns at once. */
    method BeginCall(c: nat, key: string)
      requires c !in calls
      modifies this
      ensures View() == Apply(old(View()), Begin(c, key))
    {
      if key in sessions {
        var sess := sessions[key];
        calls := calls[c := Finished(key, Ok(sess))];
        return;
      }
      calls := calls[c := Missed(key)];
    }

    /** Lines 286-302, outside the lock. */
    method OpenSession(c: nat, works: bool)
      requires c in calls && calls[c].Missed?
      modifies this
      ensures View() == Apply(old(View()), if works then OpenWorks(c) else OpenFails(c))
    {
      var key := calls[c].key;
      if !works {
        calls := calls[c := Finished(key, Err)];
        return;
      }
      var sess := minted;
      minted := minted + 1;
      calls := calls[c := Opened(key, sess)];
    }

    /** Lines 304-313, under the lock: keep the new session unless another call was faster. */
    method CommitOrDiscard(c: nat)
      requires c in calls && calls[c].Opened?
      modifies this
      ensures View() == Apply(old(View()), Commit(c))
    {
      var key, sess := calls[c].key, calls[c].sess;
      if key in sessions {
        var existing := sessions[key];
        calls := calls[c := Discarding(key, sess, existing)];
        return;
      }
      sessions := sessions[key := sess];
      calls := calls[c := Finished(key, Ok(sess))];
    }

    /** Line 307, after the lock is released. */
    method CloseOwn(c: nat)
      requires c in calls && calls[c].Discarding?
      modifies this
      ensures View() == Apply(old(View()), CloseDuplicate(c))
    {
      closes := closes + [calls[c].sess];
      calls := calls[c := Finished(calls[c].key, Ok(calls[c].existing))];
    }

    /** closeAll, under the lock throughout. */
    method CloseEvery(order: seq<string>)
      requires Enumerates(order, sessions)
      modifies this
      ensures View() == Apply(old(View()), CloseAll(order))
    {
      ghost var all := sessions;
      ghost var ids, done := Values(order, all), {};
      for i := 0 to |order|
        invariant closes == old(closes) + ids[..i] && minted == old(minted) && calls == old(calls)
        invariant forall k | k in sessions :: k in all && k !in done && sessions[k] == all[k]
        invariant forall k | k in all && k !in done :: k in sessions
        invariant forall j | 0 <= j < |order| :: order[j] in done <==> j < i
      {
        var k := order[i];
        closes := closes + [sessions[k]];
        sessions := sessions - {k};
        done := done + {k};
      }
      NoKeys(sessions);
    }

    /** Whatever atomic section comes next; a step that does not apply does nothing. */
    method Take(e: Step)
      requires e.CloseAll? ==> Enumerates(e.order, sessions)
      modifies this
      ensures View() == Apply(old(View()), e)
    {
      match e {
        case Begin(c, key) =>
          if c !in calls { BeginCall(c, key); }
        case OpenFails(c) =>
          if c in calls && calls[c].Missed? { OpenSession(c, false); }
        case OpenWorks(c) =>
          if c in calls && calls[c].Missed? { OpenSession(c, true); }
        case Commit(c) =>
          if c in calls && calls[c].Opened? { CommitOrDiscard(c); }
        case CloseDuplicate(c) =>
          if c in calls && calls[c].Discarding? { CloseOwn(c); }
        case CloseAll(order) =>
          CloseEvery(order);
      }
    }

    /** sessionFor when no other thread interferes. */
    method SessionFor(c: nat, key: string, works: bool) returns (r: Result<nat>)
      requires c !in calls
      modifies this
      ensures c in calls && calls[c] == Finished(key, r)
      ensures r == if key in old(sessions) then Ok(old(sessions)[key]) else if works then Ok(old(minted)) else Err
      ensures sessions == if key !in old(sessions) && works then old(sessions)[key := old(minted)] else old(sessions)
      ensures closes == old(closes)
    {
      BeginCall(c, key);
      if calls[c].Missed? {
        OpenSession(c, works);
        if calls[c].Opened? {
          CommitOrDiscard(c);
        }
      }
      r := calls[c].result;
    }
  }

  lemma NoKeys(m: map<string, nat>)
    requires forall k :: k !in m
    ensures m == map[]
  {
  }

  /** Any interleaving: each step is one atomic section of some thread. */
  method Serve(steps: seq<Step>) returns (server: RpcServer)
    requires forall i | 0 <= i < |steps| && steps[i].CloseAll? :: Enumerates(steps[i].order, Run(steps, i).sessions)
    ensures fresh(server) && server.View() == Run(steps, |steps|)
  {
    server := new RpcServer();
    for i := 0 to |steps|
      invariant server.View() == Run(steps, i) && fresh(server)
    {
      server.Take(steps[i]);
    }
  }
}
