/** transport/http/retry.go: capped exponential backoff and the retry loop built on it. */
module Retry {
  import opened Order
  import opened Wrappers

  function Pow2(k: nat): (p: nat)
    ensures p >= 1
  {
    if k == 0 then 1 else 2 * Pow2(k - 1)
  }

  /** x * 2^k: x doubled k times. */
  function Doubled(x: int, k: nat): int {
    if k == 0 then x else 2 * Doubled(x, k - 1)
  }

  /** The smaller of initial * 2^k and max. */
  function Capped(initial: int, max: int, k: nat): int { Min(Doubled(initial, k), max) }

  /** The delay of the k-th Next since the last Reset: doubled and then capped at each step. */
  function Delay(initial: int, max: int, k: nat): int {
    if k == 0 then initial else Min(2 * Delay(initial, max, k - 1), max)
  }

  /** Capping before doubling makes no difference. */
  lemma CapTwice(x: int, max: int)
    requires max > 0 || x <= max
    ensures Min(2 * Min(x, max), max) == Min(2 * x, max)
  {
  }

  lemma {:induction false} DoubledDown(x: int, k: nat)
    requires x <= 0
    ensures Doubled(x, k) <= x
  {
    if k > 0 {
      DoubledDown(x, k - 1);
    }
  }

  /** From an initial delay within the cap, the k-th delay is min(initial * 2^k, max). */
  lemma {:induction false} DelayIsCapped(initial: int, max: int, k: nat)
    requires initial <= max
    ensures Delay(initial, max, k) == Capped(initial, max, k)
  {
    if k > 0 {
      DelayIsCapped(initial, max, k - 1);
      if max <= 0 {
        DoubledDown(initial, k - 1);
      }
      CapTwice(Doubled(initial, k - 1), max);
    }
  }

  /** Every delay is min(initial * 2^k, max) exactly when the first one does not exceed the cap. */
  lemma CappedThroughout(initial: int, max: int)
    ensures (forall k: nat :: Delay(initial, max, k) == Capped(initial, max, k)) <==> initial <= max
  {
    if initial > max {
      assert Delay(initial, max, 0) != Capped(initial, max, 0);
    } else {
      forall k: nat
        ensures Delay(initial, max, k) == Capped(initial, max, k)
      {
        DelayIsCapped(initial, max, k);
      }
    }
  }

  class Backoff {
    var cur: int
    var initial: int
    var max: int
    /** Next calls since the last Reset. */
    ghost var steps: nat

    ghost predicate Valid()
      reads this
    {
      cur == Delay(initial, max, steps)
    }

    constructor (initial: int, max: int)
      ensures Valid() && this.initial == initial && this.max == max && steps == 0
    {
      this.cur, this.initial, this.max, steps := initial, initial, max, 0;
    }

    method Next() returns (d: int)
      requires Valid()
      modifies this
      ensures Valid() && initial == old(initial) && max == old(max)
      ensures d == Delay(initial, max, old(steps)) && steps == old(steps) + 1
    {
      d := cur;
      cur := cur * 2;
      if cur > max {
        cur := max;
      }
      steps := steps + 1;
    }

    method Reset()
      requires Valid()
      modifies this
      ensures Valid() && initial == old(initial) && max == old(max) && steps == 0
    {
      cur := initial;
      steps := 0;
    }
  }

  datatype Use = Next | Reset

  /** Next calls after the last Reset of a history of uses. */
  function Since(uses: seq<Use>, n: nat): nat
    requires n <= |uses|
  {
    if n == 0 || uses[n - 1].Reset? then 0 else Since(uses, n - 1) + 1
  }

  /** The delays that the first n uses give. */
  ghost predicate Replayed(initial: int, max: int, uses: seq<Use>, n: nat, delays: seq<int>) {
    && n == |delays| <= |uses|
    && forall i | 0 <= i < n && uses[i].Next? :: delays[i] == Delay(initial, max, Since(uses, i))
  }

  lemma ReplayedMore(initial: int, max: int, uses: seq<Use>, n: nat, delays: seq<int>, d: int)
    requires n < |uses| && Replayed(initial, max, uses, n, delays)
    requires uses[n].Next? ==> d == Delay(initial, max, Since(uses, n))
    ensures Replayed(initial, max, uses, n + 1, delays + [d])
  {
  }

  /** Every interleaving: the k-th Next since the last Reset returns the k-th delay. */
  method Replay(initial: int, max: int, uses: seq<Use>) returns (delays: seq<int>)
    ensures |delays| == |uses|
    ensures forall i | 0 <= i < |uses| && uses[i].Next? :: delays[i] == Delay(initial, max, Since(uses, i))
  {
    var b := new Backoff(initial, max);
    delays := [];
    for i := 0 to |uses|
      invariant b.Valid() && b.initial == initial && b.max == max && fresh(b)
      invariant b.steps == Since(uses, i) && Replayed(initial, max, uses, i, delays)
    {
      var d := 0;
      if uses[i].Next? {
        d := b.Next();
      } else {
        b.Reset();
      }
      ReplayedMore(initial, max, uses, i, delays, d);
      delays := delays + [d];
    }
  }

  /* ---------- RetryOn ---------- */

  const MAX_ATTEMPTS := 5
  const FIRST_DELAY := 600
  const LAST_DELAY := 30_000

  /** What one call of fn gives: success, an error with a status to retry on, or another error. */
  datatype Outcome = Success | Retryable(status: int) | Other(what: string)

  datatype Verdict = Succeeded | Gave(error: Outcome) | Exhausted(last: Outcome) | Cancelled

  /** How many of the first n calls are retryable before the first that is not. */
  function Run(outcomes: nat -> Outcome, n: nat): (r: nat)
    ensures r <= n && (forall i: nat | i < r :: outcomes(i).Retryable?) && (r < n ==> !outcomes(r).Retryable?)
  {
    if n == 0 then 0
    else
      var r := Run(outcomes, n - 1);
      if r == n - 1 && outcomes(n - 1).Retryable? then n else r
  }

  lemma {:induction false} DoubledIsProduct(x: int, k: nat)
    ensures Doubled(x, k) == x * Pow2(k)
  {
    if k > 0 {
      DoubledIsProduct(x, k - 1);
    }
  }

  /** Milliseconds slept after r retryable failures. */
  function Slept(r: nat): int { FIRST_DELAY * (Pow2(r) - 1) }

  predicate AllRetryable(outcomes: nat -> Outcome, n: nat) { forall j: nat | j < n :: outcomes(j).Retryable? }

  lemma RunAtLeast(outcomes: nat -> Outcome, n: nat)
    requires n < MAX_ATTEMPTS && AllRetryable(outcomes, n)
    ensures Run(outcomes, MAX_ATTEMPTS) >= n
    ensures Run(outcomes, MAX_ATTEMPTS) == n <==> !outcomes(n).Retryable?
    ensures outcomes(n).Retryable? <==> AllRetryable(outcomes, n + 1)
  {
  }

  lemma SleepSum(r: nat)
    requires r < MAX_ATTEMPTS
    ensures Slept(r) + Delay(FIRST_DELAY, LAST_DELAY, r) == Slept(r + 1)
  {
    DelayIsCapped(FIRST_DELAY, LAST_DELAY, r);
    DoubledIsProduct(FIRST_DELAY, r);
    assert Pow2(4) == 2 * Pow2(3) == 4 * Pow2(2) == 8 * Pow2(1) == 16;
  }

  /** `live` sleeps pass before the context is cancelled. Without cancellation: at most five calls; the
      first success or other error ends it and is the verdict; r retryable errors cost
      600 * (2^r - 1) milliseconds of sleep, the last sleep included. */
  method RetryOn(outcomes: nat -> Outcome, live: nat) returns (v: Verdict, calls: nat, slept: int)
    ensures var r := Run(outcomes, MAX_ATTEMPTS);
            if live >= r then
              && slept == Slept(r)
              && calls == (if r == MAX_ATTEMPTS then MAX_ATTEMPTS else r + 1)
              && v == (if r == MAX_ATTEMPTS then Exhausted(outcomes(MAX_ATTEMPTS - 1))
                       else if outcomes(r).Success? then Succeeded else Gave(outcomes(r)))
            else v == Cancelled && calls == live + 1 && slept == Slept(live)
    ensures 1 <= calls <= 5 && 0 <= slept <= 600 + 1200 + 2400 + 4800 + 9600
    ensures forall i: nat | i < calls - 1 :: outcomes(i).Retryable?
    ensures v == Succeeded <==> outcomes(calls - 1) == Success
    ensures v.Exhausted? ==> calls == 5 && v.last == outcomes(4) && slept == 18_600
    ensures v.Gave? <==> outcomes(calls - 1).Other?
    ensures v.Gave? ==> v.error == outcomes(calls - 1)
    ensures v == Cancelled ==> live == calls - 1 && outcomes(calls - 1).Retryable?
  {
    var bo := new Backoff(FIRST_DELAY, LAST_DELAY);
    slept, calls := 0, 0;
    var last := Other("");
    var i := 0;
    while i < MAX_ATTEMPTS
      invariant 0 <= i <= MAX_ATTEMPTS && calls == i && i <= live
      invariant bo.Valid() && fresh(bo) && bo.steps == i && bo.initial == FIRST_DELAY && bo.max == LAST_DELAY
      invariant slept == Slept(i) && AllRetryable(outcomes, i)
      invariant i > 0 ==> last == outcomes(i - 1)
    {
      var err := outcomes(i);
      calls := calls + 1;
      RunAtLeast(outcomes, i);
      if err.Success? {
        return Succeeded, calls, slept;
      }
      if !err.Retryable? {
        return Gave(err), calls, slept;
      }
      last := err;
      if live == i {
        return Cancelled, calls, slept;
      }
      SleepSum(i);
      var d := bo.Next();
      slept := slept + d;
      i := i + 1;
    }
    v := Exhausted(last);
  }
}
