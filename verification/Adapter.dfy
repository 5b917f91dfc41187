/** The external adapter: circuit breaker, retries with exponential backoff, and the two kinds of calls. */
module Adapter {

  datatype Outcome = Outcome(at: int, ok: bool)

  datatype Breaker = Breaker(failures: nat, tripped: bool, lastMove: int)

  const CLOSED: Breaker := Breaker(0, false, 0)

  // ---------------------------------------------------------------- the breaker by history

  function Record(b: Breaker, o: Outcome, threshold: nat): Breaker {
    if o.ok then Breaker(0, false, o.at)
    else if b.failures + 1 >= threshold then Breaker(b.failures + 1, true, o.at)
    else b.(failures := b.failures + 1)
  }

  function After(history: seq<Outcome>, threshold: nat): Breaker {
    if |history| == 0 then CLOSED
    else Record(After(history[..|history| - 1], threshold), history[|history| - 1], threshold)
  }

  predicate Blocks(b: Breaker, now: int, openInterval: int) { b.tripped && now - b.lastMove < openInterval }

  /** Length of the run of failures at the end of the history. */
  function TrailingFailures(history: seq<Outcome>): nat {
    if |history| == 0 || history[|history| - 1].ok then 0 else 1 + TrailingFailures(history[..|history| - 1])
  }

  lemma {:induction false} BreakerTracksHistory(history: seq<Outcome>, threshold: nat)
    requires threshold >= 1
    ensures var b := After(history, threshold);
            && b.failures == TrailingFailures(history)
            && (b.tripped <==> TrailingFailures(history) >= threshold)
            && (b.tripped ==> b.lastMove == history[|history| - 1].at)
  {
    if |history| > 0 { BreakerTracksHistory(history[..|history| - 1], threshold); }
  }

  predicate MustBlock(history: seq<Outcome>, threshold: nat, openInterval: int, now: int) {
    && |history| > 0
    && TrailingFailures(history) >= threshold
    && now - history[|history| - 1].at < openInterval
  }

  /**
   A call is blocked exactly when the recorded outcomes end in at least `threshold` consecutive failures and
   the last of them is less than the open interval ago.
   */
  lemma BlockedIff(history: seq<Outcome>, threshold: nat, openInterval: int, now: int)
    requires threshold >= 1
    ensures Blocks(After(history, threshold), now, openInterval) <==> MustBlock(history, threshold, openInterval, now)
  {
    BreakerTracksHistory(history, threshold);
  }

  // ---------------------------------------------------------------- backoff

  function Pow2(n: nat): (p: nat)
    ensures p >= 1
  {
    if n == 0 then 1 else 2 * Pow2(n - 1)
  }

  /** Sleep after attempts 0, ..., n - 1. */
  function Backoff(base: nat, n: nat): nat { if n == 0 then 0 else Backoff(base, n - 1) + base * Pow2(n - 1) }

  lemma {:induction false} BackoffTotal(base: nat, n: nat)
    ensures Backoff(base, n) == base * (Pow2(n) - 1)
  {
    if n > 0 {
      BackoffTotal(base, n - 1);
      var p := Pow2(n - 1);
      assert base * (p - 1) + base * p == base * (2 * p - 1);
    }
  }

  // ---------------------------------------------------------------- calls

  /** The upstream's answer to one attempt; Unbuildable is a request that could not even be made. */
  datatype Reply = Response(code: nat) | TransportError | Unbuildable

  predicate Good(r: Reply) { r.Response? && r.code < 500 }

  datatype Result = NotConfigured | CircuitOpen | BadUrl | Succeeded | Propagated(code: nat) | Unavailable

  /** The first attempt that succeeds, if one of the first n does. */
  ghost predicate FailsThrough(reply: nat -> Reply, n: nat) { forall k: nat :: k < n ==> !Good(reply(k)) }

  ghost predicate SleepsThrough(cancelled: nat -> bool, n: int) { forall k: nat :: k < n ==> !cancelled(k) }

  class ExternalAdapter {
    const url: string
    const maxRetries: nat
    const threshold: nat
    const openInterval: int
    const baseBackoff: nat := 25_000_000
    var failures: nat
    var circuitOpen: bool
    var lastStateMove: int
    ghost var history: seq<Outcome>

    ghost predicate Valid()
      reads this
    {
      threshold >= 1 && maxRetries >= 1 && Breaker(failures, circuitOpen, lastStateMove) == After(history, threshold)
    }

    constructor (url: string, maxRetries: int, threshold: int, openInterval: int)
      ensures Valid() && history == [] && this.url == url
      ensures this.maxRetries == (if maxRetries < 1 then 1 else maxRetries)
      ensures this.threshold == (if threshold < 1 then 1 else threshold)
      ensures this.openInterval == (if openInterval <= 0 then 30_000_000_000 else openInterval)
    {
      this.url := url;
      this.maxRetries := if maxRetries < 1 then 1 else maxRetries;
      this.threshold := if threshold < 1 then 1 else threshold;
      this.openInterval := if openInterval <= 0 then 30_000_000_000 else openInterval;
      failures, circuitOpen, lastStateMove, history := 0, false, 0, [];
    }

    /** Whether the call may go out, and the answer if it may not. */
    method Preflight(now: int) returns (blocked: bool, result: Result)
      requires Valid()
      ensures blocked == (url == "" || MustBlock(history, threshold, openInterval, now))
      ensures blocked ==> result == if url == "" then NotConfigured else CircuitOpen
    {
      BlockedIff(history, threshold, openInterval, now);
      if url == "" {
        return true, NotConfigured;
      }
      return circuitOpen && now - lastStateMove < openInterval, CircuitOpen;
    }

    method RecordSuccess(now: int)
      requires Valid()
      modifies this
      ensures Valid() && history == old(history) + [Outcome(now, true)]
    {
      history := history + [Outcome(now, true)];
      assert history[..|history| - 1] == old(history);
      failures := 0;
      circuitOpen := false;
      lastStateMove := now;
    }

    method RecordFailure(now: int)
      requires Valid()
      modifies this
      ensures Valid() && history == old(history) + [Outcome(now, false)]
    {
      history := history + [Outcome(now, false)];
      assert history[..|history| - 1] == old(history);
      failures := failures + 1;
      if failures >= threshold {
        circuitOpen := true;
        lastStateMove := now;
      }
    }

    /**
     Retries of a proxied request: n attempts are made, all but a final success fail, and the completed sleeps
     between them add up to base * (2^(n-1) - 1).
     */
    method ProxyWithRetries(idempotent: bool, reply: nat -> Reply, cancelled: nat -> bool)
      returns (success: bool, last: Reply, n: nat, slept: nat)
      requires maxRetries >= 1
      ensures 1 <= n <= (if idempotent then maxRetries else 1)
      ensures last == reply(n - 1) && success == Good(last) && FailsThrough(reply, n - 1)
      ensures SleepsThrough(cancelled, n - 1)
      ensures !success ==> n == (if idempotent then maxRetries else 1) || cancelled(n - 1)
      ensures slept == baseBackoff * (Pow2(n - 1) - 1)
    {
      var attempts := if idempotent then maxRetries else 1;
      success, slept, n, last := false, 0, 0, TransportError;
      while n < attempts
        invariant n <= attempts && slept == Backoff(baseBackoff, n)
        invariant FailsThrough(reply, n) && SleepsThrough(cancelled, n)
        invariant n < attempts
      {
        last := reply(n);
        if Good(last) {
          BackoffTotal(baseBackoff, n);
          return true, last, n + 1, slept;
        }
        if n == attempts - 1 || cancelled(n) {
          BackoffTotal(baseBackoff, n);
          return false, last, n + 1, slept;
        }
        slept := slept + baseBackoff * Pow2(n);
        n := n + 1;
      }
    }

    /** A proxied call records exactly one outcome if it gets past preflight and URL building, and none otherwise. */
    method Proxy(now: int, done: int, urlOk: bool, idempotent: bool, reply: nat -> Reply, cancelled: nat -> bool)
      returns (result: Result, n: nat)
      requires Valid()
      modifies this
      ensures Valid()
      ensures result in {NotConfigured, CircuitOpen, BadUrl} ==> history == old(history) && n == 0
      ensures result !in {NotConfigured, CircuitOpen, BadUrl} ==>
                && 1 <= n && FailsThrough(reply, n - 1)
                && history == old(history) + [Outcome(done, Good(reply(n - 1)))]
                && result == (if Good(reply(n - 1)) then Succeeded
                              else if reply(n - 1).Response? then Propagated(reply(n - 1).code)
                              else Unavailable)
      ensures result == CircuitOpen <==> url != "" && MustBlock(old(history), threshold, openInterval, now)
      ensures result == NotConfigured <==> url == ""
      ensures result == BadUrl <==> url != "" && !MustBlock(old(history), threshold, openInterval, now) && !urlOk
      ensures result == Succeeded ==> reply(n - 1).Response? && reply(n - 1).code < 500
      ensures result.Propagated? ==> result.code >= 500
      ensures n <= (if idempotent then maxRetries else 1) && SleepsThrough(cancelled, n - 1)
      ensures result.Propagated? || result == Unavailable ==>
                n == (if idempotent then maxRetries else 1) || cancelled(n - 1)
    {
      var blocked, answer := Preflight(now);
      if blocked {
        return answer, 0;
      }
      if !urlOk {
        return BadUrl, 0;
      }
      var success, last, slept;
      success, last, n, slept := ProxyWithRetries(idempotent, reply, cancelled);
      if success {
        RecordSuccess(done);
        return Succeeded, n;
      }
      RecordFailure(done);
      if last.Response? {
        return Propagated(last.code), n;
      }
      return Unavailable, n;
    }

    /** The retry loop of a direct call: here the backoff also follows the last failing attempt. */
    method CallWithRetries(idempotent: bool, reply: nat -> Reply, cancelled: nat -> bool)
      returns (success: bool, n: nat, slept: nat)
      ensures success ==> n >= 1 && Good(reply(n - 1)) && FailsThrough(reply, n - 1)
      ensures success ==> slept == baseBackoff * (Pow2(n - 1) - 1)
      ensures !success ==> FailsThrough(reply, n) && slept == baseBackoff * (Pow2(n) - 1)
      ensures !success ==>
                n == (if idempotent then maxRetries else 1) || reply(n).Unbuildable? || cancelled(n)
      ensures n <= (if idempotent then maxRetries else 1) && SleepsThrough(cancelled, if success then n - 1 else n)
    {
      var attempts := if idempotent then maxRetries else 1;
      n, slept := 0, 0;
      while n < attempts
        invariant n <= attempts && slept == Backoff(baseBackoff, n)
        invariant FailsThrough(reply, n) && SleepsThrough(cancelled, n)
      {
        var r := reply(n);
        if r.Unbuildable? {
          break;
        }
        if Good(r) {
          BackoffTotal(baseBackoff, n);
          return true, n + 1, slept;
        }
        if cancelled(n) {
          break;
        }
        slept := slept + baseBackoff * Pow2(n);
        n := n + 1;
      }
      BackoffTotal(baseBackoff, n);
      return false, n, slept;
    }

    /**
     A direct call records exactly one outcome past preflight. Unlike a proxied call it also sleeps after its
     last failing attempt: n failing attempts sleep base * (2^n - 1) in total.
     */
    method Invoke(now: int, done: int, idempotent: bool, reply: nat -> Reply, cancelled: nat -> bool)
      returns (result: Result, n: nat, slept: nat)
      requires Valid()
      modifies this
      ensures Valid()
      ensures result == CircuitOpen <==> url != "" && MustBlock(old(history), threshold, openInterval, now)
      ensures result in {NotConfigured, CircuitOpen} ==> history == old(history) && n == 0 && slept == 0
      ensures result !in {NotConfigured, CircuitOpen} ==>
                && history == old(history) + [Outcome(done, result == Succeeded)]
                && result in {Succeeded, Unavailable}
      ensures result == Succeeded ==>
                n >= 1 && Good(reply(n - 1)) && FailsThrough(reply, n - 1) && slept == baseBackoff * (Pow2(n - 1) - 1)
      ensures result == Unavailable ==> FailsThrough(reply, n) && slept == baseBackoff * (Pow2(n) - 1)
      ensures result == NotConfigured <==> url == ""
      ensures n <= (if idempotent then maxRetries else 1)
      ensures SleepsThrough(cancelled, if result == Succeeded then n - 1 else n)
      ensures result == Unavailable ==>
                n == (if idempotent then maxRetries else 1) || reply(n).Unbuildable? || cancelled(n)
    {
      var blocked, answer := Preflight(now);
      if blocked {
        return answer, 0, 0;
      }
      var success;
      success, n, slept := CallWithRetries(idempotent, reply, cancelled);
      if success {
        RecordSuccess(done);
        return Succeeded, n, slept;
      }
      RecordFailure(done);
      return Unavailable, n, slept;
    }
  }
}
