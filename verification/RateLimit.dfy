/** The fixed-window rate limiter, and what its windows guarantee for every sliding interval. */
module RateLimit {
  import opened Contracts

  datatype Counter = Counter(count: nat, expiresAt: int)

  type Counters = map<string, Counter>

  datatype Request = Request(now: int, key: string, limit: int, window: int)

  // ---------------------------------------------------------------- one request

  predicate Expired(c: Counter, now: int) { c.expiresAt < now }

  /** The counter a request is counted on: the current one, or a new window. */
  function Bumped(counters: Counters, r: Request): Counter {
    if r.key in counters && !Expired(counters[r.key], r.now)
    then counters[r.key].(count := counters[r.key].count + 1)
    else Counter(1, r.now + r.window)
  }

  function WithoutExpired(counters: Counters, now: int): Counters {
    map k | k in counters && !Expired(counters[k], now) :: counters[k]
  }

  /** The limiter as written: expired counters are deleted first. */
  function Next(counters: Counters, r: Request): Counters {
    var kept := WithoutExpired(counters, r.now);
    kept[r.key := Bumped(kept, r)]
  }

  predicate Allowed(counters: Counters, r: Request) { Bumped(WithoutExpired(counters, r.now), r).count <= r.limit }

  function After(trace: seq<Request>): Counters {
    if |trace| == 0 then map[] else Next(After(trace[..|trace| - 1]), trace[|trace| - 1])
  }

  /** The limiter's answer to request i of a trace. */
  predicate Decision(trace: seq<Request>, i: nat)
    requires i < |trace|
  {
    Allowed(After(trace[..i]), trace[i])
  }

  ghost predicate Chronological(trace: seq<Request>) {
    forall i, j :: 0 <= i < j < |trace| ==> trace[i].now <= trace[j].now
  }

  // ---------------------------------------------------------------- deleting never changes a decision

  /** A limiter that never deletes. */
  function KeepAll(trace: seq<Request>): Counters {
    if |trace| == 0 then map[]
    else
      var before, r := KeepAll(trace[..|trace| - 1]), trace[|trace| - 1];
      before[r.key := Bumped(before, r)]
  }

  /** Both limiters hold the same counter for every key, apart from counters that have expired. */
  ghost predicate SameLive(a: Counters, b: Counters, now: int) {
    && (forall k :: k in a ==> k in b && a[k] == b[k])
    && (forall k :: k in b && k !in a ==> Expired(b[k], now))
  }

  lemma SameLiveBumped(a: Counters, b: Counters, r: Request)
    requires SameLive(a, b, r.now)
    ensures Bumped(WithoutExpired(a, r.now), r) == Bumped(b, r)
    ensures SameLive(Next(a, r), b[r.key := Bumped(b, r)], r.now)
  {
  }

  lemma {:induction false} KeepAllAgrees(trace: seq<Request>, now: int)
    requires Chronological(trace) && (|trace| > 0 ==> trace[|trace| - 1].now <= now)
    ensures SameLive(After(trace), KeepAll(trace), now)
  {
    if |trace| > 0 {
      var p, r := trace[..|trace| - 1], trace[|trace| - 1];
      KeepAllAgrees(p, r.now);
      SameLiveBumped(After(p), KeepAll(p), r);
    }
  }

  /** Deleting expired counters never changes any decision. */
  lemma DeletionIsInvisible(trace: seq<Request>, i: nat)
    requires Chronological(trace) && i < |trace|
    ensures Decision(trace, i) <==> Bumped(KeepAll(trace[..i]), trace[i]).count <= trace[i].limit
  {
    KeepAllAgrees(trace[..i], trace[i].now);
    SameLiveBumped(After(trace[..i]), KeepAll(trace[..i]), trace[i]);
  }

  // ---------------------------------------------------------------- the sliding bound

  /** Requests for the key in the closed interval [a, a + width] that were allowed. */
  function AllowedWithin(trace: seq<Request>, key: string, a: int, width: int): nat {
    if |trace| == 0 then 0
    else
      var n := |trace| - 1;
      AllowedWithin(trace[..n], key, a, width) +
      (if trace[n].key == key && a <= trace[n].now <= a + width && Decision(trace, n) then 1 else 0)
  }

  ghost predicate Uniform(trace: seq<Request>, key: string, limit: int, window: int) {
    forall i :: 0 <= i < |trace| && trace[i].key == key ==> trace[i].limit == limit && trace[i].window == window
  }

  function Least(a: int, b: int): int { if a < b then a else b }

  /**
   What can have been allowed in [a, a + W], given the key's current counter. If its window opened before the
   interval, the opening request itself lies outside; if it opened inside, at most one earlier window
   reaches into the interval, again without its opening request; after that the interval is over.
   */
  ghost predicate Bound(counters: Counters, key: string, limit: nat, a: int, width: nat, total: nat, last: int) {
    if key !in counters then total == 0
    else
      var c := counters[key];
      var start := c.expiresAt - width;
      && c.count >= 1
      && start <= last <= c.expiresAt
      && (total > 0 ==> limit >= 1 && a <= last)
      && (start < a ==> total <= Least(c.count, limit) - 1 || total == 0)
      && (a <= start <= a + width ==> total <= limit - 1 + Least(c.count, limit) || total == 0)
      && (total <= 2 * limit - 1 || total == 0)
  }

  /** The last time the key was used; anything if it never was. */
  function LastUse(trace: seq<Request>, key: string): int {
    if |trace| == 0 then 0
    else if trace[|trace| - 1].key == key then trace[|trace| - 1].now
    else LastUse(trace[..|trace| - 1], key)
  }

  lemma {:induction false} LastUseIsPast(trace: seq<Request>, key: string, now: int)
    requires Chronological(trace) && (|trace| > 0 ==> trace[|trace| - 1].now <= now)
    requires key in KeepAll(trace)
    ensures LastUse(trace, key) <= now
  {
    var p, r := trace[..|trace| - 1], trace[|trace| - 1];
    if r.key != key { LastUseIsPast(p, key, r.now); }
  }

  lemma {:induction false} BoundHolds(trace: seq<Request>, key: string, limit: nat, a: int, width: nat)
    requires Chronological(trace) && Uniform(trace, key, limit, width)
    ensures Bound(KeepAll(trace), key, limit, a, width, AllowedWithin(trace, key, a, width), LastUse(trace, key))
  {
    if |trace| > 0 {
      var n := |trace| - 1;
      var p, r := trace[..n], trace[n];
      BoundHolds(p, key, limit, a, width);
      DeletionIsInvisible(trace, n);
      if r.key == key && key in KeepAll(p) {
        LastUseIsPast(p, key, r.now);
      }
    }
  }

  /**
   For a key always used with the same limit and window, every closed interval as long as the window contains
   at most 2 * limit - 1 allowed requests, and none if the limit is not positive.
   */
  lemma SlidingBound(trace: seq<Request>, key: string, limit: int, width: nat, a: int)
    requires Chronological(trace) && Uniform(trace, key, limit, width)
    ensures AllowedWithin(trace, key, a, width) <= if limit >= 1 then 2 * limit - 1 else 0
  {
    if limit >= 0 {
      BoundHolds(trace, key, limit, a, width);
    } else {
      NothingAllowed(trace, key, limit, a, width);
    }
  }

  lemma {:induction false} NothingAllowed(trace: seq<Request>, key: string, limit: int, a: int, width: nat)
    requires Uniform(trace, key, limit, width) && limit < 0
    ensures AllowedWithin(trace, key, a, width) == 0
  {
    if |trace| > 0 { NothingAllowed(trace[..|trace| - 1], key, limit, a, width); }
  }

  // ---------------------------------------------------------------- the bound is attained

  function BurstAt(key: string, limit: nat, window: nat, i: nat): Request {
    Request(if i == 0 then 0 else if i < limit then window else window + 1, key, limit, window)
  }

  /** One request opens a window, `limit - 1` more come at its very end, and `limit` right after it. */
  function Burst(key: string, limit: nat, window: nat, n: nat): (t: seq<Request>)
    ensures |t| == n
    ensures forall i :: 0 <= i < n ==> t[i] == BurstAt(key, limit, window, i)
  {
    seq(n, (i: nat) => BurstAt(key, limit, window, i))
  }

  lemma BurstPrefix(key: string, limit: nat, window: nat, n: nat)
    ensures Burst(key, limit, window, n + 1)[..n] == Burst(key, limit, window, n)
  {
  }

  /** The burst's one counter after n requests. */
  function BurstCounter(limit: nat, window: nat, n: nat): Counter {
    if n <= limit then Counter(n, window) else Counter(n - limit, 2 * window + 1)
  }

  lemma {:induction false} BurstBumps(key: string, limit: nat, window: nat, n: nat)
    requires 1 <= n < 2 * limit && window >= 1
    ensures Bumped(map[key := BurstCounter(limit, window, n)], BurstAt(key, limit, window, n)) ==
      BurstCounter(limit, window, n + 1)
  {
  }

  lemma {:induction false} BurstCounters(key: string, limit: nat, window: nat, n: nat)
    requires 1 <= n <= 2 * limit && window >= 1
    ensures KeepAll(Burst(key, limit, window, n)) == map[key := BurstCounter(limit, window, n)]
  {
    BurstPrefix(key, limit, window, n - 1);
    if n == 1 {
      assert KeepAll(Burst(key, limit, window, 0)) == map[];
    } else {
      BurstCounters(key, limit, window, n - 1);
      BurstBumps(key, limit, window, n - 1);
      var c, d := BurstCounter(limit, window, n - 1), BurstCounter(limit, window, n);
      assert map[key := c][key := d] == map[key := d];
    }
  }

  lemma BurstDecision(key: string, limit: nat, window: nat, n: nat)
    requires 0 <= n < 2 * limit && window >= 1
    ensures Decision(Burst(key, limit, window, n + 1), n)
  {
    var trace := Burst(key, limit, window, n + 1);
    BurstPrefix(key, limit, window, n);
    DeletionIsInvisible(trace, n);
    if n > 0 { BurstCounters(key, limit, window, n); }
  }

  lemma {:induction false} BurstIsAllowed(key: string, limit: nat, window: nat, n: nat)
    requires 1 <= n <= 2 * limit && window >= 1
    ensures AllowedWithin(Burst(key, limit, window, n), key, window, window) == n - 1
  {
    var trace := Burst(key, limit, window, n);
    BurstPrefix(key, limit, window, n - 1);
    BurstDecision(key, limit, window, n - 1);
    assert AllowedWithin(trace, key, window, window)
        == AllowedWithin(trace[..n - 1], key, window, window) + (if n == 1 then 0 else 1);
    if n > 1 { BurstIsAllowed(key, limit, window, n - 1); }
  }

  /** For every positive limit and window some trace has exactly 2 * limit - 1 allowed requests in one interval. */
  lemma SlidingBoundIsTight(key: string, limit: nat, window: nat)
    requires limit >= 1 && window >= 1
    ensures var trace := Burst(key, limit, window, 2 * limit);
            && Chronological(trace) && Uniform(trace, key, limit, window)
            && AllowedWithin(trace, key, window, window) == 2 * limit - 1
  {
    BurstIsAllowed(key, limit, window, 2 * limit);
  }

  // ---------------------------------------------------------------- keys do not share budgets

  /** The requests for one key. */
  function Only(trace: seq<Request>, key: string): seq<Request> {
    if |trace| == 0 then []
    else
      var p, r := Only(trace[..|trace| - 1], key), trace[|trace| - 1];
      if r.key == key then p + [r] else p
  }

  lemma {:induction false} OnlyOwnRequestsCount(trace: seq<Request>, key: string)
    ensures key in KeepAll(trace) <==> key in KeepAll(Only(trace, key))
    ensures key in KeepAll(trace) ==> KeepAll(trace)[key] == KeepAll(Only(trace, key))[key]
  {
    if |trace| > 0 {
      var p, r := trace[..|trace| - 1], trace[|trace| - 1];
      OnlyOwnRequestsCount(p, key);
      if r.key == key { assert (Only(p, key) + [r])[..|Only(p, key)|] == Only(p, key); }
    }
  }

  /** A decision depends on the earlier requests for the same key only: traffic on other keys cannot use up its quota. */
  lemma KeysAreIndependent(trace: seq<Request>, i: nat)
    requires Chronological(trace) && i < |trace|
    ensures Decision(trace, i) <==>
            Bumped(KeepAll(Only(trace[..i], trace[i].key)), trace[i]).count <= trace[i].limit
  {
    DeletionIsInvisible(trace, i);
    OnlyOwnRequestsCount(trace[..i], trace[i].key);
  }

  // ---------------------------------------------------------------- the limiter

  // ---------------------------------------------------------------- a decision counts the requests of a window

  /** The request that opened the window in which the key's last request was counted. */
  function Opener(trace: seq<Request>, key: string): (o: Option<nat>)
    ensures o.Some? ==> o.value < |trace| && trace[o.value].key == key
  {
    if |trace| == 0 then None
    else
      var n, r := |trace| - 1, trace[|trace| - 1];
      var before := Opener(trace[..n], key);
      if r.key != key then before
      else if before.None? || r.now > trace[before.value].now + trace[before.value].window then Some(n)
      else before
  }

  /** Requests for the key from position i on. */
  function CountFrom(trace: seq<Request>, key: string, i: nat): nat {
    if |trace| <= i then 0
    else CountFrom(trace[..|trace| - 1], key, i) + (if trace[|trace| - 1].key == key then 1 else 0)
  }

  lemma {:induction false} CounterIsWindow(trace: seq<Request>, key: string)
    ensures key in KeepAll(trace) <==> Opener(trace, key).Some?
    ensures key in KeepAll(trace) ==>
      var i := Opener(trace, key).value;
      KeepAll(trace)[key] == Counter(CountFrom(trace, key, i), trace[i].now + trace[i].window)
  {
    if |trace| > 0 {
      var p := trace[..|trace| - 1];
      CounterIsWindow(p, key);
      if Opener(p, key).Some? { assert p[Opener(p, key).value] == trace[Opener(p, key).value]; }
    }
  }

  /** For every trace: a request is allowed iff its window, itself included, holds at most `limit` requests of its key. */
  lemma {:induction false} DecisionCountsWindow(trace: seq<Request>, i: nat)
    requires Chronological(trace) && i < |trace|
    ensures var t, r := trace[..i + 1], trace[i];
      Opener(t, r.key).Some? && (Decision(trace, i) <==> CountFrom(t, r.key, Opener(t, r.key).value) <= r.limit)
  {
    var t := trace[..i + 1];
    assert t[..i] == trace[..i] && t[i] == trace[i];
    DeletionIsInvisible(trace, i);
    CounterIsWindow(t, trace[i].key);
  }

  class RateLimiter {
    const limit: int
    const window: int
    var counters: Counters

    constructor (limit: int, window: int)
      ensures this.limit == limit && this.window == window && counters == After([])
    {
      this.limit, this.window, counters := limit, window, map[];
    }

    method DeleteExpired(now: int)
      modifies this`counters
      ensures counters == WithoutExpired(old(counters), now)
    {
      var rest := counters.Keys;
      while rest != {}
        invariant rest <= counters.Keys <= old(counters).Keys
        invariant forall k :: k in counters ==> counters[k] == old(counters)[k]
        invariant forall k :: k in old(counters) && k !in rest ==> (k in counters <==> !Expired(old(counters)[k], now))
        decreases |rest|
      {
        var k :| k in rest;
        rest := rest - {k};
        if Expired(counters[k], now) {
          counters := counters - {k};
        }
      }
    }

    /** Counts the request and tells whether it is within the quota of its window. */
    method AllowWithin(now: int, key: string, limit: int, window: int) returns (ok: bool)
      modifies this`counters
      ensures var r := Request(now, key, limit, window);
              ok == Allowed(old(counters), r) && counters == Next(old(counters), r)
    {
      DeleteExpired(now);
      var counter := if key in counters && !Expired(counters[key], now) then counters[key]
                     else Counter(0, now + window);
      counter := counter.(count := counter.count + 1);
      counters := counters[key := counter];
      ok := counter.count <= limit;
    }

    method Allow(now: int, key: string) returns (ok: bool)
      modifies this`counters
      ensures var r := Request(now, key, limit, window);
              ok == Allowed(old(counters), r) && counters == Next(old(counters), r)
    {
      ok := AllowWithin(now, key, limit, window);
    }
  }
}
