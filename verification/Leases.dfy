/** Worker leases, and the maintenance loop they gate. */
module Leases {
  import opened Contracts

  datatype Lease = Lease(worker: string, expiresAt: int)

  datatype Call =
    | Acquire(now: int, worker: string, shard: string, ttl: int)
    | Release(now: int, worker: string, shard: string)

  // ---------------------------------------------------------------- one call

  predicate Grants(leases: map<string, Lease>, c: Call)
    requires c.Acquire?
  {
    !(c.shard in leases && leases[c.shard].expiresAt > c.now && leases[c.shard].worker != c.worker)
  }

  function Step(leases: map<string, Lease>, c: Call): map<string, Lease> {
    match c
    case Acquire(now, worker, shard, ttl) =>
      if Grants(leases, c) then leases[shard := Lease(worker, now + ttl)] else leases
    case Release(_, worker, shard) =>
      if shard in leases && leases[shard].worker == worker then leases - {shard} else leases
  }

  function After(trace: seq<Call>): map<string, Lease> {
    if |trace| == 0 then map[] else Step(After(trace[..|trace| - 1]), trace[|trace| - 1])
  }

  /** Call i of the trace is a successful acquire of the shard. */
  predicate Granted(trace: seq<Call>, i: nat, shard: string)
    requires i < |trace|
  {
    trace[i].Acquire? && trace[i].shard == shard && Grants(After(trace[..i]), trace[i])
  }

  ghost predicate Chronological(trace: seq<Call>) {
    forall i, j :: 0 <= i < j < |trace| ==> trace[i].now <= trace[j].now
  }

  // ---------------------------------------------------------------- exclusion

  /** When the worker's own claim on the shard runs out, judging only by its own successful calls. */
  function Claim(trace: seq<Call>, worker: string, shard: string): Option<int> {
    if |trace| == 0 then None
    else
      var n := |trace| - 1;
      var c := trace[n];
      if c.worker != worker || c.shard != shard then Claim(trace[..n], worker, shard)
      else if c.Release? then None
      else if Grants(After(trace[..n]), c) then Some(c.now + c.ttl)
      else Claim(trace[..n], worker, shard)
  }

  predicate Holds(trace: seq<Call>, worker: string, shard: string, now: int) {
    Claim(trace, worker, shard).Some? && now < Claim(trace, worker, shard).value
  }

  /** A worker that believes it holds the shard is the one the table names. */
  lemma {:induction false} ClaimIsRecorded(trace: seq<Call>, worker: string, shard: string, now: int)
    requires Chronological(trace) && (|trace| > 0 ==> trace[|trace| - 1].now <= now)
    requires Holds(trace, worker, shard, now)
    ensures shard in After(trace) && After(trace)[shard] == Lease(worker, Claim(trace, worker, shard).value)
  {
    var n := |trace| - 1;
    var p, c := trace[..n], trace[n];
    if !(c.worker == worker && c.shard == shard && c.Acquire? && Grants(After(p), c)) {
      ClaimIsRecorded(p, worker, shard, c.now);
    }
  }

  /** At any time at most one worker can believe it holds an unexpired lease on a shard. */
  lemma AtMostOneHolder(trace: seq<Call>, v: string, w: string, shard: string, now: int)
    requires Chronological(trace) && (|trace| > 0 ==> trace[|trace| - 1].now <= now)
    requires Holds(trace, v, shard, now) && Holds(trace, w, shard, now)
    ensures v == w
  {
    ClaimIsRecorded(trace, v, shard, now);
    ClaimIsRecorded(trace, w, shard, now);
  }

  /** The lease in the table is its worker's own claim. */
  lemma {:induction false} RecordedIsClaim(trace: seq<Call>, shard: string)
    ensures shard in After(trace) ==>
      Claim(trace, After(trace)[shard].worker, shard) == Some(After(trace)[shard].expiresAt)
  {
    if |trace| > 0 { RecordedIsClaim(trace[..|trace| - 1], shard); }
  }

  /** An acquire succeeds exactly when no other worker holds the shard: a free, expired or own lease is granted. */
  lemma {:induction false} GrantedIff(trace: seq<Call>, i: nat)
    requires Chronological(trace) && i < |trace| && trace[i].Acquire?
    ensures Granted(trace, i, trace[i].shard) <==>
      forall w :: w != trace[i].worker ==> !Holds(trace[..i], w, trace[i].shard, trace[i].now)
  {
    var p, c := trace[..i], trace[i];
    RecordedIsClaim(p, c.shard);
    forall w | w != c.worker && Holds(p, w, c.shard, c.now) ensures !Grants(After(p), c) {
      ClaimIsRecorded(p, w, c.shard, c.now);
    }
    if !Grants(After(p), c) { assert Holds(p, After(p)[c.shard].worker, c.shard, c.now); }
  }

  // ---------------------------------------------------------------- distance between successive holders

  ghost predicate NoRelease(trace: seq<Call>, i: nat, j: nat, worker: string, shard: string) {
    forall k :: i < k < j && k < |trace| ==> trace[k] != Release(trace[k].now, worker, shard)
  }

  ghost predicate NoGrant(trace: seq<Call>, i: nat, j: nat, shard: string) {
    forall k :: i < k < j && k < |trace| ==> !Granted(trace, k, shard)
  }

  lemma {:induction false} LeaseStays(trace: seq<Call>, i: nat, j: nat, shard: string)
    requires i < j <= |trace| && Granted(trace, i, shard)
    requires NoGrant(trace, i, j, shard) && NoRelease(trace, i, j, trace[i].worker, shard)
    ensures shard in After(trace[..j])
    ensures After(trace[..j])[shard] == Lease(trace[i].worker, trace[i].now + trace[i].ttl)
    decreases j
  {
    assert trace[..j][..j - 1] == trace[..j - 1];
    if i < j - 1 {
      LeaseStays(trace, i, j - 1, shard);
      assert !Granted(trace, j - 1, shard);
    }
  }

  /**
   Two successive successful acquires of a shard by different workers, with no release by the first in
   between, are at least the first one's ttl apart.
   */
  lemma TakeoverWaitsForTtl(trace: seq<Call>, i: nat, j: nat, shard: string)
    requires i < j < |trace| && Granted(trace, i, shard) && Granted(trace, j, shard)
    requires NoGrant(trace, i, j, shard) && NoRelease(trace, i, j, trace[i].worker, shard)
    requires trace[i].worker != trace[j].worker
    ensures trace[i].now + trace[i].ttl <= trace[j].now
  {
    LeaseStays(trace, i, j, shard);
  }

  /** The last successful acquire of the shard before position j. */
  lemma {:induction false} PreviousGrant(trace: seq<Call>, i: nat, j: nat, shard: string) returns (k: nat)
    requires i < j <= |trace| && Granted(trace, i, shard)
    ensures i <= k < j && Granted(trace, k, shard) && NoGrant(trace, k, j, shard)
    decreases j
  {
    if Granted(trace, j - 1, shard) { k := j - 1; } else { k := PreviousGrant(trace, i, j - 1, shard); }
  }

  /**
   If a shard is never released and always acquired for at least `ttl`, any two successful acquires by
   different workers are at least `ttl` apart, however many acquires lie between them.
   */
  lemma {:induction false} DifferentWorkersKeepDistance(trace: seq<Call>, i: nat, j: nat, shard: string, ttl: int)
    requires Chronological(trace) && i < j < |trace| && Granted(trace, i, shard) && Granted(trace, j, shard)
    requires trace[i].worker != trace[j].worker
    requires forall k :: 0 <= k < |trace| && trace[k].shard == shard ==> trace[k].Acquire? && trace[k].ttl >= ttl
    ensures trace[i].now + ttl <= trace[j].now
    decreases j
  {
    var k := PreviousGrant(trace, i, j, shard);
    if trace[k].worker != trace[j].worker {
      TakeoverWaitsForTtl(trace, k, j, shard);
    } else {
      DifferentWorkersKeepDistance(trace, i, k, shard, ttl);
    }
  }

  // ---------------------------------------------------------------- the lease table and the maintenance loop

  class WorkerLeases {
    var leases: map<string, Lease>
    ghost var trace: seq<Call>

    ghost predicate Valid()
      reads this
    {
      leases == After(trace)
    }

    constructor ()
      ensures Valid() && trace == []
    {
      leases, trace := map[], [];
    }

    method TryAcquire(now: int, worker: string, shard: string, ttl: int) returns (ok: bool)
      requires Valid()
      modifies this
      ensures Valid() && trace == old(trace) + [Acquire(now, worker, shard, ttl)]
      ensures ok == Granted(trace, |old(trace)|, shard)
    {
      trace := trace + [Acquire(now, worker, shard, ttl)];
      assert trace[..|trace| - 1] == old(trace);
      if shard in leases && leases[shard].expiresAt > now && leases[shard].worker != worker {
        return false;
      }
      leases := leases[shard := Lease(worker, now + ttl)];
      return true;
    }

    method Drop(now: int, worker: string, shard: string)
      requires Valid()
      modifies this
      ensures Valid() && trace == old(trace) + [Release(now, worker, shard)]
    {
      trace := trace + [Release(now, worker, shard)];
      assert trace[..|trace| - 1] == old(trace);
      if shard in leases && leases[shard].worker == worker {
        leases := leases - {shard};
      }
    }
  }

  function Shard(task: string): string { "maintenance:" + task }

  /** The calls one maintenance round makes, one per task, at the times it gets to them. */
  function RoundCalls(instance: string, tasks: seq<string>, clock: nat -> int, ttl: int): (calls: seq<Call>)
    ensures |calls| == |tasks|
    ensures forall i :: 0 <= i < |tasks| ==> calls[i] == Acquire(clock(i), instance, Shard(tasks[i]), ttl)
  {
    seq(|tasks|, i requires 0 <= i < |tasks| => Acquire(clock(i), instance, Shard(tasks[i]), ttl))
  }

  lemma GrantedInPrefix(trace: seq<Call>, c: Call, i: nat, shard: string)
    requires i < |trace|
    ensures Granted(trace + [c], i, shard) == Granted(trace, i, shard)
  {
    assert (trace + [c])[..i] == trace[..i];
  }

  /** The answers to the last |started| calls of a trace. */
  ghost predicate Answered(trace: seq<Call>, from: nat, tasks: seq<string>, started: seq<bool>) {
    && |started| <= |tasks| && from + |started| == |trace|
    && forall k :: 0 <= k < |started| ==> started[k] == Granted(trace, from + k, Shard(tasks[k]))
  }

  lemma AnsweredStep(trace: seq<Call>, c: Call, from: nat, tasks: seq<string>, started: seq<bool>, ok: bool)
    requires Answered(trace, from, tasks, started) && |started| < |tasks|
    requires ok == Granted(trace + [c], |trace|, Shard(tasks[|started|]))
    ensures Answered(trace + [c], from, tasks, started + [ok])
  {
    forall k | 0 <= k < |started| ensures started[k] == Granted(trace + [c], from + k, Shard(tasks[k])) {
      GrantedInPrefix(trace, c, from + k, Shard(tasks[k]));
    }
  }

  /** One maintenance round: a task is started exactly when its lease was acquired. */
  method RunMaintenance(leases: WorkerLeases, instance: string, tasks: seq<string>, clock: nat -> int, ttl: int)
    returns (started: seq<bool>)
    requires leases.Valid()
    modifies leases
    ensures leases.Valid()
    ensures leases.trace == old(leases.trace) + RoundCalls(instance, tasks, clock, ttl)
    ensures |started| == |tasks| && Answered(leases.trace, |old(leases.trace)|, tasks, started)
  {
    started := [];
    ghost var before := leases.trace;
    ghost var calls := RoundCalls(instance, tasks, clock, ttl);
    assert before + calls[..0] == before;
    for i := 0 to |tasks|
      invariant leases.Valid() && leases.trace == before + calls[..i] && |started| == i
      invariant Answered(leases.trace, |before|, tasks, started)
    {
      ghost var trace := leases.trace;
      var ok := leases.TryAcquire(clock(i), instance, Shard(tasks[i]), ttl);
      AnsweredStep(trace, calls[i], |before|, tasks, started, ok);
      TraceGrows(before, calls, i);
      started := started + [ok];
    }
    assert calls[..|tasks|] == calls;
  }

  lemma {:induction false} TraceGrows(before: seq<Call>, calls: seq<Call>, i: nat)
    requires i < |calls|
    ensures before + calls[..i] + [calls[i]] == before + calls[..i + 1]
  {
  }
}
