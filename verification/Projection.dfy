/**
 Projections: every consumer applies each outbox event at most once, dead-letters what its handler rejects,
 and can have exactly its dead letters replayed.
 */
module Projection {
  import opened Contracts
  import opened EventBus
  import opened Text

  datatype DeadLetter = DeadLetter(consumer: string, eventId: string, attemptCount: nat)

  datatype Status = Status(
    applied: nat, deadLettered: nat, retryCount: nat, replayCount: nat, replayPending: bool, lastEventId: string)

  const NO_STATUS: Status := Status(0, 0, 0, 0, false, "")

  /** One call of a handler, as recorded in the history. */
  datatype Attempt = Attempt(consumer: string, id: string, ok: bool)

  /** The platform's projection state; `log` is history and no operation reads it. */
  datatype State<M> = State(
    bus: Bus, dead: map<string, DeadLetter>, status: map<string, Status>, model: M, log: seq<Attempt>)

  /** A handler applies an event to the read model, or rejects it and leaves the read model alone. */
  type Handler<!M> = (M, Event) -> Option<M>

  // ---------------------------------------------------------------- dead-letter keys

  function DeadKey(consumer: string, id: string): string { consumer + ":" + id }

  /** One consumer is the other one followed by a colon and more. */
  predicate Extends(d: string, c: string) { |c| < |d| && d[..|c| + 1] == c + [':'] }

  lemma LongerConsumer(c: string, i: string, d: string, j: string)
    requires |c| < |d|
    ensures DeadKey(c, i) == DeadKey(d, j) <==> Extends(d, c) && i == d[|c| + 1..] + [':'] + j
  {
    var k := DeadKey(d, j);
    if DeadKey(c, i) == k {
      assert k[..|c| + 1] == c + [':'] && k[..|d|] == d;
      assert d[..|c| + 1] == k[..|c| + 1];
      assert i == k[|c| + 1..];
    }
    if Extends(d, c) {
      assert d == d[..|c| + 1] + d[|c| + 1..];
      assert k == c + [':'] + (d[|c| + 1..] + [':'] + j);
    }
  }

  /** Two pairs share a key exactly when they are equal, or one consumer extends the other by the start of the other id. */
  lemma SharedKeyIff(c: string, i: string, d: string, j: string)
    ensures DeadKey(c, i) == DeadKey(d, j) <==>
      || (c == d && i == j)
      || (Extends(d, c) && i == d[|c| + 1..] + [':'] + j)
      || (Extends(c, d) && j == c[|d| + 1..] + [':'] + i)
  {
    if |c| < |d| {
      LongerConsumer(c, i, d, j);
    } else if |d| < |c| {
      LongerConsumer(d, j, c, i);
    } else if DeadKey(c, i) == DeadKey(d, j) {
      var k := DeadKey(c, i);
      assert k[..|c|] == c && k[..|d|] == d && k[|c| + 1..] == i && k[|d| + 1..] == j;
    }
  }

  /** What a delivery is about. */
  datatype Pair = Pair(consumer: string, id: string)

  /** A consume call with an empty part fails, so such pairs are never attempted. */
  predicate Proper(p: Pair) { p.consumer != "" && p.id != "" }

  function KeyOf(p: Pair): string { DeadKey(p.consumer, p.id) }

  /** No two different pairs share a key. */
  ghost predicate ClashFree(pairs: iset<Pair>) {
    forall p, q :: p in pairs && q in pairs && Proper(p) && Proper(q) && KeyOf(p) == KeyOf(q) ==> p == q
  }

  function Colons(s: string): nat { if |s| == 0 then 0 else (if s[0] == ':' then 1 else 0) + Colons(s[1..]) }

  lemma {:induction false} ColonsConcat(a: string, b: string)
    ensures Colons(a + b) == Colons(a) + Colons(b)
  {
    if |a| == 0 {
      assert a + b == b;
    } else {
      assert (a + b)[1..] == a[1..] + b;
      ColonsConcat(a[1..], b);
    }
  }

  lemma ExtendedHasMoreColons(d: string, c: string)
    requires Extends(d, c)
    ensures Colons(d) > Colons(c)
  {
    var rest := d[|c| + 1..];
    assert d == (c + [':']) + rest;
    ColonsConcat(c + [':'], rest);
    ColonsConcat(c, [':']);
    assert [':'][1..] == [];
  }

  /** Consumers with the same number of colons never clash, whatever the event ids. */
  lemma EqualColonsNeverClash(pairs: iset<Pair>, n: nat)
    requires forall p :: p in pairs ==> Colons(p.consumer) == n
    ensures ClashFree(pairs)
  {
    forall p, q | p in pairs && q in pairs && KeyOf(p) == KeyOf(q) ensures p == q {
      SharedKeyIff(p.consumer, p.id, q.consumer, q.id);
      if Extends(p.consumer, q.consumer) { ExtendedHasMoreColons(p.consumer, q.consumer); }
      if Extends(q.consumer, p.consumer) { ExtendedHasMoreColons(q.consumer, p.consumer); }
    }
  }

  /** Event ids without colons never clash, whatever the consumers. */
  lemma ColonFreeIdsNeverClash(pairs: iset<Pair>)
    requires forall p :: p in pairs ==> ':' !in p.id
    ensures ClashFree(pairs)
  {
    forall p, q | p in pairs && q in pairs && KeyOf(p) == KeyOf(q) ensures p == q {
      SharedKeyIff(p.consumer, p.id, q.consumer, q.id);
    }
  }

  // ---------------------------------------------------------------- one delivery

  function StatusOf<M>(s: State<M>, c: string): Status { if c in s.status then s.status[c] else NO_STATUS }

  predicate ConsumeFails(c: string, e: Event, err: bool) { err || c == "" || e.id == "" }

  function Attempts<M>(s: State<M>, key: string): nat {
    if key !in s.dead then 0
    else if s.dead[key].attemptCount < 1 then 1
    else s.dead[key].attemptCount
  }

  function Rejected<M>(s: State<M>, c: string, e: Event): State<M> {
    var key := DeadKey(c, e.id);
    var status := StatusOf(s, c);
    s.(bus := AfterConsume(s.bus, c, e.id),
       dead := s.dead[key := DeadLetter(c, e.id, Attempts(s, key) + 1)],
       status := s.status[c := status.(
         deadLettered := status.deadLettered + 1,
         retryCount := status.retryCount + (if key in s.dead then 1 else 0))],
       log := s.log + [Attempt(c, e.id, false)])
  }

  function Applied<M>(s: State<M>, c: string, e: Event, model: M): State<M> {
    var status := StatusOf(s, c);
    s.(bus := AfterConsume(s.bus, c, e.id),
       dead := s.dead - {DeadKey(c, e.id)},
       status := s.status[c := status.(applied := status.applied + 1, lastEventId := e.id)],
       model := model,
       log := s.log + [Attempt(c, e.id, true)])
  }

  /** One pass of the loop of a projection run. */
  function Deliver<M>(s: State<M>, c: string, e: Event, h: Handler<M>, err: bool): State<M> {
    if ConsumeFails(c, e, err) || e.id in Seen(s.bus, c) then s
    else match h(s.model, e)
      case None => Rejected(s, c, e)
      case Some(m) => Applied(s, c, e, m)
  }

  function DeliverAll<M>(s: State<M>, c: string, events: seq<Event>, h: Handler<M>, err: nat -> bool): State<M> {
    if |events| == 0 then s
    else
      var n := |events| - 1;
      Deliver(DeliverAll(s, c, events[..n], h, err), c, events[n], h, err(n))
  }

  predicate AnyFails(c: string, events: seq<Event>, err: nat -> bool) {
    |events| > 0 &&
    (AnyFails(c, events[..|events| - 1], err) || ConsumeFails(c, events[|events| - 1], err(|events| - 1)))
  }

  lemma {:induction false} DeliverAllStep<M>(
    s: State<M>, c: string, events: seq<Event>, h: Handler<M>, err: nat -> bool, i: nat)
    requires i < |events|
    ensures DeliverAll(s, c, events[..i + 1], h, err)
         == Deliver(DeliverAll(s, c, events[..i], h, err), c, events[i], h, err(i))
    ensures AnyFails(c, events[..i + 1], err) == (AnyFails(c, events[..i], err) || ConsumeFails(c, events[i], err(i)))
  {
    assert events[..i + 1][..i] == events[..i];
  }

  function Ensured<M>(s: State<M>, c: string): State<M> { s.(status := s.status[c := StatusOf(s, c)]) }

  function Finished<M>(s: State<M>, c: string): State<M> {
    s.(bus := AfterCheckpoint(s.bus, c), status := s.status[c := StatusOf(s, c).(replayPending := false)])
  }

  /** A whole projection run over the outbox as it is at the start. */
  function AfterRun<M>(s: State<M>, c: string, h: Handler<M>, err: nat -> bool): State<M> {
    var t := DeliverAll(Ensured(s, c), c, s.bus.outbox, h, err);
    if AnyFails(c, s.bus.outbox, err) then t else Finished(t, c)
  }

  // ---------------------------------------------------------------- replay and reset

  function DeadIds<M>(s: State<M>, c: string): set<string> {
    set k | k in s.dead && s.dead[k].consumer == c && s.dead[k].eventId != "" :: s.dead[k].eventId
  }

  function AfterReplay<M>(s: State<M>, c: string): State<M> {
    if DeadIds(s, c) == {} then s
    else
      var status := StatusOf(s, c);
      s.(status := s.status[c := status.(replayCount := status.replayCount + 1, replayPending := true)],
         bus := AfterResetEvents(s.bus, c, DeadIds(s, c)))
  }

  // ---------------------------------------------------------------- runs of the platform

  /** Atomic steps; deliveries of different projection runs may interleave with anything. */
  datatype Op<!M> =
    | DoPublish(event: Event)
    | DoDeliver(consumer: string, event: Event, handler: Handler<M>, err: bool)
    | DoEnsure(consumer: string)
    | DoFinish(consumer: string)
    | DoReplay(consumer: string)
    | DoReset(consumer: string)

  function Step<M>(s: State<M>, op: Op<M>): State<M> {
    match op
    case DoPublish(e) => s.(bus := AfterPublish(s.bus, e))
    case DoDeliver(c, e, h, err) => Deliver(s, c, e, h, err)
    case DoEnsure(c) => Ensured(s, c)
    case DoFinish(c) => Finished(s, c)
    case DoReplay(c) => AfterReplay(s, c)
    case DoReset(c) => s.(bus := AfterReset(s.bus, c))
  }

  function Run<M>(s: State<M>, ops: seq<Op<M>>): State<M> {
    if |ops| == 0 then s else Step(Run(s, ops[..|ops| - 1]), ops[|ops| - 1])
  }

  // ---------------------------------------------------------------- what the history says

  predicate About(a: Attempt, c: string, id: string) { a.consumer == c && a.id == id }

  /** Failures of the event at the consumer since its last success. */
  function Trailing(log: seq<Attempt>, c: string, id: string): nat {
    if |log| == 0 then 0
    else
      var a := log[|log| - 1];
      if !About(a, c, id) then Trailing(log[..|log| - 1], c, id)
      else if a.ok then 0
      else 1 + Trailing(log[..|log| - 1], c, id)
  }

  function Count(log: seq<Attempt>, c: string, ok: bool): nat {
    if |log| == 0 then 0
    else Count(log[..|log| - 1], c, ok) + (if log[|log| - 1].consumer == c && log[|log| - 1].ok == ok then 1 else 0)
  }

  /** Failures that followed an unresolved failure of the same event. */
  function Retries(log: seq<Attempt>, c: string): nat {
    if |log| == 0 then 0
    else
      var p, a := log[..|log| - 1], log[|log| - 1];
      Retries(p, c) + (if a.consumer == c && !a.ok && Trailing(p, c, a.id) > 0 then 1 else 0)
  }

  /** The latest attempt of the event at the consumer failed. */
  predicate LatestFailed(log: seq<Attempt>, c: string, id: string) {
    exists i :: 0 <= i < |log| && log[i] == Attempt(c, id, false) &&
                forall j :: i < j < |log| ==> !About(log[j], c, id)
  }

  lemma {:induction false} TrailingMeansLatestFailed(log: seq<Attempt>, c: string, id: string)
    ensures Trailing(log, c, id) > 0 <==> LatestFailed(log, c, id)
  {
    if |log| > 0 {
      var p, a := log[..|log| - 1], log[|log| - 1];
      if About(a, c, id) {
        if !a.ok { assert log[|log| - 1] == Attempt(c, id, false); }
      } else {
        TrailingMeansLatestFailed(p, c, id);
        if LatestFailed(p, c, id) {
          var i :| 0 <= i < |p| && p[i] == Attempt(c, id, false) && forall j :: i < j < |p| ==> !About(p[j], c, id);
          assert log[i] == Attempt(c, id, false) && forall j :: i < j < |log| ==> !About(log[j], c, id);
        }
        if LatestFailed(log, c, id) {
          var i :| 0 <= i < |log| && log[i] == Attempt(c, id, false) && forall j :: i < j < |log| ==> !About(log[j], c, id);
          assert p[i] == Attempt(c, id, false) && forall j :: i < j < |p| ==> !About(p[j], c, id);
        }
      }
    }
  }

  /** For these pairs: a dead letter exists exactly for a failed latest attempt, with the failures since. */
  ghost predicate DeadLettersMatch(dead: map<string, DeadLetter>, log: seq<Attempt>, pairs: iset<Pair>) {
    && (forall p :: p in pairs && Proper(p) ==> (KeyOf(p) in dead <==> Trailing(log, p.consumer, p.id) > 0))
    && (forall k :: k in dead ==>
          var p := Pair(dead[k].consumer, dead[k].eventId);
          && p in pairs && Proper(p) && k == KeyOf(p)
          && dead[k].attemptCount == Trailing(log, p.consumer, p.id))
  }

  /** The event the consumer applied last. */
  function LastApplied(log: seq<Attempt>, c: string): string {
    if |log| == 0 then ""
    else
      var a := log[|log| - 1];
      if a.consumer == c && a.ok then a.id else LastApplied(log[..|log| - 1], c)
  }

  ghost predicate CountersMatch<M>(s: State<M>) {
    forall c :: && StatusOf(s, c).applied == Count(s.log, c, true)
                && StatusOf(s, c).deadLettered == Count(s.log, c, false)
                && StatusOf(s, c).retryCount == Retries(s.log, c)
                && StatusOf(s, c).lastEventId == LastApplied(s.log, c)
  }

  ghost predicate Inv<M>(s: State<M>, pairs: iset<Pair>) { DeadLettersMatch(s.dead, s.log, pairs) && CountersMatch(s) }

  lemma TrailingStep(log: seq<Attempt>, a: Attempt, c: string, id: string)
    ensures Trailing(log + [a], c, id)
         == if !About(a, c, id) then Trailing(log, c, id) else if a.ok then 0 else Trailing(log, c, id) + 1
  {
    assert (log + [a])[..|log|] == log;
  }

  lemma CountStep(log: seq<Attempt>, a: Attempt, c: string)
    ensures Count(log + [a], c, true) == Count(log, c, true) + (if a.consumer == c && a.ok then 1 else 0)
    ensures Count(log + [a], c, false) == Count(log, c, false) + (if a.consumer == c && !a.ok then 1 else 0)
    ensures Retries(log + [a], c)
         == Retries(log, c) + (if a.consumer == c && !a.ok && Trailing(log, c, a.id) > 0 then 1 else 0)
    ensures LastApplied(log + [a], c) == if a.consumer == c && a.ok then a.id else LastApplied(log, c)
  {
    assert (log + [a])[..|log|] == log;
  }

  /** Recording the outcome of one attempt keeps the dead letters in step with the history. */
  lemma DeadLettersStep(
    dead: map<string, DeadLetter>, dead': map<string, DeadLetter>, log: seq<Attempt>, a: Attempt, pairs: iset<Pair>)
    requires ClashFree(pairs) && DeadLettersMatch(dead, log, pairs)
    requires Pair(a.consumer, a.id) in pairs && Proper(Pair(a.consumer, a.id))
    requires var key := DeadKey(a.consumer, a.id);
             dead' == if a.ok then dead - {key}
                      else dead[key := DeadLetter(a.consumer, a.id, Trailing(log, a.consumer, a.id) + 1)]
    ensures DeadLettersMatch(dead', log + [a], pairs)
  {
    forall p | p in pairs && Proper(p) ensures KeyOf(p) in dead' <==> Trailing(log + [a], p.consumer, p.id) > 0 {
      TrailingStep(log, a, p.consumer, p.id);
      assert KeyOf(p) == KeyOf(Pair(a.consumer, a.id)) ==> p == Pair(a.consumer, a.id);
    }
    forall k | k in dead'
      ensures var p := Pair(dead'[k].consumer, dead'[k].eventId);
              && p in pairs && Proper(p) && k == KeyOf(p)
              && dead'[k].attemptCount == Trailing(log + [a], p.consumer, p.id)
    {
      TrailingStep(log, a, dead'[k].consumer, dead'[k].eventId);
    }
  }

  lemma AttemptsAreTrailing<M>(s: State<M>, p: Pair, pairs: iset<Pair>)
    requires ClashFree(pairs) && DeadLettersMatch(s.dead, s.log, pairs) && p in pairs && Proper(p)
    ensures Attempts(s, KeyOf(p)) == Trailing(s.log, p.consumer, p.id)
    ensures KeyOf(p) in s.dead <==> Trailing(s.log, p.consumer, p.id) > 0
  {
    var key := KeyOf(p);
    assert key in s.dead <==> Trailing(s.log, p.consumer, p.id) > 0;
    if key in s.dead {
      var q := Pair(s.dead[key].consumer, s.dead[key].eventId);
      assert KeyOf(q) == KeyOf(p);
    }
  }

  lemma CountersStep<M>(s: State<M>, t: State<M>, c: string, id: string, ok: bool)
    requires CountersMatch(s) && t.log == s.log + [Attempt(c, id, ok)]
    requires forall d :: d != c ==> StatusOf(t, d) == StatusOf(s, d)
    requires StatusOf(t, c).applied == StatusOf(s, c).applied + (if ok then 1 else 0)
    requires StatusOf(t, c).deadLettered == StatusOf(s, c).deadLettered + (if ok then 0 else 1)
    requires StatusOf(t, c).retryCount
          == StatusOf(s, c).retryCount + (if !ok && Trailing(s.log, c, id) > 0 then 1 else 0)
    requires StatusOf(t, c).lastEventId == if ok then id else StatusOf(s, c).lastEventId
    ensures CountersMatch(t)
  {
    forall d ensures StatusOf(t, d).applied == Count(t.log, d, true)
                  && StatusOf(t, d).deadLettered == Count(t.log, d, false)
                  && StatusOf(t, d).retryCount == Retries(t.log, d)
                  && StatusOf(t, d).lastEventId == LastApplied(t.log, d)
    {
      CountStep(s.log, Attempt(c, id, ok), d);
      assert StatusOf(s, d).applied == Count(s.log, d, true);
    }
  }

  lemma DeliverKeepsDead<M>(s: State<M>, c: string, e: Event, h: Handler<M>, err: bool, pairs: iset<Pair>)
    requires ClashFree(pairs) && Inv(s, pairs) && Pair(c, e.id) in pairs
    ensures var t := Deliver(s, c, e, h, err); DeadLettersMatch(t.dead, t.log, pairs)
  {
    if !ConsumeFails(c, e, err) && e.id !in Seen(s.bus, c) {
      AttemptsAreTrailing(s, Pair(c, e.id), pairs);
      var a := Attempt(c, e.id, h(s.model, e).Some?);
      DeadLettersStep(s.dead, Deliver(s, c, e, h, err).dead, s.log, a, pairs);
    }
  }

  lemma DeliverKeepsInv<M>(s: State<M>, c: string, e: Event, h: Handler<M>, err: bool, pairs: iset<Pair>)
    requires ClashFree(pairs) && Inv(s, pairs) && Pair(c, e.id) in pairs
    ensures Inv(Deliver(s, c, e, h, err), pairs)
  {
    DeliverKeepsDead(s, c, e, h, err, pairs);
    if !ConsumeFails(c, e, err) && e.id !in Seen(s.bus, c) {
      AttemptsAreTrailing(s, Pair(c, e.id), pairs);
      CountersStep(s, Deliver(s, c, e, h, err), c, e.id, h(s.model, e).Some?);
    }
  }

  predicate DeliversOnly<M>(ops: seq<Op<M>>, pairs: iset<Pair>) {
    forall i :: 0 <= i < |ops| && ops[i].DoDeliver? ==> Pair(ops[i].consumer, ops[i].event.id) in pairs
  }

  /**
   In every run of publishes, deliveries, replays and resets over pairs that do not clash, a dead letter exists exactly
   for the events whose latest attempt failed, its attempt count is the number of failures since the last success, and
   the counters of every consumer count its successful, failed and repeated attempts.
   */
  lemma {:induction false} RunKeepsInv<M>(s: State<M>, ops: seq<Op<M>>, pairs: iset<Pair>)
    requires ClashFree(pairs) && Inv(s, pairs) && DeliversOnly(ops, pairs)
    ensures Inv(Run(s, ops), pairs)
  {
    if |ops| > 0 {
      var p, op := ops[..|ops| - 1], ops[|ops| - 1];
      RunKeepsInv(s, p, pairs);
      var t := Run(s, p);
      match op
      case DoDeliver(c, e, h, err) => DeliverKeepsInv(t, c, e, h, err, pairs);
      case _ =>
        forall d ensures var u := Step(t, op);
                         && StatusOf(u, d).applied == StatusOf(t, d).applied
                         && StatusOf(u, d).deadLettered == StatusOf(t, d).deadLettered
                         && StatusOf(u, d).retryCount == StatusOf(t, d).retryCount
                         && StatusOf(u, d).lastEventId == StatusOf(t, d).lastEventId
        {
        }
    }
  }

  lemma {:induction false} DeliverAllKeepsInv<M>(
    s: State<M>, c: string, events: seq<Event>, h: Handler<M>, err: nat -> bool, pairs: iset<Pair>)
    requires ClashFree(pairs) && Inv(s, pairs) && forall i :: 0 <= i < |events| ==> Pair(c, events[i].id) in pairs
    ensures Inv(DeliverAll(s, c, events, h, err), pairs)
  {
    if |events| > 0 {
      var n := |events| - 1;
      DeliverAllKeepsInv(s, c, events[..n], h, err, pairs);
      DeliverKeepsInv(DeliverAll(s, c, events[..n], h, err), c, events[n], h, err(n), pairs);
    }
  }

  /** The platform before anything happened. */
  function Fresh<M>(m: M): State<M> { State(EMPTY, map[], map[], m, []) }

  /** The platform's own consumers, a service name, one colon and a name, with any event id. */
  ghost function PlatformPairs(): iset<Pair> { iset p: Pair | Colons(p.consumer) == 1 }

  /** For them dead letters follow the history in every run, whatever the event ids. */
  lemma {:induction false} PlatformRunKeepsInv<M>(m: M, ops: seq<Op<M>>)
    requires forall i :: 0 <= i < |ops| && ops[i].DoDeliver? ==> Colons(ops[i].consumer) == 1
    ensures Inv(Run(Fresh(m), ops), PlatformPairs())
  {
    EqualColonsNeverClash(PlatformPairs(), 1);
    RunKeepsInv(Fresh(m), ops, PlatformPairs());
  }

  // ---------------------------------------------------------------- pairs that clash

  function RejectAll<M>(): Handler<M> { (m: M, e: Event) => None }

  function AcceptAll<M>(): Handler<M> { (m: M, e: Event) => Some(m) }

  function Named(id: string): Event { Event(id, "", "", "", 0, map[]) }

  /** The first pair is rejected, then the second is applied. */
  function ClashRun<M>(p: Pair, q: Pair): seq<Op<M>> {
    [DoDeliver(p.consumer, Named(p.id), RejectAll(), false), DoDeliver(q.consumer, Named(q.id), AcceptAll(), false)]
  }

  /** If two pairs share a key, the success of one deletes the dead letter of the other, which is never replayed. */
  lemma {:induction false} ClashLosesDeadLetter<M>(m: M, p: Pair, q: Pair)
    requires p != q && Proper(p) && Proper(q) && KeyOf(p) == KeyOf(q)
    ensures var t := Run(Fresh(m), ClashRun(p, q));
      && LatestFailed(t.log, p.consumer, p.id) && KeyOf(p) !in t.dead
      && p.id in Seen(AfterReplay(t, p.consumer).bus, p.consumer)
  {
    var ops := ClashRun<M>(p, q);
    SharedKeyIff(p.consumer, p.id, q.consumer, q.id);
    assert p.consumer != q.consumer;
    assert ops[..1][..0] == [] && ops[..1][0] == ops[0];
    assert Run(Fresh(m), ops[..1][..0]) == Fresh(m);
    assert RejectAll<M>()(m, Named(p.id)) == None && AcceptAll<M>()(m, Named(q.id)) == Some(m);
    var u := Run(Fresh(m), ops[..1]);
    assert u == Deliver(Fresh(m), p.consumer, Named(p.id), RejectAll(), false);
    assert u == Rejected(Fresh(m), p.consumer, Named(p.id));
    var t := Run(Fresh(m), ops);
    assert t == Applied(u, q.consumer, Named(q.id), m);
    assert t.log == [Attempt(p.consumer, p.id, false), Attempt(q.consumer, q.id, true)];
    assert t.log[0] == Attempt(p.consumer, p.id, false) && !About(t.log[1], p.consumer, p.id);
    assert t.dead == map[];
  }

  /** The condition is exact: dead letters follow the history in every run over the pairs iff no two of them clash. */
  lemma {:induction false} DeadLettersFollowIff<M(!new)>(m: M, pairs: iset<Pair>)
    ensures ClashFree(pairs) <==> forall ops: seq<Op<M>> :: DeliversOnly(ops, pairs) ==> Inv(Run(Fresh(m), ops), pairs)
  {
    if ClashFree(pairs) {
      forall ops: seq<Op<M>> | DeliversOnly(ops, pairs) ensures Inv(Run(Fresh(m), ops), pairs) {
        RunKeepsInv(Fresh(m), ops, pairs);
      }
    } else {
      var p, q :| p in pairs && q in pairs && Proper(p) && Proper(q) && KeyOf(p) == KeyOf(q) && p != q;
      var ops := ClashRun<M>(p, q);
      assert DeliversOnly(ops, pairs);
      ClashLosesDeadLetter(m, p, q);
      TrailingMeansLatestFailed(Run(Fresh(m), ops).log, p.consumer, p.id);
      assert !Inv(Run(Fresh(m), ops), pairs);
    }
  }

  /** Number of consume calls of the consumer that were answered with true. */
  function Consumes(log: seq<Attempt>, c: string): nat {
    if |log| == 0 then 0 else Consumes(log[..|log| - 1], c) + (if log[|log| - 1].consumer == c then 1 else 0)
  }

  /** Every successful consume call is counted once, as applied or as dead-lettered. */
  lemma {:induction false} ConsumesAreAccounted<M>(s: State<M>, c: string)
    requires CountersMatch(s)
    ensures StatusOf(s, c).applied + StatusOf(s, c).deadLettered == Consumes(s.log, c)
  {
    CountsAddUp(s.log, c);
    assert StatusOf(s, c).applied == Count(s.log, c, true);
  }

  lemma {:induction false} CountsAddUp(log: seq<Attempt>, c: string)
    ensures Count(log, c, true) + Count(log, c, false) == Consumes(log, c)
  {
    if |log| > 0 { CountsAddUp(log[..|log| - 1], c); }
  }

  // ---------------------------------------------------------------- exactly-once effect

  function NoError(): nat -> bool { (i: nat) => false }

  predicate Deliverable(c: string, events: seq<Event>) {
    c != "" && forall i :: 0 <= i < |events| ==> events[i].id != ""
  }

  predicate HasEvent(events: seq<Event>, id: string) { exists i :: 0 <= i < |events| && events[i].id == id }

  /** The stream without repetitions: the first occurrence of every id. */
  function Dedup(events: seq<Event>): (r: seq<Event>)
    ensures |r| <= |events|
    ensures forall i :: 0 <= i < |r| ==> r[i] in events
  {
    if |events| == 0 then []
    else
      var p, e := events[..|events| - 1], events[|events| - 1];
      if HasEvent(p, e.id) then Dedup(p) else Dedup(p) + [e]
  }

  lemma HasEventStep(events: seq<Event>, id: string)
    requires |events| > 0
    ensures HasEvent(events, id) <==> HasEvent(events[..|events| - 1], id) || events[|events| - 1].id == id
  {
    var p := events[..|events| - 1];
    if HasEvent(events, id) {
      var i :| 0 <= i < |events| && events[i].id == id;
      if i < |p| { assert p[i].id == id; }
    }
    if HasEvent(p, id) {
      var i :| 0 <= i < |p| && p[i].id == id;
      assert events[i].id == id;
    }
  }

  /** After an error-free run the consumer has seen exactly what it had seen before and every event of the stream. */
  lemma {:induction false} DeliverAllSees<M>(s: State<M>, c: string, events: seq<Event>, h: Handler<M>, id: string)
    requires Deliverable(c, events)
    ensures id in Seen(DeliverAll(s, c, events, h, NoError()).bus, c) <==>
            id in Seen(s.bus, c) || HasEvent(events, id)
  {
    if |events| > 0 {
      DeliverAllSees(s, c, events[..|events| - 1], h, id);
      HasEventStep(events, id);
    }
  }

  /** Duplicate event ids have no effect: table, inbox, dead letters, counters and history are as without them. */
  lemma {:induction false} DuplicatesHaveNoEffect<M>(s: State<M>, c: string, events: seq<Event>, h: Handler<M>)
    requires Deliverable(c, events)
    ensures DeliverAll(s, c, events, h, NoError()) == DeliverAll(s, c, Dedup(events), h, NoError())
  {
    if |events| > 0 {
      var p, e := events[..|events| - 1], events[|events| - 1];
      DuplicatesHaveNoEffect(s, c, p, h);
      if HasEvent(p, e.id) {
        DeliverAllSees(s, c, p, h, e.id);
      } else {
        assert (Dedup(p) + [e])[..|Dedup(p)|] == Dedup(p);
      }
    }
  }

  lemma {:induction false} NothingNew<M>(s: State<M>, c: string, events: seq<Event>, h: Handler<M>, err: nat -> bool)
    requires forall i :: 0 <= i < |events| ==> events[i].id in Seen(s.bus, c)
    ensures DeliverAll(s, c, events, h, err) == s
  {
    if |events| > 0 {
      var p := events[..|events| - 1];
      assert forall i :: 0 <= i < |p| ==> p[i] == events[i];
      NothingNew(s, c, p, h, err);
    }
  }

  /** An immediate second run applies nothing and changes nothing, whatever its handler. */
  lemma SecondRunIsIdle<M>(s: State<M>, c: string, events: seq<Event>, h: Handler<M>, g: Handler<M>, err: nat -> bool)
    requires Deliverable(c, events)
    ensures var t := DeliverAll(s, c, events, h, NoError());
            DeliverAll(t, c, events, g, err) == t
  {
    var t := DeliverAll(s, c, events, h, NoError());
    forall i | 0 <= i < |events| ensures events[i].id in Seen(t.bus, c) {
      DeliverAllSees(s, c, events, h, events[i].id);
    }
    NothingNew(t, c, events, g, err);
  }

  // ---------------------------------------------------------------- at most once, and caught up

  /** Operation i of the run makes the consumer's handler attempt the event. */
  ghost predicate AttemptsAt<M(!new)>(s: State<M>, ops: seq<Op<M>>, i: nat, c: string, id: string) {
    i < |ops| && Run(s, ops[..i + 1]).log != Run(s, ops[..i]).log &&
    ops[i].DoDeliver? && ops[i].consumer == c && ops[i].event.id == id
  }

  /** The operation lets the consumer see events again. */
  predicate Releases<M>(op: Op<M>, c: string) { (op.DoReset? || op.DoReplay?) && op.consumer == c }

  lemma {:induction false} RunStep<M>(s: State<M>, ops: seq<Op<M>>, i: nat)
    requires i < |ops|
    ensures Run(s, ops[..i + 1]) == Step(Run(s, ops[..i]), ops[i])
  {
    assert ops[..i + 1][..i] == ops[..i];
  }

  lemma {:induction false} StepKeepsSeen<M>(s: State<M>, op: Op<M>, c: string, id: string)
    requires id in Seen(s.bus, c) && !Releases(op, c)
    ensures id in Seen(Step(s, op).bus, c)
  {
  }

  lemma {:induction false} SeenStays<M>(s: State<M>, ops: seq<Op<M>>, i: nat, j: nat, c: string, id: string)
    requires i <= j <= |ops| && id in Seen(Run(s, ops[..i]).bus, c) && forall k :: i <= k < j ==> !Releases(ops[k], c)
    ensures id in Seen(Run(s, ops[..j]).bus, c)
    decreases j
  {
    if i < j {
      SeenStays(s, ops, i, j - 1, c, id);
      RunStep(s, ops, j - 1);
      StepKeepsSeen(Run(s, ops[..j - 1]), ops[j - 1], c, id);
    }
  }

  /** At most once: between two attempts of one event by one consumer, that consumer was reset or replayed. */
  lemma {:induction false} RetriedOnlyAfterRelease<M(!new)>(
    s: State<M>, ops: seq<Op<M>>, i: nat, j: nat, c: string, id: string)
    requires i < j && AttemptsAt(s, ops, i, c, id) && AttemptsAt(s, ops, j, c, id)
    ensures exists k :: i < k < j && Releases(ops[k], c)
  {
    RunStep(s, ops, i);
    RunStep(s, ops, j);
    if forall k :: i < k < j ==> !Releases(ops[k], c) {
      SeenStays(s, ops, i + 1, j, c, id);
      assert false;
    }
  }

  lemma {:induction false} DeliverAllKeepsCheckpoints<M>(
    s: State<M>, c: string, events: seq<Event>, h: Handler<M>, err: nat -> bool)
    ensures var t := DeliverAll(s, c, events, h, err);
      t.bus.outbox == s.bus.outbox && t.bus.checkpoints == s.bus.checkpoints
    ensures StatusOf(DeliverAll(s, c, events, h, err), c).replayPending == StatusOf(s, c).replayPending
  {
    if |events| > 0 { DeliverAllKeepsCheckpoints(s, c, events[..|events| - 1], h, err); }
  }

  lemma {:induction false} AnyFailsIff(c: string, events: seq<Event>, err: nat -> bool)
    ensures AnyFails(c, events, err) <==> exists i :: 0 <= i < |events| && ConsumeFails(c, events[i], err(i))
  {
    if |events| > 0 {
      var n: nat := |events| - 1;
      AnyFailsIff(c, events[..n], err);
      if ConsumeFails(c, events[n], err(n)) { assert ConsumeFails(c, events[n], err(n)); }
    }
  }

  /** A run whose consume calls all succeed leaves no lag and no pending replay; otherwise the checkpoint stays. */
  lemma {:induction false} RunCatchesUpIff<M>(s: State<M>, c: string, h: Handler<M>, err: nat -> bool)
    ensures var t := AfterRun(s, c, h, err);
      if exists i :: 0 <= i < |s.bus.outbox| && ConsumeFails(c, s.bus.outbox[i], err(i)) then
        t.bus.checkpoints == s.bus.checkpoints && StatusOf(t, c).replayPending == StatusOf(s, c).replayPending
      else
        && Lag(t.bus, c) == 0 && !StatusOf(t, c).replayPending
        && forall d :: d != c ==> CheckpointOf(t.bus.checkpoints, d) == CheckpointOf(s.bus.checkpoints, d)
    ensures AfterRun(s, c, h, err).bus.outbox == s.bus.outbox
  {
    AnyFailsIff(c, s.bus.outbox, err);
    DeliverAllKeepsCheckpoints(Ensured(s, c), c, s.bus.outbox, h, err);
  }

  /** A replay is counted and pending exactly when the consumer has dead letters; no other status changes. */
  lemma {:induction false} ReplayIsCounted<M>(s: State<M>, c: string)
    ensures var r := AfterReplay(s, c);
      && (StatusOf(r, c).replayCount == StatusOf(s, c).replayCount + 1 <==> DeadIds(s, c) != {})
      && (DeadIds(s, c) != {} ==> StatusOf(r, c).replayPending)
      && (DeadIds(s, c) == {} ==> r == s)
      && forall d :: d != c ==> StatusOf(r, d) == StatusOf(s, d) && Seen(r.bus, d) == Seen(s.bus, d)
  {
  }

  // ---------------------------------------------------------------- what a replay retries

  /** Ids of the stream that are new to the consumer, each at its first occurrence. */
  function NewIds(events: seq<Event>, seen: set<string>): seq<string> {
    if |events| == 0 then []
    else
      var p, e := events[..|events| - 1], events[|events| - 1];
      if e.id in seen || HasEvent(p, e.id) then NewIds(p, seen) else NewIds(p, seen) + [e.id]
  }

  lemma {:induction false} NewIdsExact(events: seq<Event>, seen: set<string>)
    ensures forall id :: id in NewIds(events, seen) <==> id !in seen && HasEvent(events, id)
    ensures NoRepeats(NewIds(events, seen))
  {
    if |events| > 0 {
      var p, e := events[..|events| - 1], events[|events| - 1];
      NewIdsExact(p, seen);
      forall id ensures id in NewIds(events, seen) <==> id !in seen && HasEvent(events, id) {
        HasEventStep(events, id);
      }
    }
  }

  function AttemptedIds(log: seq<Attempt>): seq<string> {
    seq(|log|, i requires 0 <= i < |log| => log[i].id)
  }

  /** A run attempts, in order, exactly the events new to the consumer. */
  lemma {:induction false} RunAttempts<M>(s: State<M>, c: string, events: seq<Event>, h: Handler<M>)
    requires Deliverable(c, events)
    ensures var t := DeliverAll(s, c, events, h, NoError());
            && s.log <= t.log
            && AttemptedIds(t.log[|s.log|..]) == NewIds(events, Seen(s.bus, c))
            && forall i :: |s.log| <= i < |t.log| ==> t.log[i].consumer == c
  {
    if |events| > 0 {
      var p, e := events[..|events| - 1], events[|events| - 1];
      RunAttempts(s, c, p, h);
      DeliverAllSees(s, c, p, h, e.id);
      var u := DeliverAll(s, c, p, h, NoError());
      var t := DeliverAll(s, c, events, h, NoError());
      if t.log != u.log {
        assert t.log[|s.log|..] == u.log[|s.log|..] + [t.log[|u.log|]];
        assert AttemptedIds(t.log[|s.log|..]) == AttemptedIds(u.log[|s.log|..]) + [e.id];
      }
    }
  }

  /**
   A replay followed by a run attempts exactly the retained events whose latest attempt failed or that were
   never consumed, each once; no successfully applied event is applied again.
   */
  lemma ReplayRetriesExactly<M>(s: State<M>, c: string, h: Handler<M>, id: string, pairs: iset<Pair>)
    requires ClashFree(pairs) && Inv(s, pairs) && Deliverable(c, s.bus.outbox) && Pair(c, id) in pairs
    ensures s.log <= AfterRun(AfterReplay(s, c), c, h, NoError()).log
    ensures var t := AfterRun(AfterReplay(s, c), c, h, NoError());
            var retried := AttemptedIds(t.log[|s.log|..]);
            && NoRepeats(retried)
            && (id in retried <==>
                  HasEvent(s.bus.outbox, id) && (LatestFailed(s.log, c, id) || id !in Seen(s.bus, c)))
  {
    var r := AfterReplay(s, c);
    RunAttempts(Ensured(r, c), c, r.bus.outbox, h);
    NewIdsExact(r.bus.outbox, Seen(r.bus, c));
    TrailingMeansLatestFailed(s.log, c, id);
    if id != "" {
      ReplayReleases(s, c, id, pairs);
    } else {
      assert !HasEvent(s.bus.outbox, id);
    }
  }

  /** A replay releases exactly the consumer's dead letters from its inbox. */
  lemma ReplayReleases<M>(s: State<M>, c: string, id: string, pairs: iset<Pair>)
    requires ClashFree(pairs) && Inv(s, pairs) && Pair(c, id) in pairs && Proper(Pair(c, id))
    ensures var r := AfterReplay(s, c);
            && r.bus.outbox == s.bus.outbox && r.log == s.log
            && (id in Seen(r.bus, c) <==> id in Seen(s.bus, c) && Trailing(s.log, c, id) == 0)
  {
    DeadIdsIff(s, c, id, pairs);
    if DeadIds(s, c) == {} { assert id !in DeadIds(s, c); }
  }

  /** The consumer's dead-lettered ids are those whose latest attempt failed. */
  lemma DeadIdsIff<M>(s: State<M>, c: string, id: string, pairs: iset<Pair>)
    requires ClashFree(pairs) && DeadLettersMatch(s.dead, s.log, pairs) && Pair(c, id) in pairs && Proper(Pair(c, id))
    ensures id in DeadIds(s, c) <==> Trailing(s.log, c, id) > 0
  {
    var p := Pair(c, id);
    AttemptsAreTrailing(s, p, pairs);
    if KeyOf(p) in s.dead {
      var q := Pair(s.dead[KeyOf(p)].consumer, s.dead[KeyOf(p)].eventId);
      assert KeyOf(q) == KeyOf(p);
      assert id in DeadIds(s, c);
    }
    if id in DeadIds(s, c) {
      var k :| k in s.dead && s.dead[k].consumer == c && s.dead[k].eventId == id;
      assert k == KeyOf(p);
    }
  }

  // ---------------------------------------------------------------- the platform

  class App<M> {
    const bus: InMemoryBus
    var dead: map<string, DeadLetter>
    var status: map<string, Status>
    var model: M
    ghost var log: seq<Attempt>

    ghost function Abs(): State<M>
      reads this, bus
    {
      State(bus.Abs(), dead, status, model, log)
    }

    constructor (bus: InMemoryBus, model: M)
      requires bus.Valid()
      ensures this.bus == bus && Abs() == State(bus.Abs(), map[], map[], model, [])
    {
      this.bus, this.dead, this.status, this.model, this.log := bus, map[], map[], model, [];
    }

    /** Writes the dead letter of a rejected event; tells whether one already existed. */
    method DeadLetterEvent(consumer: string, id: string) returns (retried: bool)
      modifies this`dead
      ensures retried == (DeadKey(consumer, id) in old(dead))
      ensures dead == old(dead)[DeadKey(consumer, id) :=
                        DeadLetter(consumer, id, Attempts(old(Abs()), DeadKey(consumer, id)) + 1)]
    {
      var key := DeadKey(consumer, id);
      var attemptCount := 1;
      retried := key in dead;
      if retried {
        attemptCount := dead[key].attemptCount;
        if attemptCount < 1 {
          attemptCount := 1;
        }
        attemptCount := attemptCount + 1;
      }
      dead := dead[key := DeadLetter(consumer, id, attemptCount)];
    }

    method RunProjection(consumer: string, handler: Handler<M>, err: nat -> bool)
      requires bus.Valid()
      modifies this, bus
      ensures bus.Valid()
      ensures Abs() == AfterRun(old(Abs()), consumer, handler, err)
    {
      status := status[consumer := if consumer in status then status[consumer] else NO_STATUS];
      assert Abs() == Ensured(old(Abs()), consumer);
      var consumeFailed := DeliverOutbox(consumer, handler, err);
      if !consumeFailed {
        bus.Checkpoint(consumer);
        status := status[consumer := status[consumer].(replayPending := false)];
      }
    }

    /** The loop of a run over the events in the outbox. */
    method DeliverOutbox(consumer: string, handler: Handler<M>, err: nat -> bool) returns (consumeFailed: bool)
      requires bus.Valid() && consumer in status
      modifies this, bus
      ensures bus.Valid() && consumer in status
      ensures Abs() == DeliverAll(old(Abs()), consumer, old(bus.outbox), handler, err)
      ensures consumeFailed == AnyFails(consumer, old(bus.outbox), err)
    {
      consumeFailed := false;
      var events := bus.outbox;
      assert events[..0] == [];
      for i := 0 to |events|
        invariant bus.Valid() && bus.outbox == events && consumer in status
        invariant Abs() == DeliverAll(old(Abs()), consumer, events[..i], handler, err)
        invariant consumeFailed == AnyFails(consumer, events[..i], err)
      {
        DeliverAllStep(old(Abs()), consumer, events, handler, err, i);
        var failed := DeliverOne(consumer, events[i], handler, err(i));
        consumeFailed := consumeFailed || failed;
      }
      assert events[..|events|] == events;
    }

    /** The loop body of a run: consume the event, apply it, and record the outcome. */
    method DeliverOne(consumer: string, e: Event, handler: Handler<M>, err: bool) returns (failed: bool)
      requires bus.Valid() && consumer in status
      modifies this, bus
      ensures bus.Valid() && bus.outbox == old(bus.outbox) && consumer in status
      ensures failed == ConsumeFails(consumer, e, err)
      ensures Abs() == Deliver(old(Abs()), consumer, e, handler, err)
    {
      if err {
        return true;
      }
      var processed, consumeErr := bus.Consume(consumer, e.id);
      if consumeErr || !processed {
        return consumeErr;
      }
      failed := false;
      var outcome := handler(model, e);
      if outcome.None? {
        RecordDeadLetter(consumer, e);
      } else {
        RecordApplied(consumer, e, outcome.value);
      }
    }

    method RecordDeadLetter(consumer: string, e: Event)
      requires consumer in status
      modifies this
      ensures consumer in status
      ensures Abs().(bus := old(bus.Abs())) == Rejected(old(Abs()), consumer, e).(bus := old(bus.Abs()))
    {
      var current := status[consumer];
      var retried := DeadLetterEvent(consumer, e.id);
      status := status[consumer := current.(
        deadLettered := current.deadLettered + 1,
        retryCount := current.retryCount + (if retried then 1 else 0))];
      log := log + [Attempt(consumer, e.id, false)];
    }

    method RecordApplied(consumer: string, e: Event, m: M)
      requires consumer in status
      modifies this
      ensures consumer in status
      ensures Abs().(bus := old(bus.Abs())) == Applied(old(Abs()), consumer, e, m).(bus := old(bus.Abs()))
    {
      var current := status[consumer];
      model := m;
      dead := dead - {DeadKey(consumer, e.id)};
      status := status[consumer := current.(applied := current.applied + 1, lastEventId := e.id)];
      log := log + [Attempt(consumer, e.id, true)];
    }

    /** The consumer's unresolved dead letters, by listing the whole resource. */
    method DeadLetterIds(consumer: string) returns (ids: seq<string>)
      ensures Listed(ids, |ids|) == DeadIds(Abs(), consumer)
    {
      ids := [];
      var rest := dead.Keys;
      while rest != {}
        invariant rest <= dead.Keys
        invariant Listed(ids, |ids|) ==
                  set k | k in dead.Keys - rest && dead[k].consumer == consumer && dead[k].eventId != "" :: dead[k].eventId
        decreases |rest|
      {
        var k :| k in rest;
        rest := rest - {k};
        if dead[k].consumer == consumer && dead[k].eventId != "" {
          assert (ids + [dead[k].eventId])[..|ids|] == ids;
          ListedPrefix(ids, dead[k].eventId);
          ids := ids + [dead[k].eventId];
        }
      }
    }

    method ReplayProjection(consumer: string)
      requires bus.Valid()
      modifies this, bus
      ensures bus.Valid()
      ensures Abs() == AfterReplay(old(Abs()), consumer)
    {
      var ids := DeadLetterIds(consumer);
      if |ids| == 0 {
        return;
      }
      assert ids[..|ids|] == ids && ids[0] in Listed(ids, |ids|);
      var current := if consumer in status then status[consumer] else NO_STATUS;
      status := status[consumer := current.(replayCount := current.replayCount + 1, replayPending := true)];
      bus.ResetConsumerEvents(consumer, ids);
    }
  }

  lemma ListedPrefix(ids: seq<string>, id: string)
    ensures Listed(ids + [id], |ids| + 1) == Listed(ids, |ids|) + {id}
  {
    assert (ids + [id])[..|ids| + 1] == ids + [id] && ids[..|ids|] == ids;
  }
}
