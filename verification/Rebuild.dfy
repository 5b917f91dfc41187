/** What the reconciler's rebuild computes, and exactly when a further rebuild would change nothing. */
module Rebuild {
  import opened Contracts
  import opened Text
  import opened EventBus
  import opened Projection
  import opened ReadModel
  import opened Reconcile
  import opened Projectors
  import opened Drift

  // ---------------------------------------------------------------- what a rebuild computes

  ghost predicate DistinctEvents(events: seq<Event>) {
    forall i, j :: 0 <= i < j < |events| ==> events[i].id != events[j].id
  }

  lemma LastIsNew(events: seq<Event>)
    requires |events| > 0 && DistinctEvents(events)
    ensures !HasEvent(events[..|events| - 1], events[|events| - 1].id)
  {
  }

  lemma {:induction false} DedupIsDistinct(events: seq<Event>)
    ensures DistinctEvents(Dedup(events))
    ensures forall id :: HasEvent(Dedup(events), id) <==> HasEvent(events, id)
  {
    if |events| > 0 {
      var p, e := events[..|events| - 1], events[|events| - 1];
      DedupIsDistinct(p);
      forall id ensures HasEvent(Dedup(events), id) <==> HasEvent(events, id) {
        HasEventStep(events, id);
        if !HasEvent(p, e.id) {
          assert (Dedup(p) + [e])[..|Dedup(p)|] == Dedup(p);
          HasEventStep(Dedup(p) + [e], id);
        }
      }
      if !HasEvent(p, e.id) {
        forall i | 0 <= i < |Dedup(p)| ensures Dedup(p)[i].id != e.id { assert HasEvent(Dedup(p), Dedup(p)[i].id); }
      }
    }
  }

  lemma {:induction false} FoldLast(op: Event -> RowOp, p: seq<Event>, e: Event, t: Table)
    ensures Fold(OpsOf(op, p + [e]), t) == ApplyOp(Fold(OpsOf(op, p), t), op(e))
  {
    assert OpsOf(op, p + [e])[..|p|] == OpsOf(op, p);
  }

  lemma {:induction false} FreshRunFolds(op: Event -> RowOp, s: State<Table>, c: string, events: seq<Event>)
    requires Deliverable(c, events) && DistinctEvents(events) && Seen(s.bus, c) == {}
    ensures DeliverAll(s, c, events, ProjectInto(op), NoError()).model == Fold(OpsOf(op, events), s.model)
  {
    if |events| > 0 {
      var p, e := events[..|events| - 1], events[|events| - 1];
      FreshRunFolds(op, s, c, p);
      assert p + [e] == events;
      FoldLast(op, p, e, s.model);
      DeliverAllSees(s, c, p, ProjectInto(op), e.id);
      LastIsNew(events);
    }
  }

  /** A rebuild folds the retained stream, each event id at its first occurrence, into the table. */
  lemma RebuildFolds(spec: Spec, s: State<Table>)
    requires WellFormed(spec, s)
    ensures Rebuilt(spec, s).model == Fold(OpsOf(spec.op, Dedup(s.bus.outbox)), s.model)
    ensures Rebuilt(spec, s).bus.outbox == s.bus.outbox
  {
    var t := s.(bus := AfterReset(s.bus, spec.consumer));
    var u := Ensured(t, spec.consumer);
    SyncSettles(spec, t);
    DuplicatesHaveNoEffect(u, spec.consumer, s.bus.outbox, ProjectInto(spec.op));
    DedupIsDistinct(s.bus.outbox);
    FreshRunFolds(spec.op, u, spec.consumer, Dedup(s.bus.outbox));
  }

  /** Rebuilding again from the same stream changes nothing, whatever ids it repeats. */
  lemma RebuildConverges(spec: Spec, s: State<Table>)
    requires WellFormed(spec, s)
    ensures Rebuilt(spec, Rebuilt(spec, s)).model == Rebuilt(spec, s).model
  {
    RebuildFolds(spec, s);
    RebuildFolds(spec, Rebuilt(spec, s));
    StreamReplayIdempotent(spec.op, [], Dedup(s.bus.outbox), s.model);
    assert [] + Dedup(s.bus.outbox) == Dedup(s.bus.outbox);
  }

  // ---------------------------------------------------------------- events that can touch a row

  function Relevant(events: seq<Event>): seq<Event> {
    if |events| == 0 then []
    else
      var p, e := Relevant(events[..|events| - 1]), events[|events| - 1];
      if FromReconciler(e) then p else p + [e]
  }

  lemma {:induction false} RelevantConcat(a: seq<Event>, b: seq<Event>)
    ensures Relevant(a + b) == Relevant(a) + Relevant(b)
    decreases |b|
  {
    if |b| == 0 {
      assert a + b == a;
    } else {
      assert (a + b)[..|a + b| - 1] == a + b[..|b| - 1];
      RelevantConcat(a, b[..|b| - 1]);
    }
  }

  lemma {:induction false} FoldRelevant(op: Event -> RowOp, events: seq<Event>, t: Table)
    requires Ignores(op)
    ensures Fold(OpsOf(op, events), t) == Fold(OpsOf(op, Relevant(events)), t)
  {
    if |events| > 0 {
      var p, e := events[..|events| - 1], events[|events| - 1];
      FoldRelevant(op, p, t);
      assert p + [e] == events;
      FoldLast(op, p, e, t);
      FoldLast(op, Relevant(p), e, t);
    }
  }

  /** Repeated or not, an event of the reconciler at the end of a stream adds nothing relevant. */
  lemma {:induction false} ReconcilerTail(events: seq<Event>, tail: seq<Event>)
    requires forall i :: 0 <= i < |tail| ==> FromReconciler(tail[i])
    ensures Relevant(Dedup(events + tail)) == Relevant(Dedup(events))
    decreases |tail|
  {
    if |tail| == 0 {
      assert events + tail == events;
    } else {
      var p, e := tail[..|tail| - 1], tail[|tail| - 1];
      assert (events + tail)[..|events + tail| - 1] == events + p;
      ReconcilerTail(events, p);
      assert (Dedup(events + p) + [e])[..|Dedup(events + p)|] == Dedup(events + p);
    }
  }

  // ---------------------------------------------------------------- when replaying a second stream changes nothing

  predicate SuffixOf(a: seq<Event>, b: seq<Event>) { |a| <= |b| && b[|b| - |a|..] == a }

  ghost predicate ReplayIdle(op: Event -> RowOp, m: Table, a: seq<Event>, b: seq<Event>) {
    Fold(OpsOf(op, a), Fold(OpsOf(op, b), m)) == Fold(OpsOf(op, b), m)
  }

  const WITNESS_KEY: Key := Key("", "")

  /** One row, to which x writes one value, y another, and every other event nothing. */
  function Writing(x: Event, y: Event): Event -> RowOp {
    (e: Event) =>
      if e == x then Upsert(WITNESS_KEY, map["f" := Other(1)])
      else if e == y then Upsert(WITNESS_KEY, map["f" := Other(2)])
      else Skip
  }

  function Witness(t: Table): Option<Value> {
    if WITNESS_KEY in t && "f" in t[WITNESS_KEY] then Some(t[WITNESS_KEY]["f"]) else None
  }

  lemma {:induction false} FoldThenSkip(op: Event -> RowOp, p: seq<Event>, rest: seq<Event>, t: Table)
    requires forall e :: e in rest ==> op(e).Skip?
    ensures Fold(OpsOf(op, p + rest), t) == Fold(OpsOf(op, p), t)
  {
    OpsOfConcat(op, p, rest);
    FoldConcat(OpsOf(op, p), OpsOf(op, rest), t);
    FoldSkip(OpsOf(op, rest), Fold(OpsOf(op, p), t));
  }

  /** After events that end with e and others that are neither x nor y, the row shows what e writes. */
  lemma {:induction false} LastWriteShows(x: Event, y: Event, e: Event, p: seq<Event>, rest: seq<Event>, t: Table)
    requires (e == x || e == y) && x !in rest && y !in rest
    ensures Witness(Fold(OpsOf(Writing(x, y), p + [e] + rest), t)) == Some(Other(if e == x then 1 else 2))
  {
    FoldThenSkip(Writing(x, y), p + [e], rest, t);
    FoldLast(Writing(x, y), p, e, t);
  }

  /** How far two streams agree, counted from their ends. */
  lemma {:induction false} CommonEnd(a: seq<Event>, b: seq<Event>, k: nat) returns (r: nat)
    requires k <= |a| && k <= |b| && a[|a| - k..] == b[|b| - k..]
    ensures r <= |a| && r <= |b| && a[|a| - r..] == b[|b| - r..]
    ensures r < |a| && r < |b| ==> a[|a| - r - 1] != b[|b| - r - 1]
    decreases |a| - k
  {
    r := k;
    if k < |a| && k < |b| && a[|a| - k - 1] == b[|b| - k - 1] {
      assert a[|a| - k - 1..] == [a[|a| - k - 1]] + a[|a| - k..];
      assert b[|b| - k - 1..] == [b[|b| - k - 1]] + b[|b| - k..];
      r := CommonEnd(a, b, k + 1);
    }
  }

  lemma {:induction false} NotInTail(a: seq<Event>, n: nat)
    requires n < |a| && DistinctEvents(a)
    ensures a == a[..n] + [a[n]] + a[n + 1..] && a[n] !in a[n + 1..]
  {
  }

  ghost predicate NoneFromReconciler(events: seq<Event>) { forall e :: e in events ==> !FromReconciler(e) }

  lemma {:induction false} WritingIgnores(x: Event, y: Event)
    requires !FromReconciler(x) && !FromReconciler(y)
    ensures Ignores(Writing(x, y))
  {
  }

  lemma {:induction false} NewWriteDiverges(p: seq<Event>, x: Event, b: seq<Event>)
    requires x !in b
    ensures !ReplayIdle(Writing(x, x), map[], p + [x] + b, b)
  {
    FoldThenSkip(Writing(x, x), [], b, map[]);
    assert [] + b == b;
    LastWriteShows(x, x, x, p, b, map[]);
  }

  lemma {:induction false} OtherWriteDiverges(p: seq<Event>, x: Event, q: seq<Event>, y: Event, tail: seq<Event>)
    requires x != y && x !in tail && y !in tail
    ensures !ReplayIdle(Writing(x, y), map[], p + [x] + tail, q + [y] + tail)
  {
    LastWriteShows(x, y, y, q, tail, map[]);
    LastWriteShows(x, y, x, p, tail, Fold(OpsOf(Writing(x, y), q + [y] + tail), map[]));
  }

  /** A stream that is no suffix of the other overwrites what the other left, for some operation and table. */
  lemma {:induction false} DivergingReplay(a: seq<Event>, b: seq<Event>) returns (op: Event -> RowOp)
    requires DistinctEvents(a) && DistinctEvents(b) && !SuffixOf(a, b)
    requires NoneFromReconciler(a) && NoneFromReconciler(b)
    ensures Ignores(op) && !ReplayIdle(op, map[], a, b)
  {
    assert a[|a|..] == b[|b|..];
    var k := CommonEnd(a, b, 0);
    var n := |a| - k - 1;
    var x, tail := a[n], a[n + 1..];
    NotInTail(a, n);
    if k == |b| {
      op := Writing(x, x);
      WritingIgnores(x, x);
      assert tail == b;
      NewWriteDiverges(a[..n], x, b);
    } else {
      var l := |b| - k - 1;
      op := Writing(x, b[l]);
      WritingIgnores(x, b[l]);
      assert b[l + 1..] == tail;
      NotInTail(b, l);
      OtherWriteDiverges(a[..n], x, b[..l], b[l], tail);
    }
  }

  lemma {:induction false} SuffixReplays(op: Event -> RowOp, m: Table, a: seq<Event>, b: seq<Event>)
    requires SuffixOf(a, b)
    ensures ReplayIdle(op, m, a, b)
  {
    StreamReplayIdempotent(op, b[..|b| - |a|], a, m);
    assert b[..|b| - |a|] + a == b;
  }

  /** Replaying a on what b left changes nothing, for all operations and tables, exactly when a is a suffix of b. */
  lemma {:induction false} ReplayIdleIff(a: seq<Event>, b: seq<Event>)
    requires DistinctEvents(a) && DistinctEvents(b) && NoneFromReconciler(a) && NoneFromReconciler(b)
    ensures (forall op, m :: Ignores(op) ==> ReplayIdle(op, m, a, b)) <==> SuffixOf(a, b)
  {
    if SuffixOf(a, b) {
      forall op, m | Ignores(op) ensures ReplayIdle(op, m, a, b) {
        SuffixReplays(op, m, a, b);
      }
    } else {
      var op := DivergingReplay(a, b);
      assert !ReplayIdle(op, map[], a, b);
    }
  }

  // ---------------------------------------------------------------- a further rebuild

  /** The state in which the next tick would rebuild: both reconciler events were published in between. */
  function Later(spec: Spec, s: State<Table>, rebuilt: Event, detected: Event): State<Table> {
    Published(Published(Rebuilt(spec, s), rebuilt), detected)
  }

  /** The stream that is retained then. */
  function Retained(outbox: seq<Event>, rebuilt: Event, detected: Event): seq<Event> {
    Kept(Kept(outbox, rebuilt), detected)
  }

  function Kept(outbox: seq<Event>, e: Event): seq<Event> { AfterPublish(Bus(outbox, map[], map[]), e).outbox }

  ghost predicate FurtherRebuildIdle(spec: Spec, s: State<Table>, rebuilt: Event, detected: Event) {
    Rebuilt(spec, Later(spec, s, rebuilt, detected)).model == Rebuilt(spec, s).model
  }

  lemma {:induction false} PublishKeeps(spec: Spec, u: State<Table>, e: Event)
    requires WellFormed(spec, u) && spec.op(e).Skip?
    ensures var t := Published(u, e);
      WellFormed(spec, t) && t.model == u.model && t.bus.outbox == Kept(u.bus.outbox, e)
  {
    PublishStaysSettled(spec, u, e);
  }

  lemma {:induction false} LaterIsWellFormed(spec: Spec, s: State<Table>, rebuilt: Event, detected: Event)
    requires Ignores(spec.op) && WellFormed(spec, s) && TickNames(rebuilt, detected)
    ensures var t := Later(spec, s, rebuilt, detected);
      && WellFormed(spec, t) && t.model == Rebuilt(spec, s).model
      && t.bus.outbox == Retained(s.bus.outbox, rebuilt, detected)
  {
    RebuildFolds(spec, s);
    var u := Rebuilt(spec, s);
    PublishKeeps(spec, u, rebuilt);
    PublishKeeps(spec, Published(u, rebuilt), detected);
  }

  /** A rebuild folds the relevant events of its stream, each id once. */
  lemma {:induction false} RebuildFoldsRelevant(spec: Spec, s: State<Table>)
    requires Ignores(spec.op) && WellFormed(spec, s)
    ensures Rebuilt(spec, s).model == Fold(OpsOf(spec.op, Relevant(Dedup(s.bus.outbox))), s.model)
  {
    RebuildFolds(spec, s);
    FoldRelevant(spec.op, Dedup(s.bus.outbox), s.model);
  }

  /** What a family does with a stream in a rebuild: each event id at its first occurrence. */
  function RebuildOps(op: Event -> RowOp, outbox: seq<Event>): seq<RowOp> { OpsOf(op, Dedup(outbox)) }

  lemma {:induction false} FurtherRebuildIsReplay(spec: Spec, s: State<Table>, rebuilt: Event, detected: Event)
    requires Ignores(spec.op) && WellFormed(spec, s) && TickNames(rebuilt, detected)
    ensures FurtherRebuildIdle(spec, s, rebuilt, detected) <==>
      StreamIdle(RebuildOps(spec.op, Retained(s.bus.outbox, rebuilt, detected)), RebuildOps(spec.op, s.bus.outbox), s.model)
  {
    LaterIsWellFormed(spec, s, rebuilt, detected);
    RebuildFolds(spec, s);
    RebuildFolds(spec, Later(spec, s, rebuilt, detected));
  }

  ghost predicate IdleFrom(spec: Spec, s: State<Table>, m: Table, rebuilt: Event, detected: Event) {
    FurtherRebuildIdle(spec, s.(model := m), rebuilt, detected)
  }

  lemma {:induction false} IdleFromIsReplay(
    spec: Spec, s: State<Table>, m: Table, rebuilt: Event, detected: Event, first: seq<RowOp>, second: seq<RowOp>)
    requires Ignores(spec.op) && WellFormed(spec, s) && TickNames(rebuilt, detected)
    requires first == RebuildOps(spec.op, s.bus.outbox)
    requires second == RebuildOps(spec.op, Retained(s.bus.outbox, rebuilt, detected))
    ensures IdleFrom(spec, s, m, rebuilt, detected) <==> StreamIdle(second, first, m)
  {
    FurtherRebuildIsReplay(spec, s.(model := m), rebuilt, detected);
  }

  /**
   For a given family: a further rebuild leaves the read model, and so its drift, unchanged from every table exactly
   when on every row what the retained stream does is already done by the first rebuild.
   */
  lemma {:induction false} FurtherRebuildIdleIff(spec: Spec, s: State<Table>, rebuilt: Event, detected: Event)
    requires Ignores(spec.op) && WellFormed(spec, s) && TickNames(rebuilt, detected)
    ensures (forall m :: IdleFrom(spec, s, m, rebuilt, detected)) <==>
      forall k :: RowIdle(
        RebuildOps(spec.op, Retained(s.bus.outbox, rebuilt, detected)), RebuildOps(spec.op, s.bus.outbox), k)
  {
    var first, second := RebuildOps(spec.op, s.bus.outbox), RebuildOps(spec.op, Retained(s.bus.outbox, rebuilt, detected));
    StreamIdleIff(second, first);
    forall m ensures IdleFrom(spec, s, m, rebuilt, detected) <==> StreamIdle(second, first, m) {
      IdleFromIsReplay(spec, s, m, rebuilt, detected, first, second);
    }
  }

  /**
   What a rebuild achieves: if the owner's table is what the retained stream builds from nothing, the rebuilt table
   equals it exactly when the old one held nothing the stream leaves alone.
   */
  lemma {:induction false} RebuildReachesOwnerIff(spec: Spec, s: State<Table>, owner: Table)
    requires WellFormed(spec, s) && owner == Fold(RebuildOps(spec.op, s.bus.outbox), map[])
    ensures Rebuilt(spec, s).model == owner <==>
      forall k :: ResidueOf(RebuildOps(spec.op, s.bus.outbox), s.model, k) ==
                  ResidueOf(RebuildOps(spec.op, s.bus.outbox), map[], k)
  {
    RebuildFolds(spec, s);
    ReplayConvergesIff(RebuildOps(spec.op, s.bus.outbox), s.model, map[]);
  }

  // ---------------------------------------------------------------- repeated ids and trimming

  /** Trimming drops a number of the oldest events; what was appended is the reconciler's own. */
  lemma {:induction false} KeptIs(outbox: seq<Event>, e: Event) returns (n: nat, extra: seq<Event>)
    requires FromReconciler(e)
    ensures n <= |outbox| && Kept(outbox, e) == outbox[n..] + extra
    ensures forall x :: x in extra ==> FromReconciler(x)
    ensures |outbox| < OUTBOX_LIMIT ==> n == 0
    ensures ValidMetadata(e) && |outbox| == OUTBOX_LIMIT ==> n == 1 && extra == [e]
    ensures |outbox| < OUTBOX_LIMIT ==> |Kept(outbox, e)| <= |outbox| + 1
    ensures ValidMetadata(e) && |outbox| == OUTBOX_LIMIT ==> |Kept(outbox, e)| == OUTBOX_LIMIT
  {
    n, extra := 0, [];
    assert outbox[0..] + [] == outbox;
    if ValidMetadata(e) {
      extra := [e];
      if |outbox| + 1 > OUTBOX_LIMIT {
        n := |outbox| + 1 - OUTBOX_LIMIT;
        assert (outbox + [e])[n..] == outbox[n..] + [e];
      }
    }
  }

  lemma {:induction false} CutConcat(a: seq<Event>, b: seq<Event>, n: nat) returns (i: nat, j: nat)
    requires n <= |a| + |b|
    ensures i <= |a| && j <= |b| && i + j == n && (j > 0 ==> i == |a|)
    ensures (a + b)[n..] == a[i..] + b[j..]
  {
    i := if n <= |a| then n else |a|;
    j := n - i;
  }

  lemma {:induction false} CutAgain(a: seq<Event>, n1: nat, e1: seq<Event>, n2: nat, e2: seq<Event>)
      returns (n: nat, extra: seq<Event>)
    requires n1 <= |a| && n2 <= |a[n1..]| + |e1|
    requires (forall e :: e in e1 ==> FromReconciler(e)) && forall e :: e in e2 ==> FromReconciler(e)
    ensures n <= |a| && (a[n1..] + e1)[n2..] + e2 == a[n..] + extra
    ensures forall e :: e in extra ==> FromReconciler(e)
    ensures n1 <= n && (n1 + n2 <= |a| ==> n == n1 + n2)
  {
    var i, j := CutConcat(a[n1..], e1, n2);
    n, extra := n1 + i, e1[j..] + e2;
    assert a[n1..][i..] == a[n..];
    assert (a[n..] + e1[j..]) + e2 == a[n..] + extra;
  }

  lemma {:induction false} RetainedIs(outbox: seq<Event>, rebuilt: Event, detected: Event)
      returns (n: nat, extra: seq<Event>)
    requires TickNames(rebuilt, detected)
    ensures n <= |outbox| && Retained(outbox, rebuilt, detected) == outbox[n..] + extra
    ensures forall e :: e in extra ==> FromReconciler(e)
    ensures |outbox| + 2 <= OUTBOX_LIMIT ==> n == 0
    ensures ValidMetadata(rebuilt) && ValidMetadata(detected) && |outbox| == OUTBOX_LIMIT ==> n == 2
  {
    var n1, e1 := KeptIs(outbox, rebuilt);
    var mid := Kept(outbox, rebuilt);
    var n2, e2 := KeptIs(mid, detected);
    assert mid == outbox[n1..] + e1;
    n, extra := CutAgain(outbox, n1, e1, n2, e2);
  }

  /** What a further rebuild applies is decided by the events that were not trimmed. */
  lemma {:induction false} SecondStream(outbox: seq<Event>, rebuilt: Event, detected: Event) returns (n: nat)
    requires TickNames(rebuilt, detected)
    ensures n <= |outbox| && Relevant(Dedup(Retained(outbox, rebuilt, detected))) == Relevant(Dedup(outbox[n..]))
    ensures |outbox| + 2 <= OUTBOX_LIMIT ==> n == 0
    ensures ValidMetadata(rebuilt) && ValidMetadata(detected) && |outbox| == OUTBOX_LIMIT ==> n == 2
  {
    var extra;
    n, extra := RetainedIs(outbox, rebuilt, detected);
    ReconcilerTail(outbox[n..], extra);
  }

  /** Enough for every family: what the further rebuild applies is a suffix of what the first one applied. */
  lemma {:induction false} SuffixIsIdle(spec: Spec, s: State<Table>, rebuilt: Event, detected: Event)
    requires Ignores(spec.op) && WellFormed(spec, s) && TickNames(rebuilt, detected)
    requires SuffixOf(Relevant(Dedup(Retained(s.bus.outbox, rebuilt, detected))), Relevant(Dedup(s.bus.outbox)))
    ensures FurtherRebuildIdle(spec, s, rebuilt, detected)
  {
    LaterIsWellFormed(spec, s, rebuilt, detected);
    RebuildFoldsRelevant(spec, s);
    RebuildFoldsRelevant(spec, Later(spec, s, rebuilt, detected));
    SuffixReplays(
      spec.op, s.model, Relevant(Dedup(Retained(s.bus.outbox, rebuilt, detected))), Relevant(Dedup(s.bus.outbox)));
  }

  /** As long as nothing is trimmed, a further rebuild changes nothing, however often event ids repeat. */
  lemma {:induction false} UntrimmedRebuildIsIdle(spec: Spec, s: State<Table>, rebuilt: Event, detected: Event)
    requires Ignores(spec.op) && WellFormed(spec, s) && TickNames(rebuilt, detected)
    requires |s.bus.outbox| + 2 <= OUTBOX_LIMIT
    ensures FurtherRebuildIdle(spec, s, rebuilt, detected)
  {
    var n := SecondStream(s.bus.outbox, rebuilt, detected);
    assert s.bus.outbox[0..] == s.bus.outbox;
    SuffixIsIdle(spec, s, rebuilt, detected);
  }

  lemma {:induction false} DedupOfDistinct(events: seq<Event>)
    requires DistinctEvents(events)
    ensures Dedup(events) == events
  {
    if |events| > 0 {
      DedupOfDistinct(events[..|events| - 1]);
      LastIsNew(events);
    }
  }

  lemma {:induction false} DistinctSuffix(events: seq<Event>, n: nat)
    requires DistinctEvents(events) && n <= |events|
    ensures SuffixOf(Relevant(Dedup(events[n..])), Relevant(Dedup(events)))
  {
    DedupOfDistinct(events);
    DedupOfDistinct(events[n..]);
    RelevantOfSuffix(events, n);
  }

  lemma {:induction false} RelevantOfSuffix(events: seq<Event>, n: nat)
    requires n <= |events|
    ensures SuffixOf(Relevant(events[n..]), Relevant(events))
  {
    assert events[..n] + events[n..] == events;
    RelevantConcat(events[..n], events[n..]);
  }

  /** Without repeated ids a further rebuild changes nothing, even from a stream trimmed in between. */
  lemma {:induction false} FurtherRebuildIsIdle(spec: Spec, s: State<Table>, rebuilt: Event, detected: Event)
    requires Ignores(spec.op) && WellFormed(spec, s) && TickNames(rebuilt, detected)
    requires DistinctEvents(s.bus.outbox)
    ensures FurtherRebuildIdle(spec, s, rebuilt, detected)
  {
    var n := SecondStream(s.bus.outbox, rebuilt, detected);
    DistinctSuffix(s.bus.outbox, n);
    SuffixIsIdle(spec, s, rebuilt, detected);
  }

  /** A full outbox that starts with x, y and another event with the id of x; the rest is the reconciler's. */
  predicate RepeatsTrimmedId(outbox: seq<Event>, x: Event, y: Event, z: Event) {
    && |outbox| == OUTBOX_LIMIT && outbox[0] == x && outbox[1] == y && outbox[2] == z
    && z.id == x.id && x.id != y.id
    && forall i :: 3 <= i < |outbox| ==> FromReconciler(outbox[i])
  }

  lemma {:induction false} DedupAppend(p: seq<Event>, e: Event)
    ensures Dedup(p + [e]) == if HasEvent(p, e.id) then Dedup(p) else Dedup(p) + [e]
    ensures HasEvent(p + [e], e.id)
  {
    assert (p + [e])[..|p|] == p;
    assert (p + [e])[|p|].id == e.id;
  }

  lemma {:induction false} DedupRepeat(x: Event, y: Event, z: Event)
    requires z.id == x.id && x.id != y.id
    ensures Dedup([z]) == [z] && Dedup([x, y, z]) == [x, y]
  {
    Lists(x, y, z);
    DedupAppend([], x);
    DedupAppend([], z);
    DedupAppend([x], y);
    DedupAppend([x, y], z);
    HasEventOfOne(x, y.id);
    assert [x, y][0].id == z.id;
  }

  lemma {:induction false} Lists(x: Event, y: Event, z: Event)
    ensures [] + [x] == [x] && [] + [z] == [z] && [x] + [y] == [x, y] && [x, y] + [z] == [x, y, z]
  {
  }

  lemma {:induction false} HasEventOfOne(x: Event, id: string)
    ensures HasEvent([x], id) <==> x.id == id
  {
    assert [x][0] == x;
  }

  lemma {:induction false} RelevantPair(x: Event, y: Event, z: Event)
    requires !FromReconciler(y) && !FromReconciler(z)
    ensures Relevant([z]) == [z] && Relevant([x, y]) == Relevant([x]) + [y]
  {
    assert [z][..0] == [] && [x, y][..1] == [x];
  }

  lemma {:induction false} RepeatedStreams(outbox: seq<Event>, x: Event, y: Event, z: Event)
    requires RepeatsTrimmedId(outbox, x, y, z) && !FromReconciler(y) && !FromReconciler(z)
    ensures Relevant(Dedup(outbox)) == Relevant([x]) + [y] && Relevant(Dedup(outbox[2..])) == [z]
  {
    var fill := outbox[3..];
    assert outbox == [x, y, z] + fill;
    assert outbox[2..] == [z] + fill;
    ReconcilerTail([x, y, z], fill);
    ReconcilerTail([z], fill);
    DedupRepeat(x, y, z);
    RelevantPair(x, y, z);
  }

  /** The value of a field of a row. */
  function FieldAt(t: Table, k: Key, f: string): Option<Value> {
    if k in t && f in t[k] then Some(t[k][f]) else None
  }

  lemma {:induction false} LastUpsertShows(op: Event -> RowOp, p: seq<Event>, e: Event, t: Table, k: Key, f: string)
    requires op(e).Upsert? && op(e).key == k && f in op(e).fields
    ensures FieldAt(Fold(OpsOf(op, p + [e]), t), k, f) == Some(op(e).fields[f])
  {
    FoldLast(op, p, e, t);
  }

  /**
   Repeated ids and trimming together break it, for every family: y and the repeat z write a field of one row, and the
   first event with the repeated id and y are trimmed between two rebuilds. The first rebuild leaves y's value, the
   further one writes z's over it.
   */
  lemma {:induction false} TrimmedRepeatUndoesLaterWrite(
    spec: Spec, s: State<Table>, x: Event, y: Event, z: Event, k: Key, f: string, rebuilt: Event, detected: Event)
    requires Ignores(spec.op) && WellFormed(spec, s) && RepeatsTrimmedId(s.bus.outbox, x, y, z)
    requires spec.op(y).Upsert? && spec.op(y).key == k && f in spec.op(y).fields
    requires spec.op(z).Upsert? && spec.op(z).key == k && f in spec.op(z).fields
    requires TickNames(rebuilt, detected) && ValidMetadata(rebuilt) && ValidMetadata(detected)
    ensures FieldAt(Rebuilt(spec, s).model, k, f) == Some(spec.op(y).fields[f])
    ensures FieldAt(Rebuilt(spec, Later(spec, s, rebuilt, detected)).model, k, f) == Some(spec.op(z).fields[f])
  {
    var n := SecondStream(s.bus.outbox, rebuilt, detected);
    RepeatedStreams(s.bus.outbox, x, y, z);
    LaterIsWellFormed(spec, s, rebuilt, detected);
    var t := Later(spec, s, rebuilt, detected);
    RebuildFoldsRelevant(spec, s);
    RebuildFoldsRelevant(spec, t);
    LastUpsertShows(spec.op, Relevant([x]), y, s.model, k, f);
    LastUpsertShows(spec.op, [], z, t.model, k, f);
    assert [] + [z] == [z];
  }

  // ---------------------------------------------------------------- the same for the two families

  predicate UpdatesUser(e: Event, id: string) {
    && e.name == "UserUpdated" && id != "" && Trimmed(id) && "new" !in e.data
    && "id" in e.data && e.data["id"] == Str(id)
  }

  function UsersOf(f: Family): string { if f.Cluster? then CLUSTER_USERS else DASHBOARD_USERS }

  /** A user update merges the event's fields into the user's row. */
  lemma {:induction false} UserUpdateUpserts(f: Family, e: Event, id: string)
    requires UpdatesUser(e, id)
    ensures OpOf(f)(e) == Upsert(Key(UsersOf(f), id), e.data)
  {
    UserUpdateProjects(f, e);
    RowIdOfStored(f, UsersOf(f), e.data, id);
    assert e.data["id" := Str(id)] == e.data;
  }

  lemma {:induction false} UserUpdateProjects(f: Family, e: Event)
    requires e.name == "UserUpdated" && "new" !in e.data
    ensures Project(f, e) == Some(Projection(UsersOf(f), e.data, false))
  {
    assert ToLower("UserUpdated") == "userupdated";
  }

  /** So in both families a repeated id can bring an older user update back over a newer one. */
  lemma {:induction false} TrimmedRepeatUndoesUserUpdate(
    f: Family, spec: Spec, s: State<Table>, x: Event, y: Event, z: Event, id: string, field: string,
    rebuilt: Event, detected: Event)
    requires spec.op == OpOf(f) && WellFormed(spec, s) && RepeatsTrimmedId(s.bus.outbox, x, y, z)
    requires UpdatesUser(y, id) && UpdatesUser(z, id) && field in y.data && field in z.data
    requires TickNames(rebuilt, detected) && ValidMetadata(rebuilt) && ValidMetadata(detected)
    ensures FieldAt(Rebuilt(spec, s).model, Key(UsersOf(f), id), field) == Some(y.data[field])
    ensures FieldAt(Rebuilt(spec, Later(spec, s, rebuilt, detected)).model, Key(UsersOf(f), id), field) ==
      Some(z.data[field])
  {
    FamiliesIgnoreReconciler(f);
    UserUpdateUpserts(f, y, id);
    UserUpdateUpserts(f, z, id);
    TrimmedRepeatUndoesLaterWrite(spec, s, x, y, z, Key(UsersOf(f), id), field, rebuilt, detected);
  }
}
