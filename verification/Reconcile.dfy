/** The drift-to-replay reconciler: measure drift, rebuild once, then only report what a rebuild cannot repair. */
module Reconcile {
  import opened Contracts
  import opened EventBus
  import opened Projection
  import opened Projectors
  import opened ReadModel

  /**
   One family's wiring: its consumer, what it does with an event, and the drift of a read model against the
   fixed owner rows.
   */
  datatype Spec = Spec(consumer: string, op: Event -> RowOp, drift: Table -> nat)

  /** The environment of one tick: which drift measurement fails, and the events it publishes. */
  datatype Tick = Tick(firstErr: bool, secondErr: bool, detected: Event, rebuilt: Event)

  datatype Reconciler = Reconciler(app: State<Table>, residual: int, gauge: int, rebuilds: nat)

  function ProjectInto(op: Event -> RowOp): Handler<Table> { (t: Table, e: Event) => Some(ApplyOp(t, op(e))) }

  function Synced(spec: Spec, s: State<Table>): State<Table> {
    AfterRun(s, spec.consumer, ProjectInto(spec.op), NoError())
  }

  function Published(s: State<Table>, e: Event): State<Table> { s.(bus := AfterPublish(s.bus, e)) }

  /** Reset the consumer and replay the whole retained stream. */
  function Rebuilt(spec: Spec, s: State<Table>): State<Table> {
    Synced(spec, s.(bus := AfterReset(s.bus, spec.consumer)))
  }

  function AfterTick(spec: Spec, r: Reconciler, tick: Tick): Reconciler {
    var s := Synced(spec, r.app);
    var before := spec.drift(s.model);
    if tick.firstErr then r.(app := s)
    else if before == 0 || before == r.residual then r.(app := s, gauge := before, residual := before)
    else
      var u := Rebuilt(spec, Published(s, tick.detected));
      if tick.secondErr then r.(app := u, gauge := before, rebuilds := r.rebuilds + 1)
      else
        var after := spec.drift(u.model);
        Reconciler(Published(u, tick.rebuilt), after, after, r.rebuilds + 1)
  }

  function AfterTicks(spec: Spec, r: Reconciler, ticks: seq<Tick>): Reconciler
    decreases |ticks|
  {
    if |ticks| == 0 then r else AfterTicks(spec, AfterTick(spec, r, ticks[0]), ticks[1..])
  }

  // ---------------------------------------------------------------- synchronised states

  predicate TickNames(rebuilt: Event, detected: Event) {
    rebuilt.name == "ProjectionRebuilt" && detected.name == "ProjectionDriftDetected"
  }

  predicate FromReconciler(e: Event) { e.name == "ProjectionDriftDetected" || e.name == "ProjectionRebuilt" }

  /** The reconciler's own events touch no row. */
  ghost predicate Ignores(op: Event -> RowOp) { forall e: Event :: FromReconciler(e) ==> op(e).Skip? }

  /** Both read-model families ignore them. */
  lemma FamiliesIgnoreReconciler(f: Family)
    ensures Ignores(OpOf(f))
  {
    forall e: Event | FromReconciler(e) ensures OpOf(f)(e).Skip? {
      ReconcilerEventsSkip(f, e);
    }
  }

  predicate WellFormed(spec: Spec, s: State<Table>) { Deliverable(spec.consumer, s.bus.outbox) }

  /** Every retained event was consumed or touches no row, so a synchronisation changes nothing. */
  predicate Settled(spec: Spec, s: State<Table>) {
    && WellFormed(spec, s)
    && forall i :: 0 <= i < |s.bus.outbox| ==>
         s.bus.outbox[i].id in Seen(s.bus, spec.consumer) || spec.op(s.bus.outbox[i]).Skip?
  }

  lemma {:induction false} DeliverAllKeepsOutbox<M>(
    s: State<M>, c: string, events: seq<Event>, h: Handler<M>, err: nat -> bool)
    ensures DeliverAll(s, c, events, h, err).bus.outbox == s.bus.outbox
  {
    if |events| > 0 { DeliverAllKeepsOutbox(s, c, events[..|events| - 1], h, err); }
  }

  lemma SyncSettles(spec: Spec, s: State<Table>)
    requires WellFormed(spec, s)
    ensures Settled(spec, Synced(spec, s))
    ensures Synced(spec, s).bus.outbox == s.bus.outbox
  {
    var t := Ensured(s, spec.consumer);
    var h := ProjectInto(spec.op);
    var u := DeliverAll(t, spec.consumer, s.bus.outbox, h, NoError());
    DeliverAllKeepsOutbox(t, spec.consumer, s.bus.outbox, h, NoError());
    forall i | 0 <= i < |s.bus.outbox| ensures s.bus.outbox[i].id in Seen(u.bus, spec.consumer) {
      DeliverAllSees(t, spec.consumer, s.bus.outbox, h, s.bus.outbox[i].id);
    }
  }

  lemma {:induction false} IdleModel(op: Event -> RowOp, s: State<Table>, c: string, events: seq<Event>, err: nat -> bool)
    requires forall i :: 0 <= i < |events| ==> events[i].id in Seen(s.bus, c) || op(events[i]).Skip?
    ensures var t := DeliverAll(s, c, events, ProjectInto(op), err);
            t.model == s.model && Seen(s.bus, c) <= Seen(t.bus, c)
  {
    if |events| > 0 {
      var p := events[..|events| - 1];
      assert forall i :: 0 <= i < |p| ==> p[i] == events[i];
      IdleModel(op, s, c, p, err);
    }
  }

  lemma SettledSyncIsIdle(spec: Spec, s: State<Table>)
    requires Settled(spec, s)
    ensures Synced(spec, s).model == s.model
  {
    IdleModel(spec.op, Ensured(s, spec.consumer), spec.consumer, s.bus.outbox, NoError());
  }

  /** Publishing keeps a suffix of the outbox and appends the event. */
  lemma PublishKeepsSuffix(b: Bus, e: Event) returns (d: nat)
    ensures d <= |b.outbox| + 1
    ensures AfterPublish(b, e).outbox == if ValidMetadata(e) then (b.outbox + [e])[d..] else b.outbox
    ensures AfterPublish(b, e).inbox == b.inbox
  {
    d := if |b.outbox| + 1 <= OUTBOX_LIMIT then 0 else |b.outbox| + 1 - OUTBOX_LIMIT;
    if d == 0 { assert (b.outbox + [e])[0..] == b.outbox + [e]; }
  }

  /** After a publish every retained event was retained before, or is the new one. */
  lemma RetainedAfterPublish(b: Bus, e: Event, i: nat)
    requires i < |AfterPublish(b, e).outbox|
    ensures AfterPublish(b, e).outbox[i] in b.outbox ||
            (ValidMetadata(e) && AfterPublish(b, e).outbox[i] == e)
    ensures AfterPublish(b, e).inbox == b.inbox
  {
    var d := PublishKeepsSuffix(b, e);
    if ValidMetadata(e) && d + i < |b.outbox| {
      assert AfterPublish(b, e).outbox[i] == b.outbox[d + i];
    }
  }

  lemma PublishStaysSettled(spec: Spec, s: State<Table>, e: Event)
    requires spec.op(e).Skip?
    ensures Settled(spec, s) ==> Settled(spec, Published(s, e))
    ensures WellFormed(spec, s) ==> WellFormed(spec, Published(s, e))
  {
    forall i | 0 <= i < |AfterPublish(s.bus, e).outbox|
      ensures var x := AfterPublish(s.bus, e).outbox[i];
              x in s.bus.outbox || (x == e && e.id != "")
    {
      RetainedAfterPublish(s.bus, e, i);
    }
    assert AfterPublish(s.bus, e).inbox == s.bus.inbox;
  }

  // ---------------------------------------------------------------- at most one rebuild

  /** Nothing left to do: a tick measures either no drift or the residual of the last rebuild. */
  predicate Calm(spec: Spec, r: Reconciler) {
    Settled(spec, r.app) && (spec.drift(r.app.model) == 0 || spec.drift(r.app.model) == r.residual)
  }

  lemma CalmStaysCalm(spec: Spec, r: Reconciler, tick: Tick)
    requires Calm(spec, r)
    ensures Calm(spec, AfterTick(spec, r, tick)) && AfterTick(spec, r, tick).rebuilds == r.rebuilds
  {
    SettledSyncIsIdle(spec, r.app);
    SyncSettles(spec, r.app);
  }

  /** An error-free tick leaves a calm reconciler whose residual is the drift it measured last. */
  lemma TickCalms(spec: Spec, r: Reconciler, tick: Tick)
    requires Ignores(spec.op) && WellFormed(spec, r.app) && TickNames(tick.rebuilt, tick.detected)
    ensures var t := AfterTick(spec, r, tick);
            && WellFormed(spec, t.app)
            && r.rebuilds <= t.rebuilds <= r.rebuilds + (if tick.firstErr then 0 else 1)
            && (!tick.firstErr && !tick.secondErr ==>
                  Calm(spec, t) && t.residual == t.gauge == spec.drift(t.app.model))
  {
    SyncSettles(spec, r.app);
    var s := Synced(spec, r.app);
    PublishStaysSettled(spec, s, tick.detected);
    var p := Published(s, tick.detected);
    SyncSettles(spec, p.(bus := AfterReset(p.bus, spec.consumer)));
    PublishStaysSettled(spec, Rebuilt(spec, p), tick.rebuilt);
  }

  /** A tick rebuilds exactly when it measures drift that is not the residual of the last rebuild. */
  lemma {:induction false} TickRebuildsIff(spec: Spec, r: Reconciler, tick: Tick)
    ensures var before, t := spec.drift(Synced(spec, r.app).model), AfterTick(spec, r, tick);
      && (t.rebuilds == r.rebuilds + 1 <==> !tick.firstErr && before != 0 && before != r.residual)
      && (t.rebuilds == r.rebuilds || t.rebuilds == r.rebuilds + 1)
  {
  }

  /** A rebuilding tick announces the drift, and the rebuild once it has measured what is left; any other is silent. */
  lemma {:induction false} TickPublishes(spec: Spec, r: Reconciler, tick: Tick)
    requires ValidMetadata(tick.detected) && ValidMetadata(tick.rebuilt) && |r.app.bus.outbox| + 2 <= OUTBOX_LIMIT
    ensures var t := AfterTick(spec, r, tick);
      t.app.bus.outbox == r.app.bus.outbox +
        if t.rebuilds == r.rebuilds then [] else if tick.secondErr then [tick.detected] else [tick.detected, tick.rebuilt]
  {
    var s := Synced(spec, r.app);
    SyncKeepsOutbox(spec, r.app);
    var p := Published(s, tick.detected);
    SyncKeepsOutbox(spec, p.(bus := AfterReset(p.bus, spec.consumer)));
    var u := Rebuilt(spec, p);
    assert u.bus.outbox == r.app.bus.outbox + [tick.detected];
    assert Published(u, tick.rebuilt).bus.outbox == r.app.bus.outbox + [tick.detected, tick.rebuilt];
  }

  lemma {:induction false} SyncKeepsOutbox(spec: Spec, s: State<Table>)
    ensures Synced(spec, s).bus.outbox == s.bus.outbox
  {
    DeliverAllKeepsOutbox(Ensured(s, spec.consumer), spec.consumer, s.bus.outbox, ProjectInto(spec.op), NoError());
  }

  /** Ticks that may rebuild but fail to measure the drift that is left. */
  function Unmeasured(ticks: seq<Tick>): nat {
    if |ticks| == 0 then 0 else (if !ticks[0].firstErr && ticks[0].secondErr then 1 else 0) + Unmeasured(ticks[1..])
  }

  lemma {:induction false} CalmForever(spec: Spec, r: Reconciler, ticks: seq<Tick>)
    requires Calm(spec, r)
    ensures AfterTicks(spec, r, ticks).rebuilds == r.rebuilds
    decreases |ticks|
  {
    if |ticks| > 0 {
      CalmStaysCalm(spec, r, ticks[0]);
      CalmForever(spec, AfterTick(spec, r, ticks[0]), ticks[1..]);
    }
  }

  /**
   With a fixed stream and fixed owner rows, any number of ticks rebuilds at most once, and at most once more
   for every tick whose second drift measurement failed.
   */
  lemma {:induction false} RebuildsAtMostOnce(spec: Spec, r: Reconciler, ticks: seq<Tick>)
    requires Ignores(spec.op) && WellFormed(spec, r.app)
    requires forall i :: 0 <= i < |ticks| ==> TickNames(ticks[i].rebuilt, ticks[i].detected)
    ensures AfterTicks(spec, r, ticks).rebuilds <= r.rebuilds + 1 + Unmeasured(ticks)
    decreases |ticks|
  {
    if |ticks| > 0 {
      var t := AfterTick(spec, r, ticks[0]);
      TickCalms(spec, r, ticks[0]);
      if ticks[0].firstErr || ticks[0].secondErr {
        RebuildsAtMostOnce(spec, t, ticks[1..]);
      } else {
        CalmForever(spec, t, ticks[1..]);
      }
    }
  }

  /**
   The bound is reached for every number of failed second measurements: with drift that no rebuild repairs, each such
   tick rebuilds, and so does the first error-free one.
   */
  lemma {:induction false} RebuildBoundIsReached(spec: Spec, r: Reconciler, ticks: seq<Tick>)
    requires (forall t :: spec.drift(t) == 1) && r.residual == -1 && |ticks| > 0
    requires forall i :: 0 <= i < |ticks| ==> !ticks[i].firstErr && ticks[i].secondErr == (i < |ticks| - 1)
    ensures AfterTicks(spec, r, ticks).rebuilds == r.rebuilds + 1 + Unmeasured(ticks)
    ensures Unmeasured(ticks) == |ticks| - 1
    decreases |ticks|
  {
    var t := AfterTick(spec, r, ticks[0]);
    if |ticks| == 1 {
      assert AfterTicks(spec, t, ticks[1..]) == t;
    } else {
      RebuildBoundIsReached(spec, t, ticks[1..]);
    }
  }

  // ---------------------------------------------------------------- the maintenance task

  class ReconcileTask {
    const app: App<Table>
    const spec: Spec
    var residual: int
    var gauge: int
    ghost var rebuilds: nat

    ghost function Abs(): Reconciler
      reads this, app, app.bus
    {
      Reconciler(app.Abs(), residual, gauge, rebuilds)
    }

    constructor (app: App<Table>, spec: Spec)
      ensures this.app == app && this.spec == spec && residual == -1 && rebuilds == 0
    {
      this.app, this.spec, residual, gauge, rebuilds := app, spec, -1, 0, 0;
    }

    /** Announces the drift, resets the consumer and replays the stream. */
    method RebuildAfter(detected: Event)
      requires app.bus.Valid()
      modifies app, app.bus
      ensures app.bus.Valid()
      ensures app.Abs() == Rebuilt(spec, Published(old(app.Abs()), detected))
    {
      var _ := app.bus.Publish(detected);
      app.bus.ResetConsumer(spec.consumer);
      app.RunProjection(spec.consumer, ProjectInto(spec.op), NoError());
    }

    method RunTick(tick: Tick) returns (err: bool)
      requires app.bus.Valid()
      modifies this, app, app.bus
      ensures app.bus.Valid()
      ensures Abs() == AfterTick(spec, old(Abs()), tick)
    {
      app.RunProjection(spec.consumer, ProjectInto(spec.op), NoError());
      if tick.firstErr {
        return true;
      }
      var before := spec.drift(app.model);
      gauge := before;
      if before == 0 || before == residual {
        residual := before;
        return false;
      }
      RebuildAfter(tick.detected);
      rebuilds := rebuilds + 1;
      if tick.secondErr {
        return true;
      }
      var after := spec.drift(app.model);
      residual := after;
      gauge := after;
      var _ := app.bus.Publish(tick.rebuilt);
      return false;
    }
  }
}
