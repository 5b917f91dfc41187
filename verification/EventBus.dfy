/** The in-memory event bus: a bounded outbox, a per-consumer inbox, and checkpoints that survive trimming. */
module EventBus {
  import opened Contracts

  const OUTBOX_LIMIT: nat := 1000

  datatype Bus = Bus(outbox: seq<Event>, inbox: map<string, set<string>>, checkpoints: map<string, nat>)

  const EMPTY: Bus := Bus([], map[], map[])

  function Seen(b: Bus, consumer: string): set<string> {
    if consumer in b.inbox then b.inbox[consumer] else {}
  }

  function CheckpointOf(checkpoints: map<string, nat>, consumer: string): nat {
    if consumer in checkpoints then checkpoints[consumer] else 0
  }

  function Lag(b: Bus, consumer: string): nat {
    var checkpoint := CheckpointOf(b.checkpoints, consumer);
    if checkpoint > |b.outbox| then 0 else |b.outbox| - checkpoint
  }

  function Less(a: nat, b: nat): nat { if a <= b then 0 else a - b }

  function Trim(b: Bus): Bus {
    if |b.outbox| <= OUTBOX_LIMIT then b
    else
      var dropped := |b.outbox| - OUTBOX_LIMIT;
      b.(outbox := b.outbox[dropped..],
         checkpoints := map c | c in b.checkpoints :: Less(b.checkpoints[c], dropped))
  }

  function AfterPublish(b: Bus, e: Event): Bus {
    if ValidMetadata(e) then Trim(b.(outbox := b.outbox + [e])) else b
  }

  function AfterConsume(b: Bus, consumer: string, id: string): Bus {
    b.(inbox := b.inbox[consumer := Seen(b, consumer) + {id}])
  }

  function AfterCheckpoint(b: Bus, consumer: string): Bus {
    b.(checkpoints := b.checkpoints[consumer := |b.outbox|])
  }

  function AfterReset(b: Bus, consumer: string): Bus {
    b.(inbox := b.inbox - {consumer}, checkpoints := b.checkpoints - {consumer})
  }

  function AfterResetEvents(b: Bus, consumer: string, ids: set<string>): Bus {
    if consumer in b.inbox then b.(inbox := b.inbox[consumer := b.inbox[consumer] - ids]) else b
  }

  /** The first k elements of a list, as a set. */
  function Listed(ids: seq<string>, k: nat): (s: set<string>)
    requires k <= |ids|
    ensures forall id :: id in s <==> id in ids[..k]
  {
    if k == 0 then {} else
      assert ids[..k] == ids[..k - 1] + [ids[k - 1]];
      Listed(ids, k - 1) + {ids[k - 1]}
  }

  // ---------------------------------------------------------------- trimmed bookkeeping refines full history

  datatype Op =
    | OpPublish(event: Event)
    | OpConsume(consumer: string, id: string)
    | OpCheckpoint(consumer: string)
    | OpReset(consumer: string)
    | OpResetEvents(consumer: string, ids: set<string>)

  function Step(b: Bus, op: Op): Bus {
    match op
    case OpPublish(e) => AfterPublish(b, e)
    case OpConsume(c, id) => AfterConsume(b, c, id)
    case OpCheckpoint(c) => AfterCheckpoint(b, c)
    case OpReset(c) => AfterReset(b, c)
    case OpResetEvents(c, ids) => AfterResetEvents(b, c, ids)
  }

  function Run(b: Bus, ops: seq<Op>): Bus {
    if |ops| == 0 then b else Step(Run(b, ops[..|ops| - 1]), ops[|ops| - 1])
  }

  /** Bookkeeping that never forgets: every event published, and how many there were at each checkpoint. */
  datatype History = History(published: seq<Event>, marks: map<string, nat>)

  function Remember(h: History, op: Op): History {
    match op
    case OpPublish(e) => if ValidMetadata(e) then h.(published := h.published + [e]) else h
    case OpCheckpoint(c) => h.(marks := h.marks[c := |h.published|])
    case OpReset(c) => h.(marks := h.marks - {c})
    case OpConsume(_, _) => h
    case OpResetEvents(_, _) => h
  }

  function RunHistory(ops: seq<Op>): History {
    if |ops| == 0 then History([], map[]) else Remember(RunHistory(ops[..|ops| - 1]), ops[|ops| - 1])
  }

  function Retained(published: nat): nat { if published < OUTBOX_LIMIT then published else OUTBOX_LIMIT }

  /** The bus holds the last events of the history, and each checkpoint counts the retained part of its mark. */
  ghost predicate Refines(b: Bus, h: History) {
    var dropped := |h.published| - Retained(|h.published|);
    && b.outbox == h.published[dropped..]
    && b.checkpoints.Keys == h.marks.Keys
    && forall c :: c in h.marks ==> h.marks[c] <= |h.published| && b.checkpoints[c] == Less(h.marks[c], dropped)
  }

  lemma PublishRefines(b: Bus, h: History, e: Event)
    requires Refines(b, h)
    ensures Refines(AfterPublish(b, e), Remember(h, OpPublish(e)))
  {
    if ValidMetadata(e) {
      var h' := Remember(h, OpPublish(e));
      var dropped := |h.published| - Retained(|h.published|);
      assert b.outbox + [e] == h'.published[dropped..];
      if |b.outbox + [e]| > OUTBOX_LIMIT {
        assert (b.outbox + [e])[1..] == h'.published[dropped + 1..];
      }
    }
  }

  lemma {:induction false} RunRefines(ops: seq<Op>)
    ensures Refines(Run(EMPTY, ops), RunHistory(ops))
  {
    if |ops| > 0 {
      var p := ops[..|ops| - 1];
      RunRefines(p);
      match ops[|ops| - 1]
      case OpPublish(e) => PublishRefines(Run(EMPTY, p), RunHistory(p), e);
      case _ =>
    }
  }

  /** Events published since the consumer's last checkpoint; all of them if it has none. */
  function Unprocessed(h: History, consumer: string): int {
    |h.published| - CheckpointOf(h.marks, consumer)
  }

  /**
   After any run, the lag is the number of events published since the consumer's last checkpoint, capped by
   the events still retained, and every stored checkpoint lies within the retained outbox.
   */
  lemma LagIsTrueBacklog(ops: seq<Op>, consumer: string)
    ensures var b := Run(EMPTY, ops);
            var backlog := Unprocessed(RunHistory(ops), consumer);
            && Lag(b, consumer) == (if backlog < |b.outbox| then backlog else |b.outbox|)
            && (forall c :: c in b.checkpoints ==> b.checkpoints[c] <= |b.outbox|)
            && |b.outbox| == Retained(|RunHistory(ops).published|)
  {
    RunRefines(ops);
    var b, h := Run(EMPTY, ops), RunHistory(ops);
    assert consumer in b.checkpoints <==> consumer in h.marks;
  }

  // ---------------------------------------------------------------- the bus

  // ---------------------------------------------------------------- who has seen what

  /** The operation makes the consumer forget the event. */
  predicate Forgets(op: Op, consumer: string, id: string) {
    || op == OpReset(consumer)
    || (op.OpResetEvents? && op.consumer == consumer && id in op.ids)
  }

  /** Over every run a consumer has seen exactly the events it consumed and was not made to forget since. */
  lemma {:induction false} SeenIff(ops: seq<Op>, consumer: string, id: string)
    ensures id in Seen(Run(EMPTY, ops), consumer) <==>
      exists i :: 0 <= i < |ops| && ops[i] == OpConsume(consumer, id) &&
                  forall j :: i < j < |ops| ==> !Forgets(ops[j], consumer, id)
  {
    if |ops| > 0 {
      var p, op := ops[..|ops| - 1], ops[|ops| - 1];
      SeenIff(p, consumer, id);
      if op == OpConsume(consumer, id) {
        assert ops[|ops| - 1] == OpConsume(consumer, id);
      } else {
        SeenStep(Run(EMPTY, p), op, consumer, id);
        if id in Seen(Run(EMPTY, p), consumer) && !Forgets(op, consumer, id) {
          var i :| 0 <= i < |p| && p[i] == OpConsume(consumer, id) && forall j :: i < j < |p| ==> !Forgets(p[j], consumer, id);
          assert ops[i] == OpConsume(consumer, id) && forall j :: i < j < |ops| ==> !Forgets(ops[j], consumer, id);
        }
        if exists i :: 0 <= i < |ops| && ops[i] == OpConsume(consumer, id) &&
                       forall j :: i < j < |ops| ==> !Forgets(ops[j], consumer, id) {
          var i :| 0 <= i < |ops| && ops[i] == OpConsume(consumer, id) &&
                   forall j :: i < j < |ops| ==> !Forgets(ops[j], consumer, id);
          assert p[i] == OpConsume(consumer, id) && forall j :: i < j < |p| ==> !Forgets(p[j], consumer, id);
        }
      }
    }
  }

  /** One operation: other consumers, and events that are neither consumed nor forgotten, are left alone. */
  lemma {:induction false} SeenStep(b: Bus, op: Op, consumer: string, id: string)
    ensures id in Seen(Step(b, op), consumer) <==>
      op == OpConsume(consumer, id) || (id in Seen(b, consumer) && !Forgets(op, consumer, id))
  {
  }

  class InMemoryBus {
    var outbox: seq<Event>
    var inbox: map<string, set<string>>
    var checkpoints: map<string, nat>

    ghost function Abs(): Bus
      reads this
    {
      Bus(outbox, inbox, checkpoints)
    }

    /** What every run of the bus keeps: a bounded outbox of valid events and checkpoints inside it. */
    ghost predicate Valid()
      reads this
    {
      && |outbox| <= OUTBOX_LIMIT
      && (forall c :: c in checkpoints ==> checkpoints[c] <= |outbox|)
      && forall i :: 0 <= i < |outbox| ==> ValidMetadata(outbox[i])
    }

    constructor ()
      ensures Valid() && Abs() == EMPTY
    {
      outbox, inbox, checkpoints := [], map[], map[];
    }

    method TrimOutbox()
      requires |outbox| <= OUTBOX_LIMIT + 1
      requires forall c :: c in checkpoints ==> checkpoints[c] <= OUTBOX_LIMIT
      modifies this`outbox, this`checkpoints
      ensures Abs() == Trim(old(Abs()))
      ensures |old(outbox)| > OUTBOX_LIMIT ==> forall c :: c in checkpoints ==> checkpoints[c] <= |outbox|
    {
      if |outbox| <= OUTBOX_LIMIT {
        return;
      }
      var dropped := |outbox| - OUTBOX_LIMIT;
      outbox := outbox[dropped..];
      var rest := checkpoints.Keys;
      while rest != {}
        invariant rest <= checkpoints.Keys == old(checkpoints).Keys
        invariant outbox == old(outbox)[dropped..] && inbox == old(inbox)
        invariant forall c :: c in checkpoints ==>
                    checkpoints[c] == if c in rest then old(checkpoints)[c] else Less(old(checkpoints)[c], dropped)
        decreases |rest|
      {
        var c :| c in rest;
        rest := rest - {c};
        if checkpoints[c] <= dropped {
          checkpoints := checkpoints[c := 0];
        } else {
          checkpoints := checkpoints[c := checkpoints[c] - dropped];
        }
        // The clamp to the outbox length that follows in the loop is never needed.
        assert checkpoints[c] <= |outbox|;
      }
    }

    method Publish(e: Event) returns (ok: bool)
      requires Valid()
      modifies this`outbox, this`checkpoints
      ensures Valid()
      ensures ok == (e.name != "" && e.source != "" && e.id != "" && e.traceId != "" && e.schemaVersion != 0)
      ensures Abs() == AfterPublish(old(Abs()), e)
    {
      ok := ValidMetadata(e);
      if ok {
        outbox := outbox + [e];
        TrimOutbox();
      }
    }

    /** At most once: true exactly for the first call since the pair was last reset. */
    method Consume(consumer: string, id: string) returns (processed: bool, err: bool)
      requires Valid()
      modifies this`inbox
      ensures Valid()
      ensures err == (consumer == "" || id == "")
      ensures processed == (!err && id !in Seen(old(Abs()), consumer))
      ensures Abs() == if processed then AfterConsume(old(Abs()), consumer, id) else old(Abs())
    {
      if consumer == "" || id == "" {
        return false, true;
      }
      if consumer !in inbox {
        inbox := inbox[consumer := {}];
      }
      if id in inbox[consumer] {
        return false, false;
      }
      inbox := inbox[consumer := inbox[consumer] + {id}];
      return true, false;
    }

    method ResetConsumer(consumer: string)
      requires Valid()
      modifies this`inbox, this`checkpoints
      ensures Valid() && Abs() == AfterReset(old(Abs()), consumer)
    {
      inbox := inbox - {consumer};
      checkpoints := checkpoints - {consumer};
    }

    method ResetConsumerEvents(consumer: string, ids: seq<string>)
      requires Valid()
      modifies this`inbox
      ensures Valid()
      ensures Abs() == AfterResetEvents(old(Abs()), consumer, Listed(ids, |ids|))
    {
      for k := 0 to |ids|
        invariant inbox.Keys == old(inbox).Keys
        invariant forall c :: c in inbox && c != consumer ==> inbox[c] == old(inbox)[c]
        invariant consumer in inbox ==> inbox[consumer] == old(inbox)[consumer] - Listed(ids, k)
      {
        if consumer in inbox {
          inbox := inbox[consumer := inbox[consumer] - {ids[k]}];
        }
      }
      assert consumer in inbox ==> inbox == old(inbox)[consumer := inbox[consumer]];
    }

    method Checkpoint(consumer: string)
      requires Valid()
      modifies this`checkpoints
      ensures Valid() && Abs() == AfterCheckpoint(old(Abs()), consumer)
    {
      checkpoints := checkpoints[consumer := |outbox|];
    }
  }
}
