/**
 Read models as folds over the event stream: every event becomes one merge-upsert, one delete or nothing,
 and a table is the result of folding these operations.
 */
module ReadModel {
  import opened Contracts
  import opened Text

  datatype Key = Key(resource: string, id: string)

  type Table = map<Key, Fields>

  datatype RowOp = Upsert(key: Key, fields: Fields) | Remove(key: Key) | Skip

  function Get(t: Table, k: Key): Option<Fields> {
    if k in t then Some(t[k]) else None
  }

  function OrEmpty(row: Option<Fields>): Fields {
    match row
    case Some(fields) => fields
    case None => map[]
  }

  /** An upsert merges field by field into the existing row, or creates the row. */
  function ApplyOp(t: Table, op: RowOp): Table {
    match op
    case Upsert(k, fields) => t[k := OrEmpty(Get(t, k)) + fields]
    case Remove(k) => t - {k}
    case Skip => t
  }

  function Fold(ops: seq<RowOp>, t: Table): Table {
    if |ops| == 0 then t else ApplyOp(Fold(ops[..|ops| - 1], t), ops[|ops| - 1])
  }

  lemma {:induction false} FoldConcat(a: seq<RowOp>, b: seq<RowOp>, t: Table)
    ensures Fold(a + b, t) == Fold(b, Fold(a, t))
    decreases |b|
  {
    if |b| == 0 {
      assert a + b == a;
    } else {
      assert (a + b)[..|a + b| - 1] == a + b[..|b| - 1];
      FoldConcat(a, b[..|b| - 1], t);
    }
  }

  lemma {:induction false} FoldSkip(ops: seq<RowOp>, t: Table)
    requires forall i :: 0 <= i < |ops| ==> ops[i].Skip?
    ensures Fold(ops, t) == t
  {
    if |ops| > 0 { FoldSkip(ops[..|ops| - 1], t); }
  }

  // ---------------------------------------------------------------- what a stream does to one row

  predicate On(op: RowOp, k: Key) { !op.Skip? && op.key == k }

  predicate Touched(ops: seq<RowOp>, k: Key) { exists i :: 0 <= i < |ops| && On(ops[i], k) }

  predicate Removed(ops: seq<RowOp>, k: Key) { exists i :: 0 <= i < |ops| && ops[i] == Remove(k) }

  /** The last operation on row k is a delete. */
  predicate EndsRemoved(ops: seq<RowOp>, k: Key) {
    exists i :: 0 <= i < |ops| && ops[i] == Remove(k) && forall j :: i < j < |ops| ==> !On(ops[j], k)
  }

  /** The last value the stream writes to field f of row k after the row's last delete. */
  function LastValue(ops: seq<RowOp>, k: Key, f: string): Option<Value> {
    if |ops| == 0 then None
    else
      var op := ops[|ops| - 1];
      if op.Upsert? && op.key == k && f in op.fields then Some(op.fields[f])
      else if op == Remove(k) then None
      else LastValue(ops[..|ops| - 1], k, f)
  }

  /** All fields the stream writes to row k after the row's last delete. */
  function Written(ops: seq<RowOp>, k: Key): Fields {
    if |ops| == 0 then map[]
    else
      var op := ops[|ops| - 1];
      var before := Written(ops[..|ops| - 1], k);
      if op.Upsert? && op.key == k then before + op.fields
      else if op == Remove(k) then map[]
      else before
  }

  lemma {:induction false} WrittenIsLastValue(ops: seq<RowOp>, k: Key, f: string)
    ensures (if f in Written(ops, k) then Some(Written(ops, k)[f]) else None) == LastValue(ops, k, f)
  {
    if |ops| > 0 { WrittenIsLastValue(ops[..|ops| - 1], k, f); }
  }

  lemma StreamStep(ops: seq<RowOp>, k: Key)
    requires |ops| > 0
    ensures var p := ops[..|ops| - 1]; var op := ops[|ops| - 1];
            && (Touched(ops, k) <==> Touched(p, k) || On(op, k))
            && (Removed(ops, k) <==> Removed(p, k) || op == Remove(k))
            && (EndsRemoved(ops, k) <==> op == Remove(k) || (!On(op, k) && EndsRemoved(p, k)))
  {
    var p := ops[..|ops| - 1];
    assert forall i :: 0 <= i < |p| ==> p[i] == ops[i];
    assert ops[|ops| - 1] == Remove(k) ==> EndsRemoved(ops, k);
    if EndsRemoved(ops, k) && ops[|ops| - 1] != Remove(k) {
      var i :| 0 <= i < |ops| && ops[i] == Remove(k) && forall j :: i < j < |ops| ==> !On(ops[j], k);
      assert p[i] == Remove(k);
    }
    if !On(ops[|ops| - 1], k) && EndsRemoved(p, k) {
      var i :| 0 <= i < |p| && p[i] == Remove(k) && forall j :: i < j < |p| ==> !On(p[j], k);
      assert forall j :: i < j < |ops| ==> !On(ops[j], k);
    }
  }

  /** Closed form of row k after the stream, from the row it started with. */
  function RowAfter(ops: seq<RowOp>, k: Key, row: Option<Fields>): Option<Fields> {
    if !Touched(ops, k) then row
    else if EndsRemoved(ops, k) then None
    else Some((if Removed(ops, k) then map[] else OrEmpty(row)) + Written(ops, k))
  }

  lemma {:induction false} FoldRow(ops: seq<RowOp>, t: Table, k: Key)
    ensures Get(Fold(ops, t), k) == RowAfter(ops, k, Get(t, k))
  {
    if |ops| > 0 {
      var p := ops[..|ops| - 1];
      var op := ops[|ops| - 1];
      FoldRow(p, t, k);
      StreamStep(ops, k);
      if op.Upsert? && op.key == k {
        UpsertRow(p, k, Get(t, k), op.fields);
      }
    }
  }

  lemma UpsertRow(p: seq<RowOp>, k: Key, row: Option<Fields>, fields: Fields)
    ensures OrEmpty(RowAfter(p, k, row)) + fields
         == (if Removed(p, k) then map[] else OrEmpty(row)) + (Written(p, k) + fields)
  {
    if !Touched(p, k) {
      UntouchedWritesNothing(p, k);
    } else if EndsRemoved(p, k) {
      EndsRemovedWritesNothing(p, k);
    }
  }

  lemma {:induction false} UntouchedWritesNothing(ops: seq<RowOp>, k: Key)
    requires !Touched(ops, k)
    ensures Written(ops, k) == map[] && !Removed(ops, k)
  {
    if |ops| > 0 {
      StreamStep(ops, k);
      UntouchedWritesNothing(ops[..|ops| - 1], k);
    }
  }

  lemma {:induction false} EndsRemovedWritesNothing(ops: seq<RowOp>, k: Key)
    requires EndsRemoved(ops, k)
    ensures Written(ops, k) == map[] && Removed(ops, k)
  {
    StreamStep(ops, k);
    if !On(ops[|ops| - 1], k) { EndsRemovedWritesNothing(ops[..|ops| - 1], k); }
  }

  lemma SameRows(t: Table, u: Table)
    requires forall k :: Get(t, k) == Get(u, k)
    ensures t == u
  {
    forall k ensures k in t <==> k in u {
      assert Get(t, k) == Get(u, k);
    }
    forall k | k in t ensures t[k] == u[k] {
      assert Get(t, k) == Get(u, k);
    }
  }

  // ---------------------------------------------------------------- replay

  /** Replaying any suffix of a stream on the table the stream produced changes nothing. */
  lemma ReplaySuffixIdempotent(prefix: seq<RowOp>, suffix: seq<RowOp>, t: Table)
    ensures Fold(suffix, Fold(prefix + suffix, t)) == Fold(prefix + suffix, t)
  {
    FoldConcat(prefix, suffix, t);
    var base := Fold(prefix, t);
    var once := Fold(suffix, base);
    forall k ensures Get(Fold(suffix, once), k) == Get(once, k) {
      FoldRow(suffix, base, k);
      FoldRow(suffix, once, k);
      RowAfterTwice(suffix, k, Get(base, k));
    }
    SameRows(Fold(suffix, once), once);
  }

  lemma RowAfterTwice(ops: seq<RowOp>, k: Key, row: Option<Fields>)
    ensures RowAfter(ops, k, RowAfter(ops, k, row)) == RowAfter(ops, k, row)
  {
    if Touched(ops, k) && !EndsRemoved(ops, k) && !Removed(ops, k) {
      var w := Written(ops, k);
      assert (OrEmpty(row) + w) + w == OrEmpty(row) + w;
    }
  }

  /**
   Healing: whatever the table held, a replay removes every row whose last operation is a delete and
   restores every field the stream writes to any other touched row; untouched rows stay as they are.
   */
  lemma ReplayHeals(ops: seq<RowOp>, corrupted: Table, k: Key)
    ensures var healed := Get(Fold(ops, corrupted), k);
            && (EndsRemoved(ops, k) ==> healed == None)
            && (!Touched(ops, k) ==> healed == Get(corrupted, k))
            && (Touched(ops, k) && !EndsRemoved(ops, k) ==>
                  && healed.Some?
                  && forall f :: LastValue(ops, k, f).Some? ==>
                       f in healed.value && healed.value[f] == LastValue(ops, k, f).value)
  {
    FoldRow(ops, corrupted, k);
    if Touched(ops, k) && !EndsRemoved(ops, k) {
      var healed := Get(Fold(ops, corrupted), k);
      forall f | LastValue(ops, k, f).Some?
        ensures f in healed.value && healed.value[f] == LastValue(ops, k, f).value
      {
        WrittenIsLastValue(ops, k, f);
      }
    } else if EndsRemoved(ops, k) {
      EndsRemovedTouches(ops, k);
    }
  }

  lemma EndsRemovedTouches(ops: seq<RowOp>, k: Key)
    requires EndsRemoved(ops, k)
    ensures Touched(ops, k)
  {
    var i :| 0 <= i < |ops| && ops[i] == Remove(k) && forall j :: i < j < |ops| ==> !On(ops[j], k);
    assert On(ops[i], k);
  }

  /** What a replay cannot repair in row k: the row itself, its unwritten fields, or nothing. */
  datatype Residue = WholeRow(row: Option<Fields>) | Unwritten(fields: Fields) | Nothing

  function ResidueOf(ops: seq<RowOp>, t: Table, k: Key): Residue {
    if !Touched(ops, k) then WholeRow(Get(t, k))
    else if Removed(ops, k) then Nothing
    else Unwritten(OrEmpty(Get(t, k)) - Written(ops, k).Keys)
  }

  /**
   Two tables are the same after a replay exactly when they agree on what the stream leaves alone: untouched
   rows, and the never-written fields of rows the stream only upserts.
   */
  lemma ReplayConvergesIff(ops: seq<RowOp>, t: Table, u: Table)
    ensures Fold(ops, t) == Fold(ops, u) <==> forall k :: ResidueOf(ops, t, k) == ResidueOf(ops, u, k)
  {
    forall k ensures Get(Fold(ops, t), k) == Get(Fold(ops, u), k) <==> ResidueOf(ops, t, k) == ResidueOf(ops, u, k) {
      FoldRow(ops, t, k);
      FoldRow(ops, u, k);
      if Touched(ops, k) && !Removed(ops, k) {
        if EndsRemoved(ops, k) { EndsRemovedWritesNothing(ops, k); }
        OverwrittenAgree(OrEmpty(Get(t, k)), OrEmpty(Get(u, k)), Written(ops, k));
      }
    }
    if forall k :: ResidueOf(ops, t, k) == ResidueOf(ops, u, k) {
      SameRows(Fold(ops, t), Fold(ops, u));
    }
  }

  lemma OverwrittenAgree(a: Fields, b: Fields, w: Fields)
    ensures a + w == b + w <==> a - w.Keys == b - w.Keys
  {
    if a + w == b + w {
      forall f | f in a - w.Keys ensures f in b - w.Keys && a[f] == b[f] {
        assert f in a + w && (a + w)[f] == a[f] && f in b + w && (b + w)[f] == b[f];
      }
      forall f | f in b - w.Keys ensures f in a - w.Keys {
        assert f in b + w && f in a + w;
      }
      assert a - w.Keys == b - w.Keys;
    }
    if a - w.Keys == b - w.Keys {
      forall f ensures f in a + w <==> f in b + w {
        assert f in a - w.Keys <==> f in b - w.Keys;
      }
      forall f | f in a + w ensures (a + w)[f] == (b + w)[f] {
        if f !in w { assert f in a - w.Keys && (a - w.Keys)[f] == (b - w.Keys)[f]; }
      }
      assert a + w == b + w;
    }
  }

  // ---------------------------------------------------------------- replaying another stream

  /** Every field of w is in v with the same value. */
  predicate Included(w: Fields, v: Fields) { forall f :: f in w ==> f in v && v[f] == w[f] }

  /** What stream a does to row k is already done when stream b has run. */
  predicate RowIdle(a: seq<RowOp>, b: seq<RowOp>, k: Key) {
    || !Touched(a, k)
    || ( && Touched(b, k)
         && if EndsRemoved(a, k) then EndsRemoved(b, k)
            else
              && !EndsRemoved(b, k)
              && if Removed(a, k) then Removed(b, k) && Written(a, k) == Written(b, k)
                 else Included(Written(a, k), Written(b, k)))
  }

  lemma {:induction false} IncludedAbsorbs(u: Fields, v: Fields, w: Fields)
    requires Included(w, v)
    ensures (u + v) + w == u + v
  {
  }

  lemma {:induction false} IdleRow(a: seq<RowOp>, b: seq<RowOp>, k: Key, row: Option<Fields>)
    requires RowIdle(a, b, k)
    ensures RowAfter(a, k, RowAfter(b, k, row)) == RowAfter(b, k, row)
  {
    if Touched(a, k) && !EndsRemoved(a, k) {
      var u := if Removed(b, k) then map[] else OrEmpty(row);
      if Removed(a, k) {
        assert map[] + Written(a, k) == map[] + Written(b, k);
      } else {
        IncludedAbsorbs(u, Written(b, k), Written(a, k));
      }
    }
  }

  /** Otherwise some row to start from shows the difference. */
  lemma {:induction false} BusyRow(a: seq<RowOp>, b: seq<RowOp>, k: Key) returns (row: Option<Fields>)
    requires !RowIdle(a, b, k)
    ensures RowAfter(a, k, RowAfter(b, k, row)) != RowAfter(b, k, row)
  {
    row := None;
    var wa, wb := Written(a, k), Written(b, k);
    if !Touched(b, k) {
      if EndsRemoved(a, k) { row := Some(map[]); }
    } else if !EndsRemoved(a, k) && !EndsRemoved(b, k) {
      assert map[] + wb == wb && map[] + wa == wa;
      if Removed(a, k) && !Removed(b, k) {
        var f := FreshName(wa.Keys + wb.Keys);
        row := Some(map[f := Str("")]);
        assert f in map[f := Str("")] + wb && f !in map[] + wa;
      } else if !Removed(a, k) {
        var f :| f in wa && !(f in wb && wb[f] == wa[f]);
        assert (wb + wa)[f] == wa[f];
      }
    }
  }

  ghost predicate StreamIdle(a: seq<RowOp>, b: seq<RowOp>, m: Table) { Fold(a, Fold(b, m)) == Fold(b, m) }

  lemma {:induction false} StreamIdleRow(a: seq<RowOp>, b: seq<RowOp>, m: Table, k: Key)
    ensures Get(Fold(b, m), k) == RowAfter(b, k, Get(m, k))
    ensures Get(Fold(a, Fold(b, m)), k) == RowAfter(a, k, RowAfter(b, k, Get(m, k)))
  {
    FoldRow(b, m, k);
    FoldRow(a, Fold(b, m), k);
  }

  /** Replaying stream a on what stream b left changes nothing, from any table, exactly when it is idle on every row. */
  lemma {:induction false} StreamIdleIff(a: seq<RowOp>, b: seq<RowOp>)
    ensures (forall m :: StreamIdle(a, b, m)) <==> forall k :: RowIdle(a, b, k)
  {
    if forall k :: RowIdle(a, b, k) {
      forall m ensures StreamIdle(a, b, m) {
        forall k ensures Get(Fold(a, Fold(b, m)), k) == Get(Fold(b, m), k) {
          StreamIdleRow(a, b, m, k);
          IdleRow(a, b, k, Get(m, k));
        }
        SameRows(Fold(a, Fold(b, m)), Fold(b, m));
      }
    } else {
      var k :| !RowIdle(a, b, k);
      var row := BusyRow(a, b, k);
      var m: Table := if row.Some? then map[k := row.value] else map[];
      assert Get(m, k) == row;
      StreamIdleRow(a, b, m, k);
      assert !StreamIdle(a, b, m);
    }
  }

  // ---------------------------------------------------------------- streams of events

  /** The row operations of a stream, for a family that turns events into operations by `op`. */
  function OpsOf(op: Event -> RowOp, events: seq<Event>): (ops: seq<RowOp>)
    ensures |ops| == |events|
    ensures forall i :: 0 <= i < |events| ==> ops[i] == op(events[i])
  {
    seq(|events|, i requires 0 <= i < |events| => op(events[i]))
  }

  lemma OpsOfConcat(op: Event -> RowOp, a: seq<Event>, b: seq<Event>)
    ensures OpsOf(op, a + b) == OpsOf(op, a) + OpsOf(op, b)
  {
  }

  /** Replaying any suffix of the events on the read model the whole stream produced changes nothing. */
  lemma StreamReplayIdempotent(op: Event -> RowOp, prefix: seq<Event>, suffix: seq<Event>, t: Table)
    ensures var built := Fold(OpsOf(op, prefix + suffix), t);
            Fold(OpsOf(op, suffix), built) == built
  {
    OpsOfConcat(op, prefix, suffix);
    ReplaySuffixIdempotent(OpsOf(op, prefix), OpsOf(op, suffix), t);
  }
}
