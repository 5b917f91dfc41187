/**
 The transactional outbox relay: rows of `platform_event_outbox` are published to a sink in batches,
 retried on failure and dead-lettered after five failed attempts.
 */
module OutboxRelay {
  import opened Contracts
  import opened Text

  const MAX_ATTEMPTS: nat := 5
  const DEFAULT_BATCH: nat := 100

  datatype RelayStatus = Pending | Retry | Published | DeadLetter

  /**
   One outbox row. `deliveries` and `lostAcks` are history: how often the sink accepted the event, and how
   often an acceptance was not recorded because the status write was lost. No operation reads them.
   */
  datatype Row = Row(
    id: string, createdAt: int, status: RelayStatus, attempts: nat, deliveries: nat, lostAcks: nat)

  /** What happened to a status update: applied and acknowledged, not applied, or applied with an error reported. */
  datatype Write = Acked | Lost | AppliedUnacked

  /** The environment's answers for one selected row: did the sink accept, and what became of the status update. */
  datatype Outcome = Outcome(accepted: bool, write: Write)

  datatype RelayResult = RelayResult(selected: nat, published: nat, retried: nat, deadLetter: nat)

  predicate Live(r: Row) { r.status.Pending? || r.status.Retry? }

  predicate IsTerminal(r: Row) { r.status.Published? || r.status.DeadLetter? }

  /** ORDER BY created_at, event_id. */
  predicate Before(a: Row, b: Row) {
    a.createdAt < b.createdAt || (a.createdAt == b.createdAt && LexLess(a.id, b.id))
  }

  // ---------------------------------------------------------------- table invariant

  ghost predicate RowInv(r: Row) {
    && (r.status.Pending? ==> r.attempts == 0)
    && (r.status.Retry? ==> 1 <= r.attempts < MAX_ATTEMPTS)
    && (r.status.Published? ==> r.attempts < MAX_ATTEMPTS)
    && (r.status.DeadLetter? ==> r.attempts == MAX_ATTEMPTS)
    && r.deliveries == r.lostAcks + (if r.status.Published? then 1 else 0)
  }

  ghost predicate DistinctIds(t: seq<Row>) {
    forall i, j :: 0 <= i < j < |t| ==> t[i].id != t[j].id
  }

  ghost predicate Ordered(t: seq<Row>) {
    forall i, j :: 0 <= i < j < |t| ==> Before(t[i], t[j])
  }

  ghost predicate TableInv(t: seq<Row>) {
    && DistinctIds(t)
    && Ordered(t)
    && forall i :: 0 <= i < |t| ==> RowInv(t[i])
  }

  // ---------------------------------------------------------------- selection

  function LiveCount(t: seq<Row>): (n: nat)
    ensures n <= |t|
  {
    if |t| == 0 then 0
    else LiveCount(t[..|t| - 1]) + (if Live(t[|t| - 1]) then 1 else 0)
  }

  /** Number of live rows that precede row i. */
  function Rank(t: seq<Row>, i: nat): nat
    requires i < |t|
  {
    LiveCount(t[..i])
  }

  lemma {:induction false} LiveCountMonotone(t: seq<Row>, i: nat, j: nat)
    requires i <= j <= |t|
    ensures LiveCount(t[..i]) <= LiveCount(t[..j])
    ensures i < j && Live(t[i]) ==> LiveCount(t[..i]) < LiveCount(t[..j])
  {
    if i < j {
      LiveCountMonotone(t, i, j - 1);
      assert t[..j][..j - 1] == t[..j - 1];
    }
  }

  /** Row i is in the batch of `limit` oldest live rows. */
  predicate Selected(t: seq<Row>, i: nat, limit: nat)
    requires i < |t|
  {
    Live(t[i]) && Rank(t, i) < limit
  }

  /** A row left waiting is younger than every selected one: later created, or at the same time with a greater id. */
  lemma {:induction false} OlderFirst(t: seq<Row>, limit: nat, i: nat, j: nat)
    requires TableInv(t) && i < |t| && j < |t| && Selected(t, i, limit) && Live(t[j]) && !Selected(t, j, limit)
    ensures t[i].createdAt < t[j].createdAt || (t[i].createdAt == t[j].createdAt && LexLess(t[i].id, t[j].id))
  {
    if j < i { LiveCountMonotone(t, j, i); }
  }

  /** A selected row after its attempt. */
  function Attempted(r: Row, o: Outcome): Row {
    if o.accepted then
      var r' := r.(deliveries := r.deliveries + 1);
      if o.write.Lost? then r'.(lostAcks := r'.lostAcks + 1) else r'.(status := Published)
    else if o.write.Lost? then r
    else r.(status := if r.attempts + 1 >= MAX_ATTEMPTS then DeadLetter else Retry, attempts := r.attempts + 1)
  }

  function RoundAt(t: seq<Row>, limit: nat, outcome: nat -> Outcome, i: nat): Row
    requires i < |t|
  {
    if Selected(t, i, limit) then Attempted(t[i], outcome(Rank(t, i))) else t[i]
  }

  /** The table after one round: exactly the `limit` oldest live rows get one attempt each. */
  function Round(t: seq<Row>, limit: nat, outcome: nat -> Outcome): (r: seq<Row>)
    ensures |r| == |t|
    ensures forall i :: 0 <= i < |t| ==> r[i] == RoundAt(t, limit, outcome, i)
  {
    seq(|t|, i requires 0 <= i < |t| => RoundAt(t, limit, outcome, i))
  }

  /** Number of selected rows whose status update was not acknowledged. */
  function Unacked(outcome: nat -> Outcome, n: nat): nat {
    if n == 0 then 0 else Unacked(outcome, n - 1) + (if outcome(n - 1).write.Acked? then 0 else 1)
  }

  function AckedAccepted(outcome: nat -> Outcome, n: nat): nat {
    if n == 0 then 0
    else AckedAccepted(outcome, n - 1) + (if outcome(n - 1).accepted && outcome(n - 1).write.Acked? then 1 else 0)
  }

  /** The live rows in order. */
  function LiveRows(t: seq<Row>): (r: seq<Row>)
    ensures |r| == LiveCount(t)
  {
    if |t| == 0 then []
    else LiveRows(t[..|t| - 1]) + (if Live(t[|t| - 1]) then [t[|t| - 1]] else [])
  }

  /** Number of the first n rows of a batch whose last failure was recorded as a dead letter. */
  function AckedDead(batch: seq<Row>, outcome: nat -> Outcome, n: nat): nat
    requires n <= |batch|
  {
    if n == 0 then 0
    else AckedDead(batch, outcome, n - 1)
         + (if outcome(n - 1).write.Acked? && Attempted(batch[n - 1], outcome(n - 1)).status.DeadLetter? then 1 else 0)
  }

  // ---------------------------------------------------------------- insertion

  function Fresh(id: string, createdAt: int): Row { Row(id, createdAt, Pending, 0, 0, 0) }

  /** Position of a new row in (created_at, event_id) order. */
  function InsertPos(t: seq<Row>, r: Row): (p: nat)
    ensures p <= |t|
    ensures p < |t| ==> !Before(t[p], r)
    ensures forall i :: 0 <= i < p ==> Before(t[i], r)
  {
    if |t| == 0 || !Before(t[0], r) then 0
    else
      var p := InsertPos(t[1..], r) + 1;
      assert forall i :: 1 <= i < p ==> t[i] == t[1..][i - 1];
      p
  }

  predicate HasId(t: seq<Row>, id: string) { exists i :: 0 <= i < |t| && t[i].id == id }

  function InsertRow(t: seq<Row>, id: string, createdAt: int): seq<Row> {
    if HasId(t, id) then t
    else var p := InsertPos(t, Fresh(id, createdAt)); t[..p] + [Fresh(id, createdAt)] + t[p..]
  }

  lemma BeforeTransitive(a: Row, b: Row, c: Row)
    requires Before(a, b) && Before(b, c)
    ensures Before(a, c)
  {
    if a.createdAt == b.createdAt == c.createdAt { LexLessTransitive(a.id, b.id, c.id); }
  }

  lemma InsertKeepsInv(t: seq<Row>, id: string, createdAt: int)
    requires TableInv(t)
    ensures TableInv(InsertRow(t, id, createdAt))
    ensures forall r :: r in t ==> r in InsertRow(t, id, createdAt)
    ensures HasId(InsertRow(t, id, createdAt), id)
  {
    if !HasId(t, id) {
      var x := Fresh(id, createdAt);
      var p := InsertPos(t, x);
      forall i | p <= i < |t| ensures Before(x, t[i]) {
        LexLessTotal(t[p].id, id);
        if p < i { BeforeTransitive(x, t[p], t[i]); }
      }
      SpliceKeepsInv(t, p, x);
    }
  }

  /** A new event adds one pending row without attempts and deliveries; a known event id adds nothing. */
  lemma {:induction false} InsertAddsPendingRow(t: seq<Row>, id: string, createdAt: int)
    ensures HasId(t, id) ==> InsertRow(t, id, createdAt) == t
    ensures !HasId(t, id) ==>
      exists p :: 0 <= p <= |t| &&
        InsertRow(t, id, createdAt) == t[..p] + [Row(id, createdAt, Pending, 0, 0, 0)] + t[p..]
  {
    if !HasId(t, id) {
      var p := InsertPos(t, Fresh(id, createdAt));
      assert InsertRow(t, id, createdAt) == t[..p] + [Row(id, createdAt, Pending, 0, 0, 0)] + t[p..];
    }
  }

  lemma SpliceKeepsInv(t: seq<Row>, p: nat, x: Row)
    requires TableInv(t) && p <= |t| && RowInv(x) && !HasId(t, x.id)
    requires forall i :: 0 <= i < p ==> Before(t[i], x)
    requires forall i :: p <= i < |t| ==> Before(x, t[i])
    ensures var u := t[..p] + [x] + t[p..];
            TableInv(u) && HasId(u, x.id) && forall r :: r in t ==> r in u
  {
    var u := t[..p] + [x] + t[p..];
    assert u[p] == x;
    forall i, j | 0 <= i < j < |u| ensures u[i].id != u[j].id && Before(u[i], u[j]) {
      var i' := if i < p then i else i - 1;
      var j' := if j < p then j else j - 1;
      if i == p {
        assert u[j] == t[j'];
      } else if j == p {
        assert u[i] == t[i'];
      } else {
        assert u[i] == t[i'] && u[j] == t[j'];
      }
    }
    forall r | r in t ensures r in u {
      var i :| 0 <= i < |t| && t[i] == r;
      assert u[if i < p then i else i + 1] == r;
    }
  }

  /** One round leaves ids and creation times alone and attempts a row at most once. */
  lemma RoundFrame(t: seq<Row>, limit: nat, outcome: nat -> Outcome, i: nat)
    requires i < |t|
    ensures var r := Round(t, limit, outcome)[i];
            && r.id == t[i].id
            && r.createdAt == t[i].createdAt
            && (IsTerminal(t[i]) ==> r == t[i])
            && (RowInv(t[i]) ==> RowInv(r))
            && (t[i].lostAcks == 0 && (forall k :: !outcome(k).write.Lost?) ==> r.lostAcks == 0)
  {
    assert Round(t, limit, outcome)[i] == RoundAt(t, limit, outcome, i);
  }

  lemma RoundKeepsInv(t: seq<Row>, limit: nat, outcome: nat -> Outcome)
    requires TableInv(t)
    ensures TableInv(Round(t, limit, outcome))
  {
    var u := Round(t, limit, outcome);
    forall i | 0 <= i < |t|
      ensures u[i].id == t[i].id && u[i].createdAt == t[i].createdAt && RowInv(u[i])
    {
      RoundFrame(t, limit, outcome, i);
    }
  }

  // ---------------------------------------------------------------- runs

  datatype Op =
    | Insert(id: string, createdAt: int)
    | Relay(limit: nat, outcome: nat -> Outcome)

  function Apply(t: seq<Row>, op: Op): seq<Row> {
    match op
    case Insert(id, createdAt) => InsertRow(t, id, createdAt)
    case Relay(limit, outcome) => Round(t, limit, outcome)
  }

  lemma ApplyKeepsInv(t: seq<Row>, op: Op)
    requires TableInv(t)
    ensures TableInv(Apply(t, op))
  {
    match op
    case Insert(id, createdAt) => InsertKeepsInv(t, id, createdAt);
    case Relay(limit, outcome) => RoundKeepsInv(t, limit, outcome);
  }

  function Run(t: seq<Row>, ops: seq<Op>): seq<Row>
    decreases |ops|
  {
    if |ops| == 0 then t else Run(Apply(t, ops[0]), ops[1..])
  }

  /**
   Safety over every run: statuses and attempt counts stay consistent, and the sink's acceptances of an
   event are exactly its recorded publication plus the acceptances whose status write was lost.
   */
  lemma {:induction false} RunKeepsInv(t: seq<Row>, ops: seq<Op>)
    requires TableInv(t)
    ensures TableInv(Run(t, ops))
    decreases |ops|
  {
    if |ops| > 0 {
      ApplyKeepsInv(t, ops[0]);
      RunKeepsInv(Apply(t, ops[0]), ops[1..]);
    }
  }

  /** Published and dead-lettered rows never change again, and no row is ever removed. */
  lemma {:induction false} TerminalForever(t: seq<Row>, ops: seq<Op>, r: Row)
    requires TableInv(t) && r in t
    ensures IsTerminal(r) ==> r in Run(t, ops)
    ensures HasId(Run(t, ops), r.id)
    decreases |ops|
  {
    if |ops| == 0 {
      return;
    }
    var t' := Apply(t, ops[0]);
    var i :| 0 <= i < |t| && t[i] == r;
    var r' := r;
    if ops[0].Insert? {
      InsertKeepsInv(t, ops[0].id, ops[0].createdAt);
    } else {
      RoundFrame(t, ops[0].limit, ops[0].outcome, i);
      r' := t'[i];
    }
    ApplyKeepsInv(t, ops[0]);
    TerminalForever(t', ops[1..], r');
  }

  ghost predicate NoLostWrites(ops: seq<Op>) {
    forall i, k :: 0 <= i < |ops| && ops[i].Relay? ==> !ops[i].outcome(k).write.Lost?
  }

  ghost predicate NothingLost(t: seq<Row>) {
    forall i :: 0 <= i < |t| ==> t[i].lostAcks == 0
  }

  /** Exactly-once: when no status write is lost, a row was accepted once if it is published and never otherwise. */
  lemma {:induction false} ExactlyOnceWithoutLostWrites(t: seq<Row>, ops: seq<Op>)
    requires TableInv(t) && NothingLost(t) && NoLostWrites(ops)
    ensures forall r :: r in Run(t, ops) ==> r.deliveries == if r.status.Published? then 1 else 0
    decreases |ops|
  {
    if |ops| > 0 {
      ApplyKeepsInv(t, ops[0]);
      var u := Apply(t, ops[0]);
      forall i | 0 <= i < |u| ensures u[i].lostAcks == 0 {
        if ops[0].Relay? { RoundFrame(t, ops[0].limit, ops[0].outcome, i); }
      }
      ExactlyOnceWithoutLostWrites(Apply(t, ops[0]), ops[1..]);
    }
  }

  // ---------------------------------------------------------------- progress past poison events

  /** The environment's answers in round `round`. */
  function InRound(outcome: (nat, nat) -> Outcome, round: nat): nat -> Outcome {
    (k: nat) => outcome(round, k)
  }

  /** Rounds `from`, `from + 1`, ..., `from + n - 1`. */
  function Rounds(t: seq<Row>, limit: nat, outcome: (nat, nat) -> Outcome, from: nat, n: nat): (r: seq<Row>)
    ensures |r| == |t|
    decreases n
  {
    if n == 0 then t
    else Rounds(Round(t, limit, InRound(outcome, from)), limit, outcome, from + 1, n - 1)
  }

  /** No status write of the round is lost. */
  ghost predicate WritesApplied(outcome: (nat, nat) -> Outcome, limit: nat, round: nat) {
    forall k: nat :: k < limit ==> !outcome(round, k).write.Lost?
  }

  /** How many of the rounds from `from` on lose no status write. */
  ghost function AppliedRounds(outcome: (nat, nat) -> Outcome, limit: nat, from: nat, n: nat): (r: nat)
    ensures r <= n
    decreases n
  {
    if n == 0 then 0
    else (if WritesApplied(outcome, limit, from) then 1 else 0) + AppliedRounds(outcome, limit, from + 1, n - 1)
  }

  /** The rounds can be cut after any number of those. */
  lemma {:induction false} CutRounds(outcome: (nat, nat) -> Outcome, limit: nat, from: nat, n: nat, m: nat)
      returns (c: nat)
    requires m <= AppliedRounds(outcome, limit, from, n)
    ensures c <= n && AppliedRounds(outcome, limit, from, c) == m
    ensures AppliedRounds(outcome, limit, from, n) == m + AppliedRounds(outcome, limit, from + c, n - c)
    decreases n
  {
    c := 0;
    if m > 0 {
      var good := WritesApplied(outcome, limit, from);
      c := CutRounds(outcome, limit, from + 1, n - 1, if good then m - 1 else m);
      c := c + 1;
    }
  }

  lemma {:induction false} RoundsKeepInv(t: seq<Row>, limit: nat, outcome: (nat, nat) -> Outcome, from: nat, n: nat)
    requires TableInv(t)
    ensures TableInv(Rounds(t, limit, outcome, from, n))
    decreases n
  {
    if n > 0 {
      RoundKeepsInv(t, limit, InRound(outcome, from));
      RoundsKeepInv(Round(t, limit, InRound(outcome, from)), limit, outcome, from + 1, n - 1);
    }
  }

  lemma {:induction false} RoundsCompose(
    t: seq<Row>, limit: nat, outcome: (nat, nat) -> Outcome, from: nat, m: nat, n: nat)
    ensures Rounds(t, limit, outcome, from, m + n)
         == Rounds(Rounds(t, limit, outcome, from, m), limit, outcome, from + m, n)
    decreases m
  {
    if m > 0 {
      RoundsCompose(Round(t, limit, InRound(outcome, from)), limit, outcome, from + 1, m - 1, n);
    }
  }

  /** A round never wakes a terminal row, so live rows before any position only get fewer. */
  lemma {:induction false} RoundShrinksRank(t: seq<Row>, limit: nat, outcome: nat -> Outcome, i: nat)
    requires i <= |t|
    ensures LiveCount(Round(t, limit, outcome)[..i]) <= LiveCount(t[..i])
  {
    if i > 0 {
      RoundShrinksRank(t, limit, outcome, i - 1);
      assert t[..i][..i - 1] == t[..i - 1];
      assert Round(t, limit, outcome)[..i][..i - 1] == Round(t, limit, outcome)[..i - 1];
    }
  }

  /** Each round attempts the `limit` oldest live rows again, until a row's attempts are used up. */
  lemma {:induction false} OldestRowsExhausted(
    t: seq<Row>, limit: nat, outcome: (nat, nat) -> Outcome, from: nat, n: nat, i: nat)
    requires TableInv(t) && i < |t|
    requires
      || IsTerminal(t[i])
      || (Rank(t, i) < limit && t[i].attempts + AppliedRounds(outcome, limit, from, n) >= MAX_ATTEMPTS)
    ensures IsTerminal(Rounds(t, limit, outcome, from, n)[i])
    decreases n
  {
    if n > 0 {
      var o := InRound(outcome, from);
      RoundShrinksRank(t, limit, o, i);
      RoundKeepsInv(t, limit, o);
      assert Round(t, limit, o)[i] == RoundAt(t, limit, o, i);
      if Live(t[i]) { assert o(Rank(t, i)) == outcome(from, Rank(t, i)); }
      OldestRowsExhausted(Round(t, limit, o), limit, outcome, from + 1, n - 1, i);
    }
  }

  function Min(a: nat, b: nat): nat { if a < b then a else b }

  /** If the `limit` oldest live rows of t are terminal in u, then u has that many fewer live rows. */
  lemma {:induction false} BatchGone(t: seq<Row>, u: seq<Row>, limit: nat, i: nat)
    requires |u| == |t| && i <= |t|
    requires forall j :: 0 <= j < |t| && (IsTerminal(t[j]) || Rank(t, j) < limit) ==> IsTerminal(u[j])
    ensures LiveCount(u[..i]) + Min(limit, LiveCount(t[..i])) <= LiveCount(t[..i])
  {
    if i > 0 {
      BatchGone(t, u, limit, i - 1);
      assert t[..i][..i - 1] == t[..i - 1] && u[..i][..i - 1] == u[..i - 1];
      assert IsTerminal(t[i - 1]) || Rank(t, i - 1) < limit ==> IsTerminal(u[i - 1]);
    }
  }

  /** MAX_ATTEMPTS or more rounds without a lost write clear the batch of the `limit` oldest live rows. */
  lemma AttemptsClearABatch(t: seq<Row>, limit: nat, outcome: (nat, nat) -> Outcome, from: nat, m: nat)
    requires TableInv(t) && AppliedRounds(outcome, limit, from, m) >= MAX_ATTEMPTS
    ensures var u := Rounds(t, limit, outcome, from, m);
            LiveCount(u) + Min(limit, LiveCount(t)) <= LiveCount(t)
  {
    var u := Rounds(t, limit, outcome, from, m);
    forall j | 0 <= j < |t| && (IsTerminal(t[j]) || Rank(t, j) < limit) ensures IsTerminal(u[j]) {
      OldestRowsExhausted(t, limit, outcome, from, m, j);
    }
    BatchGone(t, u, limit, |t|);
    assert t[..|t|] == t && u[..|t|] == u;
  }

  /** Number of batches of size `limit` needed for `count` rows, rounded up. */
  function Batches(count: nat, limit: nat): nat
    requires limit >= 1
  {
    if count == 0 then 0 else 1 + Batches(count - Min(limit, count), limit)
  }

  lemma {:induction false} BatchesIsCeiling(count: nat, limit: nat)
    requires limit >= 1
    ensures Batches(count, limit) == (count + limit - 1) / limit
    decreases count
  {
    if count == 0 {
      QuotientIs(limit - 1, limit, 0);
    } else if count <= limit {
      assert Batches(0, limit) == 0;
      QuotientIs(count + limit - 1, limit, 1);
    } else {
      BatchesIsCeiling(count - limit, limit);
      var q := (count - 1) / limit;
      QuotientIs(count + limit - 1, limit, q + 1);
    }
  }

  lemma QuotientIs(a: nat, b: nat, q: nat)
    requires b > 0 && q * b <= a < (q + 1) * b
    ensures a / b == q
  {
    if a / b > q {
      ScaleMonotone(q + 1, a / b, b);
      assert false;
    }
    if a / b < q {
      ScaleMonotone(a / b + 1, q, b);
      assert false;
    }
  }

  lemma ScaleMonotone(x: nat, y: nat, b: nat)
    requires x <= y
    ensures x * b <= y * b
  {
  }

  /** Rounds needed for `count` rows when each batch takes m of them. */
  function Needed(m: nat, count: nat, limit: nat): nat
    requires limit >= 1
    decreases count
  {
    if count == 0 then 0 else m + Needed(m, count - Min(limit, count), limit)
  }

  lemma {:induction false} NeededIsProduct(m: nat, count: nat, limit: nat)
    requires limit >= 1
    ensures Needed(m, count, limit) == m * Batches(count, limit)
    decreases count
  {
    if count > 0 {
      NeededIsProduct(m, count - Min(limit, count), limit);
      assert m * (1 + Batches(count - Min(limit, count), limit)) == m + m * Batches(count - Min(limit, count), limit);
    }
  }

  lemma {:induction false} NeededMonotone(m: nat, a: nat, b: nat, limit: nat)
    requires a <= b && limit >= 1
    ensures Needed(m, a, limit) <= Needed(m, b, limit)
    decreases b
  {
    if a > 0 { NeededMonotone(m, a - Min(limit, a), b - Min(limit, b), limit); }
  }

  lemma {:induction false} StaysEmpty(t: seq<Row>, limit: nat, outcome: (nat, nat) -> Outcome, from: nat, n: nat)
    requires LiveCount(t) == 0
    ensures LiveCount(Rounds(t, limit, outcome, from, n)) == 0
    decreases n
  {
    if n > 0 {
      var o := InRound(outcome, from);
      RoundShrinksRank(t, limit, o, |t|);
      assert t[..|t|] == t && Round(t, limit, o)[..|t|] == Round(t, limit, o);
      StaysEmpty(Round(t, limit, o), limit, outcome, from + 1, n - 1);
    }
  }

  lemma {:induction false} BatchesDrain(
    t: seq<Row>, limit: nat, outcome: (nat, nat) -> Outcome, from: nat, m: nat, n: nat)
    requires TableInv(t) && limit >= 1 && m >= MAX_ATTEMPTS
    requires AppliedRounds(outcome, limit, from, n) >= Needed(m, LiveCount(t), limit)
    ensures LiveCount(Rounds(t, limit, outcome, from, n)) == 0
    decreases LiveCount(t)
  {
    if LiveCount(t) == 0 {
      StaysEmpty(t, limit, outcome, from, n);
    } else {
      var c := CutRounds(outcome, limit, from, n, m);
      var u := Rounds(t, limit, outcome, from, c);
      AttemptsClearABatch(t, limit, outcome, from, c);
      RoundsKeepInv(t, limit, outcome, from, c);
      NeededMonotone(m, LiveCount(u), LiveCount(t) - Min(limit, LiveCount(t)), limit);
      BatchesDrain(u, limit, outcome, from + c, m, n - c);
      RoundsCompose(t, limit, outcome, from, c, n - c);
    }
  }

  /**
   Poison events cannot block the relay: without inserts, any run that holds 5 * ceil(N / limit) rounds without a lost
   status write, wherever they stand, leaves all N live rows published or dead-lettered, whatever the sink answers.
   */
  lemma PoisonCannotBlock(t: seq<Row>, limit: nat, outcome: (nat, nat) -> Outcome, n: nat)
    requires TableInv(t) && limit >= 1
    requires AppliedRounds(outcome, limit, 0, n) >= MAX_ATTEMPTS * ((LiveCount(t) + limit - 1) / limit)
    ensures forall i :: 0 <= i < |t| ==> IsTerminal(Rounds(t, limit, outcome, 0, n)[i])
  {
    BatchesIsCeiling(LiveCount(t), limit);
    NeededIsProduct(MAX_ATTEMPTS, LiveCount(t), limit);
    BatchesDrain(t, limit, outcome, 0, MAX_ATTEMPTS, n);
    NoneLiveMeansAllTerminal(Rounds(t, limit, outcome, 0, n));
  }

  /** No live row is left exactly when every row is terminal. */
  lemma {:induction false} NoneLiveMeansAllTerminal(t: seq<Row>)
    ensures LiveCount(t) == 0 <==> forall i :: 0 <= i < |t| ==> IsTerminal(t[i])
  {
    if |t| > 0 {
      var p := t[..|t| - 1];
      NoneLiveMeansAllTerminal(p);
      assert forall i :: 0 <= i < |p| ==> p[i] == t[i];
    }
  }

  // ---------------------------------------------------------------- the relay itself

  lemma RankInjective(t: seq<Row>, i: nat, j: nat)
    requires i < |t| && j < |t| && Live(t[i]) && Live(t[j]) && Rank(t, i) == Rank(t, j)
    ensures i == j
  {
    if i < j { LiveCountMonotone(t, i, j); }
    if j < i { LiveCountMonotone(t, j, i); }
  }

  /** The k-th live row is the live row with k live rows before it. */
  lemma {:induction false} RowOfRank(t: seq<Row>, k: nat) returns (p: nat)
    requires k < LiveCount(t)
    ensures p < |t| && Live(t[p]) && Rank(t, p) == k && t[p] == LiveRows(t)[k]
  {
    var u := t[..|t| - 1];
    if k < LiveCount(u) {
      p := RowOfRank(u, k);
      assert u[..p] == t[..p];
    } else {
      p := |t| - 1;
    }
  }

  lemma {:induction false} LiveRowsOrdered(t: seq<Row>)
    requires Ordered(t)
    ensures forall r :: r in LiveRows(t) ==> r in t
    ensures forall a, b :: 0 <= a < b < |LiveRows(t)| ==> Before(LiveRows(t)[a], LiveRows(t)[b])
  {
    if |t| > 0 {
      LiveRowsOrdered(t[..|t| - 1]);
      var init := t[..|t| - 1];
      var p := LiveRows(init);
      forall a | 0 <= a < |p| ensures Before(p[a], t[|t| - 1]) {
        assert p[a] in init;
        var k :| 0 <= k < |init| && init[k] == p[a];
        assert init[k] == t[k];
      }
    }
  }

  lemma LiveRankBelowCount(t: seq<Row>, i: nat)
    requires i < |t| && Live(t[i])
    ensures Rank(t, i) < LiveCount(t)
  {
    LiveCountMonotone(t, i, |t|);
    assert t[..|t|] == t;
  }

  class PostgresEventBus {
    var rows: seq<Row>
    const sinkConfigured: bool

    ghost predicate Valid()
      reads this
    {
      TableInv(rows)
    }

    constructor (sinkConfigured: bool)
      ensures Valid() && rows == [] && this.sinkConfigured == sinkConfigured
    {
      this.sinkConfigured := sinkConfigured;
      rows := [];
    }

    /**
     Validates the metadata, then INSERT ... ON CONFLICT (event_id) DO NOTHING. The statement may fail before or after
     its effect, and the payload may fail to encode.
     */
    method InsertOutboxEvent(e: Event, createdAt: int, encodes: bool, write: Write) returns (err: bool)
      requires Valid()
      modifies this`rows
      ensures Valid()
      ensures err == !(ValidMetadata(e) && encodes && write.Acked?)
      ensures rows == if ValidMetadata(e) && encodes && !write.Lost? then InsertRow(old(rows), e.id, createdAt) else old(rows)
    {
      if !ValidMetadata(e) || !encodes {
        return true;
      }
      if !write.Lost? {
        InsertKeepsInv(rows, e.id, createdAt);
        rows := InsertRow(rows, e.id, createdAt);
      }
      return !write.Acked?;
    }

    /** SELECT ... WHERE relay_status IN ('pending', 'retry') ORDER BY created_at, event_id LIMIT limit. */
    method PendingRelayRows(limit: nat) returns (pending: seq<Row>)
      requires Valid()
      ensures |pending| == Min(limit, LiveCount(rows))
      ensures pending == LiveRows(rows)[..|pending|]
      ensures forall a, b :: 0 <= a < b < |pending| ==>
                || pending[a].createdAt < pending[b].createdAt
                || (pending[a].createdAt == pending[b].createdAt && LexLess(pending[a].id, pending[b].id))
    {
      pending := [];
      for i := 0 to |rows|
        invariant |pending| == Min(limit, LiveCount(rows[..i]))
        invariant pending == LiveRows(rows[..i])[..|pending|]
      {
        assert rows[..i + 1][..i] == rows[..i];
        if Live(rows[i]) && |pending| < limit {
          pending := pending + [rows[i]];
        }
      }
      assert rows[..|rows|] == rows;
      LiveRowsOrdered(rows);
    }

    /**
     Publishes one selected row and records the outcome in the row that carries its event id. There is one
     relayer at a time, so the attempts read with the batch are still the stored ones.
     */
    method RelayOutboxRow(row: Row, o: Outcome) returns (delta: RelayResult, err: bool)
      requires forall i :: 0 <= i < |rows| && rows[i].id == row.id ==> rows[i].attempts == row.attempts
      modifies this`rows
      ensures |rows| == |old(rows)|
      ensures forall i :: 0 <= i < |rows| ==>
                rows[i] == if old(rows)[i].id != row.id then old(rows)[i] else Attempted(old(rows)[i], o)
      ensures delta.selected == 0
      ensures delta.published == (if o.accepted && o.write.Acked? then 1 else 0)
      ensures delta.published + delta.retried + delta.deadLetter == (if o.write.Acked? then 1 else 0)
      ensures err == !(o.accepted && o.write.Acked?)
      ensures Live(row) ==>
                delta.deadLetter == (if o.write.Acked? && Attempted(row, o).status.DeadLetter? then 1 else 0)
    {
      var t := rows;
      delta := RelayResult(0, 0, 0, 0);
      if o.accepted {
        rows := seq(|t|, i requires 0 <= i < |t| =>
          if t[i].id != row.id then t[i]
          else if o.write.Lost? then t[i].(deliveries := t[i].deliveries + 1, lostAcks := t[i].lostAcks + 1)
          else t[i].(deliveries := t[i].deliveries + 1, status := Published));
        if !o.write.Acked? {
          return delta, true;
        }
        return delta.(published := 1), false;
      }
      var attempts := row.attempts + 1;
      if !o.write.Lost? {
        var status := if attempts >= MAX_ATTEMPTS then DeadLetter else Retry;
        rows := seq(|t|, i requires 0 <= i < |t| =>
          if t[i].id != row.id then t[i] else t[i].(status := status, attempts := attempts));
      }
      if !o.write.Acked? {
        return delta, true;
      }
      if attempts >= MAX_ATTEMPTS {
        return delta.(deadLetter := 1), true;
      }
      return delta.(retried := 1), true;
    }

    /** The loop body: attempts the row of rank k of the table t the round started from. */
    method RelayNext(ghost t: seq<Row>, k: nat, ghost p: nat, row: Row, outcome: nat -> Outcome)
      returns (delta: RelayResult, err: bool)
      requires TableInv(t) && p < |t| && Live(t[p]) && Rank(t, p) == k && row == t[p]
      requires rows == Round(t, k, outcome)
      modifies this`rows
      ensures rows == Round(t, k + 1, outcome)
      ensures delta.published == (if outcome(k).accepted && outcome(k).write.Acked? then 1 else 0)
      ensures delta.published + delta.retried + delta.deadLetter == (if outcome(k).write.Acked? then 1 else 0)
      ensures delta.deadLetter ==
              (if outcome(k).write.Acked? && Attempted(row, outcome(k)).status.DeadLetter? then 1 else 0)
      ensures err == !(outcome(k).accepted && outcome(k).write.Acked?)
    {
      RowUntouched(t, k, p, outcome);
      delta, err := RelayOutboxRow(row, outcome(k));
      RoundAdvances(t, old(rows), rows, k, p, outcome);
    }

    /** The loop of a round over the rows of rank 0, 1, ... of the table t it started from. */
    method RelayBatch(ghost t: seq<Row>, pending: seq<Row>, outcome: nat -> Outcome)
      returns (result: RelayResult, err: bool)
      requires TableInv(t) && rows == t
      requires |pending| <= LiveCount(t) && pending == LiveRows(t)[..|pending|]
      modifies this`rows
      ensures rows == Round(t, |pending|, outcome)
      ensures Accounted(result, |pending|, outcome)
      ensures result.deadLetter == AckedDead(pending, outcome, |pending|)
      ensures err == !Clean(outcome, |pending|)
    {
      RoundOfNothing(t, outcome);
      result, err := RelayResult(|pending|, 0, 0, 0), false;
      for k := 0 to |pending|
        invariant rows == Round(t, k, outcome)
        invariant result.selected == |pending|
        invariant Accounted(result.(selected := k), k, outcome)
        invariant result.deadLetter == AckedDead(pending, outcome, k)
        invariant err == !Clean(outcome, k)
      {
        ghost var p := RowOfRank(t, k);
        var delta, failed := RelayNext(t, k, p, pending[k], outcome);
        AccountNext(result, delta, pending, k, outcome);
        result := Plus(result, delta);
        err := err || failed;
      }
    }

    /**
     One relay round. On success the table is `Round` of the old one, and every selected row is accounted
     for as published, retried, dead-lettered or not acknowledged.
     */
    method RelayPending(limit: int, queryOk: bool, outcome: nat -> Outcome) returns (result: RelayResult, err: bool)
      requires Valid()
      modifies this`rows
      ensures Valid()
      ensures !sinkConfigured || !queryOk ==> err && rows == old(rows) && result == RelayResult(0, 0, 0, 0)
      ensures sinkConfigured && queryOk ==>
                && rows == Round(old(rows), BatchSize(limit), outcome)
                && result.selected == Min(BatchSize(limit), LiveCount(old(rows)))
                && Accounted(result, result.selected, outcome)
                && result.deadLetter
                   == AckedDead(LiveRows(old(rows))[..result.selected], outcome, result.selected)
                && err == !Clean(outcome, result.selected)
    {
      result, err := RelayResult(0, 0, 0, 0), true;
      if !sinkConfigured || !queryOk {
        return;
      }
      var batch := BatchSize(limit);
      ghost var t := rows;
      var pending := PendingRelayRows(batch);
      result, err := RelayBatch(t, pending, outcome);
      RoundSaturates(t, |pending|, batch, outcome);
      RoundKeepsInv(t, batch, outcome);
    }
  }

  function BatchSize(limit: int): nat { if limit <= 0 then DEFAULT_BATCH else limit }

  /** Selected = Published + Retried + DeadLetter + rows whose status write was not acknowledged. */
  predicate Accounted(result: RelayResult, n: nat, outcome: nat -> Outcome) {
    && result.selected == n
    && n == result.published + result.retried + result.deadLetter + Unacked(outcome, n)
    && result.published == AckedAccepted(outcome, n)
  }

  /** All of the first n rows were accepted and recorded; otherwise the round reports an error. */
  predicate Clean(outcome: nat -> Outcome, n: nat) {
    n == 0 || (Clean(outcome, n - 1) && outcome(n - 1).accepted && outcome(n - 1).write.Acked?)
  }

  lemma {:induction false} CleanIff(outcome: nat -> Outcome, n: nat)
    ensures Clean(outcome, n) <==> forall k: nat :: k < n ==> outcome(k).accepted && outcome(k).write.Acked?
  {
    if n > 0 { CleanIff(outcome, n - 1); }
  }

  ghost function Size(p: nat -> bool, n: nat): nat { |set k: nat | k < n && p(k)| }

  lemma {:induction false} SizeStep(p: nat -> bool, n: nat)
    ensures Size(p, n + 1) == Size(p, n) + (if p(n) then 1 else 0)
  {
    var before, after := set k: nat | k < n && p(k), set k: nat | k < n + 1 && p(k);
    assert after == if p(n) then before + {n} else before;
  }

  function NotAcked(outcome: nat -> Outcome): nat -> bool { (k: nat) => !outcome(k).write.Acked? }

  function Delivered(outcome: nat -> Outcome): nat -> bool { (k: nat) => outcome(k).accepted && outcome(k).write.Acked? }

  /** The counters are numbers of rows: unacknowledged ones, and accepted ones that were acknowledged. */
  lemma {:induction false} CountersAreSizes(outcome: nat -> Outcome, n: nat)
    ensures Unacked(outcome, n) == Size(NotAcked(outcome), n) && AckedAccepted(outcome, n) == Size(Delivered(outcome), n)
  {
    if n > 0 {
      CountersAreSizes(outcome, n - 1);
      SizeStep(NotAcked(outcome), n - 1);
      SizeStep(Delivered(outcome), n - 1);
    } else {
      assert (set k: nat | k < 0 && NotAcked(outcome)(k)) == {};
      assert (set k: nat | k < 0 && Delivered(outcome)(k)) == {};
    }
  }

  function Plus(result: RelayResult, delta: RelayResult): RelayResult {
    result.(
      published := result.published + delta.published,
      retried := result.retried + delta.retried,
      deadLetter := result.deadLetter + delta.deadLetter)
  }

  /** Counting the k-th row's outcome keeps the totals right. */
  lemma {:induction false} AccountNext(
    result: RelayResult, delta: RelayResult, pending: seq<Row>, k: nat, outcome: nat -> Outcome)
    requires k < |pending| && Accounted(result.(selected := k), k, outcome)
    requires result.deadLetter == AckedDead(pending, outcome, k)
    requires delta.published == (if outcome(k).accepted && outcome(k).write.Acked? then 1 else 0)
    requires delta.published + delta.retried + delta.deadLetter == (if outcome(k).write.Acked? then 1 else 0)
    requires delta.deadLetter ==
             (if outcome(k).write.Acked? && Attempted(pending[k], outcome(k)).status.DeadLetter? then 1 else 0)
    ensures Accounted(Plus(result, delta).(selected := k + 1), k + 1, outcome)
    ensures Plus(result, delta).deadLetter == AckedDead(pending, outcome, k + 1)
    ensures Clean(outcome, k + 1) <==> Clean(outcome, k) && outcome(k).accepted && outcome(k).write.Acked?
  {
  }

  lemma RoundOfNothing(t: seq<Row>, outcome: nat -> Outcome)
    ensures Round(t, 0, outcome) == t
  {
  }

  /** Before its turn, the row of rank k is the only one with its id and still as selected. */
  lemma RowUntouched(t: seq<Row>, k: nat, p: nat, outcome: nat -> Outcome)
    requires TableInv(t) && p < |t| && Live(t[p]) && Rank(t, p) == k
    ensures var u := Round(t, k, outcome);
            u[p] == t[p] && forall i :: 0 <= i < |u| && u[i].id == t[p].id ==> i == p
  {
    var u := Round(t, k, outcome);
    assert u[p] == RoundAt(t, k, outcome, p);
    forall i | 0 <= i < |u| && u[i].id == t[p].id ensures i == p {
      RoundFrame(t, k, outcome, i);
    }
  }

  /** Updating the row of rank k by its id turns the first k attempts into the first k + 1. */
  lemma RoundAdvances(t: seq<Row>, u: seq<Row>, v: seq<Row>, k: nat, p: nat, outcome: nat -> Outcome)
    requires TableInv(t) && p < |t| && Live(t[p]) && Rank(t, p) == k
    requires u == Round(t, k, outcome) && |v| == |t|
    requires forall i :: 0 <= i < |t| ==>
               v[i] == if u[i].id != t[p].id then u[i] else Attempted(u[i], outcome(k))
    ensures v == Round(t, k + 1, outcome)
  {
    forall i | 0 <= i < |t| ensures v[i] == RoundAt(t, k + 1, outcome, i) {
      RoundFrame(t, k, outcome, i);
      assert u[i] == RoundAt(t, k, outcome, i);
      if i != p {
        assert t[i].id != t[p].id;
        if Live(t[i]) && Rank(t, i) == k { RankInjective(t, i, p); }
      }
    }
  }

  /** A batch that takes all live rows is the same as any larger batch. */
  lemma RoundSaturates(t: seq<Row>, n: nat, limit: nat, outcome: nat -> Outcome)
    requires n == Min(limit, LiveCount(t))
    ensures Round(t, n, outcome) == Round(t, limit, outcome)
  {
    forall i | 0 <= i < |t| ensures RoundAt(t, n, outcome, i) == RoundAt(t, limit, outcome, i) {
      if Live(t[i]) { LiveRankBelowCount(t, i); }
    }
  }
}
