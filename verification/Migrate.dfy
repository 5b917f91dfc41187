/**
 Crash-safe schema migrations: every script runs between a dirty ledger row and the update that clears it, and
 each statement may fail before or after it took effect.
 */
module Migrate {

  datatype UnitKey = UnitKey(service: string, version: nat)

  /** One script; the checksum stands for its text. */
  datatype Unit = Unit(key: UnitKey, filename: string, checksum: string)

  datatype Entry = Entry(filename: string, checksum: string, dirty: bool)

  /** The ledger, and as history how often each script was committed. */
  datatype Db = Db(ledger: map<UnitKey, Entry>, commits: map<UnitKey, nat>)

  const FRESH: Db := Db(map[], map[])

  /** A statement works, fails without effect, or takes effect and then fails (or the process dies right after it). */
  datatype Fault = Works | NoEffect | EffectThenFails

  datatype Stmt = ReadLedger | MarkDirty | Begin | Execute | Commit | ClearDirty

  datatype UnitOutcome = UnitApplied | UnitSkipped | UnitFailed

  function Commits(db: Db, k: UnitKey): nat { if k in db.commits then db.commits[k] else 0 }

  // ---------------------------------------------------------------- one unit

  function Marked(db: Db, u: Unit): Db { db.(ledger := db.ledger[u.key := Entry(u.filename, u.checksum, true)]) }

  function Committed(db: Db, u: Unit): Db { db.(commits := db.commits[u.key := Commits(db, u.key) + 1]) }

  function Cleared(db: Db, u: Unit): Db { db.(ledger := db.ledger[u.key := Entry(u.filename, u.checksum, false)]) }

  /** From the dirty mark on: execute, commit, clear. */
  function Finish(db: Db, u: Unit, f: Stmt -> Fault): (Db, UnitOutcome) {
    if !f(Begin).Works? || !f(Execute).Works? || f(Commit).NoEffect? then (db, UnitFailed)
    else
      var committed := Committed(db, u);
      if f(Commit).EffectThenFails? || f(ClearDirty).NoEffect? then (committed, UnitFailed)
      else (Cleared(committed, u), if f(ClearDirty).Works? then UnitApplied else UnitFailed)
  }

  function ApplyUnit(db: Db, u: Unit, f: Stmt -> Fault): (Db, UnitOutcome) {
    if !f(ReadLedger).Works? then (db, UnitFailed)
    else if u.key in db.ledger then
      if db.ledger[u.key].dirty || db.ledger[u.key].checksum != u.checksum then (db, UnitFailed) else (db, UnitSkipped)
    else if f(MarkDirty).NoEffect? then (db, UnitFailed)
    else if f(MarkDirty).EffectThenFails? then (Marked(db, u), UnitFailed)
    else Finish(Marked(db, u), u, f)
  }

  // ---------------------------------------------------------------- one run

  datatype RunResult = RunResult(db: Db, ok: bool, applied: nat, skipped: nat)

  type Faults = (nat, Stmt) -> Fault

  function ForUnit(faults: Faults, i: nat): Stmt -> Fault { (s: Stmt) => faults(i, s) }

  /** The first n units of a run. */
  function RunUnits(db: Db, units: seq<Unit>, faults: Faults, n: nat): RunResult
    requires n <= |units|
  {
    if n == 0 then RunResult(db, true, 0, 0)
    else
      var r := RunUnits(db, units, faults, n - 1);
      if !r.ok then r
      else
        Tally(r, ApplyUnit(r.db, units[n - 1], ForUnit(faults, n - 1)))
  }

  function Tally(r: RunResult, step: (Db, UnitOutcome)): RunResult {
    match step.1
    case UnitApplied => RunResult(step.0, true, r.applied + 1, r.skipped)
    case UnitSkipped => RunResult(step.0, true, r.applied, r.skipped + 1)
    case UnitFailed => RunResult(step.0, false, r.applied, r.skipped)
  }

  predicate AnyDirty(db: Db) { exists k :: k in db.ledger && db.ledger[k].dirty }

  /** A whole run; `ready` covers the connection, the advisory lock, the ledger bootstrap and the dirty check. */
  function RunAll(db: Db, units: seq<Unit>, faults: Faults, ready: bool): RunResult {
    if !ready || AnyDirty(db) then RunResult(db, false, 0, 0) else RunUnits(db, units, faults, |units|)
  }

  // ---------------------------------------------------------------- safety

  ghost predicate EntryInv(db: Db, k: UnitKey) {
    && Commits(db, k) <= 1
    && (k in db.ledger && !db.ledger[k].dirty ==> Commits(db, k) == 1)
    && (Commits(db, k) > 0 ==> k in db.ledger)
  }

  ghost predicate OneDirty(db: Db) {
    forall j, k :: j in db.ledger && k in db.ledger && db.ledger[j].dirty && db.ledger[k].dirty ==> j == k
  }

  ghost predicate Inv(db: Db) { OneDirty(db) && forall k :: EntryInv(db, k) }

  /** What one unit or one run may do to the ledger: clean rows stay exactly as they are. */
  ghost predicate KeepsClean(before: Db, after: Db) {
    forall k :: k in before.ledger && !before.ledger[k].dirty ==>
                  k in after.ledger && after.ledger[k] == before.ledger[k] && Commits(after, k) == Commits(before, k)
  }

  lemma FinishKeepsInv(db: Db, u: Unit, f: Stmt -> Fault)
    requires Inv(db) && !AnyDirty(db) && u.key !in db.ledger
    ensures var (next, outcome) := Finish(Marked(db, u), u, f);
            && Inv(next) && KeepsClean(db, next)
            && (outcome.UnitApplied? ==> next == Cleared(Committed(Marked(db, u), u), u))
            && !outcome.UnitSkipped?
  {
    assert EntryInv(db, u.key);
    var (next, outcome) := Finish(Marked(db, u), u, f);
    forall k ensures EntryInv(next, k) {
      assert EntryInv(db, k);
    }
  }

  lemma MarkKeepsInv(db: Db, u: Unit)
    requires Inv(db) && !AnyDirty(db) && u.key !in db.ledger
    ensures Inv(Marked(db, u)) && KeepsClean(db, Marked(db, u))
  {
    forall k ensures EntryInv(Marked(db, u), k) {
      assert EntryInv(db, k);
    }
  }

  /** The unit's row is in the ledger with the unit's checksum. */
  predicate Recorded(db: Db, u: Unit) { u.key in db.ledger && db.ledger[u.key].checksum == u.checksum }

  lemma UnitKeepsInv(db: Db, u: Unit, f: Stmt -> Fault)
    requires Inv(db) && !AnyDirty(db)
    ensures var (next, outcome) := ApplyUnit(db, u, f); Inv(next) && KeepsClean(db, next)
  {
    if u.key !in db.ledger {
      MarkKeepsInv(db, u);
      FinishKeepsInv(db, u, f);
    }
  }

  /** A unit that does not fail ends recorded and clean; only an applied one adds a row. */
  lemma UnitSucceeds(db: Db, u: Unit, f: Stmt -> Fault)
    requires Inv(db) && !AnyDirty(db) && !ApplyUnit(db, u, f).1.UnitFailed?
    ensures var (next, outcome) := ApplyUnit(db, u, f);
            && !AnyDirty(next) && Recorded(next, u)
            && |next.ledger| == |db.ledger| + (if outcome.UnitApplied? then 1 else 0)
  {
    if u.key !in db.ledger {
      FinishKeepsInv(db, u, f);
      var next := ApplyUnit(db, u, f).0;
      assert next.ledger == db.ledger[u.key := Entry(u.filename, u.checksum, false)];
    }
  }

  lemma KeepsCleanTransitive(a: Db, b: Db, c: Db)
    requires KeepsClean(a, b) && KeepsClean(b, c)
    ensures KeepsClean(a, c)
  {
  }

  lemma RecordedStays(a: Db, b: Db, u: Unit)
    requires KeepsClean(a, b) && !AnyDirty(a) && Recorded(a, u)
    ensures Recorded(b, u)
  {
    assert !a.ledger[u.key].dirty;
  }

  ghost predicate AllRecorded(db: Db, units: seq<Unit>, n: nat) {
    n <= |units| && forall i :: 0 <= i < n ==> Recorded(db, units[i])
  }

  lemma {:induction false} AllRecordedStep(a: Db, b: Db, units: seq<Unit>, n: nat)
    requires KeepsClean(a, b) && !AnyDirty(a) && 0 < n && AllRecorded(a, units, n - 1)
    requires n <= |units| && Recorded(b, units[n - 1])
    ensures AllRecorded(b, units, n)
  {
    forall i | 0 <= i < n - 1 ensures Recorded(b, units[i]) {
      RecordedStays(a, b, units[i]);
    }
  }

  lemma {:induction false} RunUnitsKeepInv(db: Db, units: seq<Unit>, faults: Faults, n: nat)
    requires Inv(db) && !AnyDirty(db) && n <= |units|
    ensures var r := RunUnits(db, units, faults, n);
            Inv(r.db) && KeepsClean(db, r.db) && (r.ok ==> !AnyDirty(r.db))
  {
    if n > 0 {
      RunUnitsKeepInv(db, units, faults, n - 1);
      var r := RunUnits(db, units, faults, n - 1);
      var u, f := units[n - 1], ForUnit(faults, n - 1);
      if r.ok {
        UnitKeepsInv(r.db, u, f);
        if !ApplyUnit(r.db, u, f).1.UnitFailed? { UnitSucceeds(r.db, u, f); }
        KeepsCleanTransitive(db, r.db, ApplyUnit(r.db, u, f).0);
      }
    }
  }

  /** A run that succeeds has every unit recorded, and each is counted once as applied or as skipped. */
  lemma {:induction false} RunUnitsRecordAll(db: Db, units: seq<Unit>, faults: Faults, n: nat)
    requires Inv(db) && !AnyDirty(db) && n <= |units| && RunUnits(db, units, faults, n).ok
    ensures var r := RunUnits(db, units, faults, n);
            && r.applied + r.skipped == n
            && |r.db.ledger| == |db.ledger| + r.applied
            && AllRecorded(r.db, units, n)
  {
    if n > 0 {
      RunUnitsRecordAll(db, units, faults, n - 1);
      RunUnitsKeepInv(db, units, faults, n - 1);
      var r := RunUnits(db, units, faults, n - 1);
      var u, f := units[n - 1], ForUnit(faults, n - 1);
      UnitKeepsInv(r.db, u, f);
      UnitSucceeds(r.db, u, f);
      AllRecordedStep(r.db, ApplyUnit(r.db, u, f).0, units, n);
    }
  }

  /** One attempt to run a set of units. */
  datatype Attempt = Attempt(units: seq<Unit>, faults: Faults, ready: bool)

  function AfterAttempts(db: Db, attempts: seq<Attempt>): Db
    decreases |attempts|
  {
    if |attempts| == 0 then db
    else AfterAttempts(RunAll(db, attempts[0].units, attempts[0].faults, attempts[0].ready).db, attempts[1..])
  }

  lemma RunKeepsInv(db: Db, units: seq<Unit>, faults: Faults, ready: bool)
    requires Inv(db)
    ensures Inv(RunAll(db, units, faults, ready).db) && KeepsClean(db, RunAll(db, units, faults, ready).db)
  {
    if ready && !AnyDirty(db) { RunUnitsKeepInv(db, units, faults, |units|); }
  }

  /**
   With a fault after any statement and any number of reruns of any units, each script is committed at most
   once, a clean row means it was committed exactly once, a committed script always has a row (dirty until it
   is finished), at most one row is dirty, and clean rows never change.
   */
  lemma {:induction false} AttemptsKeepInv(db: Db, attempts: seq<Attempt>)
    requires Inv(db)
    ensures Inv(AfterAttempts(db, attempts)) && KeepsClean(db, AfterAttempts(db, attempts))
    decreases |attempts|
  {
    if |attempts| > 0 {
      var a := attempts[0];
      var next := RunAll(db, a.units, a.faults, a.ready).db;
      RunKeepsInv(db, a.units, a.faults, a.ready);
      AttemptsKeepInv(next, attempts[1..]);
    }
  }

  /** A committed but unfinished script has a dirty row, and a dirty row blocks every later run without any effect. */
  lemma {:induction false} UnfinishedBlocksForever(db: Db, k: UnitKey, attempts: seq<Attempt>)
    requires Inv(db) && Commits(db, k) > 0 && !(k in db.ledger && !db.ledger[k].dirty)
    ensures k in db.ledger && db.ledger[k].dirty
    ensures AfterAttempts(db, attempts) == db
    decreases |attempts|
  {
    assert EntryInv(db, k);
    if |attempts| > 0 { UnfinishedBlocksForever(db, k, attempts[1..]); }
  }

  ghost predicate NoFaults(faults: Faults) { forall i, s :: faults(i, s).Works? }

  lemma {:induction false} RerunUnits(db: Db, units: seq<Unit>, faults: Faults, n: nat)
    requires n <= |units| && NoFaults(faults) && !AnyDirty(db)
    requires forall i :: 0 <= i < |units| ==> Recorded(db, units[i])
    ensures RunUnits(db, units, faults, n) == RunResult(db, true, 0, n)
  {
    if n > 0 {
      RerunUnits(db, units, faults, n - 1);
      assert Recorded(db, units[n - 1]) && !db.ledger[units[n - 1].key].dirty;
      assert ForUnit(faults, n - 1)(ReadLedger).Works?;
    }
  }

  /** After a successful run, a rerun with the same units succeeds, skips them all and changes nothing. */
  lemma RerunAppliesNothing(db: Db, units: seq<Unit>, faults: Faults, later: Faults)
    requires Inv(db) && NoFaults(later)
    requires RunAll(db, units, faults, true).ok
    ensures var done := RunAll(db, units, faults, true).db;
            && (forall i :: 0 <= i < |units| ==> Recorded(done, units[i]))
            && RunAll(done, units, later, true) == RunResult(done, true, 0, |units|)
  {
    RunUnitsKeepInv(db, units, faults, |units|);
    RunUnitsRecordAll(db, units, faults, |units|);
    RerunUnits(RunAll(db, units, faults, true).db, units, later, |units|);
  }

  // ---------------------------------------------------------------- progress

  predicate DistinctKeys(units: seq<Unit>) { forall i, j :: 0 <= i < j < |units| ==> units[i].key != units[j].key }

  /** The unit is new, or the ledger has it with the same checksum. */
  predicate Applicable(db: Db, u: Unit) { u.key !in db.ledger || db.ledger[u.key].checksum == u.checksum }

  /** How many of the first n units are new. */
  function NewUnits(db: Db, units: seq<Unit>, n: nat): (r: nat)
    requires n <= |units|
    ensures r <= n
  {
    if n == 0 then 0 else NewUnits(db, units, n - 1) + (if units[n - 1].key in db.ledger then 0 else 1)
  }

  /** The ledger and the commits when the new ones of the first n units have been applied. */
  function Upgraded(db: Db, units: seq<Unit>, n: nat): Db
    requires n <= |units|
  {
    if n == 0 then db
    else
      var before, u := Upgraded(db, units, n - 1), units[n - 1];
      if u.key in db.ledger then before
      else Db(before.ledger[u.key := Entry(u.filename, u.checksum, false)], before.commits[u.key := Commits(db, u.key) + 1])
  }

  lemma {:induction false} OthersAsBefore(db: Db, units: seq<Unit>, n: nat, k: UnitKey)
    requires n <= |units| && (k in db.ledger || forall i :: 0 <= i < n ==> units[i].key != k)
    ensures var after := Upgraded(db, units, n);
      && (k in after.ledger <==> k in db.ledger) && (k in db.ledger ==> after.ledger[k] == db.ledger[k])
      && Commits(after, k) == Commits(db, k)
  {
    if n > 0 { OthersAsBefore(db, units, n - 1, k); }
  }

  /** Each new unit has a clean row of its own and one more commit. */
  lemma {:induction false} NewIsRecorded(db: Db, units: seq<Unit>, n: nat, i: nat)
    requires i < n <= |units| && DistinctKeys(units) && units[i].key !in db.ledger
    ensures var after, u := Upgraded(db, units, n), units[i];
      && u.key in after.ledger && after.ledger[u.key] == Entry(u.filename, u.checksum, false)
      && Commits(after, u.key) == Commits(db, u.key) + 1
  {
    if i < n - 1 { NewIsRecorded(db, units, n - 1, i); }
  }

  /** Without faults a unit takes effect exactly as its row in the ledger says. */
  lemma {:induction false} FaultFreeUnit(db: Db, u: Unit, f: Stmt -> Fault)
    requires forall s :: f(s).Works?
    ensures var (next, outcome) := ApplyUnit(db, u, f);
      if u.key !in db.ledger then
        && outcome == UnitApplied
        && next.ledger == db.ledger[u.key := Entry(u.filename, u.checksum, false)]
        && next.commits == db.commits[u.key := Commits(db, u.key) + 1]
      else
        && next == db
        && outcome == if !db.ledger[u.key].dirty && db.ledger[u.key].checksum == u.checksum then UnitSkipped else UnitFailed
  {
  }

  /** The result of a run over the first n units in which all of them go through. */
  function AllApplied(db: Db, units: seq<Unit>, n: nat): RunResult
    requires n <= |units|
  {
    RunResult(Upgraded(db, units, n), true, NewUnits(db, units, n), n - NewUnits(db, units, n))
  }

  lemma {:induction false} FaultFreeStep(db: Db, units: seq<Unit>, n: nat, f: Stmt -> Fault)
    requires n < |units| && !AnyDirty(db) && DistinctKeys(units) && (forall s :: f(s).Works?)
    ensures var r := AllApplied(db, units, n); var next := Tally(r, ApplyUnit(r.db, units[n], f));
      if Applicable(db, units[n]) then next == AllApplied(db, units, n + 1) else !next.ok
  {
    OthersAsBefore(db, units, n, units[n].key);
    FaultFreeUnit(Upgraded(db, units, n), units[n], f);
  }

  lemma {:induction false} RunUnitsStep(db: Db, units: seq<Unit>, faults: Faults, n: nat, r: RunResult)
    requires n < |units| && r == RunUnits(db, units, faults, n) && r.ok
    ensures RunUnits(db, units, faults, n + 1) == Tally(r, ApplyUnit(r.db, units[n], ForUnit(faults, n)))
  {
  }

  lemma {:induction false} FaultFreeUnits(db: Db, units: seq<Unit>, faults: Faults, n: nat)
    requires n <= |units| && NoFaults(faults) && !AnyDirty(db) && DistinctKeys(units)
    requires forall i :: 0 <= i < n ==> Applicable(db, units[i])
    ensures RunUnits(db, units, faults, n) == AllApplied(db, units, n)
  {
    if n > 0 {
      FaultFreeUnits(db, units, faults, n - 1);
      FaultFreeStep(db, units, n - 1, ForUnit(faults, n - 1));
      RunUnitsStep(db, units, faults, n - 1, AllApplied(db, units, n - 1));
    }
  }

  lemma {:induction false} FailedStays(db: Db, units: seq<Unit>, faults: Faults, i: nat, n: nat)
    requires i <= n <= |units| && !RunUnits(db, units, faults, i).ok
    ensures !RunUnits(db, units, faults, n).ok
    decreases n
  {
    if i < n { FailedStays(db, units, faults, i, n - 1); }
  }

  /**
   A run without faults succeeds exactly when no row is dirty and every unit is new or recorded with its checksum; it
   then applies exactly the new units, each committed once and recorded clean, and leaves every other row alone.
   */
  lemma {:induction false} FaultFreeRunIff(db: Db, units: seq<Unit>, faults: Faults)
    requires NoFaults(faults) && DistinctKeys(units)
    ensures var r := RunAll(db, units, faults, true);
      && (r.ok <==> !AnyDirty(db) && forall i :: 0 <= i < |units| ==> Applicable(db, units[i]))
      && (r.ok ==> r.applied == NewUnits(db, units, |units|) && r.skipped == |units| - r.applied)
    ensures RunAll(db, units, faults, true).ok ==> RanUnits(db, RunAll(db, units, faults, true).db, units)
  {
    if !AnyDirty(db) {
      if forall i :: 0 <= i < |units| ==> Applicable(db, units[i]) {
        FaultFreeUnits(db, units, faults, |units|);
        UpgradeMeans(db, units);
      } else {
        RefusedRunFails(db, units, faults);
      }
    }
  }

  lemma {:induction false} RefusedRunFails(db: Db, units: seq<Unit>, faults: Faults)
    requires NoFaults(faults) && DistinctKeys(units) && !AnyDirty(db)
    requires !forall i :: 0 <= i < |units| ==> Applicable(db, units[i])
    ensures !RunUnits(db, units, faults, |units|).ok
  {
    var i := FirstRefused(db, units, 0);
    FaultFreeUnits(db, units, faults, i);
    FaultFreeStep(db, units, i, ForUnit(faults, i));
    RunUnitsStep(db, units, faults, i, AllApplied(db, units, i));
    FailedStays(db, units, faults, i + 1, |units|);
  }

  /** The new units have clean rows and one more commit, everything else is as before. */
  ghost predicate RanUnits(db: Db, after: Db, units: seq<Unit>) {
    && (forall i :: 0 <= i < |units| && units[i].key !in db.ledger ==>
          && units[i].key in after.ledger
          && after.ledger[units[i].key] == Entry(units[i].filename, units[i].checksum, false)
          && Commits(after, units[i].key) == Commits(db, units[i].key) + 1)
    && forall k :: k in db.ledger || (forall i :: 0 <= i < |units| ==> units[i].key != k) ==>
         && (k in after.ledger <==> k in db.ledger) && (k in db.ledger ==> after.ledger[k] == db.ledger[k])
         && Commits(after, k) == Commits(db, k)
  }

  lemma {:induction false} UpgradeMeans(db: Db, units: seq<Unit>)
    requires DistinctKeys(units)
    ensures RanUnits(db, Upgraded(db, units, |units|), units)
  {
    var after := Upgraded(db, units, |units|);
    forall i | 0 <= i < |units| && units[i].key !in db.ledger
      ensures && units[i].key in after.ledger
              && after.ledger[units[i].key] == Entry(units[i].filename, units[i].checksum, false)
              && Commits(after, units[i].key) == Commits(db, units[i].key) + 1
    {
      NewIsRecorded(db, units, |units|, i);
    }
    forall k | k in db.ledger || (forall i :: 0 <= i < |units| ==> units[i].key != k)
      ensures && (k in after.ledger <==> k in db.ledger) && (k in db.ledger ==> after.ledger[k] == db.ledger[k])
              && Commits(after, k) == Commits(db, k)
    {
      OthersAsBefore(db, units, |units|, k);
    }
  }

  lemma {:induction false} FirstRefused(db: Db, units: seq<Unit>, from: nat) returns (i: nat)
    requires from <= |units| && (forall j :: 0 <= j < from ==> Applicable(db, units[j]))
    requires !forall j :: 0 <= j < |units| ==> Applicable(db, units[j])
    ensures i < |units| && !Applicable(db, units[i]) && forall j :: 0 <= j < i ==> Applicable(db, units[j])
    decreases |units| - from
  {
    i := from;
    if Applicable(db, units[from]) { i := FirstRefused(db, units, from + 1); }
  }

  // ---------------------------------------------------------------- the runner

  class MigrationRunner {
    var ledger: map<UnitKey, Entry>
    ghost var commits: map<UnitKey, nat>

    ghost function Abs(): Db
      reads this
    {
      Db(ledger, commits)
    }

    constructor ()
      ensures Abs() == FRESH
    {
      ledger, commits := map[], map[];
    }

    method ApplyMigrationUnit(u: Unit, f: Stmt -> Fault) returns (outcome: UnitOutcome)
      modifies this
      ensures (Abs(), outcome) == ApplyUnit(old(Abs()), u, f)
    {
      if !f(ReadLedger).Works? {
        return UnitFailed;
      }
      if u.key in ledger {
        if ledger[u.key].dirty || ledger[u.key].checksum != u.checksum {
          return UnitFailed;
        }
        return UnitSkipped;
      }
      if !f(MarkDirty).NoEffect? {
        ledger := ledger[u.key := Entry(u.filename, u.checksum, true)];
      }
      if !f(MarkDirty).Works? {
        return UnitFailed;
      }
      if !f(Begin).Works? {
        return UnitFailed;
      }
      if !f(Execute).Works? {
        return UnitFailed;
      }
      if !f(Commit).NoEffect? {
        commits := commits[u.key := (if u.key in commits then commits[u.key] else 0) + 1];
      }
      if !f(Commit).Works? {
        return UnitFailed;
      }
      if !f(ClearDirty).NoEffect? {
        ledger := ledger[u.key := Entry(u.filename, u.checksum, false)];
      }
      if !f(ClearDirty).Works? {
        return UnitFailed;
      }
      return UnitApplied;
    }

    method ApplyMigrations(units: seq<Unit>, faults: Faults, ready: bool)
      returns (ok: bool, applied: nat, skipped: nat)
      modifies this
      ensures RunResult(Abs(), ok, applied, skipped) == RunAll(old(Abs()), units, faults, ready)
    {
      ok, applied, skipped := false, 0, 0;
      if !ready || (exists k :: k in ledger && ledger[k].dirty) {
        return;
      }
      ok := true;
      var i := 0;
      while i < |units|
        invariant 0 <= i <= |units| && ok
        invariant RunResult(Abs(), ok, applied, skipped) == RunUnits(old(Abs()), units, faults, i)
      {
        var outcome := ApplyMigrationUnit(units[i], ForUnit(faults, i));
        i := i + 1;
        if outcome.UnitFailed? {
          RunUnitsStops(old(Abs()), units, faults, i, |units|);
          return false, applied, skipped;
        }
        if outcome.UnitApplied? {
          applied := applied + 1;
        } else {
          skipped := skipped + 1;
        }
      }
    }
  }

  lemma {:induction false} RunUnitsStops(db: Db, units: seq<Unit>, faults: Faults, i: nat, n: nat)
    requires i <= n <= |units| && !RunUnits(db, units, faults, i).ok
    ensures RunUnits(db, units, faults, n) == RunUnits(db, units, faults, i)
    decreases n
  {
    if i < n { RunUnitsStops(db, units, faults, i, n - 1); }
  }
}
