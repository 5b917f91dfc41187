/**
 The numbers an identifier allocator issues. A request carries what the store holds at that moment, so a sequence of
 requests stands for allocations interleaved with any creates and deletes.
 */
module Allocation {
  import opened Decimal

  /** `used` are the numbers that existing ids show after the prefix, `busy` those whose own id exists. */
  datatype Request = Request(key: string, base: Int, used: set<Int>, busy: set<Int>)

  function Cached(seqs: map<string, Int>, key: string): Int { if key in seqs then seqs[key] else 0 }

  function Larger(a: Int, b: Int): Int { if a < b then b else a }

  // ---------------------------------------------------------------- one allocation

  /** m is the larger of the floor and all used numbers. */
  ghost predicate IsTop(used: set<Int>, floor: Int, m: Int) {
    floor <= m && (forall n :: n in used ==> n <= m) && (m == floor || m in used)
  }

  lemma {:induction false} TopExists(used: set<Int>, floor: Int) returns (m: Int)
    ensures IsTop(used, floor, m)
    decreases |used|
  {
    m := floor;
    if used != {} {
      var n :| n in used;
      var rest := TopExists(used - {n}, floor);
      m := Larger(rest, n);
      assert forall x :: x in used ==> x == n || x in used - {n};
    }
  }

  ghost function Top(used: set<Int>, floor: Int): (m: Int)
    ensures IsTop(used, floor, m)
  {
    assert exists m: Int :: IsTop(used, floor, m) by {
      var m := TopExists(used, floor);
    }
    var m: Int :| IsTop(used, floor, m);
    m
  }

  function Floor(seqs: map<string, Int>, r: Request): Int { Larger(Wrap(r.base - 1), Cached(seqs, r.key)) }

  /** The high-water mark: the base, the retained mark and everything in use. */
  ghost function Mark(seqs: map<string, Int>, r: Request): Int { Top(r.used, Floor(seqs, r)) }

  /** The number tried on pass k of the search loop. */
  function Tried(m: int, k: nat): Int { Wrap(m + 1 + k) }

  /** The first pass of the search loop from k on whose number is free. */
  function FreePass(busy: set<Int>, m: int, k: nat): (p: nat)
    requires k <= |busy|
    ensures k <= p <= |busy|
    decreases |busy| - k
  {
    if k < |busy| && Tried(m, k) in busy then FreePass(busy, m, k + 1) else k
  }

  /** The number issued: the first free one after the mark, wrapping around. */
  ghost function Issued(seqs: map<string, Int>, r: Request): Int {
    var m := Mark(seqs, r);
    Tried(m, FreePass(r.busy, m, 0))
  }

  ghost function Step(seqs: map<string, Int>, r: Request): map<string, Int> { seqs[r.key := Issued(seqs, r)] }

  ghost function After(seqs: map<string, Int>, rs: seq<Request>): map<string, Int> {
    if |rs| == 0 then seqs else Step(After(seqs, rs[..|rs| - 1]), rs[|rs| - 1])
  }

  /** Below the largest int the search loop exits on its first pass. */
  lemma FirstPassBelowMax(seqs: map<string, Int>, r: Request)
    requires r.busy <= r.used && Mark(seqs, r) < MAX_INT
    ensures Issued(seqs, r) == Mark(seqs, r) + 1
  {
    var m := Mark(seqs, r);
    assert Tried(m, 0) == m + 1;
    assert m + 1 !in r.used;
  }

  /** An issued number is above the mark exactly below the largest int. */
  lemma IssuedAboveMarkIff(seqs: map<string, Int>, r: Request)
    requires r.busy <= r.used
    ensures Issued(seqs, r) > Mark(seqs, r) <==> Mark(seqs, r) < MAX_INT
  {
    var m, n := Mark(seqs, r), Issued(seqs, r);
    assert InRange(m) && InRange(n);
    if m < MAX_INT {
      FirstPassBelowMax(seqs, r);
    }
  }

  /** The base is the first number of a fresh resource and prefix. */
  lemma {:induction false} FirstNumberIsBase(seqs: map<string, Int>, r: Request)
    requires r.key !in seqs && r.base >= 1 && r.busy <= r.used && forall n :: n in r.used ==> n < r.base
    ensures Issued(seqs, r) == r.base
  {
    assert Floor(seqs, r) == r.base - 1;
    assert Mark(seqs, r) == r.base - 1;
    FirstPassBelowMax(seqs, r);
  }

  // ---------------------------------------------------------------- allocations over whole runs

  ghost predicate AllWellFormed(rs: seq<Request>) { forall i :: 0 <= i < |rs| ==> rs[i].busy <= rs[i].used }

  ghost function MarkAt(seqs: map<string, Int>, rs: seq<Request>, i: nat): Int
    requires i < |rs|
  {
    Mark(After(seqs, rs[..i]), rs[i])
  }

  ghost function IssuedAt(seqs: map<string, Int>, rs: seq<Request>, i: nat): Int
    requires i < |rs|
  {
    Issued(After(seqs, rs[..i]), rs[i])
  }

  /** No allocation for the key starts at the largest int. */
  ghost predicate BelowMax(seqs: map<string, Int>, rs: seq<Request>, key: string) {
    forall i :: 0 <= i < |rs| && rs[i].key == key ==> MarkAt(seqs, rs, i) < MAX_INT
  }

  /** All allocations for the key issue rising numbers. */
  ghost predicate Rising(seqs: map<string, Int>, rs: seq<Request>, key: string) {
    forall i, j :: 0 <= i < j < |rs| && rs[i].key == key && rs[j].key == key ==>
      IssuedAt(seqs, rs, i) < IssuedAt(seqs, rs, j)
  }

  lemma {:induction false} StepRises(seqs: map<string, Int>, r: Request, key: string)
    requires r.busy <= r.used && (r.key == key ==> Mark(seqs, r) < MAX_INT)
    ensures Cached(seqs, key) <= Cached(Step(seqs, r), key)
    ensures r.key == key ==> Cached(seqs, key) < Issued(seqs, r) == Cached(Step(seqs, r), key)
  {
    if r.key == key { FirstPassBelowMax(seqs, r); }
  }

  lemma {:induction false} AfterStep(seqs: map<string, Int>, rs: seq<Request>, i: nat)
    requires i < |rs|
    ensures After(seqs, rs[..i + 1]) == Step(After(seqs, rs[..i]), rs[i])
  {
    assert rs[..i + 1][..i] == rs[..i];
  }

  ghost function CachedAt(seqs: map<string, Int>, rs: seq<Request>, i: nat, key: string): int
    requires i <= |rs|
  {
    Cached(After(seqs, rs[..i]), key)
  }

  lemma {:induction false} CachedStep(seqs: map<string, Int>, rs: seq<Request>, i: nat, key: string)
    requires i < |rs| && AllWellFormed(rs) && BelowMax(seqs, rs, key)
    ensures CachedAt(seqs, rs, i, key) <= CachedAt(seqs, rs, i + 1, key)
    ensures rs[i].key == key ==> CachedAt(seqs, rs, i, key) < IssuedAt(seqs, rs, i) == CachedAt(seqs, rs, i + 1, key)
  {
    AfterStep(seqs, rs, i);
    assert rs[i].key == key ==> MarkAt(seqs, rs, i) < MAX_INT;
    StepRises(After(seqs, rs[..i]), rs[i], key);
  }

  /** The retained mark of a key only rises. */
  lemma {:induction false} CachedRises(seqs: map<string, Int>, rs: seq<Request>, i: nat, j: nat, key: string)
    requires i <= j <= |rs| && AllWellFormed(rs) && BelowMax(seqs, rs, key)
    ensures CachedAt(seqs, rs, i, key) <= CachedAt(seqs, rs, j, key)
    decreases j
  {
    if i < j {
      var n: nat := j - 1;
      CachedRises(seqs, rs, i, n, key);
      CachedStep(seqs, rs, n, key);
    }
  }

  /** Below the largest int the numbers of a key strictly rise, so none is issued twice, not even after a deletion. */
  lemma {:induction false} NumbersRise(seqs: map<string, Int>, rs: seq<Request>, key: string, i: nat, j: nat)
    requires i < j < |rs| && rs[i].key == rs[j].key == key && AllWellFormed(rs) && BelowMax(seqs, rs, key)
    ensures IssuedAt(seqs, rs, i) < IssuedAt(seqs, rs, j)
  {
    CachedStep(seqs, rs, i, key);
    CachedRises(seqs, rs, i + 1, j, key);
    CachedStep(seqs, rs, j, key);
  }

  // ---------------------------------------------------------------- at the largest int

  lemma WrapAtMax(n: int, k: nat)
    requires k <= MAX_INT && n == MAX_INT + 1 + k
    ensures Wrap(n) == MIN_INT + k
  {
  }

  /** At the largest int the number wraps around; a Go map cannot hold enough ids to reach zero again. */
  lemma {:induction false} WrappedIsNegative(seqs: map<string, Int>, r: Request)
    requires |r.busy| <= MAX_INT && Mark(seqs, r) == MAX_INT
    ensures Issued(seqs, r) == MIN_INT + FreePass(r.busy, MAX_INT, 0) < 0
  {
    var k := FreePass(r.busy, MAX_INT, 0);
    WrapAtMax(MAX_INT + 1 + k, k);
  }

  /** With a positive base an issued number is positive exactly below the largest int. */
  lemma {:induction false} SignTellsWrap(seqs: map<string, Int>, r: Request)
    requires r.busy <= r.used && |r.busy| <= MAX_INT && r.base >= 1
    ensures if Mark(seqs, r) < MAX_INT then Issued(seqs, r) > 0 else Issued(seqs, r) < 0
  {
    if Mark(seqs, r) < MAX_INT {
      FirstPassBelowMax(seqs, r);
    } else {
      WrappedIsNegative(seqs, r);
    }
  }

  /**
   The condition is exact: once a key has issued an ordinary number, its numbers keep rising exactly as long as no
   allocation starts at the largest int.
   */
  lemma {:induction false} RisesIff(seqs: map<string, Int>, rs: seq<Request>, key: string, first: nat)
    requires AllWellFormed(rs) && first < |rs| && rs[first].key == key && MarkAt(seqs, rs, first) < MAX_INT
    requires forall i :: 0 <= i < first ==> rs[i].key != key
    requires forall i :: 0 <= i < |rs| && rs[i].key == key ==> rs[i].base >= 1 && |rs[i].busy| <= MAX_INT
    ensures Rising(seqs, rs, key) <==> BelowMax(seqs, rs, key)
  {
    if BelowMax(seqs, rs, key) {
      forall i, j | 0 <= i < j < |rs| && rs[i].key == key && rs[j].key == key
        ensures IssuedAt(seqs, rs, i) < IssuedAt(seqs, rs, j)
      {
        NumbersRise(seqs, rs, key, i, j);
      }
    } else {
      var j :| 0 <= j < |rs| && rs[j].key == key && MarkAt(seqs, rs, j) >= MAX_INT;
      SignTellsWrap(After(seqs, rs[..j]), rs[j]);
      SignTellsWrap(After(seqs, rs[..first]), rs[first]);
      assert IssuedAt(seqs, rs, j) < 0 < IssuedAt(seqs, rs, first);
    }
  }

  /** What keeps the mark at the largest int, whatever is retained. */
  predicate LargestInUse(r: Request) { Wrap(r.base - 1) == MAX_INT || MAX_INT in r.used }

  /** The same request repeated issues the same number again exactly when the largest number is in use. */
  lemma {:induction false} ReissuedAtOnceIff(seqs: map<string, Int>, r: Request)
    requires r.busy <= r.used && |r.busy| <= MAX_INT
    ensures Issued(Step(seqs, r), r) == Issued(seqs, r) <==> LargestInUse(r)
  {
    var next := Step(seqs, r);
    if !LargestInUse(r) {
      if Mark(seqs, r) == MAX_INT { WrappedIsNegative(seqs, r); }
      if Mark(next, r) == MAX_INT {
        WrappedIsNegative(next, r);
      } else {
        FirstPassBelowMax(next, r);
      }
    }
  }

  /** When only the retained mark was at the largest int, numbering starts over at what is in use. */
  lemma {:induction false} StartsOver(seqs: map<string, Int>, r: Request)
    requires r.busy <= r.used && |r.busy| <= MAX_INT && r.base >= 1
    requires !LargestInUse(r) && Cached(seqs, r.key) == MAX_INT
    ensures Issued(Step(seqs, r), r) == Top(r.used, r.base - 1) + 1
  {
    WrappedIsNegative(seqs, r);
    FirstPassBelowMax(Step(seqs, r), r);
  }

  // ---------------------------------------------------------------- the search loop ends

  /** The first k passes all hit numbers in use. */
  ghost predicate AllBusy(busy: set<Int>, m: int, k: nat) {
    forall j: nat :: j < k ==> Tried(m, j) in busy
  }

  lemma {:induction false} NextTried(m: int, k: nat)
    ensures Wrap(Tried(m, k) + 1) == Tried(m, k + 1)
  {
    WrapIsModulo(m + 1 + k);
    WrapIsModulo(m + 1 + (k + 1));
    WrapIsModulo(Tried(m, k) + 1);
  }

  lemma WrapDistinct(a: int, b: int)
    requires a < b < a + INT_COUNT
    ensures Wrap(a) != Wrap(b)
  {
    WrapIsModulo(a);
    WrapIsModulo(b);
  }

  /** Different passes try different numbers, so there are at most |busy| failing passes. */
  lemma {:induction false} PassesFit(busy: set<Int>, m: int, k: nat)
    requires k <= MAX_INT + 1 && AllBusy(busy, m, k)
    ensures k <= |busy|
    decreases k
  {
    if k > 0 {
      var last := Tried(m, k - 1);
      forall j: nat | j < k - 1 ensures Tried(m, j) in busy - {last} {
        WrapDistinct(m + 1 + j, m + 1 + (k - 1));
      }
      PassesFit(busy - {last}, m, k - 1);
    }
  }

  /** What the scan and the search compute is the specified number. */
  lemma {:induction false} IssuedIs(seqs: map<string, Int>, r: Request, m: Int, n: Int)
    requires IsTop(r.used, Floor(seqs, r), m) && n == Tried(m, FreePass(r.busy, m, 0))
    ensures n == Issued(seqs, r) && Step(seqs, r) == seqs[r.key := n]
  {
    assert m == Mark(seqs, r);
  }
}
