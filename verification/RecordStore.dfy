/** The in-memory record store and its identifier allocator. */
module RecordStore {
  import opened Contracts
  import opened Decimal
  import opened Allocation
  import opened ReadModel

  // ---------------------------------------------------------------- ids and their numbers

  function NewId(prefix: string, width: int, n: Int): string { prefix + Format(width, n) }

  /** The number an existing id contributes to the scan: its suffix after the prefix, if that scans. */
  function Numbered(id: string, prefix: string): Option<Int> {
    if prefix <= id then ScanInt(id[|prefix|..]) else None
  }

  lemma NumberedNewId(prefix: string, width: int, n: Int)
    ensures Numbered(NewId(prefix, width, n), prefix) == Some(n)
  {
    ScanFormat(width, n);
    assert NewId(prefix, width, n)[|prefix|..] == Format(width, n);
  }

  lemma NewIdInjective(prefix: string, v: int, w: int, m: Int, n: Int)
    requires m != n
    ensures NewId(prefix, v, m) != NewId(prefix, w, n)
  {
    NumberedNewId(prefix, v, m);
    NumberedNewId(prefix, w, n);
  }

  function IdsOf(keys: set<Key>, resource: string): set<string> {
    set k | k in keys && k.resource == resource :: k.id
  }

  /** The numbers the ids show after the prefix. */
  function NumbersOf(ids: set<string>, prefix: string): set<Int> {
    set id | id in ids && Numbered(id, prefix).Some? :: Numbered(id, prefix).value
  }

  /** The numbers whose own id exists. */
  function BusyOf(ids: set<string>, prefix: string, width: int): set<Int> {
    set n | n in NumbersOf(ids, prefix) && NewId(prefix, width, n) in ids
  }

  function SeqKey(resource: string, prefix: string): string { resource + "|" + prefix }

  /** What an allocation finds in the store. */
  function RequestFor(keys: set<Key>, resource: string, prefix: string, base: Int, width: int): Request {
    var ids := IdsOf(keys, resource);
    Request(SeqKey(resource, prefix), base, NumbersOf(ids, prefix), BusyOf(ids, prefix, width))
  }

  lemma BusyIff(ids: set<string>, prefix: string, width: int, n: Int)
    ensures n in BusyOf(ids, prefix, width) <==> NewId(prefix, width, n) in ids
  {
    NumberedNewId(prefix, width, n);
    var id := NewId(prefix, width, n);
    if id in ids { assert Numbered(id, prefix).value in NumbersOf(ids, prefix); }
  }

  /** Different numbers have different ids, so there are no more busy numbers than ids. */
  lemma {:induction false} BusyFits(ns: set<Int>, ids: set<string>, prefix: string, width: int)
    requires forall n :: n in ns ==> NewId(prefix, width, n) in ids
    ensures |ns| <= |ids|
    decreases |ns|
  {
    if ns != {} {
      var n :| n in ns;
      var id := NewId(prefix, width, n);
      forall m | m in ns - {n} ensures NewId(prefix, width, m) in ids - {id} {
        NewIdInjective(prefix, width, width, m, n);
      }
      BusyFits(ns - {n}, ids - {id}, prefix, width);
    }
  }

  lemma {:induction false} IdsFit(keys: set<Key>, resource: string)
    ensures |IdsOf(keys, resource)| <= |keys|
    decreases |keys|
  {
    if keys != {} {
      var k :| k in keys;
      IdsFit(keys - {k}, resource);
      var rest := IdsOf(keys - {k}, resource);
      if k.resource == resource {
        assert IdsOf(keys, resource) == rest + {k.id};
      } else {
        assert IdsOf(keys, resource) == rest;
      }
    }
  }

  /** Every request the store makes is well formed, and its busy numbers fit a Go map. */
  lemma {:induction false} RequestFits(keys: set<Key>, resource: string, prefix: string, base: Int, width: int)
    ensures var r := RequestFor(keys, resource, prefix, base, width); r.busy <= r.used && |r.busy| <= |keys|
  {
    var ids := IdsOf(keys, resource);
    BusyFits(BusyOf(ids, prefix, width), ids, prefix, width);
    IdsFit(keys, resource);
  }

  /**
   Over any interleaving with record changes, allocations for one resource and prefix that stay below the largest int
   issue strictly increasing numbers, so no id is issued twice, not even after its record was deleted.
   */
  lemma {:induction false} NeverReissued(
    seqs: map<string, Int>, rs: seq<Request>, prefix: string, v: int, w: int, i: nat, j: nat)
    requires i < j < |rs| && rs[i].key == rs[j].key && AllWellFormed(rs) && BelowMax(seqs, rs, rs[i].key)
    ensures IssuedAt(seqs, rs, i) < IssuedAt(seqs, rs, j)
    ensures NewId(prefix, v, IssuedAt(seqs, rs, i)) != NewId(prefix, w, IssuedAt(seqs, rs, j))
  {
    NumbersRise(seqs, rs, rs[i].key, i, j);
    NewIdInjective(prefix, v, w, IssuedAt(seqs, rs, i), IssuedAt(seqs, rs, j));
  }

  /** One record that carries the largest number makes the allocator issue the same id again and again. */
  lemma {:induction false} LargestIdReissues(
    keys: set<Key>, seqs: map<string, Int>, resource: string, prefix: string, base: Int, width: int, padding: int)
    requires Key(resource, NewId(prefix, padding, MAX_INT)) in keys && |keys| <= MAX_INT
    ensures var r := RequestFor(keys, resource, prefix, base, width);
      Issued(Step(seqs, r), r) == Issued(seqs, r) < 0
  {
    var r := RequestFor(keys, resource, prefix, base, width);
    var ids := IdsOf(keys, resource);
    var id := NewId(prefix, padding, MAX_INT);
    assert Key(resource, id).id in ids;
    BusyIff(ids, prefix, padding, MAX_INT);
    RequestFits(keys, resource, prefix, base, width);
    ReissuedAtOnceIff(seqs, r);
    assert Mark(seqs, r) == MAX_INT;
    WrappedIsNegative(seqs, r);
  }

  // ---------------------------------------------------------------- the store

  function TextOf(data: Fields, field: string): string {
    if field in data && data[field].Str? then data[field].text else ""
  }

  class Store {
    var data: Table
    var seqs: map<string, Int>

    /** The length of a Go map is an int. */
    ghost predicate Valid()
      reads this
    {
      |data| <= MAX_INT
    }

    constructor ()
      ensures Valid() && data == map[] && seqs == map[]
    {
      data, seqs := map[], map[];
    }

    /** Merges the given fields into an existing record. */
    method Update(resource: string, id: string, fields: Fields) returns (ok: bool)
      modifies this`data
      ensures ok == (Key(resource, id) in old(data))
      ensures ok ==> data == ApplyOp(old(data), Upsert(Key(resource, id), fields))
      ensures !ok ==> data == old(data)
    {
      var k := Key(resource, id);
      ok := k in data;
      if ok { data := data[k := data[k] + fields]; }
    }

    /** Creates a record under its own id (or a generated one), unless that id is taken. */
    method Create(resource: string, fields: Fields, generated: string) returns (ok: bool)
      modifies this`data
      ensures var id := if TextOf(fields, "id") == "" then generated else TextOf(fields, "id");
              var k := Key(resource, id);
              && ok == (k !in old(data))
              && (ok ==> data == old(data)[k := fields["id" := Str(id)]])
              && (!ok ==> data == old(data))
    {
      var id := TextOf(fields, "id");
      var record := fields;
      if id == "" {
        id := generated;
        record := record["id" := Str(id)];
      }
      assert record == fields["id" := Str(id)];
      var k := Key(resource, id);
      ok := k !in data;
      if ok { data := data[k := record]; }
    }

    method Delete(resource: string, id: string) returns (ok: bool)
      modifies this`data
      ensures ok == (Key(resource, id) in old(data))
      ensures data == ApplyOp(old(data), Remove(Key(resource, id)))
    {
      var k := Key(resource, id);
      ok := k in data;
      if ok {
        data := data - {k};
      } else {
        assert data - {k} == data;
      }
    }

    /** The largest number among the existing ids and the floor. */
    method ScanMark(resource: string, prefix: string, floor: Int) returns (m: Int)
      ensures IsTop(NumbersOf(IdsOf(data.Keys, resource), prefix), floor, m)
    {
      m := floor;
      var ids := IdsOf(data.Keys, resource);
      var rest := ids;
      while rest != {}
        invariant rest <= ids
        invariant IsTop(NumbersOf(ids - rest, prefix), floor, m)
        decreases |rest|
      {
        var id :| id in rest;
        NumbersGrow(ids - rest, id, prefix);
        assert ids - rest + {id} == ids - (rest - {id});
        rest := rest - {id};
        var n := Numbered(id, prefix);
        if n.Some? && n.value > m {
          m := n.value;
        }
      }
      assert ids - rest == ids;
    }

    /** The search loop: candidates from m + 1 on, until one is not in use. */
    method Search(resource: string, prefix: string, width: int, m: Int, ghost busy: set<Int>)
      returns (id: string, n: Int)
      requires Describes(busy, data, resource, prefix, width) && |busy| <= MAX_INT
      ensures Key(resource, id) !in data
      ensures id == NewId(prefix, width, n) && n == Tried(m, FreePass(busy, m, 0))
    {
      n := Wrap(m + 1);
      id := NewId(prefix, width, n);
      ghost var k: nat := 0;
      while Key(resource, id) in data
        invariant n == Tried(m, k) && id == NewId(prefix, width, n)
        invariant k <= |busy| && AllBusy(busy, m, k)
        invariant FreePass(busy, m, 0) == FreePass(busy, m, k)
        decreases |busy| - k
      {
        assert n in busy;
        assert AllBusy(busy, m, k + 1);
        PassesFit(busy, m, k + 1);
        NextTried(m, k);
        k := k + 1;
        n := Wrap(n + 1);
        id := NewId(prefix, width, n);
      }
      assert n !in busy;
    }

    /**
     Returns an id not in use and records its number: the first free one after the high-water mark. The search ends,
     because the store holds fewer records than there are ints.
     */
    method NextID(resource: string, prefix: string, base: Int, width: int) returns (id: string)
      requires Valid()
      modifies this`seqs
      ensures Valid()
      ensures Key(resource, id) !in data
      ensures var r := RequestFor(data.Keys, resource, prefix, base, width);
              seqs == Step(old(seqs), r) && id == NewId(prefix, width, Issued(old(seqs), r))
    {
      ghost var r := RequestFor(data.Keys, resource, prefix, base, width);
      RequestFits(data.Keys, resource, prefix, base, width);
      BusyDescribes(data, resource, prefix, width);
      id := Reserve(resource, prefix, base, width, r);
    }

    /** The allocation for a request that describes the store. */
    method Reserve(resource: string, prefix: string, base: Int, width: int, ghost r: Request) returns (id: string)
      requires r.key == SeqKey(resource, prefix) && r.base == base
      requires r.used == NumbersOf(IdsOf(data.Keys, resource), prefix)
      requires Describes(r.busy, data, resource, prefix, width) && |r.busy| <= MAX_INT
      modifies this`seqs
      ensures Key(resource, id) !in data
      ensures seqs == Step(old(seqs), r) && id == NewId(prefix, width, Issued(old(seqs), r))
    {
      var key := SeqKey(resource, prefix);
      var m := ScanMark(resource, prefix, Larger(Wrap(base - 1), Cached(seqs, key)));
      var n;
      id, n := Search(resource, prefix, width, m, r.busy);
      IssuedIs(seqs, r, m, n);
      seqs := seqs[key := n];
    }
  }

  lemma NumbersGrow(ids: set<string>, id: string, prefix: string)
    ensures NumbersOf(ids + {id}, prefix) ==
      NumbersOf(ids, prefix) + match Numbered(id, prefix) { case Some(n) => {n} case None => {} }
  {
  }

  /** The busy numbers are those whose id is in the store. */
  ghost predicate Describes(busy: set<Int>, data: Table, resource: string, prefix: string, width: int) {
    forall n: Int :: n in busy <==> Key(resource, NewId(prefix, width, n)) in data
  }

  lemma BusyDescribes(data: Table, resource: string, prefix: string, width: int)
    ensures Describes(BusyOf(IdsOf(data.Keys, resource), prefix, width), data, resource, prefix, width)
  {
    var ids := IdsOf(data.Keys, resource);
    forall n: Int ensures n in BusyOf(ids, prefix, width) <==> Key(resource, NewId(prefix, width, n)) in data {
      var id := NewId(prefix, width, n);
      BusyIff(ids, prefix, width, n);
      if Key(resource, id) in data { assert Key(resource, id).id in ids; }
    }
  }
}
