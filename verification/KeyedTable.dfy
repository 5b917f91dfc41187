/** An ordered table with one entry per key, filled by offers of which some may override the entry in place. */
module KeyedTable {
  import opened Contracts

  datatype Table<T> = Table(entries: seq<T>, keys: set<string>)

  /** Puts x in place of the first entry with the key, or at the end. */
  function Replace<T>(s: seq<T>, k: string, x: T, key: T -> string): seq<T> {
    if |s| == 0 then [x]
    else if key(s[0]) == k then [x] + s[1..]
    else [s[0]] + Replace(s[1..], k, x, key)
  }

  function OfferOne<T>(t: Table<T>, x: T, key: T -> string, overriding: T -> bool): Table<T> {
    if key(x) in t.keys then
      if overriding(x) then t.(entries := Replace(t.entries, key(x), x, key)) else t
    else Table(t.entries + [x], t.keys + {key(x)})
  }

  function OfferAll<T>(offers: seq<T>, key: T -> string, overriding: T -> bool): Table<T> {
    if |offers| == 0 then Table([], {})
    else OfferOne(OfferAll(offers[..|offers| - 1], key, overriding), offers[|offers| - 1], key, overriding)
  }

  /** The keys, in order of first offer. */
  function Order<T>(offers: seq<T>, key: T -> string): seq<string> {
    if |offers| == 0 then []
    else
      var before, k := Order(offers[..|offers| - 1], key), key(offers[|offers| - 1]);
      if k in before then before else before + [k]
  }

  /** Who holds a key: the first one offered for it, or the latest one that overrides. */
  function Winner<T>(offers: seq<T>, k: string, key: T -> string, overriding: T -> bool): Option<T> {
    if |offers| == 0 then None
    else
      var before, x := Winner(offers[..|offers| - 1], k, key, overriding), offers[|offers| - 1];
      if key(x) == k && (before.None? || overriding(x)) then Some(x) else before
  }

  /** One entry for each key ever offered, in order of first offer, held by the key's winner. */
  ghost predicate Holds<T(!new)>(t: Table<T>, offers: seq<T>, key: T -> string, overriding: T -> bool) {
    && |t.entries| == |Order(offers, key)|
    && (forall i :: 0 <= i < |t.entries| ==> key(t.entries[i]) == Order(offers, key)[i])
    && (forall i :: 0 <= i < |t.entries| ==> Winner(offers, Order(offers, key)[i], key, overriding) == Some(t.entries[i]))
    && forall k :: k in t.keys <==> k in Order(offers, key)
  }

  lemma {:induction false} OrderIsFirstOffers<T>(offers: seq<T>, key: T -> string, overriding: T -> bool)
    ensures forall i, j :: 0 <= i < j < |Order(offers, key)| ==> Order(offers, key)[i] != Order(offers, key)[j]
    ensures forall k :: k in Order(offers, key) <==> Winner(offers, k, key, overriding).Some?
  {
    if |offers| > 0 {
      OrderIsFirstOffers(offers[..|offers| - 1], key, overriding);
    }
  }

  lemma {:induction false} ReplaceAt<T>(s: seq<T>, k: string, x: T, key: T -> string, i: nat)
    requires i <= |s| && (i < |s| ==> key(s[i]) == k)
    requires forall j :: 0 <= j < i ==> key(s[j]) != k
    ensures Replace(s, k, x, key) == if i < |s| then s[i := x] else s + [x]
  {
    if i > 0 {
      ReplaceAt(s[1..], k, x, key, i - 1);
    }
  }

  lemma {:induction false} OrderAppend<T>(offers: seq<T>, x: T, key: T -> string)
    ensures Order(offers + [x], key) ==
      if key(x) in Order(offers, key) then Order(offers, key) else Order(offers, key) + [key(x)]
  {
    assert (offers + [x])[..|offers|] == offers;
  }

  lemma {:induction false} WinnerAppend<T>(offers: seq<T>, x: T, k: string, key: T -> string, overriding: T -> bool)
    ensures var before := Winner(offers, k, key, overriding);
      Winner(offers + [x], k, key, overriding) ==
        if key(x) == k && (before.None? || overriding(x)) then Some(x) else before
  {
    assert (offers + [x])[..|offers|] == offers;
  }

  /** A first offer for a key is appended. */
  lemma {:induction false} FirstOfferKeeps<T(!new)>(
    t: Table<T>, offers: seq<T>, x: T, key: T -> string, overriding: T -> bool)
    requires Holds(t, offers, key, overriding) && key(x) !in t.keys
    ensures Holds(Table(t.entries + [x], t.keys + {key(x)}), offers + [x], key, overriding)
  {
    var order := Order(offers, key);
    OrderIsFirstOffers(offers, key, overriding);
    OrderAppend(offers, x, key);
    forall i | 0 <= i < |order| ensures order[i] != key(x) { assert order[i] in order; }
    forall k ensures var before := Winner(offers, k, key, overriding);
      Winner(offers + [x], k, key, overriding) ==
        if key(x) == k && (before.None? || overriding(x)) then Some(x) else before
    {
      WinnerAppend(offers, x, k, key, overriding);
    }
  }

  /** A further offer replaces the entry if it overrides, and changes nothing otherwise. */
  lemma {:induction false} FurtherOfferKeeps<T(!new)>(
    t: Table<T>, offers: seq<T>, x: T, key: T -> string, overriding: T -> bool, i: nat)
    requires Holds(t, offers, key, overriding) && i < |t.entries| && Order(offers, key)[i] == key(x)
    ensures Holds(if overriding(x) then t.(entries := t.entries[i := x]) else t, offers + [x], key, overriding)
  {
    OrderIsFirstOffers(offers, key, overriding);
    OrderAppend(offers, x, key);
    forall k ensures var before := Winner(offers, k, key, overriding);
      Winner(offers + [x], k, key, overriding) ==
        if key(x) == k && (before.None? || overriding(x)) then Some(x) else before
    {
      WinnerAppend(offers, x, k, key, overriding);
    }
  }

  lemma {:induction false} OfferKeeps<T(!new)>(t: Table<T>, offers: seq<T>, x: T, key: T -> string, overriding: T -> bool)
    requires Holds(t, offers, key, overriding)
    ensures Holds(OfferOne(t, x, key, overriding), offers + [x], key, overriding)
  {
    if key(x) !in t.keys {
      FirstOfferKeeps(t, offers, x, key, overriding);
    } else {
      var i :| 0 <= i < |Order(offers, key)| && Order(offers, key)[i] == key(x);
      OrderIsFirstOffers(offers, key, overriding);
      ReplaceAt(t.entries, key(x), x, key, i);
      FurtherOfferKeeps(t, offers, x, key, overriding, i);
    }
  }

  /** Over any sequence of offers the table is exactly determined by them. */
  lemma {:induction false} OffersHold<T(!new)>(offers: seq<T>, key: T -> string, overriding: T -> bool)
    ensures Holds(OfferAll(offers, key, overriding), offers, key, overriding)
  {
    if |offers| > 0 {
      var n := |offers| - 1;
      OffersHold(offers[..n], key, overriding);
      OfferKeeps(OfferAll(offers[..n], key, overriding), offers[..n], offers[n], key, overriding);
      assert offers[..n] + [offers[n]] == offers;
    }
  }

  predicate DistinctKeys<T>(s: seq<T>, key: T -> string) {
    forall i, j :: 0 <= i < j < |s| ==> key(s[i]) != key(s[j])
  }

  /** Entries have pairwise distinct keys, and the key set is exactly theirs. */
  lemma KeysAreExact<T(!new)>(offers: seq<T>, key: T -> string, overriding: T -> bool)
    ensures var t := OfferAll(offers, key, overriding);
      DistinctKeys(t.entries, key) && forall k :: k in t.keys <==> exists i :: 0 <= i < |t.entries| && key(t.entries[i]) == k
  {
    var t, order := OfferAll(offers, key, overriding), Order(offers, key);
    OffersHold(offers, key, overriding);
    OrderIsFirstOffers(offers, key, overriding);
    forall k ensures k in order <==> exists i :: 0 <= i < |t.entries| && key(t.entries[i]) == k {
      if k in order {
        var i :| 0 <= i < |order| && order[i] == k;
        assert key(t.entries[i]) == k;
      }
    }
  }

  lemma {:induction false} OfferAnother<T>(offers: seq<T>, x: T, key: T -> string, overriding: T -> bool)
    ensures OfferAll(offers + [x], key, overriding) == OfferOne(OfferAll(offers, key, overriding), x, key, overriding)
  {
    assert (offers + [x])[..|offers|] == offers;
  }
}
