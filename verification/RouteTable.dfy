/** The application's route table: registration with overrides, the bucket index, and best-match dispatch. */
module RouteTable {
  import opened Contracts
  import opened Paths
  import opened Routing
  import opened Choice

  datatype Route = Route(verb: string, pattern: string, overriding: bool, overrideReason: string, resource: string)

  type Index = map<string, seq<Route>>

  // ---------------------------------------------------------------- the index

  function IndexKey(verb: string, bucket: string): string { verb + ['\0'] + bucket }

  function KeyOf(r: Route): string { IndexKey(r.verb, Bucket(r.pattern)) }

  function HasKey(key: string): Route -> bool { (r: Route) => KeyOf(r) == key }

  function Entry(ix: Index, key: string): seq<Route> { if key in ix then ix[key] else [] }

  /** A fresh rebuild of the index. */
  function Rebuild(rs: seq<Route>): Index {
    if |rs| == 0 then map[]
    else
      var before, r := Rebuild(rs[..|rs| - 1]), rs[|rs| - 1];
      before[KeyOf(r) := Entry(before, KeyOf(r)) + [r]]
  }

  lemma {:induction false} RebuildStep(rs: seq<Route>, i: nat)
    requires i < |rs|
    ensures var before := Rebuild(rs[..i]);
      Rebuild(rs[..i + 1]) == before[KeyOf(rs[i]) := Entry(before, KeyOf(rs[i])) + [rs[i]]]
  {
    assert rs[..i + 1][..i] == rs[..i];
  }

  /** An index entry holds the routes with its key, in table order. */
  lemma {:induction false} RebuildFiles(rs: seq<Route>, key: string)
    ensures Entry(Rebuild(rs), key) == Filtered(rs, HasKey(key))
  {
    if |rs| > 0 {
      RebuildFiles(rs[..|rs| - 1], key);
    }
  }

  /** routeCandidates: the path's own bucket, then the wildcard bucket. */
  function Candidates(ix: Index, verb: string, path: string): seq<Route> {
    Entry(ix, IndexKey(verb, Bucket(path)))
    + if Bucket(path) != WILDCARD then Entry(ix, IndexKey(verb, WILDCARD)) else []
  }

  // ---------------------------------------------------------------- dispatch

  predicate Answers(r: Route, verb: string, path: string) { r.verb == verb && MatchesPath(r.pattern, path) }

  function AnswersTo(verb: string, path: string): Route -> bool { (r: Route) => Answers(r, verb, path) }

  function SpecificityOf(): Route -> int { (r: Route) => Specificity(r.pattern) }

  predicate InOwnBucket(r: Route, path: string) { Bucket(r.pattern) == Bucket(path) }

  /** The route dispatch picks. */
  function Dispatch(rs: seq<Route>, verb: string, path: string): Option<Route> {
    BestOf(Candidates(Rebuild(rs), verb, path), AnswersTo(verb, path), SpecificityOf(), None)
  }

  /** The routes scanned second. */
  function InWildcard(verb: string, path: string): Route -> bool {
    (r: Route) => Bucket(path) != WILDCARD && KeyOf(r) == IndexKey(verb, WILDCARD)
  }

  lemma {:induction false} SameFilter(rs: seq<Route>, p: Route -> bool, q: Route -> bool)
    requires forall r :: p(r) == q(r)
    ensures Filtered(rs, p) == Filtered(rs, q)
  {
    if |rs| > 0 {
      SameFilter(rs[..|rs| - 1], p, q);
    }
  }

  lemma CandidatesAreFiltered(rs: seq<Route>, verb: string, path: string)
    ensures Candidates(Rebuild(rs), verb, path) ==
      Filtered(rs, HasKey(IndexKey(verb, Bucket(path)))) + Filtered(rs, InWildcard(verb, path))
  {
    RebuildFiles(rs, IndexKey(verb, Bucket(path)));
    RebuildFiles(rs, IndexKey(verb, WILDCARD));
    if Bucket(path) == WILDCARD {
      FilteredNone(rs, InWildcard(verb, path));
    } else {
      SameFilter(rs, InWildcard(verb, path), HasKey(IndexKey(verb, WILDCARD)));
    }
  }

  lemma {:induction false} KeyTellsBucket(verb: string, a: string, b: string)
    ensures IndexKey(verb, a) == IndexKey(verb, b) <==> a == b
  {
    assert IndexKey(verb, a)[|verb| + 1..] == a;
    assert IndexKey(verb, b)[|verb| + 1..] == b;
  }

  /** The route is one the index shows for the request. */
  predicate Shown(r: Route, verb: string, path: string) { Answers(r, verb, path) && Offered(r.pattern, path) }

  function ShownTo(verb: string, path: string): Route -> bool { (r: Route) => Shown(r, verb, path) }

  /** Route i has the greatest specificity among some routes; ties go to the path's own bucket, then to the earlier. */
  predicate BestAmong(rs: seq<Route>, among: Route -> bool, path: string, i: nat) {
    && i < |rs| && among(rs[i])
    && forall j :: 0 <= j < |rs| && among(rs[j]) ==>
         || Specificity(rs[j].pattern) < Specificity(rs[i].pattern)
         || ( && Specificity(rs[j].pattern) == Specificity(rs[i].pattern)
              && if InOwnBucket(rs[i], path) then InOwnBucket(rs[j], path) ==> i <= j
                 else !InOwnBucket(rs[j], path) && i <= j)
  }

  lemma ShownIff(r: Route, verb: string, path: string)
    requires Answers(r, verb, path)
    ensures Shown(r, verb, path) <==> KeyOf(r) == IndexKey(verb, Bucket(path)) || InWildcard(verb, path)(r)
    ensures InOwnBucket(r, path) <==> KeyOf(r) == IndexKey(verb, Bucket(path))
  {
    KeyTellsBucket(verb, Bucket(r.pattern), Bucket(path));
    KeyTellsBucket(verb, Bucket(r.pattern), WILDCARD);
  }

  /** Dispatch through the index, for every table: it finds the best of the routes the index shows, if there is one. */
  lemma DispatchAmongShown(rs: seq<Route>, verb: string, path: string)
    ensures match Dispatch(rs, verb, path)
      case None => forall j :: 0 <= j < |rs| ==> !Shown(rs[j], verb, path)
      case Some(r) => exists i: nat :: BestAmong(rs, ShownTo(verb, path), path, i) && rs[i] == r
  {
    var own, wild := HasKey(IndexKey(verb, Bucket(path))), InWildcard(verb, path);
    CandidatesAreFiltered(rs, verb, path);
    TwoPasses(rs, own, wild, AnswersTo(verb, path), SpecificityOf());
    forall j | 0 <= j < |rs| && Answers(rs[j], verb, path)
      ensures Shown(rs[j], verb, path) <==> own(rs[j]) || wild(rs[j])
      ensures InOwnBucket(rs[j], path) <==> own(rs[j])
    {
      ShownIff(rs[j], verb, path);
    }
    var d := Dispatch(rs, verb, path);
    if d.Some? {
      var i: nat :| Wins(rs, own, wild, AnswersTo(verb, path), SpecificityOf(), i) && rs[i] == d.value;
      assert BestAmong(rs, ShownTo(verb, path), path, i);
    }
  }

  predicate AllIndexable(rs: seq<Route>) { forall i :: 0 <= i < |rs| ==> Indexable(Parts(rs[i].pattern)) }

  /** Dispatch agrees with a full scan: it finds a route iff some registered route answers, and then a best one. */
  lemma DispatchIsFullScan(rs: seq<Route>, verb: string, path: string)
    requires AllIndexable(rs)
    ensures match Dispatch(rs, verb, path)
      case None => forall j :: 0 <= j < |rs| ==> !Answers(rs[j], verb, path)
      case Some(r) => exists i: nat :: BestAmong(rs, AnswersTo(verb, path), path, i) && rs[i] == r
  {
    DispatchAmongShown(rs, verb, path);
    forall j | 0 <= j < |rs| ensures Shown(rs[j], verb, path) <==> Answers(rs[j], verb, path) {
      IndexAgreesIff(rs[j].pattern);
    }
    var d := Dispatch(rs, verb, path);
    if d.Some? {
      var i: nat :| BestAmong(rs, ShownTo(verb, path), path, i) && rs[i] == d.value;
      assert BestAmong(rs, AnswersTo(verb, path), path, i);
    }
  }

  /**
   A route that spells the path out wins over every route with a parameter: if one is registered for the method, the
   dispatched route spells the path out too, at most with an empty catch-all behind it.
   */
  lemma {:induction false} LiteralRouteWins(rs: seq<Route>, verb: string, path: string, i: nat)
    requires AllIndexable(rs) && i < |rs| && rs[i].verb == verb && Parts(rs[i].pattern) == Parts(path)
    requires forall j :: 0 <= j < |rs| ==> Shaped(Parts(rs[j].pattern))
    requires forall k :: 0 <= k < |Parts(path)| ==> Literal(Parts(path)[k])
    ensures var d := Dispatch(rs, verb, path);
      d.Some? && Answers(d.value, verb, path) && SpellsOut(Parts(d.value.pattern), Parts(path))
  {
    LiteralAnswers(rs[i].pattern, path);
    DispatchIsFullScan(rs, verb, path);
    var d := Dispatch(rs, verb, path);
    var k: nat :| BestAmong(rs, AnswersTo(verb, path), path, k) && rs[k] == d.value;
    assert AnswersTo(verb, path)(rs[i]);
    BestSpellsOut(rs[k].pattern, path);
  }

  lemma {:induction false} LiteralAnswers(pattern: string, path: string)
    requires Parts(pattern) == Parts(path) && forall k :: 0 <= k < |Parts(path)| ==> Literal(Parts(path)[k])
    ensures MatchesPath(pattern, path) && Specificity(pattern) == 2 * |Parts(path)|
  {
    StopIs(Parts(path), |Parts(path)|);
    FullScoreIff(Parts(path));
  }

  lemma {:induction false} BestSpellsOut(pattern: string, path: string)
    requires MatchesPath(pattern, path) && Shaped(Parts(pattern)) && Specificity(pattern) >= 2 * |Parts(path)|
    ensures SpellsOut(Parts(pattern), Parts(path))
  {
    AnsweringScore(Parts(pattern), Parts(path));
  }

  /** The condition is exact: a table hides no answering route from any request iff all its patterns are indexable. */
  lemma NothingHiddenIff(rs: seq<Route>)
    ensures AllIndexable(rs) <==>
      forall i, path :: 0 <= i < |rs| && MatchesPath(rs[i].pattern, path) ==> Shown(rs[i], rs[i].verb, path)
  {
    forall i | 0 <= i < |rs|
      ensures Indexable(Parts(rs[i].pattern)) <==>
        forall path :: MatchesPath(rs[i].pattern, path) ==> Shown(rs[i], rs[i].verb, path)
    {
      IndexAgreesIff(rs[i].pattern);
    }
  }
}
