/** Registering services' routes, and serving requests from what was registered. */
module RouteRegistry {
  import opened Contracts
  import opened Text
  import opened Paths
  import opened Routing
  import opened Choice
  import opened RouteTable
  import opened KeyedTable

  function RegisterKey(r: Route): string { r.verb + [' '] + Canonical(r.pattern) }

  predicate Overrides(r: Route) { r.overriding && TrimSpace(r.overrideReason) != "" }

  function Key(): Route -> string { RegisterKey }

  function Overriding(): Route -> bool { Overrides }

  /** The table after every route offered so far, by any sequence of service registrations. */
  function RegisterAll(offered: seq<Route>): Table<Route> { OfferAll(offered, Key(), Overriding()) }

  /**
   * Over any sequence of registrations: pairwise distinct keys, the recorded keys are exactly those, and the routes
   * stand in order of first offer, each the first offer for its key or the latest override with a reason.
   */
  lemma RegistrationsHold(offered: seq<Route>)
    ensures var t := RegisterAll(offered);
      && DistinctKeys(t.entries, Key())
      && (forall k :: k in t.keys <==> exists i :: 0 <= i < |t.entries| && RegisterKey(t.entries[i]) == k)
      && Holds(t, offered, Key(), Overriding())
  {
    OffersHold(offered, Key(), Overriding());
    KeysAreExact(offered, Key(), Overriding());
  }

  /** For methods without spaces a key stands for one method and one pattern up to parameter names. */
  lemma {:induction false} RegisterKeyInjective(r: Route, q: Route)
    requires ' ' !in r.verb && ' ' !in q.verb && RegisterKey(r) == RegisterKey(q)
    ensures r.verb == q.verb && SameShape(Parts(r.pattern), Parts(q.pattern))
  {
    var k := RegisterKey(r);
    assert k[|r.verb|] == ' ' && k[|q.verb|] == ' ';
    assert forall i :: 0 <= i < |r.verb| ==> k[i] == r.verb[i];
    assert forall i :: 0 <= i < |q.verb| ==> k[i] == q.verb[i];
    assert |r.verb| == |q.verb|;
    assert k[..|r.verb|] == r.verb && k[..|q.verb|] == q.verb;
    assert k[|r.verb| + 1..] == Canonical(r.pattern) == Canonical(q.pattern);
    CanonicalIff(r.pattern, q.pattern);
  }

  /** A route replaces another only on purpose and with a reason that is not blank. */
  lemma {:induction false} OverridesIff(r: Route)
    ensures Overrides(r) <==> r.overriding && exists i :: 0 <= i < |r.overrideReason| && !IsSpace(r.overrideReason[i])
  {
    TrimSpaceEmptyIff(r.overrideReason);
  }

  /** No two registered routes for one method are the same pattern up to parameter names. */
  lemma NoShadowedTwins(offered: seq<Route>, i: nat, j: nat)
    requires var rs := RegisterAll(offered).entries; i < j < |rs| && rs[i].verb == rs[j].verb
    ensures var rs := RegisterAll(offered).entries; Canonical(rs[i].pattern) != Canonical(rs[j].pattern)
  {
    RegistrationsHold(offered);
    var rs := RegisterAll(offered).entries;
    assert Key()(rs[i]) != Key()(rs[j]);
  }

  // ---------------------------------------------------------------- the best-match loop

  /** The route answers the request and the parameters are those of its match. */
  predicate Carries(best: Option<Route>, params: map<string, string>, verb: string, path: string) {
    best.Some? ==>
      && Answers(best.value, verb, path)
      && params == PathParams(best.value.pattern, path)
  }

  function ScoreOf(best: Option<Route>): int { if best.Some? then SpecificityOf()(best.value) else -1 }

  lemma {:induction false} BetterIs(best: Option<Route>, r: Route, verb: string, path: string)
    ensures Better(best, r, AnswersTo(verb, path), SpecificityOf()) ==
      if Answers(r, verb, path) && ScoreOf(best) < Specificity(r.pattern) then Some(r) else best
  {
  }

  /** One pass of the loop. */
  method Consider(best: Option<Route>, bestScore: int, params: map<string, string>, r: Route, verb: string, path: string)
      returns (best': Option<Route>, bestScore': int, params': map<string, string>)
    requires Carries(best, params, verb, path) && bestScore == ScoreOf(best)
    ensures best' == Better(best, r, AnswersTo(verb, path), SpecificityOf())
    ensures Carries(best', params', verb, path) && bestScore' == ScoreOf(best')
  {
    BetterIs(best, r, verb, path);
    best', bestScore', params' := best, bestScore, params;
    if r.verb != verb {
      return;
    }
    var ps, ok := ExtractPathParams(r.pattern, path);
    if !ok {
      return;
    }
    var score := RouteSpecificity(r.pattern);
    if score <= bestScore {
      return;
    }
    best', bestScore', params' := Some(r), score, ps;
  }

  method BestMatch(cs: seq<Route>, verb: string, path: string) returns (best: Option<Route>, params: map<string, string>)
    ensures best == BestOf(cs, AnswersTo(verb, path), SpecificityOf(), None)
    ensures Carries(best, params, verb, path)
  {
    best, params := None, map[];
    var bestScore: int := -1;
    for k := 0 to |cs|
      invariant best == BestOf(cs[..k], AnswersTo(verb, path), SpecificityOf(), None)
      invariant Carries(best, params, verb, path) && bestScore == ScoreOf(best)
    {
      assert cs[..k + 1][..k] == cs[..k];
      best, bestScore, params := Consider(best, bestScore, params, cs[k], verb, path);
    }
    assert cs[..|cs|] == cs;
  }

  lemma {:induction false} Grows(a: seq<Route>, routes: seq<Route>, k: nat)
    requires k <= |routes|
    ensures a + routes[..0] == a && a + routes[..|routes|] == a + routes
    ensures k < |routes| ==> a + routes[..k] + [routes[k]] == a + routes[..k + 1]
  {
  }

  // ---------------------------------------------------------------- the application

  class App {
    var Routes: seq<Route>
    var CatalogRoutes: seq<Route>
    var registeredPatterns: set<string>
    var routeIndex: Index
    var routeIndexHash: int
    /** A 64-bit hash of the route list; nothing depends on its value. */
    const fingerprint: seq<Route> -> int
    /** All routes offered by the services this process runs. */
    ghost var offered: seq<Route>

    ghost predicate Valid() reads this {
      Current() && routeIndex == Rebuild(Routes)
    }

    constructor (fingerprint: seq<Route> -> int)
      ensures Valid() && offered == [] && CatalogRoutes == []
    {
      this.fingerprint := fingerprint;
      Routes, CatalogRoutes, registeredPatterns, routeIndex, routeIndexHash := [], [], {}, map[], 0;
      offered := [];
    }

    /** rebuildRouteIndex. */
    method RebuildRouteIndex()
      modifies this`routeIndex, this`routeIndexHash
      ensures routeIndex == Rebuild(Routes)
    {
      var next: Index := map[];
      for i := 0 to |Routes|
        invariant next == Rebuild(Routes[..i])
      {
        RebuildStep(Routes, i);
        var key := IndexKey(Routes[i].verb, Bucket(Routes[i].pattern));
        next := next[key := (if key in next then next[key] else []) + [Routes[i]]];
      }
      assert Routes[..|Routes|] == Routes;
      routeIndex := next;
      routeIndexHash := fingerprint(Routes);
    }

    /** replaceRegisteredRoute. */
    method ReplaceRegisteredRoute(key: string, r: Route)
      modifies this`Routes
      ensures Routes == Replace(old(Routes), key, r, Key())
    {
      for i := 0 to |Routes|
        invariant Routes == old(Routes)
        invariant forall j :: 0 <= j < i ==> Key()(Routes[j]) != key
      {
        if Key()(Routes[i]) == key {
          ReplaceAt(Routes, key, r, Key(), i);
          Routes := Routes[i := r];
          return;
        }
      }
      ReplaceAt(Routes, key, r, Key(), |Routes|);
      Routes := Routes + [r];
    }

    /** The table is what the offers so far make it. */
    ghost predicate Current() reads this`Routes, this`registeredPatterns, this`offered {
      Table(Routes, registeredPatterns) == RegisterAll(offered)
    }

    method RegisterRoute(r: Route) returns (changed: bool)
      requires Current()
      modifies this`Routes, this`registeredPatterns, this`offered
      ensures Current() && offered == old(offered) + [r]
      ensures !changed ==> Routes == old(Routes)
    {
      OfferAnother(offered, r, Key(), Overriding());
      var key := Key()(r);
      if key in registeredPatterns {
        changed := Overriding()(r);
        if changed {
          ReplaceRegisteredRoute(key, r);
        }
      } else {
        registeredPatterns := registeredPatterns + {key};
        Routes := Routes + [r];
        changed := true;
      }
      offered := offered + [r];
    }

    method RegisterRoutes(routes: seq<Route>) returns (changed: bool)
      requires Current()
      modifies this`Routes, this`registeredPatterns, this`offered
      ensures Current() && offered == old(offered) + routes
      ensures !changed ==> Routes == old(Routes)
    {
      changed := false;
      Grows(offered, routes, 0);
      for k := 0 to |routes|
        invariant Current() && offered == old(offered) + routes[..k]
        invariant !changed ==> Routes == old(Routes)
      {
        Grows(old(offered), routes, k);
        var changedHere := RegisterRoute(routes[k]);
        changed := changed || changedHere;
      }
    }

    /** RegisterService: every route joins the catalogue; those of a service this process runs are registered. */
    method RegisterService(routes: seq<Route>, allowed: bool)
      requires Valid()
      modifies this
      ensures Valid()
      ensures CatalogRoutes == old(CatalogRoutes) + routes
      ensures offered == old(offered) + if allowed then routes else []
    {
      CatalogRoutes := CatalogRoutes + routes;
      if !allowed {
        return;
      }
      var changed := RegisterRoutes(routes);
      if changed {
        RebuildRouteIndex();
      }
    }

    /** routeCandidates: whether or not the fingerprint asks for a rebuild, the answer is the same. */
    method RouteCandidates(verb: string, path: string) returns (candidates: seq<Route>)
      requires Valid()
      modifies this`routeIndex, this`routeIndexHash
      ensures Valid() && routeIndex == old(routeIndex)
      ensures candidates == Candidates(routeIndex, verb, path)
    {
      if routeIndexHash != fingerprint(Routes) {
        RebuildRouteIndex();
      }
      var bucket := Bucket(path);
      candidates := Entry(routeIndex, IndexKey(verb, bucket));
      if bucket != WILDCARD {
        candidates := candidates + Entry(routeIndex, IndexKey(verb, WILDCARD));
      }
    }

    /** serveServiceRoute: the best matching registered route and its path parameters. */
    method ServeServiceRoute(verb: string, path: string) returns (best: Option<Route>, params: map<string, string>)
      requires Valid()
      modifies this`routeIndex, this`routeIndexHash
      ensures Valid() && routeIndex == old(routeIndex)
      ensures best == Dispatch(Routes, verb, path)
      ensures Carries(best, params, verb, path)
    {
      var cs := RouteCandidates(verb, path);
      best, params := BestMatch(cs, verb, path);
    }
  }
}
