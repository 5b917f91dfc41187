/** Route patterns: matching and parameters, canonical form, specificity, and the buckets of the route index. */
module Routing {
  import opened Paths
  import opened Text

  // ---------------------------------------------------------------- pattern segments

  /** A segment that ends in "...}" swallows the rest of the path, with or without an opening brace. */
  predicate CatchAll(part: string) {
    var n := |part|;
    n >= 4 && part[n - 4] == '.' && part[n - 3] == '.' && part[n - 2] == '.' && part[n - 1] == '}'
  }

  /** A segment written in braces. */
  predicate Braced(part: string) { |part| >= 2 && part[0] == '{' && part[|part| - 1] == '}' }

  predicate Literal(part: string) { !Braced(part) && !CatchAll(part) }

  /** The position of the first catch-all segment, or the number of segments. */
  function Stop(pp: seq<string>): (c: nat)
    ensures c <= |pp|
    ensures forall i :: 0 <= i < c ==> !CatchAll(pp[i])
    ensures c < |pp| ==> CatchAll(pp[c])
  {
    if |pp| == 0 || CatchAll(pp[0]) then 0 else 1 + Stop(pp[1..])
  }

  lemma StopIs(pp: seq<string>, c: nat)
    requires c <= |pp| && (forall i :: 0 <= i < c ==> !CatchAll(pp[i])) && (c < |pp| ==> CatchAll(pp[c]))
    ensures Stop(pp) == c
  {
  }

  predicate PartMatches(part: string, seg: string) { Braced(part) || part == seg }

  /** A pattern matches a path segment by segment, up to its first catch-all segment if it has one. */
  predicate Matches(pp: seq<string>, sp: seq<string>) {
    var c := Stop(pp);
    && (if c < |pp| then c <= |sp| else c == |sp|)
    && forall i :: 0 <= i < c ==> PartMatches(pp[i], sp[i])
  }

  predicate MatchesPath(pattern: string, path: string) { Matches(Parts(pattern), Parts(path)) }

  // ---------------------------------------------------------------- parameters

  function ParamName(part: string): string
    requires Braced(part) || CatchAll(part)
  {
    var q := if part[0] == '{' then part[1..] else part;
    if CatchAll(part) then q[..|q| - 4] else q[..|q| - 1]
  }

  /** A parameter is named by what its braces hold, a catch-all by what stands before the dots. */
  lemma {:induction false} ParamNameIs(x: string)
    ensures ParamName(['{'] + x + ['.', '.', '.', '}']) == x
    ensures !CatchAll(['{'] + x + ['}']) ==> ParamName(['{'] + x + ['}']) == x
    ensures (|x| > 0 ==> x[0] != '{') ==> ParamName(x + ['.', '.', '.', '}']) == x
  {
    var a, b, c := ['{'] + x + ['.', '.', '.', '}'], ['{'] + x + ['}'], x + ['.', '.', '.', '}'];
    assert a[1..] == c && b[1..] == x + ['}'];
    if |x| > 0 { assert c[0] == x[0]; }
  }

  /** The first n segments' bindings, later ones overwriting earlier ones of the same name. */
  function Params(pp: seq<string>, sp: seq<string>, n: nat): map<string, string>
    requires n <= |pp| && n <= Stop(pp) + 1 && n <= |sp| + 1 && (n == |sp| + 1 ==> n == Stop(pp) + 1)
  {
    if n == 0 then map[]
    else
      var part, before := pp[n - 1], Params(pp, sp, n - 1);
      if CatchAll(part) then before[ParamName(part) := Join(sp[n - 1..])]
      else if Braced(part) then before[ParamName(part) := sp[n - 1]]
      else before
  }

  /** How many segments bind or compare before the match is decided. */
  function Reach(pp: seq<string>): nat { if Stop(pp) < |pp| then Stop(pp) + 1 else |pp| }

  function PathParams(pattern: string, path: string): map<string, string>
    requires MatchesPath(pattern, path)
  {
    Params(Parts(pattern), Parts(path), Reach(Parts(pattern)))
  }

  /** The first i segments have been compared without a decision. */
  predicate MatchedSoFar(pp: seq<string>, sp: seq<string>, i: nat) {
    && i <= |sp| && i <= Stop(pp)
    && forall j :: 0 <= j < i ==> PartMatches(pp[j], sp[j])
  }

  lemma {:induction false} NextSegment(pp: seq<string>, sp: seq<string>, i: nat)
    requires MatchedSoFar(pp, sp, i) && i < |pp|
    ensures CatchAll(pp[i]) ==> Stop(pp) == i && Matches(pp, sp) && Reach(pp) == i + 1
    ensures CatchAll(pp[i]) ==> Params(pp, sp, i + 1) == Params(pp, sp, i)[ParamName(pp[i]) := Join(sp[i..])]
    ensures !CatchAll(pp[i]) && i < |sp| && PartMatches(pp[i], sp[i]) ==> MatchedSoFar(pp, sp, i + 1)
    ensures !CatchAll(pp[i]) && !(i < |sp| && PartMatches(pp[i], sp[i])) ==> !Matches(pp, sp)
  {
    if CatchAll(pp[i]) {
      StopIs(pp, i);
    } else {
      assert Stop(pp) > i;
    }
  }

  /** extractPathParams; the slice taken at a catch-all segment is always within the path. */
  method ExtractPathParams(pattern: string, path: string) returns (params: map<string, string>, ok: bool)
    ensures ok == MatchesPath(pattern, path)
    ensures ok ==> params == PathParams(pattern, path)
  {
    params := map[];
    var pp, sp := Parts(pattern), Parts(path);
    for i := 0 to |pp|
      invariant MatchedSoFar(pp, sp, i)
      invariant params == Params(pp, sp, i)
    {
      NextSegment(pp, sp, i);
      var part := pp[i];
      if CatchAll(part) {
        params := params[ParamName(part) := Join(sp[i..])];
        return params, |sp| >= i;
      }
      if i >= |sp| {
        return map[], false;
      }
      if Braced(part) {
        params := params[ParamName(part) := sp[i]];
      } else if part != sp[i] {
        return map[], false;
      }
    }
    ok := |pp| == |sp|;
  }

  predicate Binds(part: string) { Braced(part) || CatchAll(part) }

  /** The text a binding segment binds: the rest of the path at a catch-all, otherwise the segment opposite. */
  function Bound(pp: seq<string>, sp: seq<string>, i: nat): string
    requires Matches(pp, sp) && i < Reach(pp)
  {
    if CatchAll(pp[i]) then Join(sp[i..]) else sp[i]
  }

  /** Segments that bind the same name bind the same text. */
  predicate NamesAgree(pp: seq<string>, sp: seq<string>)
    requires Matches(pp, sp)
  {
    forall i, j :: 0 <= i < j < Reach(pp) && Binds(pp[i]) && Binds(pp[j]) && ParamName(pp[i]) == ParamName(pp[j]) ==>
      Bound(pp, sp, i) == Bound(pp, sp, j)
  }

  lemma {:induction false} ParamsStep(pp: seq<string>, sp: seq<string>, n: nat)
    requires Matches(pp, sp) && n < Reach(pp)
    ensures Params(pp, sp, n + 1) ==
      if Binds(pp[n]) then Params(pp, sp, n)[ParamName(pp[n]) := Bound(pp, sp, n)] else Params(pp, sp, n)
  {
  }

  /** Of several segments with one name the last one's text is kept. */
  lemma {:induction false} LastBindingWins(pp: seq<string>, sp: seq<string>, n: nat, i: nat)
    requires Matches(pp, sp) && i < n <= Reach(pp) && Binds(pp[i])
    requires forall j :: i < j < n && Binds(pp[j]) ==> ParamName(pp[j]) != ParamName(pp[i])
    ensures var ps := Params(pp, sp, n); ParamName(pp[i]) in ps && ps[ParamName(pp[i])] == Bound(pp, sp, i)
  {
    ParamsStep(pp, sp, n - 1);
    if i < n - 1 {
      LastBindingWins(pp, sp, n - 1, i);
    }
  }

  /** The last of the first n segments that binds the name of segment i. */
  lemma {:induction false} LastOfName(pp: seq<string>, n: nat, i: nat) returns (k: nat)
    requires i < n <= |pp| && Binds(pp[i])
    ensures i <= k < n && Binds(pp[k]) && ParamName(pp[k]) == ParamName(pp[i])
    ensures forall j :: k < j < n && Binds(pp[j]) ==> ParamName(pp[j]) != ParamName(pp[i])
  {
    k := n - 1;
    if k != i && !(Binds(pp[k]) && ParamName(pp[k]) == ParamName(pp[i])) {
      k := LastOfName(pp, n - 1, i);
    }
  }

  lemma {:induction false} EveryNameIsBound(pp: seq<string>, sp: seq<string>, i: nat)
    requires Matches(pp, sp) && i < Reach(pp) && Binds(pp[i])
    ensures var ps := Params(pp, sp, Reach(pp));
      ParamName(pp[i]) in ps && (NamesAgree(pp, sp) ==> ps[ParamName(pp[i])] == Bound(pp, sp, i))
  {
    var k := LastOfName(pp, Reach(pp), i);
    LastBindingWins(pp, sp, Reach(pp), k);
  }

  /** Every name of the pattern is a parameter. */
  predicate Fillable(pp: seq<string>, ps: map<string, string>) {
    forall i :: 0 <= i < Reach(pp) && Binds(pp[i]) ==> ParamName(pp[i]) in ps
  }

  /** The pattern with its parameters put back in. */
  function Fill(pp: seq<string>, ps: map<string, string>): (r: seq<string>)
    requires Fillable(pp, ps)
    ensures |r| == Reach(pp)
  {
    seq(Reach(pp), i requires 0 <= i < Reach(pp) => if Binds(pp[i]) then ps[ParamName(pp[i])] else pp[i])
  }

  lemma {:induction false} JoinNested(a: seq<string>, b: seq<string>)
    requires |a| + |b| > 0
    ensures Join(a + [Join(b)]) == Join(a + b) + if |b| == 0 then "/" else ""
  {
    if |a| == 0 {
      assert a + b == b && a + [Join(b)] == [Join(b)];
    } else {
      assert (a + [Join(b)])[1..] == a[1..] + [Join(b)];
      assert (a + b)[1..] == a[1..] + b;
      if |a| + |b| > 1 {
        JoinNested(a[1..], b);
      } else {
        assert (a + [Join(b)])[1..] == [""];
      }
    }
  }

  lemma {:induction false} JoinCut(sp: seq<string>, c: nat)
    requires c <= |sp| && |sp| > 0
    ensures Join(sp[..c] + [Join(sp[c..])]) == Join(sp) + if c == |sp| then "/" else ""
  {
    assert sp[..c] + sp[c..] == sp;
    JoinNested(sp[..c], sp[c..]);
  }

  lemma {:induction false} AllBound(pp: seq<string>, sp: seq<string>)
    requires Matches(pp, sp)
    ensures Fillable(pp, Params(pp, sp, Reach(pp)))
  {
    forall i | 0 <= i < Reach(pp) && Binds(pp[i]) ensures ParamName(pp[i]) in Params(pp, sp, Reach(pp)) {
      EveryNameIsBound(pp, sp, i);
    }
  }

  /** The path's segments as a filled pattern should show them. */
  function Expected(pp: seq<string>, sp: seq<string>): (r: seq<string>)
    requires Matches(pp, sp)
  {
    if Stop(pp) < |pp| then sp[..Stop(pp)] + [Join(sp[Stop(pp)..])] else sp
  }

  lemma {:induction false} ExpectedAt(pp: seq<string>, sp: seq<string>, i: nat)
    requires Matches(pp, sp) && i < Reach(pp)
    ensures |Expected(pp, sp)| == Reach(pp) && Expected(pp, sp)[i] == Bound(pp, sp, i)
    ensures !Binds(pp[i]) ==> Bound(pp, sp, i) == pp[i]
  {
  }

  lemma {:induction false} AgreeingNamesFill(pp: seq<string>, sp: seq<string>)
    requires Matches(pp, sp) && NamesAgree(pp, sp)
    ensures Fillable(pp, Params(pp, sp, Reach(pp)))
    ensures Fill(pp, Params(pp, sp, Reach(pp))) == Expected(pp, sp)
  {
    AllBound(pp, sp);
    var filled, expected := Fill(pp, Params(pp, sp, Reach(pp))), Expected(pp, sp);
    forall i | 0 <= i < Reach(pp) ensures |expected| == Reach(pp) && filled[i] == expected[i] {
      ExpectedAt(pp, sp, i);
      if Binds(pp[i]) {
        EveryNameIsBound(pp, sp, i);
      }
    }
  }

  lemma {:induction false} FilledNamesAgree(pp: seq<string>, sp: seq<string>, ps: map<string, string>)
    requires Matches(pp, sp) && Fillable(pp, ps) && Fill(pp, ps) == Expected(pp, sp)
    ensures NamesAgree(pp, sp)
  {
    forall i | 0 <= i < Reach(pp) && Binds(pp[i]) ensures Bound(pp, sp, i) == ps[ParamName(pp[i])] {
      ExpectedAt(pp, sp, i);
      assert Fill(pp, ps)[i] == ps[ParamName(pp[i])];
    }
  }

  /** Filling in the parameters gives the path's segments back exactly when repeated names agree. */
  lemma {:induction false} FillIff(pp: seq<string>, sp: seq<string>)
    requires Matches(pp, sp)
    ensures Fillable(pp, Params(pp, sp, Reach(pp)))
    ensures NamesAgree(pp, sp) <==> Fill(pp, Params(pp, sp, Reach(pp))) == Expected(pp, sp)
  {
    AllBound(pp, sp);
    if NamesAgree(pp, sp) {
      AgreeingNamesFill(pp, sp);
    } else if Fill(pp, Params(pp, sp, Reach(pp))) == Expected(pp, sp) {
      FilledNamesAgree(pp, sp, Params(pp, sp, Reach(pp)));
    }
  }

  /** The parameters give the path back: putting them into the pattern yields the trimmed path. */
  lemma {:induction false} FillRoundTrip(pp: seq<string>, path: string)
    requires Matches(pp, Parts(path)) && NamesAgree(pp, Parts(path))
    ensures Fillable(pp, Params(pp, Parts(path), Reach(pp)))
    ensures Join(Fill(pp, Params(pp, Parts(path), Reach(pp)))) ==
      Trim(path) + if Stop(pp) < |pp| && |Parts(path)| == Stop(pp) then "/" else ""
  {
    AgreeingNamesFill(pp, Parts(path));
    PartsShape(path);
    JoinCut(Parts(path), if Stop(pp) < |pp| then Stop(pp) else 0);
  }

  // ---------------------------------------------------------------- canonical form and specificity

  function CanonicalPart(part: string): string {
    if Braced(part) && CatchAll(part) then "{...}" else if Braced(part) then "{}" else part
  }

  function CanonicalParts(pp: seq<string>): (r: seq<string>)
    ensures |r| == |pp|
  {
    seq(|pp|, i requires 0 <= i < |pp| => CanonicalPart(pp[i]))
  }

  function Canonical(pattern: string): string { ['/'] + Join(CanonicalParts(Parts(pattern))) }

  /** canonicalPattern. */
  method CanonicalPattern(pattern: string) returns (r: string)
    ensures r == Canonical(pattern)
  {
    var parts := Parts(pattern);
    for i := 0 to |parts|
      invariant |parts| == |Parts(pattern)|
      invariant forall j :: 0 <= j < i ==> parts[j] == CanonicalPart(Parts(pattern)[j])
      invariant forall j :: i <= j < |parts| ==> parts[j] == Parts(pattern)[j]
    {
      if Braced(parts[i]) && CatchAll(parts[i]) {
        parts := parts[i := "{...}"];
      } else if Braced(parts[i]) {
        parts := parts[i := "{}"];
      }
    }
    assert parts == CanonicalParts(Parts(pattern));
    r := ['/'] + Join(parts);
  }

  function PartScore(part: string): nat {
    if Braced(part) && CatchAll(part) then 0 else if Braced(part) then 1 else 2
  }

  function Score(pp: seq<string>): nat {
    if |pp| == 0 then 0 else Score(pp[..|pp| - 1]) + PartScore(pp[|pp| - 1])
  }

  function Specificity(pattern: string): nat { Score(Parts(pattern)) }

  /** routeSpecificity. */
  method RouteSpecificity(pattern: string) returns (score: nat)
    ensures score == Specificity(pattern)
  {
    score := 0;
    var pp := Parts(pattern);
    for i := 0 to |pp|
      invariant score == Score(pp[..i])
    {
      assert pp[..i + 1][..i] == pp[..i];
      if Braced(pp[i]) && CatchAll(pp[i]) {
      } else if Braced(pp[i]) {
        score := score + 1;
      } else {
        score := score + 2;
      }
    }
    assert pp[..|pp|] == pp;
  }

  lemma {:induction false} ScoreConcat(a: seq<string>, b: seq<string>)
    ensures Score(a + b) == Score(a) + Score(b)
    decreases |b|
  {
    if |b| == 0 {
      assert a + b == a;
    } else {
      assert (a + b)[..|a + b| - 1] == a + b[..|b| - 1];
      ScoreConcat(a, b[..|b| - 1]);
    }
  }

  lemma {:induction false} ScoreAround(a: seq<string>, x: string, b: seq<string>)
    ensures Score(a + [x] + b) == Score(a) + PartScore(x) + Score(b)
  {
    ScoreConcat(a + [x], b);
    ScoreConcat(a, [x]);
    assert [x][..0] == [];
  }

  /** A literal segment is more specific than a parameter in its place, and a parameter than a catch-all. */
  lemma {:induction false} LiteralOverParameter(a: seq<string>, x: string, y: string, b: seq<string>)
    ensures !Braced(x) && Braced(y) ==> Score(a + [x] + b) > Score(a + [y] + b)
    ensures Braced(x) && !CatchAll(x) && Braced(y) && CatchAll(y) ==> Score(a + [x] + b) > Score(a + [y] + b)
  {
    ScoreAround(a, x, b);
    ScoreAround(a, y, b);
  }

  /** No pattern scores more than two for each segment, and only one without parameters reaches that. */
  lemma {:induction false} FullScoreIff(pp: seq<string>)
    ensures Score(pp) <= 2 * |pp|
    ensures Score(pp) == 2 * |pp| <==> forall i :: 0 <= i < |pp| ==> !Braced(pp[i])
  {
    if |pp| > 0 {
      var p := pp[..|pp| - 1];
      FullScoreIff(p);
      assert forall i :: 0 <= i < |p| ==> p[i] == pp[i];
    }
  }

  /** Catch-all segments are written in braces and only the last segment is one. */
  predicate Shaped(pp: seq<string>) { forall i :: 0 <= i < |pp| && CatchAll(pp[i]) ==> Braced(pp[i]) && i == |pp| - 1 }

  /** The path spelled out, or spelled out with a catch-all for the nothing that follows. */
  predicate SpellsOut(pp: seq<string>, sp: seq<string>) {
    pp == sp || (|pp| == |sp| + 1 && pp[..|sp|] == sp && CatchAll(pp[|sp|]))
  }

  /** An answering pattern scores at most two for each segment of the path, and that only if it spells the path out. */
  lemma {:induction false} AnsweringScore(pp: seq<string>, sp: seq<string>)
    requires Matches(pp, sp) && Shaped(pp)
    ensures Score(pp) <= 2 * |sp|
    ensures Score(pp) == 2 * |sp| ==> SpellsOut(pp, sp)
  {
    var c := Stop(pp);
    FullScoreIff(pp[..c]);
    if c < |pp| {
      assert pp == pp[..c] + [pp[c]] + [];
      ScoreAround(pp[..c], pp[c], []);
    } else {
      assert pp[..c] == pp;
    }
    if Score(pp) == 2 * |sp| {
      forall i | 0 <= i < c ensures pp[i] == sp[i] { assert !Braced(pp[..c][i]) && PartMatches(pp[i], sp[i]); }
      assert pp[..c] == sp;
    }
  }

  /** What stands behind a catch-all never matters for matching, yet it counts for the score. */
  lemma {:induction false} BehindCatchAll(a: seq<string>, x: string, b: seq<string>, sp: seq<string>)
    requires CatchAll(x) && forall i :: 0 <= i < |a| ==> !CatchAll(a[i])
    ensures Matches(a + [x] + b, sp) == Matches(a + [x], sp)
    ensures Score(a + [x] + b) == Score(a + [x]) + Score(b)
  {
    StopIs(a + [x] + b, |a|);
    StopIs(a + [x], |a|);
    assert forall i :: 0 <= i < |a| ==> (a + [x] + b)[i] == a[i] && (a + [x])[i] == a[i];
    ScoreConcat(a + [x], b);
  }

  lemma CanonicalPartFacts(a: string, b: string)
    requires CanonicalPart(a) == CanonicalPart(b)
    ensures Braced(a) == Braced(b) && CatchAll(a) == CatchAll(b)
    ensures !Braced(a) ==> a == b
  {
    assert Braced("{...}") && CatchAll("{...}");
    assert Braced("{}") && !CatchAll("{}");
  }

  lemma {:induction false} CanonicalPrefix(p: seq<string>, n: nat)
    requires n <= |p|
    ensures CanonicalParts(p[..n]) == CanonicalParts(p)[..n]
  {
  }

  lemma {:induction false} SameScore(p: seq<string>, q: seq<string>)
    requires CanonicalParts(p) == CanonicalParts(q)
    ensures Score(p) == Score(q)
  {
    assert |p| == |CanonicalParts(p)| == |q|;
    if |p| > 0 {
      var n := |p| - 1;
      assert CanonicalPart(p[n]) == CanonicalParts(p)[n] == CanonicalParts(q)[n] == CanonicalPart(q[n]);
      CanonicalPartFacts(p[n], q[n]);
      CanonicalPrefix(p, n);
      CanonicalPrefix(q, n);
      SameScore(p[..n], q[..n]);
    }
  }

  lemma {:induction false} CanonicalSlashFree(pp: seq<string>)
    requires SlashFree(pp)
    ensures SlashFree(CanonicalParts(pp))
  {
    forall i | 0 <= i < |pp| ensures '/' !in CanonicalParts(pp)[i] {
      assert '/' !in "{...}" && '/' !in "{}";
    }
  }

  lemma {:induction false} CanonicalDeterminesParts(p: string, q: string)
    requires Canonical(p) == Canonical(q)
    ensures CanonicalParts(Parts(p)) == CanonicalParts(Parts(q))
  {
    var cp, cq := CanonicalParts(Parts(p)), CanonicalParts(Parts(q));
    PartsShape(p);
    PartsShape(q);
    CanonicalSlashFree(Parts(p));
    CanonicalSlashFree(Parts(q));
    assert Canonical(p)[1..] == Join(cp) && Canonical(q)[1..] == Join(cq);
    SplitJoin(cp);
    SplitJoin(cq);
  }

  lemma {:induction false} SameFacts(p: seq<string>, q: seq<string>)
    requires CanonicalParts(p) == CanonicalParts(q)
    ensures |p| == |q| && Stop(p) == Stop(q)
    ensures forall i :: 0 <= i < |p| ==> Braced(p[i]) == Braced(q[i]) && (!Braced(p[i]) ==> p[i] == q[i])
  {
    assert |p| == |CanonicalParts(p)| == |q|;
    forall i | 0 <= i < |p|
      ensures Braced(p[i]) == Braced(q[i]) && CatchAll(p[i]) == CatchAll(q[i]) && (!Braced(p[i]) ==> p[i] == q[i])
    {
      assert CanonicalParts(p)[i] == CanonicalParts(q)[i];
      CanonicalPartFacts(p[i], q[i]);
    }
    StopIs(p, Stop(q));
  }

  lemma {:induction false} SameMatches(p: seq<string>, q: seq<string>, sp: seq<string>)
    requires CanonicalParts(p) == CanonicalParts(q)
    ensures Matches(p, sp) == Matches(q, sp)
  {
    SameFacts(p, q);
  }

  lemma {:induction false} SameBucket(p: seq<string>, q: seq<string>)
    requires CanonicalParts(p) == CanonicalParts(q) && |p| > 0 && |q| > 0
    ensures PartsBucket(p) == PartsBucket(q)
  {
    SameFacts(p, q);
  }

  /** Equal segments, or two parameters, or two catch-alls in braces. */
  predicate SameSegment(a: string, b: string) { a == b || (Braced(a) && Braced(b) && CatchAll(a) == CatchAll(b)) }

  predicate SameShape(p: seq<string>, q: seq<string>) {
    |p| == |q| && forall i :: 0 <= i < |p| ==> SameSegment(p[i], q[i])
  }

  /** The canonical form forgets exactly the names of parameters and catch-alls. */
  lemma {:induction false} CanonicalIff(p: string, q: string)
    ensures Canonical(p) == Canonical(q) <==> SameShape(Parts(p), Parts(q))
  {
    var pp, qq := Parts(p), Parts(q);
    if Canonical(p) == Canonical(q) {
      CanonicalDeterminesParts(p, q);
      ShapeOfCanonical(pp, qq);
    }
    if SameShape(pp, qq) {
      assert CanonicalParts(pp) == CanonicalParts(qq);
    }
  }

  lemma {:induction false} ShapeOfCanonical(p: seq<string>, q: seq<string>)
    requires CanonicalParts(p) == CanonicalParts(q)
    ensures SameShape(p, q)
  {
    assert |p| == |CanonicalParts(p)| == |q|;
    forall i | 0 <= i < |p| ensures SameSegment(p[i], q[i]) {
      assert CanonicalParts(p)[i] == CanonicalParts(q)[i];
      CanonicalPartFacts(p[i], q[i]);
    }
  }

  /** Patterns with one canonical form are one route: same paths, same specificity, same bucket. */
  lemma {:induction false} EqualCanonical(p: string, q: string)
    requires Canonical(p) == Canonical(q)
    ensures forall path :: MatchesPath(p, path) <==> MatchesPath(q, path)
    ensures Specificity(p) == Specificity(q)
    ensures Bucket(p) == Bucket(q)
  {
    var pp, qq := Parts(p), Parts(q);
    CanonicalDeterminesParts(p, q);
    SameScore(pp, qq);
    SameBucket(pp, qq);
    BucketByParts(p);
    BucketByParts(q);
    forall path ensures MatchesPath(p, path) <==> MatchesPath(q, path) {
      SameMatches(pp, qq, Parts(path));
    }
  }

  // ---------------------------------------------------------------- buckets

  const WILDCARD := "*"

  function PathSegments(path: string): seq<string> {
    var trimmed := Trim(path);
    if trimmed == "" then [] else Split(trimmed)
  }

  /** strings.HasPrefix(strings.ToLower(s), "v"). */
  predicate VersionLike(s: string) { |s| > 0 && (s[0] == 'v' || s[0] == 'V') }

  lemma {:induction false} VersionLikeIff(s: string)
    ensures VersionLike(s) <==> "v" <= ToLower(s)
  {
    if |s| > 0 { assert ToLower(s)[0] == LowerChar(s[0]); }
  }

  /** routeBucket, of a pattern or of a path. */
  function Bucket(path: string): string {
    var parts := PathSegments(path);
    var rest := if |parts| >= 2 && parts[0] == "api" && VersionLike(parts[1]) then parts[2..] else parts;
    if |rest| == 0 then "" else if Braced(rest[0]) then WILDCARD else rest[0]
  }

  function SegmentBucket(s: string): string { if Braced(s) then WILDCARD else s }

  function PartsBucket(ps: seq<string>): string
    requires |ps| > 0
  {
    if |ps| >= 2 && ps[0] == "api" && VersionLike(ps[1]) then (if |ps| == 2 then "" else SegmentBucket(ps[2]))
    else SegmentBucket(ps[0])
  }

  lemma BucketByParts(path: string)
    ensures Bucket(path) == PartsBucket(Parts(path))
  {
  }

  /** The index offers the pattern for the path. */
  predicate Offered(pattern: string, path: string) {
    Bucket(pattern) == Bucket(path) || Bucket(pattern) == WILDCARD
  }

  /**
   * The patterns the index never hides: read off the first three segments. A pattern that is not itself in the
   * wildcard bucket must fix every segment its own bucket depends on.
   */
  predicate Indexable(pp: seq<string>)
    requires |pp| > 0
  {
    || PartsBucket(pp) == WILDCARD
    || ( && !CatchAll(pp[0])
         && ( || pp[0] != "api" || |pp| == 1
              || (Literal(pp[1]) && (!VersionLike(pp[1]) || |pp| == 2 || !CatchAll(pp[2])))
              || (Braced(pp[1]) && !CatchAll(pp[1]) && |pp| >= 3 && pp[2] == "api")))
  }

  lemma {:induction false} IndexableIsOffered(pp: seq<string>, sp: seq<string>)
    requires |pp| > 0 && |sp| > 0 && Indexable(pp) && Matches(pp, sp)
    ensures PartsBucket(pp) == PartsBucket(sp) || PartsBucket(pp) == WILDCARD
  {
    if PartsBucket(pp) != WILDCARD {
      assert PartMatches(pp[0], sp[0]);
      if pp[0] == "api" && |pp| > 1 {
        assert !CatchAll("api");
        assert Stop(pp) > 1;
        assert PartMatches(pp[1], sp[1]);
        if |pp| > 2 && !CatchAll(pp[2]) {
          assert PartMatches(pp[2], sp[2]);
        }
      }
    }
  }

  /** A path the pattern matches: every parameter and the catch-all become "v". */
  function Instance(pp: seq<string>): (r: seq<string>)
    ensures |r| == Reach(pp)
  {
    seq(Reach(pp), i requires 0 <= i < Reach(pp) => if Binds(pp[i]) then "v" else pp[i])
  }

  lemma {:induction false} InstanceMatches(pp: seq<string>)
    requires Proper(pp)
    ensures Proper(Instance(pp)) && Matches(pp, Instance(pp))
  {
    var r := Instance(pp);
    forall i | 0 <= i < |r| ensures '/' !in r[i] && (i < Stop(pp) ==> PartMatches(pp[i], r[i])) {
      assert '/' !in "v";
    }
  }

  /** The bucket the index computes for the instance differs, except for one shape of pattern. */
  lemma {:induction false} HiddenInstance(pp: seq<string>)
    requires |pp| > 0 && !Indexable(pp)
    requires !(pp[0] == "api" && |pp| > 1 && CatchAll(pp[1]) && VersionLike(pp[1]))
    ensures PartsBucket(Instance(pp)) != PartsBucket(pp)
  {
    var sp := Instance(pp);
    assert !CatchAll("api") && !Braced("api");
    if pp[0] == "api" && |pp| > 1 {
      assert Stop(pp) > 0;
      assert sp[0] == "api";
    }
  }

  /** For a version-like catch-all right after "api", one of two short paths is hidden. */
  lemma {:induction false} HiddenShort(pp: seq<string>) returns (sp: seq<string>)
    requires |pp| > 1 && pp[0] == "api" && CatchAll(pp[1])
    ensures Proper(sp) && Matches(pp, sp) && PartsBucket(sp) != PartsBucket(pp)
  {
    assert !CatchAll("api") && '/' !in "api" && '/' !in "v";
    StopIs(pp, 1);
    if PartsBucket(pp) == "" {
      sp := ["api"];
      assert PartsBucket(sp) == "api";
    } else {
      sp := ["api", "v"];
      assert PartsBucket(sp) == "";
    }
    assert PartMatches(pp[0], sp[0]);
  }

  lemma {:induction false} HiddenPath(pp: seq<string>) returns (sp: seq<string>)
    requires Proper(pp) && !Indexable(pp)
    ensures Proper(sp) && Matches(pp, sp) && PartsBucket(sp) != PartsBucket(pp)
  {
    if pp[0] == "api" && |pp| > 1 && CatchAll(pp[1]) && VersionLike(pp[1]) {
      sp := HiddenShort(pp);
    } else {
      sp := Instance(pp);
      InstanceMatches(pp);
      HiddenInstance(pp);
    }
  }

  lemma {:induction false} NotIndexable(pattern: string)
    requires !Indexable(Parts(pattern))
    ensures exists path :: MatchesPath(pattern, path) && !Offered(pattern, path)
  {
    PartsShape(pattern);
    assert Indexable([""]);
    var sp := HiddenPath(Parts(pattern));
    PartsJoin(sp);
    BucketByParts(pattern);
    BucketByParts(Join(sp));
    assert MatchesPath(pattern, Join(sp)) && !Offered(pattern, Join(sp));
  }

  /** The index agrees with a full scan for a pattern, on every path, exactly when the pattern is indexable. */
  lemma {:induction false} IndexAgreesIff(pattern: string)
    ensures Indexable(Parts(pattern)) <==> forall path :: MatchesPath(pattern, path) ==> Offered(pattern, path)
  {
    if Indexable(Parts(pattern)) {
      forall path | MatchesPath(pattern, path) ensures Offered(pattern, path) {
        IndexableIsOffered(Parts(pattern), Parts(path));
        BucketByParts(pattern);
        BucketByParts(path);
      }
    } else {
      NotIndexable(pattern);
    }
  }

  /** Whole-segment parameters and a fixed segment after a leading "api" are enough. */
  lemma OrdinaryIsIndexable(pp: seq<string>)
    requires |pp| > 0 && (forall i :: 0 <= i < |pp| && CatchAll(pp[i]) ==> Braced(pp[i]))
    requires |pp| > 1 && pp[0] == "api" ==> !Braced(pp[1])
    ensures Indexable(pp)
  {
  }
}
