/** Slash-separated paths: strings.Trim, strings.Split and strings.Join with "/" as the routing code uses them. */
module Paths {

  function Split(s: string): (r: seq<string>)
    ensures |r| >= 1
  {
    if |s| == 0 then [[]]
    else
      var r := Split(s[1..]);
      if s[0] == '/' then [[]] + r else [[s[0]] + r[0]] + r[1..]
  }

  function Join(ps: seq<string>): string {
    if |ps| == 0 then [] else if |ps| == 1 then ps[0] else ps[0] + (['/'] + Join(ps[1..]))
  }

  function TrimSlashesLeft(s: string): (r: string)
    ensures |r| > 0 ==> r[0] != '/'
  {
    if |s| > 0 && s[0] == '/' then TrimSlashesLeft(s[1..]) else s
  }

  function TrimSlashesRight(s: string): (r: string)
    ensures |r| <= |s| && r == s[..|r|]
    ensures |r| > 0 ==> r[|r| - 1] != '/'
  {
    if |s| > 0 && s[|s| - 1] == '/' then TrimSlashesRight(s[..|s| - 1]) else s
  }

  function Trim(s: string): (r: string)
    ensures |r| > 0 ==> r[0] != '/' && r[|r| - 1] != '/'
  {
    TrimSlashesRight(TrimSlashesLeft(s))
  }

  predicate AllSlashes(s: string) { forall i :: 0 <= i < |s| ==> s[i] == '/' }

  lemma {:induction false} LeftTakesSlashes(s: string) returns (a: string)
    ensures AllSlashes(a) && s == a + TrimSlashesLeft(s)
  {
    a := "";
    if |s| > 0 && s[0] == '/' {
      a := LeftTakesSlashes(s[1..]);
      assert s == [s[0]] + s[1..];
      a := ['/'] + a;
    }
  }

  lemma {:induction false} RightTakesSlashes(s: string) returns (b: string)
    ensures AllSlashes(b) && s == TrimSlashesRight(s) + b
  {
    b := "";
    if |s| > 0 && s[|s| - 1] == '/' {
      var n := |s| - 1;
      b := RightTakesSlashes(s[..n]);
      assert s == s[..n] + [s[n]];
      b := b + ['/'];
    }
  }

  /** Trimming takes slashes off both ends and nothing else. */
  lemma {:induction false} TrimTakesSlashes(s: string) returns (a: string, b: string)
    ensures AllSlashes(a) && AllSlashes(b) && s == a + Trim(s) + b
  {
    a := LeftTakesSlashes(s);
    b := RightTakesSlashes(TrimSlashesLeft(s));
  }

  /** The segments of a path or pattern. */
  function Parts(path: string): (r: seq<string>)
    ensures |r| >= 1
  {
    Split(Trim(path))
  }

  predicate SlashFree(ps: seq<string>) { forall i :: 0 <= i < |ps| ==> '/' !in ps[i] }

  /** Segment lists that are the segments of some path other than the root. */
  predicate Proper(ps: seq<string>) { |ps| > 0 && SlashFree(ps) && ps[0] != "" && ps[|ps| - 1] != "" }

  /** Adding a character in front of the first segment. */
  lemma {:induction false} JoinPrepend(c: char, r: seq<string>)
    requires |r| > 0
    ensures Join([[c] + r[0]] + r[1..]) == [c] + Join(r)
  {
    var p := [[c] + r[0]] + r[1..];
    if |r| > 1 {
      assert p[1..] == r[1..];
      var rest := ['/'] + Join(r[1..]);
      assert Join(p) == ([c] + r[0]) + rest == [c] + (r[0] + rest);
    }
  }

  lemma {:induction false} JoinEmptyFirst(r: seq<string>)
    requires |r| > 0
    ensures Join([[]] + r) == ['/'] + Join(r)
  {
    var q := [[]] + r;
    assert q[1..] == r;
    assert [] + (['/'] + Join(r)) == ['/'] + Join(r);
  }

  lemma {:induction false} JoinSplit(s: string)
    ensures Join(Split(s)) == s
  {
    if |s| > 0 {
      JoinSplit(s[1..]);
      JoinPrepend(s[0], Split(s[1..]));
      JoinEmptyFirst(Split(s[1..]));
      assert s == [s[0]] + s[1..];
    }
  }

  lemma {:induction false} SplitShape(s: string)
    ensures SlashFree(Split(s))
    ensures |s| > 0 && s[|s| - 1] != '/' ==> Split(s)[|Split(s)| - 1] != ""
  {
    if |s| > 0 {
      SplitShape(s[1..]);
    }
  }

  lemma {:induction false} SplitFirst(a: string, rest: string)
    requires '/' !in a
    ensures Split(a) == [a]
    ensures Split(a + (['/'] + rest)) == [a] + Split(rest)
  {
    var s := a + (['/'] + rest);
    if |a| == 0 {
      assert s[1..] == rest;
    } else {
      SplitFirst(a[1..], rest);
      assert s[1..] == a[1..] + (['/'] + rest);
      assert [a[0]] + a[1..] == a;
    }
  }

  lemma {:induction false} SplitJoin(ps: seq<string>)
    requires |ps| > 0 && SlashFree(ps)
    ensures Split(Join(ps)) == ps
  {
    if |ps| == 1 {
      SplitFirst(ps[0], []);
    } else {
      SplitFirst(ps[0], Join(ps[1..]));
      SplitJoin(ps[1..]);
    }
  }

  lemma {:induction false} JoinEnds(ps: seq<string>)
    requires |ps| > 0 && SlashFree(ps) && ps[|ps| - 1] != ""
    ensures var s := Join(ps); |s| > 0 && s[|s| - 1] != '/' && (ps[0] != "" ==> s[0] != '/')
  {
    if |ps| > 1 {
      JoinEnds(ps[1..]);
    } else {
      assert ps[0][|ps[0]| - 1] in ps[0];
    }
    if ps[0] != "" {
      assert ps[0][0] in ps[0];
    }
  }

  /** Proper segments survive joining and splitting. */
  lemma PartsJoin(ps: seq<string>)
    requires Proper(ps)
    ensures Parts(Join(ps)) == ps
  {
    JoinEnds(ps);
    SplitJoin(ps);
  }

  /** What Parts can return, and that it loses only the outer slashes. */
  lemma PartsShape(path: string)
    ensures Join(Parts(path)) == Trim(path)
    ensures SlashFree(Parts(path))
    ensures Parts(path) == [""] || Proper(Parts(path))
  {
    JoinSplit(Trim(path));
    SplitShape(Trim(path));
  }
}
