/** String operations of the Go standard library that the modelled code relies on. */
module Text {

  /** Go's `<` on strings: byte order, which for UTF-8 is code-point order. */
  predicate LexLess(a: string, b: string) {
    if |b| == 0 then false
    else if |a| == 0 then true
    else if a[0] != b[0] then a[0] < b[0]
    else LexLess(a[1..], b[1..])
  }

  lemma {:induction false} LexLessTotal(a: string, b: string)
    ensures LexLess(a, b) || LexLess(b, a) || a == b
    ensures !(LexLess(a, b) && LexLess(b, a))
    ensures !LexLess(a, a)
  {
    if |a| > 0 {
      LexLessTotal(a[1..], a[1..]);
      if |b| > 0 && a[0] == b[0] {
        LexLessTotal(a[1..], b[1..]);
        assert a == [a[0]] + a[1..] && b == [b[0]] + b[1..];
      }
    }
  }

  /** A string comes before its extensions, and otherwise the first different character decides. */
  lemma {:induction false} LexLessLaws(p: string, c: char, x: string, d: char, y: string)
    requires c < d
    ensures LexLess(p, p + [c] + x)
    ensures LexLess(p + [c] + x, p + [d] + y)
  {
    var a, b := p + [c] + x, p + [d] + y;
    if |p| > 0 {
      LexLessLaws(p[1..], c, x, d, y);
      assert a[1..] == p[1..] + [c] + x && b[1..] == p[1..] + [d] + y;
    }
  }

  lemma {:induction false} LexLessTransitive(a: string, b: string, c: string)
    requires LexLess(a, b) && LexLess(b, c)
    ensures LexLess(a, c)
  {
    if |a| > 0 && a[0] == b[0] && b[0] == c[0] {
      LexLessTransitive(a[1..], b[1..], c[1..]);
    }
  }

  /** Go's unicode.IsSpace. */
  predicate IsSpace(c: char) {
    || c == ' ' || '\U{0009}' <= c <= '\U{000D}' || c == '\U{0085}' || c == '\U{00A0}' || c == '\U{1680}'
    || '\U{2000}' <= c <= '\U{200A}' || c == '\U{2028}' || c == '\U{2029}' || c == '\U{202F}'
    || c == '\U{205F}' || c == '\U{3000}'
  }

  function TrimLeft(s: string): (r: string)
    ensures |r| <= |s| && r == s[|s| - |r|..]
    ensures |r| > 0 ==> !IsSpace(r[0])
  {
    if |s| > 0 && IsSpace(s[0]) then TrimLeft(s[1..]) else s
  }

  function TrimRight(s: string): (r: string)
    ensures |r| <= |s| && r == s[..|r|]
    ensures |r| > 0 ==> !IsSpace(r[|r| - 1])
  {
    if |s| > 0 && IsSpace(s[|s| - 1]) then TrimRight(s[..|s| - 1]) else s
  }

  function TrimSpace(s: string): (r: string) { TrimRight(TrimLeft(s)) }

  lemma {:induction false} TrimRightEmptyIff(s: string)
    ensures TrimRight(s) == "" <==> forall i :: 0 <= i < |s| ==> IsSpace(s[i])
  {
    if |s| > 0 && IsSpace(s[|s| - 1]) { TrimRightEmptyIff(s[..|s| - 1]); }
  }

  lemma {:induction false} TrimLeftKeeps(s: string)
    ensures (forall i :: 0 <= i < |s| ==> IsSpace(s[i])) <==> TrimLeft(s) == ""
  {
    if |s| > 0 && IsSpace(s[0]) {
      TrimLeftKeeps(s[1..]);
      assert forall i :: 1 <= i < |s| ==> s[i] == s[1..][i - 1];
    }
  }

  /** Trimming leaves nothing exactly of blank strings. */
  lemma {:induction false} TrimSpaceEmptyIff(s: string)
    ensures TrimSpace(s) == "" <==> forall i :: 0 <= i < |s| ==> IsSpace(s[i])
  {
    TrimLeftKeeps(s);
    TrimRightEmptyIff(TrimLeft(s));
  }

  /** Lower case for comparison with ASCII names: ASCII letters, and the two code points that fold into ASCII. */
  function LowerChar(c: char): char {
    if 'A' <= c <= 'Z' then c + 32 as char
    else if c == '\U{212A}' then 'k'
    else if c == '\U{0130}' then 'i'
    else c
  }

  function ToLower(s: string): (r: string)
    ensures |r| == |s|
  {
    seq(|s|, i requires 0 <= i < |s| => LowerChar(s[i]))
  }

  /** All strings of the list are different. */
  ghost predicate NoRepeats(s: seq<string>) { forall i, j :: 0 <= i < j < |s| ==> s[i] != s[j] }

  /** A string that is not in the set. */
  lemma {:induction false} FreshName(names: set<string>) returns (f: string)
    ensures f !in names && forall n :: n in names ==> |n| < |f|
    decreases |names|
  {
    f := "f";
    if names != {} {
      var n :| n in names;
      f := FreshName(names - {n});
      assert names == (names - {n}) + {n};
      f := f + n + "f";
    }
  }
}
