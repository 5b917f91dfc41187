/** Choosing the first best element of a list, and of a filtered list. */
module Choice {
  import opened Contracts

  function Filtered<T>(s: seq<T>, pick: T -> bool): seq<T> {
    if |s| == 0 then []
    else Filtered(s[..|s| - 1], pick) + if pick(s[|s| - 1]) then [s[|s| - 1]] else []
  }

  function Better<T>(best: Option<T>, x: T, live: T -> bool, score: T -> int): Option<T> {
    if live(x) && (best.None? || score(x) > score(best.value)) then Some(x) else best
  }

  /** The running best: replaced only by a strictly greater score. */
  function BestOf<T>(s: seq<T>, live: T -> bool, score: T -> int, start: Option<T>): Option<T> {
    if |s| == 0 then start else Better(BestOf(s[..|s| - 1], live, score, start), s[|s| - 1], live, score)
  }

  lemma {:induction false} BestOfConcat<T>(a: seq<T>, b: seq<T>, live: T -> bool, score: T -> int, start: Option<T>)
    ensures BestOf(a + b, live, score, start) == BestOf(b, live, score, BestOf(a, live, score, start))
  {
    if |b| == 0 {
      assert a + b == a;
    } else {
      var n := |b| - 1;
      assert (a + b)[..|a + b| - 1] == a + b[..n];
      BestOfConcat(a, b[..n], live, score, start);
    }
  }

  /** Element i is the first of the greatest score among the picked live elements. */
  predicate FirstBest<T>(s: seq<T>, pick: T -> bool, live: T -> bool, score: T -> int, i: nat) {
    && i < |s| && pick(s[i]) && live(s[i])
    && (forall j :: 0 <= j < |s| && pick(s[j]) && live(s[j]) ==> score(s[j]) <= score(s[i]))
    && forall j :: 0 <= j < i && pick(s[j]) && live(s[j]) ==> score(s[j]) < score(s[i])
  }

  /** No picked live element beats the start. */
  predicate NoneBetter<T>(s: seq<T>, pick: T -> bool, live: T -> bool, score: T -> int, start: Option<T>) {
    forall j :: 0 <= j < |s| && pick(s[j]) && live(s[j]) ==> start.Some? && score(s[j]) <= score(start.value)
  }

  /** The best so far is the start (i == -1) or the first best picked element, which beats the start. */
  ghost predicate Outcome<T>(s: seq<T>, pick: T -> bool, live: T -> bool, score: T -> int, start: Option<T>, best: Option<T>, i: int)
  {
    || (i == -1 && best == start && NoneBetter(s, pick, live, score, start))
    || ( && 0 <= i && FirstBest(s, pick, live, score, i) && best == Some(s[i])
         && (start.Some? ==> score(s[i]) > score(start.value)))
  }

  lemma OutcomeSkip<T>(s: seq<T>, x: T, pick: T -> bool, live: T -> bool, score: T -> int,
                       start: Option<T>, best: Option<T>, i: int)
    requires Outcome(s, pick, live, score, start, best, i)
    requires pick(x) && live(x) ==> best.Some? && score(x) <= score(best.value)
    ensures Outcome(s + [x], pick, live, score, start, best, i)
  {
  }

  lemma OutcomeTake<T>(s: seq<T>, x: T, pick: T -> bool, live: T -> bool, score: T -> int,
                       start: Option<T>, best: Option<T>, i: int)
    requires Outcome(s, pick, live, score, start, best, i)
    requires pick(x) && live(x) && (best.Some? ==> score(x) > score(best.value))
    ensures Outcome(s + [x], pick, live, score, start, Some(x), |s|)
  {
  }

  lemma {:induction false} FilteredBest<T>(s: seq<T>, pick: T -> bool, live: T -> bool, score: T -> int, start: Option<T>)
      returns (i: int)
    ensures Outcome(s, pick, live, score, start, BestOf(Filtered(s, pick), live, score, start), i)
  {
    i := -1;
    if |s| > 0 {
      var init, x := s[..|s| - 1], s[|s| - 1];
      assert s == init + [x];
      i := FilteredBest(init, pick, live, score, start);
      var before := BestOf(Filtered(init, pick), live, score, start);
      if pick(x) {
        assert Filtered(s, pick)[..|Filtered(s, pick)| - 1] == Filtered(init, pick);
      } else {
        assert Filtered(s, pick) == Filtered(init, pick);
      }
      if pick(x) && live(x) && (before.None? || score(x) > score(before.value)) {
        OutcomeTake(init, x, pick, live, score, start, before, i);
        i := |init|;
      } else {
        OutcomeSkip(init, x, pick, live, score, start, before, i);
      }
    }
  }

  /** Element i wins over two passes: greatest score, then the first pass, then the earliest position. */
  predicate Wins<T>(s: seq<T>, first: T -> bool, second: T -> bool, live: T -> bool, score: T -> int, i: nat) {
    && i < |s| && live(s[i]) && (first(s[i]) || second(s[i]))
    && forall j :: 0 <= j < |s| && live(s[j]) && (first(s[j]) || second(s[j])) ==>
         || score(s[j]) < score(s[i])
         || (score(s[j]) == score(s[i]) && if first(s[i]) then first(s[j]) ==> i <= j else !first(s[j]) && i <= j)
  }

  /** Scanning the elements of one kind and then those of another finds the winner, or nothing if nothing is live. */
  lemma TwoPasses<T>(s: seq<T>, first: T -> bool, second: T -> bool, live: T -> bool, score: T -> int)
    ensures var best := BestOf(Filtered(s, first) + Filtered(s, second), live, score, None);
      match best
      case None => forall j :: 0 <= j < |s| && live(s[j]) ==> !first(s[j]) && !second(s[j])
      case Some(x) => exists i: nat :: Wins(s, first, second, live, score, i) && s[i] == x
  {
    BestOfConcat(Filtered(s, first), Filtered(s, second), live, score, None);
    var a := FilteredBest(s, first, live, score, None);
    var start := BestOf(Filtered(s, first), live, score, None);
    var b := FilteredBest(s, second, live, score, start);
    if b >= 0 {
      assert Wins(s, first, second, live, score, b);
    } else if a >= 0 {
      assert Wins(s, first, second, live, score, a);
    }
  }

  lemma {:induction false} FilteredNone<T>(s: seq<T>, pick: T -> bool)
    requires forall x :: !pick(x)
    ensures Filtered(s, pick) == []
  {
    if |s| > 0 {
      FilteredNone(s[..|s| - 1], pick);
    }
  }
}
