/** Labelled metrics: label rendering in the Prometheus text format, and the series it identifies. */
module Metrics {
  import opened Contracts
  import opened Text

  type Labels = map<string, string>

  // ---------------------------------------------------------------- escaping of label values

  /** strings.ReplaceAll for a single character. */
  function ReplaceAll(s: string, c: char, sub: string): string {
    if |s| == 0 then [] else (if s[0] == c then sub else [s[0]]) + ReplaceAll(s[1..], c, sub)
  }

  /** Three successive replacements, as the code performs them. */
  function Escape(s: string): string {
    ReplaceAll(ReplaceAll(ReplaceAll(s, '\\', ['\\', '\\']), '\n', ['\\', 'n']), '"', ['\\', '"'])
  }

  function EscapeChar(c: char): string {
    if c == '\\' then ['\\', '\\'] else if c == '\n' then ['\\', 'n'] else if c == '"' then ['\\', '"'] else [c]
  }

  /** One pass over the characters. */
  function EscapeOnce(s: string): string {
    if |s| == 0 then [] else EscapeChar(s[0]) + EscapeOnce(s[1..])
  }

  lemma {:induction false} ReplaceAllConcat(a: string, b: string, c: char, sub: string)
    ensures ReplaceAll(a + b, c, sub) == ReplaceAll(a, c, sub) + ReplaceAll(b, c, sub)
  {
    if |a| == 0 {
      assert a + b == b;
    } else {
      assert (a + b)[1..] == a[1..] + b;
      ReplaceAllConcat(a[1..], b, c, sub);
    }
  }

  lemma ReplaceTwo(x: char, y: char, c: char, sub: string)
    ensures ReplaceAll([x], c, sub) == if x == c then sub else [x]
    ensures ReplaceAll([x, y], c, sub) == (if x == c then sub else [x]) + (if y == c then sub else [y])
  {
    assert [x][1..] == [] && [x, y][1..] == [y] && [y][1..] == [];
  }

  /** The successive replacements are the one-pass escape: no backslash they insert is escaped again. */
  lemma {:induction false} EscapeIsOnePass(s: string)
    ensures Escape(s) == EscapeOnce(s)
  {
    if |s| > 0 {
      EscapeIsOnePass(s[1..]);
      var c := s[0];
      var first := if c == '\\' then ['\\', '\\'] else [c];
      var rest1 := ReplaceAll(s[1..], '\\', ['\\', '\\']);
      ReplaceAllConcat(first, rest1, '\n', ['\\', 'n']);
      var second := ReplaceAll(first, '\n', ['\\', 'n']);
      var rest2 := ReplaceAll(rest1, '\n', ['\\', 'n']);
      ReplaceAllConcat(second, rest2, '"', ['\\', '"']);
      ReplaceTwo(c, c, '\n', ['\\', 'n']);
      ReplaceTwo(c, c, '"', ['\\', '"']);
      ReplaceTwo('\\', 'n', '"', ['\\', '"']);
      assert ReplaceAll(second, '"', ['\\', '"']) == EscapeChar(c);
    }
  }

  // ---------------------------------------------------------------- reading rendered text back

  /** Reads an escaped value up to its closing quote. */
  function ReadQuoted(s: string): (r: Option<(string, string)>)
    ensures r.Some? ==> |r.value.1| < |s|
  {
    if |s| == 0 then None
    else if s[0] == '"' then Some(([], s[1..]))
    else if s[0] == '\\' then
      if |s| == 1 then None
      else
        var c := if s[1] == 'n' then '\n' else s[1];
        match ReadQuoted(s[2..])
        case None => None
        case Some((v, rest)) => Some(([c] + v, rest))
    else
      match ReadQuoted(s[1..])
      case None => None
      case Some((v, rest)) => Some(([s[0]] + v, rest))
  }

  lemma {:induction false} ReadQuotedEscape(v: string, rest: string)
    ensures ReadQuoted(EscapeOnce(v) + ['"'] + rest) == Some((v, rest))
  {
    var text := EscapeOnce(v) + ['"'] + rest;
    if |v| == 0 {
      assert text[1..] == rest;
    } else {
      ReadQuotedEscape(v[1..], rest);
      var tail := EscapeOnce(v[1..]) + ['"'] + rest;
      var head := EscapeChar(v[0]);
      assert text == head + tail;
      assert text[|head|..] == tail;
      assert [v[0]] + v[1..] == v;
    }
  }

  /** Splits at the first equals sign. */
  function ReadName(s: string): (r: Option<(string, string)>)
    ensures r.Some? ==> |r.value.1| < |s|
  {
    if |s| == 0 then None
    else if s[0] == '=' then Some(([], s[1..]))
    else
      match ReadName(s[1..])
      case None => None
      case Some((n, rest)) => Some(([s[0]] + n, rest))
  }

  lemma {:induction false} ReadNameBack(name: string, rest: string)
    requires '=' !in name
    ensures ReadName(name + ['='] + rest) == Some((name, rest))
  {
    var text := name + ['='] + rest;
    if |name| == 0 {
      assert text[1..] == rest;
    } else {
      ReadNameBack(name[1..], rest);
      assert text[1..] == name[1..] + ['='] + rest;
      assert [name[0]] + name[1..] == name;
    }
  }

  // ---------------------------------------------------------------- rendering

  datatype Label = Label(name: string, value: string)

  function RenderOne(l: Label): string { l.name + ['='] + (['"'] + (Escape(l.value) + ['"'])) }

  /** name="value" pairs, joined by commas. */
  function Render(labels: seq<Label>): string {
    if |labels| == 0 then []
    else if |labels| == 1 then RenderOne(labels[0])
    else RenderOne(labels[0]) + ([','] + Render(labels[1..]))
  }

  predicate NameStart(c: char) { 'A' <= c <= 'Z' || 'a' <= c <= 'z' || c == '_' }

  /** ^[A-Za-z_][A-Za-z0-9_]*$ */
  predicate ValidName(name: string) {
    |name| > 0 && NameStart(name[0]) && forall i :: 0 <= i < |name| ==> NameStart(name[i]) || '0' <= name[i] <= '9'
  }

  function ReadLabels(s: string): Option<seq<Label>>
    decreases |s|
  {
    match ReadName(s)
    case None => None
    case Some((name, afterName)) =>
      if |afterName| == 0 || afterName[0] != '"' then None
      else match ReadQuoted(afterName[1..])
        case None => None
        case Some((value, rest)) =>
          if |rest| == 0 then Some([Label(name, value)])
          else if rest[0] != ',' then None
          else match ReadLabels(rest[1..])
            case None => None
            case Some(more) => Some([Label(name, value)] + more)
  }

  lemma ReadOne(l: Label, rest: string)
    requires ValidName(l.name)
    ensures var s := RenderOne(l) + rest;
      ReadLabels(s) ==
        if |rest| == 0 then Some([l])
        else if rest[0] != ',' then None
        else match ReadLabels(rest[1..])
          case None => None
          case Some(more) => Some([l] + more)
  {
    EscapeIsOnePass(l.value);
    var body := EscapeOnce(l.value) + ['"'] + rest;
    var quoted := ['"'] + body;
    assert RenderOne(l) + rest == l.name + ['='] + quoted;
    ReadNameBack(l.name, quoted);
    assert quoted[1..] == body;
    ReadQuotedEscape(l.value, rest);
  }

  /** Rendered labels can be read back: rendering loses nothing. */
  lemma {:induction false} RenderRoundTrip(labels: seq<Label>)
    requires |labels| > 0 && forall i :: 0 <= i < |labels| ==> ValidName(labels[i].name)
    ensures ReadLabels(Render(labels)) == Some(labels)
  {
    var l := labels[0];
    if |labels| == 1 {
      ReadOne(l, []);
      assert RenderOne(l) + [] == Render(labels);
      assert labels == [l];
    } else {
      var rest := [','] + Render(labels[1..]);
      ReadOne(l, rest);
      RenderRoundTrip(labels[1..]);
      assert rest[1..] == Render(labels[1..]);
      assert labels == [l] + labels[1..];
    }
  }

  // ---------------------------------------------------------------- sorted label names

  ghost predicate Sorted(ks: seq<string>) { forall i, j :: 0 <= i < j < |ks| ==> LexLess(ks[i], ks[j]) }

  ghost predicate SortedKeys(ks: seq<string>, keys: set<string>) {
    Sorted(ks) && forall k :: k in ks <==> k in keys
  }

  function InsertSorted(ks: seq<string>, x: string): seq<string> {
    if |ks| == 0 || !LexLess(ks[0], x) then [x] + ks else [ks[0]] + InsertSorted(ks[1..], x)
  }

  lemma {:induction false} InsertKeepsSorted(ks: seq<string>, x: string)
    requires Sorted(ks) && x !in ks
    ensures Sorted(InsertSorted(ks, x))
    ensures forall k :: k in InsertSorted(ks, x) <==> k == x || k in ks
  {
    if |ks| > 0 {
      LexLessTotal(ks[0], x);
      if LexLess(ks[0], x) {
        var rest := InsertSorted(ks[1..], x);
        InsertKeepsSorted(ks[1..], x);
        assert forall k :: k in ks <==> k == ks[0] || k in ks[1..];
        assert forall i :: 0 <= i < |rest| ==> rest[i] in rest;
      } else {
        forall j | 0 <= j < |ks| ensures LexLess(x, ks[j]) {
          if j > 0 { LexLessTransitive(x, ks[0], ks[j]); }
        }
      }
    }
  }

  lemma {:induction false} SortedKeysExist(keys: set<string>) returns (ks: seq<string>)
    ensures SortedKeys(ks, keys)
    decreases |keys|
  {
    ks := [];
    if keys != {} {
      var k :| k in keys;
      var rest := SortedKeysExist(keys - {k});
      InsertKeepsSorted(rest, k);
      ks := InsertSorted(rest, k);
    }
  }

  /** There is one sorted list of a set's elements, so the rendered text depends on the label map only. */
  lemma {:induction false} SortedKeysUnique(a: seq<string>, b: seq<string>, keys: set<string>)
    requires SortedKeys(a, keys) && SortedKeys(b, keys)
    ensures a == b
    decreases |a|
  {
    if |a| == 0 {
      assert forall k :: k !in b;
      assert forall i :: 0 <= i < |b| ==> b[i] in b;
    } else {
      assert a[0] in keys;
      assert a[0] in a && a[0] in b;
      assert b[0] in keys && b[0] in a;
      assert a[0] == b[0] by {
        var j :| 0 <= j < |b| && b[j] == a[0];
        var i :| 0 <= i < |a| && a[i] == b[0];
        LexLessTotal(a[0], b[0]);
      }
      assert SortedKeys(a[1..], keys - {a[0]}) by { TailSorted(a, keys); }
      assert SortedKeys(b[1..], keys - {b[0]}) by { TailSorted(b, keys); }
      SortedKeysUnique(a[1..], b[1..], keys - {a[0]});
      assert a == [a[0]] + a[1..] && b == [b[0]] + b[1..];
    }
  }

  lemma TailSorted(ks: seq<string>, keys: set<string>)
    requires |ks| > 0 && SortedKeys(ks, keys)
    ensures SortedKeys(ks[1..], keys - {ks[0]})
  {
    forall k ensures k in ks[1..] <==> k in keys && k != ks[0] {
      LexLessTotal(k, k);
      if k in ks[1..] {
        var i :| 0 <= i < |ks[1..]| && ks[1..][i] == k;
        assert ks[i + 1] == k && LexLess(ks[0], ks[i + 1]);
        assert k in ks;
      }
      if k in keys && k != ks[0] {
        var i :| 0 <= i < |ks| && ks[i] == k;
        assert ks[1..][i - 1] == k;
      }
    }
  }

  // ---------------------------------------------------------------- label maps

  function Pairs(ks: seq<string>, labels: Labels): (r: seq<Label>)
    requires forall k :: k in ks ==> k in labels
    ensures |r| == |ks|
    ensures forall i :: 0 <= i < |ks| ==> r[i] == Label(ks[i], labels[ks[i]])
  {
    seq(|ks|, i requires 0 <= i < |ks| => Label(ks[i], labels[ks[i]]))
  }

  ghost function KeysOf(labels: Labels): (ks: seq<string>)
    ensures SortedKeys(ks, labels.Keys)
  {
    assert exists ks :: SortedKeys(ks, labels.Keys) by { var ks := SortedKeysExist(labels.Keys); }
    var ks :| SortedKeys(ks, labels.Keys);
    ks
  }

  /** The text that identifies a label map. */
  ghost function LabelText(labels: Labels): string { Render(Pairs(KeysOf(labels), labels)) }

  predicate ValidLabels(labels: Labels) { forall k :: k in labels ==> ValidName(k) }

  lemma PairsDetermine(a: Labels, b: Labels, ks: seq<string>, ls: seq<string>)
    requires SortedKeys(ks, a.Keys) && SortedKeys(ls, b.Keys) && Pairs(ks, a) == Pairs(ls, b)
    ensures a == b
  {
    forall k | k in a ensures k in b && a[k] == b[k] {
      var i :| 0 <= i < |ks| && ks[i] == k;
      assert Pairs(ks, a)[i] == Pairs(ls, b)[i];
      assert ls[i] in ls;
    }
    forall k | k in b ensures k in a {
      var i :| 0 <= i < |ls| && ls[i] == k;
      assert Pairs(ks, a)[i] == Pairs(ls, b)[i];
      assert ks[i] in ks;
    }
  }

  lemma RenderNonEmpty(labels: seq<Label>)
    requires |labels| > 0
    ensures |Render(labels)| > 0
  {
  }

  /** Label rendering is injective: distinct label maps with valid names render to distinct text. */
  lemma LabelTextInjective(a: Labels, b: Labels)
    requires ValidLabels(a) && ValidLabels(b) && LabelText(a) == LabelText(b)
    ensures a == b
  {
    var p, q := Pairs(KeysOf(a), a), Pairs(KeysOf(b), b);
    forall i | 0 <= i < |p| ensures ValidName(p[i].name) { assert KeysOf(a)[i] in KeysOf(a); }
    forall i | 0 <= i < |q| ensures ValidName(q[i].name) { assert KeysOf(b)[i] in KeysOf(b); }
    if |p| > 0 {
      RenderRoundTrip(p);
      RenderNonEmpty(p);
    }
    if |q| > 0 {
      RenderRoundTrip(q);
      RenderNonEmpty(q);
    }
    PairsDetermine(a, b, KeysOf(a), KeysOf(b));
  }

  /** prometheusLabels: refuses invalid names, otherwise renders the labels in name order. */
  method PrometheusLabels(labels: Labels) returns (text: string, ok: bool)
    ensures ok == ValidLabels(labels)
    ensures ok ==> text == LabelText(labels)
  {
    var ks := SortKeys(labels.Keys);
    SortedKeysUnique(ks, KeysOf(labels), labels.Keys);
    var parts: seq<Label> := [];
    assert ks[..0] == [];
    for i := 0 to |ks|
      invariant |parts| == i
      invariant forall j :: 0 <= j < i ==> parts[j] == Label(ks[j], labels[ks[j]]) && ValidName(ks[j])
    {
      assert ks[i] in ks;
      if !ValidName(ks[i]) {
        return "", false;
      }
      parts := parts + [Label(ks[i], labels[ks[i]])];
    }
    assert parts == Pairs(ks, labels);
    text, ok := Render(parts), true;
    forall k | k in labels ensures ValidName(k) {
      assert k in ks;
    }
  }

  /** sortedKeys. */
  method SortKeys(keys: set<string>) returns (ks: seq<string>)
    ensures SortedKeys(ks, keys)
  {
    ks := [];
    var rest := keys;
    while rest != {}
      invariant rest <= keys && SortedKeys(ks, keys - rest)
      decreases |rest|
    {
      var k :| k in rest;
      InsertKeepsSorted(ks, k);
      ks := InsertSorted(ks, k);
      rest := rest - {k};
    }
    assert keys - rest == keys;
  }

  // ---------------------------------------------------------------- the labelled samples

  datatype Sample = Sample(name: string, kind: string, labels: string, value: int)

  /** Stands for the byte 0xff, which no UTF-8 text contains. */
  const SEPARATOR: char := '\U{00FF}'

  ghost function Key(name: string, labels: Labels): string { name + [SEPARATOR] + LabelText(labels) }

  /** int64 increment. */
  function Increment(v: int): int { if v == 0x7FFF_FFFF_FFFF_FFFF then -0x8000_0000_0000_0000 else v + 1 }

  datatype Op = Inc(name: string, labels: Labels) | Set(name: string, kind: string, labels: Labels, value: int)

  /** The calls that have an effect. */
  predicate Accepted(op: Op) { TrimSpace(op.name) != "" && ValidLabels(op.labels) }

  /** One more than before, starting from the given first sample. */
  function Bumped(before: Option<Sample>, start: Sample): Sample {
    if before.Some? then before.value.(value := Increment(before.value.value)) else start
  }

  /** What one accepted call makes of the sample it addresses. */
  ghost function NewSample(before: Option<Sample>, op: Op): Sample {
    var name, text := TrimSpace(op.name), LabelText(op.labels);
    match op
    case Set(_, kind, _, value) => Sample(name, kind, text, value)
    case Inc(_, _) => Bumped(before, Sample(name, "counter", text, 1))
  }

  function Lookup(m: map<string, Sample>, key: string): Option<Sample> {
    if key in m then Some(m[key]) else None
  }

  ghost function Apply(m: map<string, Sample>, op: Op): map<string, Sample> {
    if !Accepted(op) then m
    else
      var key := Key(TrimSpace(op.name), op.labels);
      m[key := NewSample(Lookup(m, key), op)]
  }

  ghost function ApplyAll(ops: seq<Op>): map<string, Sample> {
    if |ops| == 0 then map[] else Apply(ApplyAll(ops[..|ops| - 1]), ops[|ops| - 1])
  }

  /** One series on its own: only the calls with its very name and label map. */
  ghost function SeriesAfter(ops: seq<Op>, name: string, labels: Labels): Option<Sample> {
    if |ops| == 0 then None
    else
      var before, op := SeriesAfter(ops[..|ops| - 1], name, labels), ops[|ops| - 1];
      if Accepted(op) && TrimSpace(op.name) == name && op.labels == labels then Some(NewSample(before, op)) else before
  }

  // ---------------------------------------------------------------- the separator cannot be mistaken

  /** Whether the number of quotes is odd, not counting escaped ones. */
  predicate OddQuotes(s: string) {
    if |s| == 0 then false
    else if s[0] == '\\' then |s| > 1 && OddQuotes(s[2..])
    else if s[0] == '"' then !OddQuotes(s[1..])
    else OddQuotes(s[1..])
  }

  lemma {:induction false} NameHasNoQuotes(name: string, rest: string)
    requires forall i :: 0 <= i < |name| ==> name[i] != '"' && name[i] != '\\'
    ensures OddQuotes(name + rest) == OddQuotes(rest)
  {
    if |name| == 0 {
      assert name + rest == rest;
    } else {
      assert (name + rest)[1..] == name[1..] + rest;
      NameHasNoQuotes(name[1..], rest);
    }
  }

  lemma {:induction false} EscapedCharHasNoQuotes(c: char, rest: string)
    ensures OddQuotes(EscapeChar(c) + rest) == OddQuotes(rest)
  {
    var s := EscapeChar(c) + rest;
    assert s[|EscapeChar(c)|..] == rest;
  }

  lemma {:induction false} ValueHasNoQuotes(v: string, rest: string)
    ensures OddQuotes(EscapeOnce(v) + rest) == OddQuotes(rest)
  {
    if |v| == 0 {
      assert EscapeOnce(v) + rest == rest;
    } else {
      assert EscapeOnce(v) + rest == EscapeChar(v[0]) + (EscapeOnce(v[1..]) + rest);
      EscapedCharHasNoQuotes(v[0], EscapeOnce(v[1..]) + rest);
      ValueHasNoQuotes(v[1..], rest);
    }
  }

  /** A separator within an escaped value stands for itself, so what follows it reads like the rest of the value. */
  lemma {:induction false} AfterSeparator(v: string, rest: string, p: nat)
    requires p < |EscapeOnce(v)| && EscapeOnce(v)[p] == SEPARATOR
    ensures OddQuotes((EscapeOnce(v) + rest)[p + 1..]) == OddQuotes(rest)
  {
    var head, tail := EscapeChar(v[0]), EscapeOnce(v[1..]);
    var s := EscapeOnce(v) + rest;
    assert s == head + (tail + rest);
    if p < |head| {
      assert head[p] == SEPARATOR;
      assert s[p + 1..] == tail + rest;
      ValueHasNoQuotes(v[1..], rest);
    } else {
      assert tail[p - |head|] == SEPARATOR;
      assert s[p + 1..] == (tail + rest)[p - |head| + 1..];
      AfterSeparator(v[1..], rest, p - |head|);
    }
  }

  lemma {:induction false} NameIsPlain(name: string)
    requires ValidName(name)
    ensures forall i :: 0 <= i < |name| ==> name[i] != '"' && name[i] != '\\' && name[i] != SEPARATOR
  {
  }

  lemma {:induction false} RenderOneParts(l: Label, rest: string)
    ensures RenderOne(l) + rest == (l.name + ['=']) + (['"'] + (EscapeOnce(l.value) + (['"'] + rest)))
  {
    EscapeIsOnePass(l.value);
  }

  lemma {:induction false} QuoteFlips(rest: string)
    ensures OddQuotes(['"'] + rest) == !OddQuotes(rest)
  {
    assert (['"'] + rest)[1..] == rest;
  }

  /** One rendered label has an even number of quotes. */
  lemma {:induction false} LabelIsBalanced(l: Label, rest: string)
    requires ValidName(l.name)
    ensures OddQuotes(RenderOne(l) + rest) == OddQuotes(rest)
  {
    NameIsPlain(l.name);
    RenderOneParts(l, rest);
    var closing := ['"'] + rest;
    NameHasNoQuotes(l.name + ['='], ['"'] + (EscapeOnce(l.value) + closing));
    QuoteFlips(EscapeOnce(l.value) + closing);
    ValueHasNoQuotes(l.value, closing);
    QuoteFlips(rest);
  }

  /** After a separator in a rendered label the quotes are odd: the separator lies within the quoted value. */
  lemma {:induction false} SeparatorIsQuoted(l: Label, rest: string, p: nat)
    requires ValidName(l.name) && p < |RenderOne(l)| && RenderOne(l)[p] == SEPARATOR
    ensures OddQuotes((RenderOne(l) + rest)[p + 1..]) == !OddQuotes(rest)
  {
    var v, closing, head := EscapeOnce(l.value), ['"'] + rest, l.name + ['=', '"'];
    RenderOneAround(l, rest);
    SeparatorPosition(head, v, p, l);
    DropInto(head, v, closing, p);
    AfterSeparator(l.value, closing, p - |head|);
    QuoteFlips(rest);
  }

  lemma {:induction false} RenderOneAround(l: Label, rest: string)
    ensures var head, v := l.name + ['=', '"'], EscapeOnce(l.value);
      RenderOne(l) == head + (v + ['"']) && RenderOne(l) + rest == head + (v + (['"'] + rest))
  {
    EscapeIsOnePass(l.value);
  }

  lemma {:induction false} SeparatorPosition(head: string, v: string, p: nat, l: Label)
    requires ValidName(l.name) && head == l.name + ['=', '"']
    requires p < |head + (v + ['"'])| && (head + (v + ['"']))[p] == SEPARATOR
    ensures |head| <= p < |head| + |v| && v[p - |head|] == SEPARATOR
  {
    NameIsPlain(l.name);
  }

  lemma {:induction false} DropInto(head: string, v: string, closing: string, p: nat)
    requires |head| <= p < |head| + |v|
    ensures (head + (v + closing))[p] == v[p - |head|]
    ensures (head + (v + closing))[p + 1..] == (v + closing)[p - |head| + 1..]
  {
  }

  predicate ValidNames(labels: seq<Label>) { forall i :: 0 <= i < |labels| ==> ValidName(labels[i].name) }

  lemma {:induction false} RenderIsBalanced(labels: seq<Label>)
    requires ValidNames(labels)
    ensures !OddQuotes(Render(labels))
  {
    if |labels| == 1 {
      LabelIsBalanced(labels[0], []);
      assert RenderOne(labels[0]) + [] == Render(labels);
    } else if |labels| > 1 {
      var rest := Render(labels[1..]);
      RenderIsBalanced(labels[1..]);
      LabelIsBalanced(labels[0], [','] + rest);
      assert ([','] + rest)[1..] == rest;
    }
  }

  /** After any separator in rendered labels the quotes are odd. */
  lemma {:induction false} SeparatorLeavesOdd(labels: seq<Label>, p: nat)
    requires ValidNames(labels) && p < |Render(labels)| && Render(labels)[p] == SEPARATOR
    ensures OddQuotes(Render(labels)[p + 1..])
    decreases |labels|
  {
    var one := RenderOne(labels[0]);
    var rest := if |labels| == 1 then [] else [','] + Render(labels[1..]);
    assert Render(labels) == one + rest;
    if p < |one| {
      SeparatorIsQuoted(labels[0], rest, p);
      if |labels| > 1 {
        RenderIsBalanced(labels[1..]);
        assert rest[1..] == Render(labels[1..]);
      }
    } else {
      var q := p - |one| - 1;
      assert rest[p - |one|] == SEPARATOR;
      assert Render(labels[1..])[q] == SEPARATOR;
      SeparatorLeavesOdd(labels[1..], q);
      assert Render(labels)[p + 1..] == Render(labels[1..])[q + 1..];
    }
  }

  lemma {:induction false} TextQuotes(labels: Labels, p: nat)
    requires ValidLabels(labels)
    ensures !OddQuotes(LabelText(labels))
    ensures p < |LabelText(labels)| && LabelText(labels)[p] == SEPARATOR ==> OddQuotes(LabelText(labels)[p + 1..])
  {
    var pairs := Pairs(KeysOf(labels), labels);
    forall i | 0 <= i < |pairs| ensures ValidName(pairs[i].name) { assert KeysOf(labels)[i] in KeysOf(labels); }
    RenderIsBalanced(pairs);
    if p < |Render(pairs)| && Render(pairs)[p] == SEPARATOR { SeparatorLeavesOdd(pairs, p); }
  }

  /** No name can swallow a separator: the text after the first one would have to end a quote it never opened. */
  lemma {:induction false} NamesDoNotOverlap(n: string, a: Labels, m: string, b: Labels)
    requires ValidLabels(a) && ValidLabels(b) && |n| < |m|
    ensures Key(n, a) != Key(m, b)
  {
    if Key(n, a) == Key(m, b) {
      var k := Key(n, a);
      var p := |m| - |n| - 1;
      assert k[|n| + 1..] == LabelText(a) && k[|m| + 1..] == LabelText(b) && k[|m|] == SEPARATOR;
      assert LabelText(a)[p] == k[|m|] && LabelText(a)[p + 1..] == LabelText(b);
      TextQuotes(a, p);
      TextQuotes(b, 0);
      assert false;
    }
  }

  /** Two series never share a key, whatever their metric names. */
  lemma {:induction false} KeyInjective(n: string, a: Labels, m: string, b: Labels)
    requires ValidLabels(a) && ValidLabels(b) && Key(n, a) == Key(m, b)
    ensures n == m && a == b
  {
    if |n| < |m| { NamesDoNotOverlap(n, a, m, b); }
    if |m| < |n| { NamesDoNotOverlap(m, b, n, a); }
    var k := Key(n, a);
    assert k[..|n|] == n && k[..|m|] == m;
    assert k[|n| + 1..] == LabelText(a) == LabelText(b);
    LabelTextInjective(a, b);
  }

  /** Over every run of calls the stored samples are those of independent series: none reads or writes another. */
  lemma {:induction false} SeriesAreIndependent(ops: seq<Op>, name: string, labels: Labels)
    requires ValidLabels(labels)
    ensures Lookup(ApplyAll(ops), Key(name, labels)) == SeriesAfter(ops, name, labels)
  {
    if |ops| > 0 {
      var op := ops[|ops| - 1];
      SeriesAreIndependent(ops[..|ops| - 1], name, labels);
      if Accepted(op) && Key(TrimSpace(op.name), op.labels) == Key(name, labels) {
        KeyInjective(TrimSpace(op.name), op.labels, name, labels);
      }
    }
  }

  /** A call has an effect when its name holds more than spaces and its label names are valid. */
  lemma {:induction false} AcceptedIff(op: Op)
    ensures Accepted(op) <==> (exists i :: 0 <= i < |op.name| && !IsSpace(op.name[i])) && ValidLabels(op.labels)
  {
    TrimSpaceEmptyIff(op.name);
  }

  /** Setting a metric with a name and valid labels stores exactly what was set, whatever was there. */
  lemma {:induction false} SetTakesEffect(ops: seq<Op>, op: Op)
    requires op.Set? && Accepted(op)
    ensures var name := TrimSpace(op.name);
      SeriesAfter(ops + [op], name, op.labels) == Some(Sample(name, op.kind, LabelText(op.labels), op.value))
  {
    assert (ops + [op])[..|ops|] == ops;
  }

  /** The sample after n more increments. */
  function Raised(before: Option<Sample>, start: Sample, n: nat): Option<Sample> {
    if n == 0 then before
    else if before.Some? then Some(before.value.(value := before.value.value + n))
    else Some(start.(value := n))
  }

  /** The samples of one series after the first k calls, for each k. */
  ghost function Samples(all: seq<Op>, name: string, labels: Labels): (samples: seq<Option<Sample>>)
    ensures |samples| == |all| + 1
  {
    seq(|all| + 1, k requires 0 <= k <= |all| => SeriesAfter(all[..k], name, labels))
  }

  lemma {:induction false} SampleAt(all: seq<Op>, name: string, labels: Labels, k: nat)
    requires k <= |all|
    ensures Samples(all, name, labels)[k] == SeriesAfter(all[..k], name, labels)
    ensures k == |all| ==> Samples(all, name, labels)[k] == SeriesAfter(all, name, labels)
  {
    if k == |all| { assert all[..k] == all; }
  }

  ghost predicate Follows(samples: seq<Option<Sample>>, start: Sample, k: nat) {
    k + 1 < |samples| && samples[k + 1] == Some(Bumped(samples[k], start))
  }

  lemma {:induction false} IncrementFollows(all: seq<Op>, op: Op, start: Sample, k: nat)
    requires op.Inc? && Accepted(op) && start == Sample(TrimSpace(op.name), "counter", LabelText(op.labels), 1)
    requires k < |all| && all[k] == op
    ensures Follows(Samples(all, TrimSpace(op.name), op.labels), start, k)
  {
    SampleAt(all, TrimSpace(op.name), op.labels, k);
    SampleAt(all, TrimSpace(op.name), op.labels, k + 1);
    assert all[..k + 1][..k] == all[..k];
  }

  lemma {:induction false} SamplesRise(
    samples: seq<Option<Sample>>, start: Sample, first: nat, last: nat, n: nat,
    before: Option<Sample>, after: Option<Sample>)
    requires start.value == 1 && first + n == last < |samples| && before == samples[first] && after == samples[last]
    requires forall k :: first <= k < last ==> Follows(samples, start, k)
    requires (if before.Some? then before.value.value else 0) + n <= 0x7FFF_FFFF_FFFF_FFFF
    ensures after == Raised(before, start, n)
    decreases n
  {
    if n > 0 {
      SamplesRise(samples, start, first, last - 1, n - 1, before, samples[last - 1]);
      assert Follows(samples, start, last - 1);
    }
  }

  /** n increments in a row add n: to the sample that was there before, or to nothing as a new counter. */
  lemma {:induction false} IncrementsAddUp(
    all: seq<Op>, op: Op, n: nat, start: Sample, before: Option<Sample>, after: Option<Sample>)
    requires op.Inc? && Accepted(op) && start == Sample(TrimSpace(op.name), "counter", LabelText(op.labels), 1)
    requires n <= |all| && forall i :: |all| - n <= i < |all| ==> all[i] == op
    requires before == SeriesAfter(all[..|all| - n], TrimSpace(op.name), op.labels)
    requires after == SeriesAfter(all, TrimSpace(op.name), op.labels)
    requires (if before.Some? then before.value.value else 0) + n <= 0x7FFF_FFFF_FFFF_FFFF
    ensures after == Raised(before, start, n)
  {
    var samples := Samples(all, TrimSpace(op.name), op.labels);
    SampleAt(all, TrimSpace(op.name), op.labels, |all| - n);
    SampleAt(all, TrimSpace(op.name), op.labels, |all|);
    forall k | |all| - n <= k < |all| ensures Follows(samples, start, k) {
      IncrementFollows(all, op, start, k);
    }
    SamplesRise(samples, start, |all| - n, |all|, n, before, after);
  }

  lemma {:induction false} ValidNameExamples()
    ensures ValidName("le_2") && ValidName("_Z") && !ValidName("2le") && !ValidName("a-b") && !ValidName("")
  {
    var minus := "a-b";
    assert minus[1] == '-';
  }

  /** Every stored sample has a name, so an empty name marks an absent sample. */
  ghost predicate Named(m: map<string, Sample>) { forall k :: k in m ==> m[k].name != "" }

  lemma {:induction false} ApplyIs(m: map<string, Sample>, op: Op, key: string)
    requires Accepted(op) && key == Key(TrimSpace(op.name), op.labels)
    ensures Apply(m, op) == m[key := NewSample(Lookup(m, key), op)]
  {
  }

  /** Every other series of the metric reads as before. */
  ghost predicate OthersKept(before: map<string, Sample>, after: map<string, Sample>, name: string, labels: Labels) {
    forall other :: ValidLabels(other) && other != labels ==>
      Lookup(after, Key(name, other)) == Lookup(before, Key(name, other))
  }

  lemma {:induction false} OthersUntouched(m: map<string, Sample>, name: string, labels: Labels, sample: Sample)
    requires ValidLabels(labels)
    ensures OthersKept(m, m[Key(name, labels) := sample], name, labels)
  {
    forall other | ValidLabels(other) && other != labels ensures Key(name, other) != Key(name, labels) {
      if Key(name, other) == Key(name, labels) {
        KeyInjective(name, other, name, labels);
      }
    }
  }

  class Metrics {
    var labeled: map<string, Sample>

    ghost predicate Valid() reads this { Named(labeled) }

    constructor ()
      ensures Valid() && labeled == ApplyAll([])
    {
      labeled := map[];
    }

    /** IncLabeledCounter. */
    method IncLabeledCounter(name: string, labels: Labels)
      requires Valid()
      modifies this
      ensures Valid() && labeled == Apply(old(labeled), Inc(name, labels))
      ensures OthersKept(old(labeled), labeled, TrimSpace(name), labels)
    {
      var trimmed := TrimSpace(name);
      if trimmed == "" {
        return;
      }
      var text, ok := PrometheusLabels(labels);
      if !ok {
        return;
      }
      var key := trimmed + [SEPARATOR] + text;
      var sample := if key in labeled then labeled[key] else Sample("", "", "", 0);
      if sample.name == "" {
        sample := Sample(trimmed, "counter", text, 0);
      }
      sample := sample.(value := Increment(sample.value));
      ApplyIs(labeled, Inc(name, labels), key);
      assert sample == NewSample(Lookup(labeled, key), Inc(name, labels));
      OthersUntouched(labeled, trimmed, labels, sample);
      labeled := labeled[key := sample];
    }

    /** setLabeledMetric. */
    method SetLabeledMetric(name: string, kind: string, labels: Labels, value: int)
      requires Valid()
      modifies this
      ensures Valid() && labeled == Apply(old(labeled), Set(name, kind, labels, value))
      ensures OthersKept(old(labeled), labeled, TrimSpace(name), labels)
    {
      var trimmed := TrimSpace(name);
      if trimmed == "" {
        return;
      }
      var text, ok := PrometheusLabels(labels);
      if !ok {
        return;
      }
      var key := trimmed + [SEPARATOR] + text;
      ApplyIs(labeled, Set(name, kind, labels, value), key);
      OthersUntouched(labeled, trimmed, labels, Sample(trimmed, kind, text, value));
      labeled := labeled[key := Sample(trimmed, kind, text, value)];
    }
  }
}
