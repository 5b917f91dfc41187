/** Decimal printing (`%d`, `%0*d`) and scanning (`Sscanf` with `%d`) of 64-bit integers. */
module Decimal {
  import opened Contracts
  import opened Text

  const MIN_INT: int := -0x8000_0000_0000_0000
  const MAX_INT: int := 0x7fff_ffff_ffff_ffff

  predicate InRange(n: int) { MIN_INT <= n <= MAX_INT }

  /** Go's int. */
  type Int = n: int | InRange(n) witness 0

  const INT_COUNT: int := 0x1_0000_0000_0000_0000

  /** Two's-complement wrap-around. */
  function Wrap(n: int): (w: Int)
    ensures InRange(n) ==> w == n
    decreases if n > MAX_INT then n - MAX_INT else if n < MIN_INT then MIN_INT - n else 0
  {
    if n > MAX_INT then Wrap(n - INT_COUNT) else if n < MIN_INT then Wrap(n + INT_COUNT) else n
  }

  /** Wrapping keeps the number modulo the count of ints. */
  lemma {:induction false} WrapIsModulo(n: int)
    ensures Wrap(n) == (n - MIN_INT) % INT_COUNT + MIN_INT
    decreases if n > MAX_INT then n - MAX_INT else if n < MIN_INT then MIN_INT - n else 0
  {
    if n > MAX_INT {
      WrapIsModulo(n - INT_COUNT);
    } else if n < MIN_INT {
      WrapIsModulo(n + INT_COUNT);
    }
  }

  predicate IsDigit(c: char) { '0' <= c <= '9' }

  function DigitChar(d: nat): (c: char)
    requires d < 10
    ensures IsDigit(c) && DigitValue(c) == d
  {
    d as char + '0'
  }

  function DigitValue(c: char): (d: nat)
    requires IsDigit(c)
    ensures d < 10
  {
    c as int - '0' as int
  }

  predicate AllDigits(s: string) { forall i :: 0 <= i < |s| ==> IsDigit(s[i]) }

  function Digits(n: nat): (s: string)
    ensures |s| > 0 && AllDigits(s)
  {
    if n < 10 then [DigitChar(n)] else Digits(n / 10) + [DigitChar(n % 10)]
  }

  function Parse(s: string): (n: int)
    requires AllDigits(s)
    ensures n >= 0
  {
    if |s| == 0 then 0 else Parse(s[..|s| - 1]) * 10 + DigitValue(s[|s| - 1])
  }

  lemma {:induction false} ParseDigits(n: nat)
    ensures Parse(Digits(n)) == n
  {
    if n < 10 {
      assert Parse([]) == 0;
      assert [DigitChar(n)][..0] == [];
    } else {
      ParseDigits(n / 10);
      var s := Digits(n / 10);
      assert (s + [DigitChar(n % 10)])[..|s|] == s;
    }
  }

  function Zeros(k: nat): (s: string)
    ensures |s| == k && AllDigits(s)
  {
    if k == 0 then [] else ['0'] + Zeros(k - 1)
  }

  lemma {:induction false} ParseZeros(k: nat, s: string)
    requires AllDigits(s)
    ensures Parse(Zeros(k) + s) == Parse(s)
    decreases |s|, k
  {
    if |s| > 0 {
      var p := s[..|s| - 1];
      ParseZeros(k, p);
      assert (Zeros(k) + s)[..|Zeros(k) + s| - 1] == Zeros(k) + p;
    } else if k > 0 {
      ParseZeros(k - 1, s);
      var z := Zeros(k - 1);
      AllZeros(k);
      assert (Zeros(k) + s)[..k - 1] == z + s;
    }
  }

  lemma {:induction false} AllZeros(k: nat)
    ensures forall i :: 0 <= i < k ==> Zeros(k)[i] == '0'
    ensures k > 0 ==> Zeros(k)[..k - 1] == Zeros(k - 1)
  {
    if k > 1 { AllZeros(k - 1); }
    if k > 0 {
      forall i | 0 <= i < k ensures Zeros(k)[i] == '0' {
        if i > 0 { assert Zeros(k)[i] == Zeros(k - 1)[i - 1]; }
      }
      if k > 1 {
        assert Zeros(k)[..k - 1] == ['0'] + Zeros(k - 1)[..k - 2];
      }
    }
  }

  function Padding(width: int, used: nat): nat { if width > used then width - used else 0 }

  /** The magnitude, zero-padded to the given number of places. */
  function Magnitude(places: int, m: nat): (s: string)
    ensures |s| > 0 && AllDigits(s)
  {
    Zeros(Padding(places, |Digits(m)|)) + Digits(m)
  }

  lemma ParseMagnitude(places: int, m: nat)
    ensures Parse(Magnitude(places, m)) == m
  {
    ParseDigits(m);
    ParseZeros(Padding(places, |Digits(m)|), Digits(m));
  }

  function Negated(n: int): nat
    requires n < 0
  {
    -n
  }

  function Minus(s: string): string { ['-'] + s }

  /** `%0*d` for a positive width (the sign counts), `%d` otherwise. */
  function Format(width: int, n: int): string {
    if n >= 0 then Magnitude(width, n) else Minus(Magnitude(width - 1, Negated(n)))
  }

  lemma {:induction false} NoZeros(m: nat)
    ensures Magnitude(0, m) == Digits(m) && Magnitude(-1, m) == Digits(m)
  {
    assert Zeros(0) + Digits(m) == Digits(m);
  }

  /** Padding puts zeros behind the sign up to the width, and never cuts. */
  lemma {:induction false} PaddedToWidth(width: int, n: int)
    ensures var plain, signed := Format(0, n), if n < 0 then 1 else 0;
      var zeros := if width > |plain| then width - |plain| else 0;
      Format(width, n) == plain[..signed] + (Zeros(zeros) + plain[signed..])
  {
    if n >= 0 {
      NoZeros(n);
      assert Format(0, n)[..0] == [] && Format(0, n)[0..] == Digits(n);
    } else {
      NoZeros(-n);
      assert Format(0, n) == ['-'] + Digits(-n);
      assert Format(0, n)[..1] == ['-'] && Format(0, n)[1..] == Digits(-n);
    }
  }

  /** Decimal digits, most significant first. */
  lemma {:induction false} FormatExamples()
    ensures Format(0, 305) == "305" && Format(5, 305) == "00305" && Format(5, -70) == "-0070"
  {
    assert Digits(3) == "3" && Digits(7) == "7";
    assert Digits(30) == "30" && Digits(70) == "70";
    assert Digits(305) == "305";
    assert Zeros(0) == "" && Zeros(1) == "0" && Zeros(2) == "00";
  }

  function SkipBlanks(s: string): string {
    if |s| > 0 && IsSpace(s[0]) && s[0] != '\n' then SkipBlanks(s[1..]) else s
  }

  function LeadingDigits(s: string): (d: string)
    ensures d <= s && AllDigits(d)
  {
    if |s| > 0 && IsDigit(s[0]) then [s[0]] + LeadingDigits(s[1..]) else []
  }

  lemma {:induction false} LeadingDigitsOfDigits(s: string)
    requires AllDigits(s)
    ensures LeadingDigits(s) == s
  {
    if |s| > 0 { LeadingDigitsOfDigits(s[1..]); }
  }

  /** An integer token whose sign has been read: at least one digit, and the value must fit. */
  function ScanUnsigned(negative: bool, s: string): Option<Int> {
    var digits := LeadingDigits(s);
    if |digits| == 0 then None
    else Token(negative, Parse(digits))
  }

  function Token(negative: bool, m: int): Option<Int> {
    var n := if negative then -m else m;
    if InRange(n) then Some(n) else None
  }

  /** Sscanf(s, "%d"): blanks, an optional sign, at least one digit; what follows is ignored. */
  function ScanInt(s: string): Option<Int> {
    var t := SkipBlanks(s);
    if |t| > 0 && t[0] == '+' then ScanUnsigned(false, t[1..])
    else if |t| > 0 && t[0] == '-' then ScanUnsigned(true, t[1..])
    else ScanUnsigned(false, t)
  }

  lemma ScanUnsignedDigits(negative: bool, ds: string)
    requires |ds| > 0 && AllDigits(ds)
    ensures ScanUnsigned(negative, ds) == Token(negative, Parse(ds))
  {
    LeadingDigitsOfDigits(ds);
  }

  lemma ScanDigits(ds: string)
    requires |ds| > 0 && AllDigits(ds)
    ensures ScanInt(ds) == Token(false, Parse(ds))
  {
    DigitsAreNotBlank(ds[0]);
    ScanUnsignedDigits(false, ds);
  }

  lemma ScanNegative(ds: string)
    requires |ds| > 0 && AllDigits(ds)
    ensures ScanInt(Minus(ds)) == Token(true, Parse(ds))
  {
    var t := Minus(ds);
    assert SkipBlanks(t) == t;
    assert t[1..] == ds;
    ScanUnsignedDigits(true, ds);
  }

  lemma DigitsAreNotBlank(c: char)
    requires IsDigit(c)
    ensures !IsSpace(c) && c != '+' && c != '-'
  {
  }

  lemma ScanMagnitude(places: int, m: nat)
    ensures ScanInt(Magnitude(places, m)) == Token(false, m)
    ensures ScanInt(Minus(Magnitude(places, m))) == Token(true, m)
  {
    var ds := Magnitude(places, m);
    assert Parse(ds) == m by { ParseMagnitude(places, m); }
    ScanDigits(ds);
    ScanNegative(ds);
  }

  lemma ScanNonNegativeFormat(width: int, n: nat)
    requires InRange(n)
    ensures ScanInt(Format(width, n)) == Some(n)
  {
    ScanMagnitude(width, n);
  }

  lemma ScanNegativeFormat(width: int, n: int)
    requires InRange(n) && n < 0
    ensures ScanInt(Format(width, n)) == Some(n)
  {
    ScanMagnitude(width - 1, Negated(n));
  }

  /** Printing and scanning round-trip, whatever the padding. */
  lemma ScanFormat(width: int, n: int)
    requires InRange(n)
    ensures ScanInt(Format(width, n)) == Some(n)
  {
    if n < 0 { ScanNegativeFormat(width, n); } else { ScanNonNegativeFormat(width, n); }
  }

  lemma FormatInjective(v: int, w: int, m: int, n: int)
    requires InRange(m) && InRange(n) && Format(v, m) == Format(w, n)
    ensures m == n
  {
    ScanFormat(v, m);
    ScanFormat(w, n);
  }
}
