/** Decimal numbers in text, on exact values, as `strtod` and `atoi` read them. */
module Numbers {
  import opened Text

  function DigitEnd(s: string, i: nat): (k: nat)
    requires i <= |s|
    ensures i <= k <= |s|
    decreases |s| - i
  {
    if i < |s| && IsDigit(s[i]) then DigitEnd(s, i + 1) else i
  }

  function DigitOf(c: char): nat { if IsDigit(c) then c as int - '0' as int else 0 }

  /** The number that the digits s[i..j] write. */
  function Value(s: string, i: nat, j: nat): nat
    requires i <= j <= |s|
  {
    if i == j then 0 else Value(s, i, j - 1) * 10 + DigitOf(s[j - 1])
  }

  predicate CharAt(s: string, i: nat, c: char) { i < |s| && s[i] == c }

  function SkipSign(s: string, i: nat): (k: nat)
    requires i <= |s|
    ensures i <= k <= |s|
  {
    if CharAt(s, i, '-') || CharAt(s, i, '+') then i + 1 else i
  }

  /** v times ten to the power e. */
  function Scale(v: real, e: int): real
    decreases if e >= 0 then e else -e
  {
    if e > 0 then Scale(v * 10.0, e - 1) else if e < 0 then Scale(v / 10.0, e + 1) else v
  }

  /** The exponent at position i; 0 if there is none, or none with digits. */
  function ExponentAt(s: string, i: nat): int
    requires i <= |s|
  {
    if CharAt(s, i, 'e') || CharAt(s, i, 'E') then
      var k := SkipSign(s, i + 1);
      var v: int := Value(s, k, DigitEnd(s, k));
      if CharAt(s, i + 1, '-') then -v else v
    else 0
  }

  /** Digits, an optional fraction and an optional exponent; None if there is no digit at all. */
  function UnsignedAt(s: string, i: nat): Option<real>
    requires i <= |s|
  {
    var whole := DigitEnd(s, i);
    var start := if CharAt(s, whole, '.') then whole + 1 else whole;
    var end := if start > whole then DigitEnd(s, start) else whole;
    if whole == i && end == start then None
    else Some(Scale(Value(s, i, whole) as real + Scale(Value(s, start, end) as real, start - end), ExponentAt(s, end)))
  }

  /** The number at position i, after optional space and sign. */
  function StrtodAt(s: string, i: nat): Option<real>
    requires i <= |s|
  {
    var j := SkipSpace(s, i, |s|);
    match UnsignedAt(s, SkipSign(s, j))
    case None => None
    case Some(v) => Some(if CharAt(s, j, '-') then -v else v)
  }

  /** The integer at the start of s, after optional space and sign; 0 if there is no digit. */
  function Atoi(s: string): int {
    var j := SkipSpace(s, 0, |s|);
    var k := SkipSign(s, j);
    var v: int := Value(s, k, DigitEnd(s, k));
    if CharAt(s, j, '-') then -v else v
  }

  /** What the cast of a double to int keeps. */
  function Truncated(d: real): int { if d >= 0.0 then d.Floor else -(-d).Floor }

  function Round(d: real): int {
    if d >= 0.0 then Truncated(d + 0.5) else Truncated(d - 0.5)
  }

  /** Rounding gives a nearest integer, and of two the one farther from zero. */
  lemma RoundIsNearest(d: real)
    ensures d >= 0.0 ==> Round(d) as real - 0.5 <= d < Round(d) as real + 0.5
    ensures d < 0.0 ==> Round(d) as real - 0.5 < d <= Round(d) as real + 0.5
  {}

  // ----- decimal text -----

  function DigitChar(d: nat): (c: char)
    requires d < 10
    ensures IsDigit(c) && DigitOf(c) == d
  {
    ('0' as int + d) as char
  }

  /** The decimal text of n. */
  function Decimal(n: nat): (s: string)
    ensures s != ""
  {
    if n < 10 then [DigitChar(n)] else Decimal(n / 10) + [DigitChar(n % 10)]
  }

  lemma {:induction false} DecimalHasDigits(n: nat)
    ensures forall i :: 0 <= i < |Decimal(n)| ==> IsDigit(Decimal(n)[i])
  {
    if n >= 10 { DecimalHasDigits(n / 10); }
  }

  lemma {:induction false} DigitsReach(s: string, i: nat)
    requires i <= |s| && forall j :: i <= j < |s| ==> IsDigit(s[j])
    ensures DigitEnd(s, i) == |s|
    decreases |s| - i
  {
    if i < |s| { DigitsReach(s, i + 1); }
  }

  /** A value only depends on its own digits. */
  lemma {:induction false} ValueOfPrefix(s: string, rest: string, j: nat)
    requires j <= |s|
    ensures Value(s + rest, 0, j) == Value(s, 0, j)
  {
    if j > 0 { ValueOfPrefix(s, rest, j - 1); }
  }

  lemma {:induction false} ValueOfDecimal(n: nat)
    ensures Value(Decimal(n), 0, |Decimal(n)|) == n
  {
    if n < 10 {
      assert Value(Decimal(n), 0, 0) == 0;
    } else {
      ValueOfDecimal(n / 10);
      ValueOfPrefix(Decimal(n / 10), [DigitChar(n % 10)], |Decimal(n / 10)|);
    }
  }

  /** Reading the decimal text of a number gives the number. */
  lemma AtoiOfDecimal(n: nat)
    ensures Atoi(Decimal(n)) == n
  {
    var s := Decimal(n);
    DecimalHasDigits(n);
    SkipSpaceIs(s, 0, |s|, 0);
    DigitsReach(s, 0);
    ValueOfDecimal(n);
  }

  // ----- what the numbers are, in decimal notation -----

  lemma DigitsHaveValue()
    ensures Value("1234567890", 0, 10) == 1234567890
  {
    var s := "1234567890";
    assert Value(s, 0, 0) == 0 && Value(s, 0, 1) == 1 && Value(s, 0, 2) == 12 && Value(s, 0, 3) == 123;
    assert Value(s, 0, 4) == 1234 && Value(s, 0, 5) == 12345 && Value(s, 0, 6) == 123456;
    assert Value(s, 0, 7) == 1234567 && Value(s, 0, 8) == 12345678 && Value(s, 0, 9) == 123456789;
  }

  function Pow10(k: nat): (p: nat)
    ensures p > 0
  {
    if k == 0 then 1 else 10 * Pow10(k - 1)
  }

  lemma DivideTwice(v: real, p: real)
    requires p > 0.0
    ensures v / 10.0 / p == v / (10.0 * p)
  {}

  lemma {:induction false} ScaleDown(v: real, k: nat)
    ensures Scale(v, 0 - k) == v / Pow10(k) as real
    decreases k
  {
    if k > 0 {
      ScaleDown(v / 10.0, k - 1);
      DivideTwice(v, Pow10(k - 1) as real);
    }
  }

  /** The digits s[i..j] are followed by no digit. */
  predicate IsDigitRun(s: string, i: nat, j: nat) {
    i <= j <= |s| && (forall k :: i <= k < j ==> IsDigit(s[k])) && (j < |s| ==> !IsDigit(s[j]))
  }

  lemma {:induction false} DigitEndIs(s: string, i: nat, j: nat)
    requires IsDigitRun(s, i, j)
    ensures DigitEnd(s, i) == j
    decreases j - i
  {
    if i < j { DigitEndIs(s, i + 1, j); }
  }

  /** No exponent starts at position i. */
  predicate NoExponent(s: string, i: nat) { !CharAt(s, i, 'e') && !CharAt(s, i, 'E') }

  /** Space, digits s[p..w], and no fraction, exponent or sign: an integer. */
  lemma IntegerIsRead(s: string, i: nat, p: nat, w: nat)
    requires i <= p < w && IsDigitRun(s, p, w) && (forall k :: i <= k < p ==> IsSpace(s[k]))
    requires !CharAt(s, w, '.') && NoExponent(s, w)
    ensures StrtodAt(s, i) == Some(Value(s, p, w) as real)
  {
    SkipSpaceIs(s, i, |s|, p);
    DigitEndIs(s, p, w);
    assert Value(s, w, w) == 0 && Scale(0.0, 0) == 0.0;
    assert Scale(Value(s, p, w) as real, 0) == Value(s, p, w) as real;
  }

  /** Space, digits s[p..w], a point and digits s[w + 1..f]: a decimal fraction. */
  lemma FractionIsRead(s: string, i: nat, p: nat, w: nat, f: nat)
    requires i <= p <= w < |s| && s[w] == '.' && IsDigitRun(s, p, w) && IsDigitRun(s, w + 1, f) && (p < w || w + 1 < f)
    requires (forall k :: i <= k < p ==> IsSpace(s[k])) && NoExponent(s, f)
    ensures StrtodAt(s, i) == Some(Value(s, p, w) as real + Value(s, w + 1, f) as real / Pow10(f - w - 1) as real)
  {
    SkipSpaceIs(s, i, |s|, p);
    DigitEndIs(s, p, w);
    DigitEndIs(s, w + 1, f);
    ScaleDown(Value(s, w + 1, f) as real, f - w - 1);
    var v := Value(s, p, w) as real + Value(s, w + 1, f) as real / Pow10(f - w - 1) as real;
    assert Scale(v, 0) == v;
  }

  lemma AddZero(n: nat, v: real)
    requires n == 0
    ensures n as real + v == v
  {}

  /** A fraction below one. */
  lemma ProperFractionIsRead(s: string, f: nat)
    requires 2 <= f <= |s| && s[1] == '.' && IsDigitRun(s, 0, 1) && IsDigitRun(s, 2, f) && NoExponent(s, f)
    requires Value(s, 0, 1) == 0
    ensures StrtodAt(s, 0) == Some(Value(s, 2, f) as real / Pow10(f - 2) as real)
  {
    FractionIsRead(s, 0, 0, 1, f);
    AddZero(Value(s, 0, 1), Value(s, 2, f) as real / Pow10(f - 2) as real);
  }

  /** A sign in front of the digits; a minus negates the number. */
  lemma SignIsRead(s: string, i: nat, p: nat)
    requires i <= p < |s| - 1 && (s[p] == '-' || s[p] == '+') && (IsDigit(s[p + 1]) || s[p + 1] == '.')
    requires forall k :: i <= k < p ==> IsSpace(s[k])
    ensures StrtodAt(s, i).Some? <==> StrtodAt(s, p + 1).Some?
    ensures StrtodAt(s, i).Some? ==>
              StrtodAt(s, i).value == if s[p] == '-' then 0.0 - StrtodAt(s, p + 1).value else StrtodAt(s, p + 1).value
  {
    SkipSpaceIs(s, i, |s|, p);
    SkipSpaceIs(s, p + 1, |s|, p + 1);
  }

  /** Anything else is no number. */
  lemma NoNumberIsRead(s: string, i: nat, p: nat)
    requires i <= p <= |s| && forall k :: i <= k < p ==> IsSpace(s[k])
    requires p < |s| ==> !IsSpace(s[p]) && !IsDigit(s[p]) && s[p] != '.' && s[p] != '-' && s[p] != '+'
    ensures StrtodAt(s, i) == None
  {
    SkipSpaceIs(s, i, |s|, p);
  }

  lemma MultiplyTwice(v: real, p: real)
    ensures v * 10.0 * p == v * (10.0 * p)
  {}

  lemma {:induction false} ScaleUp(v: real, k: nat)
    ensures Scale(v, k) == v * Pow10(k) as real
    decreases k
  {
    if k > 0 {
      ScaleUp(v * 10.0, k - 1);
      MultiplyTwice(v, Pow10(k - 1) as real);
    }
  }

  lemma ExponentIs(s: string, w: nat, x: nat, y: nat)
    requires w < |s| && (s[w] == 'e' || s[w] == 'E') && IsDigitRun(s, x, y)
    requires x == if CharAt(s, w + 1, '-') || CharAt(s, w + 1, '+') then w + 2 else w + 1
    ensures ExponentAt(s, w) == if CharAt(s, w + 1, '-') then 0 - Value(s, x, y) else Value(s, x, y)
  {
    DigitEndIs(s, x, y);
  }

  lemma WholeIsScaled(s: string, i: nat, w: nat)
    requires i < w && IsDigitRun(s, i, w) && !CharAt(s, w, '.')
    ensures StrtodAt(s, i) == Some(Scale(Value(s, i, w) as real, ExponentAt(s, w)))
  {
    SkipSpaceIs(s, i, |s|, i);
    DigitEndIs(s, i, w);
    assert Value(s, w, w) == 0 && Scale(0.0, 0) == 0.0;
  }

  /** Digits s[i..w] and an exponent with the digits s[x..y]: scaled by a power of ten. */
  lemma ExponentIsRead(s: string, i: nat, w: nat, x: nat, y: nat)
    requires i < w < |s| && IsDigitRun(s, i, w) && (s[w] == 'e' || s[w] == 'E') && IsDigitRun(s, x, y)
    requires x == if CharAt(s, w + 1, '-') || CharAt(s, w + 1, '+') then w + 2 else w + 1
    ensures var e := Value(s, x, y);
            StrtodAt(s, i) == Some(Scale(Value(s, i, w) as real, if CharAt(s, w + 1, '-') then 0 - e else e))
  {
    WholeIsScaled(s, i, w);
    ExponentIs(s, w, x, y);
  }

  /** The integer that `atoi` reads behind space and a sign; what follows the digits does not matter. */
  lemma AtoiReads(s: string, p: nat, w: nat)
    requires p < |s| && !IsSpace(s[p]) && forall k :: 0 <= k < p ==> IsSpace(s[k])
    requires IsDigitRun(s, if s[p] == '-' || s[p] == '+' then p + 1 else p, w)
    ensures s[p] == '-' ==> Atoi(s) == 0 - Value(s, p + 1, w)
    ensures s[p] == '+' ==> Atoi(s) == Value(s, p + 1, w)
    ensures s[p] != '-' && s[p] != '+' ==> Atoi(s) == Value(s, p, w)
  {
    SkipSpaceIs(s, 0, |s|, p);
    DigitEndIs(s, if s[p] == '-' || s[p] == '+' then p + 1 else p, w);
  }
}
