/** genid.c: names for new graphs from a scrambled counter. */
module GenId {
  const ID_LEN := 9

  /** The range of `unsigned long`. */
  const ULONG_RANGE := 0x1_0000_0000_0000_0000

  /** The range of `random()`. */
  const RANDOM_RANGE := 0x8000_0000

  /** Only the low 32 bits of a counter reach its id. */
  const ID_RANGE := 0x1_0000_0000

  function HexDigit(d: nat): char
    requires d < 16
  {
    if d < 10 then ('0' as int + d) as char else ('a' as int + d - 10) as char
  }

  predicate IsHexDigit(c: char) { '0' <= c <= '9' || 'a' <= c <= 'f' }

  function DigitValue(c: char): (d: nat)
    requires IsHexDigit(c)
    ensures d < 16 && HexDigit(d) == c
  {
    if c <= '9' then c as int - '0' as int else c as int - 'a' as int + 10
  }

  /** The loop index at which digit j is written: index 4 holds the dash. */
  function Position(j: nat): nat { if j < 4 then j else j + 1 }

  /** n without its j lowest hex digits. */
  function Shift(n: nat, j: nat): nat { if j == 0 then n else Shift(n, j - 1) / 16 }

  function Nibble(n: nat, j: nat): nat { Shift(n, j) % 16 }

  /** The running sum, modulo 16, of the hex digits of n and the indices they are written at. */
  function Sum(n: nat, j: nat): (r: nat)
    ensures r < 16
  {
    ((if j == 0 then 0 else Sum(n, j - 1)) + Position(j) + Nibble(n, j)) % 16
  }

  /** The character of n's id at index i: digit i or i - 1, or the dash between them. */
  function IdChar(n: nat, i: nat): char {
    if i == 4 then '-' else HexDigit(Sum(n, if i < 4 then i else i - 1))
  }

  /** The id made from counter value n. */
  function Id(n: nat): (s: string)
    ensures |s| == ID_LEN && forall i :: 0 <= i < ID_LEN ==> s[i] == IdChar(n, i)
  {
    seq(ID_LEN, i requires 0 <= i < ID_LEN => IdChar(n, i))
  }

  /** Four hex digits, a dash and four hex digits. */
  predicate IsIdShape(s: string) {
    && |s| == ID_LEN && s[4] == '-'
    && forall i :: 0 <= i < ID_LEN && i != 4 ==> IsHexDigit(s[i])
  }

  function Pow16(k: nat): (p: nat)
    ensures p > 0
  {
    if k == 0 then 1 else 16 * Pow16(k - 1)
  }

  lemma Pow16Of8()
    ensures Pow16(8) == ID_RANGE
  {
    assert Pow16(4) == 0x1_0000;
    assert Pow16(8) == 16 * (16 * (16 * (16 * Pow16(4))));
  }

  // ----- equal ids, equal counters -----

  lemma {:induction false} ShiftBack(n: nat, j: nat)
    ensures Shift(n / 16, j) == Shift(n, j + 1)
  {
    if j > 0 { ShiftBack(n, j - 1); }
  }

  lemma ModSplit(n: nat, p: nat)
    requires p > 0
    ensures n % (16 * p) == 16 * (n / 16 % p) + n % 16
  {
    var q, r := n / 16 / p, 16 * (n / 16 % p) + n % 16;
    assert n == 16 * (n / 16) + n % 16 && n / 16 == p * q + n / 16 % p;
    assert n == (16 * p) * q + r;
    ModUnique(n, 16 * p, q, r);
  }

  lemma ModUnique(n: int, m: int, q: int, r: int)
    requires 0 <= r < m && n == m * q + r
    ensures n % m == r
  {
    var d := n / m - q;
    assert m * d == r - n % m;
    MulBounds(m, d);
  }

  lemma MulBounds(m: int, d: int)
    requires m > 0
    ensures d >= 1 ==> m * d >= m
    ensures d <= -1 ==> m * d <= -m
  {}

  predicate NibblesAgree(n: nat, m: nat, k: nat) {
    k == 0 || (NibblesAgree(n, m, k - 1) && Nibble(n, k - 1) == Nibble(m, k - 1))
  }

  predicate SumsAgree(n: nat, m: nat, k: nat) {
    k == 0 || (SumsAgree(n, m, k - 1) && Sum(n, k - 1) == Sum(m, k - 1))
  }

  lemma {:induction false} NibblesAgreeFromLow(n: nat, m: nat, k: nat)
    ensures NibblesAgree(n, m, k + 1) <==> n % 16 == m % 16 && NibblesAgree(n / 16, m / 16, k)
  {
    assert Nibble(n, 0) == n % 16 && Nibble(m, 0) == m % 16;
    assert NibblesAgree(n, m, 1) <==> Nibble(n, 0) == Nibble(m, 0);
    if k > 0 {
      NibblesAgreeFromLow(n, m, k - 1);
      ShiftBack(n, k - 1);
      ShiftBack(m, k - 1);
    }
  }

  /** The k lowest hex digits agree exactly when the numbers agree modulo 16^k. */
  lemma {:induction false} NibblesDetermine(n: nat, m: nat, k: nat)
    ensures NibblesAgree(n, m, k) <==> n % Pow16(k) == m % Pow16(k)
    decreases k
  {
    if k > 0 {
      ModSplit(n, Pow16(k - 1));
      ModSplit(m, Pow16(k - 1));
      NibblesDetermine(n / 16, m / 16, k - 1);
      NibblesAgreeFromLow(n, m, k - 1);
    }
  }

  lemma SumStep(x: nat, a: nat, b: nat)
    requires a < 16 && b < 16
    ensures (x + a) % 16 == (x + b) % 16 <==> a == b
  {}

  /** Equal running sums up to k mean equal digits up to k. */
  lemma {:induction false} SumsDetermine(n: nat, m: nat, k: nat)
    ensures SumsAgree(n, m, k) <==> NibblesAgree(n, m, k)
  {
    if k > 0 {
      SumsDetermine(n, m, k - 1);
      SumStep((if k == 1 then 0 else Sum(n, k - 2)) + Position(k - 1), Nibble(n, k - 1), Nibble(m, k - 1));
      if k > 1 { assert SumsAgree(n, m, k - 1) ==> Sum(n, k - 2) == Sum(m, k - 2); }
    }
  }

  lemma {:induction false} SumsAgreeAt(n: nat, m: nat, k: nat, j: nat)
    requires SumsAgree(n, m, k) && j < k
    ensures Sum(n, j) == Sum(m, j)
  {
    if j < k - 1 { SumsAgreeAt(n, m, k - 1, j); }
  }

  lemma {:induction false} IdsGiveSums(n: nat, m: nat, k: nat)
    requires Id(n) == Id(m) && k <= 8
    ensures SumsAgree(n, m, k)
  {
    if k > 0 {
      IdsGiveSums(n, m, k - 1);
      assert Id(n)[Position(k - 1)] == Id(m)[Position(k - 1)];
      HexDigitInjective(Sum(n, k - 1), Sum(m, k - 1));
    }
  }

  lemma HexDigitInjective(a: nat, b: nat)
    requires a < 16 && b < 16 && HexDigit(a) == HexDigit(b)
    ensures a == b
  {}

  lemma IdsDetermineSums(n: nat, m: nat)
    ensures Id(n) == Id(m) <==> SumsAgree(n, m, 8)
  {
    if Id(n) == Id(m) { IdsGiveSums(n, m, 8); }
    if SumsAgree(n, m, 8) {
      forall i | 0 <= i < ID_LEN ensures Id(n)[i] == Id(m)[i] {
        if i != 4 { SumsAgreeAt(n, m, 8, if i < 4 then i else i - 1); }
      }
      assert Id(n) == Id(m);
    }
  }

  /** Two ids are equal exactly when their counter values agree modulo 2^32. */
  lemma IdsEqual(n: nat, m: nat)
    ensures Id(n) == Id(m) <==> n % ID_RANGE == m % ID_RANGE
  {
    IdsDetermineSums(n, m);
    SumsDetermine(n, m, 8);
    NibblesDetermine(n, m, 8);
    Pow16Of8();
  }

  /** So no window of 2^32 consecutive counter values repeats an id. */
  lemma NoRepeatInWindow(n: nat, m: nat)
    requires n < m < n + ID_RANGE
    ensures Id(n) != Id(m)
  {
    IdsEqual(n, m);
  }

  // ----- every string of the shape is an id -----

  /** The number with the given hex digits, lowest first, from digit j on. */
  function FromNibbles(d: seq<int>, j: nat): nat
    requires j <= |d| && forall i :: 0 <= i < |d| ==> 0 <= d[i] < 16
    decreases |d| - j
  {
    if j == |d| then 0 else d[j] + 16 * FromNibbles(d, j + 1)
  }

  lemma {:induction false} FromNibblesBelow(d: seq<int>, j: nat)
    requires j <= |d| && forall i :: 0 <= i < |d| ==> 0 <= d[i] < 16
    ensures FromNibbles(d, j) < Pow16(|d| - j)
    decreases |d| - j
  {
    if j < |d| { FromNibblesBelow(d, j + 1); }
  }

  lemma {:induction false} ShiftOfNibbles(d: seq<int>, j: nat)
    requires j <= |d| && forall i :: 0 <= i < |d| ==> 0 <= d[i] < 16
    ensures Shift(FromNibbles(d, 0), j) == FromNibbles(d, j)
  {
    if j > 0 { ShiftOfNibbles(d, j - 1); }
  }

  /** The hex digit that moves the running sum from v's previous value to its next one. */
  function Difference(v: seq<int>, j: nat): (d: int)
    requires j < |v| == 8 && forall i :: 0 <= i < |v| ==> 0 <= v[i] < 16
    ensures 0 <= d < 16
  {
    (v[j] + 32 - (if j == 0 then 0 else v[j - 1]) - Position(j)) % 16
  }

  lemma DifferenceCancels(from: int, to: int, p: int)
    requires 0 <= from < 16 && 0 <= to < 16 && 0 <= p < 16
    ensures (from + p + (to + 32 - from - p) % 16) % 16 == to
  {}

  lemma {:induction false} SumOfDifferences(v: seq<int>, n: nat, j: nat)
    requires j < |v| == 8 && forall i :: 0 <= i < |v| ==> 0 <= v[i] < 16
    requires forall i :: 0 <= i < |v| ==> Nibble(n, i) == Difference(v, i)
    ensures Sum(n, j) == v[j]
  {
    if j > 0 { SumOfDifferences(v, n, j - 1); }
    DifferenceCancels(if j == 0 then 0 else v[j - 1], v[j], Position(j));
  }

  /** A number whose running sums are v. */
  lemma CounterFor(v: seq<int>) returns (n: nat)
    requires |v| == 8 && forall i :: 0 <= i < |v| ==> 0 <= v[i] < 16
    ensures n < ID_RANGE && forall j :: 0 <= j < 8 ==> Sum(n, j) == v[j]
  {
    var d := seq(8, j requires 0 <= j < 8 => Difference(v, j));
    n := FromNibbles(d, 0);
    FromNibblesBelow(d, 0);
    Pow16Of8();
    forall j | 0 <= j < 8 ensures Nibble(n, j) == Difference(v, j) {
      ShiftOfNibbles(d, j);
    }
    forall j | 0 <= j < 8 ensures Sum(n, j) == v[j] {
      SumOfDifferences(v, n, j);
    }
  }

  /** The counter below 2^32 that produces a given id. */
  lemma Unscramble(s: string) returns (n: nat)
    requires IsIdShape(s)
    ensures n < ID_RANGE && Id(n) == s
  {
    var v := seq(8, j requires 0 <= j < 8 => DigitValue(s[Position(j)]) as int);
    n := CounterFor(v);
    forall i | 0 <= i < ID_LEN ensures Id(n)[i] == s[i] {
      if i != 4 {
        var j := if i < 4 then i else i - 1;
        assert Sum(n, j) == v[j] && Position(j) == i;
      }
    }
    assert Id(n) == s;
  }

  /** The ids are exactly the strings of the id shape. */
  lemma IdsCoverShape(s: string)
    ensures IsIdShape(s) <==> exists n: nat :: n < ID_RANGE && Id(n) == s
  {
    if IsIdShape(s) {
      var n := Unscramble(s);
    }
    if n: nat :| n < ID_RANGE && Id(n) == s {
      forall i | 0 <= i < ID_LEN && i != 4 ensures IsHexDigit(s[i]) {
        var j := if i < 4 then i else i - 1;
        assert s[i] == HexDigit(Sum(n, j));
      }
    }
  }

  // ----- the digits in closed form -----

  /** The sum of the hex digits of n up to digit j, lowest first. */
  function DigitSum(n: nat, j: nat): nat {
    n / Pow16(j) % 16 + if j == 0 then 0 else DigitSum(n, j - 1)
  }

  lemma MulParts(a: nat, b: nat, t: nat, u: nat)
    ensures a * (b * t + u) == (a * b) * t + a * u
  {}

  lemma Euclid(n: nat, a: nat)
    requires a > 0
    ensures n == a * (n / a) + n % a
  {}

  lemma Nested(n: nat, a: nat, b: nat, q: nat, r: nat, t: nat, u: nat)
    requires n == a * q + r && q == b * t + u
    ensures n == (a * b) * t + (a * u + r)
  {
    MulParts(a, b, t, u);
  }

  lemma DivideTwice(n: nat, a: nat, b: nat)
    requires a > 0 && b > 0
    ensures n / a / b == n / (a * b)
  {
    Euclid(n, a);
    Euclid(n / a, b);
    Nested(n, a, b, n / a, n % a, n / a / b, n / a % b);
    MulBelow(a, n / a % b, b, n % a);
    DivUnique(n, a * b, n / a / b, a * (n / a % b) + n % a);
  }

  lemma MulBelow(a: nat, u: nat, b: nat, r: nat)
    requires u < b && r < a
    ensures a * u + r < a * b
  {
    assert a * (u + 1) <= a * b;
  }

  lemma DivUnique(n: nat, m: nat, q: nat, r: nat)
    requires r < m && n == m * q + r
    ensures n / m == q
  {
    var d := n / m - q;
    assert m * d == r - n % m;
    MulBounds(m, d);
  }

  lemma {:induction false} ShiftIsDivision(n: nat, j: nat)
    ensures Shift(n, j) == n / Pow16(j)
  {
    if j > 0 {
      ShiftIsDivision(n, j - 1);
      DivideTwice(n, Pow16(j - 1), 16);
    }
  }

  /** The sum of the positions up to digit j's, which skip the dash. */
  function PositionSum(j: nat): nat
    requires j < 8
  {
    [0, 1, 3, 6, 11, 17, 24, 32][j]
  }

  lemma AddLater(x: nat, y: nat)
    ensures (x % 16 + y) % 16 == (x + y) % 16
  {}

  /** Digit j of the id is the sum of the counter's hex digits and of the positions up to it, modulo 16. */
  lemma {:induction false} SumIs(n: nat, j: nat)
    requires j < 8
    ensures Sum(n, j) == (DigitSum(n, j) + PositionSum(j)) % 16
  {
    ShiftIsDivision(n, j);
    var digit := Nibble(n, j);
    assert DigitSum(n, j) == digit + if j == 0 then 0 else DigitSum(n, j - 1);
    if j > 0 {
      SumIs(n, j - 1);
      AddLater(DigitSum(n, j - 1) + PositionSum(j - 1), Position(j) + digit);
      assert PositionSum(j) == PositionSum(j - 1) + Position(j);
    }
  }

  /** The id in closed form. */
  lemma IdIs(n: nat, j: nat)
    requires j < 8
    ensures var digit := (DigitSum(n, j) + PositionSum(j)) % 16;
            Id(n)[if j < 4 then j else j + 1] == "0123456789abcdef"[digit]
    ensures Id(n)[4] == '-'
  {
    SumIs(n, j);
    assert forall d :: 0 <= d < 16 ==> HexDigit(d) == "0123456789abcdef"[d];
  }

  // ----- the generator -----

  /** The counter value an id is made from: a counter of 0 is first seeded. */
  function Used(baseId: nat, random: nat): nat { if baseId == 0 then random else baseId }

  /** The counter of the process. */
  class Generator {
    var baseId: nat

    constructor ()
      ensures baseId == 0
    {
      baseId := 0;
    }

    /** Makes an id from the counter and advances it. */
    method GenId(random: nat) returns (str: array<char>)
      requires baseId < ULONG_RANGE && random < RANDOM_RANGE
      modifies this
      ensures baseId == (Used(old(baseId), random) + 1) % ULONG_RANGE
      ensures fresh(str) && str.Length == ID_LEN + 1
      ensures str[..] == Id(Used(old(baseId), random)) + ['\0']
    {
      if baseId == 0 {
        baseId := random;
      }
      str := WriteId(baseId);
      baseId := (baseId + 1) % ULONG_RANGE;
    }
  }

  /** The digit at index i of the id, which is digit j, and what is left of the counter. */
  method NextDigit(quotient: nat, index: nat, i: nat, ghost n: nat, ghost j: nat) returns (quotient': nat, index': nat)
    requires i == Position(j) && quotient == Shift(n, j) && index == if j == 0 then 0 else Sum(n, j - 1)
    ensures quotient' == Shift(n, j + 1) && index' == Sum(n, j)
  {
    quotient', index' := quotient / 16, (index + i + quotient % 16) % 16;
  }

  /** Writes the id of the counter value, with a dash behind the fourth digit. */
  method WriteId(n: nat) returns (str: array<char>)
    ensures fresh(str) && str.Length == ID_LEN + 1 && str[..] == Id(n) + ['\0']
  {
    str := new char[ID_LEN + 1](_ => '\0');
    var quotient, index, i := n, 0, 0;
    ghost var j := 0;
    while i < ID_LEN
      invariant 0 <= j <= 8 && i == Position(j) && quotient == Shift(n, j)
      invariant index == if j == 0 then 0 else Sum(n, j - 1)
      invariant forall k :: 0 <= k < i ==> str[k] == IdChar(n, k)
      invariant str[ID_LEN] == '\0'
    {
      quotient, index := NextDigit(quotient, index, i, n, j);
      str[i] := HexDigit(index);
      if i == 3 {
        i := i + 1;
        str[i] := '-';
      }
      i := i + 1;
      j := j + 1;
    }
    assert str[..] == Id(n) + ['\0'];
  }
}
