/** C strings and the character classes of the C locale.

    A C string is a `string` without NUL.  A buffer that is cut in place is an `array<char>`, and a
    pointer into it is an index. */
module Text {

  datatype Option<+T> = None | Some(value: T)

  predicate IsSpace(c: char) { c == ' ' || '\t' <= c <= '\r' }

  predicate IsUpper(c: char) { 'A' <= c <= 'Z' }

  predicate IsLower(c: char) { 'a' <= c <= 'z' }

  predicate IsAlpha(c: char) { IsUpper(c) || IsLower(c) }

  predicate IsDigit(c: char) { '0' <= c <= '9' }

  function ToUpper(c: char): char { if IsLower(c) then (c as int - 32) as char else c }

  function ToLower(c: char): char { if IsUpper(c) then (c as int + 32) as char else c }

  /** The classes by their codes. */
  lemma CharacterClasses(c: char)
    ensures IsSpace(c) <==> c as int == 32 || 9 <= c as int <= 13
    ensures IsAlpha(c) <==> 65 <= c as int <= 90 || 97 <= c as int <= 122
    ensures IsDigit(c) <==> 48 <= c as int <= 57
  {}

  /** Equal characters, or the two forms of a letter. */
  predicate SameButCase(a: char, b: char) {
    || a == b
    || (65 <= a as int <= 90 && b as int == a as int + 32)
    || (65 <= b as int <= 90 && a as int == b as int + 32)
  }

  lemma LowerIgnoresCase(a: char, b: char)
    ensures ToLower(a) == ToLower(b) <==> SameButCase(a, b)
  {}

  /** The upper-case form, which is no small letter. */
  lemma UpperIsCapital(c: char)
    ensures SameButCase(ToUpper(c), c) && !(97 <= ToUpper(c) as int <= 122)
  {}

  function Upper(s: string): string { seq(|s|, i requires 0 <= i < |s| => ToUpper(s[i])) }

  function Lower(s: string): string { seq(|s|, i requires 0 <= i < |s| => ToLower(s[i])) }

  predicate IsCString(s: string) { forall i :: 0 <= i < |s| ==> s[i] != '\0' }

  /** The characters the URL and header codecs are defined on. */
  predicate IsAscii(s: string) { forall i :: 0 <= i < |s| ==> 1 <= s[i] as int < 128 }

  predicate NoSpace(s: string) { forall i :: 0 <= i < |s| ==> !IsSpace(s[i]) }

  lemma Assoc<T>(a: seq<T>, b: seq<T>, c: seq<T>)
    ensures (a + b) + c == a + (b + c)
  {}

  lemma FirstAndRest<T>(s: seq<T>, k: nat)
    requires k < |s|
    ensures s[k..] == [s[k]] + s[k + 1..]
  {}

  lemma PrefixAndNext<T>(s: seq<T>, k: nat)
    requires k < |s|
    ensures s[..k] + [s[k]] == s[..k + 1]
  {}

  lemma FrontAndLast<T>(s: seq<T>)
    requires s != []
    ensures s[..|s| - 1] + [s[|s| - 1]] == s
  {}

  /** What a char pointer to a buffer starting with s denotes: everything before the first NUL. */
  function CStr(s: string): (r: string)
    ensures IsCString(r)
  {
    if s == "" || s[0] == '\0' then "" else [s[0]] + CStr(s[1..])
  }

  lemma {:induction false} CStrOfCString(s: string, rest: string)
    requires IsCString(s)
    ensures CStr(s) == s
    ensures CStr(s + ['\0'] + rest) == s
  {
    if s == "" {
      assert s + ['\0'] + rest == ['\0'] + rest;
    } else {
      CStrOfCString(s[1..], rest);
      assert (s + ['\0'] + rest)[1..] == s[1..] + ['\0'] + rest;
    }
  }

  /** The first position of s[i..hi] that holds no space; hi if there is none. */
  function SkipSpace(s: string, i: nat, hi: nat): (k: nat)
    requires i <= hi <= |s|
    ensures i <= k <= hi && (k < hi ==> !IsSpace(s[k]))
    decreases hi - i
  {
    if i < hi && IsSpace(s[i]) then SkipSpace(s, i + 1, hi) else i
  }

  /** The end of s[lo..j] without the spaces at its end. */
  function DropSpace(s: string, lo: nat, j: nat): (k: nat)
    requires lo <= j <= |s|
    ensures lo <= k <= j && (k > lo ==> !IsSpace(s[k - 1]))
    decreases j
  {
    if j > lo && IsSpace(s[j - 1]) then DropSpace(s, lo, j - 1) else j
  }

  /** The characters of s from lo up to hi, as `redhttp_strndup` copies them. */
  function Copied(s: string, lo: nat, hi: nat): string
    requires lo <= hi <= |s|
  {
    seq(hi - lo, k requires 0 <= k < hi - lo => s[lo + k])
  }

  lemma CopiedIsSlice(s: string, lo: nat, hi: nat)
    requires lo <= hi <= |s|
    ensures Copied(s, lo, hi) == s[lo..hi]
  {}

  /** s[lo..hi] without the spaces at either end. */
  function TrimRange(s: string, lo: nat, hi: nat): string
    requires lo <= hi <= |s|
  {
    var start := SkipSpace(s, lo, hi);
    Copied(s, start, DropSpace(s, start, hi))
  }

  /** Neither the first nor the last character is a space. */
  predicate IsTrimmed(s: string) {
    s == "" || (!IsSpace(s[0]) && !IsSpace(s[|s| - 1]))
  }

  lemma {:induction false} SkipSpaceIs(s: string, i: nat, hi: nat, k: nat)
    requires i <= k <= hi <= |s| && (k < hi ==> !IsSpace(s[k]))
    requires forall j :: i <= j < k ==> IsSpace(s[j])
    ensures SkipSpace(s, i, hi) == k
    decreases k - i
  {
    if i < k { SkipSpaceIs(s, i + 1, hi, k); }
  }

  lemma {:induction false} SkipSpaceSpec(s: string, i: nat, hi: nat)
    requires i <= hi <= |s|
    ensures forall j :: i <= j < SkipSpace(s, i, hi) ==> IsSpace(s[j])
    decreases hi - i
  {
    if i < hi && IsSpace(s[i]) { SkipSpaceSpec(s, i + 1, hi); }
  }

  lemma {:induction false} DropSpaceIs(s: string, lo: nat, j: nat, k: nat)
    requires lo <= k <= j <= |s| && (k > lo ==> !IsSpace(s[k - 1]))
    requires forall i :: k <= i < j ==> IsSpace(s[i])
    ensures DropSpace(s, lo, j) == k
    decreases j
  {
    if k < j { DropSpaceIs(s, lo, j - 1, k); }
  }

  lemma {:induction false} DropSpaceSpec(s: string, lo: nat, j: nat)
    requires lo <= j <= |s|
    ensures forall i :: DropSpace(s, lo, j) <= i < j ==> IsSpace(s[i])
    decreases j
  {
    if j > lo && IsSpace(s[j - 1]) { DropSpaceSpec(s, lo, j - 1); }
  }

  lemma {:induction false} DropsAtMost(s: string, lo: nat, j: nat)
    requires lo < j <= |s| && !IsSpace(s[lo])
    ensures DropSpace(s, lo, j) > lo
    decreases j
  {
    if IsSpace(s[j - 1]) { DropsAtMost(s, lo, j - 1); }
  }

  /** Trimming removes a run of spaces at each end and leaves no space at either. */
  lemma TrimSpec(s: string, lo: nat, hi: nat) returns (i: nat, j: nat)
    requires lo <= hi <= |s|
    ensures IsTrimmed(TrimRange(s, lo, hi))
    ensures lo <= i <= j <= hi && TrimRange(s, lo, hi) == s[i..j]
    ensures forall k :: lo <= k < i || j <= k < hi ==> IsSpace(s[k])
  {
    i := SkipSpace(s, lo, hi);
    SkipSpaceSpec(s, lo, hi);
    j := DropSpace(s, i, hi);
    DropSpaceSpec(s, i, hi);
    CopiedIsSlice(s, i, j);
  }

  /** Position of the first occurrence of a or b in s, not before position i; |s| if there is none. */
  function FirstFrom(s: string, i: nat, a: char, b: char): (k: nat)
    requires i <= |s|
    ensures i <= k <= |s| && (k < |s| ==> s[k] == a || s[k] == b)
    decreases |s| - i
  {
    if i == |s| || s[i] == a || s[i] == b then i else FirstFrom(s, i + 1, a, b)
  }

  function IndexOf(s: string, c: char): (k: nat)
    ensures k <= |s|
  {
    FirstFrom(s, 0, c, c)
  }

  lemma {:induction false} FirstFromIs(s: string, i: nat, a: char, b: char, k: nat)
    requires i <= k <= |s| && (k < |s| ==> s[k] == a || s[k] == b)
    requires forall j :: i <= j < k ==> s[j] != a && s[j] != b
    ensures FirstFrom(s, i, a, b) == k
    decreases |s| - i
  {
    if i < k { FirstFromIs(s, i + 1, a, b, k); }
  }

  lemma {:induction false} FirstFromSpec(s: string, i: nat, a: char, b: char)
    requires i <= |s|
    ensures forall j :: i <= j < FirstFrom(s, i, a, b) ==> s[j] != a && s[j] != b
    decreases |s| - i
  {
    if i < |s| && s[i] != a && s[i] != b { FirstFromSpec(s, i + 1, a, b); }
  }

  /** Positions shift with a prefix. */
  lemma {:induction false} FirstFromShift(prefix: string, s: string, i: nat, a: char, b: char)
    requires i <= |s|
    ensures FirstFrom(prefix + s, |prefix| + i, a, b) == |prefix| + FirstFrom(s, i, a, b)
    decreases |s| - i
  {
    if i < |s| && s[i] != a && s[i] != b { FirstFromShift(prefix, s, i + 1, a, b); }
  }

  predicate Without(s: string, a: char, b: char) { forall i :: 0 <= i < |s| ==> s[i] != a && s[i] != b }

  /** The pieces of s[start..] between the separators a and b: one more than there are separators. */
  function SplitFrom(s: string, start: nat, a: char, b: char): (pieces: seq<string>)
    requires start <= |s|
    ensures |pieces| > 0
    decreases |s| - start
  {
    var k := FirstFrom(s, start, a, b);
    if k == |s| then [Copied(s, start, k)] else [Copied(s, start, k)] + SplitFrom(s, k + 1, a, b)
  }

  function Split(s: string, a: char, b: char): (pieces: seq<string>)
    ensures |pieces| > 0
  {
    SplitFrom(s, 0, a, b)
  }

  /** The pieces from position k on with sep between them. */
  function JoinFrom(pieces: seq<string>, k: nat, sep: char): string
    requires k <= |pieces|
    decreases |pieces| - k
  {
    if k == |pieces| then ""
    else if k + 1 == |pieces| then pieces[k]
    else pieces[k] + [sep] + JoinFrom(pieces, k + 1, sep)
  }

  /** Does s[i..] start with t? */
  predicate StartsAt(s: string, i: nat, t: string) {
    i + |t| <= |s| && forall k :: 0 <= k < |t| ==> s[i + k] == t[k]
  }

  lemma StartsAtParts(s: string, i: nat, a: string, b: string)
    requires StartsAt(s, i, a + b)
    ensures StartsAt(s, i, a) && StartsAt(s, i + |a|, b)
  {
    forall k | 0 <= k < |a| ensures s[i + k] == a[k] { assert a[k] == (a + b)[k]; }
    forall k | 0 <= k < |b| ensures s[i + |a| + k] == b[k] { assert s[i + (|a| + k)] == (a + b)[|a| + k]; }
  }

  lemma StartsAtSlice(s: string, i: nat, t: string)
    requires StartsAt(s, i, t)
    ensures s[i..i + |t|] == t
  {}

  lemma StartsAtIff(s: string, t: string)
    ensures StartsAt(s, 0, t) <==> |t| <= |s| && s[..|t|] == t
  {
    if StartsAt(s, 0, t) { StartsAtSlice(s, 0, t); }
    if |t| <= |s| && s[..|t|] == t {
      forall k | 0 <= k < |t| ensures s[0 + k] == t[k] { assert s[..|t|][k] == t[k]; }
    }
  }

  function Join(pieces: seq<string>, sep: char): string { JoinFrom(pieces, 0, sep) }

  /** Every piece but the last has sep behind it. */
  lemma JoinStep(pieces: seq<string>, k: nat, sep: char)
    requires k < |pieces|
    ensures JoinFrom(pieces, k, sep)
              == (pieces[k] + if k + 1 < |pieces| then [sep] else "") + JoinFrom(pieces, k + 1, sep)
  {}

  lemma CopiedShift(prefix: string, s: string, i: nat, k: nat)
    requires i <= k <= |s|
    ensures Copied(prefix + s, |prefix| + i, |prefix| + k) == Copied(s, i, k)
  {}

  lemma {:induction false} SplitShift(prefix: string, s: string, i: nat, a: char, b: char)
    requires i <= |s|
    ensures SplitFrom(prefix + s, |prefix| + i, a, b) == SplitFrom(s, i, a, b)
    decreases |s| - i
  {
    var k := FirstFrom(s, i, a, b);
    FirstFromShift(prefix, s, i, a, b);
    CopiedShift(prefix, s, i, k);
    if k < |s| {
      SplitShift(prefix, s, k + 1, a, b);
    }
  }

  /** A piece without separators, then a separator, splits off the front. */
  lemma SplitFirst(piece: string, sep: char, rest: string, a: char, b: char)
    requires Without(piece, a, b) && (sep == a || sep == b)
    ensures Split(piece + [sep] + rest, a, b) == [piece] + Split(rest, a, b)
  {
    var s := piece + [sep] + rest;
    FirstFromIs(s, 0, a, b, |piece|);
    assert Copied(s, 0, |piece|) == piece;
    SplitShift(piece + [sep], rest, 0, a, b);
  }

  lemma SplitWhole(piece: string, a: char, b: char)
    requires Without(piece, a, b)
    ensures Split(piece, a, b) == [piece]
  {
    FirstFromIs(piece, 0, a, b, |piece|);
    assert Copied(piece, 0, |piece|) == piece;
  }

  lemma FirstFromInFront(s: string, rest: string, i: nat, a: char, b: char)
    requires i <= |s| && rest != "" && (rest[0] == a || rest[0] == b)
    ensures FirstFrom(s + rest, i, a, b) == FirstFrom(s, i, a, b)
  {
    FirstFromSpec(s, i, a, b);
    FirstFromIs(s + rest, i, a, b, FirstFrom(s, i, a, b));
  }

  lemma SplitEnd(s: string, sep: char, piece: string, a: char, b: char)
    requires Without(piece, a, b)
    ensures SplitFrom(s + ([sep] + piece), |s| + 1, a, b) == [piece]
  {
    SplitWhole(piece, a, b);
    Assoc(s, [sep], piece);
    SplitShift(s + [sep], piece, 0, a, b);
  }

  lemma CopiedInFront(s: string, rest: string, i: nat, k: nat)
    requires i <= k <= |s|
    ensures Copied(s + rest, i, k) == Copied(s, i, k)
  {}

  /** A separator, then a piece without separators, splits off the end. */
  lemma {:induction false} SplitLast(s: string, i: nat, sep: char, piece: string, a: char, b: char)
    requires i <= |s| && Without(piece, a, b) && (sep == a || sep == b)
    ensures SplitFrom(s + ([sep] + piece), i, a, b) == SplitFrom(s, i, a, b) + [piece]
    decreases |s| - i
  {
    var k := FirstFrom(s, i, a, b);
    FirstFromInFront(s, [sep] + piece, i, a, b);
    CopiedInFront(s, [sep] + piece, i, k);
    if k < |s| {
      SplitLast(s, k + 1, sep, piece, a, b);
      Assoc([Copied(s, i, k)], SplitFrom(s, k + 1, a, b), [piece]);
    } else {
      SplitEnd(s, sep, piece, a, b);
    }
  }

  lemma {:induction false} SplitJoin(pieces: seq<string>, k: nat, sep: char, a: char, b: char)
    requires k < |pieces| && (sep == a || sep == b)
    requires forall i :: 0 <= i < |pieces| ==> Without(pieces[i], a, b)
    ensures Split(JoinFrom(pieces, k, sep), a, b) == pieces[k..]
    decreases |pieces| - k
  {
    if k + 1 == |pieces| {
      SplitWhole(pieces[k], a, b);
    } else {
      SplitJoin(pieces, k + 1, sep, a, b);
      SplitFirst(pieces[k], sep, JoinFrom(pieces, k + 1, sep), a, b);
      assert pieces[k..] == [pieces[k]] + pieces[k + 1..];
    }
  }

  lemma {:induction false} JoinIsCString(pieces: seq<string>, k: nat, sep: char)
    requires k <= |pieces| && sep != '\0' && forall i :: 0 <= i < |pieces| ==> IsCString(pieces[i])
    ensures IsCString(JoinFrom(pieces, k, sep))
    decreases |pieces| - k
  {
    if k + 1 < |pieces| { JoinIsCString(pieces, k + 1, sep); }
  }
}
