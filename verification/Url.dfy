/** url.c: percent-encoding (sections 2.1 and 2.3 of RFC 3986). */
module Url {
  import opened Text
  import opened Buffers

  const HEX := "0123456789ABCDEF"

  /** The value of a hex digit in either case, -1 for any other character. */
  function HexDecode(c: char): (r: int)
    ensures -1 <= r < 16
  {
    if IsDigit(c) then c as int - '0' as int
    else if 'A' <= c <= 'F' then c as int - 'A' as int + 10
    else if 'a' <= c <= 'f' then c as int - 'a' as int + 10
    else -1
  }

  /** The unreserved characters of RFC 3986. */
  predicate IsUrlSafe(c: char) {
    IsAlpha(c) || IsDigit(c) || c in "-._~"
  }

  /** An escape triple starts s. */
  predicate IsTriple(s: string) {
    |s| >= 3 && s[0] == '%' && HexDecode(s[1]) >= 0 && HexDecode(s[2]) >= 0
  }

  function EscapeChar(c: char): string
    requires c as int < 256
  {
    if IsUrlSafe(c) then [c] else ['%', HEX[c as int / 16], HEX[c as int % 16]]
  }

  function Escape(s: string): string
    requires IsAscii(s)
  {
    if s == "" then "" else EscapeChar(s[0]) + Escape(s[1..])
  }

  function Unescape(s: string): (r: string)
    ensures |r| <= |s|
  {
    if s == "" then ""
    else if IsTriple(s) then [(HexDecode(s[1]) * 16 + HexDecode(s[2])) as char] + Unescape(s[3..])
    else [if s[0] == '+' then ' ' else s[0]] + Unescape(s[1..])
  }

  /** Only unreserved characters and %XX triples. */
  predicate IsEscaped(s: string) {
    s == "" || (IsTriple(s) && IsEscaped(s[3..])) || (IsUrlSafe(s[0]) && IsEscaped(s[1..]))
  }

  lemma HexRoundTrip(d: nat)
    requires d < 16
    ensures HexDecode(HEX[d]) == d
  {}

  lemma UnescapeChar(c: char, rest: string)
    requires 1 <= c as int < 128
    ensures Unescape(EscapeChar(c) + rest) == [c] + Unescape(rest)
  {
    var e := EscapeChar(c) + rest;
    if IsUrlSafe(c) {
      assert e[1..] == rest;
    } else {
      HexRoundTrip(c as int / 16);
      HexRoundTrip(c as int % 16);
      assert e[3..] == rest;
    }
  }

  /** Decoding undoes encoding. */
  lemma {:induction false} RoundTrip(s: string)
    requires IsAscii(s)
    ensures Unescape(Escape(s)) == s
  {
    if s != "" {
      UnescapeChar(s[0], Escape(s[1..]));
      RoundTrip(s[1..]);
    }
  }

  lemma Injective(s: string, t: string)
    requires IsAscii(s) && IsAscii(t) && Escape(s) == Escape(t)
    ensures s == t
  {
    RoundTrip(s);
    RoundTrip(t);
  }

  /** Only characters that an escape may consist of. */
  predicate IsUrlText(s: string) {
    forall i :: 0 <= i < |s| ==> s[i] == '%' || IsUrlSafe(s[i])
  }

  lemma EscapeCharIsText(c: char)
    requires 1 <= c as int < 128
    ensures IsUrlText(EscapeChar(c))
  {}

  lemma {:induction false} EscapeIsText(s: string)
    requires IsAscii(s)
    ensures IsUrlText(Escape(s)) && |s| <= |Escape(s)|
  {
    if s != "" {
      EscapeIsText(s[1..]);
      EscapeCharIsText(s[0]);
    }
  }

  lemma {:induction false} EscapeShape(s: string)
    requires IsAscii(s)
    ensures IsEscaped(Escape(s))
  {
    if s != "" {
      EscapeShape(s[1..]);
      var c, rest := s[0], Escape(s[1..]);
      if IsUrlSafe(c) {
        assert Escape(s)[1..] == rest;
      } else {
        HexRoundTrip(c as int / 16);
        HexRoundTrip(c as int % 16);
        assert Escape(s)[3..] == rest;
      }
    }
  }

  lemma EscapeIsCString(s: string)
    requires IsAscii(s)
    ensures IsCString(Escape(s))
  {
    EscapeIsText(s);
  }

  lemma EscapeFrom(s: string, i: nat)
    requires IsAscii(s) && i < |s|
    ensures Escape(s[i..]) == EscapeChar(s[i]) + Escape(s[i + 1..])
  {
    assert s[i..][1..] == s[i + 1..];
  }

  lemma {:induction false} EscapeSafe(s: string)
    requires IsAscii(s) && forall i :: 0 <= i < |s| ==> IsUrlSafe(s[i])
    ensures Escape(s) == s
  {
    if s != "" { EscapeSafe(s[1..]); }
  }

  lemma {:induction false} UnescapePlain(s: string)
    requires Without(s, '%', '+')
    ensures Unescape(s) == s
  {
    if s != "" { UnescapePlain(s[1..]); }
  }

  /** Writes one escaped character through the moving pointer. */
  method PutEscaped(buffer: array<char>, at: nat, c: char) returns (ptr: nat)
    requires c as int < 256 && at + |EscapeChar(c)| <= buffer.Length
    modifies buffer
    ensures ptr == at + |EscapeChar(c)|
    ensures buffer[..ptr] == old(buffer[..at]) + EscapeChar(c)
  {
    ptr := at;
    if IsUrlSafe(c) {
      buffer[ptr] := c;
      ptr := ptr + 1;
    } else {
      buffer[ptr], buffer[ptr + 1], buffer[ptr + 2] := '%', HEX[c as int / 16], HEX[c as int % 16];
      ptr := ptr + 3;
    }
  }

  /** Counts the length, allocates exactly that, then writes through a moving pointer. */
  method UrlEscape(unescaped: string) returns (escaped: array<char>)
    requires IsAscii(unescaped)
    ensures fresh(escaped) && escaped.Length == |Escape(unescaped)| + 1
    ensures Holds(escaped, Escape(unescaped))
  {
    var len := |unescaped|;
    var encLen := len;
    var i := 0;
    while i < len
      invariant 0 <= i <= len
      invariant encLen + |Escape(unescaped[i..])| == |Escape(unescaped)| + len - i
    {
      EscapeFrom(unescaped, i);
      if !IsUrlSafe(unescaped[i]) {
        encLen := encLen + 2;
      }
      i := i + 1;
    }
    escaped := new char[encLen + 1];
    var ptr := 0;
    i := 0;
    while i < len
      invariant 0 <= i <= len && 0 <= ptr <= encLen
      invariant escaped[..ptr] + Escape(unescaped[i..]) == Escape(unescaped)
    {
      EscapeFrom(unescaped, i);
      Assoc(escaped[..ptr], EscapeChar(unescaped[i]), Escape(unescaped[i + 1..]));
      ptr := PutEscaped(escaped, ptr, unescaped[i]);
      i := i + 1;
    }
    escaped[ptr] := '\0';
    EscapeIsCString(unescaped);
    assert escaped[..ptr] == Escape(unescaped);
  }

  // ----- in literal characters -----

  /** c is the hex digit for d in either case. */
  predicate IsDigitFor(c: char, d: int) {
    0 <= d < 16 && (c == "0123456789ABCDEF"[d] || c == "0123456789abcdef"[d])
  }

  lemma HexDecodeIs(c: char, d: nat)
    requires d < 16
    ensures HexDecode(c) == d <==> IsDigitFor(c, d)
  {}

  /** A `%` and two hex digits of either case decode to the character with that code. */
  lemma TripleIsDecoded(h1: char, h2: char, d1: nat, d2: nat, rest: string)
    requires IsDigitFor(h1, d1) && IsDigitFor(h2, d2)
    ensures Unescape(['%', h1, h2] + rest) == [(d1 * 16 + d2) as char] + Unescape(rest)
  {
    HexDecodeIs(h1, d1);
    HexDecodeIs(h2, d2);
    assert (['%', h1, h2] + rest)[3..] == rest;
  }

  /** Any other `%` stays, a `+` becomes a space, and every other character stays. */
  lemma OthersPass(c: char, rest: string)
    requires c == '%' ==> |rest| < 2 || (forall d :: !IsDigitFor(rest[0], d)) || (forall d :: !IsDigitFor(rest[1], d))
    ensures Unescape([c] + rest) == [if c == '+' then ' ' else c] + Unescape(rest)
  {
    assert ([c] + rest)[1..] == rest;
    if c == '%' && |rest| >= 2 {
      if HexDecode(rest[0]) >= 0 { HexDecodeIs(rest[0], HexDecode(rest[0])); }
      if HexDecode(rest[1]) >= 0 { HexDecodeIs(rest[1], HexDecode(rest[1])); }
    }
  }

  /** The unreserved characters of section 2.3 of RFC 3986. */
  predicate IsUnreserved(c: char) {
    || 65 <= c as int <= 90 || 97 <= c as int <= 122 || 48 <= c as int <= 57
    || c == '-' || c == '.' || c == '_' || c == '~'
  }

  /** An unreserved character stays; any other becomes a `%` and the two capital hex digits of its code. */
  lemma EscapeIs(c: char, rest: string)
    requires 1 <= c as int < 128 && IsAscii(rest)
    ensures IsUnreserved(c) ==> Escape([c] + rest) == [c] + Escape(rest)
    ensures !IsUnreserved(c) ==>
              Escape([c] + rest) ==
                ['%', "0123456789ABCDEF"[c as int / 16], "0123456789ABCDEF"[c as int % 16]] + Escape(rest)
  {
    var s := [c] + rest;
    assert s[1..] == rest && s[0] == c;
  }

  lemma UnescapeFrom(s: string, i: nat)
    requires i < |s|
    ensures IsTriple(s[i..]) ==>
              Unescape(s[i..]) == [(HexDecode(s[i + 1]) * 16 + HexDecode(s[i + 2])) as char] + Unescape(s[i + 3..])
    ensures !IsTriple(s[i..]) ==> Unescape(s[i..]) == [if s[i] == '+' then ' ' else s[i]] + Unescape(s[i + 1..])
  {
    assert s[i..][1..] == s[i + 1..];
    if IsTriple(s[i..]) {
      assert s[i..][3..] == s[i + 3..];
    }
  }

  /** Decodes into a buffer of the input's size; the string it denotes ends at the first NUL written. */
  method UrlUnescape(escaped: string) returns (unescaped: array<char>)
    requires IsCString(escaped)
    ensures fresh(unescaped) && unescaped.Length == |escaped| + 1
    ensures unescaped[..|Unescape(escaped)|] == Unescape(escaped)
    ensures Holds(unescaped, CStr(Unescape(escaped)))
  {
    var len := |escaped|;
    unescaped := new char[len + 1](_ => '\0');
    var ptr := 0;
    var i := 0;
    while i < len
      invariant 0 <= ptr <= i <= len
      invariant Unescape(escaped) == unescaped[..ptr] + Unescape(escaped[i..])
    {
      UnescapeFrom(escaped, i);
      ghost var written := unescaped[..ptr];
      if escaped[i] == '%' {
        if i + 3 > len || HexDecode(escaped[i + 1]) == -1 || HexDecode(escaped[i + 2]) == -1 {
          unescaped[ptr] := escaped[i];
        } else {
          unescaped[ptr] := (HexDecode(escaped[i + 1]) * 16 + HexDecode(escaped[i + 2])) as char;
          i := i + 2;
        }
      } else if escaped[i] == '+' {
        unescaped[ptr] := ' ';
      } else {
        unescaped[ptr] := escaped[i];
      }
      ptr := ptr + 1;
      i := i + 1;
      assert unescaped[..ptr] == written + [unescaped[ptr - 1]];
      Assoc(written, [unescaped[ptr - 1]], Unescape(escaped[i..]));
    }
    unescaped[ptr] := '\0';
    assert unescaped[..ptr] == Unescape(escaped);
    HoldsCStr(unescaped, ptr);
  }

  lemma {:induction false} CStrPrefix(s: string)
    ensures CStr(s) <= s
    ensures |CStr(s)| < |s| ==> s[|CStr(s)|] == '\0'
  {
    if s != "" && s[0] != '\0' { CStrPrefix(s[1..]); }
  }

  lemma HoldsCStr(buffer: array<char>, n: nat)
    requires n < buffer.Length && buffer[n] == '\0'
    ensures Holds(buffer, CStr(buffer[..n]))
  {
    CStrPrefix(buffer[..n]);
  }
}
