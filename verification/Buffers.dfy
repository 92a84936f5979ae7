/** Character buffers and the C string operations that walk them up to a NUL. */
module Buffers {
  import opened Text

  /** A pointer to the start of the buffer denotes the C string s. */
  ghost predicate Holds(buffer: array<char>, s: string)
    reads buffer
  {
    && |s| < buffer.Length
    && buffer[..|s|] == s
    && buffer[|s|] == '\0'
    && IsCString(s)
  }

  /** In a buffer that was filled with s and may have been cut since, a pointer to position lo denotes
      s[lo..hi]. */
  ghost predicate Spans(buffer: array<char>, s: string, lo: nat, hi: nat)
    reads buffer
  {
    && lo <= hi <= |s| < buffer.Length
    && (forall i :: lo <= i < hi ==> buffer[i] == s[i] != '\0')
    && buffer[hi] == '\0'
  }

  lemma HoldsSpans(buffer: array<char>, s: string)
    requires Holds(buffer, s)
    ensures Spans(buffer, s, 0, |s|)
  {
    forall i | 0 <= i < |s| ensures buffer[i] == s[i] {
      assert buffer[..|s|][i] == s[i];
    }
  }

  /** The string a char pointer denotes, as `strdup` copies it. */
  method StrDup(buffer: array<char>, lo: nat, ghost s: string, ghost hi: nat) returns (copy: string)
    requires Spans(buffer, s, lo, hi)
    ensures copy == s[lo..hi]
  {
    copy := "";
    var i := lo;
    while buffer[i] != '\0'
      invariant lo <= i <= hi && copy == s[lo..i]
      decreases hi - i
    {
      copy := copy + [buffer[i]];
      i := i + 1;
    }
  }

  /** The string a whole buffer denotes. */
  method StringOf(buffer: array<char>, ghost s: string) returns (copy: string)
    requires Holds(buffer, s)
    ensures copy == s
  {
    HoldsSpans(buffer, s);
    copy := StrDup(buffer, 0, s, |s|);
  }

  /** A fresh writable copy of s with its terminator. */
  method BufferOf(s: string) returns (buffer: array<char>)
    requires IsCString(s)
    ensures fresh(buffer) && buffer.Length == |s| + 1
    ensures Spans(buffer, s, 0, |s|)
  {
    buffer := new char[|s| + 1](i requires 0 <= i => if i < |s| then s[i] else '\0');
  }

  /** `strchr` for a character other than NUL: its first position, or None for a null pointer. */
  method StrChr(buffer: array<char>, lo: nat, c: char, ghost s: string) returns (p: Option<nat>)
    requires Spans(buffer, s, lo, |s|) && c != '\0'
    ensures p == if FirstFrom(s, lo, c, c) == |s| then None else Some(FirstFrom(s, lo, c, c))
  {
    var i := lo;
    while buffer[i] != '\0' && buffer[i] != c
      invariant lo <= i <= |s| && FirstFrom(s, i, c, c) == FirstFrom(s, lo, c, c)
      decreases |s| - i
    {
      i := i + 1;
    }
    p := if buffer[i] == c then Some(i) else None;
  }

  /** Overwrites the character at p with NUL: the string at lo ends there, and another starts behind. */
  method Cut(buffer: array<char>, p: nat, ghost lo: nat, ghost s: string, ghost hi: nat)
    requires Spans(buffer, s, lo, hi) && lo <= p < hi
    modifies buffer
    ensures Spans(buffer, s, lo, p) && Spans(buffer, s, p + 1, hi)
    ensures forall i :: 0 <= i < buffer.Length && i != p ==> buffer[i] == old(buffer[i])
  {
    buffer[p] := '\0';
  }

  /** Advances a pointer over spaces. */
  method SkipSpaces(buffer: array<char>, lo: nat, ghost s: string, ghost hi: nat) returns (ptr: nat)
    requires Spans(buffer, s, lo, hi)
    ensures ptr == SkipSpace(s, lo, hi)
  {
    ptr := lo;
    while IsSpace(buffer[ptr])
      invariant lo <= ptr <= hi && SkipSpace(s, ptr, hi) == SkipSpace(s, lo, hi)
      decreases hi - ptr
    {
      ptr := ptr + 1;
    }
  }

  /** `memcpy` of t to position `at`. */
  method Put(buffer: array<char>, at: nat, t: string)
    requires at + |t| <= buffer.Length
    modifies buffer
    ensures buffer[..at + |t|] == old(buffer[..at]) + t
  {
    for i := 0 to |t|
      invariant buffer[..at + i] == old(buffer[..at]) + t[..i]
    {
      buffer[at + i] := t[i];
      assert buffer[..at + i + 1] == buffer[..at + i] + [t[i]];
      assert t[..i + 1] == t[..i] + [t[i]];
    }
  }
}
