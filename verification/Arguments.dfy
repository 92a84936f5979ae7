/** request.c: the arguments of a query string or form body. */
module Arguments {
  import opened Text
  import opened Buffers
  import opened LinkedLists
  import opened Headers
  import opened Url

  // ----- what an input denotes -----

  /** What a pointer to the unescaped text denotes. */
  function Decoded(s: string): string { CStr(Unescape(s)) }

  /** A piece on its own: cut at its first `=`; without one, or with nothing behind it, no value. */
  function Field(piece: string): Header {
    var e := IndexOf(piece, '=');
    Header(Decoded(piece[..e]), if e == |piece| then None else Stored(Some(Decoded(piece[e + 1..]))))
  }

  /** A piece is a key, or a key, `=` and a value; each is unescaped and ends at its first NUL, and an empty
      value is none. */
  lemma FieldIs(key: string, value: string)
    requires Without(key, '=', '=')
    ensures Field(key) == Header(CStr(Unescape(key)), None)
    ensures var v := CStr(Unescape(value));
            Field(key + ("=" + value)) == Header(CStr(Unescape(key)), if v == "" then None else Some(v))
  {
    var piece, n := key + ("=" + value), |key|;
    FirstFromIs(key, 0, '=', '=', n);
    FirstFromIs(piece, 0, '=', '=', n);
    assert key[..n] == key && piece[..n] == key && piece[n + 1..] == value;
  }

  /** Where the piece at position `start` ends, and where its key ends. */
  function PieceEnd(s: string, start: nat): (k: nat)
    requires start <= |s|
    ensures start <= k <= |s|
  {
    FirstFrom(s, start, '&', ';')
  }

  function KeyEnd(s: string, start: nat): (k: nat)
    requires start <= |s|
    ensures start <= k <= PieceEnd(s, start)
  {
    if FirstFrom(s, start, '=', '=') < PieceEnd(s, start) then FirstFrom(s, start, '=', '=') else PieceEnd(s, start)
  }

  function KeyAt(s: string, start: nat): string
    requires start <= |s|
  {
    Decoded(Copied(s, start, KeyEnd(s, start)))
  }

  /** The key and value of the piece at position `start`. */
  function FieldAt(s: string, start: nat): Header
    requires start <= |s|
  {
    var e, k := KeyEnd(s, start), PieceEnd(s, start);
    Header(KeyAt(s, start), if e == k then None else Stored(Some(Decoded(Copied(s, e + 1, k)))))
  }

  /** The positions at which pieces start, from `start` on; the end of the text starts none. */
  function PieceStarts(s: string, start: nat): (starts: seq<int>)
    requires start <= |s|
    ensures forall i :: 0 <= i < |starts| ==> 0 <= starts[i] <= |s|
    decreases |s| - start
  {
    if start == |s| then []
    else
      var k := PieceEnd(s, start);
      if k == |s| then [start] else [start] + PieceStarts(s, k + 1)
  }

  /** The arguments an input denotes. */
  ghost function ArgumentsOf(s: string): (args: seq<Header>) {
    var starts := PieceStarts(s, 0);
    seq(|starts|, i requires 0 <= i < |starts| => FieldAt(s, starts[i]))
  }

  ghost predicate NoEmptyKey(s: string) {
    var starts := PieceStarts(s, 0);
    forall i {:trigger KeyAt(s, starts[i])} :: 0 <= i < |starts| ==> KeyAt(s, starts[i]) != ""
  }

  // ----- the same by splitting -----

  lemma {:induction false} FirstInRange(s: string, start: nat, k: nat, i: nat, c: char)
    requires start + i <= k <= |s|
    ensures FirstFrom(s[start..k], i, c, c) ==
              (if FirstFrom(s, start + i, c, c) < k then FirstFrom(s, start + i, c, c) else k) - start
    decreases k - start - i
  {
    if start + i < k && s[start + i] != c { FirstInRange(s, start, k, i + 1, c); }
  }

  /** A field only depends on its own piece. */
  lemma FieldIsLocal(s: string, start: nat)
    requires start <= |s|
    ensures FieldAt(s, start) == Field(Copied(s, start, PieceEnd(s, start)))
  {
    var k, e := PieceEnd(s, start), KeyEnd(s, start);
    var piece := s[start..k];
    FirstInRange(s, start, k, 0, '=');
    assert IndexOf(piece, '=') == e - start;
    CopiedIsSlice(s, start, k);
    CopiedIsSlice(s, start, e);
    assert piece[..e - start] == s[start..e];
    if e < k {
      CopiedIsSlice(s, e + 1, k);
      assert piece[e - start + 1..] == s[e + 1..k];
    }
  }

  /** The pieces that start at these positions; of all pieces only a last empty one does not count. */
  predicate AreSplit(s: string, starts: seq<int>, pieces: seq<string>) {
    && |starts| <= |pieces| <= |starts| + 1 && pieces != []
    && (forall i :: 0 <= i < |starts| ==> IsPiece(s, starts[i], pieces[i]))
    && (|starts| == |pieces| <==> pieces[|pieces| - 1] != "")
  }

  predicate IsPiece(s: string, start: int, piece: string) {
    0 <= start <= |s| && piece == Copied(s, start, PieceEnd(s, start))
  }

  lemma AreSplitCons(s: string, start: int, piece: string, starts: seq<int>, pieces: seq<string>)
    requires IsPiece(s, start, piece) && AreSplit(s, starts, pieces)
    ensures AreSplit(s, [start] + starts, [piece] + pieces)
  {}

  /** The pieces are those between the separators, except that a last empty one does not count. */
  lemma {:induction false} PiecesAreSplit(s: string, start: nat)
    requires start <= |s|
    ensures AreSplit(s, PieceStarts(s, start), SplitFrom(s, start, '&', ';'))
    decreases |s| - start
  {
    var k := PieceEnd(s, start);
    if start < |s| && k < |s| {
      PiecesAreSplit(s, k + 1);
      AreSplitCons(s, start, Copied(s, start, k), PieceStarts(s, k + 1), SplitFrom(s, k + 1, '&', ';'));
    }
  }

  /** The arguments are the fields of the pieces between the separators `&` and `;`, in order; a last
      piece that is empty, and no other, is left out. */
  lemma ArgumentsAreFields(s: string)
    ensures var pieces, args := Split(s, '&', ';'), ArgumentsOf(s);
            && |args| <= |pieces| <= |args| + 1
            && (forall i :: 0 <= i < |args| ==> args[i] == Field(pieces[i]))
            && (|args| == |pieces| <==> pieces[|pieces| - 1] != "")
  {
    PiecesAreSplit(s, 0);
    forall i | 0 <= i < |ArgumentsOf(s)| ensures ArgumentsOf(s)[i] == Field(Split(s, '&', ';')[i]) {
      assert IsPiece(s, PieceStarts(s, 0)[i], Split(s, '&', ';')[i]);
      FieldIsLocal(s, PieceStarts(s, 0)[i]);
    }
  }

  // ----- the tokenizer -----

  lemma {:induction false} FirstIsMin(s: string, i: nat, a: char, b: char)
    requires i <= |s|
    ensures var ka, kb := FirstFrom(s, i, a, a), FirstFrom(s, i, b, b);
            FirstFrom(s, i, a, b) == if ka < kb then ka else kb
    decreases |s| - i
  {
    if i < |s| && s[i] != a && s[i] != b { FirstIsMin(s, i + 1, a, b); }
  }

  /** Cuts the piece at `ptr` by overwriting its first `=` and its separator. */
  method CutPiece(args: array<char>, ptr: nat, ghost s: string) returns (value: Option<nat>, next: Option<nat>)
    requires Spans(args, s, ptr, |s|)
    modifies args
    ensures var e, k := KeyEnd(s, ptr), PieceEnd(s, ptr);
            && Spans(args, s, ptr, e)
            && (if e == k then value == None else value == Some(e + 1) && Spans(args, s, e + 1, k))
            && (if k == |s| then next == None else next == Some(k + 1) && Spans(args, s, k + 1, |s|))
  {
    FirstIsMin(s, ptr, '&', ';');
    var equals := StrChr(args, ptr, '=', s);
    var amp := StrChr(args, ptr, '&', s);
    var semi := StrChr(args, ptr, ';', s);
    ghost var from := ptr;
    if equals.Some? && (amp.None? || equals.value < amp.value) && (semi.None? || equals.value < semi.value) {
      Cut(args, equals.value, ptr, s, |s|);
      value := Some(equals.value + 1);
      from := equals.value + 1;
    } else {
      value := None;
    }
    if amp.Some? || semi.Some? {
      var end := if amp.Some? && (semi.None? || amp.value < semi.value) then amp.value else semi.value;
      Cut(args, end, from, s, |s|);
      next := Some(end + 1);
    } else {
      next := None;
    }
  }

  method DecodeText(raw: string) returns (text: string)
    requires IsCString(raw)
    ensures text == Decoded(raw)
  {
    var buffer := UrlUnescape(raw);
    text := StringOf(buffer, Decoded(raw));
  }

  /** The decoded text at `ptr`. */
  method Decode(args: array<char>, ptr: nat, ghost s: string, ghost hi: nat) returns (text: string)
    requires Spans(args, s, ptr, hi)
    ensures text == Decoded(Copied(s, ptr, hi))
  {
    var raw := StrDup(args, ptr, s, hi);
    CopiedIsSlice(s, ptr, hi);
    text := DecodeText(raw);
  }

  /** Decodes the key and the value of the piece at `start` and adds them. */
  method AddField(arguments: List<Header>, args: array<char>, start: nat, value: Option<nat>, ghost s: string)
    requires start <= |s| && arguments.Valid() && KeyAt(s, start) != ""
    requires Spans(args, s, start, KeyEnd(s, start))
    requires if KeyEnd(s, start) == PieceEnd(s, start) then value == None
             else value == Some(KeyEnd(s, start) + 1) && Spans(args, s, KeyEnd(s, start) + 1, PieceEnd(s, start))
    modifies arguments, arguments.repr
    ensures arguments.Valid() && fresh(arguments.repr - old(arguments.repr))
    ensures arguments.items == old(arguments.items) + [FieldAt(s, start)]
  {
    var key := Decode(args, start, s, KeyEnd(s, start));
    var text: Option<string> := None;
    if value.Some? {
      var decoded := Decode(args, value.value, s, PieceEnd(s, start));
      text := Some(decoded);
    }
    Headers.Add(arguments, key, text);
  }

  /** Piece n is followed by piece n + 1, or is the last one. */
  lemma {:induction false} NextStart(s: string, start: nat, n: nat)
    requires start <= |s| && n < |PieceStarts(s, start)|
    ensures var starts := PieceStarts(s, start);
            var k := PieceEnd(s, starts[n]);
            if k >= |s| - 1 then n + 1 == |starts| else n + 1 < |starts| && starts[n + 1] == k + 1
    decreases n
  {
    if n > 0 { NextStart(s, PieceEnd(s, start) + 1, n - 1); }
  }

  lemma NextArgument(s: string, n: nat)
    requires n < |PieceStarts(s, 0)|
    ensures |ArgumentsOf(s)| == |PieceStarts(s, 0)|
    ensures ArgumentsOf(s)[..n + 1] == ArgumentsOf(s)[..n] + [FieldAt(s, PieceStarts(s, 0)[n])]
  {}

  /** `ptr` is where the tokenizer stands after n pieces. */
  ghost predicate Standing(s: string, ptr: Option<nat>, n: nat) {
    var starts := PieceStarts(s, 0);
    if n < |starts| then ptr == Some(starts[n] as nat) && starts[n] < |s|
    else n == |starts| && (ptr.Some? ==> ptr.value == |s|)
  }

  /** Handles the piece at `ptr`, which is piece n. */
  method NextField(arguments: List<Header>, args: array<char>, ptr: nat, ghost s: string, ghost n: nat,
                   ghost before: seq<Header>)
    returns (next: Option<nat>)
    requires arguments.Valid() && NoEmptyKey(s) && n < |PieceStarts(s, 0)|
    requires arguments.items == before + ArgumentsOf(s)[..n]
    requires ptr < |s| && Standing(s, Some(ptr), n) && Spans(args, s, ptr, |s|)
    modifies arguments, arguments.repr, args
    ensures arguments.Valid() && fresh(arguments.repr - old(arguments.repr))
    ensures n + 1 <= |PieceStarts(s, 0)| && arguments.items == before + ArgumentsOf(s)[..n + 1]
    ensures Standing(s, next, n + 1) && (next.Some? ==> Spans(args, s, next.value, |s|))
  {
    var value;
    value, next := CutPiece(args, ptr, s);
    assert KeyAt(s, PieceStarts(s, 0)[n]) != "";
    NextStart(s, 0, n);
    NextArgument(s, n);
    Assoc(before, ArgumentsOf(s)[..n], [FieldAt(s, ptr)]);
    AddField(arguments, args, ptr, value, s);
  }

  /** Reads the arguments in a copy of the input, which it cuts as it goes, and appends them in order. */
  method ParseArguments(arguments: List<Header>, input: Option<string>)
    requires arguments.Valid()
    requires input.Some? ==> IsCString(input.value) && NoEmptyKey(input.value)
    modifies arguments, arguments.repr
    ensures arguments.Valid() && fresh(arguments.repr - old(arguments.repr))
    ensures arguments.items == old(arguments.items) + if input.Some? then ArgumentsOf(input.value) else []
  {
    if input.None? { return; }
    ghost var s := input.value;
    var args := BufferOf(input.value);
    var ptr: Option<nat> := Some(0);
    ghost var n := 0;
    while ptr.Some? && args[ptr.value] != '\0'
      invariant arguments.Valid() && fresh(arguments.repr - old(arguments.repr))
      invariant n <= |PieceStarts(s, 0)| && Standing(s, ptr, n)
      invariant arguments.items == old(arguments.items) + ArgumentsOf(s)[..n]
      invariant ptr.Some? ==> Spans(args, s, ptr.value, |s|)
      decreases |PieceStarts(s, 0)| - n
    {
      ptr := NextField(arguments, args, ptr.value, s, n, old(arguments.items));
      n := n + 1;
    }
    assert ArgumentsOf(s)[..n] == ArgumentsOf(s);
  }
}
