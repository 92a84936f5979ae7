/** headers.c: ordered key and value lists, used for headers and for arguments. */
module Headers {
  import opened Text
  import opened Buffers
  import opened LinkedLists

  datatype Header = Header(key: string, value: Option<string>)

  /** Keys are compared without regard to case. */
  predicate SameKey(a: string, b: string) { Lower(a) == Lower(b) }

  /** Keys are equivalent exactly if they have the same characters but for the case of letters. */
  lemma SameKeyIsCaseless(a: string, b: string)
    ensures SameKey(a, b) <==> |a| == |b| && forall i :: 0 <= i < |a| ==> SameButCase(a[i], b[i])
  {
    if SameKey(a, b) {
      forall i | 0 <= i < |a| ensures SameButCase(a[i], b[i]) {
        assert Lower(a)[i] == Lower(b)[i];
        LowerIgnoresCase(a[i], b[i]);
      }
    } else if |a| == |b| {
      var i :| 0 <= i < |a| && Lower(a)[i] != Lower(b)[i];
      LowerIgnoresCase(a[i], b[i]);
    }
  }

  /** An empty value is stored as none. */
  function Stored(value: Option<string>): Option<string> {
    if value.Some? && value.value == "" then None else value
  }

  /** Position of the first header with an equivalent key, from i on; |hs| if there is none. */
  function FindFrom(hs: seq<Header>, i: nat, key: string): (k: nat)
    requires i <= |hs|
    ensures i <= k <= |hs| && (k < |hs| ==> SameKey(key, hs[k].key))
    decreases |hs| - i
  {
    if i == |hs| || SameKey(key, hs[i].key) then i else FindFrom(hs, i + 1, key)
  }

  function Find(hs: seq<Header>, key: string): (k: nat)
    ensures k <= |hs|
  {
    FindFrom(hs, 0, key)
  }

  predicate Has(hs: seq<Header>, key: string) { Find(hs, key) < |hs| }

  function Lookup(hs: seq<Header>, key: string): Option<string> {
    var k := Find(hs, key);
    if k < |hs| then hs[k].value else None
  }

  /** The list after `set`: the first equivalent entry gets the value, or a new entry joins at the end. */
  function Updated(hs: seq<Header>, key: string, value: Option<string>): seq<Header> {
    var k := Find(hs, key);
    if k < |hs| then hs[k := Header(hs[k].key, Stored(value))] else hs + [Header(key, Stored(value))]
  }

  // ----- the list is an ordered association list -----

  lemma {:induction false} FindIs(hs: seq<Header>, i: nat, key: string, k: nat)
    requires i <= k <= |hs| && (k < |hs| ==> SameKey(key, hs[k].key))
    requires forall j :: i <= j < k ==> !SameKey(key, hs[j].key)
    ensures FindFrom(hs, i, key) == k
    decreases k - i
  {
    if i < k { FindIs(hs, i + 1, key, k); }
  }

  lemma {:induction false} FindSpec(hs: seq<Header>, i: nat, key: string)
    requires i <= |hs|
    ensures forall j :: i <= j < FindFrom(hs, i, key) ==> !SameKey(key, hs[j].key)
    decreases |hs| - i
  {
    if i < |hs| && !SameKey(key, hs[i].key) { FindSpec(hs, i + 1, key); }
  }

  /** A lookup only depends on the class of the key, and finds the first entry of that class. */
  lemma LookupIsFirst(hs: seq<Header>, key: string, i: nat)
    requires i < |hs| && SameKey(key, hs[i].key) && forall j :: 0 <= j < i ==> !SameKey(key, hs[j].key)
    ensures Has(hs, key) && Lookup(hs, key) == hs[i].value
  {
    FindIs(hs, 0, key, i);
  }

  /** After `set` the key's class has the new value and every other key its old one. */
  lemma LookupAfterSet(hs: seq<Header>, key: string, value: Option<string>, other: string)
    ensures Lookup(Updated(hs, key, value), other) == if SameKey(key, other) then Stored(value) else Lookup(hs, other)
    ensures Has(Updated(hs, key, value), other) <==> SameKey(key, other) || Has(hs, other)
  {
    var after, k := Updated(hs, key, value), Find(hs, key);
    FindSpec(hs, 0, key);
    FindSpec(hs, 0, other);
    if SameKey(key, other) {
      FindIs(after, 0, other, k);
    } else {
      var o := Find(hs, other);
      FindIs(after, 0, other, if o < |hs| then o else |after|);
    }
  }

  /** `set` adds an entry exactly when the key was absent. */
  lemma CountAfterSet(hs: seq<Header>, key: string, value: Option<string>)
    ensures |Updated(hs, key, value)| == |hs| + if Has(hs, key) then 0 else 1
  {}

  /** `add` never changes what an existing key gives, and gives a new key its value. */
  lemma LookupAfterAdd(hs: seq<Header>, h: Header, other: string)
    ensures Lookup(hs + [h], other) == if Has(hs, other) then Lookup(hs, other)
              else if SameKey(other, h.key) then h.value else None
    ensures Has(hs + [h], other) <==> Has(hs, other) || SameKey(other, h.key)
  {
    FindSpec(hs, 0, other);
    var k := Find(hs, other);
    FindIs(hs + [h], 0, other, if k < |hs| || SameKey(other, h.key) then k else k + 1);
  }

  /** Entries that come first win. */
  lemma LookupInFront(front: seq<Header>, back: seq<Header>, key: string)
    ensures Lookup(front + back, key) == if Has(front, key) then Lookup(front, key) else Lookup(back, key)
  {
    FindSpec(front, 0, key);
    FindSpec(back, 0, key);
    var k := Find(front, key);
    FindIs(front + back, 0, key, if k < |front| then k else |front| + Find(back, key));
  }

  // ----- the operations -----

  /** The character a pointer i characters into s points at. */
  function CharOf(s: string, i: nat): char { if i < |s| then s[i] else '\0' }

  /** Walks both strings until they differ or end. */
  method StrCaseCmp(s1: string, s2: string) returns (r: int)
    requires IsCString(s1) && IsCString(s2)
    ensures r == 0 <==> SameKey(s1, s2)
    ensures r == 0 <==> |s1| == |s2| && forall i :: 0 <= i < |s1| ==> SameButCase(s1[i], s2[i])
  {
    SameKeyIsCaseless(s1, s2);
    var i := 0;
    while true
      invariant 0 <= i <= |s1| && i <= |s2|
      invariant forall j :: 0 <= j < i ==> ToLower(s1[j]) == ToLower(s2[j])
      decreases |s1| - i
    {
      r := ToLower(CharOf(s1, i)) as int - ToLower(CharOf(s2, i)) as int;
      if r != 0 || CharOf(s1, i) == '\0' { break; }
      i := i + 1;
    }
    if r == 0 {
      assert Lower(s1) == Lower(s2);
    } else if |s1| == |s2| {
      assert Lower(s1)[i] != Lower(s2)[i];
    }
  }

  predicate AllCStrings(hs: seq<Header>) {
    forall i :: 0 <= i < |hs| ==> IsCString(hs[i].key)
  }

  method Add(list: List<Header>, key: string, value: Option<string>)
    requires list.Valid() && key != ""
    modifies list, list.repr
    ensures list.Valid() && fresh(list.repr - old(list.repr))
    ensures list.items == old(list.items) + [Header(key, Stored(value))]
    ensures list.items[|old(list.items)|] == Header(key, if value == Some("") then None else value)
  {
    list.Append(Header(key, if value.Some? && |value.value| > 0 then value else None));
  }

  /** The node of the first entry with an equivalent key, or null. */
  method FindNode(list: List<Header>, key: string) returns (it: Node?<Header>)
    requires list.Valid() && AllCStrings(list.items) && IsCString(key)
    ensures it == NodeAt(list.nodes, Find(list.items, key))
  {
    it := list.first;
    ghost var k := 0;
    while it != null
      invariant k <= |list.nodes| && it == NodeAt(list.nodes, k)
      invariant FindFrom(list.items, k, key) == Find(list.items, key)
      decreases |list.nodes| - k
    {
      var r := StrCaseCmp(key, it.data.key);
      if r == 0 { return; }
      it := it.next;
      k := k + 1;
    }
  }

  method Set(list: List<Header>, key: string, value: Option<string>)
    requires list.Valid() && AllCStrings(list.items) && IsCString(key) && key != ""
    modifies list, list.repr
    ensures list.Valid() && fresh(list.repr - old(list.repr))
    ensures list.items == Updated(old(list.items), key, value)
  {
    var it := FindNode(list, key);
    if it != null {
      it.data := Header(it.data.key, if value.Some? && |value.value| > 0 then value else None);
      list.items := list.items[Find(list.items, key) := it.data];
    } else {
      Add(list, key, value);
    }
  }

  method Get(list: List<Header>, key: string) returns (value: Option<string>)
    requires list.Valid() && AllCStrings(list.items) && IsCString(key)
    ensures value == Lookup(list.items, key)
  {
    var it := FindNode(list, key);
    value := if it != null then it.data.value else None;
  }

  method Exists(list: List<Header>, key: string) returns (found: bool)
    requires list.Valid() && AllCStrings(list.items) && IsCString(key)
    ensures found <==> Has(list.items, key)
  {
    var it := FindNode(list, key);
    found := it != null;
  }

  method GetIndex(list: List<Header>, index: nat) returns (entry: Option<Header>)
    requires list.Valid()
    ensures entry == if index < |list.items| then Some(list.items[index]) else None
  {
    var it := list.first;
    var i := 0;
    while it != null
      invariant 0 <= i <= index && i <= |list.nodes| && it == NodeAt(list.nodes, i)
      decreases |list.nodes| - i
    {
      if i == index { return Some(it.data); }
      i := i + 1;
      it := it.next;
    }
    entry := None;
  }

  // ----- the text form -----

  /** What a header line denotes: nothing without a colon, or without anything but space behind it. */
  function LineHeader(line: string): Option<Header> {
    var colon := IndexOf(line, ':');
    if colon == |line| then None
    else
      var value := line[SkipSpace(line, colon + 1, |line|)..];
      if value == "" then None else Some(Header(line[..colon], Some(value)))
  }

  function Appended(hs: seq<Header>, h: Option<Header>): seq<Header> {
    if h.Some? then hs + [h.value] else hs
  }

  /** A header that survives the text form. */
  predicate IsPlainHeader(h: Header) {
    && h.key != "" && IsLineText(h.key) && Without(h.key, ':', ':')
    && h.value.Some? && h.value.value != "" && IsLineText(h.value.value) && !IsSpace(h.value.value[0])
  }

  /** No NUL and no line end. */
  predicate IsLineText(s: string) { IsCString(s) && Without(s, '\r', '\n') }

  /** What `%s` prints for a pointer that may be null, in the C library of GNU. */
  function Printed(value: Option<string>): string { if value.Some? then value.value else "(null)" }

  function HeaderText(h: Header): string { h.key + ": " + Printed(h.value) }

  /** A line with a colon holds the key before it and the value behind it and any space, unless that is empty. */
  lemma LineHolds(key: string, space: string, value: string)
    requires Without(key, ':', ':') && (value != "" ==> !IsSpace(value[0]))
    requires forall i :: 0 <= i < |space| ==> IsSpace(space[i])
    ensures LineHeader(key + ":" + space + value) == if value == "" then None else Some(Header(key, Some(value)))
  {
    var line, n := key + ":" + space + value, |key|;
    FirstFromIs(line, 0, ':', ':', n);
    assert forall k :: n + 1 <= k < n + 1 + |space| ==> line[k] == space[k - n - 1];
    SkipSpaceIs(line, n + 1, |line|, n + 1 + |space|);
    assert line[..n] == key && line[n + 1 + |space|..] == value;
  }

  lemma NoColonHoldsNothing(line: string)
    requires Without(line, ':', ':')
    ensures LineHeader(line) == None
  {
    FirstFromIs(line, 0, ':', ':', |line|);
  }

  /** A header is printed as its key, a colon and a space, its value and a line end. */
  lemma HeaderIsPrinted(key: string, value: string)
    ensures PrintedFrom([Header(key, Some(value))], 0) == key + ": " + value + "\r\n"
    ensures PrintedFrom([Header(key, None)], 0) == key + ": (null)\r\n"
  {
    assert PrintedFrom([Header(key, Some(value))], 1) == "" == PrintedFrom([Header(key, None)], 1);
    assert ": " + "(null)" + "\r\n" == ": (null)\r\n";
  }

  /** Reading a printed header gives it back. */
  lemma LineRoundTrip(h: Header)
    requires IsPlainHeader(h)
    ensures LineHeader(HeaderText(h)) == Some(h)
    ensures IsLineText(HeaderText(h)) && HeaderText(h) != ""
  {
    var line, n := HeaderText(h), |h.key|;
    FirstFromIs(line, 0, ':', ':', n);
    SkipSpaceIs(line, n + 1, |line|, n + 2);
    assert line[..n] == h.key && line[n + 2..] == h.value.value;
  }

  /** Cuts a copy of the line at its first colon. */
  method CutLine(input: string) returns (h: Option<Header>)
    requires IsCString(input)
    ensures h == LineHeader(input)
  {
    var line := BufferOf(input);
    var colon := StrChr(line, 0, ':', input);
    if colon.None? { return None; }
    Cut(line, colon.value, 0, input, |input|);
    var ptr := SkipSpaces(line, colon.value + 1, input, |input|);
    var value := StrDup(line, ptr, input, |input|);
    assert input[ptr..|input|] == input[ptr..];
    if value == "" { return None; }
    var key := StrDup(line, 0, input, colon.value);
    assert input[0..colon.value] == input[..colon.value];
    h := Some(Header(key, Some(value)));
  }

  /** Adds what a header line denotes. */
  method ParseLine(list: List<Header>, input: string)
    requires list.Valid() && IsCString(input)
    requires LineHeader(input).Some? ==> LineHeader(input).value.key != ""
    modifies list, list.repr
    ensures list.Valid() && fresh(list.repr - old(list.repr))
    ensures list.items == Appended(old(list.items), LineHeader(input))
  {
    if |input| < 1 { return; }
    var h := CutLine(input);
    if h.Some? {
      Add(list, h.value.key, h.value.value);
    }
  }

  /** Where `fprintf` appends. */
  class Output {
    var text: string

    constructor ()
      ensures text == ""
    {
      text := "";
    }
  }

  /** The printed lines of the headers from position k on. */
  function PrintedFrom(hs: seq<Header>, k: nat): string
    requires k <= |hs|
    decreases |hs| - k
  {
    if k == |hs| then "" else HeaderText(hs[k]) + "\r\n" + PrintedFrom(hs, k + 1)
  }

  /** Writes every header as a line. */
  method Print(list: List<Header>, socket: Output)
    requires list.Valid()
    modifies socket
    ensures socket.text == old(socket.text) + PrintedFrom(list.items, 0)
  {
    var it := list.first;
    ghost var k := 0;
    while it != null
      invariant k <= |list.nodes| && it == NodeAt(list.nodes, k)
      invariant socket.text + PrintedFrom(list.items, k) == old(socket.text) + PrintedFrom(list.items, 0)
      decreases |list.nodes| - k
    {
      Assoc(socket.text, HeaderText(it.data) + "\r\n", PrintedFrom(list.items, k + 1));
      socket.text := socket.text + (it.data.key + ": " + Printed(it.data.value) + "\r\n");
      it := it.next;
      k := k + 1;
    }
  }
}
