/** request.c: reading a request from its socket. */
module Request {
  import opened Text
  import opened Buffers
  import opened LinkedLists
  import opened Headers
  import opened Lines
  import opened StatusLine
  import opened Numbers
  import Arguments
  import Url

  const BAD_REQUEST := 400
  const CONTENT_TYPE := "Content-Type"
  const CONTENT_LENGTH := "Content-Length"
  const FORM := "application/x-www-form-urlencoded"

  // ----- what a request denotes -----

  function QueryOf(target: string): Option<string> {
    var q := IndexOf(target, '?');
    if q == |target| then None else Some(Copied(target, q + 1, |target|))
  }

  function PathOf(target: string): string { Arguments.Decoded(target[..IndexOf(target, '?')]) }

  ghost function TargetArguments(target: string): seq<Header> {
    if QueryOf(target).Some? then Arguments.ArgumentsOf(QueryOf(target).value) else []
  }

  /** The arguments are where the library asserts that no key is empty. */
  ghost predicate IsTarget(target: string) {
    QueryOf(target).Some? ==> Arguments.NoEmptyKey(QueryOf(target).value)
  }

  predicate HasLine(data: string, pos: nat)
    requires pos <= |data|
  {
    LineAt(data, pos).Some? && LineAt(data, pos).value != ""
  }

  function StatusAt(data: string, pos: nat): Status
    requires pos <= |data| && (HasLine(data, pos) ==> IsDelimited(LineAt(data, pos).value))
  {
    if HasLine(data, pos) then StatusOf(LineAt(data, pos).value) else BadStatus
  }

  /** The headers on the lines from pos on, up to an empty line or the end of the input. */
  function HeadersAt(data: string, pos: nat): seq<Header>
    requires pos <= |data|
    decreases |data| - pos
  {
    if HasLine(data, pos) then
      Appended([], LineHeader(LineAt(data, pos).value)) + HeadersAt(data, AfterLine(data, pos))
    else []
  }

  /** The position behind those lines. */
  function HeadersEnd(data: string, pos: nat): (start: nat)
    requires pos <= |data|
    ensures pos <= start <= |data|
    decreases |data| - pos
  {
    if HasLine(data, pos) then HeadersEnd(data, AfterLine(data, pos)) else AfterLine(data, pos)
  }

  predicate HasPrefix(s: string, prefix: string) { StartsAt(s, 0, prefix) }

  predicate IsOldVersion(version: string) { HasPrefix(version, "0.9") }

  predicate IsPost(name: string) { HasPrefix(name, "POST") }

  /** What the headers say about the content of a POST. */
  datatype Content = Undeclared | Foreign | Form(length: int)

  function Declared(headers: seq<Header>): Content {
    var kind, length := Lookup(headers, CONTENT_TYPE), Lookup(headers, CONTENT_LENGTH);
    if kind.None? || length.None? then Undeclared
    else if HasPrefix(kind.value, FORM) then Form(Atoi(length.value))
    else Foreign
  }

  /** The form text at pos; None unless all of it has arrived. */
  function FormAt(data: string, pos: nat, length: int): Option<string>
    requires pos <= |data|
  {
    if length >= 0 && pos + length <= |data| then Some(CStr(data[pos..pos + length])) else None
  }

  /** No line from pos on has a header with an empty key. */
  predicate AllKeyed(data: string, pos: nat)
    requires pos <= |data|
    decreases |data| - pos
  {
    HasLine(data, pos) ==> IsKeyed(LineAt(data, pos).value) && AllKeyed(data, AfterLine(data, pos))
  }

  predicate IsKeyed(line: string) { LineHeader(line).Some? ==> LineHeader(line).value.key != "" }

  /** The content can be read: its length is an int, for which the buffer is not empty, and no key is empty. */
  ghost predicate IsContent(declared: Content, data: string, pos: nat)
    requires pos <= |data|
  {
    declared.Form? ==>
      && -0x8000_0000 <= declared.length < 0x8000_0000 && declared.length != -1
      && (FormAt(data, pos, declared.length).Some? ==> Arguments.NoEmptyKey(FormAt(data, pos, declared.length).value))
  }

  // What reading a POST's content makes of it: the result, the position behind it, and the arguments in it.

  datatype End = End(result: int, pos: int)

  /** The values of size_t, and the largest object that can be allocated. */
  const SIZE_RANGE := 0x1_0000_0000_0000_0000
  const OBJECT_MAX := 0x7fff_ffff_ffff_ffff

  /** A negative length is no failure: no buffer of that size can be allocated, and nothing is read. */
  function FormEnd(data: string, pos: nat, length: int): (end: End)
    requires pos <= |data|
  {
    if length < 0 then End(0, pos)
    else if FormAt(data, pos, length).Some? then End(0, pos + length) else End(BAD_REQUEST, |data|)
  }

  /** The content that arrived. */
  function FormContent(data: string, pos: nat, length: int): Option<string>
    requires pos <= |data|
  {
    if length < 0 then None else Some(Copied(data, pos, FormEnd(data, pos, length).pos))
  }

  ghost function FormArguments(data: string, pos: nat, length: int): seq<Header>
    requires pos <= |data|
  {
    if FormAt(data, pos, length).Some? then Arguments.ArgumentsOf(FormAt(data, pos, length).value) else []
  }

  function ContentEnd(declared: Content, data: string, pos: nat): (end: End)
    requires pos <= |data|
  {
    match declared
    case Undeclared => End(BAD_REQUEST, pos)
    case Foreign => End(0, pos)
    case Form(length) => FormEnd(data, pos, length)
  }

  ghost function ContentArguments(declared: Content, data: string, pos: nat): seq<Header>
    requires pos <= |data|
  {
    if declared.Form? then FormArguments(data, pos, declared.length) else []
  }

  /** The content buffer afterwards, given what it was. */
  function ContentBuffer(declared: Content, data: string, pos: nat, before: Option<string>): Option<string>
    requires pos <= |data|
  {
    if declared.Form? then FormContent(data, pos, declared.length) else before
  }

  // The same of the whole request, with the headers that were in the request before.

  predicate ReadsHeaders(status: Status) { status.Status? && !IsOldVersion(status.version) }

  predicate ReadsContent(status: Status) { ReadsHeaders(status) && IsPost(Upper(status.name)) }

  function HeadersOf(status: Status, data: string, pos: nat): seq<Header>
    requires pos <= |data|
  {
    if ReadsHeaders(status) then HeadersAt(data, AfterLine(data, pos)) else []
  }

  function DeclaredBy(status: Status, before: seq<Header>, data: string, pos: nat): Content
    requires pos <= |data|
  {
    Declared(before + HeadersOf(status, data, pos))
  }

  function ContentStart(data: string, pos: nat): (start: nat)
    requires pos <= |data|
    ensures start <= |data|
  {
    HeadersEnd(data, AfterLine(data, pos))
  }

  /** The request meets what the library asserts: no key is empty, and its content can be read. */
  ghost predicate IsRequest(before: seq<Header>, data: string, pos: nat)
    requires pos <= |data|
  {
    && (HasLine(data, pos) ==> IsDelimited(LineAt(data, pos).value))
    && var status := StatusAt(data, pos);
       && (status.Status? ==> IsTarget(status.target))
       && (ReadsHeaders(status) ==> AllKeyed(data, AfterLine(data, pos)))
       && (ReadsContent(status) ==> IsContent(DeclaredBy(status, before, data, pos), data, ContentStart(data, pos)))
  }

  function EndOf(status: Status, before: seq<Header>, data: string, pos: nat): (end: End)
    requires pos <= |data|
  {
    if status.BadStatus? then End(BAD_REQUEST, AfterLine(data, pos))
    else if !ReadsHeaders(status) then End(0, AfterLine(data, pos))
    else if !ReadsContent(status) then End(0, ContentStart(data, pos))
    else ContentEnd(DeclaredBy(status, before, data, pos), data, ContentStart(data, pos))
  }

  /** The content buffer afterwards, given what it was. */
  function ContentAfter(status: Status, headers: seq<Header>, data: string, pos: nat,
      before: Option<string>): Option<string>
    requires pos <= |data|
  {
    if ReadsContent(status) then
      ContentBuffer(DeclaredBy(status, headers, data, pos), data, ContentStart(data, pos), before)
    else before
  }

  /** An int converted to size_t. */
  function AsSize(n: int): nat { n % SIZE_RANGE }

  function LengthAfter(status: Status, headers: seq<Header>, data: string, pos: nat, before: nat): nat
    requires pos <= |data|
  {
    var declared := DeclaredBy(status, headers, data, pos);
    if ReadsContent(status) && declared.Form? then AsSize(declared.length) else before
  }

  ghost function BodyArguments(status: Status, before: seq<Header>, data: string, pos: nat): seq<Header>
    requires pos <= |data|
  {
    if ReadsContent(status) then
      ContentArguments(DeclaredBy(status, before, data, pos), data, ContentStart(data, pos))
    else []
  }

  ghost function ArgumentsOf(status: Status, before: seq<Header>, data: string, pos: nat): seq<Header>
    requires pos <= |data|
  {
    if status.BadStatus? then [] else TargetArguments(status.target) + BodyArguments(status, before, data, pos)
  }

  // ----- which requests have headers and content -----

  /** A request of a version that begins with 0.9 ends with its first line; any other has headers behind it. */
  lemma VersionDecides(status: Status, before: seq<Header>, data: string, pos: nat)
    requires pos <= |data| && status.Status?
    ensures |status.version| >= 3 && status.version[..3] == "0.9" ==>
              HeadersOf(status, data, pos) == [] && BodyArguments(status, before, data, pos) == []
              && EndOf(status, before, data, pos) == End(0, AfterLine(data, pos))
    ensures |status.version| < 3 || status.version[..3] != "0.9" ==>
              HeadersOf(status, data, pos) == HeadersAt(data, AfterLine(data, pos))
  {
    StartsAtIff(status.version, "0.9");
  }

  /** Of those with headers, one whose upper-cased method begins with POST has content behind them, and any
      other ends there. */
  lemma MethodDecides(status: Status, before: seq<Header>, data: string, pos: nat)
    requires pos <= |data| && status.Status? && (|status.version| < 3 || status.version[..3] != "0.9")
    ensures var start := HeadersEnd(data, AfterLine(data, pos));
            if |status.name| >= 4 && Upper(status.name)[..4] == "POST" then
              var declared := Declared(before + HeadersAt(data, AfterLine(data, pos)));
              EndOf(status, before, data, pos) == ContentEnd(declared, data, start)
              && BodyArguments(status, before, data, pos) == ContentArguments(declared, data, start)
            else EndOf(status, before, data, pos) == End(0, start) && BodyArguments(status, before, data, pos) == []
  {
    StartsAtIff(status.version, "0.9");
    StartsAtIff(Upper(status.name), "POST");
  }

  /** Content without a type or a length is a bad request, and content that is no form is left alone. */
  lemma OtherContentIs(hs: seq<Header>, data: string, pos: nat)
    requires pos <= |data|
    ensures var kind := Lookup(hs, "Content-Type");
            && (kind == None || Lookup(hs, "Content-Length") == None ==>
                 ContentEnd(Declared(hs), data, pos) == End(400, pos) && ContentArguments(Declared(hs), data, pos)
                   == [])
            && (kind.Some? && Lookup(hs, "Content-Length").Some? && !IsFormType(kind.value) ==>
                 ContentEnd(Declared(hs), data, pos) == End(0, pos) && ContentArguments(Declared(hs), data, pos) == [])
  {
    var kind := Lookup(hs, "Content-Type");
    if kind.Some? { StartsAtIff(kind.value, "application/x-www-form-urlencoded"); }
  }

  predicate IsFormType(kind: string) { |kind| >= 33 && kind[..33] == "application/x-www-form-urlencoded" }

  lemma FormIsDeclared(hs: seq<Header>)
    requires Lookup(hs, "Content-Type").Some? && IsFormType(Lookup(hs, "Content-Type").value)
    requires Lookup(hs, "Content-Length").Some?
    ensures Declared(hs) == Form(Atoi(Lookup(hs, "Content-Length").value))
  {
    StartsAtIff(Lookup(hs, "Content-Type").value, "application/x-www-form-urlencoded");
  }

  /** A form is read if all of it is there; one that is cut short is a bad request, and one of negative length
      is not read. */
  lemma FormEndIs(data: string, pos: nat, n: int)
    requires pos <= |data|
    ensures ContentEnd(Form(n), data, pos) ==
              if n < 0 then End(0, pos) else if pos + n <= |data| then End(0, pos + n) else End(400, |data|)
  {}

  /** Its arguments are those of its text up to the first NUL. */
  lemma FormArgumentsAre(data: string, pos: nat, n: int)
    requires pos <= |data|
    ensures ContentArguments(Form(n), data, pos) ==
              if 0 <= n <= |data| - pos then Arguments.ArgumentsOf(CStr(data[pos..pos + n])) else []
  {}

  /** The target is a path, or a path, `?` and a query; the path is unescaped and ends at its first NUL. */
  lemma TargetIs(path: string, query: string)
    requires Without(path, '?', '?')
    ensures QueryOf(path) == None && PathOf(path) == CStr(Url.Unescape(path))
    ensures QueryOf(path + ("?" + query)) == Some(query) && PathOf(path + ("?" + query)) == CStr(Url.Unescape(path))
  {
    var target, n := path + ("?" + query), |path|;
    FirstFromIs(path, 0, '?', '?', n);
    FirstFromIs(target, 0, '?', '?', n);
    CopiedIsSlice(target, n + 1, |target|);
    assert path[..n] == path && target[..n] == path && target[n + 1..|target|] == query;
  }

  /** Only a negative length asks for more than can be allocated. */
  lemma SizeOfLength(n: int)
    requires -0x8000_0000 <= n < 0x8000_0000 && n != -1
    ensures AsSize(n) + 1 > OBJECT_MAX <==> n < 0
    ensures n >= 0 ==> AsSize(n) == n
  {}

  lemma StatusIsCString(line: string)
    requires IsCString(line) && IsDelimited(line) && StatusOf(line).Status?
    ensures IsCString(StatusOf(line).name) && IsCString(StatusOf(line).target) && IsCString(StatusOf(line).version)
  {}

  lemma LineKeyIsCString(line: string)
    requires IsCString(line) && LineHeader(line).Some?
    ensures IsCString(LineHeader(line).value.key)
  {}

  // ----- reading it -----

  class Request {
    const headers: List<Header>
    const arguments: List<Header>
    const socket: Stream
    var name: Option<string>
    var pathAndQuery: Option<string>
    var path: Option<string>
    var pathGlob: Option<string>
    var version: Option<string>
    var queryString: Option<string>
    var contentBuffer: Option<string>
    var contentLength: nat

    ghost predicate Valid()
      reads this, headers, headers.repr, arguments, arguments.repr, socket
    {
      && headers != arguments && headers.repr !! arguments.repr
      && headers.Valid() && arguments.Valid() && AllCStrings(headers.items)
      && socket.Valid()
    }

    constructor (socket: Stream)
      requires socket.Valid()
      ensures Valid() && this.socket == socket && fresh(headers) && fresh(arguments)
      ensures headers.items == [] && headers.repr == {} && arguments.items == [] && arguments.repr == {}
      ensures pathGlob == None
    {
      headers := new List<Header>();
      arguments := new List<Header>();
      this.socket := socket;
      name, pathAndQuery, path, pathGlob := None, None, None, None;
      version, queryString, contentBuffer := None, None, None;
      contentLength := 0;
    }

    /** The fields hold what a status line denotes. */
    ghost predicate HoldsStatus(status: Status)
      reads this
      requires status.Status?
    {
      && name == Some(Upper(status.name)) && version == Some(status.version)
      && pathAndQuery == Some(status.target) && path == Some(PathOf(status.target))
      && (QueryOf(status.target).Some? ==> queryString == QueryOf(status.target))
    }

    method SetMethod(method_: Option<string>)
      modifies this`name
      ensures name == if method_.Some? then Some(Upper(method_.value)) else None
      ensures method_.Some? ==> name.Some? && |name.value| == |method_.value|
      ensures method_.Some? ==> forall i :: 0 <= i < |method_.value| ==>
                SameButCase(name.value[i], method_.value[i]) && !(97 <= name.value[i] as int <= 122)
    {
      name := None;
      if method_.Some? {
        var upper := "";
        for i := 0 to |method_.value|
          invariant upper == Upper(method_.value)[..i]
        {
          upper := upper + [ToUpper(method_.value[i])];
        }
        assert upper == Upper(method_.value);
        name := Some(upper);
        forall i | 0 <= i < |upper| ensures SameButCase(upper[i], method_.value[i]) && !(97 <= upper[i] as int <= 122) {
          UpperIsCapital(method_.value[i]);
        }
      }
    }

    /** The part of the path that a route's `*` stands for; an empty one is not kept. */
    method SetPathGlob(glob: string)
      modifies this`pathGlob
      ensures pathGlob == if glob == "" then None else Some(glob)
    {
      pathGlob := if |glob| > 0 then Some(glob) else None;
    }

    method SetVersion(version: string)
      modifies this`version
      ensures this.version == Some(version)
    {
      this.version := Some(version);
    }

    method FindQuery(target: string) returns (pathEnd: nat, query: Option<string>)
      requires IsCString(target)
      ensures pathEnd == IndexOf(target, '?') && query == QueryOf(target)
    {
      var buffer := BufferOf(target);
      var ptr := StrChr(buffer, 0, '?', target);
      if ptr.None? { return |target|, None; }
      var text := StrDup(buffer, ptr.value + 1, target, |target|);
      CopiedIsSlice(target, ptr.value + 1, |target|);
      return ptr.value, Some(text);
    }

    /** Adds the arguments of the query behind the first `?`, if there is one. */
    method SetQuery(target: string) returns (pathEnd: nat)
      requires Valid() && IsCString(target) && IsTarget(target)
      modifies this`queryString, arguments, arguments.repr
      ensures Valid() && fresh(arguments.repr - old(arguments.repr)) && pathEnd == IndexOf(target, '?')
      ensures queryString == if QueryOf(target).Some? then QueryOf(target) else old(queryString)
      ensures arguments.items == old(arguments.items) + TargetArguments(target)
    {
      var query: Option<string>;
      pathEnd, query := FindQuery(target);
      if query.Some? {
        queryString := query;
        Arguments.ParseArguments(arguments, query);
      }
    }

    /** Adds the arguments of the query to the list, and decodes the path before it. */
    method SetPathAndQuery(target: Option<string>)
      requires Valid() && (target.Some? ==> IsCString(target.value) && IsTarget(target.value))
      modifies this`pathAndQuery, this`path, this`queryString, arguments, arguments.repr
      ensures Valid() && fresh(arguments.repr - old(arguments.repr)) && pathAndQuery == target
      ensures path == if target.Some? then Some(PathOf(target.value)) else old(path)
      ensures queryString == if target.Some? && QueryOf(target.value).Some? then QueryOf(target.value)
                else old(queryString)
      ensures arguments.items == old(arguments.items) + if target.Some? then TargetArguments(target.value) else []
    {
      pathAndQuery := target;
      if target.Some? {
        var pathEnd := SetQuery(target.value);
        var decoded := Arguments.DecodeText(target.value[..pathEnd]);
        path := Some(decoded);
      }
    }

    method SetStatus(status: Status)
      requires Valid() && status.Status? && IsCString(status.target) && IsTarget(status.target)
      modifies this`name, this`pathAndQuery, this`path, this`queryString, this`version, arguments, arguments.repr
      ensures Valid() && fresh(arguments.repr - old(arguments.repr)) && HoldsStatus(status)
      ensures arguments.items == old(arguments.items) + TargetArguments(status.target)
    {
      SetMethod(Some(status.name));
      SetPathAndQuery(Some(status.target));
      SetVersion(status.version);
    }

    method ReadStatusLine() returns (result: int)
      requires Valid()
      requires HasLine(socket.data, socket.pos) ==> IsDelimited(LineAt(socket.data, socket.pos).value)
      requires StatusAt(socket.data, socket.pos).Status? ==> IsTarget(StatusAt(socket.data, socket.pos).target)
      modifies this`name, this`pathAndQuery, this`path, this`queryString, this`version, socket, arguments,
                 arguments.repr
      ensures Valid() && fresh(arguments.repr - old(arguments.repr))
      ensures socket.pos == AfterLine(socket.data, old(socket.pos))
      ensures var status := StatusAt(socket.data, old(socket.pos));
              if status.BadStatus? then result == BAD_REQUEST && arguments.items == old(arguments.items)
              else result == 0 && HoldsStatus(status)
                   && arguments.items == old(arguments.items) + TargetArguments(status.target)
      ensures StatusAt(socket.data, old(socket.pos)).BadStatus? ==>
                unchanged(this`name, this`pathAndQuery, this`path, this`queryString, this`version)
    {
      ghost var pos := socket.pos;
      var line := ReadLine(socket);
      if line == null || line[0] == '\0' { return BAD_REQUEST; }
      ghost var text := LineAt(socket.data, pos).value;
      var status := ParseStatusLine(line, text);
      if status.BadStatus? { return BAD_REQUEST; }
      StatusIsCString(text);
      SetStatus(status);
      result := 0;
    }

    /** Adds the header that a line holds. */
    method ReadHeader(line: array<char>, ghost text: string)
      requires Valid() && Spans(line, text, 0, |text|) && IsCString(text) && IsKeyed(text)
      modifies headers, headers.repr
      ensures Valid() && fresh(headers.repr - old(headers.repr))
      ensures headers.items == old(headers.items) + Appended([], LineHeader(text))
    {
      var input := StrDup(line, 0, text, |text|);
      assert input == text;
      ParseLine(headers, input);
      if LineHeader(text).Some? { LineKeyIsCString(text); }
    }

    /** Adds the headers on the lines of the socket, up to an empty line or the end of the input. */
    method ReadHeaders()
      requires Valid() && AllKeyed(socket.data, socket.pos)
      modifies socket, headers, headers.repr
      ensures Valid() && fresh(headers.repr - old(headers.repr))
      ensures headers.items == old(headers.items) + HeadersAt(socket.data, old(socket.pos))
      ensures socket.pos == HeadersEnd(socket.data, old(socket.pos))
    {
      while !socket.eof
        invariant Valid() && fresh(headers.repr - old(headers.repr)) && AllKeyed(socket.data, socket.pos)
        invariant headers.items + HeadersAt(socket.data, socket.pos)
               == old(headers.items) + HeadersAt(socket.data, old(socket.pos))
        invariant HeadersEnd(socket.data, socket.pos) == HeadersEnd(socket.data, old(socket.pos))
        decreases |socket.data| - socket.pos
      {
        ghost var pos := socket.pos;
        var line := ReadLine(socket);
        if line == null || line[0] == '\0' { break; }
        ghost var text := LineAt(socket.data, pos).value;
        Assoc(headers.items, Appended([], LineHeader(text)), HeadersAt(socket.data, socket.pos));
        ReadHeader(line, text);
      }
    }

    /** Reads the text of a form of the given length. */
    method ReadFormText(length: nat) returns (text: Option<string>)
      requires socket.Valid()
      modifies this`contentBuffer, socket
      ensures socket.Valid() && text == FormAt(socket.data, old(socket.pos), length)
      ensures socket.pos == FormEnd(socket.data, old(socket.pos), length).pos
      ensures contentBuffer == FormContent(socket.data, old(socket.pos), length)
    {
      var content := socket.Fread(length);
      contentBuffer := Some(content);
      CopiedIsSlice(socket.data, socket.pos - |content|, socket.pos);
      text := if |content| != length then None else Some(CStr(content));
    }

    /** Reads a form into a buffer of its length and adds its arguments. */
    method AddForm(length: nat) returns (result: int)
      requires Valid() && IsContent(Form(length), socket.data, socket.pos)
      modifies this`contentBuffer, socket, arguments, arguments.repr
      ensures Valid() && fresh(arguments.repr - old(arguments.repr))
      ensures var end := FormEnd(socket.data, old(socket.pos), length); result == end.result && socket.pos == end.pos
      ensures arguments.items == old(arguments.items) + FormArguments(socket.data, old(socket.pos), length)
      ensures contentBuffer == FormContent(socket.data, old(socket.pos), length)
    {
      var text := ReadFormText(length);
      if text.None? { return BAD_REQUEST; }
      Arguments.ParseArguments(arguments, text);
      result := 0;
    }

    /** Reads a form of the given length into a buffer, if that can be allocated, and adds its arguments. */
    method ReadForm(length: int) returns (result: int)
      requires Valid() && IsContent(Form(length), socket.data, socket.pos)
      modifies this`contentBuffer, this`contentLength, socket, arguments, arguments.repr
      ensures Valid() && fresh(arguments.repr - old(arguments.repr))
      ensures var end := FormEnd(socket.data, old(socket.pos), length); result == end.result && socket.pos == end.pos
      ensures arguments.items == old(arguments.items) + FormArguments(socket.data, old(socket.pos), length)
      ensures contentLength == AsSize(length) && contentBuffer == FormContent(socket.data, old(socket.pos), length)
    {
      SizeOfLength(length);
      contentLength := AsSize(length);
      if contentLength + 1 > OBJECT_MAX {
        contentBuffer := None;
        return 0;
      }
      result := AddForm(contentLength);
    }

    /** Reads the content of a POST whose headers are read, and adds a form's arguments. */
    method ReadContent() returns (result: int)
      requires Valid() && IsContent(Declared(headers.items), socket.data, socket.pos)
      modifies this`contentBuffer, this`contentLength, socket, arguments, arguments.repr
      ensures Valid() && fresh(arguments.repr - old(arguments.repr))
      ensures var end := ContentEnd(Declared(headers.items), socket.data, old(socket.pos));
              result == end.result && socket.pos == end.pos
      ensures arguments.items
                == old(arguments.items) + ContentArguments(Declared(headers.items), socket.data, old(socket.pos))
      ensures contentBuffer == ContentBuffer(Declared(headers.items), socket.data, old(socket.pos), old(contentBuffer))
      ensures contentLength == if Declared(headers.items).Form? then AsSize(Declared(headers.items).length)
                else old(contentLength)
    {
      var kind := Headers.Get(headers, CONTENT_TYPE);
      var length := Headers.Get(headers, CONTENT_LENGTH);
      result := 0;
      if kind.None? || length.None? { return BAD_REQUEST; }
      if HasPrefix(kind.value, FORM) {
        result := ReadForm(Atoi(length.value));
      }
    }

    /** Reads the headers, and the content of a POST. */
    method ReadAfterStatus(ghost status: Status, ghost start: nat) returns (result: int)
      requires Valid() && start <= |socket.data| && socket.pos == AfterLine(socket.data, start)
      requires ReadsHeaders(status) && HoldsStatus(status) && AllKeyed(socket.data, socket.pos)
      requires ReadsContent(status) ==>
                 IsContent(DeclaredBy(status, headers.items, socket.data, start), socket.data,
                   ContentStart(socket.data, start))
      modifies this`contentBuffer, this`contentLength, socket, headers, headers.repr, arguments, arguments.repr
      ensures Valid() && fresh(headers.repr - old(headers.repr)) && fresh(arguments.repr - old(arguments.repr))
      ensures headers.items == old(headers.items) + HeadersOf(status, socket.data, start)
      ensures arguments.items == old(arguments.items) + BodyArguments(status, old(headers.items), socket.data, start)
      ensures contentBuffer == ContentAfter(status, old(headers.items), socket.data, start, old(contentBuffer))
      ensures contentLength == LengthAfter(status, old(headers.items), socket.data, start, old(contentLength))
      ensures var end := EndOf(status, old(headers.items), socket.data, start);
              result == end.result && socket.pos == end.pos
    {
      ReadHeaders();
      result := 0;
      if IsPost(name.value) {
        result := ReadContent();
      }
    }

    /** Reads what follows the first line; nothing does in version 0.9. */
    method ReadRest(ghost status: Status, ghost start: nat) returns (result: int)
      requires Valid() && start <= |socket.data| && socket.pos == AfterLine(socket.data, start)
      requires status.Status? && HoldsStatus(status) && (ReadsHeaders(status) ==> AllKeyed(socket.data, socket.pos))
      requires ReadsContent(status) ==>
                 IsContent(DeclaredBy(status, headers.items, socket.data, start), socket.data,
                   ContentStart(socket.data, start))
      modifies this`contentBuffer, this`contentLength, socket, headers, headers.repr, arguments, arguments.repr
      ensures Valid() && fresh(headers.repr - old(headers.repr)) && fresh(arguments.repr - old(arguments.repr))
      ensures headers.items == old(headers.items) + HeadersOf(status, socket.data, start)
      ensures arguments.items == old(arguments.items) + BodyArguments(status, old(headers.items), socket.data, start)
      ensures contentBuffer == ContentAfter(status, old(headers.items), socket.data, start, old(contentBuffer))
      ensures contentLength == LengthAfter(status, old(headers.items), socket.data, start, old(contentLength))
      ensures var end := EndOf(status, old(headers.items), socket.data, start);
              result == end.result && socket.pos == end.pos
    {
      result := 0;
      if version.Some? && !IsOldVersion(version.value) {
        result := ReadAfterStatus(status, start);
      }
    }

    method Read() returns (result: int)
      requires Valid() && IsRequest(headers.items, socket.data, socket.pos)
      modifies this`name, this`pathAndQuery, this`path, this`queryString, this`version, this`contentBuffer,
                 this`contentLength
      modifies socket, headers, headers.repr, arguments, arguments.repr
      ensures Valid() && fresh(headers.repr - old(headers.repr)) && fresh(arguments.repr - old(arguments.repr))
      ensures var status, before := StatusAt(socket.data, old(socket.pos)), old(headers.items);
              var end := EndOf(status, before, socket.data, old(socket.pos));
              && (if status.Status? then HoldsStatus(status)
                else unchanged(this`name, this`pathAndQuery, this`path, this`queryString, this`version))
              && headers.items == before + HeadersOf(status, socket.data, old(socket.pos))
              && arguments.items == old(arguments.items) + ArgumentsOf(status, before, socket.data, old(socket.pos))
              && contentBuffer == ContentAfter(status, before, socket.data, old(socket.pos), old(contentBuffer))
              && contentLength == LengthAfter(status, before, socket.data, old(socket.pos), old(contentLength))
              && result == end.result && socket.pos == end.pos
    {
      ghost var start := socket.pos;
      ghost var status := StatusAt(socket.data, start);
      result := ReadStatusLine();
      if result == 0 {
        Assoc(old(arguments.items), TargetArguments(status.target),
          BodyArguments(status, headers.items, socket.data, start));
        result := ReadRest(status, start);
      }
    }
  }
}
