/** Writing a request and reading it back. */
module RoundTrip {
  import opened Text
  import opened Url
  import opened Headers
  import opened Lines
  import opened StatusLine
  import opened Request
  import opened Numbers
  import Arguments

  // ----- arguments -----

  predicate IsPlainArgument(a: Header) {
    && a.key != "" && IsAscii(a.key)
    && (a.value.Some? ==> a.value.value != "" && IsAscii(a.value.value))
  }

  predicate ArePlainArguments(args: seq<Header>) {
    forall i :: 0 <= i < |args| ==> IsPlainArgument(args[i])
  }

  function EscapedKey(a: Header): string
    requires IsPlainArgument(a)
  {
    Escape(a.key)
  }

  function EscapedValue(a: Header): Option<string>
    requires IsPlainArgument(a)
  {
    if a.value.Some? then Some(Escape(a.value.value)) else None
  }

  function ArgumentText(a: Header): string
    requires IsPlainArgument(a)
  {
    Pair(EscapedKey(a), EscapedValue(a))
  }

  function ArgumentTexts(args: seq<Header>): seq<string>
    requires ArePlainArguments(args)
  {
    seq(|args|, i requires 0 <= i < |args| => ArgumentText(args[i]))
  }

  function QueryText(args: seq<Header>): string
    requires ArePlainArguments(args)
  {
    Join(ArgumentTexts(args), '&')
  }

  lemma DecodedEscape(s: string)
    requires IsAscii(s)
    ensures Arguments.Decoded(Escape(s)) == s
  {
    Url.RoundTrip(s);
    CStrOfCString(s, "");
  }

  /** The text of an argument with the escaped key k and value v. */
  function Pair(k: string, v: Option<string>): string {
    k + if v.Some? then "=" + v.value else ""
  }

  lemma PairIsCut(k: string, v: Option<string>)
    requires IsUrlText(k)
    ensures var n := IndexOf(Pair(k, v), '=');
            && Pair(k, v)[..n] == k
            && (if v.None? then n == |Pair(k, v)| else n < |Pair(k, v)| && Pair(k, v)[n + 1..] == v.value)
  {
    FirstFromIs(Pair(k, v), 0, '=', '=', |k|);
  }

  /** A written argument is one piece, and reads back as the argument. */
  lemma FieldRoundTrip(a: Header)
    requires IsPlainArgument(a)
    ensures Arguments.Field(ArgumentText(a)) == a
  {
    EscapeIsText(a.key);
    PairIsCut(EscapedKey(a), EscapedValue(a));
    DecodedEscape(a.key);
    if a.value.Some? { DecodedEscape(a.value.value); }
  }

  lemma PairShape(k: string, v: Option<string>)
    requires k != "" && IsUrlText(k) && (v.Some? ==> IsUrlText(v.value))
    ensures Pair(k, v) != "" && IsCString(Pair(k, v)) && NoSpace(Pair(k, v)) && Without(Pair(k, v), '&', ';')
  {}

  lemma ArgumentTextShape(a: Header)
    requires IsPlainArgument(a)
    ensures ArgumentText(a) != "" && IsCString(ArgumentText(a)) && NoSpace(ArgumentText(a))
    ensures Without(ArgumentText(a), '&', ';')
  {
    EscapeIsText(a.key);
    if a.value.Some? { EscapeIsText(a.value.value); }
    PairShape(EscapedKey(a), EscapedValue(a));
  }

  lemma QueryPieces(args: seq<Header>)
    requires ArePlainArguments(args) && args != []
    ensures Split(QueryText(args), '&', ';') == ArgumentTexts(args)
  {
    var pieces := ArgumentTexts(args);
    forall i | 0 <= i < |pieces| ensures Without(pieces[i], '&', ';') {
      ArgumentTextShape(args[i]);
    }
    SplitJoin(pieces, 0, '&', '&', ';');
    assert pieces[0..] == pieces;
  }

  /** Reading written arguments gives them back. */
  lemma QueryRoundTrip(args: seq<Header>)
    requires ArePlainArguments(args)
    ensures Arguments.ArgumentsOf(QueryText(args)) == args && Arguments.NoEmptyKey(QueryText(args))
  {
    if args == [] { return; }
    var query, pieces := QueryText(args), ArgumentTexts(args);
    var read := Arguments.ArgumentsOf(query);
    QueryPieces(args);
    Arguments.ArgumentsAreFields(query);
    ArgumentTextShape(args[|args| - 1]);
    assert |read| == |args|;
    forall i | 0 <= i < |args| ensures read[i] == args[i] {
      FieldRoundTrip(args[i]);
      assert pieces[i] == ArgumentText(args[i]);
    }
    var starts := Arguments.PieceStarts(query, 0);
    forall i | 0 <= i < |starts| ensures Arguments.KeyAt(query, starts[i]) != "" {
      assert read[i].key == Arguments.KeyAt(query, starts[i]);
    }
  }

  lemma {:induction false} JoinAvoids(pieces: seq<string>, k: nat, sep: char)
    requires k <= |pieces| && sep != '\0' && !IsSpace(sep)
    requires forall i :: 0 <= i < |pieces| ==> IsCString(pieces[i]) && NoSpace(pieces[i])
    ensures IsCString(JoinFrom(pieces, k, sep)) && NoSpace(JoinFrom(pieces, k, sep))
    decreases |pieces| - k
  {
    if k + 1 < |pieces| { JoinAvoids(pieces, k + 1, sep); }
  }

  lemma QueryShape(args: seq<Header>)
    requires ArePlainArguments(args)
    ensures IsCString(QueryText(args)) && NoSpace(QueryText(args))
  {
    var pieces := ArgumentTexts(args);
    forall i | 0 <= i < |pieces| ensures IsCString(pieces[i]) && NoSpace(pieces[i]) {
      ArgumentTextShape(args[i]);
    }
    JoinAvoids(pieces, 0, '&');
  }

  // ----- the request target -----

  function TargetText(path: string, args: seq<Header>): string
    requires IsAscii(path) && ArePlainArguments(args)
  {
    Escape(path) + if args == [] then "" else "?" + QueryText(args)
  }

  lemma TargetShape(path: string, args: seq<Header>)
    requires path != "" && IsAscii(path) && ArePlainArguments(args)
    ensures TargetText(path, args) != "" && IsCString(TargetText(path, args)) && NoSpace(TargetText(path, args))
  {
    EscapeIsText(path);
    UrlTextIsWord(Escape(path));
    QueryShape(args);
  }

  lemma UrlTextIsWord(s: string)
    requires IsUrlText(s)
    ensures IsCString(s) && NoSpace(s) && Without(s, '?', '?')
  {}

  lemma CutsAt(path: string, query: string)
    requires Without(path, '?', '?')
    ensures var target := path + ("?" + query); QueryOf(target) == Some(query) && target[..IndexOf(target, '?')] == path
  {
    var target := path + ("?" + query);
    FirstFromIs(target, 0, '?', '?', |path|);
    CopiedIsSlice(target, |path| + 1, |target|);
    assert target[|path| + 1..|target|] == query;
  }

  lemma CutsNothing(path: string)
    requires Without(path, '?', '?')
    ensures QueryOf(path + "") == None && (path + "")[..IndexOf(path + "", '?')] == path
  {
    assert path + "" == path;
    FirstFromIs(path, 0, '?', '?', |path|);
  }

  /** Reading a written target gives back the path and the arguments. */
  lemma TargetRoundTrip(path: string, args: seq<Header>)
    requires IsAscii(path) && ArePlainArguments(args)
    ensures PathOf(TargetText(path, args)) == path
    ensures IsTarget(TargetText(path, args)) && TargetArguments(TargetText(path, args)) == args
  {
    EscapeIsText(path);
    UrlTextIsWord(Escape(path));
    DecodedEscape(path);
    if args == [] {
      CutsNothing(Escape(path));
    } else {
      CutsAt(Escape(path), QueryText(args));
      QueryRoundTrip(args);
    }
  }

  lemma QueryOfTarget(path: string, args: seq<Header>)
    requires IsAscii(path) && ArePlainArguments(args) && args != []
    ensures QueryOf(TargetText(path, args)) == Some(QueryText(args))
  {
    EscapeIsText(path);
    UrlTextIsWord(Escape(path));
    CutsAt(Escape(path), QueryText(args));
  }

  // ----- the first line -----

  predicate IsName(name: string) {
    name != "" && forall i :: 0 <= i < |name| ==> IsAlpha(name[i])
  }

  predicate IsWord(s: string) { s != "" && IsCString(s) && NoSpace(s) }

  function StatusText(name: string, target: string, version: string): string {
    name + " " + target + " HTTP/" + version
  }

  /** Where the parts of the line are. */
  predicate HasParts(s: string, name: string, target: string, version: string) {
    var p, end := |name| + 1, |name| + 1 + |target|;
    && |s| == end + 6 + |version|
    && s[0..|name|] == name && s[|name|] == ' ' && s[p..end] == target
    && s[end] == ' ' && s[end + 1..end + 6] == "HTTP/" && s[end + 6..|s|] == version
  }

  lemma StatusTextParts(name: string, target: string, version: string)
    ensures HasParts(StatusText(name, target, version), name, target, version)
  {}

  lemma PartsHaveForm(s: string, name: string, target: string, version: string)
    requires IsName(name) && IsWord(target) && IsWord(version) && HasParts(s, name, target, version)
    ensures var p, end := |name| + 1, |name| + 1 + |target|;
            IsLine(s, 0, |name|, p, |s|) && IsVersioned(s, p, |s|, end, end + 1)
  {
    var p, end := |name| + 1, |name| + 1 + |target|;
    forall k | 0 <= k < |name| ensures IsAlpha(s[k]) { assert s[0..|name|][k] == name[k]; }
    assert s[p] == s[p..end][0] && s[end - 1] == s[p..end][|target| - 1];
    forall k | end + 1 <= k < |s| ensures !IsSpace(s[k]) {
      if k < end + 6 {
        assert s[k] == s[end + 1..end + 6][k - end - 1];
      } else {
        assert s[k] == s[end + 6..|s|][k - end - 6];
      }
    }
  }

  lemma PartsAreRead(s: string, name: string, target: string, version: string)
    requires IsName(name) && IsWord(target) && IsWord(version) && HasParts(s, name, target, version)
    ensures IsDelimited(s) && StatusOf(s) == Status(name, target, version)
  {
    var p, end := |name| + 1, |name| + 1 + |target|;
    PartsHaveForm(s, name, target, version);
    VersionedLine(s, 0, |name|, p, end, end + 1, |s|);
  }

  /** Reading a written first line gives back its parts. */
  lemma StatusRoundTrip(name: string, target: string, version: string)
    requires IsName(name) && IsWord(target) && IsWord(version)
    ensures IsDelimited(StatusText(name, target, version))
    ensures StatusOf(StatusText(name, target, version)) == Status(name, target, version)
  {
    StatusTextParts(name, target, version);
    PartsAreRead(StatusText(name, target, version), name, target, version);
  }

  lemma StatusTextIsLine(name: string, target: string, version: string)
    requires IsName(name) && IsWord(target) && IsWord(version)
    ensures var s := StatusText(name, target, version); s != "" && IsCString(s) && Without(s, '\r', '\n')
  {
    assert forall k :: 0 <= k < |name| ==> IsAlpha(name[k]);
    assert forall k :: 0 <= k < |target| ==> !IsSpace(target[k]);
    assert forall k :: 0 <= k < |version| ==> !IsSpace(version[k]);
  }

  // ----- the header lines -----

  predicate ArePlainHeaders(hs: seq<Header>) {
    forall i :: 0 <= i < |hs| ==> IsPlainHeader(hs[i])
  }

  lemma HeadersStep(data: string, pos: nat, line: string, h: Header, next: nat)
    requires pos <= |data| && LineAt(data, pos) == Some(line) && line != "" && AfterLine(data, pos) == next
    requires LineHeader(line) == Some(h) && h.key != ""
    ensures HeadersAt(data, pos) == [h] + HeadersAt(data, next)
    ensures HeadersEnd(data, pos) == HeadersEnd(data, next) && (AllKeyed(data, next) ==> AllKeyed(data, pos))
  {}

  /** A written header line is read as its header. */
  lemma ReadsOne(data: string, pos: nat, h: Header, next: nat)
    requires IsPlainHeader(h) && StartsAt(data, pos, HeaderText(h) + "\r\n") && next == pos + |HeaderText(h)| + 2
    ensures HeadersAt(data, pos) == [h] + HeadersAt(data, next)
    ensures HeadersEnd(data, pos) == HeadersEnd(data, next) && (AllKeyed(data, next) ==> AllKeyed(data, pos))
  {
    LineRoundTrip(h);
    LineIs(data, pos, HeaderText(h));
    HeadersStep(data, pos, HeaderText(h), h, next);
  }

  lemma ReadsNone(data: string, pos: nat)
    requires pos <= |data| && LineAt(data, pos) == Some("")
    ensures HeadersAt(data, pos) == [] && AllKeyed(data, pos) && HeadersEnd(data, pos) == AfterLine(data, pos)
  {}

  lemma BlockStarts(data: string, pos: nat, hs: seq<Header>, k: nat) returns (next: nat)
    requires k < |hs| && ArePlainHeaders(hs) && StartsAt(data, pos, PrintedFrom(hs, k) + "\r\n")
    ensures StartsAt(data, pos, HeaderText(hs[k]) + "\r\n") && next == pos + |HeaderText(hs[k])| + 2
    ensures StartsAt(data, next, PrintedFrom(hs, k + 1) + "\r\n")
    ensures next + |PrintedFrom(hs, k + 1)| == pos + |PrintedFrom(hs, k)|
  {
    var line := HeaderText(hs[k]) + "\r\n";
    Assoc(line, PrintedFrom(hs, k + 1), "\r\n");
    StartsAtParts(data, pos, line, PrintedFrom(hs, k + 1) + "\r\n");
    next := pos + |line|;
  }

  /** Reading written header lines gives back the headers and stops behind the empty line. */
  lemma {:induction false} HeadersRoundTrip(data: string, pos: nat, hs: seq<Header>, k: nat)
    requires k <= |hs| && ArePlainHeaders(hs) && StartsAt(data, pos, PrintedFrom(hs, k) + "\r\n")
    ensures HeadersAt(data, pos) == hs[k..] && AllKeyed(data, pos)
    ensures HeadersEnd(data, pos) == pos + |PrintedFrom(hs, k)| + 2
    decreases |hs| - k
  {
    if k == |hs| {
      LineIs(data, pos, "");
      ReadsNone(data, pos);
    } else {
      var next := BlockStarts(data, pos, hs, k);
      ReadsOne(data, pos, hs[k], next);
      HeadersRoundTrip(data, next, hs, k + 1);
      FirstAndRest(hs, k);
    }
  }

  // ----- any header lines -----

  function LinesText(lines: seq<string>, k: nat): string
    requires k <= |lines|
    decreases |lines| - k
  {
    if k == |lines| then "" else lines[k] + "\r\n" + LinesText(lines, k + 1)
  }

  /** The headers that the lines hold; a line without one is passed over. */
  function HeadersIn(lines: seq<string>, k: nat): seq<Header>
    requires k <= |lines|
    decreases |lines| - k
  {
    if k == |lines| then []
    else (if LineHeader(lines[k]).Some? then [LineHeader(lines[k]).value] else []) + HeadersIn(lines, k + 1)
  }

  predicate AreHeaderLines(lines: seq<string>) {
    forall i :: 0 <= i < |lines| ==> lines[i] != "" && IsLineText(lines[i]) && IsKeyed(lines[i])
  }

  lemma LineStep(data: string, pos: nat, line: string, next: nat)
    requires pos <= |data| && LineAt(data, pos) == Some(line) && line != "" && AfterLine(data, pos)
               == next && IsKeyed(line)
    ensures HeadersAt(data, pos)
              == (if LineHeader(line).Some? then [LineHeader(line).value] else []) + HeadersAt(data, next)
    ensures HeadersEnd(data, pos) == HeadersEnd(data, next) && (AllKeyed(data, next) ==> AllKeyed(data, pos))
  {}

  lemma LinesStart(data: string, pos: nat, lines: seq<string>, k: nat)
    requires k < |lines| && StartsAt(data, pos, LinesText(lines, k) + "\r\n")
    ensures StartsAt(data, pos, lines[k] + "\r\n") && |LinesText(lines, k)|
              == |lines[k]| + 2 + |LinesText(lines, k + 1)|
    ensures StartsAt(data, pos + |lines[k]| + 2, LinesText(lines, k + 1) + "\r\n")
  {
    var line := lines[k] + "\r\n";
    Assoc(line, LinesText(lines, k + 1), "\r\n");
    StartsAtParts(data, pos, line, LinesText(lines, k + 1) + "\r\n");
  }

  /** Header lines are read one by one up to the empty line, and each adds the header it holds, if any. */
  lemma {:induction false} LinesAreRead(data: string, pos: nat, lines: seq<string>, k: nat)
    requires k <= |lines| && AreHeaderLines(lines) && StartsAt(data, pos, LinesText(lines, k) + "\r\n")
    ensures HeadersAt(data, pos) == HeadersIn(lines, k) && AllKeyed(data, pos)
    ensures HeadersEnd(data, pos) == pos + |LinesText(lines, k)| + 2
    decreases |lines| - k
  {
    if k == |lines| {
      LineIs(data, pos, "");
      ReadsNone(data, pos);
    } else {
      var next := pos + |lines[k]| + 2;
      LinesStart(data, pos, lines, k);
      LineIs(data, pos, lines[k]);
      LineStep(data, pos, lines[k], next);
      LinesAreRead(data, next, lines, k + 1);
    }
  }

  lemma BlockRoundTrip(data: string, pos: nat, hs: seq<Header>)
    requires ArePlainHeaders(hs) && StartsAt(data, pos, PrintedFrom(hs, 0) + "\r\n")
    ensures HeadersAt(data, pos) == hs && AllKeyed(data, pos)
    ensures HeadersEnd(data, pos) == pos + |PrintedFrom(hs, 0)| + 2
  {
    HeadersRoundTrip(data, pos, hs, 0);
    assert hs[0..] == hs;
  }

  // ----- the whole request -----

  /** What survives writing and reading. */
  predicate IsPlainRequest(name: string, path: string, args: seq<Header>, version: string, hs: seq<Header>) {
    && IsName(name)
    && path != "" && IsAscii(path)
    && ArePlainArguments(args)
    && IsWord(version) && (|version| < 3 || version[..3] != "0.9")
    && ArePlainHeaders(hs)
  }

  function RequestText(name: string, path: string, args: seq<Header>, version: string, hs: seq<Header>): string
    requires IsPlainRequest(name, path, args, version, hs)
  {
    StatusText(name, TargetText(path, args), version) + "\r\n" + (PrintedFrom(hs, 0) + "\r\n")
  }

  /** At pos stands the head of a request: its first line and its headers, up to `end`. */
  ghost predicate HasHead(data: string, pos: nat, status: Status, hs: seq<Header>, end: int) {
    && pos <= |data| && status.Status? && !IsOldVersion(status.version)
    && HasLine(data, pos) && IsDelimited(LineAt(data, pos).value) && StatusAt(data, pos) == status
    && AllKeyed(data, AfterLine(data, pos)) && HeadersAt(data, AfterLine(data, pos)) == hs
    && ContentStart(data, pos) == end
  }

  lemma HeadIs(data: string, pos: nat, line: string, status: Status, hs: seq<Header>, next: nat)
    requires pos <= |data| && LineAt(data, pos) == Some(line) && AfterLine(data, pos) == next && line != ""
    requires IsDelimited(line) && StatusOf(line) == status && status.Status? && !IsOldVersion(status.version)
    requires ArePlainHeaders(hs) && StartsAt(data, next, PrintedFrom(hs, 0) + "\r\n")
    ensures HasHead(data, pos, status, hs, next + |PrintedFrom(hs, 0)| + 2)
  {
    BlockRoundTrip(data, next, hs);
  }

  /** The first line and the headers of a written request are read back, with exactly its characters. */
  lemma HeadRoundTrip(data: string, pos: nat, name: string, path: string, args: seq<Header>, version: string,
      hs: seq<Header>)
    requires IsPlainRequest(name, path, args, version, hs)
    requires StartsAt(data, pos, RequestText(name, path, args, version, hs))
    ensures HasHead(data, pos, Status(name, TargetText(path, args), version), hs,
                    pos + |RequestText(name, path, args, version, hs)|)
  {
    var target := TargetText(path, args);
    var line := StatusText(name, target, version);
    TargetShape(path, args);
    StartsAtIff(version, "0.9");
    StartsAtParts(data, pos, line + "\r\n", PrintedFrom(hs, 0) + "\r\n");
    StatusTextIsLine(name, target, version);
    StatusRoundTrip(name, target, version);
    LineIs(data, pos, line);
    HeadIs(data, pos, line, Status(name, target, version), hs, pos + |line| + 2);
  }

  /** The data from pos to `end` are read as a request with these parts. */
  ghost predicate ReadsAs(data: string, pos: nat, end: int, name: string, path: string, args: seq<Header>,
      version: string,
                          hs: seq<Header>)
  {
    && pos <= |data| && IsRequest([], data, pos)
    && var status := StatusAt(data, pos);
       && status.Status? && status.name == name && status.version == version && PathOf(status.target) == path
       && ArgumentsOf(status, [], data, pos) == args
       && HeadersOf(status, data, pos) == hs
       && EndOf(status, [], data, pos) == End(0, end)
  }

  /** What a request means that is no POST. */
  lemma HeadIsRequest(data: string, pos: nat, status: Status, hs: seq<Header>, end: int)
    requires HasHead(data, pos, status, hs, end) && !IsPost(Upper(status.name)) && IsTarget(status.target)
    ensures ReadsAs(data, pos, end, status.name, PathOf(status.target), TargetArguments(status.target), status.version,
              hs)
  {}

  /** What a form POST means whose content has arrived. */
  lemma HeadIsForm(data: string, pos: nat, status: Status, hs: seq<Header>, end: nat, body: string)
    requires HasHead(data, pos, status, hs, end) && IsPost(Upper(status.name)) && IsTarget(status.target)
    requires Declared(hs) == Content.Form(|body|) && |body| < 0x8000_0000
    requires FormAt(data, end, |body|) == Some(body) && Arguments.NoEmptyKey(body)
    ensures ReadsAs(data, pos, end + |body|, status.name, PathOf(status.target),
                    TargetArguments(status.target) + Arguments.ArgumentsOf(body), status.version, hs)
  {
    assert [] + hs == hs;
  }

  /** A written request that is no POST reads back as it was written, whatever comes behind it. */
  lemma RequestRoundTrip(data: string, pos: nat, name: string, path: string, args: seq<Header>, version: string,
      hs: seq<Header>)
    requires IsPlainRequest(name, path, args, version, hs) && (|name| < 4 || Upper(name)[..4] != "POST")
    requires StartsAt(data, pos, RequestText(name, path, args, version, hs))
    ensures ReadsAs(data, pos, pos + |RequestText(name, path, args, version, hs)|, name, path, args, version, hs)
  {
    var status := Status(name, TargetText(path, args), version);
    HeadRoundTrip(data, pos, name, path, args, version, hs);
    TargetRoundTrip(path, args);
    StartsAtIff(Upper(name), "POST");
    HeadIsRequest(data, pos, status, hs, pos + |RequestText(name, path, args, version, hs)|);
  }

  lemma FormArrives(data: string, pos: nat, form: seq<Header>)
    requires ArePlainArguments(form) && StartsAt(data, pos, QueryText(form))
    ensures FormAt(data, pos, |QueryText(form)|) == Some(QueryText(form))
  {
    QueryShape(form);
    StartsAtSlice(data, pos, QueryText(form));
    CStrOfCString(QueryText(form), "");
  }

  lemma FormIsRead(data: string, pos: nat, status: Status, hs: seq<Header>, end: nat, form: seq<Header>)
    requires HasHead(data, pos, status, hs, end) && IsPost(Upper(status.name)) && IsTarget(status.target)
    requires ArePlainArguments(form) && StartsAt(data, end, QueryText(form))
    requires DeclaresForm(hs, |QueryText(form)|) && |QueryText(form)| < 0x8000_0000
    ensures ReadsAs(data, pos, end + |QueryText(form)|, status.name, PathOf(status.target),
                    TargetArguments(status.target) + form, status.version, hs)
  {
    QueryRoundTrip(form);
    FormArrives(data, end, form);
    FormHasLength(hs, |QueryText(form)|);
    HeadIsForm(data, pos, status, hs, end, QueryText(form));
  }

  /** The first headers of the two classes say that the content is a form of n characters. */
  predicate DeclaresForm(hs: seq<Header>, n: nat) {
    var kind := Lookup(hs, "Content-Type");
    kind.Some? && IsFormType(kind.value) && Lookup(hs, "Content-Length") == Some(Decimal(n))
  }

  lemma FormHasLength(hs: seq<Header>, n: nat)
    requires DeclaresForm(hs, n)
    ensures Declared(hs) == Content.Form(n)
  {
    StartsAtIff(Lookup(hs, "Content-Type").value, "application/x-www-form-urlencoded");
    AtoiOfDecimal(n);
  }

  function FormHeaders(n: nat): seq<Header> {
    [Header("Content-Type", Some("application/x-www-form-urlencoded")), Header("Content-Length", Some(Decimal(n)))]
  }

  lemma DecimalIsText(n: nat)
    ensures IsLineText(Decimal(n)) && !IsSpace(Decimal(n)[0])
  {
    DecimalHasDigits(n);
  }

  /** They do so behind other headers that have neither. */
  lemma FormHeadersDeclare(others: seq<Header>, n: nat)
    requires ArePlainHeaders(others) && !Has(others, "Content-Type") && !Has(others, "Content-Length")
    ensures ArePlainHeaders(others + FormHeaders(n)) && DeclaresForm(others + FormHeaders(n), n)
  {
    var kind, length := FormHeaders(n)[0], FormHeaders(n)[1];
    DecimalIsText(n);
    KeysDiffer();
    LookupAfterAdd(others, kind, "Content-Type");
    LookupAfterAdd(others, kind, "Content-Length");
    LookupAfterAdd(others + [kind], length, "Content-Type");
    LookupAfterAdd(others + [kind], length, "Content-Length");
    assert others + FormHeaders(n) == others + [kind] + [length];
  }

  lemma KeysDiffer()
    ensures !SameKey("Content-Length", "Content-Type") && !SameKey("Content-Type", "Content-Length")
    ensures IsLineText("Content-Type") && IsLineText("Content-Length")
              && IsLineText("application/x-www-form-urlencoded")
    ensures Without("Content-Type", ':', ':') && Without("Content-Length", ':', ':')
  {
    assert |Lower("Content-Type")| == 12 && |Lower("Content-Length")| == 14;
  }

  lemma FormFollows(data: string, pos: nat, name: string, path: string, args: seq<Header>, version: string,
      hs: seq<Header>,
                    body: string) returns (end: nat)
    requires IsPlainRequest(name, path, args, version, hs)
    requires StartsAt(data, pos, RequestText(name, path, args, version, hs) + body)
    ensures end == pos + |RequestText(name, path, args, version, hs)| && StartsAt(data, end, body)
    ensures HasHead(data, pos, Status(name, TargetText(path, args), version), hs, end)
  {
    var head := RequestText(name, path, args, version, hs);
    StartsAtParts(data, pos, head, body);
    HeadRoundTrip(data, pos, name, path, args, version, hs);
    end := pos + |head|;
  }

  /** A written form POST: its arguments are the target's, then the body's. */
  lemma FormRoundTrip(data: string, pos: nat, name: string, path: string, args: seq<Header>, version: string,
      hs: seq<Header>,
                      form: seq<Header>)
    requires IsPlainRequest(name, path, args, version, hs) && |name| >= 4 && Upper(name)[..4] == "POST"
    requires ArePlainArguments(form)
    requires |QueryText(form)| < 0x8000_0000 && DeclaresForm(hs, |QueryText(form)|)
    requires StartsAt(data, pos, RequestText(name, path, args, version, hs) + QueryText(form))
    ensures ReadsAs(data, pos, pos + |RequestText(name, path, args, version, hs)| + |QueryText(form)|,
                    name, path, args + form, version, hs)
  {
    var end := FormFollows(data, pos, name, path, args, version, hs, QueryText(form));
    TargetRoundTrip(path, args);
    StartsAtIff(Upper(name), "POST");
    FormIsRead(data, pos, Status(name, TargetText(path, args), version), hs, end, form);
  }

  /** Writing a request that is no POST, and reading it with a new request object. */
  method ReadBack(name: string, path: string, args: seq<Header>, version: string, hs: seq<Header>, rest: string)
    returns (request: Request, result: int)
    requires IsPlainRequest(name, path, args, version, hs) && (|name| < 4 || Upper(name)[..4] != "POST")
    ensures result == 0 && request.name == Some(Upper(name)) && request.path == Some(path)
    ensures request.pathAndQuery == Some(TargetText(path, args))
    ensures args != [] ==> request.queryString == Some(QueryText(args))
    ensures request.version == Some(version) && request.arguments.items == args && request.headers.items == hs
    ensures request.socket.pos == |RequestText(name, path, args, version, hs)|
  {
    var data := RequestText(name, path, args, version, hs) + rest;
    var socket := new Stream(data);
    request := new Request(socket);
    RequestRoundTrip(data, 0, name, path, args, version, hs);
    HeadRoundTrip(data, 0, name, path, args, version, hs);
    if args != [] { QueryOfTarget(path, args); }
    result := request.Read();
  }
}
