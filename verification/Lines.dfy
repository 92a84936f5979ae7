/** request.c: lines of a request's socket. */
module Lines {
  import opened Text
  import opened Buffers

  const BUFSIZ := 8192

  /** A socket opened as a stdio stream: finite input with a read position. */
  class Stream {
    const data: string
    var pos: nat
    var eof: bool

    predicate Valid()
      reads this
    {
      pos <= |data| && (eof ==> pos == |data|)
    }

    constructor (data: string)
      ensures Valid() && this.data == data && pos == 0 && !eof
    {
      this.data := data;
      pos, eof := 0, false;
    }

    /** The next character's code, or -1 at the end of the input. */
    method Fgetc() returns (c: int)
      requires Valid()
      modifies this
      ensures Valid()
      ensures if old(pos) < |data| then c == data[old(pos)] as int && pos == old(pos) + 1 && eof == old(eof)
              else c == -1 && pos == old(pos) && eof
    {
      if pos < |data| {
        c := data[pos] as int;
        pos := pos + 1;
      } else {
        c := -1;
        eof := true;
      }
    }

    /** Up to n characters; fewer only at the end of the input. */
    method Fread(n: nat) returns (bytes: string)
      requires Valid()
      modifies this
      ensures Valid() && old(pos) <= pos && bytes == data[old(pos)..pos]
      ensures pos == if old(pos) + n <= |data| then old(pos) + n else |data|
    {
      var end := if pos + n <= |data| then pos + n else |data|;
      eof := eof || end < pos + n;
      bytes := data[pos..end];
      pos := end;
    }
  }

  // ----- what a line is -----

  /** Where reading a line stops: at a line feed, at a NUL, or at the end of the input. */
  function LineStop(data: string, pos: nat): (k: nat)
    requires pos <= |data|
    ensures pos <= k <= |data| && (k < |data| ==> data[k] == '\n' || data[k] == '\0')
  {
    FirstFrom(data, pos, '\n', '\0')
  }

  /** Where the text of a line ends: a carriage return hides what follows it. */
  function TextEnd(data: string, pos: nat): (k: nat)
    requires pos <= |data|
    ensures pos <= k <= |data|
  {
    FirstFrom(data, pos, '\r', '\n')
  }

  /** The line at pos; None if no line feed ends it. */
  function LineAt(data: string, pos: nat): (line: Option<string>)
    requires pos <= |data|
  {
    var k := LineStop(data, pos);
    if k < |data| && data[k] == '\n' then Some(data[pos..TextEnd(data, pos)]) else None
  }

  /** The position behind the line and the character that ended it. */
  function AfterLine(data: string, pos: nat): (next: nat)
    requires pos <= |data|
    ensures pos <= next <= |data| && (pos < |data| ==> pos < next)
  {
    if LineStop(data, pos) == |data| then |data| else LineStop(data, pos) + 1
  }

  /** A line holds no line end and no NUL. */
  lemma LineIsText(data: string, pos: nat)
    requires pos <= |data| && LineAt(data, pos).Some?
    ensures var line := LineAt(data, pos).value; IsCString(line) && Without(line, '\r', '\n')
  {
    FirstFromSpec(data, pos, '\n', '\0');
    FirstFromSpec(data, pos, '\r', '\n');
    assert TextEnd(data, pos) <= LineStop(data, pos);
  }

  /** A line feed ends a line, and a carriage return before it hides what stands between them. */
  lemma LineEnds(data: string, pos: nat, line: string, hidden: string)
    requires StartsAt(data, pos, line + (hidden + "\n")) && IsCString(line) && Without(line, '\r', '\n')
    requires hidden == "" || (hidden[0] == '\r' && IsCString(hidden) && Without(hidden, '\n', '\n'))
    ensures LineAt(data, pos) == Some(line) && AfterLine(data, pos) == pos + |line| + |hidden| + 1
  {
    var end, stop := pos + |line|, pos + |line| + |hidden|;
    StartsAtParts(data, pos, line, hidden + "\n");
    StartsAtParts(data, end, hidden, "\n");
    assert data[stop + 0] == "\n"[0];
    forall i | pos <= i < end ensures data[i] == line[i - pos] { assert data[pos + (i - pos)] == line[i - pos]; }
    forall i | end <= i < stop ensures data[i] == hidden[i - end] { assert data[end + (i - end)] == hidden[i - end]; }
    FirstFromIs(data, pos, '\n', '\0', stop);
    FirstFromIs(data, pos, '\r', '\n', end);
    StartsAtSlice(data, pos, line);
  }

  /** A text line that stands at pos. */
  lemma LineIs(data: string, pos: nat, line: string)
    requires StartsAt(data, pos, line + "\r\n") && IsCString(line) && Without(line, '\r', '\n')
    ensures LineAt(data, pos) == Some(line) && AfterLine(data, pos) == pos + |line| + 2
  {
    assert "\r" + "\n" == "\r\n";
    LineEnds(data, pos, line, "\r");
  }

  /** A NUL before the line feed, or the end of the input, leaves no line. */
  lemma NoLine(data: string, pos: nat, stop: nat)
    requires pos <= stop <= |data| && (stop < |data| ==> data[stop] == '\0')
    requires forall i :: pos <= i < stop ==> data[i] != '\n' && data[i] != '\0'
    ensures LineAt(data, pos) == None && AfterLine(data, pos) == if stop < |data| then stop + 1 else |data|
  {
    FirstFromIs(data, pos, '\n', '\0', stop);
  }

  // ----- reading one -----

  /** The characters stored for the first n characters of a line. */
  ghost predicate HasRead(buffer: array<char>, data: string, pos: nat, n: nat)
    reads buffer
  {
    && pos + n <= |data| && n < buffer.Length
    && (forall i :: pos <= i < pos + n ==> data[i] != '\n' && data[i] != '\0')
    && forall i :: 0 <= i < n ==> buffer[i] == if data[pos + i] == '\r' then '\0' else data[pos + i]
  }

  /** `realloc` to twice the size. */
  method Doubled(buffer: array<char>) returns (larger: array<char>)
    ensures fresh(larger) && larger.Length == 2 * buffer.Length
    ensures forall i :: 0 <= i < buffer.Length ==> larger[i] == buffer[i]
  {
    larger := new char[2 * buffer.Length](i reads buffer => if 0 <= i < buffer.Length then buffer[i] else '\0');
  }

  /** Stores c at position n of the line and makes room for one more. */
  method Store(buffer: array<char>, n: nat, c: char, ghost data: string, ghost pos: nat) returns (larger: array<char>)
    requires HasRead(buffer, data, pos, n) && pos + n < |data| && data[pos + n] == c && c != '\n' && c != '\0'
    modifies buffer
    ensures larger == buffer || fresh(larger)
    ensures HasRead(larger, data, pos, n + 1)
  {
    buffer[n] := if c == '\r' then '\0' else c;
    larger := buffer;
    if n + 1 > buffer.Length - 1 {
      larger := Doubled(buffer);
    }
  }

  /** A finished line's buffer denotes its text. */
  lemma TextIs(buffer: array<char>, data: string, pos: nat, n: nat)
    requires HasRead(buffer, data, pos, n) && pos + n < |data| && data[pos + n] == '\n' && buffer[n] == '\0'
    ensures LineAt(data, pos).Some? && AfterLine(data, pos) == pos + n + 1
    ensures Spans(buffer, LineAt(data, pos).value, 0, |LineAt(data, pos).value|)
  {
    FirstFromIs(data, pos, '\n', '\0', pos + n);
    FirstFromSpec(data, pos, '\r', '\n');
    var end := TextEnd(data, pos);
    assert end <= pos + n;
    assert end - pos < n ==> data[end] == '\r';
  }

  /** Reads one line into a buffer that doubles when it is full; null without a line feed. */
  method ReadLine(socket: Stream) returns (line: array?<char>)
    requires socket.Valid()
    modifies socket
    ensures socket.Valid() && socket.pos == AfterLine(socket.data, old(socket.pos))
    ensures line != null <==> LineAt(socket.data, old(socket.pos)).Some?
    ensures line != null ==>
              var text := LineAt(socket.data, old(socket.pos)).value;
              fresh(line) && Spans(line, text, 0, |text|) && IsCString(text) && Without(text, '\r', '\n')
  {
    ghost var data, pos := socket.data, socket.pos;
    var buffer := new char[BUFSIZ](_ => '\0');
    var n := 0;
    while true
      invariant socket.Valid() && fresh(buffer) && socket.pos == pos + n
      invariant HasRead(buffer, data, pos, n)
      decreases |data| - socket.pos
    {
      var c := socket.Fgetc();
      if c <= 0 {
        FirstFromIs(data, pos, '\n', '\0', pos + n);
        return null;
      }
      if c == '\n' as int {
        buffer[n] := '\0';
        TextIs(buffer, data, pos, n);
        LineIsText(data, pos);
        return buffer;
      }
      buffer := Store(buffer, n, c as char, data, pos);
      n := n + 1;
    }
  }
}
