/** The buffered byte stream of one connection, and the two ways HTTP/1.x takes bytes from it: a CRLF
    line of bounded length, and a body of exactly known length. */
module HttpStream {
  import opened Text

  // What a read reports once the client's bytes are used up.
  datatype StreamEnd = Eof | TimedOut | Broken

  datatype Fault =
    | LineTooLong | LineEnding | UnexpectedEof | UnexpectedBodyEof | ReadTimeout | ReadFailed
    | MalformedHeader | TooManyHeaders | InvalidContentLength | ConflictingHeader
    | MalformedRequestLine | UnsupportedVersion | MissingHost | UnsupportedTransferEncoding | BodyTooLarge

  // The outcome of taking something from a stream, and the bytes left in it.
  datatype Parsed<+T> = Ok(value: T, rest: string) | Fail(fault: Fault, rest: string)

  function Cut(end: StreamEnd, eof: Fault): Fault {
    match end
    case Eof => eof
    case TimedOut => ReadTimeout
    case Broken => ReadFailed
  }

  /** A line without its CRLF; a positive limit counts the line ending. */
  function TakeLine(s: string, end: StreamEnd, maxLine: int): (p: Parsed<string>)
    ensures |p.rest| <= |s|
    ensures p.Ok? ==> |p.rest| + |p.value| + 2 == |s|
  {
    var i := IndexOf(s, '\n');
    if maxLine > 0 && i >= maxLine && |s| > maxLine then Fail(LineTooLong, s[maxLine + 1..])
    else if i == |s| then Fail(Cut(end, UnexpectedEof), "")
    else if i == 0 || s[i - 1] != '\r' then Fail(LineEnding, s[i + 1..])
    else Ok(s[..i - 1], s[i + 1..])
  }

  /** Exactly length bytes. */
  function TakeBody(s: string, end: StreamEnd, length: int, maxBody: int): (p: Parsed<string>)
    ensures |p.rest| <= |s|
  {
    if length < 0 then Fail(InvalidContentLength, s)
    else if maxBody > 0 && length > maxBody then Fail(BodyTooLarge, s)
    else if length <= |s| then Ok(s[..length], s[length..])
    else Fail(Cut(end, UnexpectedBodyEof), "")
  }

  lemma IndexOfAbsent(s: string, c: char)
    requires forall i :: 0 <= i < |s| ==> s[i] != c
    ensures IndexOf(s, c) == |s|
  {
  }

  lemma PopFront(buffer: string, tail: string)
    requires buffer != ""
    ensures (buffer + tail)[0] == buffer[0] && (buffer + tail)[1..] == buffer[1..] + tail
  {
  }

  lemma CutFront(chunk: string, n: nat, tail: string)
    requires n <= |chunk|
    ensures chunk[..n] + (chunk[n..] + tail) == chunk + tail
  {
  }

  lemma LineEnds(s: string, line: string, rest: string, end: StreamEnd, maxLine: int)
    requires s == line + rest && line != "" && line[|line| - 1] == '\n' && '\n' !in line[..|line| - 1]
    requires maxLine > 0 ==> |line| <= maxLine
    ensures TakeLine(s, end, maxLine)
            == if |line| < 2 || line[|line| - 2] != '\r' then Fail(LineEnding, rest) else Ok(line[..|line| - 2], rest)
  {
    var n := |line| - 1;
    assert forall i :: 0 <= i < n ==> s[i] == line[..n][i];
    IndexOfUnique(s, '\n', n);
    assert s[n + 1..] == rest;
    assert n > 0 ==> s[n - 1] == line[n - 1] && s[..n - 1] == line[..n - 1];
  }

  lemma LineMissing(s: string, line: string, end: StreamEnd, maxLine: int)
    requires s == line + "" && '\n' !in line && (maxLine > 0 ==> |line| <= maxLine)
    ensures TakeLine(s, end, maxLine) == Fail(Cut(end, UnexpectedEof), "")
  {
    IndexOfAbsent(s, '\n');
  }

  lemma LineOverflows(s: string, line: string, rest: string, end: StreamEnd, maxLine: int)
    requires s == line + rest && maxLine > 0 && |line| == maxLine + 1 && '\n' !in line[..maxLine]
    ensures TakeLine(s, end, maxLine) == Fail(LineTooLong, rest)
  {
    assert forall i :: 0 <= i < maxLine ==> s[i] == line[..maxLine][i];
    assert s[maxLine + 1..] == rest;
  }

  // ----- the reader ----------------------------------------------------------------------------

  const BUFFER_SIZE := 4096
  const BODY_CHUNK := 4096

  class LineReader {
    // Bytes read from the connection but not yet handed out, then the reads still to come.
    var buffer: string
    var incoming: seq<string>
    const end: StreamEnd
    const maxLine: int

    predicate Valid()
      reads this
    {
      forall i :: 0 <= i < |incoming| ==> incoming[i] != ""
    }

    /** The bytes the client sent that are still unread, however they arrive. */
    function Pending(): string
      reads this
    {
      buffer + Concat(incoming)
    }

    constructor (incoming: seq<string>, end: StreamEnd, maxLine: int)
      requires forall i :: 0 <= i < |incoming| ==> incoming[i] != ""
      ensures Valid() && Pending() == Concat(incoming) && this.end == end && this.maxLine == maxLine
    {
      this.buffer := "";
      this.incoming := incoming;
      this.end := end;
      this.maxLine := maxLine;
      new;
      assert "" + Concat(incoming) == Concat(incoming);
    }

    /** One read from the connection into at most size bytes; the rest of a longer one stays there. */
    method ReadConn(size: nat) returns (data: string)
      requires Valid() && size > 0 && buffer == "" && incoming != []
      modifies this`incoming
      ensures Valid() && data != "" && |data| <= size
      ensures data + Concat(incoming) == Concat(old(incoming))
    {
      var chunk := incoming[0];
      if |chunk| <= size {
        incoming := incoming[1..];
        return chunk;
      }
      CutFront(chunk, size, Concat(incoming[1..]));
      data := chunk[..size];
      incoming := [chunk[size..]] + incoming[1..];
    }

    method ReadByte() returns (b: Option<char>)
      requires Valid()
      modifies this
      ensures Valid()
      ensures old(Pending()) == "" ==> b == None && Pending() == ""
      ensures old(Pending()) != "" ==> b == Some(old(Pending())[0]) && Pending() == old(Pending())[1..]
    {
      if buffer == "" {
        if incoming == [] {
          return None;
        }
        buffer := ReadConn(BUFFER_SIZE);
      }
      PopFront(buffer, Concat(incoming));
      b := Some(buffer[0]);
      buffer := buffer[1..];
    }

    /** A read of at most size bytes: large ones go past the buffer. Empty means the stream ended. */
    method Read(size: nat) returns (data: string)
      requires Valid() && size > 0
      modifies this
      ensures Valid() && |data| <= size && data + Pending() == old(Pending())
      ensures data == "" <==> old(Pending()) == ""
    {
      if buffer == "" {
        if incoming == [] {
          return "";
        }
        if size >= BUFFER_SIZE {
          data := ReadConn(size);
          assert "" + Concat(incoming) == Concat(incoming);
          return;
        }
        buffer := ReadConn(BUFFER_SIZE);
      }
      var n := if size < |buffer| then size else |buffer|;
      CutFront(buffer, n, Concat(incoming));
      data := buffer[..n];
      buffer := buffer[n..];
    }

    method ReadLine() returns (p: Parsed<string>)
      requires Valid()
      modifies this
      ensures Valid() && p == TakeLine(old(Pending()), end, maxLine) && p.rest == Pending()
    {
      hide TakeLine, Concat;
      ghost var s := Pending();
      var line := "";
      while true
        invariant Valid() && s == line + Pending()
        invariant '\n' !in line && (maxLine > 0 ==> |line| <= maxLine)
        decreases |Pending()|
      {
        ghost var before := Pending();
        var b := ReadByte();
        if b.None? {
          LineMissing(s, line, end, maxLine);
          return Fail(Cut(end, UnexpectedEof), Pending());
        }
        Glued(line, [b.value], Pending());
        assert before == [b.value] + Pending();
        assert (line + [b.value])[..|line|] == line;
        line := line + [b.value];
        if maxLine > 0 && |line| > maxLine {
          LineOverflows(s, line, Pending(), end, maxLine);
          return Fail(LineTooLong, Pending());
        }
        if b.value == '\n' {
          LineEnds(s, line, Pending(), end, maxLine);
          if |line| < 2 || line[|line| - 2] != '\r' {
            return Fail(LineEnding, Pending());
          }
          return Ok(line[..|line| - 2], Pending());
        }
      }
    }

    method ReadFixedBody(length: int, maxBody: int) returns (p: Parsed<string>)
      requires Valid()
      modifies this
      ensures Valid() && p == TakeBody(old(Pending()), end, length, maxBody) && p.rest == Pending()
    {
      if length < 0 {
        return Fail(InvalidContentLength, Pending());
      }
      if maxBody > 0 && length > maxBody {
        return Fail(BodyTooLarge, Pending());
      }
      ghost var s := Pending();
      var body := "";
      var remaining := length;
      while remaining > 0
        invariant 0 <= remaining && remaining + |body| == length
        invariant Valid() && s == body + Pending()
      {
        var size := if remaining < BODY_CHUNK then remaining else BODY_CHUNK;
        var data := Read(size);
        if data == "" {
          return Fail(Cut(end, UnexpectedBodyEof), Pending());
        }
        Glued(body, data, Pending());
        body := body + data;
        remaining := remaining - |data|;
      }
      return Ok(body, Pending());
    }
  }

  // ----- what a line costs ---------------------------------------------------------------------

  /** A line takes at most its limit from the stream, and one byte more only to find it too long. */
  lemma LineIsBounded(s: string, end: StreamEnd, maxLine: int)
    requires maxLine > 0
    ensures
      var p := TakeLine(s, end, maxLine);
      |s| - |p.rest| <= if p == Fail(LineTooLong, p.rest) then maxLine + 1 else maxLine
  {
  }

  lemma PrintedLine(line: string, rest: string, end: StreamEnd, maxLine: int)
    requires '\n' !in line && (maxLine > 0 ==> |line| + 2 <= maxLine)
    ensures TakeLine(line + "\r\n" + rest, end, maxLine) == Ok(line, rest)
  {
    hide TakeLine;
    var whole := line + "\r\n";
    assert whole[..|whole| - 1] == line + "\r" && whole[..|whole| - 2] == line;
    LineEnds(whole + rest, whole, rest, end, maxLine);
  }

  lemma AcceptedLine(s: string, end: StreamEnd, maxLine: int)
    requires TakeLine(s, end, maxLine).Ok?
    ensures
      var p := TakeLine(s, end, maxLine);
      s == p.value + "\r\n" + p.rest && '\n' !in p.value && (maxLine > 0 ==> |p.value| + 2 <= maxLine)
  {
    var i := IndexOf(s, '\n');
    CutInThree(s, i - 1, 2);
    assert s[i - 1..][..2] == "\r\n" && s[i - 1..][2..] == s[i + 1..];
  }

  /** A line is accepted exactly when it is there, ends in CRLF and fits. */
  lemma LineAccepted(s: string, end: StreamEnd, maxLine: int, line: string, rest: string)
    ensures TakeLine(s, end, maxLine) == Ok(line, rest)
            <==> s == line + "\r\n" + rest && '\n' !in line && (maxLine > 0 ==> |line| + 2 <= maxLine)
  {
    hide TakeLine;
    if TakeLine(s, end, maxLine).Ok? {
      AcceptedLine(s, end, maxLine);
    }
    if '\n' !in line && (maxLine > 0 ==> |line| + 2 <= maxLine) {
      PrintedLine(line, rest, end, maxLine);
    }
  }

  /** Nothing refuses the line yet, and its line feed has not come. */
  predicate OpenLine(s: string, maxLine: int) {
    '\n' !in s && (maxLine > 0 ==> |s| <= maxLine)
  }

  /** A line is too long when its limit passes without a line feed, badly ended when its first line feed has
      no carriage return before it, and cut when the stream ends first. */
  lemma LineRefused(s: string, end: StreamEnd, maxLine: int)
    ensures
      var p, i := TakeLine(s, end, maxLine), IndexOf(s, '\n');
      && (p.Fail? && p.fault == LineTooLong <==> maxLine > 0 && |s| > maxLine && '\n' !in s[..maxLine])
      && (p.Fail? && p.fault == LineEnding <==>
            i < |s| && (maxLine > 0 ==> i < maxLine) && (i == 0 || s[i - 1] != '\r'))
      && (p.Fail? && p.fault == Cut(end, UnexpectedEof) <==> OpenLine(s, maxLine))
      && (p.Fail? ==> p.fault == LineTooLong || p.fault == LineEnding || p.fault == Cut(end, UnexpectedEof))
  {
    var i := IndexOf(s, '\n');
    if i < |s| {
      assert s[i] in s;
      assert maxLine > 0 && i < maxLine < |s| ==> s[..maxLine][i] == '\n';
    }
  }
}
