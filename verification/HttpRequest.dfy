/** Reading one request from the stream, and the grammar of what is accepted. */
module HttpRequest {
  import opened Text
  import opened HttpStream
  import opened HttpHeader

  datatype RequestLine = RequestLine(method_: string, target: string, version: string)
  datatype Request = Request(line: RequestLine, fields: seq<Field>, body: string)
  datatype Limits = Limits(maxLine: int, maxHeaders: int, maxBody: int)
  datatype LineResult = Line(line: RequestLine) | BadLine(fault: Fault)

  function ParseRequestLine(line: string): LineResult {
    var parts := Split(line, ' ');
    if |parts| != 3 then BadLine(MalformedRequestLine)
    else
      var m, target, version := parts[0], parts[1], parts[2];
      if m == "" || target == "" || version == "" then BadLine(MalformedRequestLine)
      else if ContainsAny(m, "\r\n\t") || ContainsAny(target, "\r\n\t") || ContainsAny(version, "\r\n\t") then
        BadLine(MalformedRequestLine)
      else if version != "HTTP/1.1" && version != "HTTP/1.0" then BadLine(UnsupportedVersion)
      else Line(RequestLine(m, target, version))
  }

  function ValidateRequestHeaders(line: RequestLine, fields: seq<Field>): Option<Fault> {
    if line.version == "HTTP/1.1" && !HasNonEmptyHeader(fields, "Host") then Some(MissingHost)
    else if HasNonEmptyHeader(fields, "Transfer-Encoding") then Some(UnsupportedTransferEncoding)
    else None
  }

  /** What follows the header section. */
  function TakeRest(line: RequestLine, fields: seq<Field>, s: string, end: StreamEnd, maxBody: int)
    : (p: Parsed<Request>)
    ensures |p.rest| <= |s|
  {
    var refused := ValidateRequestHeaders(line, fields);
    if refused.Some? then Fail(refused.value, s)
    else
      match LengthFrom(fields, None)
      case Refused(fault) => Fail(fault, s)
      case Absent => Ok(Request(line, fields, ""), s)
      case Known(n) =>
        match TakeBody(s, end, n, maxBody)
        case Fail(fault, rest) => Fail(fault, rest)
        case Ok(body, rest) => Ok(Request(line, fields, body), rest)
  }

  function TakeRequest(s: string, end: StreamEnd, limits: Limits): (p: Parsed<Request>)
    ensures |p.rest| <= |s|
    ensures p.Ok? ==> |p.rest| < |s|
  {
    match TakeLine(s, end, limits.maxLine)
    case Fail(fault, rest) => Fail(fault, rest)
    case Ok(text, rest) =>
      match ParseRequestLine(text)
      case BadLine(fault) => Fail(fault, rest)
      case Line(line) =>
        match TakeFields(rest, end, limits.maxLine, limits.maxHeaders, [])
        case Fail(fault, rest) => Fail(fault, rest)
        case Ok(fields, rest) => TakeRest(line, fields, rest, end, limits.maxBody)
  }

  /** The outcome, and what is left for the next request, depend on the bytes sent alone: not on how
      reads cut them up, nor on what sits in the buffer. */
  method ReadRequest(reader: LineReader, limits: Limits) returns (p: Parsed<Request>)
    requires reader.Valid() && limits.maxLine == reader.maxLine
    modifies reader
    ensures reader.Valid() && p == TakeRequest(old(reader.Pending()), reader.end, limits)
    ensures p.rest == reader.Pending()
  {
    hide TakeLine, TakeFields, ParseRequestLine, TakeBody, LengthFrom, ValidateRequestHeaders, Concat;
    var text := reader.ReadLine();
    if text.Fail? {
      return Fail(text.fault, text.rest);
    }
    var line := ParseRequestLine(text.value);
    if line.BadLine? {
      return Fail(line.fault, text.rest);
    }
    var headers := ReadHeaderFields(reader, limits.maxHeaders);
    if headers.Fail? {
      return Fail(headers.fault, headers.rest);
    }
    var refused := ValidateRequestHeaders(line.line, headers.value);
    if refused.Some? {
      return Fail(refused.value, headers.rest);
    }
    var length := ContentLength(headers.value);
    match length {
      case Refused(fault) => return Fail(fault, headers.rest);
      case Absent => return Ok(Request(line.line, headers.value, ""), headers.rest);
      case Known(n) =>
        var body := reader.ReadFixedBody(n, limits.maxBody);
        if body.Fail? {
          return Fail(body.fault, body.rest);
        }
        return Ok(Request(line.line, headers.value, body.value), body.rest);
    }
  }

  // ----- the request line ----------------------------------------------------------------------

  predicate WellFormedLine(line: RequestLine) {
    && Word(line.method_) && Word(line.target)
    && (line.version == "HTTP/1.1" || line.version == "HTTP/1.0")
  }

  predicate Word(s: string) {
    s != "" && !ContainsAny(s, "\r\n\t") && ' ' !in s
  }

  function PrintLine(line: RequestLine): string {
    line.method_ + " " + (line.target + " " + line.version)
  }

  lemma PlainWord(s: string)
    requires s != "" && forall c :: c in s ==> c > ' '
    ensures Word(s)
  {
    forall i | 0 <= i < |s| ensures s[i] !in "\r\n\t" {
      assert s[i] in s;
    }
  }

  lemma VersionsAreWords()
    ensures Word("HTTP/1.1") && Word("HTTP/1.0")
  {
    PlainWord("HTTP/1.1");
    PlainWord("HTTP/1.0");
  }

  lemma JoinThree(a: string, b: string, c: string)
    ensures Join([a, b, c], " ") == a + " " + (b + " " + c)
  {
    assert [a, b, c][1..] == [b, c] && [b, c][1..] == [c];
    assert Join([c], " ") == c;
    assert Join([b, c], " ") == b + " " + c;
  }

  lemma PrintedLineParses(line: RequestLine)
    requires WellFormedLine(line)
    ensures ParseRequestLine(PrintLine(line)) == Line(line)
  {
    hide ContainsAny;
    VersionsAreWords();
    var parts := [line.method_, line.target, line.version];
    JoinThree(line.method_, line.target, line.version);
    assert [' '] == " ";
    SplitJoin(parts, ' ');
  }

  lemma ParsedLineIsPrinted(text: string)
    requires ParseRequestLine(text).Line?
    ensures WellFormedLine(ParseRequestLine(text).line) && text == PrintLine(ParseRequestLine(text).line)
  {
    hide ContainsAny, Split, Join;
    var parts := Split(text, ' ');
    var line := ParseRequestLine(text).line;
    assert parts == [line.method_, line.target, line.version];
    JoinThree(line.method_, line.target, line.version);
    JoinSplit(text, ' ');
    assert [' '] == " ";
    SplitParts(text, ' ');
    assert parts[0] in parts && parts[1] in parts;
  }
}
