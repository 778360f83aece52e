/** What a connection answers, from the bytes it receives: the exact bytes of every error response, and when
    a response is the last. */
module HttpAnswers {
  import opened Text
  import opened HttpStream
  import opened HttpHeader
  import opened HttpRequest
  import opened HttpGrammar
  import opened HttpFaults
  import opened HttpResponse
  import opened HttpClient
  import opened HttpServe

  // ----- error responses -----------------------------------------------------------------------

  /** The fields of an error response and the empty line after them. */
  function ErrorFieldText(length: string): string {
    "Content-Type: text/plain; charset=utf-8\r\n"
    + ("Connection: close\r\n"
       + ("Content-Length: " + length + "\r\n" + "\r\n"))
  }

  /** An error response as it goes out; length is that of the text and its line feed. */
  function ErrorBytes(code: string, phrase: string, length: string, text: string): string {
    "HTTP/1.1 " + code + " " + phrase + "\r\n" + ErrorFieldText(length) + (text + "\n")
  }

  /** What a refused read is answered with. */
  ghost function RefusalFor(s: string, end: StreamEnd, limits: Limits): string {
    if end.TimedOut? && Unfinished(s, limits) then ErrorBytes("408", "Request Timeout", "16", "request timeout")
    else if TooLarge(s, limits) then ErrorBytes("413", "Content Too Large", "18", "content too large")
    else if Coded(s, limits) then
      ErrorBytes("501", "Not Implemented", "37", "transfer encoding is not implemented")
    else ErrorBytes("400", "Bad Request", "12", "bad request")
  }

  lemma ThreeFields(a: Field, b: Field, c: Field)
    ensures PrintFields(WireAll([a, b, c]))
            == PrintField(WireOf(a)) + "\r\n"
               + (PrintField(WireOf(b)) + "\r\n" + (PrintField(WireOf(c)) + "\r\n" + "\r\n"))
  {
    hide PrintField;
    var x, y, z := WireOf(a), WireOf(b), WireOf(c);
    assert WireAll([a, b, c]) == [x, y, z];
    assert [z][1..] == [] && [y, z][1..] == [z] && [x, y, z][1..] == [y, z];
    assert PrintFields([z]) == PrintField(z) + "\r\n" + "\r\n";
    assert PrintFields([y, z]) == PrintField(y) + "\r\n" + PrintFields([z]);
  }

  lemma FieldText(f: Field)
    ensures PrintField(WireOf(f)) == f.name + ": " + f.value
  {
    assert ": " == ":" + " ";
    assert f.name + ":" + (" " + f.value + "") == f.name + (":" + " ") + f.value;
  }

  lemma ErrorHeadText(status: int, text: string)
    requires status in {400, 408, 413, 501} && 0 < |text| < 100 && text[|text| - 1] != '\n'
    ensures
      HeadText(Closing(ErrorResponse(status, text), true))
      == "HTTP/1.1 " + FormatDecimal(status) + " " + StatusText(status) + "\r\n"
         + ErrorFieldText(FormatDecimal(|text| + 1))
  {
    hide Kept, EqualFold, StatusText, FormatDecimal, PrintField, EmittedFields, PrintFields;
    var r := Closing(ErrorResponse(status, text), true);
    ErrorFields(r);
    SmallStatusText(status);
    var length := LengthFieldOf(r.body);
    ErrorFieldsPrinted(length, FormatDecimal(|text| + 1));
    ErrorLine(FormatDecimal(status), StatusText(status));
  }

  lemma ErrorLine(code: string, phrase: string)
    ensures "HTTP/1.1" + " " + code + " " + phrase == "HTTP/1.1 " + code + " " + phrase
  {
    assert "HTTP/1.1" + " " == "HTTP/1.1 ";
  }

  lemma ErrorFieldsPrinted(length: Field, digits: string)
    requires length == Field("Content-Length", digits)
    ensures PrintFields(WireAll([TEXT_FIELD, CLOSE_FIELD, length])) == ErrorFieldText(digits)
  {
    hide PrintField, PrintFields;
    ThreeFields(TEXT_FIELD, CLOSE_FIELD, length);
    FieldText(TEXT_FIELD);
    FieldText(CLOSE_FIELD);
    FieldText(length);
    ErrorFieldLines(digits);
  }

  lemma ErrorFieldLines(digits: string)
    ensures "Content-Type" + ": " + "text/plain; charset=utf-8" + "\r\n"
            == "Content-Type: text/plain; charset=utf-8\r\n"
    ensures "Connection" + ": " + "close" + "\r\n" == "Connection: close\r\n"
    ensures "Content-Length" + ": " + digits + "\r\n" + "\r\n" == "Content-Length: " + digits + "\r\n" + "\r\n"
  {
    assert "Content-Length" + ": " == "Content-Length: ";
  }

  /** The response for an error status, byte by byte. */
  lemma ErrorRendered(status: int, text: string)
    requires status in {400, 408, 413, 501} && 0 < |text| < 100 && text[|text| - 1] != '\n'
    ensures
      Render(Closing(ErrorResponse(status, text), true))
      == Plain(ErrorBytes(FormatDecimal(status), StatusText(status), FormatDecimal(|text| + 1), text))
  {
    hide Render, StatusText, FormatDecimal, ClientReadable, HeadText;
    var r := Closing(ErrorResponse(status, text), true);
    SmallErrorDeliverable(status, text);
    ResponseBytes(r);
    ErrorHeadText(status, text);
  }

  lemma ErrorFields(r: Response)
    requires r.fields == [TEXT_FIELD, CLOSE_FIELD] && r.body.Bytes? && r.status in {400, 408, 413, 501} && !r.chunked
    ensures EmittedFields(r) == [TEXT_FIELD, CLOSE_FIELD, LengthFieldOf(r.body)]
  {
    hide LengthFieldOf, Dropped;
    NeitherDropped();
    assert [TEXT_FIELD, CLOSE_FIELD][1..] == [CLOSE_FIELD] && [CLOSE_FIELD][1..] == [];
    assert Kept([CLOSE_FIELD], false) == [CLOSE_FIELD] + [];
    assert Kept(r.fields, false) == [TEXT_FIELD] + [CLOSE_FIELD];
  }

  lemma NeitherDropped()
    ensures !Dropped(TEXT_FIELD, false) && !Dropped(CLOSE_FIELD, false)
  {
  }

  lemma Digits()
    ensures FormatDecimal(408) == "408" && FormatDecimal(413) == "413"
    ensures FormatDecimal(501) == "501" && FormatDecimal(400) == "400"
    ensures FormatDecimal(16) == "16" && FormatDecimal(18) == "18"
    ensures FormatDecimal(37) == "37" && FormatDecimal(12) == "12"
  {
    assert FormatDecimal(40) == "40" && FormatDecimal(41) == "41" && FormatDecimal(50) == "50";
  }

  lemma PhraseFor(fault: Fault)
    ensures
      Render(Closing(ErrorFor(fault), true))
      == Plain(match fault
               case ReadTimeout => ErrorBytes("408", "Request Timeout", "16", "request timeout")
               case BodyTooLarge => ErrorBytes("413", "Content Too Large", "18", "content too large")
               case UnsupportedTransferEncoding =>
                 ErrorBytes("501", "Not Implemented", "37", "transfer encoding is not implemented")
               case _ => ErrorBytes("400", "Bad Request", "12", "bad request"))
  {
    hide Render, ErrorBytes, FormatDecimal, Closing, ErrorResponse;
    Digits();
    match fault
    case ReadTimeout => ErrorRendered(408, "request timeout");
    case BodyTooLarge => ErrorRendered(413, "content too large");
    case UnsupportedTransferEncoding => ErrorRendered(501, "transfer encoding is not implemented");
    case _ => ErrorRendered(400, "bad request");
  }

  /** A read that finds no well-formed request is answered once, and the bytes of the answer depend on the
      bytes received alone: 408 when the client was too slow to finish what it had begun, 413 for a stated
      length above the limit, 501 for a transfer coding, and 400 for everything else. */
  lemma RefusedReadIsAnswered(s: string, end: StreamEnd, limits: Limits, app: App, history: seq<Request>)
    requires !StartsWithRequest(s, limits)
    ensures RenderAll(Responses(s, end, limits, app, history)) == Plain(RefusalFor(s, end, limits))
  {
    hide Render, TakeRequest, ErrorBytes, Unfinished, TooLarge, Coded, StartsWithRequest, ErrorFor, Closing;
    FaultIff(s, end, limits);
    LastStep(s, end, limits, app, history);
    var p := TakeRequest(s, end, limits);
    PhraseFor(p.fault);
    var answer := Closing(ErrorFor(p.fault), true);
    assert [answer] + [] == [answer];
    RenderCons(answer, []);
    NothingLeft();
    ThenPlain(Render(answer), Render(answer));
  }

  // ----- limits that are not set ---------------------------------------------------------------

  lemma DefaultLimits(h: Settings)
    requires h.maxLine <= 0 && h.maxHeaders <= 0 && h.maxBody <= 0
    ensures LimitsOf(h) == Limits(8192, 100, 1048576)
  {
  }

  lemma OneLength(fields: seq<Field>, m: nat, n: nat)
    requires LengthStated(fields, m) && LengthStated(fields, n)
    ensures m == n
  {
    hide LengthField;
  }

  /** Without settings a request line takes 8190 bytes, a header section 100 fields and a body 1048576
      bytes: a head within the first two is answered 413 exactly when it states more than the third. */
  lemma DefaultBodyLimit(h: Settings, line: RequestLine, ws: seq<WireField>, rest: string, n: nat, end: StreamEnd)
    requires h.maxLine <= 0 && h.maxHeaders <= 0 && h.maxBody <= 0
    requires WellFormedLine(line) && |PrintLine(line)| <= 8190 && |ws| <= 100
    requires forall i :: 0 <= i < |ws| ==> WellFormedField(ws[i]) && |PrintField(ws[i])| <= 8190
    requires Hosted(line, ws) && NoCoding(FieldsOf(ws)) && LengthStated(FieldsOf(ws), n)
    ensures
      var p := TakeRequest(Head(line, ws) + rest, end, LimitsOf(h));
      p.Fail? && p.fault == BodyTooLarge <==> n > 1048576
  {
    hide TakeRequest, TakeRest, WellFormedLine, PrintLine, PrintField, WellFormedField, Head, HasHost, NoCoding,
      LengthStated, LimitsOf, PrintFields;
    DefaultLimits(h);
    var limits := LimitsOf(h);
    HeadTaken(line, ws, rest, end, limits);
    RefusedFor(line, FieldsOf(ws), rest, end, limits.maxBody);
    RestFails(line, FieldsOf(ws), rest, end, limits.maxBody);
    if m :| LengthStated(FieldsOf(ws), m) && 0 < limits.maxBody < m {
      OneLength(FieldsOf(ws), m, n);
    }
  }

  // ----- the last response ---------------------------------------------------------------------

  /** The value is a list with commas that has the token, in any case, as an element between blanks. */
  ghost predicate ListedAt(value: string, token: string, parts: seq<string>, i: nat, pre: string, t: string,
                           post: string)
  {
    && i < |parts| && (forall p :: p in parts ==> ',' !in p) && value == Join(parts, ",")
    && parts[i] == pre + t + post && Blank(pre) && Blank(post) && EqualFold(t, token)
  }

  ghost predicate Lists(value: string, token: string) {
    exists parts, i, pre, t, post :: ListedAt(value, token, parts, i, pre, t, post)
  }

  lemma FoldedIsTrimmed(t: string, token: string)
    requires EqualFold(t, token) && IsTrimmed(token, BLANKS)
    ensures IsTrimmed(t, BLANKS)
  {
    EqualFoldIff(t, token);
  }

  lemma ListedPart(value: string, token: string)
    requires IsTrimmed(token, BLANKS)
    ensures Lists(value, token) <==> exists part :: part in Split(value, ',') && EqualFold(Trim(part, BLANKS), token)
  {
    hide Split, Join, EqualFold, IsTrimmed, Trim;
    assert [','] == ",";
    if Lists(value, token) {
      var parts, i, pre, t, post :| ListedAt(value, token, parts, i, pre, t, post);
      SplitJoin(parts, ',');
      FoldedIsTrimmed(t, token);
      TrimPadding(pre, t, post, BLANKS);
      assert parts[i] in parts;
    }
    if part :| part in Split(value, ',') && EqualFold(Trim(part, BLANKS), token) {
      var parts := Split(value, ',');
      var i :| 0 <= i < |parts| && parts[i] == part;
      var pre, post := TrimSplits(part, BLANKS);
      JoinSplit(value, ',');
      SplitParts(value, ',');
      assert ListedAt(value, token, parts, i, pre, Trim(part, BLANKS), post);
    }
  }

  /** The request speaks HTTP/1.0, or one of its Connection fields lists the token close. */
  ghost predicate AsksToClose(request: Request) {
    || request.line.version != "HTTP/1.1"
    || exists f :: f in request.fields && EqualFold(f.name, "Connection") && Lists(f.value, "close")
  }

  lemma CloseIff(request: Request)
    ensures ShouldClose(request) <==> AsksToClose(request)
  {
    hide Split, EqualFold, Trim, Lists;
    CloseTrimmed();
    forall f | f in request.fields
      ensures Lists(f.value, "close")
              <==> exists part :: part in Split(f.value, ',') && EqualFold(Trim(part, BLANKS), "close")
    {
      ListedPart(f.value, "close");
    }
  }

  lemma CloseTrimmed()
    ensures IsTrimmed("close", BLANKS)
  {
  }

  /** A well-formed request gets the application's response, with Connection: close added when the request
      asks for it, and then, or after a switch of protocols, the connection ends; otherwise the bytes after
      the request are next. */
  lemma RequestIsAnswered(w: WireRequest, rest: string, end: StreamEnd, limits: Limits, app: App,
                          history: seq<Request>)
    requires WellFormed(w, limits)
    ensures
      var request := RequestOf(w);
      var wanted, close := app(history + [request]), AsksToClose(request);
      Responses(Print(w) + rest, end, limits, app, history)
      == [if close then wanted.(fields := wanted.fields + [Field("Connection", "close")]) else wanted]
         + (if close || wanted.status == 101 then [] else Responses(rest, end, limits, app, history + [request]))
  {
    hide WellFormed, TakeRequest, Print, ShouldClose, AsksToClose, RequestOf, ErrorFor;
    PrintedRequestParses(w, rest, end, limits);
    CloseIff(RequestOf(w));
  }

  // ----- the smallest request ------------------------------------------------------------------

  const GET_LINE := RequestLine("GET", "/", "HTTP/1.1")
  const HOST_FIELD := WireField("Host", " ", "example.com", "")

  lemma GetIsWellFormed(limits: Limits)
    requires limits.maxLine > 0 ==> limits.maxLine >= 19
    ensures WellFormed(WireRequest(GET_LINE, [HOST_FIELD], ""), limits)
  {
    hide EqualFold, ContainsAny, IsTrimmed, PrintLine, PrintField;
    PlainWord("GET");
    PlainWord("/");
    GraphicName("Host");
    GraphicText("example.com");
    TrimmedText("example.com");
    GetText();
    HostNames();
    var fields := FieldsOf([HOST_FIELD]);
    assert fields == [Field("Host", "example.com")] && fields[0] in fields;
    assert forall f :: f in fields ==> f == Field("Host", "example.com");
  }

  lemma HostNames()
    ensures EqualFold("Host", "Host") && !EqualFold("Host", "Transfer-Encoding") && !EqualFold("Host", "Content-Length")
    ensures ':' !in "Host"
  {
  }

  lemma GetText()
    ensures PrintLine(GET_LINE) == "GET / HTTP/1.1" && PrintField(HOST_FIELD) == "Host: example.com"
  {
    assert "GET" + " " + ("/" + " " + "HTTP/1.1") == "GET / HTTP/1.1";
    assert "Host" + ":" + (" " + "example.com" + "") == "Host: example.com";
  }

  lemma GetBytes()
    ensures Print(WireRequest(GET_LINE, [HOST_FIELD], "")) == "GET / HTTP/1.1\r\nHost: example.com\r\n\r\n"
  {
    hide PrintLine, PrintField;
    GetText();
    assert [HOST_FIELD][1..] == [];
    assert "Host: example.com" + "\r\n" + "\r\n" == "Host: example.com\r\n\r\n";
    assert PrintFields([HOST_FIELD]) == "Host: example.com\r\n\r\n";
    assert "GET / HTTP/1.1" + "\r\n" == "GET / HTTP/1.1\r\n";
  }

  /** A GET with nothing but a Host is accepted by every limit its lines fit. */
  lemma PlainGetIsRead(rest: string, end: StreamEnd, limits: Limits)
    requires limits.maxLine > 0 ==> limits.maxLine >= 19
    ensures TakeRequest("GET / HTTP/1.1\r\nHost: example.com\r\n\r\n" + rest, end, limits)
            == Ok(Request(RequestLine("GET", "/", "HTTP/1.1"), [Field("Host", "example.com")], ""), rest)
  {
    hide WellFormed, TakeRequest, Print;
    GetIsWellFormed(limits);
    GetBytes();
    var w := WireRequest(GET_LINE, [HOST_FIELD], "");
    PrintedRequestParses(w, rest, end, limits);
    assert RequestOf(w).fields == [Field("Host", "example.com")];
  }
}
