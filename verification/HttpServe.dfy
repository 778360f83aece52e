/** The keep-alive loop of one connection: requests in, one response each in order out. */
module HttpServe {
  import opened Text
  import opened HttpStream
  import opened HttpHeader
  import opened HttpRequest
  import opened HttpGrammar
  import opened HttpResponse
  import opened HttpClient

  // The handler's settings; a limit that is not positive stands for its default.
  datatype Settings = Settings(maxLine: int, maxHeaders: int, maxBody: int)

  const DEFAULT_MAX_LINE := 8192
  const DEFAULT_MAX_HEADERS := 100
  const DEFAULT_MAX_BODY := 1048576

  function LimitsOf(h: Settings): (limits: Limits)
    ensures limits.maxLine > 0 && limits.maxHeaders > 0 && limits.maxBody > 0
  {
    Limits(if h.maxLine > 0 then h.maxLine else DEFAULT_MAX_LINE,
           if h.maxHeaders > 0 then h.maxHeaders else DEFAULT_MAX_HEADERS,
           if h.maxBody > 0 then h.maxBody else DEFAULT_MAX_BODY)
  }

  // The application, as a function of every request on the connection so far; the last is the current.
  type App = seq<Request> -> Response

  predicate ShouldClose(request: Request) {
    HeaderHasToken(request.fields, "Connection", "close") || request.line.version != "HTTP/1.1"
  }

  function ErrorFor(fault: Fault): Response {
    match fault
    case ReadTimeout => ErrorResponse(408, "request timeout")
    case BodyTooLarge => ErrorResponse(413, "content too large")
    case UnsupportedTransferEncoding => ErrorResponse(501, "transfer encoding is not implemented")
    case _ => ErrorResponse(400, "bad request")
  }

  const CLOSE_FIELD := Field("Connection", "close")

  function Closing(r: Response, close: bool): Response {
    if close then r.(fields := r.fields + [CLOSE_FIELD]) else r
  }

  /** The response to one read, and whether it is the connection's last. */
  function Respond(app: App, history: seq<Request>, p: Parsed<Request>): (Response, bool) {
    match p
    case Fail(fault, _) => (Closing(ErrorFor(fault), true), true)
    case Ok(request, _) =>
      var close := ShouldClose(request);
      var r := Closing(app(history + [request]), close);
      (r, close || r.status == 101)
  }

  /** The responses a connection gets for the bytes its client sends. */
  function Responses(s: string, end: StreamEnd, limits: Limits, app: App, history: seq<Request>): seq<Response>
    decreases |s|
  {
    var p := TakeRequest(s, end, limits);
    var (r, last) := Respond(app, history, p);
    if last || p.Fail? then [r] else [r] + Responses(p.rest, end, limits, app, history + [p.value])
  }

  function RenderAll(rs: seq<Response>): Rendering {
    if rs == [] then Plain("") else Then(Render(rs[0]), RenderAll(rs[1..]))
  }

  lemma RenderCons(r: Response, more: seq<Response>)
    ensures RenderAll([r] + more) == Then(Render(r), RenderAll(more))
  {
    hide Render;
    assert ([r] + more)[1..] == more;
  }

  /** What is written is the rendering of those responses as far as the output takes it: a function of
      the bytes received alone, however reads cut them up. */
  method ServeConn(incoming: seq<string>, end: StreamEnd, w: Output, h: Settings, app: App)
    returns (fault: Option<WriteFault>)
    requires forall i :: 0 <= i < |incoming| ==> incoming[i] != ""
    modifies w
    ensures
      Emitted(old(w.written), old(w.room), w.written, w.room,
              RenderAll(Responses(Concat(incoming), end, LimitsOf(h), app, [])), fault)
  {
    hide Emitted, Then, Render, Respond, TakeRequest, Concat, RenderAll;
    var limits := LimitsOf(h);
    var reader := new LineReader(incoming, end, limits.maxLine);
    var history: seq<Request> := [];
    ghost var w0, r0, all := w.written, w.room, RenderAll(Responses(reader.Pending(), end, limits, app, []));
    ghost var done := Plain("");
    EmittedNothing(w0, r0);
    ThenPlain(done, all);
    while true
      invariant reader.Valid() && reader.end == end && reader.maxLine == limits.maxLine && fresh(reader)
      invariant Emitted(w0, r0, w.written, w.room, done, None)
      invariant Then(done, RenderAll(Responses(reader.Pending(), end, limits, app, history))) == all
      decreases |reader.Pending()|
    {
      ghost var w1, r1, s := w.written, w.room, reader.Pending();
      var p := ReadRequest(reader, limits);
      var response, last := ResponseForRequest(app, history, p);
      ghost var left :=
        if last || p.Fail? then [] else Responses(reader.Pending(), end, limits, app, history + [p.value]);
      assert Responses(s, end, limits, app, history) == [response] + left;
      RenderCons(response, left);
      ThenAssociates(done, Render(response), RenderAll(left));
      fault := WriteResponse(w, response);
      if fault.Some? {
        AfterStop(w0, r0, w1, r1, w.written, w.room, done, Render(response), RenderAll(left), fault);
        return;
      }
      EmittedThen(w0, r0, w1, r1, w.written, w.room, done, Render(response), None);
      done := Then(done, Render(response));
      if last || p.Fail? {
        NothingLeft();
        ThenPlain(done, done);
        return None;
      }
      ReadAdvances(s, end, limits);
      history := history + [p.value];
    }
  }

  lemma NothingLeft()
    ensures RenderAll([]) == Plain("")
  {
  }

  lemma ReadAdvances(s: string, end: StreamEnd, limits: Limits)
    requires TakeRequest(s, end, limits).Ok?
    ensures |TakeRequest(s, end, limits).rest| < |s|
  {
  }

  method ResponseForRequest(app: App, history: seq<Request>, p: Parsed<Request>) returns (r: Response, last: bool)
    ensures (r, last) == Respond(app, history, p)
  {
    hide HeaderHasToken, ErrorFor;
    if p.Fail? {
      return Closing(ErrorFor(p.fault), true), true;
    }
    var close := ShouldClose(p.value);
    r := Closing(app(history + [p.value]), close);
    last := close || r.status == 101;
  }

  // ----- one response for each request ---------------------------------------------------------

  /** The requests that reach the application. */
  function Served(s: string, end: StreamEnd, limits: Limits, app: App, history: seq<Request>): seq<Request>
    decreases |s|
  {
    var p := TakeRequest(s, end, limits);
    if p.Fail? then []
    else if Respond(app, history, p).1 then [p.value]
    else [p.value] + Served(p.rest, end, limits, app, history + [p.value])
  }

  predicate EndsRun(app: App, before: seq<Request>, request: Request) {
    ShouldClose(request) || app(before + [request]).status == 101
  }

  ghost predicate InOrder(app: App, history: seq<Request>, rs: seq<Response>, served: seq<Request>) {
    && |served| <= |rs| <= |served| + 1
    && forall i :: 0 <= i < |served| ==> AnswersRequest(app, history, rs, served, i)
  }

  /** Response i is the application's for request i, and the last one if it ends the run. */
  ghost predicate AnswersRequest(app: App, history: seq<Request>, rs: seq<Response>, served: seq<Request>, i: nat) {
    && i < |served| && i < |rs|
    && rs[i] == Closing(app(history + served[..i + 1]), ShouldClose(served[i]))
    && (EndsRun(app, history + served[..i], served[i]) <==> i == |rs| - 1)
  }

  lemma HistoryGrows(history: seq<Request>, first: Request, served: seq<Request>, i: nat)
    requires 0 < i <= |served| + 1
    ensures ([first] + served)[..i] == [first] + served[..i - 1]
    ensures history + ([first] + served)[..i] == history + [first] + served[..i - 1]
  {
  }

  lemma InOrderGrows(app: App, history: seq<Request>, first: Request, rs: seq<Response>, served: seq<Request>)
    requires InOrder(app, history + [first], rs, served) && rs != [] && !EndsRun(app, history, first)
    ensures InOrder(app, history, [Closing(app(history + [first]), ShouldClose(first))] + rs, [first] + served)
  {
    hide AnswersRequest;
    var all, every := [first] + served, [Closing(app(history + [first]), ShouldClose(first))] + rs;
    FirstAnswered(app, history, first, rs, served);
    forall i | 0 <= i < |all| ensures AnswersRequest(app, history, every, all, i) {
      if i > 0 {
        AnswerShifts(app, history, first, Closing(app(history + [first]), ShouldClose(first)), rs, served, i - 1);
      }
    }
  }

  lemma FirstAnswered(app: App, history: seq<Request>, first: Request, rs: seq<Response>, served: seq<Request>)
    requires rs != [] && !EndsRun(app, history, first)
    ensures
      AnswersRequest(app, history, [Closing(app(history + [first]), ShouldClose(first))] + rs, [first] + served, 0)
  {
    hide ShouldClose, Closing, EndsRun;
    var all := [first] + served;
    assert history + all[..0] == history && history + all[..1] == history + [first];
  }

  lemma AnswerShifts(app: App, history: seq<Request>, first: Request, r: Response, rs: seq<Response>,
                     served: seq<Request>, i: nat)
    requires AnswersRequest(app, history + [first], rs, served, i)
    ensures AnswersRequest(app, history, [r] + rs, [first] + served, i + 1)
  {
    hide ShouldClose, Closing, EndsRun;
    HistoryGrows(history, first, served, i + 1);
    HistoryGrows(history, first, served, i + 2);
  }

  lemma AliveStep(s: string, rest: string, request: Request, end: StreamEnd, limits: Limits, app: App,
                  history: seq<Request>)
    requires TakeRequest(s, end, limits) == Ok(request, rest) && !EndsRun(app, history, request)
    ensures Responses(s, end, limits, app, history)
            == [app(history + [request])] + Responses(rest, end, limits, app, history + [request])
    ensures Served(s, end, limits, app, history) == [request] + Served(rest, end, limits, app, history + [request])
  {
    hide TakeRequest, ShouldClose;
  }

  lemma LastStep(s: string, end: StreamEnd, limits: Limits, app: App, history: seq<Request>)
    ensures
      var p := TakeRequest(s, end, limits);
      && (p.Fail? ==>
            && Responses(s, end, limits, app, history) == [Closing(ErrorFor(p.fault), true)]
            && Served(s, end, limits, app, history) == [])
      && (p.Ok? && EndsRun(app, history, p.value) ==>
            && Responses(s, end, limits, app, history) == [Closing(app(history + [p.value]), ShouldClose(p.value))]
            && Served(s, end, limits, app, history) == [p.value])
  {
    hide TakeRequest, ShouldClose, ErrorFor;
  }

  /** rs answers the requests at the front of s, one each and in order, and ends with an error response
      when a read failed. */
  ghost predicate Answers(s: string, end: StreamEnd, limits: Limits, app: App, history: seq<Request>,
                          rs: seq<Response>, served: seq<Request>)
  {
    var read := TakeRequests(s, end, limits, |served|);
    && InOrder(app, history, rs, served) && rs != []
    && read.Ok? && read.value == served
    && (|rs| == |served| + 1 ==>
          TakeRequest(read.rest, end, limits).Fail?
          && rs[|served|] == Closing(ErrorFor(TakeRequest(read.rest, end, limits).fault), true))
  }

  lemma AnswersOne(s: string, end: StreamEnd, limits: Limits, app: App, history: seq<Request>)
    ensures
      var p := TakeRequest(s, end, limits);
      && (p.Fail? ==> Answers(s, end, limits, app, history, [Closing(ErrorFor(p.fault), true)], []))
      && (p.Ok? && EndsRun(app, history, p.value) ==>
            Answers(s, end, limits, app, history, [Closing(app(history + [p.value]), ShouldClose(p.value))], [p.value]))
  {
    hide TakeRequest, ShouldClose, ErrorFor, EndsRun, Closing;
    var p := TakeRequest(s, end, limits);
    assert TakeRequests(p.rest, end, limits, 0) == Ok([], p.rest);
    if p.Ok? {
      assert [p.value][..1] == [p.value] && [p.value][..0] == [] && history + [] == history;
    }
  }

  lemma AnswersMore(s: string, rest: string, request: Request, end: StreamEnd, limits: Limits, app: App,
                    history: seq<Request>, rs: seq<Response>, served: seq<Request>)
    requires TakeRequest(s, end, limits) == Ok(request, rest) && !EndsRun(app, history, request)
    requires Answers(rest, end, limits, app, history + [request], rs, served)
    ensures Answers(s, end, limits, app, history, [app(history + [request])] + rs, [request] + served)
  {
    InOrderGrows(app, history, request, rs, served);
    hide TakeRequest, InOrder, ErrorFor;
    assert Closing(app(history + [request]), ShouldClose(request)) == app(history + [request]);
    assert ([request] + served)[1..] == served;
  }

  /** The requests before the first that cannot be read, or that ends the run, are read one after the
      other and answered one each, in order; a read that fails adds one error response. Only the last
      response announces that the connection closes. */
  lemma {:induction false} OneResponseEach(s: string, end: StreamEnd, limits: Limits, app: App, history: seq<Request>)
    ensures
      Answers(s, end, limits, app, history,
              Responses(s, end, limits, app, history), Served(s, end, limits, app, history))
    decreases |s|
  {
    hide TakeRequest, EndsRun, Answers, Closing;
    var p := TakeRequest(s, end, limits);
    if p.Ok? && !EndsRun(app, history, p.value) {
      ReadAdvances(s, end, limits);
      AliveStep(s, p.rest, p.value, end, limits, app, history);
      OneResponseEach(p.rest, end, limits, app, history + [p.value]);
      AnswersMore(s, p.rest, p.value, end, limits, app, history,
                  Responses(p.rest, end, limits, app, history + [p.value]),
                  Served(p.rest, end, limits, app, history + [p.value]));
    } else {
      LastStep(s, end, limits, app, history);
      AnswersOne(s, end, limits, app, history);
    }
  }

  // ----- what the client gets ------------------------------------------------------------------

  /** Every response a client can read from the stream. */
  function ReadReplies(s: string): seq<Received>
    decreases |s|
  {
    match TakeResponse(s)
    case None => []
    case Some(reply) => [reply.response] + ReadReplies(reply.rest)
  }

  /** A response as it was meant. */
  function ReceivedOf(r: Response): Received {
    ReplyTo(r, "").value.response
  }

  function Replies(rs: seq<Response>): (replies: seq<Received>)
    ensures |replies| == |rs| && forall i :: 0 <= i < |rs| ==> replies[i] == ReceivedOf(rs[i])
  {
    seq(|rs|, i requires 0 <= i < |rs| => ReceivedOf(rs[i]))
  }

  /** The response goes out to its end and a client can tell where that is. */
  predicate Deliverable(r: Response) {
    Render(r).fault.None? && Framed(r) && Legible(r)
  }

  /** What a client sees of the responses before the first it cannot be given. */
  function Delivered(rs: seq<Response>): seq<Received> {
    if rs == [] || !Deliverable(rs[0]) then [] else [SeenReply(rs[0], "").response] + Delivered(rs[1..])
  }

  predicate AllFramed(rs: seq<Response>) {
    forall i :: 0 <= i < |rs| ==> Framed(rs[i])
  }

  predicate AllReadable(rs: seq<Response>) {
    forall i :: 0 <= i < |rs| ==> ClientReadable(rs[i])
  }

  lemma FirstIsRead(r: Response, s: string, more: string)
    requires Render(r).fault.None? && Framed(r) && s == Render(r).bytes + more
    ensures ReadReplies(s) == if Legible(r) then [SeenReply(r, "").response] + ReadReplies(more) else []
  {
    hide Render, Framed, Legible, TakeResponse, FieldsSeen, BodyOf;
    ResponseSeen(r, more);
  }

  lemma NothingRead(r: Response, room: nat)
    requires Framed(r)
    ensures room < |Render(r).bytes| || Render(r).fault.Some? ==> ReadReplies(Clip(Render(r).bytes, room)) == []
  {
    hide Render, Framed, TakeResponse;
    var bytes := Render(r).bytes;
    assert Clip(bytes, room) == bytes[..|Clip(bytes, room)|];
    if Render(r).fault.Some? {
      FaultyResponseFails(r, |Clip(bytes, room)|);
    } else if room < |bytes| {
      CutResponseFails(r, room);
    }
  }

  /** However writing ends (output closed after any number of bytes, application reader failing, field
      that cannot be written), the client reads the first of the responses, each as it sees it. As long as
      all of them are framed by the server alone it reads nothing else; when the output takes everything,
      it reads them up to the first that could not be finished, read, or told from what follows. */
  lemma {:induction false} ClientReadsPrefix(rs: seq<Response>, room: nat)
    ensures
      var got := ReadReplies(Clip(RenderAll(rs).bytes, room));
      && (got <= Delivered(rs) || Delivered(rs) <= got)
      && (AllFramed(rs) ==> got <= Delivered(rs))
      && (|RenderAll(rs).bytes| <= room ==> Delivered(rs) <= got)
  {
    hide Render, Framed, Legible, TakeResponse, ReadReplies, SeenReply;
    var all := RenderAll(rs).bytes;
    if rs == [] {
      EmptyHasNoReplies();
    } else if Framed(rs[0]) {
      var first := Render(rs[0]).bytes;
      NothingRead(rs[0], room);
      if Render(rs[0]).fault.None? && |first| <= room {
        var rest := Clip(RenderAll(rs[1..]).bytes, room - |first|);
        assert Clip(all, room) == first + rest;
        FirstIsRead(rs[0], Clip(all, room), rest);
        ClientReadsPrefix(rs[1..], room - |first|);
      } else {
        assert Clip(all, room) == Clip(first, room);
      }
    }
  }

  lemma EmptyHasNoReplies()
    ensures ReadReplies("") == []
  {
    EmptyHasNoResponse();
  }

  lemma ReadableAsMeant(r: Response)
    requires ClientReadable(r) && Render(r).fault.None?
    ensures Deliverable(r) && SeenReply(r, "").response == ReceivedOf(r)
  {
    hide Render, Framed, Legible, EmittedFields, FieldsSeen, BodyOf;
    ResponseBytes(r);
    ReadableIsSeen(r);
  }

  lemma {:induction false} ReadableDelivered(rs: seq<Response>)
    requires AllReadable(rs)
    ensures Delivered(rs) <= Replies(rs)
    ensures (forall r :: r in rs ==> Render(r).fault.None?) ==> Delivered(rs) == Replies(rs)
  {
    hide Render, ClientReadable, Deliverable, SeenReply, ReceivedOf, Replies;
    if rs == [] {
    } else {
      assert rs[0] in rs && forall r :: r in rs[1..] ==> r in rs;
      RepliesStep(rs);
      if Render(rs[0]).fault.None? {
        ReadableAsMeant(rs[0]);
      } else {
        FaultyNotDelivered(rs[0]);
      }
      ReadableDelivered(rs[1..]);
    }
  }

  lemma RepliesStep(rs: seq<Response>)
    requires rs != []
    ensures Replies(rs) == [ReceivedOf(rs[0])] + Replies(rs[1..])
  {
    hide ReceivedOf;
  }

  lemma FaultyNotDelivered(r: Response)
    requires Render(r).fault.Some?
    ensures !Deliverable(r)
  {
  }

  // ----- error responses -----------------------------------------------------------------------

  lemma ErrorIsDeliverable(fault: Fault)
    ensures Render(Closing(ErrorFor(fault), true)).fault.None? && ClientReadable(Closing(ErrorFor(fault), true))
  {
    hide Render, ClientReadable;
    var message := if fault.ReadTimeout? then "request timeout" else if fault.BodyTooLarge? then "content too large"
                   else if fault.UnsupportedTransferEncoding? then "transfer encoding is not implemented"
                   else "bad request";
    var status := if fault.ReadTimeout? then 408 else if fault.BodyTooLarge? then 413
                  else if fault.UnsupportedTransferEncoding? then 501 else 400;
    SmallErrorDeliverable(status, message);
  }

  lemma SmallErrorDeliverable(status: int, message: string)
    requires status in {400, 408, 413, 501} && 0 < |message| < 100
    ensures
      var r := Closing(ErrorResponse(status, message), true);
      Render(r).fault.None? && ClientReadable(r)
  {
    hide Kept, EqualFold, ContainsAny, FormatDecimal, StatusText, IsTrimmed, RenderField, Render, NameSeen, ClientSafe;
    var r := Closing(ErrorResponse(status, message), true);
    assert r.fields == [TEXT_FIELD, CLOSE_FIELD];
    SmallStatusText(status);
    KeptMembers(r.fields, false);
    ErrorFieldsRender();
    RenderedIff(r);
  }

  const TEXT_FIELD := Field("Content-Type", "text/plain; charset=utf-8")

  lemma ErrorFieldsRender()
    ensures RenderField(TEXT_FIELD).fault.None? && RenderField(CLOSE_FIELD).fault.None?
    ensures ClientSafe(TEXT_FIELD) && ClientSafe(CLOSE_FIELD)
    ensures Unseen([TEXT_FIELD, CLOSE_FIELD], "Transfer-Encoding")
  {
    hide RenderField, ClientSafe, NameSeen, EqualFold;
    PlainField(TEXT_FIELD);
    PlainField(CLOSE_FIELD);
  }

  lemma PlainField(f: Field)
    requires f == TEXT_FIELD || f == CLOSE_FIELD
    ensures RenderField(f).fault.None? && ClientSafe(f) && !EqualFold(NameSeen(f), "Transfer-Encoding")
  {
    hide ContainsAny, IsTrimmed, EqualFold, NameSeen;
    if f == TEXT_FIELD {
      GraphicName("Content-Type");
      PlainTextType();
    } else {
      GraphicName("Connection");
      GraphicText("close");
      TrimmedText("close");
    }
    PlainNames(f);
    SafeNameSeen(f);
  }

  lemma PlainTextType()
    ensures !ContainsAny("text/plain; charset=utf-8", "\r\n") && IsTrimmed("text/plain; charset=utf-8", BLANKS)
  {
    hide ContainsAny, IsTrimmed;
    GraphicText("text/plain; charset=utf-8");
    TrimmedText("text/plain; charset=utf-8");
  }

  lemma PlainNames(f: Field)
    requires f.name == "Content-Type" || f.name == "Connection"
    ensures !Named(f, "Transfer-Encoding") && ':' !in f.name
  {
  }

  lemma TrimmedText(s: string)
    requires s != "" && s[0] > ' ' && s[|s| - 1] > ' '
    ensures IsTrimmed(s, BLANKS)
  {
  }

  lemma SmallStatusText(status: int)
    requires status in {400, 408, 413, 501}
    ensures StatusText(status) != "" && !ContainsAny(StatusText(status), "\r\n")
  {
    hide ContainsAny;
    GraphicText(StatusText(status));
  }

  lemma {:induction false} KeptMembers(fields: seq<Field>, chunked: bool)
    ensures forall f :: f in Kept(fields, chunked) ==> f in fields
  {
    hide Dropped;
    if fields != [] {
      KeptMembers(fields[1..], chunked);
    }
  }

  // ----- a whole connection --------------------------------------------------------------------

  /** No response of the application brings a framing of its own. */
  ghost predicate FramedApp(app: App) {
    forall history :: Framed(app(history))
  }

  /** Every response of the application is one a client can read back as it was meant. */
  ghost predicate ReadableApp(app: App) {
    forall history :: ClientReadable(app(history))
  }

  lemma ClosingStaysReadable(r: Response, close: bool)
    ensures Framed(r) ==> Framed(Closing(r, close))
    ensures ClientReadable(r) ==> ClientReadable(Closing(r, close))
  {
    hide Kept, ClientSafe, Dropped, NameSeen, EqualFold, StatusAllowsBody;
    if close {
      KeptAppend(r.fields, CLOSE_FIELD, r.chunked);
      ErrorFieldsRender();
      assert CLOSE_FIELD in [TEXT_FIELD, CLOSE_FIELD];
    }
  }

  lemma {:induction false} RunIsReadable(s: string, end: StreamEnd, limits: Limits, app: App, history: seq<Request>)
    ensures FramedApp(app) ==> AllFramed(Responses(s, end, limits, app, history))
    ensures ReadableApp(app) ==> AllReadable(Responses(s, end, limits, app, history))
    decreases |s|
  {
    hide TakeRequest, ClientReadable, Framed, ErrorFor, ShouldClose, Closing;
    var p := TakeRequest(s, end, limits);
    match p {
      case Fail(fault, _) =>
        ErrorIsDeliverable(fault);
        ReadableIsFramed(Closing(ErrorFor(fault), true));
      case Ok(request, rest) =>
        ClosingStaysReadable(app(history + [request]), ShouldClose(request));
        ReadAdvances(s, end, limits);
        RunIsReadable(rest, end, limits, app, history + [request]);
    }
  }

  lemma ReadableIsFramed(r: Response)
    requires ClientReadable(r)
    ensures Framed(r)
  {
  }

  /** For any bytes from the client, any application and any point at which the output closes, the client
      reads from what the connection wrote the first of the responses meant for it, and all that can be
      delivered when the output takes everything. It reads nothing else unless the application brings a
      framing of its own, and reads them as they were meant when their fields survive. */
  lemma ConnectionDelivers(incoming: seq<string>, end: StreamEnd, h: Settings, app: App, room: nat)
    ensures
      var rs := Responses(Concat(incoming), end, LimitsOf(h), app, []);
      var fits := |RenderAll(rs).bytes| <= room;
      var got := ReadReplies(Clip(RenderAll(rs).bytes, room));
      && (got <= Delivered(rs) || Delivered(rs) <= got)
      && (fits ==> Delivered(rs) <= got)
      && (FramedApp(app) ==> got <= Delivered(rs))
      && (ReadableApp(app) ==>
            && got <= Replies(rs)
            && (fits && (forall r :: r in rs ==> Render(r).fault.None?) ==> got == Replies(rs)))
  {
    hide Responses, RenderAll, ReadReplies, ReceivedOf, Concat, AllReadable, AllFramed, Render, LimitsOf, Delivered;
    hide Framed, ClientReadable;
    var rs := Responses(Concat(incoming), end, LimitsOf(h), app, []);
    RunIsReadable(Concat(incoming), end, LimitsOf(h), app, []);
    ClientReadsPrefix(rs, room);
    if ReadableApp(app) {
      ReadableDelivered(rs);
      forall history ensures Framed(app(history)) {
        ReadableIsFramed(app(history));
      }
    }
  }

  // ----- whole exchanges -----------------------------------------------------------------------

  function AppResponses(app: App, history: seq<Request>, requests: seq<Request>): seq<Response>
    decreases |requests|
  {
    if requests == [] then []
    else [app(history + [requests[0]])] + AppResponses(app, history + [requests[0]], requests[1..])
  }

  ghost predicate KeepsAlive(app: App, history: seq<Request>, requests: seq<Request>) {
    forall i :: 0 <= i < |requests| ==> !EndsRun(app, history + requests[..i], requests[i])
  }

  lemma KeepsAliveTail(app: App, history: seq<Request>, requests: seq<Request>)
    requires KeepsAlive(app, history, requests) && requests != []
    ensures !EndsRun(app, history, requests[0]) && KeepsAlive(app, history + [requests[0]], requests[1..])
  {
    hide EndsRun;
    assert history + requests[..0] == history;
    forall i | 0 <= i < |requests[1..]|
      ensures !EndsRun(app, history + [requests[0]] + requests[1..][..i], requests[1..][i])
    {
      assert history + requests[..i + 1] == history + [requests[0]] + requests[1..][..i];
    }
  }

  /** Pipelined well-formed requests that keep the connection alive get the application's responses in
      order, and then the run goes on with whatever bytes follow them. */
  lemma {:induction false} PipelinedExchange(ws: seq<WireRequest>, tail: string, end: StreamEnd, limits: Limits,
                                             app: App, history: seq<Request>)
    requires forall i :: 0 <= i < |ws| ==> WellFormed(ws[i], limits)
    requires KeepsAlive(app, history, RequestsOf(ws))
    ensures Responses(PrintAll(ws) + tail, end, limits, app, history)
            == AppResponses(app, history, RequestsOf(ws))
               + Responses(tail, end, limits, app, history + RequestsOf(ws))
    decreases |ws|
  {
    hide WellFormed, TakeRequest, Print, Responses, EndsRun, KeepsAlive, PrintAll;
    if ws == [] {
      NothingPrinted(tail);
      assert history + [] == history && RequestsOf(ws) == [];
      assert AppResponses(app, history, []) == [];
    } else {
      var requests, more := RequestsOf(ws), PrintAll(ws[1..]) + tail;
      assert requests[1..] == RequestsOf(ws[1..]);
      PrintAllStep(ws, tail);
      PrintedRequestParses(ws[0], more, end, limits);
      KeepsAliveTail(app, history, requests);
      AliveStep(PrintAll(ws) + tail, more, requests[0], end, limits, app, history);
      PipelinedExchange(ws[1..], tail, end, limits, app, history + [requests[0]]);
      Regrouped(history, [requests[0]], requests[1..]);
      assert [requests[0]] + requests[1..] == requests;
      Regrouped([app(history + [requests[0]])], AppResponses(app, history + [requests[0]], requests[1..]),
                Responses(tail, end, limits, app, history + requests));
    }
  }

  lemma NothingPrinted(tail: string)
    ensures PrintAll([]) + tail == tail
  {
  }

  lemma PrintAllStep(ws: seq<WireRequest>, tail: string)
    requires ws != []
    ensures PrintAll(ws) + tail == Print(ws[0]) + (PrintAll(ws[1..]) + tail)
  {
    hide Print;
  }

  /** A client that closes after its last request is answered with one more response: 400. */
  lemma CleanCloseGets400(limits: Limits, app: App, history: seq<Request>)
    ensures Responses("", Eof, limits, app, history) == [Closing(ErrorResponse(400, "bad request"), true)]
  {
  }
}
