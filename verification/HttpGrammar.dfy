/** The requests the reader accepts are exactly the printings of well-formed ones; reading them from
    one stream, one after another, gives them back and costs a bounded number of bytes. */
module HttpGrammar {
  import opened Text
  import opened HttpStream
  import opened HttpHeader
  import opened HttpRequest

  // A request as it can stand on the wire, blanks around the field values included.
  datatype WireRequest = WireRequest(line: RequestLine, fields: seq<WireField>, body: string)

  function FieldsOf(ws: seq<WireField>): (fields: seq<Field>)
    ensures |fields| == |ws| && forall i :: 0 <= i < |ws| ==> fields[i] == FieldOf(ws[i])
  {
    seq(|ws|, i requires 0 <= i < |ws| => FieldOf(ws[i]))
  }

  function RequestOf(w: WireRequest): Request {
    Request(w.line, FieldsOf(w.fields), w.body)
  }

  function PrintFields(ws: seq<WireField>): string {
    if ws == [] then "\r\n" else PrintField(ws[0]) + "\r\n" + PrintFields(ws[1..])
  }

  /** The request line and the header section, the empty line included. */
  function Head(line: RequestLine, ws: seq<WireField>): string {
    PrintLine(line) + "\r\n" + PrintFields(ws)
  }

  function Print(w: WireRequest): string {
    Head(w.line, w.fields) + w.body
  }

  predicate FitsLine(text: string, maxLine: int) {
    maxLine > 0 ==> |text| + 2 <= maxLine
  }

  predicate GoodField(w: WireField, maxLine: int) {
    WellFormedField(w) && FitsLine(PrintField(w), maxLine)
  }

  predicate GoodFields(ws: seq<WireField>, maxLine: int) {
    forall i :: 0 <= i < |ws| ==> GoodField(ws[i], maxLine)
  }

  /** The Content-Length fields, when there are any, all state the body's length. */
  predicate BodyStated(fields: seq<Field>, body: string, maxBody: int) {
    if forall f :: f in fields ==> !LengthField(f) then body == ""
    else
      && (forall f :: f in fields && LengthField(f) ==> StatesLength(f.value, |body|))
      && |body| <= 0x7FFF_FFFF_FFFF_FFFF && (maxBody > 0 ==> |body| <= maxBody)
  }

  predicate HasHost(fields: seq<Field>) {
    exists f :: f in fields && EqualFold(f.name, "Host") && f.value != ""
  }

  predicate NoCoding(fields: seq<Field>) {
    forall f :: f in fields && EqualFold(f.name, "Transfer-Encoding") ==> f.value == ""
  }

  predicate Acceptable(line: RequestLine, fields: seq<Field>, body: string, maxBody: int) {
    && (line.version == "HTTP/1.1" ==> HasHost(fields)) && NoCoding(fields)
    && BodyStated(fields, body, maxBody)
  }

  predicate HeadFits(line: RequestLine, ws: seq<WireField>, limits: Limits) {
    && WellFormedLine(line) && FitsLine(PrintLine(line), limits.maxLine)
    && GoodFields(ws, limits.maxLine)
    && (limits.maxHeaders > 0 ==> |ws| <= limits.maxHeaders)
  }

  predicate WellFormed(w: WireRequest, limits: Limits) {
    HeadFits(w.line, w.fields, limits) && Acceptable(w.line, FieldsOf(w.fields), w.body, limits.maxBody)
  }

  // ----- lines contain no line break -----------------------------------------------------------

  lemma NoBreak(s: string, chars: string)
    requires !ContainsAny(s, chars) && '\n' in chars
    ensures '\n' !in s
  {
  }

  lemma FieldLineHasNoBreak(w: WireField)
    requires WellFormedField(w)
    ensures '\n' !in PrintField(w) && PrintField(w) != ""
  {
    hide IsTrimmed;
    NoBreak(w.name, " \t\r\n");
    NoBreak(w.value, "\r\n");
    BlankHasNoBreak(w.lead);
    BlankHasNoBreak(w.trail);
    NoBreak(w.lead, "\r\n");
    NoBreak(w.trail, "\r\n");
  }

  lemma RequestLineHasNoBreak(line: RequestLine)
    requires WellFormedLine(line)
    ensures '\n' !in PrintLine(line)
  {
    VersionsAreWords();
    NoBreak(line.method_, "\r\n\t");
    NoBreak(line.target, "\r\n\t");
    NoBreak(line.version, "\r\n\t");
  }

  // ----- the header section --------------------------------------------------------------------

  lemma OneMoreField(w: WireField, more: seq<WireField>, rest: string, sofar: seq<Field>)
    ensures PrintFields([w] + more) + rest == PrintField(w) + "\r\n" + (PrintFields(more) + rest)
    ensures sofar + FieldsOf([w] + more) == sofar + [FieldOf(w)] + FieldsOf(more)
  {
    hide PrintField;
    assert ([w] + more)[1..] == more;
  }

  lemma {:induction false} PrintedFieldsParse(ws: seq<WireField>, rest: string, end: StreamEnd, maxLine: int,
                                              maxHeaders: int, sofar: seq<Field>)
    requires GoodFields(ws, maxLine) && FitsLine("", maxLine)
    requires maxHeaders > 0 ==> |sofar| + |ws| <= maxHeaders
    ensures TakeFields(PrintFields(ws) + rest, end, maxLine, maxHeaders, sofar) == Ok(sofar + FieldsOf(ws), rest)
    decreases |ws|
  {
    hide WellFormedField, TakeLine, ParseHeaderField, PrintField;
    if ws == [] {
      PrintedLine("", rest, end, maxLine);
      assert "" + "\r\n" + rest == "\r\n" + rest;
      assert sofar + FieldsOf(ws) == sofar;
    } else {
      var tail := PrintFields(ws[1..]);
      assert GoodField(ws[0], maxLine);
      FieldLineHasNoBreak(ws[0]);
      PrintedFieldParses(ws[0]);
      PrintedLine(PrintField(ws[0]), tail + rest, end, maxLine);
      PrintedFieldsParse(ws[1..], rest, end, maxLine, maxHeaders, sofar + [FieldOf(ws[0])]);
      OneMoreField(ws[0], ws[1..], rest, sofar);
      assert [ws[0]] + ws[1..] == ws;
    }
  }

  lemma {:induction false} ParsedFieldsArePrinted(s: string, end: StreamEnd, maxLine: int, maxHeaders: int,
                                                  sofar: seq<Field>) returns (ws: seq<WireField>)
    requires TakeFields(s, end, maxLine, maxHeaders, sofar).Ok?
    ensures
      var p := TakeFields(s, end, maxLine, maxHeaders, sofar);
      && GoodFields(ws, maxLine) && s == PrintFields(ws) + p.rest && p.value == sofar + FieldsOf(ws)
      && (maxHeaders > 0 && |sofar| <= maxHeaders ==> |sofar| + |ws| <= maxHeaders)
    decreases |s|
  {
    hide WellFormedField, TakeLine, ParseHeaderField, PrintField;
    var p := TakeFields(s, end, maxLine, maxHeaders, sofar);
    AcceptedLine(s, end, maxLine);
    var line := TakeLine(s, end, maxLine);
    if line.value == "" {
      ws := [];
      assert "" + "\r\n" + p.rest == "\r\n" + p.rest;
    } else {
      var w := ParsedFieldIsPrinted(line.value);
      var more := ParsedFieldsArePrinted(line.rest, end, maxLine, maxHeaders, sofar + [FieldOf(w)]);
      ws := [w] + more;
      OneMoreField(w, more, p.rest, sofar);
    }
  }

  // ----- the body ------------------------------------------------------------------------------

  lemma LengthIsStated(fields: seq<Field>, body: string, maxBody: int)
    ensures BodyStated(fields, body, maxBody)
            <==> match LengthFrom(fields, None)
                 case Refused(_) => false
                 case Absent => body == ""
                 case Known(n) => n == |body| && (maxBody > 0 ==> n <= maxBody)
  {
    hide LengthField, StatesLength;
    ContentLengthIff(fields, |body|);
  }

  lemma BodyTaken(s: string, end: StreamEnd, length: nat, maxBody: int, body: string, rest: string)
    ensures TakeBody(s, end, length, maxBody) == Ok(body, rest)
            <==> s == body + rest && |body| == length && (maxBody > 0 ==> length <= maxBody)
  {
    if length <= |s| {
      assert s == s[..length] + s[length..];
    }
    if s == body + rest {
      assert s[..|body|] == body && s[|body|..] == rest;
    }
  }

  lemma HeadersValid(fields: seq<Field>)
    ensures HasNonEmptyHeader(fields, "Host") <==> HasHost(fields)
    ensures HasNonEmptyHeader(fields, "Transfer-Encoding") <==> !NoCoding(fields)
  {
    hide EqualFold;
  }

  /** The header section is accepted with a body exactly when the two go together, and then exactly the
      body's bytes are taken. */
  lemma RestAccepted(line: RequestLine, fields: seq<Field>, s: string, end: StreamEnd, maxBody: int,
                     body: string, rest: string)
    ensures TakeRest(line, fields, s, end, maxBody) == Ok(Request(line, fields, body), rest)
            <==> Acceptable(line, fields, body, maxBody) && s == body + rest
  {
    hide HasNonEmptyHeader, HasHost, NoCoding, BodyStated, TakeBody;
    HeadersValid(fields);
    LengthIsStated(fields, body, maxBody);
    BodyTaken(s, end, |body|, maxBody, body, rest);
    assert "" + rest == rest;
    if LengthFrom(fields, None).Known? {
      BodyTaken(s, end, LengthFrom(fields, None).bytes, maxBody, body, rest);
    }
  }

  lemma RestKeepsHead(line: RequestLine, fields: seq<Field>, s: string, end: StreamEnd, maxBody: int)
    ensures var p := TakeRest(line, fields, s, end, maxBody); p.Ok? ==> p.value.line == line && p.value.fields == fields
  {
    hide ValidateRequestHeaders, LengthFrom, TakeBody;
  }

  // ----- why a header section is refused -------------------------------------------------------

  /** Some Content-Length is present and every one states n. */
  predicate LengthStated(fields: seq<Field>, n: nat) {
    && (exists f :: f in fields && LengthField(f))
    && (forall f :: f in fields && LengthField(f) ==> StatesLength(f.value, n))
    && n <= 0x7FFF_FFFF_FFFF_FFFF
  }

  lemma LengthStatedIff(fields: seq<Field>, n: nat)
    ensures LengthFrom(fields, None) == Known(n) <==> LengthStated(fields, n)
  {
    hide LengthField, StatesLength;
    ContentLengthIff(fields, n);
  }

  /** The first thing wrong with a header section decides: no Host in HTTP/1.1, then a transfer coding, then
      its lengths, then the body. */
  lemma RefusedFor(line: RequestLine, fields: seq<Field>, s: string, end: StreamEnd, maxBody: int)
    ensures
      var p := TakeRest(line, fields, s, end, maxBody);
      var hosted := line.version == "HTTP/1.1" ==> HasHost(fields);
      && (p == Fail(MissingHost, s) <==> !hosted)
      && (p == Fail(UnsupportedTransferEncoding, s) <==> hosted && !NoCoding(fields))
      && (p == Fail(BodyTooLarge, s) <==>
            hosted && NoCoding(fields) && exists n :: LengthStated(fields, n) && 0 < maxBody < n)
      && (p.Fail? && p.fault == ReadTimeout <==>
            && hosted && NoCoding(fields) && end.TimedOut?
            && exists n: nat :: LengthStated(fields, n) && |s| < n && (maxBody > 0 ==> n <= maxBody))
  {
    hide HasNonEmptyHeader, HasHost, NoCoding, LengthStated;
    HeadersValid(fields);
    var length := LengthFrom(fields, None);
    forall n: nat ensures length == Known(n) <==> LengthStated(fields, n) {
      LengthStatedIff(fields, n);
    }
    LengthFault(fields, None);
  }

  lemma {:induction false} LengthFault(fields: seq<Field>, found: Option<nat>)
    ensures
      var length := LengthFrom(fields, found);
      length.Refused? ==> length.fault == InvalidContentLength || length.fault == ConflictingHeader
  {
    hide EqualFold, ParseContentLengthValue;
    if fields != [] {
      LengthFault(fields[1..], found);
      var current := ParseContentLengthValue(fields[0].value);
      if current.Some? {
        LengthFault(fields[1..], current);
      }
    }
  }

  /** A field of any other name. */
  predicate Indifferent(f: Field) {
    !EqualFold(f.name, "Host") && !EqualFold(f.name, "Transfer-Encoding") && !EqualFold(f.name, "Content-Length")
  }

  lemma {:induction false} LengthSkips(before: seq<Field>, f: Field, after: seq<Field>, found: Option<nat>)
    requires !LengthField(f)
    ensures LengthFrom(before + [f] + after, found) == LengthFrom(before + after, found)
    decreases |before|
  {
    hide EqualFold, ParseContentLengthValue;
    if before == [] {
      assert [] + [f] + after == [f] + after && ([f] + after)[1..] == after && [] + after == after;
    } else {
      assert (before + [f] + after)[1..] == before[1..] + [f] + after;
      assert (before + after)[1..] == before[1..] + after;
      LengthSkips(before[1..], f, after, found);
      var current := ParseContentLengthValue(before[0].value);
      if current.Some? {
        LengthSkips(before[1..], f, after, current);
      }
    }
  }

  /** Adding a field of another name changes neither whether the section is accepted, nor the fault, nor the
      body that is taken. */
  lemma OtherFieldsIgnored(line: RequestLine, before: seq<Field>, f: Field, after: seq<Field>, s: string,
                           end: StreamEnd, maxBody: int)
    requires Indifferent(f)
    ensures
      var with := TakeRest(line, before + [f] + after, s, end, maxBody);
      var without := TakeRest(line, before + after, s, end, maxBody);
      && with.rest == without.rest
      && (with.Ok? <==> without.Ok?)
      && (with.Ok? ==> with.value.body == without.value.body)
      && (with.Fail? ==> with.fault == without.fault)
  {
    hide HasNonEmptyHeader, LengthFrom, TakeBody, EqualFold;
    LengthSkips(before, f, after, None);
    HeadersSkip(before, f, after);
  }

  lemma HeadersSkip(before: seq<Field>, f: Field, after: seq<Field>)
    requires Indifferent(f)
    ensures
      HasNonEmptyHeader(before + [f] + after, "Host") == HasNonEmptyHeader(before + after, "Host")
    ensures
      HasNonEmptyHeader(before + [f] + after, "Transfer-Encoding")
      == HasNonEmptyHeader(before + after, "Transfer-Encoding")
  {
    hide EqualFold;
    assert forall g :: g in before + [f] + after <==> g in before + after || g == f;
    HeadersValid(before + [f] + after);
    HeadersValid(before + after);
  }

  // ----- whole requests ------------------------------------------------------------------------

  /** A head that fits is read, and what follows it decides. */
  lemma HeadTaken(line: RequestLine, ws: seq<WireField>, rest: string, end: StreamEnd, limits: Limits)
    requires HeadFits(line, ws, limits)
    ensures TakeRequest(Head(line, ws) + rest, end, limits) == TakeRest(line, FieldsOf(ws), rest, end, limits.maxBody)
  {
    hide WellFormedLine, PrintLine, GoodFields, TakeLine, TakeFields, TakeRest, ParseRequestLine, PrintFields;
    var text, fields := PrintLine(line), PrintFields(ws);
    RequestLineHasNoBreak(line);
    PrintedLineParses(line);
    assert text + "\r\n" + fields + rest == text + "\r\n" + (fields + rest);
    PrintedLine(text, fields + rest, end, limits.maxLine);
    PrintedFieldsParse(ws, rest, end, limits.maxLine, limits.maxHeaders, []);
    assert [] + FieldsOf(ws) == FieldsOf(ws);
  }

  predicate HeadRead(s: string, end: StreamEnd, limits: Limits) {
    var text := TakeLine(s, end, limits.maxLine);
    && text.Ok? && ParseRequestLine(text.value).Line?
    && TakeFields(text.rest, end, limits.maxLine, limits.maxHeaders, []).Ok?
  }

  /** Whatever head is read is a printed one that fits. */
  lemma HeadOf(s: string, end: StreamEnd, limits: Limits)
    returns (line: RequestLine, ws: seq<WireField>, rest: string)
    requires HeadRead(s, end, limits)
    ensures HeadFits(line, ws, limits) && s == Head(line, ws) + rest
    ensures TakeRequest(s, end, limits) == TakeRest(line, FieldsOf(ws), rest, end, limits.maxBody)
  {
    hide WellFormedLine, PrintLine, GoodFields, TakeLine, TakeFields, TakeRest, ParseRequestLine, PrintFields;
    var text := TakeLine(s, end, limits.maxLine);
    AcceptedLine(s, end, limits.maxLine);
    ParsedLineIsPrinted(text.value);
    line := ParseRequestLine(text.value).line;
    ws := ParsedFieldsArePrinted(text.rest, end, limits.maxLine, limits.maxHeaders, []);
    assert [] + FieldsOf(ws) == FieldsOf(ws);
    rest := TakeFields(text.rest, end, limits.maxLine, limits.maxHeaders, []).rest;
    Regrouped(PrintLine(line) + "\r\n", PrintFields(ws), rest);
  }

  /** A printed request is read back, and exactly its bytes are taken. */
  lemma PrintedRequestParses(w: WireRequest, rest: string, end: StreamEnd, limits: Limits)
    requires WellFormed(w, limits)
    ensures TakeRequest(Print(w) + rest, end, limits) == Ok(RequestOf(w), rest)
  {
    hide HeadFits, Head, Acceptable, TakeRequest, TakeRest;
    Regrouped(Head(w.line, w.fields), w.body, rest);
    HeadTaken(w.line, w.fields, w.body + rest, end, limits);
    RestAccepted(w.line, FieldsOf(w.fields), w.body + rest, end, limits.maxBody, w.body, rest);
  }

  lemma AcceptedHead(s: string, end: StreamEnd, limits: Limits)
    requires TakeRequest(s, end, limits).Ok?
    ensures HeadRead(s, end, limits)
  {
    hide TakeLine, TakeFields, TakeRest, ParseRequestLine;
  }

  /** Whatever is accepted is a printed request. */
  lemma ParsedRequestIsPrinted(s: string, end: StreamEnd, limits: Limits) returns (w: WireRequest)
    requires TakeRequest(s, end, limits).Ok?
    ensures
      var p := TakeRequest(s, end, limits);
      WellFormed(w, limits) && RequestOf(w) == p.value && s == Print(w) + p.rest
  {
    hide HeadFits, Head, Acceptable, TakeRequest, TakeRest, HeadRead;
    AcceptedHead(s, end, limits);
    var p := TakeRequest(s, end, limits);
    var line, ws, rest := HeadOf(s, end, limits);
    RestKeepsHead(line, FieldsOf(ws), rest, end, limits.maxBody);
    w := WireRequest(line, ws, p.value.body);
    RestAccepted(line, FieldsOf(ws), rest, end, limits.maxBody, w.body, p.rest);
    Regrouped(Head(line, ws), w.body, p.rest);
  }

  // ----- printing what was read ----------------------------------------------------------------

  function Bare(f: Field): WireField {
    WireField(f.name, "", f.value, "")
  }

  /** The request with every field as Name:value. */
  function Reprint(r: Request): WireRequest {
    WireRequest(r.line, seq(|r.fields|, i requires 0 <= i < |r.fields| => Bare(r.fields[i])), r.body)
  }

  lemma BareIsGood(w: WireField, maxLine: int)
    requires GoodField(w, maxLine)
    ensures GoodField(Bare(FieldOf(w)), maxLine)
  {
  }

  /** An accepted request, printed again without blanks, reads back as itself whatever follows it. */
  lemma ReprintRoundTrip(s: string, end: StreamEnd, limits: Limits, rest: string)
    requires TakeRequest(s, end, limits).Ok?
    ensures
      var r := TakeRequest(s, end, limits).value;
      TakeRequest(Print(Reprint(r)) + rest, end, limits) == Ok(r, rest)
  {
    hide WellFormedLine, PrintLine, GoodField, Acceptable, TakeRequest, Print;
    var r := TakeRequest(s, end, limits).value;
    var w := ParsedRequestIsPrinted(s, end, limits);
    var again := Reprint(r);
    forall i | 0 <= i < |again.fields|
      ensures GoodField(again.fields[i], limits.maxLine) && FieldOf(again.fields[i]) == r.fields[i]
    {
      BareIsGood(w.fields[i], limits.maxLine);
    }
    assert FieldsOf(again.fields) == r.fields;
    PrintedRequestParses(again, rest, end, limits);
  }

  // ----- requests one after another ------------------------------------------------------------

  /** count requests from one stream. */
  function TakeRequests(s: string, end: StreamEnd, limits: Limits, count: nat): Parsed<seq<Request>>
    decreases count
  {
    if count == 0 then Ok([], s)
    else
      match TakeRequest(s, end, limits)
      case Fail(fault, rest) => Fail(fault, rest)
      case Ok(first, rest) =>
        match TakeRequests(rest, end, limits, count - 1)
        case Fail(fault, rest) => Fail(fault, rest)
        case Ok(more, rest) => Ok([first] + more, rest)
  }

  function PrintAll(ws: seq<WireRequest>): string {
    if ws == [] then "" else Print(ws[0]) + PrintAll(ws[1..])
  }

  function RequestsOf(ws: seq<WireRequest>): (rs: seq<Request>)
    ensures |rs| == |ws| && forall i :: 0 <= i < |ws| ==> rs[i] == RequestOf(ws[i])
  {
    seq(|ws|, i requires 0 <= i < |ws| => RequestOf(ws[i]))
  }

  /** Pipelined requests are read back in order, and what follows the last is left alone. */
  lemma {:induction false} PipelinedRequestsParse(ws: seq<WireRequest>, rest: string, end: StreamEnd, limits: Limits)
    requires forall i :: 0 <= i < |ws| ==> WellFormed(ws[i], limits)
    ensures TakeRequests(PrintAll(ws) + rest, end, limits, |ws|) == Ok(RequestsOf(ws), rest)
    decreases |ws|
  {
    hide WellFormed, TakeRequest, Print;
    if ws == [] {
      assert "" + rest == rest;
    } else {
      var more := PrintAll(ws[1..]);
      assert Print(ws[0]) + more + rest == Print(ws[0]) + (more + rest);
      PrintedRequestParses(ws[0], more + rest, end, limits);
      PipelinedRequestsParse(ws[1..], rest, end, limits);
      assert RequestsOf(ws) == [RequestOf(ws[0])] + RequestsOf(ws[1..]);
    }
  }

  // ----- what a request costs ------------------------------------------------------------------

  function Overrun(p: Parsed<seq<Field>>): nat {
    if p.Fail? && p.fault == LineTooLong then 1 else 0
  }

  lemma {:induction false} FieldsAreBounded(s: string, end: StreamEnd, maxLine: int, maxHeaders: int, sofar: seq<Field>)
    requires maxLine > 0 && maxHeaders > 0 && |sofar| <= maxHeaders
    ensures
      var p := TakeFields(s, end, maxLine, maxHeaders, sofar);
      |s| - |p.rest| <= (maxHeaders - |sofar| + 1) * maxLine + Overrun(p)
    decreases |s|
  {
    hide TakeLine, ParseHeaderField;
    LineIsBounded(s, end, maxLine);
    var p := TakeLine(s, end, maxLine);
    var left := maxHeaders - |sofar|;
    assert (left + 1) * maxLine == left * maxLine + maxLine && left * maxLine >= 0;
    if p.Ok? && p.value != "" && left > 0 {
      var f := ParseHeaderField(p.value);
      if f.Some? {
        FieldsAreBounded(p.rest, end, maxLine, maxHeaders, sofar + [f.value]);
      }
    }
  }

  lemma RestIsBounded(line: RequestLine, fields: seq<Field>, s: string, end: StreamEnd, maxBody: int)
    requires maxBody > 0
    ensures |s| - |TakeRest(line, fields, s, end, maxBody).rest| <= maxBody
  {
    hide ValidateRequestHeaders, LengthFrom;
  }

  /** With positive limits no request, accepted or refused, takes more than its limits allow. */
  lemma RequestIsBounded(s: string, end: StreamEnd, limits: Limits)
    requires limits.maxLine > 0 && limits.maxHeaders > 0 && limits.maxBody > 0
    ensures |s| - |TakeRequest(s, end, limits).rest| <= (limits.maxHeaders + 2) * limits.maxLine + limits.maxBody
  {
    hide TakeLine, TakeFields, TakeRest, ParseRequestLine;
    LineIsBounded(s, end, limits.maxLine);
    var text := TakeLine(s, end, limits.maxLine);
    var n, max := limits.maxHeaders, limits.maxLine;
    assert (n + 2) * max == (n + 1) * max + max && (n + 1) * max >= 0;
    if text.Ok? {
      FieldsAreBounded(text.rest, end, max, n, []);
      var line := ParseRequestLine(text.value);
      var headers := TakeFields(text.rest, end, max, n, []);
      if line.Line? && headers.Ok? {
        RestIsBounded(line.line, headers.value, headers.rest, end, limits.maxBody);
      }
    }
  }
}
