/** Why a read is refused, in terms of the bytes received. */
module HttpFaults {
  import opened Text
  import opened HttpStream
  import opened HttpHeader
  import opened HttpRequest
  import opened HttpGrammar

  // ----- a header section that has not ended ---------------------------------------------------

  function FieldLines(ws: seq<WireField>): string {
    if ws == [] then "" else PrintField(ws[0]) + "\r\n" + FieldLines(ws[1..])
  }

  lemma LinesStep(w: WireField, more: seq<WireField>, rest: string)
    ensures FieldLines([w] + more) + rest == PrintField(w) + "\r\n" + (FieldLines(more) + rest)
  {
    hide PrintField;
    assert ([w] + more)[1..] == more;
  }

  predicate OpenFields(s: string, maxLine: int, left: int, ws: seq<WireField>, part: string) {
    GoodFields(ws, maxLine) && (left >= 0 ==> |ws| <= left) && OpenLine(part, maxLine) && s == FieldLines(ws) + part
  }

  /** How many more fields the limit allows; negative without a limit. */
  function FieldsLeft(maxHeaders: int, sofar: nat): int {
    if maxHeaders <= 0 then -1 else if sofar > maxHeaders then 0 else maxHeaders - sofar
  }

  predicate Waits<T>(p: Parsed<T>) {
    p.Fail? && p.fault == ReadTimeout
  }

  predicate HeaderFault(fault: Fault, end: StreamEnd) {
    || fault == LineTooLong || fault == LineEnding || fault == Cut(end, UnexpectedEof)
    || fault == MalformedHeader || fault == TooManyHeaders
  }

  lemma {:induction false} OpenFieldsWait(s: string, maxLine: int, maxHeaders: int, sofar: seq<Field>,
                                          ws: seq<WireField>, part: string)
    requires OpenFields(s, maxLine, FieldsLeft(maxHeaders, |sofar|), ws, part)
    ensures Waits(TakeFields(s, TimedOut, maxLine, maxHeaders, sofar))
    decreases |ws|
  {
    hide TakeLine, WellFormedField, ParseHeaderField, PrintField, OpenLine;
    if ws == [] {
      assert s == part;
      LineRefused(s, TimedOut, maxLine);
    } else {
      assert GoodField(ws[0], maxLine);
      assert [ws[0]] + ws[1..] == ws;
      LinesStep(ws[0], ws[1..], part);
      var tail := FieldLines(ws[1..]) + part;
      FieldLineHasNoBreak(ws[0]);
      PrintedFieldParses(ws[0]);
      PrintedLine(PrintField(ws[0]), tail, TimedOut, maxLine);
      OpenFieldsWait(tail, maxLine, maxHeaders, sofar + [FieldOf(ws[0])], ws[1..], part);
    }
  }

  lemma {:induction false} WaitingFields(s: string, maxLine: int, maxHeaders: int, sofar: seq<Field>)
    returns (ws: seq<WireField>, part: string)
    requires Waits(TakeFields(s, TimedOut, maxLine, maxHeaders, sofar))
    ensures OpenFields(s, maxLine, FieldsLeft(maxHeaders, |sofar|), ws, part)
    decreases |s|
  {
    hide TakeLine, WellFormedField, ParseHeaderField, PrintField, OpenLine;
    var line := TakeLine(s, TimedOut, maxLine);
    LineRefused(s, TimedOut, maxLine);
    if line.Fail? {
      ws, part := [], s;
      assert s == "" + part;
    } else {
      AcceptedLine(s, TimedOut, maxLine);
      var w := ParsedFieldIsPrinted(line.value);
      var more: seq<WireField>;
      more, part := WaitingFields(line.rest, maxLine, maxHeaders, sofar + [FieldOf(w)]);
      ws := [w] + more;
      LinesStep(w, more, part);
      assert GoodField(w, maxLine);
      assert forall i :: 0 < i < |ws| ==> ws[i] == more[i - 1];
    }
  }

  lemma {:induction false} FieldFaults(s: string, end: StreamEnd, maxLine: int, maxHeaders: int, sofar: seq<Field>)
    ensures
      var p := TakeFields(s, end, maxLine, maxHeaders, sofar);
      p.Fail? ==> HeaderFault(p.fault, end)
    decreases |s|
  {
    hide TakeLine, ParseHeaderField, Cut;
    LineRefused(s, end, maxLine);
    var line := TakeLine(s, end, maxLine);
    if line.Ok? {
      var f := ParseHeaderField(line.value);
      if f.Some? {
        FieldFaults(line.rest, end, maxLine, maxHeaders, sofar + [f.value]);
      }
    }
  }

  // ----- what the bytes received amount to -----------------------------------------------------

  /** A printed request stands at the front. */
  ghost predicate PrintedAt(s: string, limits: Limits, w: WireRequest, rest: string) {
    WellFormed(w, limits) && s == Print(w) + rest
  }

  ghost predicate StartsWithRequest(s: string, limits: Limits) {
    exists w, rest :: PrintedAt(s, limits, w, rest)
  }

  predicate Hosted(line: RequestLine, ws: seq<WireField>) {
    line.version == "HTTP/1.1" ==> HasHost(FieldsOf(ws))
  }

  predicate HeadAt(s: string, limits: Limits, line: RequestLine, ws: seq<WireField>, rest: string) {
    HeadFits(line, ws, limits) && s == Head(line, ws) + rest
  }

  /** A whole head whose version and Host are in order and that names a transfer coding. */
  predicate CodedAt(s: string, limits: Limits, line: RequestLine, ws: seq<WireField>, rest: string) {
    HeadAt(s, limits, line, ws, rest) && Hosted(line, ws) && !NoCoding(FieldsOf(ws))
  }

  ghost predicate Coded(s: string, limits: Limits) {
    exists line, ws, rest :: CodedAt(s, limits, line, ws, rest)
  }

  /** A whole head, otherwise in order, whose lengths all state n. */
  predicate SizedAt(s: string, limits: Limits, line: RequestLine, ws: seq<WireField>, rest: string, n: nat) {
    HeadAt(s, limits, line, ws, rest) && Hosted(line, ws) && NoCoding(FieldsOf(ws)) && LengthStated(FieldsOf(ws), n)
  }

  ghost predicate TooLarge(s: string, limits: Limits) {
    exists line, ws, rest, n: nat :: SizedAt(s, limits, line, ws, rest, n) && 0 < limits.maxBody < n
  }

  /** A good request line and good field lines, then a line that has not ended. */
  predicate HeadOpenAt(s: string, limits: Limits, line: RequestLine, ws: seq<WireField>, part: string) {
    && HeadFits(line, ws, limits) && OpenLine(part, limits.maxLine)
    && s == PrintLine(line) + "\r\n" + (FieldLines(ws) + part)
  }

  /** Nothing has been refused and the request is not complete: its first line, its head or its body is
      still open. */
  ghost predicate Unfinished(s: string, limits: Limits) {
    || OpenLine(s, limits.maxLine)
    || (exists line, ws, part :: HeadOpenAt(s, limits, line, ws, part))
    || (exists line, ws, body, n: nat :: SizedAt(s, limits, line, ws, body, n)
                                         && |body| < n && (limits.maxBody > 0 ==> n <= limits.maxBody))
  }

  // ----- from the bytes to the fault -----------------------------------------------------------

  lemma CodedIsRefused(s: string, end: StreamEnd, limits: Limits)
    requires Coded(s, limits)
    ensures
      var p := TakeRequest(s, end, limits);
      p.Fail? && p.fault == UnsupportedTransferEncoding
  {
    hide TakeRequest, TakeRest, HeadFits, Head, HasHost, NoCoding;
    var line, ws, rest :| CodedAt(s, limits, line, ws, rest);
    HeadTaken(line, ws, rest, end, limits);
    RefusedFor(line, FieldsOf(ws), rest, end, limits.maxBody);
  }

  lemma TooLargeIsRefused(s: string, end: StreamEnd, limits: Limits)
    requires TooLarge(s, limits)
    ensures
      var p := TakeRequest(s, end, limits);
      p.Fail? && p.fault == BodyTooLarge
  {
    hide TakeRequest, TakeRest, HeadFits, Head, HasHost, NoCoding, LengthStated;
    var line, ws, rest, n: nat :| SizedAt(s, limits, line, ws, rest, n) && 0 < limits.maxBody < n;
    HeadTaken(line, ws, rest, end, limits);
    RefusedFor(line, FieldsOf(ws), rest, end, limits.maxBody);
  }

  lemma OpenHeadWaits(s: string, limits: Limits, line: RequestLine, ws: seq<WireField>, part: string)
    requires HeadOpenAt(s, limits, line, ws, part)
    ensures Waits(TakeRequest(s, TimedOut, limits))
  {
    hide WellFormedLine, PrintLine, GoodFields, TakeLine, TakeFields, TakeRest, ParseRequestLine, FieldLines, OpenLine;
    RequestLineHasNoBreak(line);
    PrintedLineParses(line);
    PrintedLine(PrintLine(line), FieldLines(ws) + part, TimedOut, limits.maxLine);
    OpenFieldsWait(FieldLines(ws) + part, limits.maxLine, limits.maxHeaders, [], ws, part);
  }

  lemma UnfinishedWaits(s: string, limits: Limits)
    requires Unfinished(s, limits)
    ensures Waits(TakeRequest(s, TimedOut, limits))
  {
    hide TakeRest, HeadFits, Head, HasHost, NoCoding, LengthStated, TakeLine, TakeFields, ParseRequestLine, HeadOpenAt;
    if OpenLine(s, limits.maxLine) {
      LineRefused(s, TimedOut, limits.maxLine);
    } else if line, ws, part :| HeadOpenAt(s, limits, line, ws, part) {
      OpenHeadWaits(s, limits, line, ws, part);
    } else {
      var line, ws, body, n: nat :| SizedAt(s, limits, line, ws, body, n)
                               && |body| < n && (limits.maxBody > 0 ==> n <= limits.maxBody);
      HeadTaken(line, ws, body, TimedOut, limits);
      RefusedFor(line, FieldsOf(ws), body, TimedOut, limits.maxBody);
    }
  }

  // ----- from the fault to the bytes -----------------------------------------------------------

  lemma EarlyFaults(s: string, end: StreamEnd, limits: Limits)
    requires !HeadRead(s, end, limits)
    ensures
      var p := TakeRequest(s, end, limits);
      && p.Fail?
      && (HeaderFault(p.fault, end) || p.fault == MalformedRequestLine || p.fault == UnsupportedVersion)
  {
    hide TakeLine, TakeFields, TakeRest, ParseRequestLine, Cut;
    LineRefused(s, end, limits.maxLine);
    var text := TakeLine(s, end, limits.maxLine);
    if text.Ok? {
      LineFaults(text.value);
      FieldFaults(text.rest, end, limits.maxLine, limits.maxHeaders, []);
    }
  }

  lemma LineFaults(text: string)
    ensures
      var p := ParseRequestLine(text);
      p.BadLine? ==> p.fault == MalformedRequestLine || p.fault == UnsupportedVersion
  {
  }

  lemma EarlyWaitIsOpen(s: string, limits: Limits)
    requires !HeadRead(s, TimedOut, limits) && Waits(TakeRequest(s, TimedOut, limits))
    ensures Unfinished(s, limits)
  {
    hide TakeLine, TakeFields, TakeRest, ParseRequestLine, PrintLine, FieldLines, WellFormedLine, GoodFields, OpenLine;
    LineRefused(s, TimedOut, limits.maxLine);
    var text := TakeLine(s, TimedOut, limits.maxLine);
    if text.Ok? {
      LineFaults(text.value);
      AcceptedLine(s, TimedOut, limits.maxLine);
      ParsedLineIsPrinted(text.value);
      var line := ParseRequestLine(text.value).line;
      var ws, part := WaitingFields(text.rest, limits.maxLine, limits.maxHeaders, []);
      assert HeadOpenAt(s, limits, line, ws, part);
    }
  }

  lemma LateFaults(s: string, end: StreamEnd, limits: Limits)
    requires HeadRead(s, end, limits)
    ensures
      var p := TakeRequest(s, end, limits);
      && (p.Fail? && p.fault == UnsupportedTransferEncoding ==> Coded(s, limits))
      && (p.Fail? && p.fault == BodyTooLarge ==> TooLarge(s, limits))
      && (Waits(p) ==> end.TimedOut? && Unfinished(s, limits))
  {
    hide TakeRequest, HeadRead, HeadFits, Head, HasHost, NoCoding, LengthStated, OpenLine, HeadOpenAt,
      ValidateRequestHeaders, LengthFrom, TakeBody;
    var line, ws, rest := HeadOf(s, end, limits);
    RefusedFor(line, FieldsOf(ws), rest, end, limits.maxBody);
    RestFails(line, FieldsOf(ws), rest, end, limits.maxBody);
    hide TakeRest;
    var p := TakeRequest(s, end, limits);
    if p == Fail(UnsupportedTransferEncoding, rest) {
      assert CodedAt(s, limits, line, ws, rest);
    }
    if p == Fail(BodyTooLarge, rest) {
      var n :| LengthStated(FieldsOf(ws), n) && 0 < limits.maxBody < n;
      assert SizedAt(s, limits, line, ws, rest, n);
    }
    if Waits(p) {
      var n: nat :| LengthStated(FieldsOf(ws), n) && |rest| < n && (limits.maxBody > 0 ==> n <= limits.maxBody);
      assert SizedAt(s, limits, line, ws, rest, n);
    }
  }

  /** Only a body that could not be read to its end takes anything after the head. */
  lemma RestFails(line: RequestLine, fields: seq<Field>, s: string, end: StreamEnd, maxBody: int)
    ensures
      var p := TakeRest(line, fields, s, end, maxBody);
      p.Fail? && (p.fault == UnsupportedTransferEncoding || p.fault == BodyTooLarge) ==> p.rest == s
  {
    hide HasNonEmptyHeader;
    LengthFault(fields, None);
  }

  /** A read is refused for a transfer coding, or for a body above the limit, or because the client was too
      slow, exactly when the bytes received show it, and it succeeds exactly when they start with a
      well-formed request. */
  lemma FaultIff(s: string, end: StreamEnd, limits: Limits)
    ensures
      var p := TakeRequest(s, end, limits);
      && (p.Ok? <==> StartsWithRequest(s, limits))
      && (p.Fail? && p.fault == UnsupportedTransferEncoding <==> Coded(s, limits))
      && (p.Fail? && p.fault == BodyTooLarge <==> TooLarge(s, limits))
      && (p.Fail? && p.fault == ReadTimeout <==> end.TimedOut? && Unfinished(s, limits))
  {
    hide TakeRequest, Unfinished, Coded, TooLarge, HeadRead, WellFormed, Print;
    var p := TakeRequest(s, end, limits);
    if p.Ok? {
      var w := ParsedRequestIsPrinted(s, end, limits);
      assert PrintedAt(s, limits, w, p.rest);
    }
    if w, rest :| PrintedAt(s, limits, w, rest) {
      PrintedRequestParses(w, rest, end, limits);
    }
    if Coded(s, limits) {
      CodedIsRefused(s, end, limits);
    }
    if TooLarge(s, limits) {
      TooLargeIsRefused(s, end, limits);
    }
    if Unfinished(s, limits) {
      UnfinishedWaits(s, limits);
    }
    if HeadRead(s, end, limits) {
      LateFaults(s, end, limits);
    } else {
      EarlyFaults(s, end, limits);
      if Waits(p) && end.TimedOut? {
        EarlyWaitIsOpen(s, limits);
      }
    }
  }
}
