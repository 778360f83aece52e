/** Server-sent events: the encoder, and the client that interprets an event stream by section
    9.2.6 of the HTML Living Standard. */
module Sse {
  import opened Text

  datatype Event = Event(id: string, event: string, data: string, retry: int)
  datatype EncodeResult = Encoded(text: string) | InvalidId | InvalidEvent | InvalidRetry

  predicate InvalidFieldValue(value: string) {
    ContainsAny(value, "\r\n")
  }

  predicate Breaks(s: string) {
    '\r' in s || '\n' in s
  }

  lemma InvalidFieldValueIff(value: string)
    ensures InvalidFieldValue(value) <==> Breaks(value)
  {
    assert forall c :: c in "\r\n" <==> c == '\r' || c == '\n';
  }

  function Normalize(data: string): string {
    ReplaceAll(ReplaceAll(data, "\r\n", "\n"), "\r", "\n")
  }

  /** Every line ending, CRLF, CR or LF, becomes one LF in a single left-to-right scan. */
  function OneScan(s: string): string
    decreases |s|
  {
    if s == "" then ""
    else if s[0] != '\r' then [s[0]] + OneScan(s[1..])
    else if |s| > 1 && s[1] == '\n' then "\n" + OneScan(s[2..])
    else "\n" + OneScan(s[1..])
  }

  lemma {:induction false} NormalizeIsOneScan(s: string)
    ensures Normalize(s) == OneScan(s)
    decreases |s|
  {
    if s != "" {
      var crlf := "\r\n" <= s;
      assert crlf <==> |s| > 1 && s[0] == '\r' && s[1] == '\n';
      var rest := if crlf then s[2..] else s[1..];
      NormalizeIsOneScan(rest);
      var first := ReplaceAll(s, "\r\n", "\n");
      var head := if crlf then "\n" else [s[0]];
      assert first == head + ReplaceAll(rest, "\r\n", "\n");
      assert first[1..] == ReplaceAll(rest, "\r\n", "\n");
    }
  }

  lemma {:induction false} ScanLeavesNoCr(s: string)
    ensures '\r' !in OneScan(s)
    decreases |s|
  {
    if s != "" {
      ScanLeavesNoCr(s[1..]);
      if |s| > 1 {
        ScanLeavesNoCr(s[2..]);
      }
    }
  }

  lemma {:induction false} ScanKeepsCrFree(s: string)
    requires '\r' !in s
    ensures OneScan(s) == s
  {
    if s != "" {
      ScanKeepsCrFree(s[1..]);
    }
  }

  lemma NormalizeIsIdempotent(s: string)
    ensures '\r' !in Normalize(s) && Normalize(Normalize(s)) == Normalize(s)
  {
    NormalizeIsOneScan(s);
    ScanLeavesNoCr(s);
    NormalizeIsOneScan(Normalize(s));
    ScanKeepsCrFree(Normalize(s));
  }

  function Field(name: string, value: string): string {
    name + ": " + value + "\n"
  }

  function DataFields(lines: seq<string>): string {
    if lines == [] then "" else DataFields(lines[..|lines| - 1]) + Field("data", lines[|lines| - 1])
  }

  lemma DataFieldsGrow(lines: seq<string>, i: nat)
    requires i < |lines|
    ensures DataFields(lines[..i + 1]) == DataFields(lines[..i]) + Field("data", lines[i])
  {
    assert lines[..i + 1][..i] == lines[..i];
  }

  function OptionalField(name: string, value: string): string {
    if value != "" then Field(name, value) else ""
  }

  function RetryValue(e: Event): string {
    if e.retry > 0 then FormatDecimal(e.retry) else ""
  }

  function Prologue(e: Event): string {
    OptionalField("id", e.id) + OptionalField("event", e.event) + OptionalField("retry", RetryValue(e))
  }

  function EncodedText(e: Event): string {
    Prologue(e) + DataFields(Split(Normalize(e.data), '\n')) + "\n"
  }

  predicate Accepted(e: Event) {
    !InvalidFieldValue(e.id) && !InvalidFieldValue(e.event) && e.retry >= 0
  }

  method EncodeServerSentEvent(e: Event) returns (r: EncodeResult)
    ensures r.Encoded? <==> Accepted(e)
    ensures r.Encoded? ==> r.text == EncodedText(e)
    ensures r.InvalidId? <==> Breaks(e.id)
    ensures r.InvalidEvent? <==> !Breaks(e.id) && Breaks(e.event)
    ensures r.InvalidRetry? <==> !Breaks(e.id) && !Breaks(e.event) && e.retry < 0
  {
    InvalidFieldValueIff(e.id);
    InvalidFieldValueIff(e.event);
    if InvalidFieldValue(e.id) {
      return InvalidId;
    }
    if InvalidFieldValue(e.event) {
      return InvalidEvent;
    }
    if e.retry < 0 {
      return InvalidRetry;
    }
    var builder := "";
    if e.id != "" {
      builder := builder + Field("id", e.id);
    }
    assert builder == OptionalField("id", e.id);
    if e.event != "" {
      builder := builder + Field("event", e.event);
    }
    assert builder == OptionalField("id", e.id) + OptionalField("event", e.event);
    if e.retry > 0 {
      builder := builder + Field("retry", FormatDecimal(e.retry));
    }
    ghost var prologue := builder;
    assert prologue == Prologue(e);
    var lines := Split(Normalize(e.data), '\n');
    for i := 0 to |lines|
      invariant builder == prologue + DataFields(lines[..i])
    {
      DataFieldsGrow(lines, i);
      Glued(prologue, DataFields(lines[..i]), Field("data", lines[i]));
      builder := builder + Field("data", lines[i]);
    }
    assert lines[..|lines|] == lines;
    return Encoded(builder + "\n");
  }

  // ----- the client ----------------------------------------------------------------------------

  datatype Message = Message(eventType: string, data: string, lastId: string)
  datatype Client = Client(
    data: string, eventType: string, lastId: string, retry: int, messages: seq<Message>)

  function ProcessField(c: Client, name: string, value: string): Client {
    if name == "event" then c.(eventType := value)
    else if name == "data" then c.(data := c.data + value + "\n")
    else if name == "id" then if '\0' in value then c else c.(lastId := value)
    else if name == "retry" then
      if value != "" && AllDigits(value) then c.(retry := DecimalValue(value)) else c
    else c
  }

  function Dispatch(c: Client): Client {
    if c.data == "" then c.(eventType := "")
    else
      var data := if c.data[|c.data| - 1] == '\n' then c.data[..|c.data| - 1] else c.data;
      var eventType := if c.eventType == "" then "message" else c.eventType;
      c.(data := "", eventType := "", messages := c.messages + [Message(eventType, data, c.lastId)])
  }

  function ProcessLine(c: Client, line: string): Client {
    if line == "" then Dispatch(c)
    else
      var colon := IndexOf(line, ':');
      if colon == 0 then c
      else if colon == |line| then ProcessField(c, line, "")
      else
        var value := line[colon + 1..];
        ProcessField(c, line[..colon], if HasPrefix(value, " ") then value[1..] else value)
  }

  function LineLength(s: string): (i: nat)
    ensures i <= |s|
    ensures i < |s| ==> s[i] == '\n' || s[i] == '\r'
    ensures forall k :: 0 <= k < i ==> s[k] != '\n' && s[k] != '\r'
  {
    if s == "" || s[0] == '\n' || s[0] == '\r' then 0 else 1 + LineLength(s[1..])
  }

  /** Lines end with CRLF, LF or CR; an unfinished last line is discarded. */
  function Interpret(c: Client, s: string): Client
    decreases |s|
  {
    var i := LineLength(s);
    if i == |s| then c
    else
      var next := if s[i] == '\r' && i + 1 < |s| && s[i + 1] == '\n' then i + 2 else i + 1;
      Interpret(ProcessLine(c, s[..i]), s[next..])
  }

  lemma InterpretLine(c: Client, line: string, rest: string)
    requires !InvalidFieldValue(line)
    ensures Interpret(c, line + "\n" + rest) == Interpret(ProcessLine(c, line), rest)
  {
    var s := line + "\n" + rest;
    Glued(line, "\n", rest);
    LineLengthUnique(s, |line|);
  }

  lemma LineLengthUnique(s: string, i: nat)
    requires i < |s| && s[i] == '\n'
    requires forall k :: 0 <= k < i ==> s[k] != '\n' && s[k] != '\r'
    ensures LineLength(s) == i
  {
  }

  lemma InterpretField(c: Client, name: string, value: string, rest: string)
    requires name in {"id", "event", "retry", "data"}
    requires !InvalidFieldValue(value)
    ensures Interpret(c, Field(name, value) + rest) == Interpret(ProcessField(c, name, value), rest)
  {
    var line := name + ": " + value;
    Glued(name, ": ", value);
    Glued(line, "\n", rest);
    FieldLine(c, name, value);
    InterpretLine(c, line, rest);
  }

  lemma FieldLine(c: Client, name: string, value: string)
    requires name in {"id", "event", "retry", "data"}
    requires !InvalidFieldValue(value)
    ensures !InvalidFieldValue(name + ": " + value)
    ensures ProcessLine(c, name + ": " + value) == ProcessField(c, name, value)
  {
    hide ProcessField;
    var line := name + ": " + value;
    Glued(name, ": ", value);
    forall i | 0 <= i < |line| ensures line[i] !in "\r\n" {
      assert i >= |name| + 2 ==> line[i] == value[i - |name| - 2];
    }
    IndexOfUnique(line, ':', |name|);
    assert line[|name| + 1..] == " " + value;
    assert (" " + value)[1..] == value;
  }

  lemma {:induction false} InterpretDataFields(c: Client, lines: seq<string>, rest: string)
    requires lines != []
    requires forall l :: l in lines ==> !InvalidFieldValue(l)
    ensures Interpret(c, DataFields(lines) + rest)
            == Interpret(c.(data := c.data + Join(lines, "\n") + "\n"), rest)
  {
    var n := |lines| - 1;
    var last := Field("data", lines[n]);
    Glued(DataFields(lines[..n]), last, rest);
    var mid := c;
    if n > 0 {
      InterpretDataFields(c, lines[..n], last + rest);
      mid := c.(data := c.data + Join(lines[..n], "\n") + "\n");
    } else {
      assert DataFields(lines[..n]) + (last + rest) == last + rest;
    }
    DataBuffer(c.data, lines);
    InterpretField(mid, "data", lines[n], rest);
  }

  lemma DataBuffer(buffer: string, lines: seq<string>)
    requires lines != []
    ensures
      var n := |lines| - 1;
      (if n == 0 then buffer else buffer + Join(lines[..n], "\n") + "\n") + lines[n] + "\n"
      == buffer + Join(lines, "\n") + "\n"
  {
    var n := |lines| - 1;
    if n > 0 {
      JoinLast(lines);
      Regroup5(buffer, Join(lines[..n], "\n"), "\n", lines[n], "\n");
    }
  }

  lemma {:induction false} JoinLast(parts: seq<string>)
    requires |parts| > 1
    ensures
      var n := |parts| - 1;
      Join(parts, "\n") == Join(parts[..n], "\n") + "\n" + parts[n]
  {
    var n := |parts| - 1;
    if n > 1 {
      assert parts[1..][..n - 1] == parts[..n][1..];
      JoinLast(parts[1..]);
      Regroup5(parts[0], "\n", Join(parts[..n][1..], "\n"), "\n", parts[n]);
    }
  }

  /** What an accepted event should do to an idle client. */
  function Delivered(c: Client, e: Event): Client {
    var lastId := if e.id == "" || '\0' in e.id then c.lastId else e.id;
    var eventType := if e.event == "" then "message" else e.event;
    c.(lastId := lastId,
       retry := if e.retry > 0 then e.retry else c.retry,
       messages := c.messages + [Message(eventType, Normalize(e.data), lastId)])
  }

  predicate Idle(c: Client) {
    c.data == "" && c.eventType == ""
  }

  lemma InterpretOptionalField(c: Client, name: string, value: string, rest: string)
    requires name in {"id", "event", "retry", "data"}
    requires !InvalidFieldValue(value)
    ensures Interpret(c, OptionalField(name, value) + rest)
            == Interpret(if value == "" then c else ProcessField(c, name, value), rest)
  {
    if value == "" {
      assert OptionalField(name, value) + rest == rest;
    } else {
      InterpretField(c, name, value, rest);
    }
  }

  lemma RetryIsRead(e: Event)
    ensures !InvalidFieldValue(RetryValue(e)) && (RetryValue(e) == "" <==> e.retry <= 0)
    ensures e.retry > 0 ==> AllDigits(RetryValue(e)) && DecimalValue(RetryValue(e)) == e.retry
  {
    if e.retry > 0 {
      DecimalRoundTrip(e.retry);
    }
  }

  lemma InterpretPrologue(c: Client, e: Event, rest: string)
    requires Accepted(e) && Idle(c)
    ensures
      var d := Delivered(c, e);
      Interpret(c, Prologue(e) + rest)
      == Interpret(c.(lastId := d.lastId, eventType := e.event, retry := d.retry), rest)
  {
    hide Interpret, OptionalField, InvalidFieldValue, FormatDecimal, DecimalValue, RetryValue, Normalize;
    var id, event, retry :=
      OptionalField("id", e.id), OptionalField("event", e.event), OptionalField("retry", RetryValue(e));
    Regroup(id, event, retry, rest);
    InterpretOptionalField(c, "id", e.id, event + (retry + rest));
    var c1 := c.(lastId := Delivered(c, e).lastId);
    InterpretOptionalField(c1, "event", e.event, retry + rest);
    var c2 := c1.(eventType := e.event);
    RetryIsRead(e);
    InterpretOptionalField(c2, "retry", RetryValue(e), rest);
  }

  /** One encoded event, whatever follows it, is one delivery. */
  lemma InterpretEvent(c: Client, e: Event, rest: string)
    requires Accepted(e) && Idle(c)
    ensures Interpret(c, EncodedText(e) + rest) == Interpret(Delivered(c, e), rest)
  {
    var d := Delivered(c, e);
    var data := Normalize(e.data);
    var lines := Split(data, '\n');
    Regroup(Prologue(e), DataFields(lines), "\n", rest);
    InterpretPrologue(c, e, DataFields(lines) + ("\n" + rest));
    var c1 := c.(lastId := d.lastId, eventType := e.event, retry := d.retry);
    JoinSplit(data, '\n');
    NormalizeIsIdempotent(e.data);
    SplitParts(data, '\n');
    SplitKeepsFree(data, '\n', '\r');
    InterpretDataFields(c1, lines, "\n" + rest);
    EndOfEvent(c1, data, rest);
  }

  lemma EndOfEvent(c: Client, data: string, rest: string)
    requires c.data == ""
    ensures Interpret(c.(data := c.data + data + "\n"), "\n" + rest)
            == Interpret(Dispatch(c.(data := data + "\n")), rest)
    ensures Dispatch(c.(data := data + "\n"))
            == c.(eventType := "", messages := c.messages + [Message(
                  if c.eventType == "" then "message" else c.eventType, data, c.lastId)])
  {
    assert c.data + data + "\n" == data + "\n";
    assert "" + "\n" + rest == "\n" + rest;
    InterpretLine(c.(data := data + "\n"), "", rest);
    assert (data + "\n")[..|data|] == data;
  }

  lemma {:induction false} SplitKeepsFree(s: string, sep: char, c: char)
    requires c !in s
    ensures forall p :: p in Split(s, sep) ==> c !in p
    decreases |s|
  {
    var i := IndexOf(s, sep);
    if i < |s| {
      SplitKeepsFree(s[i + 1..], sep, c);
    }
  }

  function EncodedStream(events: seq<Event>): string {
    if events == [] then "" else EncodedText(events[0]) + EncodedStream(events[1..])
  }

  function DeliveredAll(c: Client, events: seq<Event>): Client
    decreases events
  {
    if events == [] then c else DeliveredAll(Delivered(c, events[0]), events[1..])
  }

  /** A stream of encoded events delivers exactly those events, in order, and leaves what follows
      to be read next. */
  lemma {:induction false} StreamRoundTrip(c: Client, events: seq<Event>, rest: string)
    requires Idle(c)
    requires forall e :: e in events ==> Accepted(e)
    ensures Interpret(c, EncodedStream(events) + rest) == Interpret(DeliveredAll(c, events), rest)
    decreases events
  {
    if events == [] {
      assert EncodedStream(events) + rest == rest;
    } else {
      var tail := EncodedStream(events[1..]);
      Glued(EncodedText(events[0]), tail, rest);
      InterpretEvent(c, events[0], tail + rest);
      StreamRoundTrip(Delivered(c, events[0]), events[1..], rest);
    }
  }

  /** The id a client holds after the first n events: the latest non-empty one without a NUL. */
  function IdInForce(initial: string, events: seq<Event>, n: nat): string
    requires n <= |events|
  {
    if n == 0 then initial
    else if events[n - 1].id != "" && '\0' !in events[n - 1].id then events[n - 1].id
    else IdInForce(initial, events, n - 1)
  }

  /** The reconnection time in force after the first n events, in milliseconds. */
  function RetryInForce(initial: int, events: seq<Event>, n: nat): int
    requires n <= |events|
  {
    if n == 0 then initial
    else if events[n - 1].retry > 0 then events[n - 1].retry
    else RetryInForce(initial, events, n - 1)
  }

  lemma {:induction false} DeliveredMessages(c: Client, events: seq<Event>)
    decreases events
    ensures
      var d := DeliveredAll(c, events);
      && |d.messages| == |c.messages| + |events|
      && d.messages[..|c.messages|] == c.messages
      && (forall i :: 0 <= i < |events| ==>
            d.messages[|c.messages| + i] == Message(
              if events[i].event == "" then "message" else events[i].event,
              Normalize(events[i].data),
              IdInForce(c.lastId, events, i + 1)))
      && d.lastId == IdInForce(c.lastId, events, |events|)
      && d.retry == RetryInForce(c.retry, events, |events|)
  {
    hide Normalize, InvalidFieldValue;
    if events != [] {
      var c1 := Delivered(c, events[0]);
      DeliveredMessages(c1, events[1..]);
      forall i | 0 <= i < |events|
        ensures IdInForce(c.lastId, events, i + 1) == IdInForce(c1.lastId, events[1..], i)
        ensures RetryInForce(c.retry, events, i + 1) == RetryInForce(c1.retry, events[1..], i)
      {
        InForceTail(c, events, i);
      }
      assert RetryInForce(c.retry, events, |events| - 1 + 1) == RetryInForce(c1.retry, events[1..], |events| - 1);
      var d := DeliveredAll(c, events);
      forall i | 0 <= i < |events|
        ensures d.messages[|c.messages| + i] == Message(
                  if events[i].event == "" then "message" else events[i].event,
                  Normalize(events[i].data),
                  IdInForce(c.lastId, events, i + 1))
      {
        if i == 0 {
          assert d.messages[..|c1.messages|][|c.messages|] == c1.messages[|c.messages|];
        } else {
          assert d.messages[|c1.messages| + (i - 1)].lastId == IdInForce(c1.lastId, events[1..], i);
        }
      }
      assert d.messages[..|c.messages|] == d.messages[..|c1.messages|][..|c.messages|];
    }
  }

  lemma {:induction false} InForceTail(c: Client, events: seq<Event>, n: nat)
    requires n < |events|
    ensures IdInForce(c.lastId, events, n + 1)
            == IdInForce(Delivered(c, events[0]).lastId, events[1..], n)
    ensures RetryInForce(c.retry, events, n + 1)
            == RetryInForce(Delivered(c, events[0]).retry, events[1..], n)
  {
    if n > 0 {
      InForceTail(c, events, n - 1);
    }
  }

  /** Reading the encoded events back from nothing: message i carries event i's type, its
      normalized data and the id in force, and the last positive retry stands. */
  lemma EventsArriveInOrder(events: seq<Event>)
    requires forall e :: e in events ==> Accepted(e)
    ensures
      var client := Interpret(Client("", "", "", 0, []), EncodedStream(events));
      var got := client.messages;
      && client.retry == RetryInForce(0, events, |events|)
      && |got| == |events|
      && forall i :: 0 <= i < |events| ==>
           && got[i].eventType == (if events[i].event == "" then "message" else events[i].event)
           && got[i].data == Normalize(events[i].data)
           && got[i].lastId == IdInForce("", events, i + 1)
  {
    var c := Client("", "", "", 0, []);
    StreamRoundTrip(c, events, "");
    assert EncodedStream(events) + "" == EncodedStream(events);
    DeliveredMessages(c, events);
  }

  /** An event's own id reaches every idle client exactly when it is non-empty and NUL-free. */
  lemma IdArrivesIffNulFree(e: Event)
    requires Accepted(e) && e.id != ""
    ensures (forall c: Client :: Idle(c) ==> Interpret(c, EncodedText(e)).lastId == e.id)
            <==> '\0' !in e.id
  {
    forall c: Client | Idle(c)
      ensures Interpret(c, EncodedText(e)) == Delivered(c, e)
    {
      InterpretEvent(c, e, "");
      assert EncodedText(e) + "" == EncodedText(e);
    }
    var blank := Client("", "", "", 0, []);
    assert Idle(blank);
  }
}
