/** Writing a response: status line, fields, framing and body, to an output that can fail part way. */
module HttpResponse {
  import opened Text
  import opened HttpStream
  import opened HttpHeader
  import opened HttpChunked

  // One result of an application's reader: some bytes, and whether that was the last of them.
  datatype ReadStatus = Going | AtEnd | Failed
  datatype ReadResult = ReadResult(data: string, status: ReadStatus)

  // A body in memory, or a reader with the length announced for it.
  datatype Body = Bytes(data: string) | Stream(results: seq<ReadResult>, length: int)

  datatype Response =
    Response(version: string, status: int, reason: string, fields: seq<Field>, body: Body, chunked: bool)

  datatype WriteFault =
    | BadVersion | BadStatus | ChunkedNeeds11 | NoLength | BadReason | BadField | BodyShort | BodyFailed | OutputFailed

  function StatusText(code: int): string {
    if code == 101 then "Switching Protocols"
    else if code == 200 then "OK"
    else if code == 201 then "Created"
    else if code == 204 then "No Content"
    else if code == 304 then "Not Modified"
    else if code == 400 then "Bad Request"
    else if code == 401 then "Unauthorized"
    else if code == 404 then "Not Found"
    else if code == 405 then "Method Not Allowed"
    else if code == 408 then "Request Timeout"
    else if code == 411 then "Length Required"
    else if code == 413 then "Content Too Large"
    else if code == 416 then "Range Not Satisfiable"
    else if code == 429 then "Too Many Requests"
    else if code == 500 then "Internal Server Error"
    else if code == 501 then "Not Implemented"
    else "Status"
  }

  // The codes with a phrase of their own, named as in section 15 of RFC 9110 and in RFC 6585.
  const PHRASES: map<int, string> :=
    map[101 := "Switching Protocols", 200 := "OK", 201 := "Created", 204 := "No Content", 304 := "Not Modified",
        400 := "Bad Request", 401 := "Unauthorized", 404 := "Not Found", 405 := "Method Not Allowed",
        408 := "Request Timeout", 411 := "Length Required", 413 := "Content Too Large",
        416 := "Range Not Satisfiable", 429 := "Too Many Requests", 500 := "Internal Server Error",
        501 := "Not Implemented"]

  lemma StatusTextIs(code: int)
    ensures StatusText(code) == if code in PHRASES then PHRASES[code] else "Status"
  {
  }

  predicate StatusAllowsBody(code: int) {
    !(100 <= code < 200) && code != 204 && code != 304
  }

  // ----- the application's reader --------------------------------------------------------------

  function Weight(results: seq<ReadResult>): nat {
    if results == [] then 0 else |results[0].data| + 1 + Weight(results[1..])
  }

  /** What a read into size bytes returns; a longer result is handed out in parts. */
  function NextRead(results: seq<ReadResult>, size: nat): ReadResult {
    if results == [] then ReadResult("", AtEnd)
    else if |results[0].data| > size then ReadResult(results[0].data[..size], Going)
    else results[0]
  }

  function AfterRead(results: seq<ReadResult>, size: nat): (rest: seq<ReadResult>)
    requires size > 0
    ensures results != [] ==> Weight(rest) < Weight(results)
  {
    if results == [] then []
    else if |results[0].data| > size then
      var rest := [ReadResult(results[0].data[size..], results[0].status)] + results[1..];
      assert rest[1..] == results[1..];
      rest
    else results[1..]
  }

  /** All bytes up to the end or the first failure. */
  function AllData(results: seq<ReadResult>): string {
    if results == [] then ""
    else results[0].data + if results[0].status.Going? then AllData(results[1..]) else ""
  }

  function Ending(results: seq<ReadResult>): (status: ReadStatus)
    ensures !status.Going?
  {
    if results == [] then AtEnd
    else if results[0].status.Going? then Ending(results[1..])
    else results[0].status
  }

  function Datas(results: seq<ReadResult>): string {
    if results == [] then "" else results[0].data + Datas(results[1..])
  }

  /** The body is the data of every result up to and including the first that is not followed by more, and
      ends as that one says; a reader that runs out has ended. */
  lemma {:induction false} DataUntilEnd(going: seq<ReadResult>, last: ReadResult, more: seq<ReadResult>)
    requires (forall r :: r in going ==> r.status.Going?) && !last.status.Going?
    ensures AllData(going + [last] + more) == Datas(going) + last.data
    ensures Ending(going + [last] + more) == last.status
    ensures AllData(going) == Datas(going) && Ending(going) == AtEnd
    decreases |going|
  {
    if going == [] {
      assert [] + [last] + more == [last] + more;
      assert "" + last.data == last.data + "";
    } else {
      assert going[0] in going && forall r :: r in going[1..] ==> r in going;
      assert (going + [last] + more)[1..] == going[1..] + [last] + more;
      DataUntilEnd(going[1..], last, more);
      assert going[0].data + (Datas(going[1..]) + last.data) == going[0].data + Datas(going[1..]) + last.data;
    }
  }

  lemma ReadProgress(results: seq<ReadResult>, size: nat)
    requires size > 0
    ensures
      var r, rest := NextRead(results, size), AfterRead(results, size);
      && |r.data| <= size
      && AllData(results) == r.data + (if r.status.Going? then AllData(rest) else "")
      && Ending(results) == (if r.status.Going? then Ending(rest) else r.status)
      && (r.status.Going? ==> Weight(rest) < Weight(results))
  {
    if results != [] && |results[0].data| > size {
      var rest := AfterRead(results, size);
      assert rest[1..] == results[1..];
      CutFront(results[0].data, size, if results[0].status.Going? then AllData(results[1..]) else "");
    }
  }

  class BodySource {
    var results: seq<ReadResult>

    constructor (results: seq<ReadResult>)
      ensures this.results == results
    {
      this.results := results;
    }

    method Read(size: nat) returns (r: ReadResult)
      requires size > 0
      modifies this
      ensures r == NextRead(old(results), size) && results == AfterRead(old(results), size)
    {
      if results == [] {
        return ReadResult("", AtEnd);
      }
      var first := results[0];
      if |first.data| > size {
        results := [ReadResult(first.data[size..], first.status)] + results[1..];
        return ReadResult(first.data[..size], Going);
      }
      results := results[1..];
      return first;
    }
  }

  // ----- what is written, as a value -----------------------------------------------------------

  // The bytes an operation writes, and the fault it then stops with.
  datatype Rendering = Rendering(bytes: string, fault: Option<WriteFault>)

  function Plain(bytes: string): Rendering {
    Rendering(bytes, None)
  }

  function Then(a: Rendering, b: Rendering): Rendering {
    if a.fault.Some? then a else Rendering(a.bytes + b.bytes, b.fault)
  }

  function Clip(s: string, n: nat): string {
    if |s| <= n then s else s[..n]
  }

  /** The output went from w0 with room for r0 bytes to w1 with room for r1 by writing a rendering as
      far as it fits. */
  predicate Emitted(w0: string, r0: nat, w1: string, r1: nat, a: Rendering, fault: Option<WriteFault>) {
    && w1 == w0 + Clip(a.bytes, r0) && r1 + |Clip(a.bytes, r0)| == r0
    && fault == if |a.bytes| <= r0 then a.fault else Some(OutputFailed)
  }

  lemma EmittedThen(w0: string, r0: nat, w1: string, r1: nat, w2: string, r2: nat,
                    a: Rendering, b: Rendering, fault: Option<WriteFault>)
    requires Emitted(w0, r0, w1, r1, a, None) && Emitted(w1, r1, w2, r2, b, fault)
    ensures Emitted(w0, r0, w2, r2, Then(a, b), fault)
  {
    assert w0 + a.bytes + Clip(b.bytes, r1) == w0 + (a.bytes + Clip(b.bytes, r1));
    assert a.bytes + Clip(b.bytes, r1) == Clip(a.bytes + b.bytes, r0);
  }

  lemma EmittedStop(w0: string, r0: nat, w1: string, r1: nat, a: Rendering, b: Rendering, fault: Option<WriteFault>)
    requires Emitted(w0, r0, w1, r1, a, fault) && fault.Some?
    ensures Emitted(w0, r0, w1, r1, Then(a, b), fault)
  {
    if |a.bytes| > r0 && a.fault.None? {
      assert (a.bytes + b.bytes)[..r0] == a.bytes[..r0];
    }
  }

  lemma EmittedNothing(w: string, r: nat)
    ensures Emitted(w, r, w, r, Plain(""), None)
  {
    assert w + "" == w;
  }

  lemma ThenAssociates(a: Rendering, b: Rendering, c: Rendering)
    ensures Then(Then(a, b), c) == Then(a, Then(b, c))
  {
    assert a.bytes + b.bytes + c.bytes == a.bytes + (b.bytes + c.bytes);
  }

  lemma ThenPlain(a: Rendering, b: Rendering)
    ensures Then(Plain(""), b) == b && Then(a, Plain("")) == a
  {
    assert "" + b.bytes == b.bytes && a.bytes + "" == a.bytes;
  }

  // ----- the output ----------------------------------------------------------------------------

  class Output {
    var written: string
    // How many bytes the connection still takes before a write fails.
    var room: nat

    constructor (room: nat)
      ensures written == "" && this.room == room
    {
      written := "";
      this.room := room;
    }

    method Write(data: string) returns (fault: Option<WriteFault>)
      modifies this
      ensures Emitted(old(written), old(room), written, room, Plain(data), fault)
    {
      if |data| <= room {
        written := written + data;
        room := room - |data|;
        return None;
      }
      written := written + data[..room];
      room := 0;
      return Some(OutputFailed);
    }
  }

  // ----- fields --------------------------------------------------------------------------------

  function RenderField(f: Field): Rendering {
    if f.name == "" || ContainsAny(f.name, " \t\r\n") || ContainsAny(f.value, "\r\n") then Rendering("", Some(BadField))
    else Plain(f.name + ": " + f.value + "\r\n")
  }

  method WriteHeaderField(w: Output, f: Field) returns (fault: Option<WriteFault>)
    modifies w
    ensures Emitted(old(w.written), old(w.room), w.written, w.room, RenderField(f), fault)
  {
    if f.name == "" || ContainsAny(f.name, " \t\r\n") {
      EmittedNothing(w.written, w.room);
      return Some(BadField);
    }
    if ContainsAny(f.value, "\r\n") {
      EmittedNothing(w.written, w.room);
      return Some(BadField);
    }
    fault := w.Write(f.name + ": " + f.value + "\r\n");
  }

  /** The server frames the body itself, so the application's own framing fields are left out. */
  predicate Dropped(f: Field, chunked: bool) {
    Named(f, "Content-Length") || (chunked && Named(f, "Transfer-Encoding"))
  }

  function Kept(fields: seq<Field>, chunked: bool): seq<Field> {
    if fields == [] then []
    else (if Dropped(fields[0], chunked) then [] else [fields[0]]) + Kept(fields[1..], chunked)
  }

  /** A field the server leaves alone: not a length and, in a chunked response, not a transfer coding. */
  predicate GoesOut(f: Field, chunked: bool) {
    !EqualFold(f.name, "Content-Length") && !(chunked && EqualFold(f.name, "Transfer-Encoding"))
  }

  /** The places, in order, of the fields that go out. */
  predicate PlacesOf(at: seq<nat>, fields: seq<Field>, chunked: bool) {
    && (forall i, j :: 0 <= i < j < |at| ==> at[i] < at[j])
    && (forall i :: 0 <= i < |at| ==> at[i] < |fields| && GoesOut(fields[at[i]], chunked))
    && (forall k :: 0 <= k < |fields| && GoesOut(fields[k], chunked) ==> k in at)
  }

  function Picked(fields: seq<Field>, at: seq<nat>): (r: seq<Field>)
    requires forall i :: 0 <= i < |at| ==> at[i] < |fields|
    ensures |r| == |at| && forall i :: 0 <= i < |at| ==> r[i] == fields[at[i]]
  {
    seq(|at|, i requires 0 <= i < |at| => fields[at[i]])
  }

  lemma {:induction false} KeptAppend(fields: seq<Field>, last: Field, chunked: bool)
    ensures Kept(fields + [last], chunked) == Kept(fields, chunked) + if Dropped(last, chunked) then [] else [last]
  {
    hide Dropped;
    if fields == [] {
      assert [] + [last] == [last] && [last][1..] == [];
    } else {
      assert (fields + [last])[1..] == fields[1..] + [last];
      KeptAppend(fields[1..], last, chunked);
    }
  }

  lemma OneMorePlace(init: seq<Field>, last: Field, chunked: bool, at: seq<nat>)
    requires PlacesOf(at, init, chunked)
    ensures
      var all := at + if GoesOut(last, chunked) then [|init|] else [];
      && PlacesOf(all, init + [last], chunked)
      && Picked(init + [last], all) == Picked(init, at) + if GoesOut(last, chunked) then [last] else []
  {
    hide GoesOut;
    var all, fields := at + if GoesOut(last, chunked) then [|init|] else [], init + [last];
    assert forall i :: 0 <= i < |at| ==> fields[at[i]] == init[at[i]];
    assert fields[|init|] == last;
    forall k | 0 <= k < |fields| && GoesOut(fields[k], chunked) ensures k in all {
      assert k < |init| ==> fields[k] == init[k] && k in at;
      assert k == |init| ==> all[|at|] == k;
    }
  }

  /** The fields that go out are exactly those the server leaves alone, each as often as it was set and in
      the application's order. */
  lemma {:induction false} KeptInOrder(fields: seq<Field>, chunked: bool) returns (at: seq<nat>)
    ensures PlacesOf(at, fields, chunked) && Kept(fields, chunked) == Picked(fields, at)
  {
    hide EqualFold, PlacesOf, GoesOut;
    if fields == [] {
      at := [];
      NoPlaces(chunked);
    } else {
      var n := |fields| - 1;
      at := KeptInOrder(fields[..n], chunked);
      assert fields == fields[..n] + [fields[n]];
      OneMorePlace(fields[..n], fields[n], chunked, at);
      KeptAppend(fields[..n], fields[n], chunked);
      DroppedIff(fields[n], chunked);
      at := at + if GoesOut(fields[n], chunked) then [n] else [];
    }
  }

  lemma DroppedIff(f: Field, chunked: bool)
    ensures Dropped(f, chunked) <==> !GoesOut(f, chunked)
  {
    hide EqualFold;
  }

  lemma NoPlaces(chunked: bool)
    ensures PlacesOf([], [], chunked)
  {
  }

  function RenderFields(fields: seq<Field>): Rendering {
    if fields == [] then Plain("") else Then(RenderField(fields[0]), RenderFields(fields[1..]))
  }

  method WriteKeptFields(w: Output, fields: seq<Field>, chunked: bool) returns (fault: Option<WriteFault>)
    modifies w
    ensures Emitted(old(w.written), old(w.room), w.written, w.room, RenderFields(Kept(fields, chunked)), fault)
  {
    hide Emitted, RenderField, Dropped, Then;
    ghost var w0, r0 := w.written, w.room;
    ghost var done := Plain("");
    EmittedNothing(w0, r0);
    ThenPlain(done, RenderFields(Kept(fields, chunked)));
    for i := 0 to |fields|
      invariant Emitted(w0, r0, w.written, w.room, done, None)
      invariant Then(done, RenderFields(Kept(fields[i..], chunked))) == RenderFields(Kept(fields, chunked))
    {
      ghost var left := Kept(fields[i + 1..], chunked);
      assert fields[i..][1..] == fields[i + 1..];
      if Dropped(fields[i], chunked) {
        assert [] + left == left;
        continue;
      }
      assert ([fields[i]] + left)[1..] == left;
      ghost var w1, r1 := w.written, w.room;
      fault := WriteHeaderField(w, fields[i]);
      ThenAssociates(done, RenderField(fields[i]), RenderFields(left));
      if fault.Some? {
        AfterStop(w0, r0, w1, r1, w.written, w.room, done, RenderField(fields[i]), RenderFields(left), fault);
        return;
      }
      EmittedThen(w0, r0, w1, r1, w.written, w.room, done, RenderField(fields[i]), None);
      done := Then(done, RenderField(fields[i]));
    }
    ThenPlain(done, Plain(""));
    return None;
  }

  lemma AfterStop(w0: string, r0: nat, w1: string, r1: nat, w2: string, r2: nat,
                  a: Rendering, b: Rendering, c: Rendering, fault: Option<WriteFault>)
    requires Emitted(w0, r0, w1, r1, a, None) && Emitted(w1, r1, w2, r2, b, fault) && fault.Some?
    ensures Emitted(w0, r0, w2, r2, Then(Then(a, b), c), fault)
  {
    EmittedThen(w0, r0, w1, r1, w2, r2, a, b, fault);
    EmittedStop(w0, r0, w2, r2, Then(a, b), c, fault);
  }

  // ----- a chunked body ------------------------------------------------------------------------

  const CHUNK_BUFFER := 32768

  function RenderChunk(data: string): Rendering {
    Plain(if data == "" then "" else Chunk(data))
  }

  function EndFault(status: ReadStatus): Option<WriteFault> {
    if status.Failed? then Some(BodyFailed) else None
  }

  function RenderChunkedReader(results: seq<ReadResult>): Rendering
    decreases Weight(results)
  {
    var r := NextRead(results, CHUNK_BUFFER);
    if r.status.Going? then
      Then(RenderChunk(r.data), RenderChunkedReader(AfterRead(results, CHUNK_BUFFER)))
    else Then(RenderChunk(r.data), Rendering("", EndFault(r.status)))
  }

  method WriteChunk(w: Output, data: string) returns (fault: Option<WriteFault>)
    modifies w
    ensures Emitted(old(w.written), old(w.room), w.written, w.room, Plain(Chunk(data)), fault)
  {
    hide Emitted, FormatHex;
    ghost var w0, r0 := w.written, w.room;
    ghost var size := FormatHex(|data|) + "\r\n";
    assert Then(Then(Plain(size), Plain(data)), Plain("\r\n")) == Plain(Chunk(data)) by {
      assert size + data + "\r\n" == size + (data + "\r\n");
    }
    fault := w.Write(FormatHex(|data|) + "\r\n");
    ghost var w1, r1 := w.written, w.room;
    if fault.Some? {
      EmittedStop(w0, r0, w1, r1, Plain(size), Plain(data), fault);
      EmittedStop(w0, r0, w1, r1, Then(Plain(size), Plain(data)), Plain("\r\n"), fault);
      return;
    }
    fault := w.Write(data);
    ghost var w2, r2 := w.written, w.room;
    EmittedThen(w0, r0, w1, r1, w2, r2, Plain(size), Plain(data), fault);
    if fault.Some? {
      EmittedStop(w0, r0, w2, r2, Then(Plain(size), Plain(data)), Plain("\r\n"), fault);
      return;
    }
    fault := w.Write("\r\n");
    EmittedThen(w0, r0, w2, r2, w.written, w.room, Then(Plain(size), Plain(data)), Plain("\r\n"), fault);
  }

  method WriteDataChunk(w: Output, data: string) returns (fault: Option<WriteFault>)
    modifies w
    ensures Emitted(old(w.written), old(w.room), w.written, w.room, RenderChunk(data), fault)
  {
    fault := None;
    if data != "" {
      fault := WriteChunk(w, data);
    } else {
      EmittedNothing(w.written, w.room);
    }
  }

  method WriteChunkedReader(w: Output, source: BodySource) returns (fault: Option<WriteFault>)
    modifies w, source
    ensures Emitted(old(w.written), old(w.room), w.written, w.room, RenderChunkedReader(old(source.results)), fault)
  {
    hide Emitted, RenderChunk, Then, NextRead, AfterRead;
    ghost var w0, r0, all := w.written, w.room, RenderChunkedReader(source.results);
    ghost var done := Plain("");
    EmittedNothing(w0, r0);
    ThenPlain(done, all);
    while true
      invariant Emitted(w0, r0, w.written, w.room, done, None)
      invariant Then(done, RenderChunkedReader(source.results)) == all
      decreases Weight(source.results)
    {
      ghost var w1, r1, results := w.written, w.room, source.results;
      ReadProgress(results, CHUNK_BUFFER);
      var r := source.Read(CHUNK_BUFFER);
      ghost var left :=
        if r.status.Going? then RenderChunkedReader(source.results) else Rendering("", EndFault(r.status));
      ThenAssociates(done, RenderChunk(r.data), left);
      fault := WriteDataChunk(w, r.data);
      if fault.Some? {
        AfterStop(w0, r0, w1, r1, w.written, w.room, done, RenderChunk(r.data), left, fault);
        return;
      }
      EmittedThen(w0, r0, w1, r1, w.written, w.room, done, RenderChunk(r.data), None);
      done := Then(done, RenderChunk(r.data));
      if !r.status.Going? {
        EmittedFault(w.written, w.room, EndFault(r.status));
        EmittedThen(w0, r0, w.written, w.room, w.written, w.room, done, left, EndFault(r.status));
        return EndFault(r.status);
      }
    }
  }

  lemma EmittedFault(w: string, r: nat, fault: Option<WriteFault>)
    ensures Emitted(w, r, w, r, Rendering("", fault), fault)
  {
    assert w + "" == w;
  }

  function RenderChunkedBody(body: Body): Rendering {
    Then(if body.Stream? then RenderChunkedReader(body.results) else RenderChunk(body.data), Plain(LAST_CHUNK))
  }

  method WriteChunkedBody(w: Output, body: Body) returns (fault: Option<WriteFault>)
    modifies w
    ensures Emitted(old(w.written), old(w.room), w.written, w.room, RenderChunkedBody(body), fault)
  {
    hide Emitted, RenderChunkedReader, RenderChunk, Then;
    ghost var w0, r0 := w.written, w.room;
    ghost var data := if body.Stream? then RenderChunkedReader(body.results) else RenderChunk(body.data);
    if body.Stream? {
      var source := new BodySource(body.results);
      fault := WriteChunkedReader(w, source);
    } else {
      fault := WriteDataChunk(w, body.data);
    }
    ghost var w1, r1 := w.written, w.room;
    if fault.Some? {
      EmittedStop(w0, r0, w1, r1, data, Plain(LAST_CHUNK), fault);
      return;
    }
    fault := w.Write(LAST_CHUNK);
    EmittedThen(w0, r0, w1, r1, w.written, w.room, data, Plain(LAST_CHUNK), fault);
  }

  // ----- a body of fixed length ----------------------------------------------------------------

  /** io.CopyN: the first n bytes, or all there are and a fault. */
  function RenderCopy(results: seq<ReadResult>, n: nat): Rendering {
    var data := AllData(results);
    if n <= |data| then Plain(data[..n])
    else Rendering(data, Some(if Ending(results).Failed? then BodyFailed else BodyShort))
  }

  lemma CopyStep(results: seq<ReadResult>, n: nat, size: nat)
    requires 0 < size <= n
    ensures
      var r := NextRead(results, size);
      RenderCopy(results, n)
      == Then(Plain(r.data),
              if r.status.Going? then RenderCopy(AfterRead(results, size), n - |r.data|)
              else if |r.data| == n then Plain("")
              else Rendering("", Some(if r.status.Failed? then BodyFailed else BodyShort)))
  {
    ReadProgress(results, size);
    var r := NextRead(results, size);
    var more := if r.status.Going? then AllData(AfterRead(results, size)) else "";
    assert r.data + "" == r.data;
    if n <= |r.data + more| {
      assert (r.data + more)[..n] == r.data + more[..n - |r.data|];
    }
  }

  method CopyN(w: Output, source: BodySource, n: nat) returns (fault: Option<WriteFault>)
    modifies w, source
    ensures Emitted(old(w.written), old(w.room), w.written, w.room, RenderCopy(old(source.results), n), fault)
  {
    hide Emitted, Then, NextRead, AfterRead, RenderCopy;
    ghost var w0, r0, all := w.written, w.room, RenderCopy(source.results, n);
    ghost var done := Plain("");
    var remaining := n;
    EmittedNothing(w0, r0);
    ThenPlain(done, all);
    while remaining > 0
      invariant 0 <= remaining && Emitted(w0, r0, w.written, w.room, done, None)
      invariant Then(done, RenderCopy(source.results, remaining)) == all
      decreases Weight(source.results), remaining
    {
      ghost var w1, r1, results := w.written, w.room, source.results;
      var size := if remaining < CHUNK_BUFFER then remaining else CHUNK_BUFFER;
      ReadProgress(results, size);
      CopyStep(results, remaining, size);
      var r := source.Read(size);
      ghost var left :=
        if r.status.Going? then RenderCopy(source.results, remaining - |r.data|)
        else if |r.data| == remaining then Plain("")
        else Rendering("", Some(if r.status.Failed? then BodyFailed else BodyShort));
      ThenAssociates(done, Plain(r.data), left);
      fault := w.Write(r.data);
      if fault.Some? {
        AfterStop(w0, r0, w1, r1, w.written, w.room, done, Plain(r.data), left, fault);
        return;
      }
      EmittedThen(w0, r0, w1, r1, w.written, w.room, done, Plain(r.data), None);
      done := Then(done, Plain(r.data));
      remaining := remaining - |r.data|;
      if !r.status.Going? {
        fault := if remaining == 0 then None else Some(if r.status.Failed? then BodyFailed else BodyShort);
        EmittedFault(w.written, w.room, fault);
        EmittedThen(w0, r0, w.written, w.room, w.written, w.room, done, left, fault);
        return;
      }
    }
    CopyNothing(source.results);
    ThenPlain(done, Plain(""));
    return None;
  }

  lemma CopyNothing(results: seq<ReadResult>)
    ensures RenderCopy(results, 0) == Plain("")
  {
  }

  function RenderFixedBody(body: Body): Rendering {
    if body.Bytes? then Plain(body.data) else RenderCopy(body.results, if body.length < 0 then 0 else body.length)
  }

  method WriteFixedBody(w: Output, body: Body) returns (fault: Option<WriteFault>)
    modifies w
    ensures Emitted(old(w.written), old(w.room), w.written, w.room, RenderFixedBody(body), fault)
  {
    hide Emitted, RenderCopy;
    if body.Stream? {
      var source := new BodySource(body.results);
      fault := CopyN(w, source, if body.length < 0 then 0 else body.length);
      return;
    }
    if body.data == "" {
      EmittedNothing(w.written, w.room);
      return None;
    }
    fault := w.Write(body.data);
  }

  // ----- the whole response --------------------------------------------------------------------

  function BodyLength(body: Body): int {
    if body.Stream? then body.length else |body.data|
  }

  function FormatInt(n: int): string {
    if n < 0 then "-" + FormatDecimal(-n) else FormatDecimal(n)
  }

  const CHUNKED_FIELD := Field("Transfer-Encoding", "chunked")

  function LengthFieldOf(body: Body): Field {
    Field("Content-Length", FormatInt(BodyLength(body)))
  }

  function VersionOf(r: Response): string {
    if r.version == "" then "HTTP/1.1" else r.version
  }

  function ReasonOf(r: Response): string {
    if r.reason == "" then StatusText(r.status) else r.reason
  }

  function Unwritable(r: Response): Option<WriteFault> {
    if VersionOf(r) != "HTTP/1.1" && VersionOf(r) != "HTTP/1.0" then Some(BadVersion)
    else if r.status < 100 || r.status > 999 then Some(BadStatus)
    else if r.chunked && VersionOf(r) != "HTTP/1.1" then Some(ChunkedNeeds11)
    else if r.body.Stream? && r.body.length < 0 && !r.chunked then Some(NoLength)
    else if ContainsAny(ReasonOf(r), "\r\n") then Some(BadReason)
    else None
  }

  function StatusLine(r: Response): string {
    VersionOf(r) + " " + FormatInt(r.status) + " " + ReasonOf(r) + "\r\n"
  }

  function RenderTail(r: Response): Rendering {
    if !StatusAllowsBody(r.status) then Plain("\r\n")
    else if r.chunked then Then(RenderField(CHUNKED_FIELD), Then(Plain("\r\n"), RenderChunkedBody(r.body)))
    else Then(RenderField(LengthFieldOf(r.body)), Then(Plain("\r\n"), RenderFixedBody(r.body)))
  }

  function Render(r: Response): Rendering {
    if Unwritable(r).Some? then Rendering("", Unwritable(r))
    else Then(Plain(StatusLine(r)), Then(RenderFields(Kept(r.fields, r.chunked)), RenderTail(r)))
  }

  method WriteTail(w: Output, r: Response) returns (fault: Option<WriteFault>)
    modifies w
    ensures Emitted(old(w.written), old(w.room), w.written, w.room, RenderTail(r), fault)
  {
    hide Emitted, RenderField, RenderChunkedBody, RenderFixedBody, Then, LengthFieldOf, StatusAllowsBody;
    if !StatusAllowsBody(r.status) {
      fault := w.Write("\r\n");
      return;
    }
    ghost var w0, r0 := w.written, w.room;
    ghost var body := if r.chunked then RenderChunkedBody(r.body) else RenderFixedBody(r.body);
    var field := if r.chunked then CHUNKED_FIELD else LengthFieldOf(r.body);
    fault := WriteHeaderField(w, field);
    ghost var w1, r1 := w.written, w.room;
    ghost var head := RenderField(field);
    if fault.Some? {
      EmittedStop(w0, r0, w1, r1, head, Then(Plain("\r\n"), body), fault);
      return;
    }
    fault := w.Write("\r\n");
    ghost var w2, r2 := w.written, w.room;
    if fault.Some? {
      EmittedStop(w1, r1, w2, r2, Plain("\r\n"), body, fault);
      EmittedThen(w0, r0, w1, r1, w2, r2, head, Then(Plain("\r\n"), body), fault);
      return;
    }
    if r.chunked {
      fault := WriteChunkedBody(w, r.body);
    } else {
      fault := WriteFixedBody(w, r.body);
    }
    EmittedThen(w1, r1, w2, r2, w.written, w.room, Plain("\r\n"), body, fault);
    EmittedThen(w0, r0, w1, r1, w.written, w.room, head, Then(Plain("\r\n"), body), fault);
  }

  /** Whatever room the output has, exactly the rendering is written, as far as it fits. */
  method WriteResponse(w: Output, r: Response) returns (fault: Option<WriteFault>)
    modifies w
    ensures Emitted(old(w.written), old(w.room), w.written, w.room, Render(r), fault)
  {
    hide Emitted, RenderFields, RenderTail, Then, StatusLine, Unwritable, Kept;
    var refused := Unwritable(r);
    if refused.Some? {
      EmittedFault(w.written, w.room, refused);
      return refused;
    }
    ghost var w0, r0 := w.written, w.room;
    ghost var fields, tail := RenderFields(Kept(r.fields, r.chunked)), RenderTail(r);
    fault := w.Write(StatusLine(r));
    ghost var w1, r1 := w.written, w.room;
    if fault.Some? {
      EmittedStop(w0, r0, w1, r1, Plain(StatusLine(r)), Then(fields, tail), fault);
      return;
    }
    fault := WriteKeptFields(w, r.fields, r.chunked);
    ghost var w2, r2 := w.written, w.room;
    if fault.Some? {
      EmittedStop(w1, r1, w2, r2, fields, tail, fault);
      EmittedThen(w0, r0, w1, r1, w2, r2, Plain(StatusLine(r)), Then(fields, tail), fault);
      return;
    }
    fault := WriteTail(w, r);
    EmittedThen(w1, r1, w2, r2, w.written, w.room, fields, tail, fault);
    EmittedThen(w0, r0, w1, r1, w.written, w.room, Plain(StatusLine(r)), Then(fields, tail), fault);
  }

  // ----- error responses -----------------------------------------------------------------------

  function ErrorResponse(status: int, message: string): Response {
    var text := if message == "" then StatusText(status) else message;
    var line := if text != "" && text[|text| - 1] == '\n' then text else text + "\n";
    Response("", status, "", [Field("Content-Type", "text/plain; charset=utf-8")], Bytes(line), false)
  }
}
