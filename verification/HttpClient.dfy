/** A client that reads responses by RFC 9112, and why it gets from the server's output exactly the
    responses that were written. */
module HttpClient {
  import opened Text
  import opened HttpStream
  import opened HttpHeader
  import opened HttpGrammar
  import opened HttpChunked
  import opened HttpResponse

  // ----- what a chunked body carries -----------------------------------------------------------

  /** The data of the chunks written for a reader: one for every read that returned bytes. */
  function PiecesOf(results: seq<ReadResult>): seq<string>
    decreases Weight(results)
  {
    var r := NextRead(results, CHUNK_BUFFER);
    (if r.data == "" then [] else [r.data])
    + if r.status.Going? then PiecesOf(AfterRead(results, CHUNK_BUFFER)) else []
  }

  lemma OnePieceMore(data: string, more: seq<string>)
    ensures
      var pieces := (if data == "" then [] else [data]) + more;
      && PrintChunks(pieces) == RenderChunk(data).bytes + PrintChunks(more)
      && Concat(pieces) == data + Concat(more)
      && (AllNonempty(more) ==> AllNonempty(pieces))
  {
    hide Chunk;
    var pieces := (if data == "" then [] else [data]) + more;
    if data == "" {
      assert pieces == more && "" + PrintChunks(more) == PrintChunks(more) && "" + Concat(more) == Concat(more);
    } else {
      assert pieces[1..] == more;
    }
  }

  /** Reading to the end writes one chunk for every non-empty read and never one of size zero. */
  lemma {:induction false} ReaderPrintsChunks(results: seq<ReadResult>)
    ensures RenderChunkedReader(results) == Rendering(PrintChunks(PiecesOf(results)), EndFault(Ending(results)))
    ensures AllNonempty(PiecesOf(results)) && Concat(PiecesOf(results)) == AllData(results)
    ensures forall i :: 0 <= i < |PiecesOf(results)| ==> |PiecesOf(results)[i]| <= CHUNK_BUFFER
    decreases Weight(results)
  {
    hide NextRead, AfterRead, RenderChunk, PrintChunks, Concat, AllData, Ending;
    ReadProgress(results, CHUNK_BUFFER);
    var r, rest := NextRead(results, CHUNK_BUFFER), AfterRead(results, CHUNK_BUFFER);
    var more := if r.status.Going? then PiecesOf(rest) else [];
    OnePieceMore(r.data, more);
    if r.status.Going? {
      ReaderPrintsChunks(rest);
    } else {
      NoPieces();
    }
    assert RenderChunk(r.data).fault == None by {
      PlainChunk(r.data);
    }
  }

  lemma NoPieces()
    ensures PrintChunks([]) == "" && Concat([]) == "" && AllNonempty([])
  {
  }

  lemma PlainChunk(data: string)
    ensures RenderChunk(data).fault == None
  {
  }

  function ChunksOf(body: Body): seq<string> {
    if body.Stream? then PiecesOf(body.results) else if body.data == "" then [] else [body.data]
  }

  /** The bytes an application's body holds, up to the end or the first failed read. */
  function DataOf(body: Body): string {
    if body.Stream? then AllData(body.results) else body.data
  }

  predicate ReaderFails(body: Body) {
    body.Stream? && Ending(body.results).Failed?
  }

  lemma ChunkedBodyRendering(body: Body)
    ensures RenderChunkedBody(body)
            == if ReaderFails(body) then Rendering(PrintChunks(ChunksOf(body)), Some(BodyFailed))
               else Plain(PrintChunks(ChunksOf(body)) + LAST_CHUNK)
    ensures AllNonempty(ChunksOf(body)) && Concat(ChunksOf(body)) == DataOf(body)
  {
    hide RenderChunkedReader, PiecesOf, Chunk, AllData;
    if body.Stream? {
      ReaderPrintsChunks(body.results);
    } else {
      OnePieceMore(body.data, []);
      assert body.data + Concat([]) == body.data;
      assert RenderChunk(body.data).bytes + PrintChunks([]) == RenderChunk(body.data).bytes;
    }
  }

  /** A chunked body decodes to the application's bytes and leaves what follows untouched. */
  lemma ChunkedBodyDecodes(body: Body, rest: string)
    requires !ReaderFails(body)
    ensures RenderChunkedBody(body).fault == None
    ensures DecodeChunked(RenderChunkedBody(body).bytes + rest) == Some(Decoded(DataOf(body), rest))
  {
    hide RenderChunkedBody, DecodeChunked, PrintChunks;
    ChunkedBodyRendering(body);
    ChunksDecode(ChunksOf(body), rest);
    assert PrintChunks(ChunksOf(body)) + LAST_CHUNK + rest == PrintChunks(ChunksOf(body)) + (LAST_CHUNK + rest);
  }

  /** When the application's reader fails, what was written never decodes as a complete body. */
  lemma FailedReaderNeverEnds(body: Body)
    requires ReaderFails(body)
    ensures RenderChunkedBody(body).fault == Some(BodyFailed)
    ensures DecodeChunked(RenderChunkedBody(body).bytes) == None
  {
    hide RenderChunkedBody, DecodeChunked, PrintChunks;
    ChunkedBodyRendering(body);
    UnfinishedChunksFail(ChunksOf(body));
  }

  // ----- the client ----------------------------------------------------------------------------

  datatype Received = Received(version: string, status: nat, reason: string, fields: seq<Field>, body: string)
  datatype Reply = Reply(response: Received, rest: string)
  datatype StatusParts = StatusParts(version: string, status: nat, reason: string)

  /** Version, space, three digits, space, reason phrase: section 4 of RFC 9112. */
  function ParseStatusLine(line: string): Option<StatusParts> {
    var i := IndexOf(line, ' ');
    if line[..i] != "HTTP/1.1" && line[..i] != "HTTP/1.0" then None
    else if |line| < i + 5 || !AllDigits(line[i + 1..i + 4]) || line[i + 4] != ' ' then None
    else Some(StatusParts(line[..i], DecimalValue(line[i + 1..i + 4]), line[i + 5..]))
  }

  function LastCoding(fields: seq<Field>): Option<string> {
    if fields == [] then None
    else if Named(fields[|fields| - 1], "Transfer-Encoding") then
      var codings := Split(fields[|fields| - 1].value, ',');
      Some(Trim(codings[|codings| - 1], BLANKS))
    else LastCoding(fields[..|fields| - 1])
  }

  /** Where a response's body ends: section 6.3 of RFC 9112, for a request that was not HEAD or CONNECT. */
  function TakeResponseBody(status: nat, fields: seq<Field>, s: string): (d: Option<Decoded>)
    ensures d.Some? ==> |d.value.rest| <= |s|
  {
    if 100 <= status < 200 || status == 204 || status == 304 then Some(Decoded("", s))
    else
      match LastCoding(fields)
      case Some(coding) => if EqualFold(coding, "chunked") then DecodeChunked(s) else Some(Decoded(s, ""))
      case None =>
        match LengthFrom(fields, None)
        case Refused(_) => None
        case Absent => Some(Decoded(s, ""))
        case Known(n) => if n <= |s| then Some(Decoded(s[..n], s[n..])) else None
  }

  function TakeResponse(s: string): (reply: Option<Reply>)
    ensures reply.Some? ==> |reply.value.rest| < |s|
  {
    match TakeLine(s, Eof, 0)
    case Fail(_, _) => None
    case Ok(line, rest) =>
      match ParseStatusLine(line)
      case None => None
      case Some(parts) =>
        match TakeFields(rest, Eof, 0, 0, [])
        case Fail(_, _) => None
        case Ok(fields, rest) =>
          match TakeResponseBody(parts.status, fields, rest)
          case None => None
          case Some(d) => Some(Reply(Received(parts.version, parts.status, parts.reason, fields, d.body), d.rest))
  }

  // ----- the status line -----------------------------------------------------------------------

  lemma ThreeDigits(n: nat)
    requires 100 <= n <= 999
    ensures |FormatDecimal(n)| == 3
  {
    assert 10 <= n / 10 < 100 && 1 <= n / 10 / 10 < 10;
    assert |FormatDecimal(n / 10 / 10)| == 1;
    assert |FormatDecimal(n / 10)| == 2;
  }

  lemma StatusLineCut(version: string, code: string, reason: string)
    requires (version == "HTTP/1.1" || version == "HTTP/1.0") && |code| == 3 && AllDigits(code)
    ensures ParseStatusLine(version + " " + code + " " + reason)
            == Some(StatusParts(version, DecimalValue(code), reason))
  {
    hide DecimalValue, IndexOf;
    var line := version + " " + code + " " + reason;
    VersionIsWord(version);
    LineParts(version, code, reason);
    IndexOfUnique(line, ' ', 8);
  }

  lemma VersionIsWord(version: string)
    requires version == "HTTP/1.1" || version == "HTTP/1.0"
    ensures |version| == 8 && forall i :: 0 <= i < 8 ==> version[i] != ' '
  {
  }

  lemma LineParts(version: string, code: string, reason: string)
    requires |version| == 8 && |code| == 3
    ensures
      var line := version + " " + code + " " + reason;
      && |line| >= 13 && line[..8] == version && line[8] == ' ' && line[9..12] == code && line[12] == ' '
      && line[13..] == reason && forall i :: 0 <= i < 8 ==> line[i] == version[i]
  {
  }

  function StatusLineText(r: Response): string {
    VersionOf(r) + " " + FormatInt(r.status) + " " + ReasonOf(r)
  }

  lemma StatusLineParses(r: Response)
    requires Unwritable(r).None?
    ensures StatusLine(r) == StatusLineText(r) + "\r\n" && '\n' !in StatusLineText(r)
    ensures ParseStatusLine(StatusLineText(r)) == Some(StatusParts(VersionOf(r), r.status, ReasonOf(r)))
  {
    hide StatusText, ParseStatusLine, DecimalValue, FormatDecimal;
    ThreeDigits(r.status);
    DecimalRoundTrip(r.status);
    StatusLineCut(VersionOf(r), FormatDecimal(r.status), ReasonOf(r));
    NoBreak(ReasonOf(r), "\r\n");
  }

  // ----- the fields ----------------------------------------------------------------------------

  function WireOf(f: Field): WireField {
    WireField(f.name, " ", f.value, "")
  }

  function WireAll(fields: seq<Field>): (ws: seq<WireField>)
    ensures |ws| == |fields| && forall i :: 0 <= i < |fields| ==> ws[i] == WireOf(fields[i])
  {
    seq(|fields|, i requires 0 <= i < |fields| => WireOf(fields[i]))
  }

  /** A field a client can read back. */
  predicate ClientSafe(f: Field) {
    ':' !in f.name && IsTrimmed(f.value, BLANKS)
  }

  lemma FieldBytes(f: Field)
    requires RenderField(f).fault.None?
    ensures RenderField(f).bytes == PrintField(WireOf(f)) + "\r\n"
    ensures ClientSafe(f) ==> WellFormedField(WireOf(f))
  {
    hide ContainsAny, IsTrimmed;
    assert f.name + ": " == f.name + ":" + " ";
    assert " " + f.value + "" == " " + f.value;
    assert f.name + ":" + " " + f.value == f.name + ":" + (" " + f.value);
  }

  lemma ColonInName(f: Field)
    requires ':' in f.name
    ensures
      var p := ParseHeaderField(PrintField(WireOf(f)));
      p.Some? ==> p.value.name != f.name
  {
    var line := PrintField(WireOf(f));
    var i :| 0 <= i < |f.name| && f.name[i] == ':';
    assert line[i] == ':';
    assert IndexOf(line, ':') <= i;
  }

  /** A written field is read back as itself exactly when its name has no colon and its value no outer
      blanks. */
  lemma FieldSurvives(f: Field)
    requires RenderField(f).fault.None?
    ensures ParseHeaderField(PrintField(WireOf(f))) == Some(f) <==> ClientSafe(f)
  {
    FieldBytes(f);
    if ClientSafe(f) {
      PrintedFieldParses(WireOf(f));
    } else if ':' in f.name {
      ColonInName(f);
    }
  }

  lemma {:induction false} FieldsBytes(fields: seq<Field>)
    requires RenderFields(fields).fault.None?
    ensures RenderFields(fields).bytes + "\r\n" == PrintFields(WireAll(fields))
    ensures forall f :: f in fields ==> RenderField(f).fault.None?
  {
    hide RenderField, PrintField;
    if fields == [] {
      assert "" + "\r\n" == "\r\n";
    } else {
      FieldBytes(fields[0]);
      FieldsBytes(fields[1..]);
      assert WireAll(fields)[1..] == WireAll(fields[1..]);
      var tail := RenderFields(fields[1..]).bytes;
      assert RenderField(fields[0]).bytes + tail + "\r\n" == RenderField(fields[0]).bytes + (tail + "\r\n");
    }
  }

  lemma {:induction false} RenderFieldsAppend(fields: seq<Field>, last: Field)
    ensures RenderFields(fields + [last]) == Then(RenderFields(fields), RenderField(last))
  {
    hide RenderField;
    if fields == [] {
      assert [] + [last] == [last] && [last][1..] == [];
      ThenPlain(RenderField(last), RenderField(last));
      assert RenderFields([last]) == Then(RenderField(last), RenderFields([]));
    } else {
      assert (fields + [last])[1..] == fields[1..] + [last];
      RenderFieldsAppend(fields[1..], last);
      ThenAssociates(RenderField(fields[0]), RenderFields(fields[1..]), RenderField(last));
    }
  }

  // ----- the fields as a client sees them ------------------------------------------------------

  /** What a client makes of a written field, if it can make anything of it. */
  function SeenField(f: Field): Option<Field> {
    ParseHeaderField(PrintField(WireOf(f)))
  }

  function SeenFields(fields: seq<Field>): Option<seq<Field>> {
    if fields == [] then Some([])
    else
      match SeenField(fields[0])
      case None => None
      case Some(g) =>
        match SeenFields(fields[1..])
        case None => None
        case Some(more) => Some([g] + more)
  }

  lemma FieldLineRead(f: Field, tail: string, sofar: seq<Field>)
    requires RenderField(f).fault.None?
    ensures TakeFields(PrintField(WireOf(f)) + "\r\n" + tail, Eof, 0, 0, sofar)
            == match SeenField(f)
               case None => Fail(MalformedHeader, tail)
               case Some(g) => TakeFields(tail, Eof, 0, 0, sofar + [g])
  {
    hide TakeLine, ParseHeaderField;
    NoBreak(f.name, " \t\r\n");
    NoBreak(f.value, "\r\n");
    PrintedLine(PrintField(WireOf(f)), tail, Eof, 0);
  }

  /** A client reads the written field lines one by one as it sees them. */
  lemma {:induction false} FieldsRead(fields: seq<Field>, rest: string, sofar: seq<Field>)
    requires RenderFields(fields).fault.None?
    ensures
      var p := TakeFields(PrintFields(WireAll(fields)) + rest, Eof, 0, 0, sofar);
      if SeenFields(fields).Some? then p == Ok(sofar + SeenFields(fields).value, rest) else p.Fail?
    decreases |fields|
  {
    hide RenderField, TakeLine, PrintField, ParseHeaderField, SeenField;
    if fields == [] {
      PrintedLine("", rest, Eof, 0);
      assert "" + "\r\n" + rest == "\r\n" + rest && sofar + [] == sofar;
    } else {
      var tail := PrintFields(WireAll(fields[1..])) + rest;
      OneMoreLine(fields, rest);
      FieldLineRead(fields[0], tail, sofar);
      if SeenField(fields[0]).Some? {
        var g := SeenField(fields[0]).value;
        FieldsRead(fields[1..], rest, sofar + [g]);
        if SeenFields(fields[1..]).Some? {
          Regrouped(sofar, [g], SeenFields(fields[1..]).value);
        }
      }
    }
  }

  lemma OneMoreLine(fields: seq<Field>, rest: string)
    requires fields != []
    ensures PrintFields(WireAll(fields)) + rest
            == PrintField(WireOf(fields[0])) + "\r\n" + (PrintFields(WireAll(fields[1..])) + rest)
  {
    hide PrintField;
    assert WireAll(fields)[1..] == WireAll(fields[1..]);
  }

  lemma {:induction false} SeenAppend(fields: seq<Field>, last: Field)
    requires SeenField(last) == Some(last)
    ensures SeenFields(fields + [last])
            == if SeenFields(fields).Some? then Some(SeenFields(fields).value + [last]) else None
  {
    hide SeenField;
    if fields == [] {
      var none: seq<Field> := [];
      assert none + [last] == [last] && [last][1..] == none && [last] + none == [last];
      assert SeenFields(none) == Some(none);
    } else {
      assert (fields + [last])[1..] == fields[1..] + [last];
      SeenAppend(fields[1..], last);
      if SeenField(fields[0]).Some? && SeenFields(fields[1..]).Some? {
        Regrouped([SeenField(fields[0]).value], SeenFields(fields[1..]).value, [last]);
      }
    }
  }

  /** The fields are seen as they are exactly when every one of them survives. */
  lemma {:induction false} SeenAsWritten(fields: seq<Field>)
    requires RenderFields(fields).fault.None?
    ensures SeenFields(fields) == Some(fields) <==> forall f :: f in fields ==> ClientSafe(f)
  {
    hide RenderField, SeenField, ClientSafe;
    if fields != [] {
      SeenAsWritten(fields[1..]);
      SurvivesSeen(fields[0]);
      assert fields == [fields[0]] + fields[1..];
      assert forall f :: f in fields <==> f == fields[0] || f in fields[1..];
    }
  }

  lemma SurvivesSeen(f: Field)
    requires RenderField(f).fault.None?
    ensures SeenField(f) == Some(f) <==> ClientSafe(f)
  {
    FieldSurvives(f);
  }

  /** The name a client sees: what stands before the first colon. */
  function NameSeen(f: Field): string {
    f.name[..IndexOf(f.name, ':')]
  }

  lemma FirstColon(f: Field)
    ensures IndexOf(PrintField(WireOf(f)), ':') == IndexOf(f.name, ':')
  {
    Glued(f.name, ":", " " + f.value + "");
    IndexOfUnique(PrintField(WireOf(f)), ':', IndexOf(f.name, ':'));
  }

  lemma SliceHasNone(s: string, lo: nat, hi: nat, chars: string)
    requires !ContainsAny(s, chars) && lo <= hi <= |s|
    ensures !ContainsAny(s[lo..hi], chars)
  {
    forall i | 0 <= i < hi - lo ensures s[lo..hi][i] !in chars {
      assert s[lo + i] !in chars;
    }
  }

  lemma FieldLineHasNone(f: Field)
    requires RenderField(f).fault.None?
    ensures !ContainsAny(PrintField(WireOf(f)), "\r\n")
  {
    NoneOf(f.name, " \t\r\n", "\r\n");
    NoneOf(":", "\r\n", "\r\n");
    ContainsAnyParts(" ", f.value, "", "\r\n");
    ContainsAnyParts(f.name, ":", " " + f.value + "", "\r\n");
    assert f.name + ":" + (" " + f.value + "") == PrintField(WireOf(f));
  }

  lemma NoneOf(s: string, chars: string, fewer: string)
    requires !ContainsAny(s, chars) && forall c :: c in fewer ==> c in chars
    ensures !ContainsAny(s, fewer)
  {
  }

  lemma ColonStaysInside(s: string, k: nat)
    requires k < |s| && s[k] == ':'
    ensures ':' in Trim(s, BLANKS)
  {
    var before, after := TrimSplits(s, BLANKS);
    var kept := Trim(s, BLANKS);
    assert |before| <= k < |before| + |kept| && kept[k - |before|] == ':';
  }

  /** A written field is seen unless its name starts with a colon, under the name before the first one. */
  lemma SeenFieldIff(f: Field)
    requires RenderField(f).fault.None?
    ensures SeenField(f).Some? <==> NameSeen(f) != ""
    ensures SeenField(f).Some? ==>
              SeenField(f).value.name == NameSeen(f) && (':' in f.name ==> ':' in SeenField(f).value.value)
  {
    hide ContainsAny, Trim;
    var line, i := PrintField(WireOf(f)), IndexOf(f.name, ':');
    FirstColon(f);
    FieldLineHasNone(f);
    SliceHasNone(f.name, 0, i, " \t\r\n");
    SliceHasNone(line, i + 1, |line|, "\r\n");
    assert line[..i] == f.name[..i] && line[i + 1..] == line[i + 1..|line|] && f.name[0..i] == f.name[..i];
    if ':' in f.name {
      assert line[i + 1..][|f.name| - i - 1] == ':';
      ColonStaysInside(line[i + 1..], |f.name| - i - 1);
    }
  }

  lemma {:induction false} SeenEach(fields: seq<Field>)
    ensures SeenFields(fields).Some? <==> forall f :: f in fields ==> SeenField(f).Some?
    ensures SeenFields(fields).Some? ==>
              && |SeenFields(fields).value| == |fields|
              && forall i :: 0 <= i < |fields| ==> SeenField(fields[i]) == Some(SeenFields(fields).value[i])
  {
    hide SeenField;
    if fields != [] {
      SeenEach(fields[1..]);
      assert forall f :: f in fields <==> f == fields[0] || f in fields[1..];
    }
  }

  // ----- the framing ---------------------------------------------------------------------------

  function FramingField(r: Response): Field {
    if r.chunked then CHUNKED_FIELD else LengthFieldOf(r.body)
  }

  /** A body that goes out under a Content-Length. */
  predicate PlainBody(r: Response) {
    StatusAllowsBody(r.status) && !r.chunked
  }

  function FramingOf(r: Response): seq<Field> {
    if StatusAllowsBody(r.status) then [FramingField(r)] else []
  }

  /** The fields that go out: the application's own, then the server's framing. */
  function EmittedFields(r: Response): seq<Field> {
    Kept(r.fields, r.chunked) + FramingOf(r)
  }

  function CountNamed(fields: seq<Field>, name: string): nat {
    if fields == [] then 0 else (if Named(fields[0], name) then 1 else 0) + CountNamed(fields[1..], name)
  }

  lemma {:induction false} CountAppend(fields: seq<Field>, last: Field, name: string)
    ensures CountNamed(fields + [last], name) == CountNamed(fields, name) + if Named(last, name) then 1 else 0
  {
    hide Named;
    if fields == [] {
      assert [] + [last] == [last] && [last][1..] == [];
    } else {
      assert (fields + [last])[1..] == fields[1..] + [last];
      CountAppend(fields[1..], last, name);
    }
  }

  lemma NamesDiffer(f: Field)
    ensures !(Named(f, "Content-Length") && Named(f, "Transfer-Encoding"))
    ensures Named(CHUNKED_FIELD, "Transfer-Encoding")
  {
  }

  lemma {:induction false} KeptCounts(fields: seq<Field>, chunked: bool)
    ensures CountNamed(Kept(fields, chunked), "Content-Length") == 0
    ensures CountNamed(Kept(fields, chunked), "Transfer-Encoding")
            == if chunked then 0 else CountNamed(fields, "Transfer-Encoding")
  {
    hide Named;
    if fields != [] {
      NamesDiffer(fields[0]);
      KeptCounts(fields[1..], chunked);
      var more := Kept(fields[1..], chunked);
      assert [] + more == more;
      assert ([fields[0]] + more)[1..] == more;
    }
  }

  /** Of the fields that go out one states the length: Content-Length for a plain body, Transfer-Encoding
      for a chunked one, neither for a status without a body. An application's own Transfer-Encoding goes
      through unless the body is chunked. FramingSeen says which of them a client sees. */
  lemma FramingCounts(r: Response)
    ensures CountNamed(EmittedFields(r), "Content-Length") == if StatusAllowsBody(r.status) && !r.chunked then 1 else 0
    ensures CountNamed(EmittedFields(r), "Transfer-Encoding")
            == if r.chunked then (if StatusAllowsBody(r.status) then 1 else 0)
               else CountNamed(r.fields, "Transfer-Encoding")
  {
    hide Kept, FormatInt, BodyLength, StatusAllowsBody;
    var kept := Kept(r.fields, r.chunked);
    KeptCounts(r.fields, r.chunked);
    NamesDiffer(FramingField(r));
    NamesDiffer(LengthFieldOf(r.body));
    LengthFieldNamed(r.body);
    if StatusAllowsBody(r.status) {
      CountAppend(kept, FramingField(r), "Content-Length");
      CountAppend(kept, FramingField(r), "Transfer-Encoding");
    } else {
      assert kept + [] == kept;
    }
  }

  lemma LengthFieldNamed(body: Body)
    ensures Named(LengthFieldOf(body), "Content-Length")
  {
    hide FormatInt;
  }

  lemma {:induction false} CountMembers(fields: seq<Field>, name: string)
    ensures CountNamed(fields, name) == 0 <==> forall f :: f in fields ==> !Named(f, name)
  {
    hide Named;
    if fields != [] {
      CountMembers(fields[1..], name);
      assert forall f :: f in fields <==> f == fields[0] || f in fields[1..];
    }
  }

  /** No field of the list is seen under the name. */
  predicate Unseen(fields: seq<Field>, name: string) {
    forall f :: f in fields ==> !EqualFold(NameSeen(f), name)
  }

  lemma NamesSeen(fields: seq<Field>, name: string)
    requires forall f :: f in fields ==> RenderField(f).fault.None?
    ensures SeenFields(fields).Some? <==> forall f :: f in fields ==> NameSeen(f) != ""
    ensures SeenFields(fields).Some? ==> (CountNamed(SeenFields(fields).value, name) == 0 <==> Unseen(fields, name))
  {
    hide RenderField, SeenField, NameSeen, EqualFold, CountNamed;
    SeenEach(fields);
    forall f | f in fields
      ensures SeenField(f).Some? <==> NameSeen(f) != ""
      ensures SeenField(f).Some? ==> SeenField(f).value.name == NameSeen(f)
    {
      SeenFieldIff(f);
    }
    if SeenFields(fields).Some? {
      var seen := SeenFields(fields).value;
      CountMembers(seen, name);
      assert forall i :: 0 <= i < |seen| ==>
                 seen[i].name == NameSeen(fields[i]) && seen[i] in seen && fields[i] in fields;
    }
  }

  lemma {:induction false} NoLastCoding(fields: seq<Field>)
    ensures LastCoding(fields) == None <==> forall f :: f in fields ==> !Named(f, "Transfer-Encoding")
  {
    hide Named, Split, Trim;
    if fields != [] {
      var n := |fields| - 1;
      NoLastCoding(fields[..n]);
      assert forall f :: f in fields <==> f == fields[n] || f in fields[..n];
    }
  }

  lemma ChunkedIsOne()
    ensures Split("chunked", ',') == ["chunked"]
  {
    hide IndexOf;
    assert "chunked" == ['c', 'h', 'u', 'n', 'k', 'e', 'd'];
    IndexOfAbsent("chunked", ',');
  }

  lemma ChunkedIsTrimmed()
    ensures Trim("chunked", BLANKS) == "chunked"
  {
    hide Trim;
    assert "chunked"[0] == 'c' && "chunked"[6] == 'd';
    TrimPadding("", "chunked", "", BLANKS);
    assert "" + "chunked" + "" == "chunked";
  }

  lemma ChunkedCoding(fields: seq<Field>)
    ensures LastCoding(fields + [CHUNKED_FIELD]) == Some("chunked")
  {
    hide Split, Trim, EqualFold;
    var all := fields + [CHUNKED_FIELD];
    assert all[|all| - 1] == CHUNKED_FIELD;
    NamesDiffer(CHUNKED_FIELD);
    ChunkedIsOne();
    ChunkedIsTrimmed();
  }

  // ----- the body ------------------------------------------------------------------------------

  function RenderBody(r: Response): Rendering {
    if !StatusAllowsBody(r.status) then Plain("")
    else if r.chunked then RenderChunkedBody(r.body)
    else RenderFixedBody(r.body)
  }

  /** The body a client should see. */
  function BodyOf(r: Response): string {
    if !StatusAllowsBody(r.status) then ""
    else if r.body.Stream? && !r.chunked && 0 <= r.body.length <= |DataOf(r.body)| then DataOf(r.body)[..r.body.length]
    else DataOf(r.body)
  }

  lemma FixedBodyBytes(r: Response)
    requires StatusAllowsBody(r.status) && !r.chunked && Unwritable(r).None? && RenderFixedBody(r.body).fault.None?
    ensures RenderFixedBody(r.body).bytes == BodyOf(r) && |BodyOf(r)| == BodyLength(r.body)
  {
    hide AllData, ReasonOf, StatusAllowsBody;
  }

  lemma DigitsAreTrimmed(n: nat)
    ensures IsTrimmed(FormatDecimal(n), BLANKS)
  {
    var s := FormatDecimal(n);
    assert IsDigit(s[0]) && IsDigit(s[|s| - 1]);
  }

  lemma StatedOnce(kept: seq<Field>, body: Body, n: nat)
    requires CountNamed(kept, "Content-Length") == 0 && BodyLength(body) == n <= MAX_INT64
    ensures LengthFrom(kept + [LengthFieldOf(body)], None) == Known(n)
  {
    hide EqualFold, FormatDecimal, DecimalValue;
    var all := kept + [LengthFieldOf(body)];
    CountMembers(kept, "Content-Length");
    LengthFieldNamed(body);
    DecimalRoundTrip(n);
    assert all[|kept|] == LengthFieldOf(body) && LengthField(all[|kept|]) && all[|kept|] in all;
    assert forall f :: f in all && LengthField(f) ==> f == LengthFieldOf(body);
    ContentLengthIff(all, n);
  }

  /** Whatever else is sent before it, the server's own Content-Length is the only length a client can
      accept. */
  lemma StatedOrRefused(kept: seq<Field>, body: Body, n: nat)
    requires BodyLength(body) == n
    ensures
      var length := LengthFrom(kept + [LengthFieldOf(body)], None);
      length == Known(n) || length.Refused?
  {
    hide EqualFold, FormatDecimal, DecimalValue;
    var all := kept + [LengthFieldOf(body)];
    LengthFieldNamed(body);
    DecimalRoundTrip(n);
    assert all[|kept|] == LengthFieldOf(body) && LengthField(all[|kept|]) && all[|kept|] in all;
    var length := LengthFrom(all, None);
    ContentLengthIff(all, if length.Known? then length.bytes else n);
  }

  lemma ColonRefused(fields: seq<Field>, f: Field)
    requires f in fields && LengthField(f) && ':' in f.value
    ensures LengthFrom(fields, None).Refused?
  {
    hide EqualFold, LengthFrom, DecimalValue;
    var length := LengthFrom(fields, None);
    ContentLengthIff(fields, if length.Known? then length.bytes else 0);
    var i :| 0 <= i < |f.value| && f.value[i] == ':';
    assert !IsDigit(f.value[i]);
  }

  /** These fields leave the end of a plain body to the Content-Length after them, or to the end of the
      stream when nothing follows. */
  predicate CodingHolds(fields: seq<Field>, rest: string) {
    match LastCoding(fields)
    case None => true
    case Some(coding) => !EqualFold(coding, "chunked") && rest == ""
  }

  /** A plain body goes out with the application's own Transfer-Encoding, if it set one, beside the
      Content-Length; a client then follows the former. */
  predicate FramingHolds(r: Response, rest: string) {
    PlainBody(r) ==> CodingHolds(Kept(r.fields, r.chunked), rest)
  }

  lemma CodingBeforeLength(kept: seq<Field>, body: Body)
    ensures LastCoding(kept + [LengthFieldOf(body)]) == LastCoding(kept)
  {
    hide Split, Trim, Named, LengthFieldOf;
    var all := kept + [LengthFieldOf(body)];
    LengthFieldNamed(body);
    NamesDiffer(LengthFieldOf(body));
    assert all[..|all| - 1] == kept;
  }

  lemma FixedBodyReadBack(r: Response, kept: seq<Field>, rest: string)
    requires 0 <= r.status && PlainBody(r) && BodyLength(r.body) == |BodyOf(r)| <= MAX_INT64
    requires CountNamed(kept, "Content-Length") == 0
    ensures TakeResponseBody(r.status, kept + FramingOf(r), BodyOf(r) + rest) == Some(Decoded(BodyOf(r), rest))
            <==> CodingHolds(kept, rest)
  {
    hide LengthFieldOf, LengthFrom, DecodeChunked, BodyOf, EqualFold, LastCoding;
    var s := BodyOf(r) + rest;
    StatedOnce(kept, r.body, BodyLength(r.body));
    CodingBeforeLength(kept, r.body);
    assert s[..|BodyOf(r)|] == BodyOf(r) && s[|BodyOf(r)|..] == rest;
    if DecodeChunked(s).Some? {
      DecodeShrinks(s);
    }
    assert rest == "" ==> s == BodyOf(r);
  }

  lemma ChunkedReadBack(r: Response, kept: seq<Field>, rest: string)
    requires StatusAllowsBody(r.status) && r.chunked && 0 <= r.status && RenderChunkedBody(r.body).fault.None?
    ensures TakeResponseBody(r.status, kept + FramingOf(r), RenderChunkedBody(r.body).bytes + rest)
            == Some(Decoded(DataOf(r.body), rest))
  {
    hide RenderChunkedBody, DecodeChunked, LastCoding;
    ChunkedCoding(kept);
    ChunkedBodyRendering(r.body);
    ChunkedBodyDecodes(r.body, rest);
  }

  lemma BodyReadBack(r: Response, kept: seq<Field>, rest: string)
    requires Unwritable(r).None? && RenderBody(r).fault.None? && BodyLength(r.body) <= MAX_INT64
    requires PlainBody(r) ==> CountNamed(kept, "Content-Length") == 0
    ensures TakeResponseBody(r.status, kept + FramingOf(r), RenderBody(r).bytes + rest)
            == Some(Decoded(BodyOf(r), rest))
            <==> (PlainBody(r) ==> CodingHolds(kept, rest))
  {
    hide RenderChunkedBody, RenderFixedBody, FramingOf, ReasonOf, LastCoding, LengthFrom, DecodeChunked, AllData,
      CountNamed, CodingHolds;
    if StatusAllowsBody(r.status) {
      if r.chunked {
        ChunkedReadBack(r, kept, rest);
      } else {
        FixedBodyBytes(r);
        FixedBodyReadBack(r, kept, rest);
      }
    } else {
      assert "" + rest == rest;
    }
  }

  lemma ColonBodyRefused(r: Response, kept: seq<Field>, f: Field, s: string)
    requires PlainBody(r) && 0 <= r.status && LastCoding(kept).None?
    requires f in kept && LengthField(f) && ':' in f.value
    ensures TakeResponseBody(r.status, kept + FramingOf(r), s) == None
  {
    hide LengthField, LengthFrom, LengthFieldOf, LastCoding;
    CodingBeforeLength(kept, r.body);
    assert f in kept + [LengthFieldOf(r.body)];
    ColonRefused(kept + [LengthFieldOf(r.body)], f);
  }

  // ----- the whole response --------------------------------------------------------------------

  lemma TailRegrouped(r: Response)
    ensures Then(RenderFields(Kept(r.fields, r.chunked)), RenderTail(r))
            == Then(RenderFields(EmittedFields(r)), Then(Plain("\r\n"), RenderBody(r)))
  {
    hide RenderField, Kept, RenderChunkedBody, RenderFixedBody, LengthFieldOf, StatusAllowsBody;
    var kept := Kept(r.fields, r.chunked);
    if StatusAllowsBody(r.status) {
      RenderFieldsAppend(kept, FramingField(r));
      ThenAssociates(RenderFields(kept), RenderField(FramingField(r)), Then(Plain("\r\n"), RenderBody(r)));
    } else {
      assert kept + [] == kept;
      assert "\r\n" + "" == "\r\n";
    }
  }

  /** The head of a response that got past its checks, the empty line included. */
  function HeadText(r: Response): string {
    StatusLineText(r) + "\r\n" + PrintFields(WireAll(EmittedFields(r)))
  }

  function StatusOf(r: Response): nat {
    if r.status < 0 then 0 else r.status
  }

  lemma ResponseBytes(r: Response)
    requires Render(r).fault.None?
    ensures Unwritable(r).None? && RenderFields(EmittedFields(r)).fault.None? && RenderBody(r).fault.None?
    ensures 100 <= r.status <= 999
    ensures Render(r).bytes == HeadText(r) + RenderBody(r).bytes
  {
    hide RenderFields, Kept, RenderTail, RenderBody, EmittedFields, ReasonOf, StatusLineText, StatusLine;
    TailRegrouped(r);
    StatusLineParses(r);
    var fields, body := RenderFields(EmittedFields(r)).bytes, RenderBody(r).bytes;
    FieldsBytes(EmittedFields(r));
    assert fields + ("\r\n" + body) == fields + "\r\n" + body;
    var line, printed := StatusLineText(r) + "\r\n", PrintFields(WireAll(EmittedFields(r)));
    assert line + (printed + body) == line + printed + body;
  }

  lemma {:induction false} FieldsRenderIff(fields: seq<Field>)
    ensures RenderFields(fields).fault.None? <==> forall f :: f in fields ==> RenderField(f).fault.None?
  {
    hide RenderField;
    if fields != [] {
      FieldsRenderIff(fields[1..]);
      assert forall f :: f in fields <==> f == fields[0] || f in fields[1..];
    }
  }

  lemma GraphicText(s: string)
    requires forall c :: c in s ==> c >= ' '
    ensures !ContainsAny(s, "\r\n")
  {
    forall i | 0 <= i < |s| ensures s[i] !in "\r\n" {
      assert s[i] in s;
    }
  }

  lemma GraphicName(s: string)
    requires forall c :: c in s ==> c > ' '
    ensures !ContainsAny(s, " \t\r\n")
  {
    forall i | 0 <= i < |s| ensures s[i] !in " \t\r\n" {
      assert s[i] in s;
    }
  }

  lemma FramingRenders(r: Response)
    requires Unwritable(r).None?
    ensures RenderField(FramingField(r)).fault.None?
  {
    hide ReasonOf, FormatDecimal, ContainsAny;
    if r.chunked {
      GraphicName("Transfer-Encoding");
      GraphicText("chunked");
    } else {
      var digits := FormatDecimal(BodyLength(r.body));
      assert forall c :: c in digits ==> IsDigit(c);
      GraphicName("Content-Length");
      GraphicText(digits);
    }
  }

  lemma RenderedIff(r: Response)
    ensures Render(r).fault.None?
            <==> && Unwritable(r).None? && (forall f :: f in Kept(r.fields, r.chunked) ==> RenderField(f).fault.None?)
                 && (StatusAllowsBody(r.status) && r.body.Stream? ==>
                       if r.chunked then !ReaderFails(r.body) else r.body.length <= |AllData(r.body.results)|)
  {
    hide RenderFields, Kept, RenderTail, RenderField, StatusLine, FramingField, Unwritable, StatusAllowsBody,
      RenderChunkedBody, AllData;
    var kept := Kept(r.fields, r.chunked);
    if Unwritable(r).None? {
      TailRegrouped(r);
      FieldsRenderIff(EmittedFields(r));
      FramingRenders(r);
      ChunkedBodyRendering(r.body);
      assert forall f :: f in EmittedFields(r) <==> f in kept || (StatusAllowsBody(r.status) && f == FramingField(r));
      FixedLength(r);
    }
  }

  lemma FixedLength(r: Response)
    requires Unwritable(r).None?
    ensures !r.chunked && r.body.Stream? ==> 0 <= r.body.length
  {
    hide ReasonOf;
  }

  /** The head can be written: a known version, three status digits, chunks only in HTTP/1.1, a length for
      a reader without them, and a reason of one line. */
  predicate GoodHead(r: Response) {
    && (r.version == "" || r.version == "HTTP/1.1" || r.version == "HTTP/1.0")
    && 100 <= r.status <= 999
    && (r.chunked ==> r.version != "HTTP/1.0")
    && (r.body.Stream? && !r.chunked ==> 0 <= r.body.length)
    && '\r' !in r.reason && '\n' !in r.reason
  }

  predicate GoodOutField(f: Field) {
    && f.name != "" && ' ' !in f.name && '\t' !in f.name && '\r' !in f.name && '\n' !in f.name
    && '\r' !in f.value && '\n' !in f.value
  }

  lemma BreakFree(s: string)
    ensures ContainsAny(s, "\r\n") <==> '\r' in s || '\n' in s
  {
    assert forall c :: c in "\r\n" <==> c == '\r' || c == '\n';
  }

  lemma BlankFree(s: string)
    ensures ContainsAny(s, " \t\r\n") <==> ' ' in s || '\t' in s || '\r' in s || '\n' in s
  {
    assert forall c :: c in " \t\r\n" <==> c == ' ' || c == '\t' || c == '\r' || c == '\n';
  }

  lemma EarlyPhrase(code: int)
    requires code < 401
    ensures StatusText(code) != "" && forall c :: c in StatusText(code) ==> c >= ' '
  {
  }

  lemma MiddlePhrase(code: int)
    requires 401 <= code < 413
    ensures StatusText(code) != "" && forall c :: c in StatusText(code) ==> c >= ' '
  {
  }

  lemma LatePhrase(code: int)
    requires 413 <= code < 500
    ensures StatusText(code) != "" && forall c :: c in StatusText(code) ==> c >= ' '
  {
  }

  lemma ServerPhrase(code: int)
    requires 500 <= code
    ensures StatusText(code) != "" && forall c :: c in StatusText(code) ==> c >= ' '
  {
  }

  lemma PhraseIsOneLine(code: int)
    ensures StatusText(code) != "" && !ContainsAny(StatusText(code), "\r\n")
  {
    hide ContainsAny, StatusText;
    if code < 401 {
      EarlyPhrase(code);
    } else if code < 413 {
      MiddlePhrase(code);
    } else if code < 500 {
      LatePhrase(code);
    } else {
      ServerPhrase(code);
    }
    GraphicText(StatusText(code));
  }

  lemma ReasonBreaks(r: Response)
    ensures ContainsAny(ReasonOf(r), "\r\n") <==> '\r' in r.reason || '\n' in r.reason
  {
    hide ContainsAny, StatusText;
    BreakFree(r.reason);
    PhraseIsOneLine(r.status);
  }

  /** A head that cannot be written is refused with nothing written; the first of the reasons is reported. */
  lemma HeadRefused(r: Response)
    ensures Unwritable(r).None? <==> GoodHead(r)
    ensures Unwritable(r).Some? ==> Render(r) == Rendering("", Unwritable(r))
    ensures
      var version := r.version == "" || r.version == "HTTP/1.1" || r.version == "HTTP/1.0";
      var status := version && 100 <= r.status <= 999;
      var chunks := status && !(r.chunked && r.version == "HTTP/1.0");
      var length := chunks && !(r.body.Stream? && r.body.length < 0 && !r.chunked);
      && (Unwritable(r) == Some(BadVersion) <==> !version)
      && (Unwritable(r) == Some(BadStatus) <==> version && !status)
      && (Unwritable(r) == Some(ChunkedNeeds11) <==> status && !chunks)
      && (Unwritable(r) == Some(NoLength) <==> chunks && !length)
      && (Unwritable(r) == Some(BadReason) <==> length && !GoodHead(r))
  {
    hide ReasonOf, ContainsAny;
    ReasonBreaks(r);
  }

  lemma GoodFieldRenders(f: Field)
    ensures RenderField(f).fault.None? <==> GoodOutField(f)
    ensures RenderField(f).fault.Some? ==> RenderField(f) == Rendering("", Some(BadField))
  {
    hide ContainsAny;
    BlankFree(f.name);
    BreakFree(f.value);
  }

  lemma KeptAre(r: Response)
    ensures forall f :: f in Kept(r.fields, r.chunked) <==> f in r.fields && GoesOut(f, r.chunked)
  {
    hide GoesOut;
    var at := KeptInOrder(r.fields, r.chunked);
    forall f | f in r.fields && GoesOut(f, r.chunked) ensures f in Kept(r.fields, r.chunked) {
      var k :| 0 <= k < |r.fields| && r.fields[k] == f;
      var i :| 0 <= i < |at| && at[i] == k;
      assert Picked(r.fields, at)[i] == f;
    }
  }

  /** A response is written without a fault exactly when its head is good, every field that goes out is, and
      its reader, if its status has a body, delivers what was announced. */
  lemma WrittenIff(r: Response)
    ensures Render(r).fault.None?
            <==> && GoodHead(r)
                 && (forall f :: f in r.fields && GoesOut(f, r.chunked) ==> GoodOutField(f))
                 && (StatusAllowsBody(r.status) && r.body.Stream? ==>
                       if r.chunked then !ReaderFails(r.body) else r.body.length <= |AllData(r.body.results)|)
  {
    hide Render, Unwritable, GoodHead, Kept, RenderField, GoodOutField, GoesOut, StatusAllowsBody, AllData;
    RenderedIff(r);
    HeadRefused(r);
    KeptAre(r);
    forall f ensures RenderField(f).fault.None? <==> GoodOutField(f) {
      GoodFieldRenders(f);
    }
  }

  lemma FramingIsSafe(r: Response)
    requires Unwritable(r).None?
    ensures ClientSafe(FramingField(r))
  {
    hide ReasonOf, FormatDecimal;
    if !r.chunked {
      DigitsAreTrimmed(BodyLength(r.body));
    }
  }

  /** What a client makes of the bytes after the head. */
  function AfterHead(r: Response, s: string): Option<Reply> {
    match SeenFields(EmittedFields(r))
    case None => None
    case Some(seen) =>
      match TakeResponseBody(StatusOf(r), seen, s)
      case None => None
      case Some(d) => Some(Reply(Received(VersionOf(r), StatusOf(r), ReasonOf(r), seen, d.body), d.rest))
  }

  lemma HeadRead(r: Response, s: string)
    requires Unwritable(r).None? && RenderFields(EmittedFields(r)).fault.None?
    ensures TakeResponse(HeadText(r) + s) == AfterHead(r, s)
  {
    hide RenderFields, EmittedFields, StatusLineText, TakeLine, TakeFields, ParseStatusLine, TakeResponseBody,
      PrintFields, StatusLine, SeenFields, ReasonOf;
    StatusLineParses(r);
    var line, fields := StatusLineText(r), PrintFields(WireAll(EmittedFields(r)));
    assert line + "\r\n" + fields + s == line + "\r\n" + (fields + s);
    PrintedLine(line, fields + s, Eof, 0);
    FieldsRead(EmittedFields(r), s, []);
    assert SeenFields(EmittedFields(r)).Some? ==>
        [] + SeenFields(EmittedFields(r)).value == SeenFields(EmittedFields(r)).value;
  }

  /** What a client should make of the response. */
  function ReplyTo(r: Response, rest: string): Option<Reply> {
    Some(Reply(Received(VersionOf(r), StatusOf(r), ReasonOf(r), EmittedFields(r), BodyOf(r)), rest))
  }

  lemma SafelyEmitted(r: Response)
    requires Unwritable(r).None? && RenderFields(EmittedFields(r)).fault.None?
    ensures SeenFields(EmittedFields(r)) == Some(EmittedFields(r))
            <==> forall f :: f in Kept(r.fields, r.chunked) ==> ClientSafe(f)
  {
    hide ClientSafe, Kept, RenderFields, FramingField, Unwritable, SeenFields, StatusAllowsBody;
    var kept := Kept(r.fields, r.chunked);
    SeenAsWritten(EmittedFields(r));
    FramingIsSafe(r);
    assert forall f :: f in EmittedFields(r) <==> f in kept || (StatusAllowsBody(r.status) && f == FramingField(r));
  }

  /** A client reads back the written response, and leaves what follows, exactly when every field that
      goes out survives and no Transfer-Encoding of the application's own goes out with a plain body, or
      one that a client reads to the end of the stream and nothing follows. */
  lemma ResponseRoundTripIff(r: Response, rest: string)
    requires Render(r).fault.None? && BodyLength(r.body) <= MAX_INT64
    ensures TakeResponse(Render(r).bytes + rest) == ReplyTo(r, rest)
            <==> (forall f :: f in Kept(r.fields, r.chunked) ==> ClientSafe(f)) && FramingHolds(r, rest)
  {
    hide Render, Unwritable, RenderFields, RenderBody, HeadText, TakeResponse, TakeResponseBody, BodyOf, ClientSafe,
      CodingHolds, StatusAllowsBody, CountNamed, Kept, SeenFields, FramingOf, ReasonOf;
    ResponseBytes(r);
    Regrouped(HeadText(r), RenderBody(r).bytes, rest);
    HeadRead(r, RenderBody(r).bytes + rest);
    SafelyEmitted(r);
    KeptCounts(r.fields, r.chunked);
    BodyReadBack(r, Kept(r.fields, r.chunked), rest);
  }

  const GZIP_FIELD := Field("Transfer-Encoding", "gzip")

  lemma GzipField()
    ensures RenderField(GZIP_FIELD).fault.None? && ClientSafe(GZIP_FIELD)
    ensures Named(GZIP_FIELD, "Transfer-Encoding") && !Named(GZIP_FIELD, "Content-Length")
  {
    hide ContainsAny, Named, IsTrimmed;
    GraphicName("Transfer-Encoding");
    GraphicText("gzip");
    NamesDiffer(GZIP_FIELD);
    GzipNamed();
    GzipTrimmed();
  }

  lemma GzipNamed()
    ensures Named(GZIP_FIELD, "Transfer-Encoding") && ':' !in "Transfer-Encoding"
  {
  }

  lemma GzipTrimmed()
    ensures IsTrimmed("gzip", BLANKS)
  {
  }

  /** A plain body under an application's own Transfer-Encoding: gzip is written without a fault, with a
      Content-Length, but a client reads on past it into whatever follows. */
  lemma OwnCodingMisleads(data: string, rest: string)
    requires |data| <= MAX_INT64 && rest != ""
    ensures
      var r := Response("", 200, "", [GZIP_FIELD], Bytes(data), false);
      && Render(r).fault.None? && TakeResponse(Render(r).bytes + rest) != ReplyTo(r, rest)
  {
    hide Render, TakeResponse, ReplyTo, RenderField, Named, ClientSafe, LastCoding, EqualFold, ContainsAny;
    var r := Response("", 200, "", [GZIP_FIELD], Bytes(data), false);
    GzipField();
    GraphicText("OK");
    assert r.fields[1..] == [] && Kept(r.fields, false) == [GZIP_FIELD];
    RenderedIff(r);
    NoLastCoding([GZIP_FIELD]);
    assert GZIP_FIELD in [GZIP_FIELD];
    ResponseRoundTripIff(r, rest);
  }

  const COLON_FIELD := Field("Content-Length:5", "x")

  lemma ColonFieldSeen()
    ensures RenderField(COLON_FIELD).fault.None? && !Dropped(COLON_FIELD, false)
    ensures NameSeen(COLON_FIELD) == "Content-Length" && SeenField(COLON_FIELD) == Some(Field("Content-Length", "5: x"))
  {
    hide ContainsAny, IsTrimmed, EqualFold, ParseHeaderField, PrintField;
    GraphicName("Content-Length:5");
    GraphicText("x");
    GraphicName("Content-Length");
    GraphicText("5: x");
    ColonWire();
    PrintedFieldParses(COLON_WIRE);
    SeenFieldIff(COLON_FIELD);
    ColonNotDropped();
  }

  // The same line, as the client reads it.
  const COLON_WIRE := WireField("Content-Length", "", "5: x", "")

  lemma ColonWire()
    ensures PrintField(WireOf(COLON_FIELD)) == PrintField(COLON_WIRE)
    ensures ':' !in "Content-Length" && IsTrimmed("5: x", BLANKS)
  {
    assert "Content-Length:5" == "Content-Length" + ":5";
    assert ":5" + ":" + (" " + "x" + "") == ":" + ("" + "5: x" + "");
    Regrouped("Content-Length", ":5", ":" + (" " + "x" + ""));
    Regrouped("Content-Length", ":", "" + "5: x" + "");
    assert ":5" + (":" + (" " + "x" + "")) == ":" + ("" + "5: x" + "");
  }

  lemma ColonNotDropped()
    ensures !Dropped(COLON_FIELD, false)
  {
  }

  // ----- the response as a client sees it ------------------------------------------------------

  /** The framing a client goes by is the server's own. */
  predicate Framed(r: Response) {
    && BodyLength(r.body) <= MAX_INT64
    && (PlainBody(r) ==> Unseen(Kept(r.fields, r.chunked), "Transfer-Encoding"))
  }

  /** No field that goes out stops a client from reading the response. */
  predicate Legible(r: Response) {
    && (forall f :: f in Kept(r.fields, r.chunked) ==> NameSeen(f) != "")
    && (PlainBody(r) ==> Unseen(Kept(r.fields, r.chunked), "Content-Length"))
  }

  function FieldsSeen(r: Response): seq<Field> {
    match SeenFields(EmittedFields(r))
    case None => []
    case Some(seen) => seen
  }

  /** What a client makes of the response, its fields as it sees them. */
  function SeenReply(r: Response, rest: string): Reply {
    Reply(Received(VersionOf(r), StatusOf(r), ReasonOf(r), FieldsSeen(r), BodyOf(r)), rest)
  }

  lemma EmittedSeen(r: Response)
    requires Unwritable(r).None? && RenderFields(EmittedFields(r)).fault.None?
    ensures
      var kept := SeenFields(Kept(r.fields, r.chunked));
      SeenFields(EmittedFields(r)) == if kept.Some? then Some(kept.value + FramingOf(r)) else None
    ensures forall f :: f in Kept(r.fields, r.chunked) ==> RenderField(f).fault.None?
  {
    hide SeenFields, Kept, RenderField, Unwritable, FramingField, ClientSafe, SeenField;
    var kept := Kept(r.fields, r.chunked);
    FieldsRenderIff(EmittedFields(r));
    assert forall f :: f in kept ==> f in EmittedFields(r);
    if StatusAllowsBody(r.status) {
      FramingRenders(r);
      FramingIsSafe(r);
      SurvivesSeen(FramingField(r));
      SeenAppend(kept, FramingField(r));
    } else {
      assert kept + [] == kept;
      assert SeenFields(kept).Some? ==> SeenFields(kept).value + [] == SeenFields(kept).value;
    }
  }

  /** A client sees the length the server states and no other, unless an application's own field name has
      a framing name before a colon. */
  lemma FramingSeen(r: Response)
    requires Unwritable(r).None? && RenderFields(EmittedFields(r)).fault.None?
    requires SeenFields(EmittedFields(r)).Some?
    ensures CountNamed(FieldsSeen(r), "Content-Length") == (if PlainBody(r) then 1 else 0)
            <==> Unseen(Kept(r.fields, r.chunked), "Content-Length")
    ensures CountNamed(FieldsSeen(r), "Transfer-Encoding") == (if StatusAllowsBody(r.status) && r.chunked then 1 else 0)
            <==> Unseen(Kept(r.fields, r.chunked), "Transfer-Encoding")
  {
    hide Kept, SeenFields, RenderFields, RenderField, Unwritable, Unseen, CountNamed, LengthFieldOf;
    var kept := Kept(r.fields, r.chunked);
    EmittedSeen(r);
    var seen := SeenFields(kept).value;
    NamesSeen(kept, "Content-Length");
    NamesSeen(kept, "Transfer-Encoding");
    NamesDiffer(FramingField(r));
    NamesDiffer(LengthFieldOf(r.body));
    LengthFieldNamed(r.body);
    if StatusAllowsBody(r.status) {
      CountAppend(seen, FramingField(r), "Content-Length");
      CountAppend(seen, FramingField(r), "Transfer-Encoding");
    } else {
      assert seen + [] == seen;
    }
  }

  lemma SeenLengthHasColon(r: Response, g: Field)
    requires forall f :: f in Kept(r.fields, r.chunked) ==> RenderField(f).fault.None?
    requires SeenFields(Kept(r.fields, r.chunked)).Some?
    requires g in SeenFields(Kept(r.fields, r.chunked)).value && Named(g, "Content-Length")
    ensures ':' in g.value
  {
    hide SeenFields, SeenField, RenderField, Kept, EqualFold;
    var kept := Kept(r.fields, r.chunked);
    var seen := SeenFields(kept).value;
    SeenEach(kept);
    var i :| 0 <= i < |seen| && seen[i] == g;
    KeptCounts(r.fields, r.chunked);
    CountMembers(kept, "Content-Length");
    assert kept[i] in kept;
    SeenFieldIff(kept[i]);
    if ':' !in kept[i].name {
      assert NameSeen(kept[i]) == kept[i].name;
    }
  }

  lemma BodySeen(r: Response, rest: string)
    requires Unwritable(r).None? && RenderFields(EmittedFields(r)).fault.None? && RenderBody(r).fault.None?
    requires Framed(r)
    ensures Legible(r) ==> SeenFields(EmittedFields(r)).Some?
    ensures SeenFields(EmittedFields(r)).Some? ==>
              TakeResponseBody(r.status, FieldsSeen(r), RenderBody(r).bytes + rest)
              == if Legible(r) then Some(Decoded(BodyOf(r), rest)) else None
  {
    hide Unwritable, RenderFields, RenderField, RenderBody, TakeResponseBody, BodyOf, StatusAllowsBody, CountNamed,
      Kept, SeenFields, FramingOf, EmittedFields, Unseen, LastCoding, NameSeen, EqualFold;
    var kept := Kept(r.fields, r.chunked);
    EmittedSeen(r);
    NamesSeen(kept, "Content-Length");
    NamesSeen(kept, "Transfer-Encoding");
    StatusInRange(r);
    if SeenFields(kept).Some? {
      var seen := SeenFields(kept).value;
      CountMembers(seen, "Transfer-Encoding");
      NoLastCoding(seen);
      CountMembers(seen, "Content-Length");
      if Legible(r) {
        BodyReadBack(r, seen, rest);
      } else {
        var g :| g in seen && Named(g, "Content-Length");
        SeenLengthHasColon(r, g);
        ColonBodyRefused(r, seen, g, RenderBody(r).bytes + rest);
      }
    }
  }

  lemma StatusInRange(r: Response)
    requires Unwritable(r).None?
    ensures 100 <= r.status <= 999
  {
    hide ReasonOf;
  }

  /** A response whose framing is the server's own is read as a client sees it, and what follows is left
      alone, or it is not read at all. */
  lemma ResponseSeen(r: Response, rest: string)
    requires Render(r).fault.None? && Framed(r)
    ensures TakeResponse(Render(r).bytes + rest) == if Legible(r) then Some(SeenReply(r, rest)) else None
  {
    hide Render, Unwritable, RenderFields, RenderBody, HeadText, TakeResponse, BodyOf, StatusAllowsBody, CountNamed,
      Kept, SeenFields, FramingOf, ReasonOf;
    ResponseBytes(r);
    Regrouped(HeadText(r), RenderBody(r).bytes, rest);
    HeadRead(r, RenderBody(r).bytes + rest);
    BodySeen(r, rest);
  }
  /** What a client needs in order to read the response back as it was meant, whatever follows it. */
  predicate ClientReadable(r: Response) {
    Framed(r) && forall f :: f in Kept(r.fields, r.chunked) ==> ClientSafe(f)
  }

  lemma SafeNameSeen(f: Field)
    requires ClientSafe(f)
    ensures NameSeen(f) == f.name
  {
  }

  lemma ReadableIsSeen(r: Response)
    requires ClientReadable(r) && Unwritable(r).None? && RenderFields(EmittedFields(r)).fault.None?
    ensures Legible(r) && FieldsSeen(r) == EmittedFields(r)
  {
    hide Kept, SeenFields, EmittedFields, Unwritable, RenderFields, ClientSafe, CountNamed, EqualFold, NameSeen,
      ContainsAny;
    var kept := Kept(r.fields, r.chunked);
    SafelyEmitted(r);
    EmittedSeen(r);
    KeptCounts(r.fields, r.chunked);
    CountMembers(kept, "Content-Length");
    forall f | f in kept ensures NameSeen(f) == f.name != "" && !EqualFold(NameSeen(f), "Content-Length") {
      SafeNameSeen(f);
      assert !Named(f, "Content-Length");
    }
  }

  /** A written response is read back whole by a client, and what follows it is left alone. */
  lemma ResponseRoundTrip(r: Response, rest: string)
    requires Render(r).fault.None? && ClientReadable(r)
    ensures TakeResponse(Render(r).bytes + rest) == ReplyTo(r, rest)
  {
    hide Render, Framed, Legible, TakeResponse, EmittedFields, FieldsSeen, BodyOf;
    ResponseBytes(r);
    ReadableIsSeen(r);
    ResponseSeen(r, rest);
  }

  /** A field named Content-Length:5 is written without a fault, beside the server's own length, and no
      client can read the response. */
  lemma ColonNameMisleads(data: string, rest: string)
    requires |data| <= MAX_INT64
    ensures SeenField(COLON_FIELD) == Some(Field("Content-Length", "5: x"))
    ensures
      var r := Response("", 200, "", [COLON_FIELD], Bytes(data), false);
      && Render(r).fault.None? && TakeResponse(Render(r).bytes + rest) == None
  {
    hide Render, TakeResponse, RenderField, Dropped, NameSeen, EqualFold, ContainsAny, SeenField;
    var r := Response("", 200, "", [COLON_FIELD], Bytes(data), false);
    ColonFieldSeen();
    GraphicText("OK");
    assert r.fields[1..] == [] && Kept(r.fields, false) == [COLON_FIELD];
    RenderedIff(r);
    LengthIsNoCoding();
    assert COLON_FIELD in [COLON_FIELD];
    ResponseSeen(r, rest);
  }

  lemma LengthIsNoCoding()
    ensures EqualFold("Content-Length", "Content-Length") && !EqualFold("Content-Length", "Transfer-Encoding")
  {
  }

  /** The field that states the body's length: none without a body. */
  function LengthStating(r: Response): seq<Field> {
    if 100 <= r.status < 200 || r.status == 204 || r.status == 304 then []
    else if r.chunked then [Field("Transfer-Encoding", "chunked")]
    else if r.body.Stream? && r.body.length < 0 then []
    else [Field("Content-Length", FormatDecimal(if r.body.Stream? then r.body.length else |r.body.data|))]
  }

  function BytesFor(r: Response): string {
    if 100 <= r.status < 200 || r.status == 204 || r.status == 304 then ""
    else
      match r.body
      case Bytes(data) => data
      case Stream(results, length) =>
        if r.chunked || length < 0 || length > |AllData(results)| then AllData(results) else AllData(results)[..length]
  }

  lemma FramingIs(r: Response)
    requires Unwritable(r).None?
    ensures FramingOf(r) == LengthStating(r) && BodyOf(r) == BytesFor(r)
  {
    hide FormatDecimal, AllData, ReasonOf;
  }

  lemma LineIs(r: Response)
    ensures VersionOf(r) == if r.version == "" then "HTTP/1.1" else r.version
    ensures ReasonOf(r)
            == if r.reason != "" then r.reason else if r.status in PHRASES then PHRASES[r.status] else "Status"
  {
    hide StatusText;
    StatusTextIs(r.status);
  }

  /** What a client gets from a written response whose fields survive: the version and reason the
      application set or their defaults, the status, the application's fields at their places in its own
      order, then the one that states the length, and the application's bytes. */
  lemma ClientReadsAll(r: Response, rest: string) returns (at: seq<nat>)
    requires Render(r).fault.None? && ClientReadable(r)
    ensures PlacesOf(at, r.fields, r.chunked) && TakeResponse(Render(r).bytes + rest).Some?
    ensures
      var got := TakeResponse(Render(r).bytes + rest).value;
      && got.rest == rest
      && got.response.version == (if r.version == "" then "HTTP/1.1" else r.version)
      && got.response.status == r.status
      && got.response.reason
         == (if r.reason != "" then r.reason else if r.status in PHRASES then PHRASES[r.status] else "Status")
      && got.response.fields == Picked(r.fields, at) + LengthStating(r)
      && got.response.body == BytesFor(r)
  {
    hide Render, ClientReadable, TakeResponse, VersionOf, ReasonOf, Kept, FramingOf, LengthStating, BodyOf, BytesFor,
      PlacesOf, Unwritable;
    at := KeptInOrder(r.fields, r.chunked);
    ResponseBytes(r);
    ResponseRoundTrip(r, rest);
    FramingIs(r);
    LineIs(r);
  }

  // ----- a response cut short ------------------------------------------------------------------

  /** The body's end does not depend on the connection closing. */
  predicate SelfDelimiting(status: nat, fields: seq<Field>) {
    || 100 <= status < 200 || status == 204 || status == 304
    || (match LastCoding(fields)
        case Some(coding) => EqualFold(coding, "chunked")
        case None => !LengthFrom(fields, None).Absent?)
  }

  lemma BodyExtends(status: nat, fields: seq<Field>, s: string, more: string)
    requires SelfDelimiting(status, fields) && TakeResponseBody(status, fields, s).Some?
    ensures
      var d := TakeResponseBody(status, fields, s).value;
      TakeResponseBody(status, fields, s + more) == Some(Decoded(d.body, d.rest + more))
  {
    hide EqualFold, DecodeChunked, LengthFrom, LastCoding;
    if DecodeChunked(s).Some? {
      DecodeExtends(s, more);
    }
    if LengthFrom(fields, None).Known? && LengthFrom(fields, None).bytes <= |s| {
      var n := LengthFrom(fields, None).bytes;
      assert (s + more)[..n] == s[..n] && (s + more)[n..] == s[n..] + more;
    }
  }

  lemma ResponseExtends(s: string, more: string)
    requires TakeResponse(s).Some?
    requires var p := TakeResponse(s).value.response; SelfDelimiting(p.status, p.fields)
    ensures TakeResponse(s + more) == Some(Reply(TakeResponse(s).value.response, TakeResponse(s).value.rest + more))
  {
    hide TakeLine, TakeFields, TakeResponseBody, SelfDelimiting, ParseStatusLine;
    LineExtends(s, more);
    var line := TakeLine(s, Eof, 0);
    FieldsExtend(line.rest, more, []);
    var fields := TakeFields(line.rest, Eof, 0, 0, []);
    var parts := ParseStatusLine(line.value).value;
    BodyExtends(parts.status, fields.value, fields.rest, more);
  }

  lemma ServerSelfDelimits(r: Response)
    requires Framed(r) && Unwritable(r).None? && RenderFields(EmittedFields(r)).fault.None?
    requires SeenFields(EmittedFields(r)).Some?
    ensures SelfDelimiting(r.status, FieldsSeen(r))
  {
    hide Kept, LengthFieldOf, Unwritable, RenderFields, RenderField, EmittedFields, SeenFields, LastCoding, LengthFrom,
      CountNamed, Unseen;
    var kept := Kept(r.fields, r.chunked);
    EmittedSeen(r);
    var seen := SeenFields(kept).value;
    if StatusAllowsBody(r.status) {
      if r.chunked {
        ChunkedCoding(seen);
      } else {
        NamesSeen(kept, "Transfer-Encoding");
        CountMembers(seen, "Transfer-Encoding");
        NoLastCoding(seen);
        FixedLength(r);
        StatedOrRefused(seen, r.body, BodyLength(r.body));
        CodingBeforeLength(seen, r.body);
      }
    }
  }

  /** A head that is printed in full is what the client reads, however little of the body arrived. */
  lemma HeadReadBack(r: Response, s: string, more: string, tail: string)
    requires Unwritable(r).None? && RenderFields(EmittedFields(r)).fault.None?
    requires s + more == HeadText(r) + tail
    requires TakeResponse(s).Some?
    ensures SeenFields(EmittedFields(r)).Some?
    ensures TakeResponse(s).value.response.status == r.status
    ensures TakeResponse(s).value.response.fields == FieldsSeen(r)
  {
    hide Unwritable, RenderFields, EmittedFields, StatusLineText, TakeLine, TakeFields, ParseStatusLine,
      TakeResponseBody, PrintFields, StatusLine, SeenFields;
    StatusLineParses(r);
    var line, fields := StatusLineText(r), PrintFields(WireAll(EmittedFields(r)));
    assert line + "\r\n" + fields + tail == line + "\r\n" + (fields + tail);
    PrintedLine(line, fields + tail, Eof, 0);
    FieldsRead(EmittedFields(r), tail, []);
    LineExtends(s, more);
    FieldsExtend(TakeLine(s, Eof, 0).rest, more, []);
    assert SeenFields(EmittedFields(r)).Some? ==>
        [] + SeenFields(EmittedFields(r)).value == SeenFields(EmittedFields(r)).value;
  }

  /** A response of which only a part arrived is never taken for a whole one. */
  lemma CutResponseFails(r: Response, cut: nat)
    requires Render(r).fault.None? && Framed(r) && cut < |Render(r).bytes|
    ensures TakeResponse(Render(r).bytes[..cut]) == None
  {
    hide Render, Framed, Legible, TakeResponse, Unwritable, EmittedFields, SelfDelimiting, BodyOf, RenderFields,
      FieldsSeen, HeadText;
    var whole := Render(r).bytes;
    ResponseBytes(r);
    ResponseSeen(r, "");
    assert whole + "" == whole && whole[..cut] + whole[cut..] == whole;
    if TakeResponse(whole[..cut]).Some? {
      HeadReadBack(r, whole[..cut], whole[cut..], RenderBody(r).bytes);
      ServerSelfDelimits(r);
      ResponseExtends(whole[..cut], whole[cut..]);
    }
  }

  /** Under a coding of the application's own the body ends with the stream: wherever it is cut, what
      arrived is taken for a whole response. */
  lemma OwnCodingCutShort(r: Response, cut: nat)
    requires Render(r).fault.None? && PlainBody(r) && |HeadText(r)| <= cut <= |Render(r).bytes|
    requires forall f :: f in Kept(r.fields, r.chunked) ==> ClientSafe(f)
    requires LastCoding(Kept(r.fields, r.chunked)).Some?
    requires !EqualFold(LastCoding(Kept(r.fields, r.chunked)).value, "chunked")
    ensures TakeResponse(Render(r).bytes[..cut]).Some?
  {
    hide Render, RenderFields, RenderBody, HeadText, TakeResponse, ClientSafe, Kept, SeenFields, ReasonOf, LastCoding,
      EqualFold, Unwritable, LengthFieldOf, LengthFrom;
    ResponseBytes(r);
    SafelyEmitted(r);
    CodingBeforeLength(Kept(r.fields, r.chunked), r.body);
    var head, body := HeadText(r), RenderBody(r).bytes;
    assert (head + body)[..cut] == head + body[..cut - |head|];
    HeadRead(r, body[..cut - |head|]);
  }

  // ----- a response that could not be finished -------------------------------------------------

  lemma FieldLineUnread(f: Field, tail: string, sofar: seq<Field>)
    requires RenderField(f).fault.None?
    ensures
      var p := TakeFields(RenderField(f).bytes + tail, Eof, 0, 0, sofar);
      p.Fail? || exists g :: p == TakeFields(tail, Eof, 0, 0, sofar + [g])
  {
    hide TakeLine, ParseHeaderField;
    var line := f.name + ": " + f.value;
    NoBreak(f.name, " \t\r\n");
    NoBreak(f.value, "\r\n");
    assert RenderField(f).bytes + tail == line + "\r\n" + tail;
    PrintedLine(line, tail, Eof, 0);
    var g := ParseHeaderField(line);
    if g.Some? {
      assert TakeFields(RenderField(f).bytes + tail, Eof, 0, 0, sofar)
             == TakeFields(tail, Eof, 0, 0, sofar + [g.value]);
    }
  }

  /** Field lines without the empty line after them are no header section. */
  lemma {:induction false} UnfinishedFieldsFail(fields: seq<Field>, sofar: seq<Field>)
    ensures TakeFields(RenderFields(fields).bytes, Eof, 0, 0, sofar).Fail?
    decreases |fields|
  {
    hide RenderField, TakeLine;
    if fields == [] || RenderField(fields[0]).fault.Some? {
      EmptyHasNoFields(sofar);
      if fields != [] {
        RefusedFieldIsEmpty(fields[0]);
      }
    } else {
      var tail := RenderFields(fields[1..]).bytes;
      FieldLineUnread(fields[0], tail, sofar);
      forall g ensures TakeFields(tail, Eof, 0, 0, sofar + [g]).Fail? {
        UnfinishedFieldsFail(fields[1..], sofar + [g]);
      }
    }
  }

  lemma RefusedFieldIsEmpty(f: Field)
    requires RenderField(f).fault.Some?
    ensures RenderField(f).bytes == ""
  {
  }

  lemma EmptyHasNoFields(sofar: seq<Field>)
    ensures TakeFields("", Eof, 0, 0, sofar).Fail?
  {
  }

  lemma UnfinishedHeadFails(r: Response, s: string, more: string)
    requires Unwritable(r).None? && RenderFields(EmittedFields(r)).fault.Some?
    requires s + more == StatusLine(r) + RenderFields(EmittedFields(r)).bytes
    ensures TakeResponse(s) == None
  {
    hide RenderFields, EmittedFields, StatusLineText, StatusLine, TakeLine, TakeFields, ParseStatusLine,
      TakeResponseBody, Unwritable;
    StatusLineParses(r);
    var fields := RenderFields(EmittedFields(r)).bytes;
    PrintedLine(StatusLineText(r), fields, Eof, 0);
    UnfinishedFieldsFail(EmittedFields(r), []);
    if TakeResponse(s).Some? {
      LineExtends(s, more);
      FieldsExtend(TakeLine(s, Eof, 0).rest, more, []);
    }
  }

  lemma UnfinishedBodyFails(r: Response)
    requires Framed(r) && Unwritable(r).None? && RenderFields(EmittedFields(r)).fault.None?
    requires RenderBody(r).fault.Some? && SeenFields(EmittedFields(r)).Some? && 0 <= r.status
    ensures TakeResponseBody(r.status, FieldsSeen(r), RenderBody(r).bytes) == None
  {
    hide RenderChunkedBody, Kept, LengthFieldOf, LengthFrom, DecodeChunked, ReasonOf, LastCoding, AllData, CountNamed,
      EmittedFields, SeenFields, Unwritable, RenderFields, RenderField, Unseen;
    var kept := Kept(r.fields, r.chunked);
    EmittedSeen(r);
    var seen := SeenFields(kept).value;
    if r.chunked {
      ChunkedCoding(seen);
      ChunkedBodyRendering(r.body);
      FailedReaderNeverEnds(r.body);
    } else {
      NamesSeen(kept, "Transfer-Encoding");
      CountMembers(seen, "Transfer-Encoding");
      NoLastCoding(seen);
      FixedLength(r);
      StatedOrRefused(seen, r.body, BodyLength(r.body));
      CodingBeforeLength(seen, r.body);
    }
  }

  /** When writing stopped at a fault of the response itself, no part of what was written is taken for a
      response. */
  lemma FaultyResponseFails(r: Response, cut: nat)
    requires Render(r).fault.Some? && Framed(r) && cut <= |Render(r).bytes|
    ensures TakeResponse(Render(r).bytes[..cut]) == None
  {
    hide RenderFields, Kept, RenderTail, RenderBody, EmittedFields, Unwritable, StatusLineText, StatusLine,
      Framed, TakeResponse, TakeResponseBody, SelfDelimiting, PrintFields;
    var whole := Render(r).bytes;
    var s, more := whole[..cut], whole[cut..];
    assert s + more == whole;
    if Unwritable(r).Some? {
      EmptyHasNoResponse();
    } else {
      TailRegrouped(r);
      StatusLineParses(r);
      var fields := RenderFields(EmittedFields(r));
      if fields.fault.Some? {
        UnfinishedHeadFails(r, s, more);
      } else {
        FieldsBytes(EmittedFields(r));
        var body := RenderBody(r).bytes;
        assert StatusLineText(r) + "\r\n" + (fields.bytes + ("\r\n" + body))
               == StatusLineText(r) + "\r\n" + (fields.bytes + "\r\n") + body;
        UnfinishedResponseFails(r, s, more, body);
      }
    }
  }

  lemma EmptyHasNoResponse()
    ensures TakeResponse("") == None
  {
  }

  lemma UnfinishedResponseFails(r: Response, s: string, more: string, body: string)
    requires Framed(r) && Unwritable(r).None? && RenderFields(EmittedFields(r)).fault.None?
    requires RenderBody(r).fault.Some? && body == RenderBody(r).bytes
    requires s + more == HeadText(r) + body
    ensures TakeResponse(s) == None
  {
    hide Framed, Unwritable, RenderFields, EmittedFields, HeadText, TakeResponse, TakeResponseBody, SeenFields,
      SelfDelimiting, RenderBody;
    if TakeResponse(s).Some? {
      StatusInRange(r);
      HeadRead(r, body);
      HeadReadBack(r, s, more, body);
      ServerSelfDelimits(r);
      UnfinishedBodyFails(r);
      ResponseExtends(s, more);
    }
  }
}
