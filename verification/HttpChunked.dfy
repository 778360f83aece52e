/** The chunked transfer coding of RFC 9112, section 7.1: how the server prints chunks, a decoder that
    follows the standard, and why the coding marks its own end. */
module HttpChunked {
  import opened Text
  import opened HttpStream
  import opened HttpHeader

  // ----- hexadecimal sizes ---------------------------------------------------------------------

  predicate IsHex(c: char) {
    IsDigit(c) || 'a' <= c <= 'f' || 'A' <= c <= 'F'
  }

  predicate AllHex(s: string) {
    forall i :: 0 <= i < |s| ==> IsHex(s[i])
  }

  function HexDigitValue(c: char): nat
    requires IsHex(c)
  {
    if IsDigit(c) then c as int - '0' as int
    else if 'a' <= c then c as int - 'a' as int + 10
    else c as int - 'A' as int + 10
  }

  function HexValue(s: string): nat
    requires AllHex(s)
  {
    if s == "" then 0 else 16 * HexValue(s[..|s| - 1]) + HexDigitValue(s[|s| - 1])
  }

  function HexDigit(n: nat): (c: char)
    requires n < 16
    ensures IsHex(c) && HexDigitValue(c) == n && c != '\n' && c != ';' && c !in BLANKS
  {
    if n < 10 then ('0' as int + n) as char else ('a' as int + n - 10) as char
  }

  function FormatHex(n: nat): (s: string)
    ensures s != "" && AllHex(s)
  {
    if n < 16 then [HexDigit(n)] else FormatHex(n / 16) + [HexDigit(n % 16)]
  }

  lemma {:induction false} HexRoundTrip(n: nat)
    ensures HexValue(FormatHex(n)) == n
  {
    var s := FormatHex(n);
    if n < 16 {
      assert s[..0] == "";
    } else {
      HexRoundTrip(n / 16);
      assert s[..|s| - 1] == FormatHex(n / 16);
    }
  }

  /** Sizes are written in lower case and without leading zeros. */
  lemma {:induction false} HexIsCanonical(n: nat)
    ensures forall i :: 0 <= i < |FormatHex(n)| ==> !('A' <= FormatHex(n)[i] <= 'F')
    ensures FormatHex(n)[0] == '0' ==> n == 0 && FormatHex(n) == "0"
  {
    if n >= 16 {
      HexIsCanonical(n / 16);
      assert FormatHex(n)[0] == FormatHex(n / 16)[0];
    }
  }

  lemma HexIsPlain(s: string)
    requires AllHex(s)
    ensures '\n' !in s && ';' !in s
    ensures s != "" ==> s[|s| - 1] !in BLANKS
  {
  }

  // ----- the decoder ---------------------------------------------------------------------------

  datatype Decoded = Decoded(body: string, rest: string)

  /** The size at the front of a chunk line, before any chunk extension. */
  function SizeToken(line: string): string {
    TrimRight(line[..IndexOf(line, ';')], BLANKS)
  }

  function ChunkSize(line: string): Option<nat> {
    var token := SizeToken(line);
    if token != "" && AllHex(token) then Some(HexValue(token)) else None
  }

  /** The trailer section of the last chunk is read and dropped. */
  function DropTrailers(s: string): (d: Option<Decoded>)
    ensures d.Some? ==> |d.value.rest| <= |s|
  {
    match TakeFields(s, Eof, 0, 0, [])
    case Ok(_, rest) => Some(Decoded("", rest))
    case Fail(_, _) => None
  }

  predicate HasData(s: string, n: nat) {
    n + 2 <= |s| && s[n..n + 2] == "\r\n"
  }

  function DecodeChunked(s: string): (d: Option<Decoded>)
    ensures d.Some? ==> |d.value.rest| <= |s|
    decreases |s|
  {
    match TakeLine(s, Eof, 0)
    case Fail(_, _) => None
    case Ok(line, rest) =>
      match ChunkSize(line)
      case None => None
      case Some(n) =>
        if n == 0 then DropTrailers(rest)
        else if !HasData(rest, n) then None
        else
          match DecodeChunked(rest[n + 2..])
          case None => None
          case Some(d) => Some(Decoded(rest[..n] + d.body, d.rest))
  }

  // ----- what the server prints ----------------------------------------------------------------

  const LAST_CHUNK := "0\r\n\r\n"

  function Chunk(body: string): string {
    FormatHex(|body|) + "\r\n" + (body + "\r\n")
  }

  function PrintChunks(pieces: seq<string>): string {
    if pieces == [] then "" else Chunk(pieces[0]) + PrintChunks(pieces[1..])
  }

  predicate AllNonempty(pieces: seq<string>) {
    forall i :: 0 <= i < |pieces| ==> pieces[i] != ""
  }

  lemma SizeLineParses(n: nat)
    ensures ChunkSize(FormatHex(n)) == Some(n) && '\n' !in FormatHex(n)
  {
    var s := FormatHex(n);
    HexIsPlain(s);
    IndexOfAbsent(s, ';');
    assert s[..|s|] == s;
    HexRoundTrip(n);
  }

  lemma ChunkDecodes(body: string, tail: string)
    requires body != ""
    ensures DecodeChunked(Chunk(body) + tail)
            == match DecodeChunked(tail)
               case None => None
               case Some(d) => Some(Decoded(body + d.body, d.rest))
  {
    hide TakeLine, ChunkSize, FormatHex;
    SizeLineParses(|body|);
    var rest := body + "\r\n" + tail;
    Glued(body, "\r\n", tail);
    assert Chunk(body) + tail == FormatHex(|body|) + "\r\n" + rest;
    PrintedLine(FormatHex(|body|), rest, Eof, 0);
    assert rest[|body|..|body| + 2] == "\r\n" && rest[|body| + 2..] == tail && rest[..|body|] == body;
  }

  lemma LastChunkDecodes(rest: string)
    ensures DecodeChunked(LAST_CHUNK + rest) == Some(Decoded("", rest))
  {
    hide TakeLine, ChunkSize;
    SizeLineParses(0);
    assert FormatHex(0) == "0";
    assert LAST_CHUNK + rest == "0" + "\r\n" + ("" + "\r\n" + rest);
    PrintedLine("0", "" + "\r\n" + rest, Eof, 0);
    PrintedLine("", rest, Eof, 0);
  }

  /** Decoding the chunks of any pieces gives their concatenation and leaves what follows. */
  lemma {:induction false} ChunksDecode(pieces: seq<string>, rest: string)
    requires AllNonempty(pieces)
    ensures DecodeChunked(PrintChunks(pieces) + (LAST_CHUNK + rest)) == Some(Decoded(Concat(pieces), rest))
  {
    hide DecodeChunked, Chunk;
    if pieces == [] {
      LastChunkDecodes(rest);
      assert "" + (LAST_CHUNK + rest) == LAST_CHUNK + rest;
    } else {
      var tail := PrintChunks(pieces[1..]) + (LAST_CHUNK + rest);
      assert PrintChunks(pieces) + (LAST_CHUNK + rest) == Chunk(pieces[0]) + tail;
      ChunksDecode(pieces[1..], rest);
      ChunkDecodes(pieces[0], tail);
    }
  }

  /** Without the last chunk nothing decodes: a body that broke off is not mistaken for a whole one. */
  lemma {:induction false} UnfinishedChunksFail(pieces: seq<string>)
    requires AllNonempty(pieces)
    ensures DecodeChunked(PrintChunks(pieces)) == None
  {
    if pieces != [] {
      UnfinishedChunksFail(pieces[1..]);
      ChunkDecodes(pieces[0], PrintChunks(pieces[1..]));
    }
  }

  // ----- the coding marks its own end ----------------------------------------------------------

  lemma LineExtends(s: string, more: string)
    requires TakeLine(s, Eof, 0).Ok?
    ensures TakeLine(s + more, Eof, 0) == Ok(TakeLine(s, Eof, 0).value, TakeLine(s, Eof, 0).rest + more)
  {
    hide TakeLine;
    AcceptedLine(s, Eof, 0);
    var p := TakeLine(s, Eof, 0);
    assert p.value + "\r\n" + p.rest + more == p.value + "\r\n" + (p.rest + more);
    PrintedLine(p.value, p.rest + more, Eof, 0);
  }

  lemma {:induction false} FieldsExtend(s: string, more: string, sofar: seq<Field>)
    requires TakeFields(s, Eof, 0, 0, sofar).Ok?
    ensures
      var p := TakeFields(s, Eof, 0, 0, sofar);
      TakeFields(s + more, Eof, 0, 0, sofar) == Ok(p.value, p.rest + more)
    decreases |s|
  {
    hide TakeLine, ParseHeaderField;
    LineExtends(s, more);
    var line := TakeLine(s, Eof, 0);
    if line.value != "" {
      FieldsExtend(line.rest, more, sofar + [ParseHeaderField(line.value).value]);
    }
  }

  lemma DataExtends(s: string, more: string, n: nat)
    requires HasData(s, n)
    ensures HasData(s + more, n) && (s + more)[..n] == s[..n] && (s + more)[n + 2..] == s[n + 2..] + more
  {
    assert (s + more)[n..n + 2] == s[n..n + 2];
  }

  /** Once a body is complete, more bytes change nothing but what is left over. */
  lemma {:induction false} DecodeExtends(s: string, more: string)
    requires DecodeChunked(s).Some?
    ensures DecodeChunked(s + more) == Some(Decoded(DecodeChunked(s).value.body, DecodeChunked(s).value.rest + more))
    decreases |s|
  {
    hide TakeLine, ChunkSize, HasData, TakeFields;
    LineExtends(s, more);
    var line := TakeLine(s, Eof, 0);
    var n := ChunkSize(line.value).value;
    if n == 0 {
      FieldsExtend(line.rest, more, []);
    } else {
      DataExtends(line.rest, more, n);
      DecodeExtends(line.rest[n + 2..], more);
    }
  }

  /** The coding always costs something. */
  lemma {:induction false} DecodeShrinks(s: string)
    requires DecodeChunked(s).Some?
    ensures |DecodeChunked(s).value.body| + |DecodeChunked(s).value.rest| < |s|
    decreases |s|
  {
    hide ChunkSize, TakeLine, TakeFields;
    var line := TakeLine(s, Eof, 0);
    var n := ChunkSize(line.value).value;
    if n > 0 {
      DecodeShrinks(line.rest[n + 2..]);
    }
  }

  /** A chunked body cut short anywhere does not decode. */
  lemma TruncatedChunksFail(pieces: seq<string>, cut: nat)
    requires AllNonempty(pieces) && cut < |PrintChunks(pieces) + LAST_CHUNK|
    ensures DecodeChunked((PrintChunks(pieces) + LAST_CHUNK)[..cut]) == None
  {
    hide DecodeChunked, PrintChunks;
    var whole := PrintChunks(pieces) + LAST_CHUNK;
    ChunksDecode(pieces, "");
    assert PrintChunks(pieces) + (LAST_CHUNK + "") == whole;
    assert whole[..cut] + whole[cut..] == whole;
    if DecodeChunked(whole[..cut]).Some? {
      DecodeExtends(whole[..cut], whole[cut..]);
    }
  }
}
