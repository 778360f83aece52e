/** Header fields: the grammar of one field line, the header section, and the fields the server reads. */
module HttpHeader {
  import opened Text
  import opened HttpStream

  datatype Field = Field(name: string, value: string)

  const BLANKS := " \t"

  function ParseHeaderField(line: string): Option<Field> {
    var i := IndexOf(line, ':');
    if i == |line| then None
    else
      var name, value := line[..i], line[i + 1..];
      if name == "" || ContainsAny(name, " \t\r\n") then None
      else if ContainsAny(value, "\r\n") then None
      else Some(Field(name, Trim(value, BLANKS)))
  }

  // ----- the grammar of a field line -----------------------------------------------------------

  // A field as it can stand on the wire: name ":" blanks value blanks.
  datatype WireField = WireField(name: string, lead: string, value: string, trail: string)

  predicate Blank(pad: string) {
    forall i :: 0 <= i < |pad| ==> pad[i] in BLANKS
  }

  predicate WellFormedField(w: WireField) {
    && w.name != "" && !ContainsAny(w.name, " \t\r\n") && ':' !in w.name
    && Blank(w.lead) && Blank(w.trail)
    && IsTrimmed(w.value, BLANKS) && !ContainsAny(w.value, "\r\n")
  }

  function FieldOf(w: WireField): Field {
    Field(w.name, w.value)
  }

  function PrintField(w: WireField): string {
    w.name + ":" + (w.lead + w.value + w.trail)
  }

  lemma ContainsAnyParts(a: string, b: string, c: string, chars: string)
    ensures ContainsAny(a + b + c, chars) <==> ContainsAny(a, chars) || ContainsAny(b, chars) || ContainsAny(c, chars)
  {
    var s := a + b + c;
    if i :| 0 <= i < |a| && a[i] in chars {
      assert s[i] in chars;
    }
    if i :| 0 <= i < |b| && b[i] in chars {
      assert s[|a| + i] in chars;
    }
    if i :| 0 <= i < |c| && c[i] in chars {
      assert s[|a| + |b| + i] in chars;
    }
    if i :| 0 <= i < |s| && s[i] in chars {
      assert i < |a| ==> a[i] in chars;
      assert |a| <= i < |a| + |b| ==> b[i - |a|] in chars;
      assert |a| + |b| <= i ==> c[i - |a| - |b|] in chars;
    }
  }

  lemma BlankHasNoBreak(pad: string)
    requires Blank(pad)
    ensures !ContainsAny(pad, "\r\n")
  {
  }

  /** Printing a well-formed field, with any blanks around its value, and parsing it gives it back. */
  lemma PrintedFieldParses(w: WireField)
    requires WellFormedField(w)
    ensures ParseHeaderField(PrintField(w)) == Some(FieldOf(w))
  {
    var padded := w.lead + w.value + w.trail;
    Glued(w.name, ":", padded);
    IndexOfUnique(PrintField(w), ':', |w.name|);
    TrimPadding(w.lead, w.value, w.trail, BLANKS);
    BlankHasNoBreak(w.lead);
    BlankHasNoBreak(w.trail);
    ContainsAnyParts(w.lead, w.value, w.trail, "\r\n");
  }

  /** Conversely, every line the parser accepts is the printing of a well-formed field. */
  lemma ParsedFieldIsPrinted(line: string) returns (w: WireField)
    requires ParseHeaderField(line).Some?
    ensures WellFormedField(w) && line == PrintField(w) && ParseHeaderField(line) == Some(FieldOf(w))
  {
    var i := IndexOf(line, ':');
    var lead, trail := TrimSplits(line[i + 1..], BLANKS);
    w := WireField(line[..i], lead, Trim(line[i + 1..], BLANKS), trail);
    ContainsAnyParts(lead, w.value, trail, "\r\n");
    CutInThree(line, i, 1);
    assert line[i..][..1] == ":" && line[i..][1..] == line[i + 1..];
  }

  // ----- the header section --------------------------------------------------------------------

  function TakeFields(s: string, end: StreamEnd, maxLine: int, maxHeaders: int, sofar: seq<Field>)
    : (p: Parsed<seq<Field>>)
    ensures |p.rest| <= |s|
    decreases |s|
  {
    match TakeLine(s, end, maxLine)
    case Fail(fault, rest) => Fail(fault, rest)
    case Ok(line, rest) =>
      if line == "" then Ok(sofar, rest)
      else if maxHeaders > 0 && |sofar| >= maxHeaders then Fail(TooManyHeaders, rest)
      else
        match ParseHeaderField(line)
        case None => Fail(MalformedHeader, rest)
        case Some(f) => TakeFields(rest, end, maxLine, maxHeaders, sofar + [f])
  }

  method ReadHeaderFields(reader: LineReader, maxHeaders: int) returns (p: Parsed<seq<Field>>)
    requires reader.Valid()
    modifies reader
    ensures reader.Valid() && p.rest == reader.Pending()
    ensures p == TakeFields(old(reader.Pending()), reader.end, reader.maxLine, maxHeaders, [])
  {
    hide TakeLine, ParseHeaderField, Concat;
    var fields: seq<Field> := [];
    while true
      invariant reader.Valid()
      invariant TakeFields(old(reader.Pending()), reader.end, reader.maxLine, maxHeaders, [])
                == TakeFields(reader.Pending(), reader.end, reader.maxLine, maxHeaders, fields)
      decreases |reader.Pending()|
    {
      var line := reader.ReadLine();
      if line.Fail? {
        return Fail(line.fault, line.rest);
      }
      if line.value == "" {
        return Ok(fields, line.rest);
      }
      if maxHeaders > 0 && |fields| >= maxHeaders {
        return Fail(TooManyHeaders, line.rest);
      }
      var field := ParseHeaderField(line.value);
      if field.None? {
        return Fail(MalformedHeader, line.rest);
      }
      fields := fields + [field.value];
    }
  }

  // ----- Content-Length ------------------------------------------------------------------------

  const MAX_INT64 := 0x7FFF_FFFF_FFFF_FFFF

  datatype Length = Known(bytes: nat) | Absent | Refused(fault: Fault)

  function ParseContentLengthValue(value: string): Option<nat> {
    if value == "" then None
    else if HasPrefix(value, "+") || HasPrefix(value, "-") then None
    else if !AllDigits(value) || DecimalValue(value) > MAX_INT64 then None
    else Some(DecimalValue(value))
  }

  predicate Named(f: Field, name: string) {
    EqualFold(f.name, name)
  }

  function LengthFrom(fields: seq<Field>, found: Option<nat>): Length {
    if fields == [] then (if found.Some? then Known(found.value) else Absent)
    else if !Named(fields[0], "Content-Length") then LengthFrom(fields[1..], found)
    else
      match ParseContentLengthValue(fields[0].value)
      case None => Refused(InvalidContentLength)
      case Some(n) =>
        if found.Some? && n != found.value then Refused(ConflictingHeader) else LengthFrom(fields[1..], Some(n))
  }

  method ContentLength(fields: seq<Field>) returns (r: Length)
    ensures r == LengthFrom(fields, None)
  {
    hide EqualFold, ParseContentLengthValue;
    var length: nat := 0;
    var found := false;
    for i := 0 to |fields|
      invariant LengthFrom(fields, None) == LengthFrom(fields[i..], if found then Some(length) else None)
    {
      assert fields[i..][1..] == fields[i + 1..];
      if Named(fields[i], "Content-Length") {
        var current := ParseContentLengthValue(fields[i].value);
        if current.None? {
          return Refused(InvalidContentLength);
        }
        if found && current.value != length {
          return Refused(ConflictingHeader);
        }
        length, found := current.value, true;
      }
    }
    return if found then Known(length) else Absent;
  }

  predicate LengthField(f: Field) {
    EqualFold(f.name, "Content-Length")
  }

  predicate StatesLength(value: string, n: nat) {
    value != "" && AllDigits(value) && DecimalValue(value) == n
  }

  lemma StatedLength(value: string, n: nat)
    ensures ParseContentLengthValue(value) == Some(n) <==> StatesLength(value, n) && n <= MAX_INT64
  {
    assert HasPrefix(value, "+") ==> value[0] == '+';
    assert HasPrefix(value, "-") ==> value[0] == '-';
  }

  lemma {:induction false} LengthFromIff(fields: seq<Field>, found: Option<nat>, n: nat)
    ensures LengthFrom(fields, found) == Known(n)
            <==> && (forall f :: f in fields && LengthField(f) ==> StatesLength(f.value, n) && n <= MAX_INT64)
                 && (found == Some(n) || (found.None? && exists f :: f in fields && LengthField(f)))
    ensures LengthFrom(fields, found) == Absent <==> found.None? && forall f :: f in fields ==> !LengthField(f)
  {
    hide EqualFold, StatesLength, ParseContentLengthValue;
    if fields != [] {
      var f := fields[0];
      assert forall g :: g in fields <==> g == f || g in fields[1..];
      StatedLength(f.value, n);
      LengthFromIff(fields[1..], found, n);
      var current := ParseContentLengthValue(f.value);
      if LengthField(f) && current.Some? {
        LengthFromIff(fields[1..], current, n);
      }
    }
  }

  /** A length is known exactly when some Content-Length is present and all of them are digit strings
      of that one number, below 2^63. */
  lemma ContentLengthIff(fields: seq<Field>, n: nat)
    ensures LengthFrom(fields, None) == Known(n)
            <==> && (exists f :: f in fields && LengthField(f))
                 && (forall f :: f in fields && LengthField(f) ==> StatesLength(f.value, n) && n <= MAX_INT64)
    ensures LengthFrom(fields, None) == Absent <==> forall f :: f in fields ==> !LengthField(f)
  {
    LengthFromIff(fields, None, n);
  }

  // ----- other questions about fields ----------------------------------------------------------

  predicate HeaderHasToken(fields: seq<Field>, name: string, token: string) {
    exists f :: f in fields && Named(f, name) &&
      exists part :: part in Split(f.value, ',') && EqualFold(Trim(part, BLANKS), token)
  }

  predicate HasNonEmptyHeader(fields: seq<Field>, name: string) {
    exists f :: f in fields && Named(f, name) && f.value != ""
  }
}
