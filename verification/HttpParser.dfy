/** The HTTP/1.x message head and the chunked body, parsed from a growing buffer. */
module HttpParser {
  import opened Bytes
  import opened HttpText

  /** A value read from the front of the buffer and what is left, or the verdict. */
  datatype Read<+T> = Got(value: T, rest: seq<byte>) | Fail(error: ParseError)

  datatype Field = Field(name: seq<byte>, value: seq<byte>)

  datatype Kind = Request | Response

  datatype Header = Header(
    kind: Kind, methodName: seq<byte>, target: seq<byte>, version: seq<byte>,
    statusCode: nat, reasonPhrase: seq<byte>, fields: seq<Field>,
    hasContentLength: bool, contentLength: nat, chunked: bool)

  /** The body of this response is empty whatever its fields say. */
  predicate BodyForbidden(h: Header) {
    h.kind == Response && (100 <= h.statusCode < 200 || h.statusCode == 204 || h.statusCode == 304)
  }

  /** `readLineCRLF`. */
  function ReadLine(s: seq<byte>): (r: Read<seq<byte>>)
    ensures r.Got? ==> |r.rest| + |r.value| + 2 == |s|
    ensures r.Fail? ==> r.error == UnexpectedEof || r.error == MalformedHeader
  {
    var r := Find(s, CR, 0);
    if r + 1 >= |s| then Fail(UnexpectedEof)
    else if s[r + 1] != LF then Fail(MalformedHeader)
    else Got(s[..r], s[r + 2..])
  }

  function StatusCode(s: seq<byte>): nat
    requires |s| == 3 && AllDigits(s)
  {
    DigitValue(s[0]) * 100 + DigitValue(s[1]) * 10 + DigitValue(s[2])
  }

  datatype Checked<+T> = Good(value: T) | Wrong(error: ParseError)

  predicate KnownVersion(v: seq<byte>) {
    v == Ascii("HTTP/1.0") || v == Ascii("HTTP/1.1")
  }

  /** The start line once it has been cut out: a status line or a request line. */
  function StartLineOf(line: seq<byte>): Checked<Header> {
    if line == [] || LF in line then Wrong(MalformedHeader)
    else
      var space1 := Find(line, SP, 0);
      if space1 == |line| then Wrong(MalformedHeader)
      else
        var space2 := Find(line, SP, space1 + 1);
        var first := line[..space1];
        var second := line[space1 + 1..space2];
        var third := if space2 == |line| then [] else line[space2 + 1..];
        if StartsWith(first, Ascii("HTTP/")) then
          if |second| != 3 || !AllDigits(second) then Wrong(MalformedHeader)
          else if !KnownVersion(first) then Wrong(UnsupportedVersion)
          else Good(Header(Response, [], [], first, StatusCode(second), third, [], false, 0, false))
        else if space2 == |line| || !IsToken(first) || second == [] then Wrong(MalformedHeader)
        else if !KnownVersion(third) then Wrong(UnsupportedVersion)
        else Good(Header(Request, first, second, third, 0, [], [], false, 0, false))
  }

  function FieldOf(line: seq<byte>): Checked<Field>
    requires line != []
  {
    if IsOws(line[0]) then Wrong(MalformedHeader)
    else
      var colon := Find(line, COLON, 0);
      if colon == |line| || colon == 0 || IsOws(line[colon - 1]) then Wrong(MalformedHeader)
      else
        var field := Field(line[..colon], TrimOws(line[colon + 1..]));
        if !IsToken(field.name) || LF in field.value || 0 in field.value then Wrong(MalformedHeader)
        else Good(field)
  }

  /** Field lines up to the empty line, after those in `read`. */
  function FieldsFrom(s: seq<byte>, read: seq<Field>): (r: Read<seq<Field>>)
    ensures r.Got? ==> |r.rest| < |s|
    decreases |s|
  {
    match ReadLine(s)
    case Fail(e) => Fail(e)
    case Got(line, rest) =>
      if line == [] then Got(read, rest)
      else match FieldOf(line)
        case Wrong(e) => Fail(e)
        case Good(f) => FieldsFrom(rest, read + [f])
  }

  method ParseFields(s: seq<byte>) returns (r: Read<seq<Field>>)
    ensures r == FieldsFrom(s, [])
  {
    var span, fields := s, [];
    while true
      invariant FieldsFrom(span, fields) == FieldsFrom(s, [])
      decreases |span|
    {
      hide FieldOf, ReadLine;
      var line := ReadLine(span);
      if line.Fail? { return Fail(line.error); }
      span := line.rest;
      if line.value == [] { return Got(fields, span); }
      var field := FieldOf(line.value);
      if field.Wrong? { return Fail(field.error); }
      fields := fields + [field.value];
    }
  }

  /** How the body is delimited. */
  datatype Framing = Chunked | Length(n: nat) | Unframed

  function TransferEncodings(fields: seq<Field>): seq<seq<byte>> {
    if fields == [] then []
    else
      var f := fields[|fields| - 1];
      TransferEncodings(fields[..|fields| - 1]) +
        if EqualsIgnoringCase(f.name, Ascii("Transfer-Encoding")) then [TrimOws(f.value)] else []
  }

  function ContentLengths(fields: seq<Field>): seq<seq<byte>> {
    if fields == [] then []
    else
      var f := fields[|fields| - 1];
      ContentLengths(fields[..|fields| - 1]) +
        if EqualsIgnoringCase(f.name, Ascii("Content-Length")) then [f.value] else []
  }

  predicate AllSame(values: seq<seq<byte>>) {
    forall i :: 0 <= i < |values| ==> values[i] == values[0]
  }

  /**
   Section 6.3 of RFC 9112 as the program applies it: never both kinds of field, the last
   transfer coding must be chunked, repeated lengths must agree.
   */
  function FramingOf(fields: seq<Field>): Checked<Framing> {
    var encodings, lengths := TransferEncodings(fields), ContentLengths(fields);
    if !AllSame(lengths) || (encodings != [] && lengths != []) then Wrong(MalformedHeader)
    else if encodings != [] then
      if EqualsIgnoringCase(encodings[|encodings| - 1], Ascii("chunked")) then Good(Chunked) else Wrong(MalformedHeader)
    else if lengths != [] then
      match DecimalOf(lengths[0])
      case None => Wrong(MalformedHeader)
      case Some(n) => Good(Length(n))
    else Good(Unframed)
  }

  lemma FieldNamesDiffer()
    ensures |Ascii("Transfer-Encoding")| == 17 && |Ascii("Content-Length")| == 14
  {
  }

  /** `parseFraming`: one pass over the fields, remembering the codings and the first length. */
  method ParseFraming(fields: seq<Field>) returns (r: Checked<Framing>)
    ensures r == FramingOf(fields)
  {
    var sawTransferEncoding, sawContentLength := false, false;
    var encodings: seq<seq<byte>>, contentLength: seq<byte> := [], [];
    FieldNamesDiffer();
    for i := 0 to |fields|
      invariant encodings == TransferEncodings(fields[..i])
      invariant sawTransferEncoding <==> encodings != []
      invariant sawContentLength <==> ContentLengths(fields[..i]) != []
      invariant sawContentLength ==> contentLength == ContentLengths(fields[..i])[0]
      invariant AllSame(ContentLengths(fields[..i]))
    {
      hide EqualsIgnoringCase, TrimOws;
      var f := fields[i];
      assert fields[..i + 1][..i] == fields[..i];
      NotBothNames(f.name);
      if EqualsIgnoringCase(f.name, Ascii("Transfer-Encoding")) {
        sawTransferEncoding := true;
        encodings := encodings + [TrimOws(f.value)];
      } else if EqualsIgnoringCase(f.name, Ascii("Content-Length")) {
        if !sawContentLength {
          sawContentLength := true;
          contentLength := f.value;
        } else if f.value != contentLength {
          DisagreeingLengths(fields, i);
          return Wrong(MalformedHeader);
        }
      }
    }
    assert fields[..|fields|] == fields;
    if sawTransferEncoding && sawContentLength { return Wrong(MalformedHeader); }
    if sawTransferEncoding {
      if !EqualsIgnoringCase(encodings[|encodings| - 1], Ascii("chunked")) { return Wrong(MalformedHeader); }
      return Good(Chunked);
    } else if sawContentLength {
      var value := ParseDecimal(contentLength);
      if value.None? { return Wrong(MalformedHeader); }
      return Good(Length(value.value));
    }
    return Good(Unframed);
  }

  lemma NotBothNames(name: seq<byte>)
    ensures !(EqualsIgnoringCase(name, Ascii("Transfer-Encoding")) && EqualsIgnoringCase(name, Ascii("Content-Length")))
  {
    FieldNamesDiffer();
  }

  lemma {:induction false} LengthsGrow(fields: seq<Field>, k: nat)
    requires k <= |fields|
    ensures ContentLengths(fields[..k]) <= ContentLengths(fields)
    decreases |fields|
  {
    if k == |fields| {
      assert fields[..k] == fields;
    } else {
      assert fields[..|fields| - 1][..k] == fields[..k];
      LengthsGrow(fields[..|fields| - 1], k);
    }
  }

  lemma DisagreeingLengths(fields: seq<Field>, i: nat)
    requires i < |fields| && ContentLengths(fields[..i]) != []
    requires EqualsIgnoringCase(fields[i].name, Ascii("Content-Length"))
    requires fields[i].value != ContentLengths(fields[..i])[0]
    ensures !AllSame(ContentLengths(fields))
  {
    hide EqualsIgnoringCase;
    assert fields[..i + 1][..i] == fields[..i];
    LengthsGrow(fields, i + 1);
    var k := |ContentLengths(fields[..i])|;
    assert ContentLengths(fields[..i + 1]) == ContentLengths(fields[..i]) + [fields[i].value];
    assert ContentLengths(fields)[k] == fields[i].value;
    assert ContentLengths(fields)[0] == ContentLengths(fields[..i])[0];
  }

  function Framed(h: Header, fields: seq<Field>, f: Framing): Header {
    h.(fields := fields, chunked := f == Chunked, hasContentLength := f.Length?,
       contentLength := if f.Length? then f.n else 0)
  }

  /** The message head: start line, fields, framing. */
  function HeadOf(s: seq<byte>): (r: Read<Header>)
    ensures r.Got? ==> |r.rest| < |s|
  {
    match ReadLine(s)
    case Fail(e) => Fail(e)
    case Got(line, afterLine) =>
      match StartLineOf(line)
      case Wrong(e) => Fail(e)
      case Good(h) =>
        match FieldsFrom(afterLine, [])
        case Fail(e) => Fail(e)
        case Got(fields, rest) =>
          match FramingOf(fields)
          case Wrong(e) => Fail(e)
          case Good(f) => Got(Framed(h, fields, f), rest)
  }

  method Parse(s: seq<byte>) returns (r: Read<Header>)
    ensures r == HeadOf(s)
  {
    hide ReadLine, StartLineOf, FieldsFrom, FramingOf;
    var line := ReadLine(s);
    if line.Fail? { return Fail(line.error); }
    var start := StartLineOf(line.value);
    if start.Wrong? { return Fail(start.error); }
    var fields := ParseFields(line.rest);
    if fields.Fail? { return Fail(fields.error); }
    var framing := ParseFraming(fields.value);
    if framing.Wrong? { return Fail(framing.error); }
    return Got(Framed(start.value, fields.value, framing.value), fields.rest);
  }

  /** The size line of a chunk: hexadecimal digits, then perhaps blanks and an extension. */
  function ChunkSizeOf(line: seq<byte>): Option<nat> {
    HexOf(TrimRight(line[..Find(line, SEMICOLON, 0)]))
  }

  /** What stands at a chunk boundary. */
  datatype ChunkStep = LastChunk(rest: seq<byte>) | Chunk(data: seq<byte>, rest: seq<byte>) | Stop(error: ParseError)

  function ChunkAt(s: seq<byte>): (c: ChunkStep)
    ensures c.LastChunk? || c.Chunk? ==> |c.rest| < |s|
  {
    match ReadLine(s)
    case Fail(e) => Stop(e)
    case Got(line, rest) =>
      match ChunkSizeOf(line)
      case None => Stop(MalformedHeader)
      case Some(size) =>
        if size == 0 then LastChunk(rest)
        else if |rest| < size then Stop(UnexpectedEof)
        else match ReadLine(rest[size..])
          case Fail(e) => Stop(e)
          case Got(terminator, after) =>
            if terminator != [] then Stop(MalformedHeader) else Chunk(rest[..size], after)
  }

  /** A whole body with its decoded bytes, or the verdict and how many bytes are whole chunks. */
  datatype Body = Whole(data: seq<byte>, rest: seq<byte>) | Partial(error: ParseError, prefix: nat)

  /** The body from a chunk boundary on, `done` bytes and `data` after its start. */
  function BodyFrom(s: seq<byte>, done: nat, data: seq<byte>): (b: Body)
    ensures b.Whole? ==> |b.rest| < |s|
    decreases |s|
  {
    match ChunkAt(s)
    case Stop(e) => Partial(e, done)
    case Chunk(d, rest) => BodyFrom(rest, done + (|s| - |rest|), data + d)
    case LastChunk(rest) =>
      match FieldsFrom(rest, [])
      case Fail(e) => Partial(e, done)
      case Got(_, after) => Whole(data, after)
  }

  function BodyOf(s: seq<byte>): (b: Body)
    ensures b.Whole? ==> |b.rest| < |s|
  {
    BodyFrom(s, 0, [])
  }

  /** One turn of the chunk loop: the size line, the data and its line end. */
  method ParseChunk(s: seq<byte>) returns (c: ChunkStep)
    ensures c == ChunkAt(s)
  {
    hide ReadLine, ChunkSizeOf;
    var sizeLine := ReadLine(s);
    if sizeLine.Fail? { return Stop(sizeLine.error); }
    var chunkSize := ChunkSizeOf(sizeLine.value);
    if chunkSize.None? { return Stop(MalformedHeader); }
    var size, span := chunkSize.value, sizeLine.rest;
    if size == 0 { return LastChunk(span); }
    if |span| < size { return Stop(UnexpectedEof); }
    var terminator := ReadLine(span[size..]);
    if terminator.Fail? { return Stop(terminator.error); }
    if terminator.value != [] { return Stop(MalformedHeader); }
    return Chunk(span[..size], terminator.rest);
  }

  method ParseChunkedBody(s: seq<byte>) returns (r: Body)
    ensures r == BodyOf(s)
  {
    hide ChunkAt, FieldsFrom;
    var span, out, boundary: nat := s, [], 0;
    while true
      invariant |span| <= |s| && boundary == |s| - |span|
      invariant BodyFrom(span, boundary, out) == BodyOf(s)
      decreases |span|
    {
      var chunk := ParseChunk(span);
      match chunk {
        case Stop(e) => return Partial(e, boundary);
        case LastChunk(rest) =>
          var trailers := ParseFields(rest);
          if trailers.Fail? { return Partial(trailers.error, boundary); }
          return Whole(out, trailers.rest);
        case Chunk(data, rest) =>
          out := out + data;
          span := rest;
          boundary := |s| - |span|;
      }
    }
  }
}
