/** Every well-formed message head, written out, is read back as it was. */
module HttpRoundTrip {
  import opened Bytes
  import opened HttpText
  import opened HttpParser
  import opened HttpStability

  /** Text that may stand in a field value or a reason phrase. */
  predicate IsText(s: seq<byte>) {
    CR !in s && LF !in s && 0 !in s
  }

  predicate IsTrimmed(s: seq<byte>) {
    s != [] ==> !IsOws(s[0]) && !IsOws(s[|s| - 1])
  }

  predicate WellFormedField(f: Field) {
    IsToken(f.name) && IsText(f.value) && IsTrimmed(f.value)
  }

  /** The start line's part of a header: a request or a response, with nothing of the other kind. */
  predicate WellFormedStart(h: Header) {
    && KnownVersion(h.version)
    && match h.kind
       case Request => IsToken(h.methodName) && h.target != [] && IsText(h.target) && SP !in h.target &&
                       h.statusCode == 0 && h.reasonPhrase == []
       case Response => h.methodName == [] && h.target == [] && h.statusCode < 1000 && IsText(h.reasonPhrase)
  }

  /** The header's framing is what its own fields say. */
  predicate WellFormedHead(h: Header) {
    && WellFormedStart(h)
    && (forall f :: f in h.fields ==> WellFormedField(f))
    && FramingOf(h.fields).Good?
    && h == Framed(h, h.fields, FramingOf(h.fields).value)
  }

  function ThreeDigits(n: nat): (s: seq<byte>)
    requires n < 1000
    ensures |s| == 3 && AllDigits(s) && StatusCode(s) == n
  {
    [n / 100 + 48, n / 10 % 10 + 48, n % 10 + 48]
  }

  function StartLine(h: Header): seq<byte>
    requires WellFormedStart(h)
  {
    match h.kind
    case Request => h.methodName + [SP] + h.target + [SP] + h.version
    case Response => h.version + [SP] + ThreeDigits(h.statusCode) + [SP] + h.reasonPhrase
  }

  function FieldLine(f: Field): seq<byte> {
    f.name + [COLON] + ([SP] + f.value)
  }

  function EncodeFields(fields: seq<Field>): seq<byte> {
    if fields == [] then Line([]) else Line(FieldLine(fields[0])) + EncodeFields(fields[1..])
  }

  function EncodeHead(h: Header): seq<byte>
    requires WellFormedHead(h)
  {
    Line(StartLine(h)) + EncodeFields(h.fields)
  }

  /** The separators of the grammar are not token characters. */
  lemma SeparatorsAreNotTokens(c: byte)
    requires IsTokenChar(c)
    ensures c != SP && c != TAB && c != CR && c != LF && c != COLON && c != 47
  {
    var marks := Ascii("!#$%&'*+-.^_`|~");
    if c in marks {
      var i :| 0 <= i < |marks| && marks[i] == c;
      assert marks == [33, 35, 36, 37, 38, 39, 42, 43, 45, 46, 94, 95, 96, 124, 126];
    }
  }

  lemma TokenHasNoSeparators(s: seq<byte>)
    requires IsToken(s)
    ensures SP !in s && TAB !in s && CR !in s && LF !in s && COLON !in s && 47 !in s
  {
    forall c | c in s
      ensures c != SP && c != TAB && c != CR && c != LF && c != COLON && c != 47
    {
      SeparatorsAreNotTokens(c);
    }
  }

  lemma TrimUndoesBlank(v: seq<byte>)
    requires IsTrimmed(v)
    ensures TrimOws([SP] + v) == v
  {
    assert ([SP] + v)[1..] == v;
    assert TrimLeft(v) == v && TrimRight(v) == v;
  }

  lemma FieldReadBack(f: Field)
    requires WellFormedField(f)
    ensures FieldLine(f) != [] && CR !in FieldLine(f) && FieldOf(FieldLine(f)) == Good(f)
  {
    hide IsToken, TrimOws;
    TokenShape(f.name);
    var line := FieldLine(f);
    assert line == f.name + ([COLON] + ([SP] + f.value));
    FindSkips(f.name, [COLON] + ([SP] + f.value), COLON, 0);
    assert line[..|f.name|] == f.name && line[|f.name| + 1..] == [SP] + f.value;
    TrimUndoesBlank(f.value);
    assert line[|f.name| - 1] == f.name[|f.name| - 1] && f.name[|f.name| - 1] in f.name;
    assert line[0] == f.name[0] && f.name[0] in f.name;
  }

  lemma TokenShape(s: seq<byte>)
    requires IsToken(s)
    ensures s != [] && SP !in s && TAB !in s && CR !in s && LF !in s && COLON !in s && 47 !in s
  {
    TokenHasNoSeparators(s);
  }

  lemma {:induction false} FieldsReadBack(fields: seq<Field>, rest: seq<byte>, read: seq<Field>)
    requires forall f :: f in fields ==> WellFormedField(f)
    ensures FieldsFrom(EncodeFields(fields) + rest, read) == Got(read + fields, rest)
    decreases |fields|
  {
    hide ReadLine, FieldOf, Line, FieldLine, WellFormedField;
    if fields == [] {
      LineReadBack([], rest);
      assert read + [] == read;
    } else {
      var line, more := FieldLine(fields[0]), EncodeFields(fields[1..]);
      assert WellFormedField(fields[0]);
      FieldReadBack(fields[0]);
      assert Line(line) + more + rest == Line(line) + (more + rest);
      LineReadBack(line, more + rest);
      FieldsReadBack(fields[1..], rest, read + [fields[0]]);
      assert read + [fields[0]] + fields[1..] == read + fields;
    }
  }

  /** `line` is `a`, a blank, `b`, a blank and `c`, told by its slices. */
  predicate Blanked(line: seq<byte>, a: seq<byte>, b: seq<byte>, c: seq<byte>) {
    && |line| == |a| + |b| + |c| + 2 && line[|a|] == SP && line[|a| + 1 + |b|] == SP
    && line[..|a|] == a && line[|a| + 1..|a| + 1 + |b|] == b && line[|a| + 1 + |b| + 1..] == c
  }

  /** Cutting a line at its first two blanks. */
  lemma CutAtBlanks(line: seq<byte>, a: seq<byte>, b: seq<byte>, c: seq<byte>)
    requires Blanked(line, a, b, c) && SP !in a && SP !in b
    ensures Find(line, SP, 0) == |a| && Find(line, SP, |a| + 1) == |a| + 1 + |b|
  {
    FindsEndOf(line, 0, a);
    FindsEndOf(line, |a| + 1, b);
  }

  /** The first blank after a stretch without blanks. */
  lemma FindsEndOf(line: seq<byte>, from: nat, part: seq<byte>)
    requires from + |part| < |line| && line[from..from + |part|] == part
    requires SP !in part && line[from + |part|] == SP
    ensures Find(line, SP, from) == from + |part|
  {
    assert forall i :: from <= i < from + |part| ==> line[i] == part[i - from] && part[i - from] in part;
  }

  lemma JoinedIsBlanked(a: seq<byte>, b: seq<byte>, c: seq<byte>)
    ensures Blanked(a + [SP] + b + [SP] + c, a, b, c)
  {
  }

  lemma NamesOfVersions(v: seq<byte>)
    requires KnownVersion(v)
    ensures |v| == 8 && StartsWith(v, Ascii("HTTP/")) && SP !in v && CR !in v && LF !in v
  {
    var a, b := Ascii("HTTP/1.0"), Ascii("HTTP/1.1");
    assert a == [72, 84, 84, 80, 47, 49, 46, 48] && b == [72, 84, 84, 80, 47, 49, 46, 49];
    assert Ascii("HTTP/") == [72, 84, 84, 80, 47];
  }

  /** What a start line alone says: no fields, no framing yet. */
  function Bare(h: Header): Header {
    h.(fields := [], hasContentLength := false, contentLength := 0, chunked := false)
  }

  lemma TokenIsNoVersion(s: seq<byte>)
    requires 47 !in s
    ensures !StartsWith(s, Ascii("HTTP/"))
  {
    assert Ascii("HTTP/")[4] == 47;
    assert |s| >= 5 ==> s[..5][4] == s[4] && s[4] in s;
  }

  lemma RequestLineReadBack(h: Header)
    requires WellFormedStart(h) && h.kind == Request
    ensures CR !in StartLine(h) && StartLineOf(StartLine(h)) == Good(Bare(h))
  {
    hide IsToken, KnownVersion, Find;
    TokenShape(h.methodName);
    NamesOfVersions(h.version);
    JoinedIsBlanked(h.methodName, h.target, h.version);
    CutAtBlanks(StartLine(h), h.methodName, h.target, h.version);
    TokenIsNoVersion(h.methodName);
  }

  lemma StatusLineReadBack(h: Header)
    requires WellFormedStart(h) && h.kind == Response
    ensures CR !in StartLine(h) && StartLineOf(StartLine(h)) == Good(Bare(h))
  {
    hide IsToken, KnownVersion, Find, StatusCode, ThreeDigits;
    NamesOfVersions(h.version);
    var code := ThreeDigits(h.statusCode);
    assert forall i :: 0 <= i < |code| ==> IsDigit(code[i]);
    JoinedIsBlanked(h.version, code, h.reasonPhrase);
    CutAtBlanks(StartLine(h), h.version, code, h.reasonPhrase);
  }

  /** Round trip: a well-formed head is read back whole and nothing after it is touched. */
  lemma HeadIsReadBack(h: Header, rest: seq<byte>)
    requires WellFormedHead(h)
    ensures HeadOf(EncodeHead(h) + rest) == Got(h, rest)
  {
    hide ReadLine, StartLineOf, FieldsFrom, FramingOf, Line, StartLine, EncodeFields, WellFormedField, WellFormedStart;
    match h.kind {
      case Request => RequestLineReadBack(h);
      case Response => StatusLineReadBack(h);
    }
    var line, fields := StartLine(h), EncodeFields(h.fields);
    assert Line(line) + fields + rest == Line(line) + (fields + rest);
    LineReadBack(line, fields + rest);
    FieldsReadBack(h.fields, rest, []);
    assert [] + h.fields == h.fields;
  }
}
