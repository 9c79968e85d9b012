/**
 What the HTTP parser accepts, told by writing: lines, fields, start lines, framing, chunk
 sizes, heads and chunked bodies, each with both directions.
 */
module HttpGrammar {
  import opened Bytes
  import opened HttpText
  import opened HttpParser
  import opened HttpStability
  import opened HttpRoundTrip

  /** A line is found exactly if the first carriage return has a line feed behind it. */
  lemma LineMeans(s: seq<byte>, line: seq<byte>, rest: seq<byte>)
    ensures ReadLine(s) == Got(line, rest) <==> 13 !in line && s == line + [13, 10] + rest
  {
    if 13 !in line && s == line + [13, 10] + rest {
      LineReadBack(line, rest);
      assert Line(line) + rest == s;
    }
    var r := Find(s, CR, 0);
    if r + 1 < |s| && s[r + 1] == LF {
      assert s == s[..r] + [13, 10] + s[r + 2..];
    }
  }

  predicate AllBlank(s: seq<byte>) {
    forall i :: 0 <= i < |s| ==> s[i] == 32 || s[i] == 9
  }

  lemma {:induction false} TrimRightCuts(s: seq<byte>)
    ensures var t := TrimRight(s);
      && |t| <= |s| && t == s[..|t|] && AllBlank(s[|t|..])
      && (t != [] ==> t[|t| - 1] != 32 && t[|t| - 1] != 9)
    decreases |s|
  {
    if s != [] && IsOws(s[|s| - 1]) {
      TrimRightCuts(s[..|s| - 1]);
    }
  }

  lemma {:induction false} TrimLeftCuts(s: seq<byte>)
    ensures var t := TrimLeft(s);
      && |t| <= |s| && t == s[|s| - |t|..] && AllBlank(s[..|s| - |t|])
      && (t != [] ==> t[0] != 32 && t[0] != 9)
    decreases |s|
  {
    if s != [] && IsOws(s[0]) {
      TrimLeftCuts(s[1..]);
      var n := |s| - |TrimLeft(s)|;
      assert s[..n] == [s[0]] + s[1..][..n - 1];
    }
  }

  lemma {:induction false} TrimRightDrops(s: seq<byte>, blanks: seq<byte>)
    requires AllBlank(blanks) && (s != [] ==> s[|s| - 1] != 32 && s[|s| - 1] != 9)
    ensures TrimRight(s + blanks) == s
    decreases |blanks|
  {
    if blanks == [] {
      assert s + blanks == s;
    } else {
      assert (s + blanks)[..|s + blanks| - 1] == s + blanks[..|blanks| - 1];
      TrimRightDrops(s, blanks[..|blanks| - 1]);
    }
  }

  lemma {:induction false} TrimLeftDrops(s: seq<byte>, blanks: seq<byte>)
    requires AllBlank(blanks) && (s != [] ==> s[0] != 32 && s[0] != 9)
    ensures TrimLeft(blanks + s) == s
    decreases |blanks|
  {
    if blanks == [] {
      assert blanks + s == s;
    } else {
      assert (blanks + s)[1..] == blanks[1..] + s;
      TrimLeftDrops(s, blanks[1..]);
    }
  }

  /** Trimming takes exactly the blanks at both ends. */
  lemma TrimMeans(s: seq<byte>, v: seq<byte>)
    ensures TrimOws(s) == v <==>
            IsTrimmed(v) && exists a, b :: AllBlank(a) && AllBlank(b) && s == a + v + b
  {
    var l := TrimLeft(s);
    TrimLeftCuts(s);
    TrimRightCuts(l);
    var t := TrimOws(s);
    var a, b := s[..|s| - |l|], l[|t|..];
    assert s == a + t + b;
    assert t != [] ==> t[0] == l[0];
    forall a, b | IsTrimmed(v) && AllBlank(a) && AllBlank(b) && s == a + v + b
      ensures TrimOws(s) == v
    {
      TrimBack(a, v, b);
    }
  }

  lemma TrimBack(a: seq<byte>, v: seq<byte>, b: seq<byte>)
    requires IsTrimmed(v) && AllBlank(a) && AllBlank(b)
    ensures TrimOws(a + v + b) == v
  {
    assert a + v + b == a + (v + b);
    if v == [] {
      AllTrimmed(a + b);
      assert v + b == b && a + v + b == a + b;
    } else {
      TrimLeftDrops(v + b, a);
      TrimRightDrops(v, b);
    }
  }

  lemma {:induction false} AllTrimmed(s: seq<byte>)
    requires AllBlank(s)
    ensures TrimOws(s) == []
    decreases |s|
  {
    if s != [] {
      AllTrimmed(s[1..]);
    }
  }

  /** A field line: a token, a colon, and a value between blanks that holds neither LF nor NUL. */
  ghost predicate IsFieldLine(line: seq<byte>, f: Field) {
    && IsToken(f.name) && IsTrimmed(f.value) && 10 !in f.value && 0 !in f.value
    && exists a, b :: AllBlank(a) && AllBlank(b) && line == f.name + [58] + (a + f.value + b)
  }

  lemma CutAtColon(name: seq<byte>, value: seq<byte>)
    requires IsToken(name)
    ensures var line := name + [58] + value;
      && line != [] && Find(line, COLON, 0) == |name| > 0
      && line[..|name|] == name && line[|name| + 1..] == value
      && line[0] != 32 && line[0] != 9 && line[|name| - 1] != 32 && line[|name| - 1] != 9
  {
    hide IsToken;
    TokenShape(name);
    var line := name + [58] + value;
    assert line == name + ([58] + value);
    FindSkips(name, [58] + value, COLON, 0);
    assert line[0] == name[0] && name[0] in name;
    assert line[|name| - 1] == name[|name| - 1] && name[|name| - 1] in name;
  }

  lemma FieldIsLine(line: seq<byte>, f: Field)
    requires line != [] && FieldOf(line) == Good(f)
    ensures IsFieldLine(line, f)
  {
    hide IsToken, TrimOws, IsTrimmed;
    var colon := Find(line, COLON, 0);
    TrimMeans(line[colon + 1..], f.value);
    var a, b :| AllBlank(a) && AllBlank(b) && line[colon + 1..] == a + f.value + b;
    assert line == f.name + [58] + (a + f.value + b);
  }

  /** A field line is accepted exactly if it is one. */
  lemma FieldMeans(line: seq<byte>, f: Field)
    requires line != []
    ensures FieldOf(line) == Good(f) <==> IsFieldLine(line, f)
  {
    if FieldOf(line) == Good(f) {
      FieldIsLine(line, f);
    }
    if IsFieldLine(line, f) {
      hide IsToken, TrimOws, IsTrimmed;
      var a, b :| AllBlank(a) && AllBlank(b) && line == f.name + [58] + (a + f.value + b);
      var value := a + f.value + b;
      CutAtColon(f.name, value);
      TrimMeans(value, f.value);
    }
  }

  function BareRequest(name: seq<byte>, target: seq<byte>, version: seq<byte>): Header {
    Header(Request, name, target, version, 0, [], [], false, 0, false)
  }

  function BareResponse(version: seq<byte>, status: nat, reason: seq<byte>): Header {
    Header(Response, [], [], version, status, reason, [], false, 0, false)
  }

  /** `HTTP/1.0` or `HTTP/1.1`. */
  predicate IsVersion(v: seq<byte>) {
    v == [72, 84, 84, 80, 47, 49, 46, 48] || v == [72, 84, 84, 80, 47, 49, 46, 49]
  }

  lemma VersionsByCode(v: seq<byte>)
    ensures KnownVersion(v) <==> IsVersion(v)
  {
    assert Ascii("HTTP/1.0") == [72, 84, 84, 80, 47, 49, 46, 48];
    assert Ascii("HTTP/1.1") == [72, 84, 84, 80, 47, 49, 46, 49];
  }

  /** A token, a target and a version with one blank between them. */
  predicate IsRequestLine(line: seq<byte>, h: Header) {
    && h == BareRequest(h.methodName, h.target, h.version)
    && IsToken(h.methodName) && h.target != [] && 32 !in h.target && IsVersion(h.version)
    && line == h.methodName + [32] + h.target + [32] + h.version
  }

  /** A version, three digits and perhaps a reason, with one blank between them. */
  predicate IsStatusLine(line: seq<byte>, h: Header) {
    && h == BareResponse(h.version, h.statusCode, h.reasonPhrase)
    && IsVersion(h.version) && h.statusCode < 1000
    && var start := h.version + [32] + ThreeDigits(h.statusCode);
       line == start + [32] + h.reasonPhrase || (line == start && h.reasonPhrase == [])
  }

  lemma StartLineIsOne(line: seq<byte>, h: Header)
    requires StartLineOf(line) == Good(h)
    ensures 10 !in line && (IsRequestLine(line, h) || IsStatusLine(line, h))
  {
    hide IsToken, IsVersion, KnownVersion, StatusCode, ThreeDigits, StartsWith;
    var space1 := Find(line, SP, 0);
    var space2 := Find(line, SP, space1 + 1);
    var first, second := line[..space1], line[space1 + 1..space2];
    VersionsByCode(first);
    assert line == first + [32] + line[space1 + 1..];
    if space2 < |line| {
      VersionsByCode(line[space2 + 1..]);
      assert line[space1 + 1..] == second + [32] + line[space2 + 1..];
      assert line == first + [32] + second + [32] + line[space2 + 1..];
      assert 32 !in second;
    }
    if |second| == 3 && AllDigits(second) {
      DigitsAreThree(second);
    }
  }

  lemma DigitsAreThree(s: seq<byte>)
    requires |s| == 3 && AllDigits(s)
    ensures StatusCode(s) < 1000 && ThreeDigits(StatusCode(s)) == s
  {
    var n := StatusCode(s);
    assert n / 100 + 48 == s[0] && n / 10 % 10 + 48 == s[1] && n % 10 + 48 == s[2];
  }

  lemma RequestLineIsAccepted(line: seq<byte>, h: Header)
    requires IsRequestLine(line, h) && 10 !in line
    ensures StartLineOf(line) == Good(h)
  {
    hide IsToken, KnownVersion, Find, IsVersion;
    VersionsByCode(h.version);
    TokenShape(h.methodName);
    JoinedIsBlanked(h.methodName, h.target, h.version);
    CutAtBlanks(line, h.methodName, h.target, h.version);
    TokenIsNoVersion(h.methodName);
  }

  lemma StatusLineIsAccepted(line: seq<byte>, h: Header)
    requires IsStatusLine(line, h) && 10 !in line
    ensures StartLineOf(line) == Good(h)
  {
    hide KnownVersion, Find, StatusCode, ThreeDigits, IsVersion;
    VersionsByCode(h.version);
    NamesOfVersions(h.version);
    var code := ThreeDigits(h.statusCode);
    var start := h.version + [32] + code;
    assert forall i :: 0 <= i < |code| ==> IsDigit(code[i]);
    if line == start + [32] + h.reasonPhrase {
      JoinedIsBlanked(h.version, code, h.reasonPhrase);
      CutAtBlanks(line, h.version, code, h.reasonPhrase);
    } else {
      WithoutReason(line, h.version, code);
    }
  }

  lemma WithoutReason(line: seq<byte>, version: seq<byte>, code: seq<byte>)
    requires line == version + [32] + code && 32 !in version && |code| == 3 && AllDigits(code)
    ensures Find(line, SP, 0) == |version| && Find(line, SP, |version| + 1) == |line|
    ensures line[..|version|] == version && line[|version| + 1..|line|] == code
  {
    hide AllDigits;
    var n := |version|;
    assert line[0..n] == version && line[n] == 32;
    FindsEndOf(line, 0, version);
    assert line[n + 1..] == code;
    NoMoreBlanks(line, n + 1, code);
  }

  lemma NoMoreBlanks(line: seq<byte>, from: nat, code: seq<byte>)
    requires from <= |line| && line[from..] == code && AllDigits(code)
    ensures Find(line, SP, from) == |line|
  {
    assert forall i :: from <= i < |line| ==> line[i] == line[from..][i - from];
  }

  /** A start line is accepted exactly if it is a request line or a status line without a line feed. */
  lemma StartLineMeans(line: seq<byte>, h: Header)
    ensures StartLineOf(line) == Good(h) <==> 10 !in line && (IsRequestLine(line, h) || IsStatusLine(line, h))
  {
    if StartLineOf(line) == Good(h) {
      StartLineIsOne(line, h);
    }
    if 10 !in line && IsRequestLine(line, h) {
      RequestLineIsAccepted(line, h);
    }
    if 10 !in line && IsStatusLine(line, h) {
      StatusLineIsAccepted(line, h);
    }
  }

  /** The name is this one, given in lower case, up to the case of letters. */
  predicate NameIs(name: seq<byte>, lower: seq<byte>) {
    |name| == |lower| && forall i :: 0 <= i < |name| ==> SameLetter(name[i], lower[i])
  }

  /** `transfer-encoding` */
  predicate SaysEncoding(f: Field) {
    NameIs(f.name, [116, 114, 97, 110, 115, 102, 101, 114, 45, 101, 110, 99, 111, 100, 105, 110, 103])
  }

  /** `content-length` */
  predicate SaysLength(f: Field) {
    NameIs(f.name, [99, 111, 110, 116, 101, 110, 116, 45, 108, 101, 110, 103, 116, 104])
  }

  /** `chunked`, between blanks. */
  predicate SaysChunked(f: Field) {
    NameIs(TrimOws(f.value), [99, 104, 117, 110, 107, 101, 100])
  }

  lemma SameName(name: seq<byte>, s: string, lower: seq<byte>)
    requires NameIs(Ascii(s), lower)
    ensures EqualsIgnoringCase(name, Ascii(s)) <==> NameIs(name, lower)
  {
    EqualsIgnoresOnlyCase(name, Ascii(s));
    EqualsIgnoresOnlyCase(name, lower);
    EqualsIgnoresOnlyCase(Ascii(s), lower);
  }

  lemma EncodingByCode()
    ensures NameIs(Ascii("Transfer-Encoding"),
                   [116, 114, 97, 110, 115, 102, 101, 114, 45, 101, 110, 99, 111, 100, 105, 110, 103])
  {
    assert Ascii("Transfer-Encoding") ==
           [84, 114, 97, 110, 115, 102, 101, 114, 45, 69, 110, 99, 111, 100, 105, 110, 103];
    hide Ascii;
  }

  lemma LengthByCode()
    ensures NameIs(Ascii("Content-Length"), [99, 111, 110, 116, 101, 110, 116, 45, 108, 101, 110, 103, 116, 104])
  {
    assert Ascii("Content-Length") == [67, 111, 110, 116, 101, 110, 116, 45, 76, 101, 110, 103, 116, 104];
    hide Ascii;
  }

  lemma ChunkedByCode()
    ensures NameIs(Ascii("chunked"), [99, 104, 117, 110, 107, 101, 100])
  {
    assert Ascii("chunked") == [99, 104, 117, 110, 107, 101, 100];
    hide Ascii;
  }

  lemma NamesByCode(f: Field)
    ensures EqualsIgnoringCase(f.name, Ascii("Transfer-Encoding")) <==> SaysEncoding(f)
    ensures EqualsIgnoringCase(f.name, Ascii("Content-Length")) <==> SaysLength(f)
    ensures EqualsIgnoringCase(TrimOws(f.value), Ascii("chunked")) <==> SaysChunked(f)
  {
    EncodingByCode();
    LengthByCode();
    ChunkedByCode();
    hide EqualsIgnoringCase, TrimOws, NameIs;
    SameName(f.name, "Transfer-Encoding",
             [116, 114, 97, 110, 115, 102, 101, 114, 45, 101, 110, 99, 111, 100, 105, 110, 103]);
    SameName(f.name, "Content-Length", [99, 111, 110, 116, 101, 110, 116, 45, 108, 101, 110, 103, 116, 104]);
    SameName(TrimOws(f.value), "chunked", [99, 104, 117, 110, 107, 101, 100]);
  }

  predicate NoneSaysEncoding(fields: seq<Field>) {
    forall i :: 0 <= i < |fields| ==> !SaysEncoding(fields[i])
  }

  predicate NoneSaysLength(fields: seq<Field>) {
    forall i :: 0 <= i < |fields| ==> !SaysLength(fields[i])
  }

  /** The last field that says an encoding. */
  predicate LastSaysEncoding(fields: seq<Field>, i: nat) {
    i < |fields| && SaysEncoding(fields[i]) && forall j :: i < j < |fields| ==> !SaysEncoding(fields[j])
  }

  lemma LastBefore(fields: seq<Field>, i: nat)
    requires fields != [] && !SaysEncoding(fields[|fields| - 1])
    ensures LastSaysEncoding(fields, i) <==> LastSaysEncoding(fields[..|fields| - 1], i)
    ensures NoneSaysEncoding(fields) <==> NoneSaysEncoding(fields[..|fields| - 1])
  {
    hide SaysEncoding;
    var before := fields[..|fields| - 1];
    assert forall j :: 0 <= j < |before| ==> before[j] == fields[j];
  }

  lemma LastIsLast(fields: seq<Field>, i: nat)
    requires fields != [] && SaysEncoding(fields[|fields| - 1])
    ensures LastSaysEncoding(fields, i) <==> i == |fields| - 1
    ensures !NoneSaysEncoding(fields)
  {
    hide SaysEncoding;
  }

  /** What the last of the encodings is. */
  ghost predicate EncodingsEndWith(fields: seq<Field>, i: nat) {
    var es := TransferEncodings(fields);
    LastSaysEncoding(fields, i) ==> es != [] && es[|es| - 1] == TrimOws(fields[i].value)
  }

  lemma {:induction false} EncodingsAreFields(fields: seq<Field>)
    ensures TransferEncodings(fields) == [] <==> NoneSaysEncoding(fields)
    ensures forall i: nat :: EncodingsEndWith(fields, i)
    ensures TransferEncodings(fields) != [] ==> exists i: nat :: LastSaysEncoding(fields, i)
    decreases |fields|
  {
    hide EqualsIgnoringCase, TrimOws, SaysEncoding, LastSaysEncoding;
    if fields == [] {
      NothingSaid();
    } else {
      var n, before := |fields| - 1, fields[..|fields| - 1];
      EncodingsAreFields(before);
      NamesByCode(fields[n]);
      if SaysEncoding(fields[n]) {
        forall i: nat
          ensures EncodingsEndWith(fields, i)
        {
          LastIsLast(fields, i);
        }
        LastIsLast(fields, n);
      } else {
        assert TransferEncodings(fields) == TransferEncodings(before) + [] == TransferEncodings(before);
        forall i: nat
          ensures EncodingsEndWith(fields, i) && (LastSaysEncoding(fields, i) <==> LastSaysEncoding(before, i))
        {
          LastBefore(fields, i);
          assert EncodingsEndWith(before, i);
          LastIsInside(before, i);
          assert LastSaysEncoding(before, i) ==> before[i] == fields[i];
        }
        LastBefore(fields, 0);
      }
    }
  }

  lemma NothingSaid()
    ensures forall i: nat :: !LastSaysEncoding([], i)
  {
  }

  lemma LastIsInside(fields: seq<Field>, i: nat)
    ensures LastSaysEncoding(fields, i) ==> i < |fields|
  {
  }

  lemma {:induction false} LengthsAreFields(fields: seq<Field>)
    ensures ContentLengths(fields) == [] <==> NoneSaysLength(fields)
    ensures forall v :: v in ContentLengths(fields) <==>
              exists i :: 0 <= i < |fields| && SaysLength(fields[i]) && fields[i].value == v
    decreases |fields|
  {
    hide EqualsIgnoringCase, SaysLength;
    if fields != [] {
      var n, before := |fields| - 1, fields[..|fields| - 1];
      LengthsAreFields(before);
      NamesByCode(fields[n]);
      forall i | 0 <= i < n
        ensures fields[i] == before[i]
      {
      }
    }
  }

  /** All lengths that are said are the same, and there is one. */
  predicate OneLength(fields: seq<Field>, v: seq<byte>) {
    && !NoneSaysLength(fields)
    && forall i :: 0 <= i < |fields| && SaysLength(fields[i]) ==> fields[i].value == v
  }

  lemma SameLengths(fields: seq<Field>, v: seq<byte>)
    ensures ContentLengths(fields) != [] && AllSame(ContentLengths(fields)) && ContentLengths(fields)[0] == v <==>
            OneLength(fields, v)
  {
    hide SaysLength, ContentLengths;
    LengthsAreFields(fields);
    var lengths := ContentLengths(fields);
    if OneLength(fields, v) {
      forall k | 0 <= k < |lengths|
        ensures lengths[k] == v
      {
        assert lengths[k] in lengths;
      }
    }
    if lengths != [] && AllSame(lengths) && lengths[0] == v {
      forall i | 0 <= i < |fields| && SaysLength(fields[i])
        ensures fields[i].value == v
      {
        assert fields[i].value in lengths;
      }
    }
  }

  /**
   What the fields say about the body, told field by field. Chunked: the last field that says
   an encoding says `chunked`, and none says a length. A length: none says an encoding, some
   say a length, and all of them the same decimal. Nothing: neither is said. Everything else
   is malformed.
   */
  lemma FramingMeans(fields: seq<Field>)
    ensures FramingOf(fields) == Good(Chunked) <==>
            NoneSaysLength(fields) && exists i: nat :: LastSaysEncoding(fields, i) && SaysChunked(fields[i])
    ensures forall n: nat :: FramingOf(fields) == Good(Length(n)) <==>
              NoneSaysEncoding(fields) && exists v :: OneLength(fields, v) && DecimalOf(v) == Some(n)
    ensures FramingOf(fields) == Good(Unframed) <==> NoneSaysEncoding(fields) && NoneSaysLength(fields)
    ensures FramingOf(fields).Wrong? ==> FramingOf(fields).error == MalformedHeader
  {
    EncodingsAreFields(fields);
    LengthsAreFields(fields);
    var encodings, lengths := TransferEncodings(fields), ContentLengths(fields);
    if encodings != [] {
      var i: nat :| LastSaysEncoding(fields, i);
      assert EncodingsEndWith(fields, i);
      NamesByCode(fields[i]);
      forall j: nat | LastSaysEncoding(fields, j)
        ensures j == i
      {
        OnlyOneIsLast(fields, i, j);
      }
    }
    forall v
      ensures lengths != [] && AllSame(lengths) && lengths[0] == v <==> OneLength(fields, v)
    {
      SameLengths(fields, v);
    }
    hide EqualsIgnoringCase, TrimOws, DecimalOf, SaysEncoding, SaysLength, SaysChunked, TransferEncodings,
      ContentLengths;
    hide OneLength, LastSaysEncoding;
    assert lengths == [] ==> forall v :: !OneLength(fields, v);
  }

  lemma OnlyOneIsLast(fields: seq<Field>, i: nat, j: nat)
    requires LastSaysEncoding(fields, i) && LastSaysEncoding(fields, j)
    ensures i == j
  {
  }

  /** Hexadecimal digits, then perhaps blanks, then perhaps a semicolon and anything. */
  ghost predicate IsSizeLine(line: seq<byte>, n: nat) {
    exists digits, blanks, extension ::
      && HexOf(digits) == Some(n) && AllBlank(blanks) && 59 !in digits + blanks
      && (extension != [] ==> extension[0] == 59)
      && line == digits + blanks + extension
  }

  lemma SizeMeans(line: seq<byte>, n: nat)
    ensures ChunkSizeOf(line) == Some(n) <==> IsSizeLine(line, n)
  {
    hide HexValue;
    var d := Find(line, SEMICOLON, 0);
    if ChunkSizeOf(line) == Some(n) {
      TrimRightCuts(line[..d]);
      var digits := TrimRight(line[..d]);
      var blanks := line[..d][|digits|..];
      assert digits + blanks == line[..d];
      assert line == digits + blanks + line[d..];
    }
    forall digits, blanks, extension |
      && HexOf(digits) == Some(n) && AllBlank(blanks) && 59 !in digits + blanks
      && (extension != [] ==> extension[0] == 59) && line == digits + blanks + extension
      ensures ChunkSizeOf(line) == Some(n)
    {
      SizeIsRead(line, digits, blanks, extension);
    }
  }

  lemma SizeIsRead(line: seq<byte>, digits: seq<byte>, blanks: seq<byte>, extension: seq<byte>)
    requires HexOf(digits).Some? && AllBlank(blanks) && 59 !in digits + blanks
    requires (extension != [] ==> extension[0] == 59) && line == digits + blanks + extension
    ensures ChunkSizeOf(line) == HexOf(digits)
  {
    hide HexValue;
    var front := digits + blanks;
    FindSkips(front, extension, SEMICOLON, 0);
    assert Find(extension, SEMICOLON, 0) == 0;
    assert line[..|front|] == front;
    assert IsHex(digits[|digits| - 1]);
    TrimRightDrops(digits, blanks);
  }

  /** Field lines, one for each field, and an empty line. */
  ghost predicate IsFieldBlock(s: seq<byte>, fields: seq<Field>, rest: seq<byte>)
    decreases |fields|
  {
    if fields == [] then s == [13, 10] + rest
    else exists line, more ::
           && line != [] && 13 !in line && IsFieldLine(line, fields[0])
           && s == line + [13, 10] + more && IsFieldBlock(more, fields[1..], rest)
  }

  /** One field line at the front. */
  lemma BlockStarts(s: seq<byte>, fields: seq<Field>, rest: seq<byte>, line: seq<byte>, more: seq<byte>)
    requires ReadLine(s) == Got(line, more)
    ensures line == [] ==> (IsFieldBlock(s, fields, rest) <==> fields == [] && more == rest)
    ensures line != [] ==>
              (IsFieldBlock(s, fields, rest) <==>
               fields != [] && IsFieldLine(line, fields[0]) && IsFieldBlock(more, fields[1..], rest))
  {
    hide ReadLine, IsFieldLine;
    LineMeans(s, line, more);
    if fields == [] {
      LineMeans(s, [], rest);
      assert [] + [13, 10] + rest == [13, 10] + rest;
    } else {
      forall l, m | 13 !in l && s == l + [13, 10] + m
        ensures l == line && m == more
      {
        LineMeans(s, l, m);
      }
    }
  }

  lemma BlockHasLine(s: seq<byte>, fields: seq<Field>, rest: seq<byte>)
    requires IsFieldBlock(s, fields, rest)
    ensures ReadLine(s).Got?
  {
    hide ReadLine, IsFieldLine;
    if fields == [] {
      LineMeans(s, [], rest);
      assert [] + [13, 10] + rest == [13, 10] + rest;
    } else {
      var line, more :| line != [] && 13 !in line && IsFieldLine(line, fields[0]) &&
        s == line + [13, 10] + more && IsFieldBlock(more, fields[1..], rest);
      LineMeans(s, line, more);
    }
  }

  lemma {:induction false} FieldsKeepRead(s: seq<byte>, read: seq<Field>)
    ensures FieldsFrom(s, read).Got? ==> read <= FieldsFrom(s, read).value
    decreases |s|
  {
    hide ReadLine, FieldOf;
    if ReadLine(s).Got? && ReadLine(s).value != [] && FieldOf(ReadLine(s).value).Good? {
      FieldsKeepRead(ReadLine(s).rest, read + [FieldOf(ReadLine(s).value).value]);
    }
  }

  /** Field lines are read as these fields exactly if they are a block of them. */
  lemma {:induction false} FieldsMean(s: seq<byte>, read: seq<Field>, fields: seq<Field>, rest: seq<byte>)
    ensures FieldsFrom(s, read) == Got(read + fields, rest) <==> IsFieldBlock(s, fields, rest)
    decreases |s|
  {
    hide ReadLine, FieldOf, IsFieldLine, IsFieldBlock;
    match ReadLine(s) {
      case Fail(_) =>
        if IsFieldBlock(s, fields, rest) {
          BlockHasLine(s, fields, rest);
        }
      case Got(line, more) =>
        BlockStarts(s, fields, rest, line, more);
        if line == [] {
          assert read + fields == read <==> fields == [];
        } else {
          FieldsGoOn(s, read, fields, rest, line, more);
        }
    }
  }

  lemma {:induction false} FieldsGoOn(
    s: seq<byte>, read: seq<Field>, fields: seq<Field>, rest: seq<byte>, line: seq<byte>, more: seq<byte>)
    requires ReadLine(s) == Got(line, more) && line != []
    ensures FieldsFrom(s, read) == Got(read + fields, rest) <==>
            fields != [] && IsFieldLine(line, fields[0]) && IsFieldBlock(more, fields[1..], rest)
    decreases |s|, 0
  {
    hide ReadLine, FieldOf, IsFieldLine, IsFieldBlock;
    assert |more| < |s|;
    if fields != [] {
      FieldMeans(line, fields[0]);
    }
    match FieldOf(line) {
      case Wrong(_) =>
      case Good(f) =>
        FieldsKeepRead(more, read + [f]);
        if fields != [] && fields[0] == f {
          FieldsMean(more, read + [f], fields[1..], rest);
          assert read + [f] + fields[1..] == read + fields;
        } else {
          assert !(read + [f] <= read + fields) by {
            assert fields != [] ==> (read + fields)[|read|] == fields[0];
          }
        }
    }
  }

  /** A start line, the block of the fields, and the framing that they say. */
  ghost predicate IsHead(s: seq<byte>, h: Header, rest: seq<byte>) {
    && FramingOf(h.fields).Good? && h == Framed(h, h.fields, FramingOf(h.fields).value)
    && exists line, more ::
         && 13 !in line && 10 !in line && (IsRequestLine(line, Bare(h)) || IsStatusLine(line, Bare(h)))
         && s == line + [13, 10] + more && IsFieldBlock(more, h.fields, rest)
  }

  /**
   What a head is: the parser accepts exactly the heads, gives each its one meaning, and
   leaves what stands behind it.
   */
  lemma HeadMeans(s: seq<byte>, h: Header, rest: seq<byte>)
    ensures HeadOf(s) == Got(h, rest) <==> IsHead(s, h, rest)
  {
    hide ReadLine, StartLineOf, FieldsFrom, FramingOf, IsFieldBlock, IsRequestLine, IsStatusLine;
    match ReadLine(s) {
      case Fail(_) =>
        forall line, more | 13 !in line && s == line + [13, 10] + more
          ensures false
        {
          LineMeans(s, line, more);
        }
      case Got(line, more) =>
        LineMeans(s, line, more);
        forall l, m | 13 !in l && s == l + [13, 10] + m
          ensures l == line && m == more
        {
          LineMeans(s, l, m);
        }
        StartLineMeans(line, Bare(h));
        FieldsMean(more, [], h.fields, rest);
        assert [] + h.fields == h.fields;
        HeadOfParts(s, h, rest, line, more);
    }
  }

  lemma HeadOfParts(s: seq<byte>, h: Header, rest: seq<byte>, line: seq<byte>, more: seq<byte>)
    requires ReadLine(s) == Got(line, more)
    ensures HeadOf(s) == Got(h, rest) <==>
            && FramingOf(h.fields).Good? && h == Framed(h, h.fields, FramingOf(h.fields).value)
            && StartLineOf(line) == Good(Bare(h)) && FieldsFrom(more, []) == Got(h.fields, rest)
  {
    hide ReadLine, FieldsFrom, FramingOf, StartLineOf;
    if StartLineOf(line).Good? {
      StartsBare(line);
    }
  }

  lemma StartsBare(line: seq<byte>)
    requires StartLineOf(line).Good?
    ensures StartLineOf(line).value == Bare(StartLineOf(line).value)
  {
    hide IsToken, KnownVersion, StatusCode;
  }

  /** A chunk: its size line, that many octets, and a line end. */
  ghost predicate IsChunk(s: seq<byte>, d: seq<byte>, more: seq<byte>) {
    d != [] && exists line :: 13 !in line && IsSizeLine(line, |d|) && s == line + [13, 10] + (d + [13, 10] + more)
  }

  /** The last chunk: a size line that says zero, and behind it the trailer. */
  ghost predicate IsLastChunk(s: seq<byte>, more: seq<byte>) {
    exists line :: 13 !in line && IsSizeLine(line, 0) && s == line + [13, 10] + more
  }

  lemma ChunkMeans(s: seq<byte>, d: seq<byte>, more: seq<byte>)
    ensures ChunkAt(s) == Chunk(d, more) <==> IsChunk(s, d, more)
  {
    hide ReadLine, ChunkSizeOf, IsSizeLine;
    if ChunkAt(s) == Chunk(d, more) {
      var line, rest := ReadLine(s).value, ReadLine(s).rest;
      LineMeans(s, line, rest);
      SizeMeans(line, |d|);
      LineMeans(rest[|d|..], [], more);
      assert rest == d + rest[|d|..];
      assert rest == d + [13, 10] + more by { assert rest[|d|..] == [] + [13, 10] + more; }
    }
    forall line | d != [] && 13 !in line && IsSizeLine(line, |d|) && s == line + [13, 10] + (d + [13, 10] + more)
      ensures ChunkAt(s) == Chunk(d, more)
    {
      var rest := d + [13, 10] + more;
      LineMeans(s, line, rest);
      SizeMeans(line, |d|);
      assert rest[|d|..] == [] + [13, 10] + more && rest[..|d|] == d;
      LineMeans(rest[|d|..], [], more);
    }
  }

  lemma LastChunkMeans(s: seq<byte>, more: seq<byte>)
    ensures ChunkAt(s) == LastChunk(more) <==> IsLastChunk(s, more)
  {
    hide ReadLine, ChunkSizeOf, IsSizeLine;
    if ReadLine(s).Got? {
      LineMeans(s, ReadLine(s).value, ReadLine(s).rest);
      SizeMeans(ReadLine(s).value, 0);
    }
    forall line | 13 !in line && IsSizeLine(line, 0) && s == line + [13, 10] + more
      ensures ChunkAt(s) == LastChunk(more)
    {
      LineMeans(s, line, more);
      SizeMeans(line, 0);
    }
  }

  /** Chunks whose octets are the data, the last chunk, and a trailer of field lines. */
  ghost predicate IsChunkedBody(s: seq<byte>, data: seq<byte>, rest: seq<byte>)
    decreases |s|
  {
    || (data == [] && exists more, fields :: IsLastChunk(s, more) && IsFieldBlock(more, fields, rest))
    || exists d, more ::
         && IsChunk(s, d, more) && |more| < |s|
         && |d| <= |data| && data[..|d|] == d && IsChunkedBody(more, data[|d|..], rest)
  }

  lemma {:induction false} BodyKeepsData(s: seq<byte>, done: nat, data: seq<byte>)
    ensures BodyFrom(s, done, data).Whole? ==> data <= BodyFrom(s, done, data).data
    decreases |s|
  {
    hide ChunkAt, FieldsFrom;
    if ChunkAt(s).Chunk? {
      var c := ChunkAt(s);
      BodyKeepsData(c.rest, done + (|s| - |c.rest|), data + c.data);
    }
  }

  lemma ChunksAreParsed(s: seq<byte>)
    ensures forall d, more :: IsChunk(s, d, more) <==> ChunkAt(s) == Chunk(d, more)
    ensures forall more :: IsLastChunk(s, more) <==> ChunkAt(s) == LastChunk(more)
  {
    hide ChunkAt, IsChunk, IsLastChunk;
    forall d, more
      ensures IsChunk(s, d, more) <==> ChunkAt(s) == Chunk(d, more)
    {
      ChunkMeans(s, d, more);
    }
    forall more
      ensures IsLastChunk(s, more) <==> ChunkAt(s) == LastChunk(more)
    {
      LastChunkMeans(s, more);
    }
  }

  lemma EmptyBody(s: seq<byte>, more: seq<byte>, fields: seq<Field>, rest: seq<byte>)
    requires IsLastChunk(s, more) && IsFieldBlock(more, fields, rest)
    ensures IsChunkedBody(s, [], rest)
  {
    hide IsLastChunk, IsFieldBlock, IsChunk;
  }

  /** A chunked body, by what stands at its front. */
  lemma BodyStarts(s: seq<byte>, data: seq<byte>, rest: seq<byte>)
    ensures ChunkAt(s).Stop? ==> !IsChunkedBody(s, data, rest)
    ensures ChunkAt(s).LastChunk? ==>
              (IsChunkedBody(s, data, rest) <==>
               data == [] && exists fields :: IsFieldBlock(ChunkAt(s).rest, fields, rest))
    ensures ChunkAt(s).Chunk? ==>
              (IsChunkedBody(s, data, rest) <==>
               var d := ChunkAt(s).data;
               |d| <= |data| && data[..|d|] == d && IsChunkedBody(ChunkAt(s).rest, data[|d|..], rest))
  {
    hide ChunkAt, IsChunk, IsLastChunk, IsFieldBlock;
    ChunksAreParsed(s);
    match ChunkAt(s) {
      case Stop(_) =>
      case LastChunk(more) =>
        assert IsLastChunk(s, more);
        assert forall d, m :: !IsChunk(s, d, m);
        if IsChunkedBody(s, data, rest) {
          var m, fields :| IsLastChunk(s, m) && IsFieldBlock(m, fields, rest);
          assert m == more;
        }
        if data == [] && exists fields :: IsFieldBlock(more, fields, rest) {
          var fields :| IsFieldBlock(more, fields, rest);
          EmptyBody(s, more, fields, rest);
        }
      case Chunk(d, more) => assert IsChunk(s, d, more);
    }
  }

  /**
   What a chunked body is: the parser decodes exactly the chunked bodies, gives each its data,
   and leaves what stands behind it.
   */
  lemma {:induction false} ChunkedBodyMeans(s: seq<byte>, done: nat, read: seq<byte>, data: seq<byte>, rest: seq<byte>)
    ensures BodyFrom(s, done, read) == Whole(read + data, rest) <==> IsChunkedBody(s, data, rest)
    decreases |s|
  {
    hide ChunkAt, FieldsFrom, IsChunkedBody, IsFieldBlock;
    BodyStarts(s, data, rest);
    match ChunkAt(s) {
      case Stop(_) =>
      case LastChunk(more) =>
        TrailerMeans(more, rest);
        assert read + data == read <==> data == [];
      case Chunk(d, more) =>
        BodyKeepsData(more, done + (|s| - |more|), read + d);
        if |d| <= |data| && data[..|d|] == d {
          ChunkedBodyMeans(more, done + (|s| - |more|), read + d, data[|d|..], rest);
          assert read + d + data[|d|..] == read + data;
        } else {
          NotBehind(read, d, data);
        }
    }
  }

  lemma NotBehind(read: seq<byte>, d: seq<byte>, data: seq<byte>)
    requires !(|d| <= |data| && data[..|d|] == d)
    ensures !(read + d <= read + data)
  {
    assert |d| <= |data| ==> (read + data)[|read|..|read| + |d|] == data[..|d|];
    assert (read + d)[|read|..] == d;
  }

  lemma TrailerMeans(more: seq<byte>, rest: seq<byte>)
    ensures (FieldsFrom(more, []).Got? && FieldsFrom(more, []).rest == rest) <==>
            exists fields :: IsFieldBlock(more, fields, rest)
  {
    hide FieldsFrom, IsFieldBlock;
    if FieldsFrom(more, []).Got? && FieldsFrom(more, []).rest == rest {
      var fields := FieldsFrom(more, []).value;
      FieldsMean(more, [], fields, rest);
      assert [] + fields == fields;
    }
    forall fields | IsFieldBlock(more, fields, rest)
      ensures FieldsFrom(more, []) == Got(fields, rest)
    {
      FieldsMean(more, [], fields, rest);
      assert [] + fields == fields;
    }
  }
}
