/**
 When the parser asks for more bytes and when it refuses: both told by what is written, and
 what the decoder then does with the front of its buffer.
 */
module HttpVerdicts {
  import opened Bytes
  import opened HttpText
  import opened HttpParser
  import opened HttpStability
  import opened HttpGrammar
  import opened HttpPoll
  import opened HttpResume
  import opened HttpPipeline

  /** A line that has not ended: no carriage return, or one as its last octet. */
  predicate IsOpenLine(s: seq<byte>) {
    forall i :: 0 <= i < |s| - 1 ==> s[i] != 13
  }

  lemma OpenLineMeans(s: seq<byte>)
    ensures ReadLine(s) == Fail(UnexpectedEof) <==> IsOpenLine(s)
  {
    var r := Find(s, CR, 0);
  }

  /** What a found line says about the ways to cut one off. */
  lemma OnlyLine(s: seq<byte>, line: seq<byte>, more: seq<byte>)
    requires ReadLine(s) == Got(line, more)
    ensures 13 !in line && s == line + [13, 10] + more && !IsOpenLine(s)
    ensures forall l: seq<byte>, m: seq<byte> :: 13 !in l && s == l + [13, 10] + m ==> l == line && m == more
  {
    hide ReadLine, IsOpenLine;
    LineMeans(s, line, more);
    OpenLineMeans(s);
    forall l: seq<byte>, m: seq<byte> | 13 !in l && s == l + [13, 10] + m
      ensures l == line && m == more
    {
      LineMeans(s, l, m);
    }
  }

  lemma NoLine(s: seq<byte>)
    requires ReadLine(s).Fail?
    ensures forall l: seq<byte>, m: seq<byte> :: 13 !in l ==> s != l + [13, 10] + m
  {
    hide ReadLine;
    forall l: seq<byte>, m: seq<byte> | 13 !in l
      ensures s != l + [13, 10] + m
    {
      LineMeans(s, l, m);
    }
  }

  /** Field lines, and then one that has not ended. */
  ghost predicate FieldsOpen(s: seq<byte>)
    decreases |s|
  {
    || IsOpenLine(s)
    || exists line: seq<byte>, f, more: seq<byte> ::
         && line != [] && 13 !in line && IsFieldLine(line, f)
         && s == line + [13, 10] + more && |more| < |s| && FieldsOpen(more)
  }

  lemma {:induction false} FieldsOpenMeans(s: seq<byte>, read: seq<Field>)
    ensures FieldsFrom(s, read) == Fail(UnexpectedEof) <==> FieldsOpen(s)
    decreases |s|
  {
    hide ReadLine, IsFieldLine, IsOpenLine;
    OpenLineMeans(s);
    match ReadLine(s) {
      case Fail(_) => NoLine(s);
      case Got(line, more) =>
        OnlyLine(s, line, more);
        if line != [] {
          FieldVerdict(line);
          if FieldOf(line).Good? {
            FieldsOpenMeans(more, read + [FieldOf(line).value]);
          }
        }
    }
  }

  lemma FieldVerdict(line: seq<byte>)
    requires line != []
    ensures FieldOf(line) == Wrong(MalformedHeader) || FieldOf(line).Good?
    ensures FieldOf(line).Good? <==> exists f :: IsFieldLine(line, f)
  {
    hide IsFieldLine, IsToken, TrimOws;
    assert FieldOf(line) == Wrong(MalformedHeader) || FieldOf(line).Good?;
    hide FieldOf;
    if FieldOf(line).Good? {
      FieldMeans(line, FieldOf(line).value);
    }
    forall f | IsFieldLine(line, f)
      ensures FieldOf(line).Good?
    {
      FieldMeans(line, f);
    }
  }

  /** A start line, if it has ended, and fields that have not. */
  ghost predicate HeadOpen(s: seq<byte>) {
    || IsOpenLine(s)
    || exists line: seq<byte>, h, more: seq<byte> ::
         && 13 !in line && 10 !in line && (IsRequestLine(line, h) || IsStatusLine(line, h))
         && s == line + [13, 10] + more && FieldsOpen(more)
  }

  lemma StartVerdict(line: seq<byte>)
    ensures StartLineOf(line).Good? || StartLineOf(line).error == MalformedHeader ||
            StartLineOf(line).error == UnsupportedVersion
    ensures StartLineOf(line).Good? <==> 10 !in line && exists h :: IsRequestLine(line, h) || IsStatusLine(line, h)
  {
    hide IsRequestLine, IsStatusLine, IsToken, KnownVersion, StatusCode;
    assert StartLineOf(line).Good? || StartLineOf(line).error == MalformedHeader ||
           StartLineOf(line).error == UnsupportedVersion;
    hide StartLineOf;
    if StartLineOf(line).Good? {
      StartLineMeans(line, StartLineOf(line).value);
    }
    forall h | 10 !in line && (IsRequestLine(line, h) || IsStatusLine(line, h))
      ensures StartLineOf(line).Good?
    {
      StartLineMeans(line, h);
    }
  }

  /** More bytes are asked for exactly while the head has not ended and nothing in it is refused. */
  lemma HeadOpenMeans(s: seq<byte>)
    ensures HeadOf(s) == Fail(UnexpectedEof) <==> HeadOpen(s)
  {
    hide ReadLine, StartLineOf, FieldsFrom, FramingOf, IsRequestLine, IsStatusLine, IsOpenLine, FieldsOpen;
    OpenLineMeans(s);
    match ReadLine(s) {
      case Fail(_) => NoLine(s);
      case Got(line, more) =>
        OnlyLine(s, line, more);
        StartVerdict(line);
        FieldsOpenMeans(more, []);
        if FieldsFrom(more, []).Got? {
          FramingMeans(FieldsFrom(more, []).value);
        }
    }
  }

  /** A size line, its data or the line end behind them has not ended. */
  ghost predicate ChunkOpen(s: seq<byte>) {
    || IsOpenLine(s)
    || exists line: seq<byte>, n: nat, rest: seq<byte> ::
         && 13 !in line && IsSizeLine(line, n) && n > 0
         && s == line + [13, 10] + rest && (|rest| < n || IsOpenLine(rest[n..]))
  }

  lemma SizeVerdict(line: seq<byte>, n: nat)
    requires IsSizeLine(line, n)
    ensures ChunkSizeOf(line) == Some(n)
  {
    hide ChunkSizeOf, IsSizeLine;
    SizeMeans(line, n);
  }

  lemma ChunkOpenMeans(s: seq<byte>)
    ensures ChunkAt(s) == Stop(UnexpectedEof) <==> ChunkOpen(s)
  {
    hide ReadLine, ChunkSizeOf, IsSizeLine, IsOpenLine;
    OpenLineMeans(s);
    match ReadLine(s) {
      case Fail(_) => NoLine(s);
      case Got(line, rest) =>
        OnlyLine(s, line, rest);
        forall n: nat | IsSizeLine(line, n)
          ensures ChunkSizeOf(line) == Some(n)
        {
          SizeVerdict(line, n);
        }
        if ChunkSizeOf(line).Some? {
          var n := ChunkSizeOf(line).value;
          SizeMeans(line, n);
          if n <= |rest| {
            OpenLineMeans(rest[n..]);
          }
        }
    }
  }

  /** Whole chunks, and then one that has not ended, or a trailer that has not. */
  ghost predicate BodyOpen(s: seq<byte>)
    decreases |s|
  {
    || ChunkOpen(s)
    || (exists more :: IsLastChunk(s, more) && FieldsOpen(more))
    || exists d, more :: IsChunk(s, d, more) && |more| < |s| && BodyOpen(more)
  }

  /** More bytes are asked for exactly while the body has not ended and nothing in it is refused. */
  lemma {:induction false} BodyOpenMeans(s: seq<byte>, done: nat, data: seq<byte>)
    ensures BodyFrom(s, done, data).Partial? && BodyFrom(s, done, data).error == UnexpectedEof <==> BodyOpen(s)
    decreases |s|
  {
    hide ChunkAt, FieldsFrom, IsChunk, IsLastChunk, ChunkOpen, FieldsOpen;
    ChunksAreParsed(s);
    ChunkOpenMeans(s);
    match ChunkAt(s) {
      case Stop(_) =>
        assert forall d, more :: !IsChunk(s, d, more);
        assert forall more :: !IsLastChunk(s, more);
      case LastChunk(more) =>
        assert forall d, m :: !IsChunk(s, d, m);
        assert IsLastChunk(s, more);
        FieldsOpenMeans(more, []);
      case Chunk(d, more) =>
        assert forall m :: !IsLastChunk(s, m);
        assert IsChunk(s, d, more);
        BodyOpenMeans(more, done + (|s| - |more|), data + d);
    }
  }

  lemma {:induction false} FieldsRestIsSuffix(s: seq<byte>, read: seq<Field>)
    ensures FieldsFrom(s, read).Got? ==> IsTail(FieldsFrom(s, read).rest, s)
    decreases |s|
  {
    hide ReadLine, FieldOf;
    if ReadLine(s).Got? {
      var line, more := ReadLine(s).value, ReadLine(s).rest;
      OnlyLine(s, line, more);
      assert more == s[|line| + 2..];
      if line != [] && FieldOf(line).Good? {
        FieldsRestIsSuffix(more, read + [FieldOf(line).value]);
      }
    }
  }

  predicate IsTail(t: seq<byte>, s: seq<byte>) {
    |t| <= |s| && t == s[|s| - |t|..]
  }

  /** What is left behind a body is the end of what was there. */
  lemma {:induction false} BodyRestIsSuffix(s: seq<byte>, done: nat, data: seq<byte>)
    ensures BodyFrom(s, done, data).Whole? ==> IsTail(BodyFrom(s, done, data).rest, s)
    decreases |s|
  {
    hide ChunkAt, FieldsFrom;
    match ChunkAt(s) {
      case Stop(_) =>
      case LastChunk(more) =>
        LastRestIsSuffix(s);
        FieldsRestIsSuffix(more, []);
      case Chunk(d, more) =>
        ChunkRestIsSuffix(s);
        BodyRestIsSuffix(more, done + (|s| - |more|), data + d);
    }
  }

  lemma LastRestIsSuffix(s: seq<byte>)
    requires ChunkAt(s).LastChunk?
    ensures IsTail(ChunkAt(s).rest, s)
  {
  }

  lemma BodyIsTaken(s: State, h: Header, start: nat, data: seq<byte>, rest: seq<byte>)
    requires Idle(s) && h.chunked && !NeverHasBody(h) && !AnswersHead(s.peer, h) && 0 < start <= |s.buf|
    requires BodyOf(s.buf[start..]) == Whole(data, rest) && IsTail(rest, s.buf[start..])
    ensures WithHead(s, h, start) == Again(Having(s, Message(h, Plain([]))).(buf := rest))
  {
    hide BodyOf, Resync, Incomplete;
    assert s.buf[|s.buf| - |rest|..] == rest;
  }

  /** What the parser is shown of a buffer. */
  function Shown(buf: seq<byte>): seq<byte> {
    if |buf| <= 32768 then buf else buf[..32768]
  }

  /**
   No head at the front: it is waited for exactly if it has not ended, nothing in it is refused
   and at most 32768 bytes have arrived; else it is given up.
   */
  lemma WithoutHead(s: State)
    requires s.apps.skip == 0 && !s.apps.bodyUntilClose
    requires forall h, rest :: !IsHead(Shown(s.buf), h, rest)
    ensures Turn(s) == if HeadOpen(s.buf) && |s.buf| <= 32768 then Wait(s) else Resync(s)
  {
    hide HeadOf, Resync, HeadOpen, IsHead;
    assert Shown(s.buf) == Window(s.buf);
    if HeadOf(Window(s.buf)).Got? {
      HeadMeans(Window(s.buf), HeadOf(Window(s.buf)).value, HeadOf(Window(s.buf)).rest);
    }
    HeadOpenMeans(Window(s.buf));
  }

  /**
   A head that announces chunks: a body that is all there is taken with its trailer, whatever
   its size lines and trailer look like; one that has not ended waits, up to 8 MiB; any other
   is given up.
   */
  lemma ChunkedTurn(s: State, h: Header, behind: seq<byte>)
    requires Idle(s) && IsHead(Shown(s.buf), h, behind) && h.chunked
    requires !NeverHasBody(h) && !AnswersHead(s.peer, h) && |behind| < |Shown(s.buf)|
    ensures var body := s.buf[|Shown(s.buf)| - |behind|..];
      var popped := s.(peer := QueueAfter(s.peer, h));
      && (forall data, rest :: IsChunkedBody(body, data, rest) ==>
            Turn(s) == Again(Having(s, Message(h, Plain([]))).(buf := rest)))
      && (BodyOpen(body) && |s.buf| <= 0x80_0000 ==>
            Turn(s).Wait? && Turn(s).s == popped.(apps := s.apps.(chunkPrefix := Turn(s).s.apps.chunkPrefix)))
      && (!BodyOpen(body) && (forall data, rest :: !IsChunkedBody(body, data, rest)) ==> Turn(s) == Resync(popped))
  {
    hide HeadOf, BodyFrom, Resync, IsHead, IsChunkedBody, BodyOpen, Remember;
    assert Shown(s.buf) == Window(s.buf);
    HeadMeans(Window(s.buf), h, behind);
    TurnAtHead(s);
    var body := s.buf[|Shown(s.buf)| - |behind|..];
    BodyOpenMeans(body, 0, []);
    BodyRestIsSuffix(body, 0, []);
    forall data, rest
      ensures BodyFrom(body, 0, []) == Whole(data, rest) <==> IsChunkedBody(body, data, rest)
    {
      ChunkedBodyMeans(body, 0, [], data, rest);
      assert [] + data == data;
    }
    if BodyOf(body).Whole? {
      BodyIsTaken(s, h, |s.buf| - |body|, BodyOf(body).data, BodyOf(body).rest);
    }
  }

  /**
   A head that announces a length: a body that is all there is taken; a part of it waits, up to
   8 MiB; from then on the head is recorded and as many octets as announced are passed over.
   */
  lemma SizedTurn(s: State, h: Header, behind: seq<byte>)
    requires Idle(s) && IsHead(Shown(s.buf), h, behind) && !h.chunked && h.hasContentLength
    requires !NeverHasBody(h) && !AnswersHead(s.peer, h) && |behind| < |Shown(s.buf)|
    ensures var body, n := s.buf[|Shown(s.buf)| - |behind|..], h.contentLength;
      var popped, after := s.(peer := QueueAfter(s.peer, h)), Having(s, Message(h, Plain([])));
      Turn(s) ==
      if n <= |body| then Again(after.(buf := body[n..]))
      else if |s.buf| <= 0x80_0000 then Wait(popped)
      else Again(after.(buf := body,
                        apps := after.apps.(skip := n, bodiesSkipped := s.apps.bodiesSkipped + 1)))
  {
    hide HeadOf, Resync, IsHead;
    assert Shown(s.buf) == Window(s.buf);
    HeadMeans(Window(s.buf), h, behind);
    TurnAtHead(s);
    var start := |Shown(s.buf)| - |behind|;
    if h.contentLength <= |s.buf| - start {
      assert s.buf[start + h.contentLength..] == s.buf[start..][h.contentLength..];
    }
  }

  /**
   A head behind which there is no body: one that never has one, one that answers a HEAD, or a
   request that announces none. Any other response that announces none lasts until the
   connection closes.
   */
  lemma BodilessTurn(s: State, h: Header, behind: seq<byte>)
    requires Idle(s) && IsHead(Shown(s.buf), h, behind) && |behind| < |Shown(s.buf)|
    ensures var body := s.buf[|Shown(s.buf)| - |behind|..];
      var after := Having(s, Message(h, Plain([]))).(buf := body);
      var none := NeverHasBody(h) || AnswersHead(s.peer, h);
      && (none || (h.kind == Request && !h.chunked && !h.hasContentLength) ==> Turn(s) == Again(after))
      && (!none && h.kind == Response && !h.chunked && !h.hasContentLength ==>
            Turn(s) == Again(after.(apps := after.apps.(bodyUntilClose := true))))
  {
    hide HeadOf, Resync, IsHead, BodyOf, Incomplete;
    assert Shown(s.buf) == Window(s.buf);
    HeadMeans(Window(s.buf), h, behind);
    TurnAtHead(s);
  }
}
