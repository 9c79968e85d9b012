/**
 When a flag overtakes a response: an earlier poll took one flag for it and remembered part of
 its body, a later poll takes a set flag for the same response and ends it at its head, and
 the memory is left behind for whatever follows. Exactly which queues make that possible.
 */
module HttpOvertake {
  import opened Bytes
  import opened HttpText
  import opened HttpParser
  import opened HttpStability
  import opened HttpRoundTrip
  import opened HttpPoll
  import opened HttpResume
  import opened HttpFragments
  import opened HttpPipeline
  import opened HttpRepoll

  /** No set flag waits behind an unset one. */
  predicate Unmixed(p: seq<bool>) {
    forall i, j :: 0 <= i < j < |p| ==> p[j] ==> p[i]
  }

  lemma UnmixedTail(p: seq<bool>)
    requires Unmixed(p) && p != []
    ensures Unmixed(p[1..]) && (!p[0] && p[1..] != [] ==> !p[1..][0])
  {
  }

  /** What holds between turns while no flag overtakes. */
  predicate InStep(s: State) {
    Unmixed(s.peer) && Resumable(s) && !Overtakes(s)
  }

  /** With such a queue no flag ever overtakes, whatever the stream and the sizes. */
  lemma TurnStaysInStep(s: State)
    requires InStep(s)
    ensures InStep(Turn(s).s)
  {
    hide Turn, HeadOf, PrefixFits, ScanFits, Window, Unmixed, Resumable;
    TurnIsHonestExactly(s);
    if Answering(s) {
      UnmixedTail(s.peer);
    }
    if Flagged(s) {
      FlaggedTurn(s);
    } else {
      FlagsOnlyMatterWhenSet(s);
      if Remembers(Turn(s).s) {
        RememberingIsReading(Turn(s).s);
        if s.apps.skip > 0 || s.apps.bodyUntilClose {
          SkippingForgets(s);
        }
      }
    }
  }

  lemma {:induction false} PollStaysInStep(s: State)
    requires InStep(s)
    ensures InStep(Poll(s))
    decreases |s.buf|
  {
    hide Turn, InStep;
    TurnStaysInStep(s);
    if Turn(s).Again? {
      PollStaysInStep(Turn(s).s);
    }
  }

  lemma ArrivalStaysInStep(s: State, t: seq<byte>)
    requires InStep(s)
    ensures InStep(Plus(s, t))
  {
    hide HeadOf, Window, Unmixed, HeadIsBad, PrefixFits;
    ResumableExtends(s, t);
    if Remembers(s) {
      RememberedFront(s);
      AnsweringExtends(s, t);
    }
  }

  lemma FreshIsInStep(p: seq<bool>)
    requires Unmixed(p)
    ensures InStep(Fresh(p))
  {
  }

  lemma {:induction false} RunStaysInStep(s: State, fs: seq<seq<byte>>)
    requires InStep(s)
    ensures InStep(PollEach(s, fs))
    decreases |fs|
  {
    hide Poll, InStep;
    if fs != [] {
      ArrivalStaysInStep(s, fs[0]);
      PollStaysInStep(Plus(s, fs[0]));
      RunStaysInStep(Poll(Plus(s, fs[0])), fs[1..]);
    }
  }

  function ChunkedField(): Field {
    Field(Ascii("Transfer-Encoding"), Ascii("chunked"))
  }

  /** `HTTP/1.1 200`, chunked. */
  function ChunkedResponse(): Header {
    Header(Response, [], [], Ascii("HTTP/1.1"), 200, [], [ChunkedField()], false, 0, true)
  }

  /** `26 ;a HTTP/1.1`, chunked: a request head that is also the size line of a chunk of 38 octets and what is in it. */
  function Disguised(): Header {
    Header(Request, [50, 54], [59, 97], Ascii("HTTP/1.1"), 0, [], [ChunkedField()], false, 0, true)
  }

  lemma ChunkedFraming()
    ensures FramingOf([ChunkedField()]) == Good(Chunked)
  {
    FieldNamesDiffer();
    var fields := [ChunkedField()];
    assert fields[..0] == [];
    assert ContentLengths(fields) == [];
    assert TransferEncodings(fields) == [TrimOws(Ascii("chunked"))];
    assert Ascii("chunked") == [99, 104, 117, 110, 107, 101, 100];
    assert TrimOws(Ascii("chunked")) == Ascii("chunked");
  }

  lemma LettersAndHyphens(s: string)
    requires s != "" && forall i :: 0 <= i < |s| ==> 'a' <= s[i] <= 'z' || 'A' <= s[i] <= 'Z' || s[i] == '-'
    ensures IsToken(Ascii(s))
  {
    assert IsTokenChar(45) by {
      assert Ascii("!#$%&'*+-.^_`|~")[8] == 45;
    }
    forall c | c in Ascii(s)
      ensures IsTokenChar(c)
    {
      var i :| 0 <= i < |s| && Ascii(s)[i] == c;
    }
  }

  lemma LettersAreText(s: string)
    requires s != "" && forall i :: 0 <= i < |s| ==> 'a' <= s[i] <= 'z'
    ensures IsText(Ascii(s)) && IsTrimmed(Ascii(s))
  {
  }

  lemma ChunkedFieldIsWellFormed()
    ensures WellFormedField(ChunkedField()) && |FieldLine(ChunkedField())| == 26
  {
    hide IsToken, IsText, IsTrimmed;
    LettersAndHyphens("Transfer-Encoding");
    LettersAreText("chunked");
  }

  lemma HeadsAreWellFormed()
    ensures WellFormedHead(ChunkedResponse()) && WellFormedHead(Disguised())
    ensures StartLine(Disguised()) == [50, 54, 32, 59, 97, 32] + Ascii("HTTP/1.1")
    ensures |EncodeHead(ChunkedResponse())| == 45 && |EncodeHead(Disguised())| == 46
  {
    ChunkedFraming();
    ChunkedFieldIsWellFormed();
    hide WellFormedField, FramingOf, FieldLine;
    assert |StartLine(ChunkedResponse())| == 13;
    assert EncodeFields([ChunkedField()][1..]) == Line([]);
    assert |EncodeFields([ChunkedField()])| == 30;
  }

  function Eight(): seq<byte> {
    [120, 120, 120, 120, 120, 120, 120, 120]
  }

  /** The disguised head, eight octets and a line end: one whole chunk. */
  function DisguisedChunk(): (c: seq<byte>)
    ensures |c| == 56
  {
    HeadsAreWellFormed();
    EncodeHead(Disguised()) + (Eight() + Line([]))
  }

  /** The chunked response with the disguised chunk as the beginning of its body. */
  function Part(): (b: seq<byte>)
    ensures |b| == 101
  {
    HeadsAreWellFormed();
    EncodeHead(ChunkedResponse()) + DisguisedChunk()
  }

  lemma SizeInDisguise()
    ensures ChunkSizeOf([50, 54, 32, 59, 97, 32] + Ascii("HTTP/1.1")) == Some(38)
  {
    var line := [50, 54, 32, 59, 97, 32] + Ascii("HTTP/1.1");
    assert Find(line, SEMICOLON, 3) == 3;
    assert line[..3] == [50, 54, 32];
    assert [50, 54, 32][..2] == [50, 54];
    assert TrimRight([50, 54]) == [50, 54] == TrimRight([50, 54, 32]);
    assert [50, 54][..1] == [50] && [50][..0] == [];
    assert HexValue([50]) == 2 && HexValue([50, 54]) == 38;
  }

  lemma ChunkWithSize(line: seq<byte>, data: seq<byte>, rest: seq<byte>)
    requires CR !in line && ChunkSizeOf(line) == Some(|data|) && data != []
    ensures ChunkAt(Line(line) + (data + (Line([]) + rest))) == Chunk(data, rest)
  {
    hide ReadLine, ChunkSizeOf;
    var after := data + (Line([]) + rest);
    LineReadBack(line, after);
    assert after[|data|..] == Line([]) + rest && after[..|data|] == data;
    LineReadBack([], rest);
  }

  lemma ChunkInDisguise(rest: seq<byte>)
    ensures ChunkAt(DisguisedChunk() + rest).Chunk? && ChunkAt(DisguisedChunk() + rest).rest == rest
  {
    HeadsAreWellFormed();
    SizeInDisguise();
    var h := Disguised();
    RequestLineReadBack(h);
    hide ReadLine, ChunkSizeOf, StartLineOf, EncodeFields, FieldLine, StartLine, Disguised, ChunkAt;
    hide WellFormedHead, Line;
    var fields := EncodeFields(h.fields);
    assert |fields + Eight()| == 38 by { FieldsInDisguise(); }
    ChunkWithSize(StartLine(h), fields + Eight(), rest);
    Regrouped(Line(StartLine(h)), fields, Eight(), Line([]), rest);
  }

  lemma FieldsInDisguise()
    ensures |EncodeFields(Disguised().fields)| == 30
  {
    ChunkedFieldIsWellFormed();
    assert Disguised().fields[1..] == [];
  }

  lemma Regrouped(a: seq<byte>, b: seq<byte>, c: seq<byte>, d: seq<byte>, e: seq<byte>)
    ensures a + b + (c + d) + e == a + (b + c + (d + e))
  {
  }

  lemma NothingIsUnfinished()
    ensures BodyOf([]) == Partial(UnexpectedEof, 0)
    ensures forall d: seq<byte> :: BodyFrom([], 56, d) == Partial(UnexpectedEof, 56)
  {
  }

  lemma BodyInDisguise()
    ensures BodyOf(DisguisedChunk()) == Partial(UnexpectedEof, 56)
  {
    ChunkInDisguise([]);
    assert DisguisedChunk() + [] == DisguisedChunk();
    NothingIsUnfinished();
    hide ChunkAt, DisguisedChunk;
  }

  /** A head at the front of a short buffer is found. */
  lemma HeadAtFront(s: State, h: Header, rest: seq<byte>)
    requires WellFormedHead(h) && s.buf == EncodeHead(h) + rest && |s.buf| <= MAX_HTTP_HEADER_BYTES
    requires s.apps.skip == 0 && !s.apps.bodyUntilClose
    ensures AtHead(s) && HeadOf(Window(s.buf)).value == h && BodyStart(s.buf) == |EncodeHead(h)|
  {
    hide HeadOf, EncodeHead, WellFormedHead;
    assert Window(s.buf) == s.buf;
    HeadIsReadBack(h, rest);
  }

  lemma PartIsAtHead(s: State)
    requires s.buf == Part() && s.apps.skip == 0 && !s.apps.bodyUntilClose
    ensures AtHead(s) && HeadOf(Window(s.buf)).value == ChunkedResponse() && BodyStart(s.buf) == 45
  {
    HeadsAreWellFormed();
    hide HeadOf, EncodeHead, WellFormedHead, DisguisedChunk;
    HeadAtFront(s, ChunkedResponse(), DisguisedChunk());
  }

  lemma BodyInPart()
    ensures Part()[45..] == DisguisedChunk() && Part()[101..] == []
  {
    HeadsAreWellFormed();
    hide EncodeHead, WellFormedHead, DisguisedChunk;
  }

  /** Each poll of the unfinished response takes an unset flag and waits. */
  lemma PartTakesAFlag(s: State)
    requires s.buf == Part() && s.apps.skip == 0 && !s.apps.bodyUntilClose
    requires s.apps.chunkPrefix == 0 || s.apps.chunkPrefix == 56
    requires s.peer != [] && !s.peer[0]
    ensures Turn(s) == Wait(s.(apps := s.apps.(chunkPrefix := 56), peer := s.peer[1..]))
    ensures Poll(s) == Turn(s).s
  {
    PartIsAtHead(s);
    BodyInDisguise();
    NothingIsUnfinished();
    BodyInPart();
    hide HeadOf, Window, BodyOf, Turn, Resync, DisguisedChunk, Part, AtHead;
    TurnAtHead(s);
  }

  predicate SomeSet(p: seq<bool>) {
    exists i :: 0 <= i < |p| && p[i]
  }

  /** Polling on without anything new takes the unset flags away, until a set one overtakes. */
  lemma {:induction false} PollingOnOvertakes(s: State) returns (fs: seq<seq<byte>>)
    requires s.buf == Part() && s.apps.skip == 0 && !s.apps.bodyUntilClose && s.apps.chunkPrefix == 56
    requires SomeSet(s.peer)
    ensures Overtakes(PollEach(s, fs))
    decreases |s.peer|
  {
    if s.peer[0] {
      fs := [];
      PartIsAtHead(s);
    } else {
      PartTakesAFlag(s);
      hide Poll, Turn, Part, Overtakes;
      assert Plus(s, []) == s;
      SetBehind(s.peer);
      var r := s.(apps := s.apps.(chunkPrefix := 56), peer := s.peer[1..]);
      var more := PollingOnOvertakes(r);
      fs := [[]] + more;
      assert fs[1..] == more;
    }
  }

  lemma SetBehind(p: seq<bool>)
    requires SomeSet(p) && !p[0]
    ensures SomeSet(p[1..])
  {
    var i :| 0 <= i < |p| && p[i];
    assert p[1..][i - 1];
  }

  lemma {:induction false} FindOvertaking(s: State) returns (fs: seq<seq<byte>>)
    requires Idle(s) && s.buf == [] && !Unmixed(s.peer)
    ensures Overtakes(PollEach(s, fs))
    decreases |s.peer|
  {
    var i, j :| 0 <= i < j < |s.peer| && s.peer[j] && !s.peer[i];
    if s.peer[0] {
      var m := Message(ChunkedResponse(), Plain([]));
      HeadsAreWellFormed();
      hide Poll, Turn, EncodeHead, Overtakes, WellFormedHead;
      var head := EncodeHead(m.head);
      var s1 := Having(s, m);
      HavingIsIdle(s, m);
      HeadEndsIt(s, m, []);
      assert head + [] == head && Plus(s1, []) == s1;
      EmptyPoll(s1);
      assert s.peer[1..][j - 1] && !s.peer[1..][i - 1];
      var more := FindOvertaking(s1);
      fs := [head] + more;
      assert fs[1..] == more;
    } else {
      var part := Plus(s, Part());
      assert part.buf == Part();
      PartTakesAFlag(part);
      assert s.peer[1..][j - 1];
      hide Poll, Turn, Part, Overtakes;
      var more := PollingOnOvertakes(Poll(part));
      fs := [Part()] + more;
      assert fs[1..] == more;
    }
  }

  /**
   Exactly which queues make overtaking possible: those in which a set flag waits behind an
   unset one. With any other queue no flag overtakes in any run, whatever is received.
   */
  lemma OvertakingExactly(p: seq<bool>)
    ensures (exists fs :: Overtakes(PollEach(Fresh(p), fs))) <==> !Unmixed(p)
  {
    hide Poll, PollEach, Overtakes, Part, Resumable;
    if Unmixed(p) {
      FreshIsInStep(p);
      forall fs
        ensures !Overtakes(PollEach(Fresh(p), fs))
      {
        RunStaysInStep(Fresh(p), fs);
      }
    } else {
      var fs := FindOvertaking(Fresh(p));
    }
  }

  /**
   What overtaking leads to: after it the disguised chunk is read as a request head, and its
   body would be resumed beyond the end of the buffer.
   */
  lemma ResumesOutside()
    ensures var s := Poll(Plus(Fresh([false, true]), Part()));
      && Resumable(s) && Overtakes(s)
      && !Resumable(Turn(s).s) && !ResumesInside(Turn(s).s)
  {
    var part := Plus(Fresh([false, true]), Part());
    assert part.buf == Part();
    PartTakesAFlag(part);
    IdleIsResumable(part);
    TurnIsHonestExactly(part);
    hide Turn, Poll, Resumable, HeadOf, Part, AtHead, ResumesInside, Overtakes;
    Overtaken(Poll(part));
    if Resumable(Turn(Poll(part)).s) {
      ResumableIsInside(Turn(Poll(part)).s);
    }
  }

  lemma IdleIsResumable(s: State)
    requires Idle(s)
    ensures Resumable(s) && !Overtakes(s)
  {
  }

  /** The set flag ends the response at its head; the prefix stays and points behind the end of the buffer. */
  lemma Overtaken(s: State)
    requires s.buf == Part() && s.apps.skip == 0 && !s.apps.bodyUntilClose && s.apps.chunkPrefix == 56
    requires s.peer != [] && s.peer[0]
    ensures Overtakes(s) && Turn(s).Again? && !ResumesInside(Turn(s).s)
    ensures var r := Turn(s).s;
      r.buf == DisguisedChunk() && r.apps.chunkPrefix == 56 && r.apps.skip == 0 && !r.apps.bodyUntilClose
  {
    PartIsAtHead(s);
    BodyInPart();
    hide Turn, HeadOf, Part, DisguisedChunk, Window, AtChunkedBody;
    FlaggedTurn(s);
    assert DisguisedChunk() + [] == DisguisedChunk();
    DisguisedIsAtHead(Turn(s).s, []);
  }

  lemma DisguisedIsAtHead(s: State, t: seq<byte>)
    requires s.apps.skip == 0 && !s.apps.bodyUntilClose && s.buf == DisguisedChunk() + t
    requires |t| <= 1000
    ensures AtHead(s) && AtChunkedBody(s.buf) && BodyStart(s.buf) == 46 && !Answering(s)
    ensures HeadOf(Window(s.buf)).value == Disguised()
  {
    HeadsAreWellFormed();
    hide HeadOf, EncodeHead, WellFormedHead, Line, Window;
    assert s.buf == EncodeHead(Disguised()) + (Eight() + Line([]) + t);
    HeadAtFront(s, Disguised(), Eight() + Line([]) + t);
  }
}
