/**
 The decoder's limits. The one on the size of a message is a condition of fragmentation
 independence: a message that is too large to wait for is given up or not depending on how it
 arrives. Those on heads and on waiting flags hold however it arrives.
 */
module HttpLimit {
  import opened Bytes
  import opened HttpText
  import opened HttpParser
  import opened HttpStability
  import opened HttpRoundTrip
  import opened HttpResync
  import opened HttpPoll
  import opened HttpResume
  import opened HttpFragments
  import opened HttpPipeline
  import opened HttpRepoll
  import opened HttpOvertake

  lemma {:induction false} FailuresNeverShrink(s: State)
    ensures Poll(s).apps.decodeFailures >= s.apps.decodeFailures
    decreases |s.buf|
  {
    TurnFailuresGrow(s);
    hide Turn;
    if Turn(s).Again? {
      FailuresNeverShrink(Turn(s).s);
    }
  }

  lemma TurnFailuresGrow(s: State)
    ensures Turn(s).s.apps.decodeFailures >= s.apps.decodeFailures
  {
    hide HeadOf, Resync, WithHead, Window;
    ResyncFailuresGrow(s);
    if AtHead(s) {
      TurnAtHead(s);
      HeadFailuresGrow(s, HeadOf(Window(s.buf)).value, BodyStart(s.buf));
    }
  }

  lemma ResyncFailuresGrow(s: State)
    ensures Resync(s).s.apps.decodeFailures >= s.apps.decodeFailures
  {
    hide ResyncOf;
  }

  lemma HeadFailuresGrow(s: State, h: Header, start: nat)
    requires 0 < start <= |s.buf|
    ensures WithHead(s, h, start).s.apps.decodeFailures >= s.apps.decodeFailures
  {
    hide BodyOf, ResyncOf;
  }

  /**
   The limit is needed: any chunked message that is cut when more than 8 MiB of it
   have arrived is given up, but is decoded when it arrives at once.
   */
  lemma OversizeChunkedIsCutShort(s: State, m: Message, k: nat)
    requires Ready(s) && Proper(m, AnswersHead(s.peer, m.head)) && m.body.InChunks?
    requires 0x80_0000 < k < |Wire(m)|
    ensures Together(s, m) == Having(s, m)
    ensures Apart(s, m, k).apps.decodeFailures > s.apps.decodeFailures
  {
    hide Poll, Turn, EncodeHead, WellFormedHead, Remember, EncodeChunks, BodyBytes;
    var x, y := Wire(m)[..k], Wire(m)[k..];
    var full, part := Plus(s, Wire(m)), Plus(s, x);
    assert full.buf == Wire(m) + [] && part.buf == x && x + y == Wire(m);
    MessageTurn(full, m, []);
    EmptyPoll(Turn(full).s);
    TurnThenPoll(full);
    PartIsGivenUp(part, m, y);
    TurnThenPoll(part);
    FailuresNeverShrink(Turn(part).s);
    FailuresNeverShrink(Plus(Poll(part), y));
  }

  lemma PartIsGivenUp(s: State, m: Message, y: seq<byte>)
    requires Idle(s) && Proper(m, AnswersHead(s.peer, m.head)) && m.body.InChunks?
    requires s.buf + y == Wire(m) && y != [] && |s.buf| > MAX_HTTP_MESSAGE_BYTES
    ensures Turn(s).Again? && Turn(s).s.apps.decodeFailures == s.apps.decodeFailures + 1
  {
    hide HeadOf, EncodeHead, WellFormedHead, EncodeChunks, BodyFrom, HeadIsBad, Window, Turn, ResyncOf;
    HeadIsEnough(m, s.buf, y);
    WindowExtends(s.buf, y);
    HeadIsFound(m, []);
    assert Wire(m) + [] == s.buf + y;
    PartHasBody(m, s.buf, y);
    TurnAtHead(s);
    PartOfChunks(m.body.chunks, s.buf[BodyStart(s.buf)..], y);
  }

  lemma {:induction false} SkippedNeverShrink(s: State)
    ensures Poll(s).apps.bodiesSkipped >= s.apps.bodiesSkipped
    decreases |s.buf|
  {
    TurnSkippedGrow(s);
    hide Turn;
    if Turn(s).Again? {
      SkippedNeverShrink(Turn(s).s);
    }
  }

  lemma TurnSkippedGrow(s: State)
    ensures Turn(s).s.apps.bodiesSkipped >= s.apps.bodiesSkipped
  {
    hide HeadOf, Resync, WithHead, Window;
    ResyncSkipsNothing(s);
    if AtHead(s) {
      TurnAtHead(s);
      HeadSkippedGrow(s, HeadOf(Window(s.buf)).value, BodyStart(s.buf));
    }
  }

  lemma ResyncSkipsNothing(s: State)
    ensures Resync(s).s.apps.bodiesSkipped == s.apps.bodiesSkipped
  {
    hide ResyncOf;
  }

  lemma HeadSkippedGrow(s: State, h: Header, start: nat)
    requires 0 < start <= |s.buf|
    ensures WithHead(s, h, start).s.apps.bodiesSkipped >= s.apps.bodiesSkipped
  {
    hide BodyOf, ResyncOf;
  }

  /** A message with a body that is not chunked, cut above the limit, has its body skipped. */
  lemma PartIsSkipped(s: State, m: Message, y: seq<byte>)
    requires Idle(s) && Proper(m, AnswersHead(s.peer, m.head)) && m.body.Plain?
    requires s.buf + y == Wire(m) && y != [] && |s.buf| > MAX_HTTP_MESSAGE_BYTES
    ensures Turn(s).Again? && Turn(s).s.apps.bodiesSkipped == s.apps.bodiesSkipped + 1
  {
    hide HeadOf, EncodeHead, WellFormedHead, BodyFrom, HeadIsBad, Window, Turn, ResyncOf;
    HeadIsEnough(m, s.buf, y);
    WindowExtends(s.buf, y);
    HeadIsFound(m, []);
    assert Wire(m) + [] == s.buf + y;
    PartHasBody(m, s.buf, y);
    TurnAtHead(s);
    assert |s.buf[BodyStart(s.buf)..]| < |BodyBytes(m.body)|;
  }

  /** A message that arrives at once is read whole, whatever its size. */
  lemma TogetherIsRead(s: State, m: Message)
    requires Ready(s) && Proper(m, AnswersHead(s.peer, m.head))
    ensures Together(s, m) == Having(s, m)
  {
    hide Poll, Turn, EncodeHead, WellFormedHead, Remember, BodyFits, BodyBytes;
    var full := Plus(s, Wire(m));
    assert full.buf == Wire(m) + [];
    MessageTurn(full, m, []);
    EmptyPoll(Turn(full).s);
    TurnThenPoll(full);
  }

  /** The body of a chunked message, from its remembered prefix, is whole and ends the buffer. */
  lemma RestOfChunks(s: State, m: Message)
    requires Resumable(s) && Writable(m) && s.buf == Wire(m)
    requires m.head.chunked && !BodyForbidden(m.head) && BodyFits(m, false)
    ensures HeadOf(Window(s.buf)).Got? && HeadOf(Window(s.buf)).value == m.head
    ensures var from := BodyStart(s.buf) + s.apps.chunkPrefix;
      0 < BodyStart(s.buf) && from <= |s.buf| && BodyOf(s.buf[from..]).Whole? && BodyOf(s.buf[from..]).rest == []
  {
    hide HeadOf, EncodeHead, WellFormedHead, BodyFrom, Window, EncodeChunks, Resumable;
    HeadIsFound(m, []);
    assert Wire(m) + [] == Wire(m);
    PrefixDoesNotMatter(s);
    ChunksReadBack(m.body.chunks, [], 0, []);
  }

  /** Whatever a wait has remembered of a chunked message, the whole message is then read. */
  lemma ChunksAreReadOn(s: State, m: Message)
    requires Resumable(s) && Writable(m) && s.buf == Wire(m) && s.apps.skip == 0 && !s.apps.bodyUntilClose
    requires m.head.chunked && !BodyForbidden(m.head) && BodyFits(m, false)
    requires !AnswersHead(s.peer, m.head)
    ensures Turn(s).Again? && Turn(s).s.buf == []
    ensures Turn(s).s == Having(s.(apps := s.apps.(chunkPrefix := 0)), m).(buf := [])
  {
    hide HeadOf, Wire, Writable, BodyOf, Window, Turn, WithHead, BodyFits, Resumable, Having, AnswersHead;
    RestOfChunks(s, m);
    TurnAtHead(s);
    ReadsToTheEnd(s, m, BodyStart(s.buf));
  }

  lemma ReadsToTheEnd(s: State, m: Message, start: nat)
    requires 0 < start && start + s.apps.chunkPrefix <= |s.buf|
    requires m.head.chunked && !BodyForbidden(m.head) && !AnswersHead(s.peer, m.head)
    requires BodyOf(s.buf[start + s.apps.chunkPrefix..]).Whole?
    requires BodyOf(s.buf[start + s.apps.chunkPrefix..]).rest == []
    ensures WithHead(s, m.head, start) == Again(Having(s.(apps := s.apps.(chunkPrefix := 0)), m).(buf := []))
  {
    hide BodyOf, Resync, Incomplete;
    assert s.buf[|s.buf|..] == [];
  }

  /** What a wait within the limit changes: the flag is taken once the head is there, and a prefix may be remembered. */
  lemma WaitRemembersPrefix(s: State, m: Message, y: seq<byte>)
    requires Proper(m, AnswersHead(s.peer, m.head)) && Idle(s) && s.buf + y == Wire(m) && y != []
    requires |s.buf| <= MAX_HTTP_MESSAGE_BYTES
    ensures var r := Turn(s).s;
      && Turn(s).Wait?
      && r == s.(peer := r.peer, apps := s.apps.(chunkPrefix := r.apps.chunkPrefix))
      && (r == s || (r.peer == QueueAfter(s.peer, m.head) && !AnswersHead(s.peer, m.head)))
      && (r.apps.chunkPrefix > 0 ==> m.head.chunked && !BodyForbidden(m.head) && !AnswersHead(s.peer, m.head))
  {
    hide HeadOf, EncodeHead, WellFormedHead, BodyBytes, HeadIsBad, Window, WithHead, QueueAfter, BodyFits;
    PartWaits(s, m, y);
    HeadIsFound(m, []);
    assert Wire(m) + [] == s.buf + y;
    WindowExtends(s.buf, y);
    if AtHead(s) {
      PartHasBody(m, s.buf, y);
      BodyIsUnflagged(m, AnswersHead(s.peer, m.head));
      TurnAtHead(s);
      AwaitsWithPrefix(s, m, BodyStart(s.buf), y);
    } else {
      HeadGotIsNotBad(s.buf + y);
      UnfinishedWaits(s);
    }
  }

  lemma BodyIsUnflagged(m: Message, answersHead: bool)
    requires BodyFits(m, answersHead) && BodyBytes(m.body) != []
    ensures !answersHead
  {
  }

  lemma AwaitsWithPrefix(s: State, m: Message, start: nat, y: seq<byte>)
    requires BodyFits(m, AnswersHead(s.peer, m.head)) && Idle(s) && 0 < start <= |s.buf|
    requires s.buf[start..] + y == BodyBytes(m.body) && y != [] && |s.buf| <= MAX_HTTP_MESSAGE_BYTES
    ensures var r := WithHead(s, m.head, start).s;
      && r == s.(peer := QueueAfter(s.peer, m.head), apps := s.apps.(chunkPrefix := r.apps.chunkPrefix))
      && (r.apps.chunkPrefix > 0 ==> m.head.chunked && !BodyForbidden(m.head) && !AnswersHead(s.peer, m.head))
  {
    hide EncodeChunks, BodyFrom, Resync;
    assert |s.buf[start..]| < |BodyBytes(m.body)|;
    if m.head.chunked && !BodyForbidden(m.head) && !AnswersHead(s.peer, m.head) {
      PartOfChunks(m.body.chunks, s.buf[start..], y);
    }
  }

  /** A cut within the limit changes nothing, however large the message is. */
  lemma CutWithinLimit(s: State, m: Message, k: nat)
    requires Ready(s) && Proper(m, AnswersHead(s.peer, m.head)) && k < |Wire(m)| && k <= MAX_HTTP_MESSAGE_BYTES
    ensures Apart(s, m, k) == Having(s, m)
  {
    hide Poll, Turn, EncodeHead, WellFormedHead, Remember, BodyBytes, BodyFits, Wire;
    var x, y := Wire(m)[..k], Wire(m)[k..];
    var part := Plus(s, x);
    assert part.buf == x && x + y == Wire(m);
    PartWaits(part, m, y);
    WaitRemembersPrefix(part, m, y);
    ReadyIsSettled(s, x, []);
    TurnStaysEngaged(part);
    var r := Turn(part).s;
    var next := Plus(r, y);
    assert next.buf == Wire(m);
    ResumableExtends(r, y);
    if r == part {
      assert next == Plus(s, Wire(m));
      TogetherIsRead(s, m);
    } else {
      HavingAfterWait(s, m, next);
      if r.apps.chunkPrefix > 0 {
        ChunksAreReadOn(next, m);
      } else {
        assert next.buf == Wire(m) + [];
        MessageTurn(next, m, []);
      }
      EmptyPoll(Turn(next).s);
      TurnThenPoll(next);
    }
  }

  lemma HavingAfterWait(s: State, m: Message, next: State)
    requires Ready(s) && !AnswersHead(s.peer, m.head)
    requires next.peer == QueueAfter(s.peer, m.head)
    requires next.apps == s.apps.(chunkPrefix := next.apps.chunkPrefix)
    ensures !AnswersHead(next.peer, m.head)
    ensures Having(next.(apps := next.apps.(chunkPrefix := 0)), m).(buf := []) == Having(s, m)
  {
    if s.peer != [] {
      CalmTail(s.peer);
    }
    assert next.apps.(chunkPrefix := 0) == s.apps;
  }

  /**
   Exactly when a cut inside a message matters because of its size: a message polled in two
   parts ends in the same state as polled at once if and only if the first part fits the
   limit. The message may have any size and any kind of body, and any queue for which the cut
   would not matter otherwise may wait.
   */
  lemma CutMattersAboveLimit(s: State, m: Message, k: nat)
    requires Ready(s) && Proper(m, AnswersHead(s.peer, m.head)) && k < |Wire(m)|
    ensures Apart(s, m, k) == Together(s, m) <==> k <= 0x80_0000
  {
    hide Poll, Turn, EncodeHead, WellFormedHead, Remember, BodyBytes, BodyFits, Wire, Having;
    TogetherIsRead(s, m);
    if k <= 0x80_0000 {
      CutWithinLimit(s, m, k);
    } else if m.body.InChunks? {
      OversizeChunkedIsCutShort(s, m, k);
      HavingCounts(s, m);
    } else {
      OversizePlainIsSkipped(s, m, k);
      HavingCounts(s, m);
    }
  }

  lemma HavingCounts(s: State, m: Message)
    ensures Having(s, m).apps.decodeFailures == s.apps.decodeFailures
    ensures Having(s, m).apps.bodiesSkipped == s.apps.bodiesSkipped
  {
  }

  lemma OversizePlainIsSkipped(s: State, m: Message, k: nat)
    requires Ready(s) && Proper(m, AnswersHead(s.peer, m.head)) && m.body.Plain?
    requires 0x80_0000 < k < |Wire(m)|
    ensures Apart(s, m, k).apps.bodiesSkipped > s.apps.bodiesSkipped
  {
    hide Poll, Turn, EncodeHead, WellFormedHead, Remember, BodyBytes;
    var x, y := Wire(m)[..k], Wire(m)[k..];
    var part := Plus(s, x);
    assert part.buf == x && x + y == Wire(m);
    PartIsSkipped(part, m, y);
    TurnThenPoll(part);
    SkippedNeverShrink(Turn(part).s);
    SkippedNeverShrink(Plus(Poll(part), y));
  }

  /** A chunked request with one chunk that alone exceeds the limit. */
  function Upload(): Message {
    Message(Disguised(), InChunks([seq(MAX_HTTP_MESSAGE_BYTES + 1, _ => 0)]))
  }

  lemma UploadIsProper()
    ensures Proper(Upload(), false) && Upload().head.kind == Request
    ensures |Wire(Upload())| > MAX_HTTP_MESSAGE_BYTES + 1
  {
    HeadsAreWellFormed();
    hide WellFormedHead, EncodeHead, Hex;
    var c := Upload().body.chunks;
    assert |EncodeChunks(c)| > |c[0]|;
  }

  /** Two ways of cutting one upload that end differently, from a fresh decoder with an empty queue. */
  lemma LimitIsNeeded()
    ensures Writable(Upload()) && |Wire(Upload())| > MAX_HTTP_MESSAGE_BYTES + 1
    ensures var w := Wire(Upload());
      var fs, gs := [w[..MAX_HTTP_MESSAGE_BYTES + 1], w[MAX_HTTP_MESSAGE_BYTES + 1..]], [w];
      Concat(fs) == Concat(gs) && PollEach(Fresh([]), fs) != PollEach(Fresh([]), gs)
  {
    UploadIsProper();
    var m, k := Upload(), MAX_HTTP_MESSAGE_BYTES + 1;
    hide Upload, Poll, Wire, BodyFits;
    OversizeChunkedIsCutShort(Fresh([]), m, k);
    HavingAllHeads(Fresh([]), [m]);
    var w := Wire(m);
    PollTwo(Fresh([]), w[..k], w[k..]);
    PollOne(Fresh([]), w);
    assert w[..k] + w[k..] == w;
  }

  /**
   A head longer than 32768 octets: while no more than that has arrived it is waited for, and
   from then on it is given up, whatever follows.
   */
  lemma LongHeadIsGivenUp(s: State, h: Header, rest: seq<byte>)
    requires s.apps.skip == 0 && !s.apps.bodyUntilClose
    requires WellFormedHead(h) && |EncodeHead(h)| > 32768 && s.buf <= EncodeHead(h) + rest
    ensures Turn(s) == if |s.buf| <= 32768 then Wait(s) else Resync(s)
  {
    hide EncodeHead, WellFormedHead, HeadOf, Resync, WithHead;
    var w := Window(s.buf);
    var y := EncodeHead(h)[|w|..];
    assert w == EncodeHead(h)[..|w|] && w + y == EncodeHead(h) && EncodeHead(h) + [] == w + y;
    HeadIsReadBack(h, []);
    HeadExtends(w, y);
  }

  /** A request queues whether its method is HEAD, spelled in octets, while fewer than 1024 wait; nothing else does. */
  lemma RememberMeans(a: Apps, h: Header)
    ensures Remember(a, h) ==
            if h.kind == Request && |a.pendingHead| < 1024
            then a.(pendingHead := a.pendingHead + [h.methodName == [72, 69, 65, 68]]) else a
  {
    assert Ascii("HEAD") == [72, 69, 65, 68];
  }

  lemma ResyncKeepsFlags(s: State)
    ensures Resync(s).s.apps.pendingHead == s.apps.pendingHead
  {
  }

  lemma HeadKeepsBound(s: State, h: Header, start: nat)
    requires |s.apps.pendingHead| <= 1024 && 0 < start <= |s.buf|
    ensures |WithHead(s, h, start).s.apps.pendingHead| <= 1024
  {
    hide BodyOf, Resync, BodyForbidden;
    var s1 := if Answers(s, h) then s.(peer := s.peer[1..]) else s;
    ResyncKeepsFlags(s1);
    match BodyOf(s.buf[Min(start + s.apps.chunkPrefix, |s.buf|)..]) {
      case Partial(_, n) => ResyncKeepsFlags(s1.(apps := s1.apps.(chunkPrefix := s1.apps.chunkPrefix + n)));
      case Whole(_, _) =>
    }
  }

  lemma TurnKeepsBound(s: State)
    requires |s.apps.pendingHead| <= 1024
    ensures |Turn(s).s.apps.pendingHead| <= 1024
  {
    hide HeadOf, Window, HeadIsBad, WithHead, Resync;
    ResyncKeepsFlags(s);
    if AtHead(s) {
      TurnAtHead(s);
      HeadKeepsBound(s, HeadOf(Window(s.buf)).value, BodyStart(s.buf));
    }
  }

  /** However much is read, at most 1024 flags wait. */
  lemma {:induction false} FlagsAreBounded(s: State)
    requires |s.apps.pendingHead| <= 1024
    ensures |Poll(s).apps.pendingHead| <= 1024
    decreases |s.buf|
  {
    TurnKeepsBound(s);
    hide Turn;
    if Turn(s).Again? {
      FlagsAreBounded(Turn(s).s);
    }
  }
}
