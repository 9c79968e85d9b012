/** A stream of well-formed messages, cut anywhere, is decoded into exactly those messages. */
module HttpPipeline {
  import opened Bytes
  import opened HttpText
  import opened HttpParser
  import opened HttpStability
  import opened HttpRoundTrip
  import opened HttpPoll
  import opened HttpResume
  import opened HttpFragments

  /** A body on the wire: as it is, or in chunks. */
  datatype WireBody = Plain(bytes: seq<byte>) | InChunks(chunks: seq<seq<byte>>)

  datatype Message = Message(head: Header, body: WireBody)

  function BodyBytes(b: WireBody): seq<byte> {
    match b
    case Plain(bytes) => bytes
    case InChunks(chunks) => EncodeChunks(chunks)
  }

  /** The head can be written and fits the parser's window. */
  predicate Writable(m: Message) {
    WellFormedHead(m.head) && |EncodeHead(m.head)| <= 32768
  }

  /** A response that takes a flag from the other direction's queue. */
  predicate IsFinal(h: Header) {
    h.kind == Response && h.statusCode >= 200
  }

  /** The message answers a HEAD, by the first waiting flag. */
  predicate AnswersHead(p: seq<bool>, h: Header) {
    IsFinal(h) && p != [] && p[0]
  }

  function QueueAfter(p: seq<bool>, h: Header): seq<bool> {
    if IsFinal(h) && p != [] then p[1..] else p
  }

  /** A response that never has a body: interim, no content, or not modified. */
  predicate NeverHasBody(h: Header) {
    h.kind == Response && (h.statusCode / 100 == 1 || h.statusCode == 204 || h.statusCode == 304)
  }

  /**
   The body is the one its head announces, none if the message answers a HEAD; a response
   that lasts until close is not among them.
   */
  predicate BodyFits(m: Message, answersHead: bool) {
    if NeverHasBody(m.head) || answersHead then m.body == Plain([])
    else if m.head.chunked then m.body.InChunks? && forall c :: c in m.body.chunks ==> 0 < |c| <= MAX_U64
    else if m.head.hasContentLength then m.body.Plain? && |m.body.bytes| == m.head.contentLength
    else m.head.kind == Request && m.body == Plain([])
  }

  predicate Proper(m: Message, answersHead: bool) {
    Writable(m) && BodyFits(m, answersHead)
  }

  /** Well-formed messages for which the flags `p` are waiting. */
  predicate AllProper(ms: seq<Message>, p: seq<bool>)
    decreases |ms|
  {
    ms != [] ==>
      Proper(ms[0], AnswersHead(p, ms[0].head)) && AllProper(ms[1..], QueueAfter(p, ms[0].head))
  }

  function Wire(m: Message): seq<byte>
    requires Writable(m)
  {
    EncodeHead(m.head) + BodyBytes(m.body)
  }

  function WireAll(ms: seq<Message>): seq<byte>
    requires forall m :: m in ms ==> Writable(m)
  {
    if ms == [] then [] else Wire(ms[0]) + WireAll(ms[1..])
  }

  function Heads(ms: seq<Message>): seq<Header> {
    seq(|ms|, i requires 0 <= i < |ms| => ms[i].head)
  }

  /** Nothing is half read. */
  predicate Idle(s: State) {
    s.apps.skip == 0 && !s.apps.bodyUntilClose && !Remembers(s)
  }

  /** The state once the message has been read. */
  function Having(s: State, m: Message): State {
    s.(apps := Remember(s.apps, m.head).(messages := s.apps.messages + [m.head]),
       peer := QueueAfter(s.peer, m.head))
  }

  function HavingAll(s: State, ms: seq<Message>): State
    decreases |ms|
  {
    if ms == [] then s else HavingAll(Having(s, ms[0]), ms[1..])
  }

  /** What having read all messages amounts to. */
  lemma {:induction false} HavingAllHeads(s: State, ms: seq<Message>)
    ensures var r := HavingAll(s, ms);
      && r.apps.messages == s.apps.messages + Heads(ms) && r.buf == s.buf
      && r.apps.decodeFailures == s.apps.decodeFailures && r.apps.bodiesSkipped == s.apps.bodiesSkipped
      && (Idle(s) ==> Idle(r))
    decreases |ms|
  {
    if ms == [] {
      assert s.apps.messages + Heads(ms) == s.apps.messages;
    } else {
      HavingAllHeads(Having(s, ms[0]), ms[1..]);
      assert s.apps.messages + [ms[0].head] + Heads(ms[1..]) == s.apps.messages + Heads(ms);
    }
  }

  /** The head of a message at the front is found whole, with the body right behind it. */
  lemma HeadIsFound(m: Message, rest: seq<byte>)
    requires Writable(m)
    ensures var buf := Wire(m) + rest;
      && HeadOf(Window(buf)).Got? && HeadOf(Window(buf)).value == m.head
      && BodyStart(buf) == |EncodeHead(m.head)|
      && buf[|EncodeHead(m.head)|..] == BodyBytes(m.body) + rest
  {
    hide HeadOf, EncodeHead, WellFormedHead, BodyBytes;
    var head, behind := EncodeHead(m.head), BodyBytes(m.body) + rest;
    var buf := Wire(m) + rest;
    assert buf == head + behind;
    var w := Window(buf);
    assert w == head + w[|head|..];
    HeadIsReadBack(m.head, w[|head|..]);
  }

  lemma TurnAtHead(s: State)
    requires AtHead(s)
    ensures 0 < BodyStart(s.buf) <= |s.buf|
    ensures Turn(s) == WithHead(s, HeadOf(Window(s.buf)).value, BodyStart(s.buf))
  {
    hide HeadOf, WithHead, Window;
    WindowExtends(s.buf, []);
  }

  /** A chunked body right behind the head is read whole. */
  lemma ReadsChunks(s: State, m: Message, start: nat, rest: seq<byte>)
    requires m.head.chunked && !BodyForbidden(m.head) && !AnswersHead(s.peer, m.head) && BodyFits(m, false)
    requires Idle(s) && 0 < start <= |s.buf| && s.buf[start..] == BodyBytes(m.body) + rest
    ensures WithHead(s, m.head, start) == Again(Having(s, m).(buf := rest))
  {
    hide EncodeChunks, BodyFrom, Resync, Incomplete;
    ChunksReadBack(m.body.chunks, rest, 0, []);
    assert s.buf[|s.buf| - |rest|..] == rest by {
      assert s.buf[start..][|BodyBytes(m.body)|..] == rest;
    }
  }

  lemma ReadsBody(s: State, m: Message, start: nat, rest: seq<byte>)
    requires BodyFits(m, AnswersHead(s.peer, m.head)) && Idle(s) && 0 < start <= |s.buf|
    requires s.buf[start..] == BodyBytes(m.body) + rest
    ensures WithHead(s, m.head, start) == Again(Having(s, m).(buf := rest))
  {
    hide EncodeChunks, BodyFrom, Resync, Incomplete;
    if m.head.chunked && !BodyForbidden(m.head) && !AnswersHead(s.peer, m.head) {
      ReadsChunks(s, m, start, rest);
    } else {
      assert s.buf[start + |BodyBytes(m.body)|..] == rest by {
        assert s.buf[start..][|BodyBytes(m.body)|..] == rest;
      }
      if BodyBytes(m.body) == [] {
        assert s.buf[start..] == rest;
      }
    }
  }

  /** One turn reads one message and leaves what follows it. */
  lemma MessageTurn(s: State, m: Message, rest: seq<byte>)
    requires Proper(m, AnswersHead(s.peer, m.head)) && Idle(s) && s.buf == Wire(m) + rest
    ensures Turn(s) == Again(Having(s, m).(buf := rest))
  {
    hide HeadOf, EncodeHead, BodyFits, BodyBytes, WithHead, Turn, Window, Having;
    HeadIsFound(m, rest);
    TurnAtHead(s);
    ReadsBody(s, m, |EncodeHead(m.head)|, rest);
  }

  /** A chunked body that is not all there lacks bytes and nothing else. */
  lemma PartOfChunks(chunks: seq<seq<byte>>, x: seq<byte>, y: seq<byte>)
    requires forall c :: c in chunks ==> 0 < |c| <= MAX_U64
    requires x + y == EncodeChunks(chunks) && y != []
    ensures BodyOf(x).Partial? && BodyOf(x).error == UnexpectedEof
  {
    hide BodyFrom, EncodeChunks;
    ChunksReadBack(chunks, [], 0, []);
    assert EncodeChunks(chunks) + [] == x + y;
    BodyExtends(x, y, 0, []);
  }

  lemma AwaitsBody(s: State, m: Message, start: nat, y: seq<byte>)
    requires BodyFits(m, AnswersHead(s.peer, m.head)) && Idle(s) && 0 < start <= |s.buf|
    requires s.buf[start..] + y == BodyBytes(m.body) && y != [] && |s.buf| <= MAX_HTTP_MESSAGE_BYTES
    ensures var t := WithHead(s, m.head, start);
      t.Wait? && t.s.buf == s.buf && t.s.apps.messages == s.apps.messages && t.s.peer == QueueAfter(s.peer, m.head)
  {
    hide EncodeChunks, BodyFrom, Resync;
    assert |s.buf[start..]| < |BodyBytes(m.body)|;
    if m.head.chunked && !BodyForbidden(m.head) && !AnswersHead(s.peer, m.head) {
      PartOfChunks(m.body.chunks, s.buf[start..], y);
    }
  }

  /** A message that is not all there waits, with the buffer as it is; its flag is gone if its head is there. */
  lemma PartWaits(s: State, m: Message, y: seq<byte>)
    requires Proper(m, AnswersHead(s.peer, m.head)) && Idle(s) && s.buf + y == Wire(m) && y != []
    requires |s.buf| <= MAX_HTTP_MESSAGE_BYTES
    ensures Turn(s).Wait? && Turn(s).s.buf == s.buf && Poll(s) == Turn(s).s
    ensures Turn(s).s.apps.messages == s.apps.messages
    ensures |EncodeHead(m.head)| <= |s.buf| ==> Turn(s).s.peer == QueueAfter(s.peer, m.head)
  {
    hide HeadOf, EncodeHead, WellFormedHead, BodyFits, BodyBytes, HeadIsBad, Window, WithHead, QueueAfter;
    HeadIsFound(m, []);
    assert Wire(m) + [] == s.buf + y;
    WindowExtends(s.buf, y);
    if AtHead(s) {
      PartHasBody(m, s.buf, y);
      TurnAtHead(s);
      AwaitsBody(s, m, BodyStart(s.buf), y);
    } else {
      if |EncodeHead(m.head)| <= |s.buf| {
        HeadIsEnough(m, s.buf, y);
      }
      HeadGotIsNotBad(s.buf + y);
      UnfinishedWaits(s);
    }
  }

  lemma UnfinishedWaits(s: State)
    requires Idle(s) && HeadOf(Window(s.buf)).Fail? && !HeadIsBad(s.buf)
    ensures Turn(s) == Wait(s)
  {
  }

  lemma PartHasBody(m: Message, x: seq<byte>, y: seq<byte>)
    requires Writable(m) && x + y == Wire(m) && y != [] && |EncodeHead(m.head)| <= |x|
    ensures x[|EncodeHead(m.head)|..] + y == BodyBytes(m.body) && BodyBytes(m.body) != []
  {
    hide EncodeHead, WellFormedHead, BodyBytes;
    var head := EncodeHead(m.head);
    assert (x + y)[|head|..] == x[|head|..] + y;
    assert (head + BodyBytes(m.body))[|head|..] == BodyBytes(m.body);
  }

  lemma HeadIsEnough(m: Message, x: seq<byte>, y: seq<byte>)
    requires Writable(m) && x + y == Wire(m) && |EncodeHead(m.head)| <= |x|
    ensures HeadOf(Window(x)).Got?
  {
    hide HeadOf, EncodeHead, WellFormedHead, BodyBytes;
    var head := EncodeHead(m.head);
    assert (x + y)[..|head|] == x[..|head|] && (head + BodyBytes(m.body))[..|head|] == head;
    var w := Window(x);
    assert w == head + w[|head|..];
    HeadIsReadBack(m.head, w[|head|..]);
  }

  /** The bytes read so far end inside the first of the messages still to come. */
  predicate InsideFirst(ms: seq<Message>, x: seq<byte>, y: seq<byte>)
    requires forall m :: m in ms ==> Writable(m)
  {
    && x + y == WireAll(ms)
    && if ms == [] then x == [] else |x| < |Wire(ms[0])|
  }

  /** A state at rest with an empty buffer. */
  predicate Ready(s: State) {
    Idle(s) && Calm(s.peer) && s.buf == []
  }

  lemma ReadyStays(s: State, m: Message)
    requires Ready(s)
    ensures Ready(Having(s, m))
  {
    if s.peer != [] {
      CalmTail(s.peer);
    }
  }

  lemma ReadyIsSettled(s: State, x: seq<byte>, t: seq<byte>)
    requires Ready(s) && |x| + |t| <= MAX_HTTP_MESSAGE_BYTES
    ensures Settled(Plus(s, x), t)
  {
  }

  /** Of the bytes read so far, the whole messages at the front are decoded. */
  lemma {:induction false} Advance(s: State, ms: seq<Message>, x: seq<byte>, y: seq<byte>)
    returns (s': State, ms': seq<Message>, x': seq<byte>)
    requires Ready(s) && AllProper(ms, s.peer)
    requires (forall m :: m in ms ==> Writable(m)) && x + y == WireAll(ms)
    ensures Ready(s') && AllProper(ms', s'.peer) && forall m :: m in ms' ==> m in ms && Writable(m)
    ensures Poll(Plus(s, x)) == Poll(Plus(s', x')) && HavingAll(s, ms) == HavingAll(s', ms')
    ensures InsideFirst(ms', x', y) && |x'| <= |x|
    decreases |ms|
  {
    hide Turn, Wire, Writable, BodyFits, Ready;
    if ms == [] || |x| < |Wire(ms[0])| {
      s', ms', x' := s, ms, x;
      assert ms == [] ==> x == [];
    } else {
      var w, more := Wire(ms[0]), WireAll(ms[1..]);
      var x1 := x[|w|..];
      FirstOfAll(x, y, w, more);
      ReadingOne(s, ms[0], x1);
      ReadyStays(s, ms[0]);
      s', ms', x' := Advance(Having(s, ms[0]), ms[1..], x1, y);
    }
  }

  lemma FirstOfAll(x: seq<byte>, y: seq<byte>, w: seq<byte>, more: seq<byte>)
    requires x + y == w + more && |w| <= |x|
    ensures x == w + x[|w|..] && x[|w|..] + y == more
  {
    assert (x + y)[..|w|] == x[..|w|] && (w + more)[..|w|] == w;
    assert (x + y)[|w|..] == x[|w|..] + y && (w + more)[|w|..] == more;
  }

  lemma ReadingOne(s: State, m: Message, rest: seq<byte>)
    requires Ready(s) && Proper(m, AnswersHead(s.peer, m.head))
    ensures Poll(Plus(s, Wire(m) + rest)) == Poll(Plus(Having(s, m), rest))
  {
    hide Turn, Wire, Writable, BodyFits, Remember;
    var full := Plus(s, Wire(m) + rest);
    assert full.buf == Wire(m) + rest;
    MessageTurn(full, m, rest);
    assert Having(full, m).(buf := rest) == Plus(Having(s, m), rest);
  }

  /** Inside a message nothing is consumed. */
  lemma InsideKeepsBuffer(s: State, ms: seq<Message>, x: seq<byte>, y: seq<byte>)
    requires Ready(s) && AllProper(ms, s.peer) && (forall m :: m in ms ==> Writable(m)) && InsideFirst(ms, x, y)
    requires |x| <= MAX_HTTP_MESSAGE_BYTES
    ensures Poll(Plus(s, x)).buf == x
    ensures ms == [] ==> Poll(Plus(s, x)) == s
  {
    hide Turn, Wire, BodyFits, WireAll, Writable;
    assert Plus(s, x).buf == x;
    if ms == [] {
      EmptyPoll(Plus(s, x));
    } else {
      var w := Wire(ms[0]);
      InsideIsPart(ms, x, y);
      PartWaits(Plus(s, x), ms[0], w[|x|..]);
    }
  }

  lemma InsideIsPart(ms: seq<Message>, x: seq<byte>, y: seq<byte>)
    requires (forall m :: m in ms ==> Writable(m)) && InsideFirst(ms, x, y) && ms != []
    ensures x + Wire(ms[0])[|x|..] == Wire(ms[0]) && Wire(ms[0])[|x|..] != []
  {
    hide Wire;
    var w, more := Wire(ms[0]), WireAll(ms[1..]);
    assert (x + y)[..|x|] == x && (w + more)[..|x|] == w[..|x|];
  }

  /** The limit holds at every poll, or messages and fragments are small enough that it must. */
  predicate Fits(s: State, fs: seq<seq<byte>>, ms: seq<Message>, n: nat)
    requires forall m :: m in ms ==> Writable(m)
  {
    || Within(s, fs)
    || ((forall m :: m in ms ==> |Wire(m)| + n <= MAX_HTTP_MESSAGE_BYTES) &&
        (forall f :: f in fs ==> |f| <= n) && n <= MAX_HTTP_MESSAGE_BYTES)
  }

  lemma {:induction false} PipelineFrom(s: State, ms: seq<Message>, x: seq<byte>, fs: seq<seq<byte>>, n: nat)
    requires Ready(s) && AllProper(ms, s.peer) && forall m :: m in ms ==> Writable(m)
    requires InsideFirst(ms, x, Concat(fs)) && |x| <= MAX_HTTP_MESSAGE_BYTES
    requires Fits(Poll(Plus(s, x)), fs, ms, n)
    ensures PollEach(Poll(Plus(s, x)), fs) == HavingAll(s, ms)
    ensures Within(Poll(Plus(s, x)), fs)
    decreases |fs|
  {
    hide Poll, Wire, Writable, AllProper, Ready, WireAll;
    InsideKeepsBuffer(s, ms, x, Concat(fs));
    var p := Poll(Plus(s, x));
    if fs == [] {
      NothingToCome(ms, x);
    } else {
      var f, more := fs[0], Concat(fs[1..]);
      assert fs[0] in fs;
      assert |x| + |f| <= MAX_HTTP_MESSAGE_BYTES;
      ReadyIsSettled(s, x, f);
      PollExtends(Plus(s, x), f);
      assert Plus(Plus(s, x), f) == Plus(s, x + f) by { assert s.buf + x + f == s.buf + (x + f); }
      assert x + (f + more) == x + f + more;
      var s', ms', x' := Advance(s, ms, x + f, more);
      PipelineFrom(s', ms', x', fs[1..], n);
    }
  }

  lemma NothingToCome(ms: seq<Message>, x: seq<byte>)
    requires (forall m :: m in ms ==> Writable(m)) && InsideFirst(ms, x, [])
    ensures ms == [] && x == []
  {
    hide Wire, Writable;
    assert x + [] == x;
  }

  lemma WireIsNotEmpty(m: Message)
    requires Writable(m)
    ensures Wire(m) != []
  {
  }

  lemma StartsInside(s: State, ms: seq<Message>, fs: seq<seq<byte>>)
    requires Ready(s) && (forall m :: m in ms ==> Writable(m)) && Concat(fs) == WireAll(ms)
    ensures InsideFirst(ms, [], Concat(fs)) && Poll(Plus(s, [])) == s
  {
    hide Wire, Writable;
    assert [] + Concat(fs) == Concat(fs);
    if ms != [] {
      WireIsNotEmpty(ms[0]);
    }
    assert Plus(s, []) == s;
    EmptyPoll(s);
  }

  /**
   Any sequence of well-formed messages, cut into fragments in any way, is decoded into
   exactly those messages, with no failure and nothing left over: requests, responses to
   HEADs and, as the last one for which a flag waits, a response with a body. The stream
   may have any length as long as what is unread fits at every poll.
   */
  lemma PipelineIsDecoded(p: seq<bool>, ms: seq<Message>, fs: seq<seq<byte>>)
    requires Calm(p) && AllProper(ms, p) && forall m :: m in ms ==> Writable(m)
    requires Concat(fs) == WireAll(ms) && Within(Fresh(p), fs)
    ensures var r := PollEach(Fresh(p), fs);
      r.apps.messages == Heads(ms) && r.apps.decodeFailures == 0 && r.apps.bodiesSkipped == 0 && r.buf == []
  {
    PipelineFromReady(Fresh(p), ms, fs);
    HavingAllHeads(Fresh(p), ms);
    assert [] + Heads(ms) == Heads(ms);
  }

  lemma PipelineFromReady(s: State, ms: seq<Message>, fs: seq<seq<byte>>)
    requires Ready(s) && AllProper(ms, s.peer) && forall m :: m in ms ==> Writable(m)
    requires Concat(fs) == WireAll(ms) && Within(s, fs)
    ensures PollEach(s, fs) == HavingAll(s, ms)
  {
    hide Poll, Within, InsideFirst, Writable, AllProper;
    StartsInside(s, ms, fs);
    PipelineFrom(s, ms, [], fs, 0);
  }

  /** Messages and fragments that are small enough together never exceed the limit, however many there are. */
  lemma SmallPiecesFit(s: State, ms: seq<Message>, fs: seq<seq<byte>>, n: nat)
    requires Ready(s) && AllProper(ms, s.peer) && forall m :: m in ms ==> Writable(m)
    requires Concat(fs) == WireAll(ms) && n <= MAX_HTTP_MESSAGE_BYTES
    requires forall m :: m in ms ==> |Wire(m)| + n <= MAX_HTTP_MESSAGE_BYTES
    requires forall f :: f in fs ==> |f| <= n
    ensures Within(s, fs)
  {
    hide Poll, Within, InsideFirst, Writable, AllProper;
    StartsInside(s, ms, fs);
    PipelineFrom(s, ms, [], fs, n);
  }
}
