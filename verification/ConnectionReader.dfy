/**
 One endpoint's whole path: its packets drive the reassembler through handshake, data, FIN and
 resets, and after each of them the decoder reads what the connection state offers.
 */
module ConnectionReader {
  import opened Bytes
  import opened TcpMachine
  import opened TcpSafety
  import opened TcpConnection
  import opened TcpCompletion
  import Q = TcpQueue
  import H = HttpPoll
  import HP = HttpParser
  import HR = HttpResume
  import HF = HttpFragments
  import HW = HttpPipeline
  import D = DnsPoll

  /** What `pollStream` does with the stream it is given: the decoder takes bytes from the front. */
  datatype Decoder = Http(apps: H.Apps, peer: seq<bool>) | Dns(state: D.State)

  /** `left` is what the last poll left unread. */
  datatype Reader = Reader(m: Machine, decoder: Decoder, left: seq<byte>)

  /** The decoder and the unread bytes after a poll of `buf`. */
  function Polled(decoder: Decoder, buf: seq<byte>): (Decoder, seq<byte>) {
    match decoder
    case Http(apps, peer) =>
      var r := H.Poll(H.State(apps, peer, buf));
      (Http(r.apps, r.peer), r.buf)
    case Dns(state) =>
      var r := D.Poll(state.(buf := buf));
      (Dns(r.(buf := [])), r.buf)
  }

  /** How many bytes the poll reads. */
  function ReadCount(d: Reader): nat
    requires Valid(d.m)
  {
    var unread := Polled(d.decoder, Queue(d.m)).1;
    if |unread| <= |Queue(d.m)| then |Queue(d.m)| - |unread| else 0
  }

  function ReadOn(d: Reader): (r: Reader)
    requires Valid(d.m)
    ensures Valid(r.m)
  {
    if HasReadableData(d.m)
    then Reader(Consume(d.m, ReadCount(d)), Polled(d.decoder, Queue(d.m)).0, Polled(d.decoder, Queue(d.m)).1)
    else d
  }

  /** A packet of this endpoint is polled for; one of the other endpoint only moves the state. */
  function Step(d: Reader, e: Event): (r: Reader)
    requires Valid(d.m)
    ensures Valid(r.m)
  {
    var d1 := d.(m := Apply(d.m, e));
    if e.Sent? then ReadOn(d1) else d1
  }

  function Drive(d: Reader, es: seq<Event>): (r: Reader)
    requires Valid(d.m)
    ensures Valid(r.m)
    decreases |es|
  {
    if es == [] then d else Drive(Step(d, es[0]), es[1..])
  }

  /** The calls on the reassembler, the decoder's reads included. */
  function Calls(d: Reader, es: seq<Event>): seq<Event>
    requires Valid(d.m)
    decreases |es|
  {
    if es == [] then []
    else
      var d1 := d.(m := Apply(d.m, es[0]));
      [es[0]] + (if es[0].Sent? && HasReadableData(d1.m) then [Consumed(ReadCount(d1))] else []) +
        Calls(Step(d, es[0]), es[1..])
  }

  /** What each poll finds that the poll before it had not seen. */
  function Pieces(d: Reader, es: seq<Event>): seq<seq<byte>>
    requires Valid(d.m)
    decreases |es|
  {
    if es == [] then []
    else
      var m1 := Apply(d.m, es[0]);
      (if es[0].Sent? && HasReadableData(m1) then [Behind(Queue(m1), d.left)] else []) + Pieces(Step(d, es[0]), es[1..])
  }

  function Behind(queue: seq<byte>, left: seq<byte>): seq<byte> {
    if |left| <= |queue| then queue[|left|..] else []
  }

  /** Offered or not, what has been handed up since the last poll. */
  function Pending(d: Reader): seq<byte>
    requires Valid(d.m)
  {
    Behind(Queue(d.m), d.left)
  }

  predicate Consistent(d: Reader) {
    Valid(d.m) && d.left <= Queue(d.m)
  }

  /** The events are packets; reads are the decoder's own. */
  predicate Packets(es: seq<Event>) {
    forall e :: e in es ==> !e.Consumed?
  }

  predicate IsSuffix(t: seq<byte>, s: seq<byte>) {
    |t| <= |s| && t == s[|s| - |t|..]
  }

  lemma SuffixOfSuffix(a: seq<byte>, b: seq<byte>, c: seq<byte>)
    requires IsSuffix(a, b) && IsSuffix(b, c)
    ensures IsSuffix(a, c)
  {
  }

  lemma ResyncTakesTheFront(s: H.State)
    ensures IsSuffix(H.Resync(s).s.buf, s.buf)
  {
  }

  lemma IncompleteTakesTheFront(s: H.State, h: HP.Header, start: nat)
    requires 0 < start <= |s.buf|
    ensures IsSuffix(H.Incomplete(s, h, start).s.buf, s.buf)
  {
    hide H.Resync, H.Remember;
    ResyncTakesTheFront(s);
  }

  lemma SliceIsSuffix(s: seq<byte>, n: nat)
    requires n <= |s|
    ensures IsSuffix(s[n..], s)
  {
  }

  lemma HeadTakesTheFront(s: H.State, h: HP.Header, start: nat)
    requires 0 < start <= |s.buf|
    ensures IsSuffix(H.WithHead(s, h, start).s.buf, s.buf)
  {
    hide HP.BodyOf, H.Resync, H.Remember, H.Incomplete, IsSuffix;
    var s1 := if H.Answers(s, h) then s.(peer := s.peer[1..]) else s;
    SliceIsSuffix(s.buf, start);
    ResyncTakesTheFront(s1);
    IncompleteTakesTheFront(s1, h, start);
    if h.chunked {
      match HP.BodyOf(s.buf[H.Min(start + s.apps.chunkPrefix, |s.buf|)..]) {
        case Partial(_, n) =>
          IncompleteTakesTheFront(s1.(apps := s1.apps.(chunkPrefix := s1.apps.chunkPrefix + n)), h, start);
        case Whole(_, rest) => SliceIsSuffix(s.buf, |s.buf| - |rest|);
      }
    } else if h.hasContentLength && start + h.contentLength <= |s.buf| {
      SliceIsSuffix(s.buf, start + h.contentLength);
    }
  }

  lemma HttpTurnTakesTheFront(s: H.State)
    ensures IsSuffix(H.Turn(s).s.buf, s.buf)
  {
    hide HP.HeadOf, H.Window, H.Resync, H.WithHead;
    ResyncTakesTheFront(s);
    if HR.AtHead(s) {
      HW.TurnAtHead(s);
      HeadTakesTheFront(s, HP.HeadOf(H.Window(s.buf)).value, HR.BodyStart(s.buf));
    }
  }

  lemma {:induction false} HttpPollTakesTheFront(s: H.State)
    ensures IsSuffix(H.Poll(s).buf, s.buf)
    decreases |s.buf|
  {
    HttpTurnTakesTheFront(s);
    hide H.Turn;
    if H.Turn(s).Again? {
      HttpPollTakesTheFront(H.Turn(s).s);
      SuffixOfSuffix(H.Poll(s).buf, H.Turn(s).s.buf, s.buf);
    }
  }

  lemma {:induction false} DnsPollTakesTheFront(s: D.State)
    ensures IsSuffix(D.Poll(s).buf, s.buf)
    decreases |s.buf|
  {
    if D.HasFrame(s.buf) {
      D.TakeFrameShrinks(s);
      DnsPollTakesTheFront(D.TakeFrame(s));
      SuffixOfSuffix(D.Poll(s).buf, D.TakeFrame(s).buf, s.buf);
    }
  }

  lemma PolledTakesTheFront(decoder: Decoder, buf: seq<byte>)
    ensures IsSuffix(Polled(decoder, buf).1, buf)
  {
    hide H.Poll, D.Poll;
    match decoder
    case Http(apps, peer) => HttpPollTakesTheFront(H.State(apps, peer, buf));
    case Dns(state) => DnsPollTakesTheFront(state.(buf := buf));
  }

  /** Reading consumes exactly what the decoder took. */
  lemma ReadingKeepsConsistent(d: Reader)
    requires Valid(d.m)
    ensures HasReadableData(d.m) ==> Queue(ReadOn(d).m) == ReadOn(d).left
    ensures History(ReadOn(d).m) == History(d.m)
  {
    hide Consume, Queue, History, Polled, IsSuffix;
    if HasReadableData(d.m) {
      Q.ConsumeDrops(d.m, ReadCount(d));
      PolledTakesTheFront(d.decoder, Queue(d.m));
      SuffixBack(Polled(d.decoder, Queue(d.m)).1, Queue(d.m));
    }
  }

  lemma SuffixBack(t: seq<byte>, s: seq<byte>)
    requires IsSuffix(t, s)
    ensures |t| <= |s| && s[|s| - |t|..] == t
  {
  }

  /** A packet adds to the queue what it hands up. */
  lemma PacketExtends(m: Machine, e: Event)
    requires Valid(m) && !e.Consumed?
    ensures var r := Apply(m, e);
      History(m) <= History(r) && Queue(r) == Queue(m) + History(r)[|History(m)|..]
  {
    hide OnSent, OnReceived, Queue, History;
    match e {
      case Sent(h, data) =>
        Q.SentExtends(m, h, data);
        Q.AppendExtends(m, Apply(m, e));
      case Received(h) =>
        Q.ReceivedKeepsQueue(m, h);
        assert Queue(m) + [] == Queue(m);
    }
  }

  /** One packet: what was pending and what it hands up is polled now, or still pending. */
  lemma StepPolls(d: Reader, e: Event)
    requires Consistent(d) && !e.Consumed?
    ensures var r, m1 := Step(d, e), Apply(d.m, e);
      && Consistent(r) && History(d.m) <= History(r.m) && History(r.m) == History(m1)
      && Pending(d) + History(r.m)[|History(d.m)|..] == Behind(Queue(m1), d.left)
      && d.left + Behind(Queue(m1), d.left) == Queue(m1)
      && if e.Sent? && HasReadableData(m1)
         then Pending(r) == [] && (r.decoder, r.left) == Polled(d.decoder, Queue(m1))
         else Pending(r) == Behind(Queue(m1), d.left) && r.decoder == d.decoder && r.left == d.left
  {
    hide Apply, Consume, Queue, History, Polled, HasReadableData;
    var m1 := Apply(d.m, e);
    PacketExtends(d.m, e);
    var g := History(m1)[|History(d.m)|..];
    assert Queue(d.m) == d.left + Pending(d);
    assert d.left + Pending(d) + g == d.left + (Pending(d) + g);
    ReadingKeepsConsistent(d.(m := m1));
  }

  /** Polls over pieces, one after the other. */
  function PollAll(decoder: Decoder, left: seq<byte>, fs: seq<seq<byte>>): (Decoder, seq<byte>)
    decreases |fs|
  {
    if fs == [] then (decoder, left)
    else
      var (next, unread) := Polled(decoder, left + fs[0]);
      PollAll(next, unread, fs[1..])
  }

  /**
   Whatever the packets do to the connection: the decoder has seen exactly the pieces that
   were offered to it, and these and what is still pending are what has been handed up.
   */
  lemma {:induction false} DriveIsPolling(d: Reader, es: seq<Event>)
    requires Consistent(d) && Packets(es)
    ensures var r, fs := Drive(d, es), Pieces(d, es);
      && Consistent(r) && History(d.m) <= History(r.m)
      && (r.decoder, r.left) == PollAll(d.decoder, d.left, fs)
      && Pending(d) + History(r.m)[|History(d.m)|..] == Concat(fs) + Pending(r)
    decreases |es|
  {
    hide Step, Apply, Queue, History, Polled, HasReadableData, Pending;
    if es == [] {
      assert History(d.m)[|History(d.m)|..] == [];
      assert Pending(d) + [] == [] + Pending(d);
    } else {
      var e := es[0];
      assert e in es;
      var n, m1 := Step(d, e), Apply(d.m, e);
      StepPolls(d, e);
      DriveIsPolling(n, es[1..]);
      var f, more := Behind(Queue(m1), d.left), Concat(Pieces(n, es[1..]));
      var a, b := History(d.m), History(n.m);
      SplitHistory(a, b, History(Drive(d, es).m));
      if e.Sent? && HasReadableData(m1) {
        assert Pieces(d, es) == [f] + Pieces(n, es[1..]);
        assert ([f] + Pieces(n, es[1..]))[1..] == Pieces(n, es[1..]);
        JoinOffered(Pending(d), b[|a|..], History(Drive(d, es).m)[|b|..], f, more, Pending(Drive(d, es)));
      } else {
        assert Pieces(d, es) == [] + Pieces(n, es[1..]) == Pieces(n, es[1..]);
        JoinPending(Pending(d), b[|a|..], History(Drive(d, es).m)[|b|..], f);
      }
    }
  }

  lemma SplitHistory(a: seq<byte>, b: seq<byte>, c: seq<byte>)
    requires a <= b <= c
    ensures a <= c && c[|a|..] == b[|a|..] + c[|b|..]
  {
  }

  lemma JoinOffered(
    pending: seq<byte>, g: seq<byte>, h: seq<byte>, f: seq<byte>, more: seq<byte>, end: seq<byte>)
    requires pending + g == f && [] + h == more + end
    ensures pending + (g + h) == f + more + end
  {
    assert pending + (g + h) == pending + g + h;
    assert h == more + end;
    assert f + (more + end) == f + more + end;
  }

  lemma JoinPending(pending: seq<byte>, g: seq<byte>, h: seq<byte>, f: seq<byte>)
    requires pending + g == f
    ensures pending + (g + h) == f + h
  {
    assert pending + (g + h) == pending + g + h;
  }

  /** The reassembler has run through the calls, the decoder's reads included. */
  lemma {:induction false} CallsAreRun(d: Reader, es: seq<Event>)
    requires Valid(d.m)
    ensures Run(d.m, Calls(d, es)) == Drive(d, es).m
    decreases |es|
  {
    hide Apply, Polled, HasReadableData, ReadCount;
    if es != [] {
      var d1 := d.(m := Apply(d.m, es[0]));
      var more := Calls(Step(d, es[0]), es[1..]);
      CallsAreRun(Step(d, es[0]), es[1..]);
      assert Calls(d, es)[0] == es[0];
      if es[0].Sent? && HasReadableData(d1.m) {
        assert Calls(d, es)[1..] == [Consumed(ReadCount(d1))] + more;
        assert ([Consumed(ReadCount(d1))] + more)[1..] == more;
        ApplyConsumed(d1.m, ReadCount(d1));
      } else {
        assert Calls(d, es)[1..] == more;
      }
    }
  }

  lemma ApplyConsumed(m: Machine, n: nat)
    requires Valid(m)
    ensures Apply(m, Consumed(n)) == Consume(m, n)
  {
  }

  /** After a packet of this endpoint in a state that offers its data, nothing is pending. */
  lemma LastPollCatchesUp(d: Reader, es: seq<Event>, e: Event)
    requires Consistent(d) && Packets(es) && e.Sent?
    requires HasReadableData(Apply(Drive(d, es).m, e))
    ensures Pending(Step(Drive(d, es), e)) == []
  {
    hide Step, Apply, HasReadableData, Pending;
    DriveIsPolling(d, es);
    StepPolls(Drive(d, es), e);
  }

  lemma {:induction false} HttpPollAll(apps: H.Apps, peer: seq<bool>, left: seq<byte>, fs: seq<seq<byte>>)
    ensures var r := HF.PollEach(H.State(apps, peer, left), fs);
      PollAll(Http(apps, peer), left, fs) == (Http(r.apps, r.peer), r.buf)
    decreases |fs|
  {
    hide H.Poll;
    if fs != [] {
      var r := H.Poll(H.State(apps, peer, left + fs[0]));
      HttpPollAll(r.apps, r.peer, r.buf, fs[1..]);
    }
  }

  lemma {:induction false} DnsPollAll(state: D.State, left: seq<byte>, fs: seq<seq<byte>>)
    requires state.buf == []
    ensures var r := D.PollEach(state.(buf := left), fs);
      PollAll(Dns(state), left, fs) == (Dns(r.(buf := [])), r.buf)
    decreases |fs|
  {
    hide D.Poll;
    if fs != [] {
      var r := D.Poll(state.(buf := left + fs[0]));
      DnsPollAll(r.(buf := []), r.buf, fs[1..]);
    }
  }

  function NewReader(decoder: Decoder): Reader {
    Reader(Initial(true), decoder, [])
  }

  /** The packets bring the whole of the source, as its sender meant them. */
  ghost predicate Brings(d: Reader, src: Source, es: seq<Event>)
    requires Valid(d.m)
  {
    Packets(es) && GenuineRun(Initial(true), src, 0, Calls(d, es)) && AllBrought(src, 0, Calls(d, es))
  }

  /** All of it has also been offered. */
  ghost predicate Transfers(d: Reader, src: Source, es: seq<Event>)
    requires Valid(d.m)
  {
    Brings(d, src, es) && Pending(Drive(d, es)) == []
  }

  lemma TransferredIsOffered(decoder: Decoder, src: Source, es: seq<Event>)
    requires Transfers(NewReader(decoder), src, es)
    ensures var d := NewReader(decoder); var r := Drive(d, es);
      && Concat(Pieces(d, es)) == src.bytes && History(r.m) == src.bytes && Queue(r.m) == r.left
      && (r.decoder, r.left) == PollAll(decoder, [], Pieces(d, es))
      && (r.m.seeded && r.m.stream.pos > |src.bytes| <==> SomeCarriesFin(Initial(true), Calls(d, es)))
  {
    var d := NewReader(decoder);
    NewReaderHasNothing(decoder);
    hide Drive, Pieces, Calls, GenuineRun, AllBrought, SomeCarriesFin, PollAll, History, Queue, Pending, Consistent;
    DriveIsPolling(d, es);
    CallsAreRun(d, es);
    ConnectionIsExact(src, 0, Calls(d, es));
    var r := Drive(d, es);
    assert src.bytes[0..] == src.bytes;
    assert [] + History(r.m)[0..] == History(r.m) && Concat(Pieces(d, es)) + [] == Concat(Pieces(d, es));
    NothingPending(r);
  }

  lemma NewReaderHasNothing(decoder: Decoder)
    ensures var d := NewReader(decoder); Consistent(d) && Pending(d) == [] && History(d.m) == []
  {
  }

  lemma NothingPending(d: Reader)
    requires Consistent(d) && Pending(d) == []
    ensures Queue(d.m) == d.left
  {
    hide Queue;
  }

  /**
   From packets to HTTP messages, through the whole connection: handshake or capture from the
   middle of it, reordering, repeats and overlaps, resets, the other endpoint's packets, reads
   and the FIN. If everything has arrived and has been offered, the messages are those sent,
   nothing has failed, nothing is left, and the FIN has been taken exactly if it was carried.
   */
  lemma HttpOverConnection(p: seq<bool>, ms: seq<HW.Message>, src: Source, es: seq<Event>)
    requires Transfers(NewReader(Http(H.Initial(), p)), src, es)
    requires HF.Calm(p) && HW.AllProper(ms, p) && forall m :: m in ms ==> HW.Writable(m)
    requires src.bytes == HW.WireAll(ms)
    requires HF.Within(HF.Fresh(p), Pieces(NewReader(Http(H.Initial(), p)), es))
    ensures var d := NewReader(Http(H.Initial(), p)); var r := Drive(d, es);
      && r.decoder.Http? && r.decoder.apps.messages == HW.Heads(ms)
      && r.decoder.apps.decodeFailures == 0 && Queue(r.m) == []
      && (r.m.seeded && r.m.stream.pos > |src.bytes| <==> SomeCarriesFin(Initial(true), Calls(d, es)))
  {
    var d := NewReader(Http(H.Initial(), p));
    hide Drive, Pieces, Calls, Transfers, SomeCarriesFin, Queue;
    hide HW.WireAll, HW.Writable, HW.AllProper, HF.Within, H.Poll;
    TransferredIsOffered(d.decoder, src, es);
    HttpPollAll(H.Initial(), p, [], Pieces(d, es));
    HW.PipelineIsDecoded(p, ms, Pieces(d, es));
  }

  /** The same for DNS over TCP: framed strings are recorded in order or are one failure each. */
  lemma DnsOverConnection(msgs: seq<seq<byte>>, src: Source, es: seq<Event>)
    requires Transfers(NewReader(Dns(D.State(0, [], []))), src, es)
    requires forall m :: m in msgs ==> D.Sendable(m)
    requires src.bytes == D.FramedAll(msgs)
    ensures var d := NewReader(Dns(D.State(0, [], []))); var r := Drive(d, es);
      && r.decoder.Dns? && r.decoder.state.messages == D.Parsed(msgs) && Queue(r.m) == []
      && r.decoder.state.failures + |r.decoder.state.messages| == |msgs|
  {
    var d := NewReader(Dns(D.State(0, [], [])));
    hide Drive, Pieces, Calls, Transfers, SomeCarriesFin, Queue, D.FramedAll, D.Parsed, D.PollEach, PollAll, History;
    TransferredIsOffered(d.decoder, src, es);
    DnsPollAll(D.State(0, [], []), [], Pieces(d, es));
    FramedPieces(msgs, Pieces(d, es));
  }

  lemma FramedPieces(msgs: seq<seq<byte>>, fs: seq<seq<byte>>)
    requires (forall m :: m in msgs ==> D.Sendable(m)) && Concat(fs) == D.FramedAll(msgs)
    ensures var r := D.PollEach(D.State(0, [], []), fs);
      r.messages == D.Parsed(msgs) && r.buf == [] && r.failures + |r.messages| == |msgs|
  {
    var s, bytes := D.State(0, [], []), Concat(fs);
    hide D.FramedAll, D.Parsed, D.Poll;
    assert [] + bytes == bytes && [] + D.Parsed(msgs) == D.Parsed(msgs);
    if fs == [] {
      EmptyDnsPoll(s);
    } else {
      D.FragmentationDoesNotMatter(s, fs);
    }
    D.FramesAreSplit(s.(buf := bytes), msgs);
  }

  lemma EmptyDnsPoll(s: D.State)
    requires s.buf == []
    ensures D.Poll(s) == s
  {
  }
}
