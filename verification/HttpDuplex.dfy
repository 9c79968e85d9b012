/**
 Both directions of a connection, packet by packet: what one direction sees of the other is
 arrivals on its own side and flags that come and go between them.
 */
module HttpDuplex {
  import opened Bytes
  import opened HttpText
  import opened HttpParser
  import opened HttpRoundTrip
  import opened HttpResync
  import opened HttpPoll
  import opened HttpResume
  import opened HttpFragments
  import opened HttpPipeline
  import opened HttpExchange
  import opened HttpRepoll
  import opened HttpOvertake
  import opened HttpLive
  import opened HttpAccounting

  datatype Packet = FromClient(bytes: seq<byte>) | FromServer(bytes: seq<byte>)

  function Deliver(d: Duplex, p: Packet): Duplex {
    match p
    case FromClient(bytes) => PollClient(d, [bytes])
    case FromServer(bytes) => PollServer(d, [bytes])
  }

  function DeliverAll(d: Duplex, ps: seq<Packet>): Duplex
    decreases |ps|
  {
    if ps == [] then d else DeliverAll(Deliver(d, ps[0]), ps[1..])
  }

  /** A connection of which nothing has been seen. */
  function New(): Duplex {
    Duplex(Initial(), Initial(), [], [])
  }

  /** The responses' direction by itself. */
  function ServerSide(d: Duplex): State {
    State(d.server, d.client.pendingHead, d.fromServer)
  }

  /** The same connection with the ends exchanged. */
  function Swap(d: Duplex): Duplex {
    Duplex(d.server, d.client, d.fromServer, d.fromClient)
  }

  function SwapAll(ps: seq<Packet>): seq<Packet> {
    if ps == [] then []
    else
      [match ps[0] case FromClient(bytes) => FromServer(bytes) case FromServer(bytes) => FromClient(bytes)] +
        SwapAll(ps[1..])
  }

  function AsksOf(flags: seq<bool>): seq<Happening> {
    seq(|flags|, i requires 0 <= i < |flags| => Asks(flags[i]))
  }

  /** The flags that a poll of the requests' direction queues. */
  function NewFlags(d: Duplex, bytes: seq<byte>): seq<bool> {
    PollQueuesAtTheEnd(Plus(State(d.client, d.server.pendingHead, d.fromClient), bytes));
    Poll(Plus(State(d.client, d.server.pendingHead, d.fromClient), bytes)).apps.pendingHead[|d.client.pendingHead|..]
  }

  /** What one packet is for the responses' direction. */
  function ServerSees(d: Duplex, p: Packet): seq<Happening> {
    match p
    case FromServer(bytes) => [Arrives(bytes)]
    case FromClient(bytes) => [Answered(PollClient(d, [bytes]).server.pendingHead)] + AsksOf(NewFlags(d, bytes))
  }

  function ServerSeesAll(d: Duplex, ps: seq<Packet>): seq<Happening>
    decreases |ps|
  {
    if ps == [] then [] else ServerSees(d, ps[0]) + ServerSeesAll(Deliver(d, ps[0]), ps[1..])
  }

  /** A poll only adds flags to its own queue, at the end. */
  lemma {:induction false} PollQueuesAtTheEnd(s: State)
    ensures s.apps.pendingHead <= Poll(s).apps.pendingHead
    decreases |s.buf|
  {
    TurnQueuesAtTheEnd(s);
    hide Turn;
    if Turn(s).Again? {
      PollQueuesAtTheEnd(Turn(s).s);
    }
  }

  lemma TurnQueuesAtTheEnd(s: State)
    ensures s.apps.pendingHead <= Turn(s).s.apps.pendingHead
  {
    hide HeadOf, Resync, WithHead, Window;
    ResyncQueuesNothing(s);
    if AtHead(s) {
      TurnAtHead(s);
      HeadQueuesAtTheEnd(s, HeadOf(Window(s.buf)).value, BodyStart(s.buf));
    }
  }

  lemma ResyncQueuesNothing(s: State)
    ensures Resync(s).s.apps.pendingHead == s.apps.pendingHead
  {
    hide ResyncOf;
  }

  lemma HeadQueuesAtTheEnd(s: State, h: Header, start: nat)
    requires 0 < start <= |s.buf|
    ensures s.apps.pendingHead <= WithHead(s, h, start).s.apps.pendingHead
  {
    hide BodyOf, ResyncOf;
  }

  lemma {:induction false} LiveJoins(s: State, es: seq<Happening>, fs: seq<Happening>)
    ensures Live(s, es + fs) == Live(Live(s, es), fs)
    decreases |es|
  {
    hide Happen;
    if es == [] {
      assert es + fs == fs;
    } else {
      assert (es + fs)[1..] == es[1..] + fs;
      LiveJoins(Happen(s, es[0]), es[1..], fs);
    }
  }

  lemma {:induction false} AskingAll(s: State, flags: seq<bool>)
    ensures Live(s, AsksOf(flags)) == AskAll(s, flags)
    decreases |flags|
  {
    if flags == [] {
      assert s.peer + [] == s.peer;
    } else {
      assert AsksOf(flags)[1..] == AsksOf(flags[1..]);
      AskingAll(Asked(s, flags[0]), flags[1..]);
      assert s.peer + [flags[0]] + flags[1..] == s.peer + flags;
    }
  }

  lemma PollsOnce(s: State, bytes: seq<byte>)
    ensures PollEach(s, [bytes]) == Poll(Plus(s, bytes))
  {
    hide Poll;
    assert [bytes][1..] == [];
  }

  lemma PacketIsLive(d: Duplex, p: Packet)
    ensures ServerSide(Deliver(d, p)) == Live(ServerSide(d), ServerSees(d, p))
  {
    hide Poll, PollEach;
    match p {
      case FromServer(bytes) =>
        PollsOnce(ServerSide(d), bytes);
        assert [Arrives(bytes)][1..] == [];
      case FromClient(bytes) =>
        var c := State(d.client, d.server.pendingHead, d.fromClient);
        PollsOnce(c, bytes);
        PollQueuesAtTheEnd(Plus(c, bytes));
        var left, flags := PollClient(d, [bytes]).server.pendingHead, NewFlags(d, bytes);
        assert ServerSees(d, p)[1..] == AsksOf(flags);
        AskingAll(OwnLeft(ServerSide(d), left), flags);
        assert d.client.pendingHead + flags == Poll(Plus(c, bytes)).apps.pendingHead;
    }
  }

  /**
   Over every sequence of packets of both directions, the responses' direction goes through
   exactly a run of arrivals and flags; so everything proved of such runs holds of it.
   */
  lemma {:induction false} ServerSideIsLive(d: Duplex, ps: seq<Packet>)
    ensures ServerSide(DeliverAll(d, ps)) == Live(ServerSide(d), ServerSeesAll(d, ps))
    decreases |ps|
  {
    hide Deliver, ServerSees, ServerSide;
    if ps != [] {
      PacketIsLive(d, ps[0]);
      ServerSideIsLive(Deliver(d, ps[0]), ps[1..]);
      LiveJoins(ServerSide(d), ServerSees(d, ps[0]), ServerSeesAll(Deliver(d, ps[0]), ps[1..]));
    }
  }

  /** The ends are alike, so the same holds of the requests' direction. */
  lemma {:induction false} EndsAreAlike(d: Duplex, ps: seq<Packet>)
    ensures Swap(DeliverAll(d, ps)) == DeliverAll(Swap(d), SwapAll(ps))
    decreases |ps|
  {
    hide PollEach;
    if ps != [] {
      assert Swap(Deliver(d, ps[0])) == Deliver(Swap(d), SwapAll(ps)[0]);
      EndsAreAlike(Deliver(d, ps[0]), ps[1..]);
    }
  }

  /** The bytes of the responses' direction. */
  function ServerBytes(ps: seq<Packet>): seq<byte> {
    if ps == [] then [] else (if ps[0].FromServer? then ps[0].bytes else []) + ServerBytes(ps[1..])
  }

  lemma {:induction false} ArrivedJoins(es: seq<Happening>, fs: seq<Happening>)
    ensures Arrived(es + fs) == Arrived(es) + Arrived(fs)
    decreases |es|
  {
    if es == [] {
      assert es + fs == fs;
    } else {
      assert (es + fs)[1..] == es[1..] + fs;
      ArrivedJoins(es[1..], fs);
    }
  }

  lemma {:induction false} AskingArrivesNothing(flags: seq<bool>)
    ensures Arrived(AsksOf(flags)) == []
    decreases |flags|
  {
    if flags != [] {
      assert AsksOf(flags)[1..] == AsksOf(flags[1..]);
      AskingArrivesNothing(flags[1..]);
    }
  }

  lemma {:induction false} ServerBytesArrive(d: Duplex, ps: seq<Packet>)
    ensures Arrived(ServerSeesAll(d, ps)) == ServerBytes(ps)
    decreases |ps|
  {
    hide PollEach, Poll;
    if ps != [] {
      ServerBytesArrive(Deliver(d, ps[0]), ps[1..]);
      ArrivedJoins(ServerSees(d, ps[0]), ServerSeesAll(Deliver(d, ps[0]), ps[1..]));
      match ps[0] {
        case FromServer(bytes) => assert Arrived([Arrives(bytes)]) == bytes;
        case FromClient(bytes) =>
          AskingArrivesNothing(NewFlags(d, bytes));
          var left := [Answered(PollClient(d, [bytes]).server.pendingHead)];
          assert Arrived(left) == [] by { assert left[1..] == []; }
          ArrivedJoins(left, AsksOf(NewFlags(d, bytes)));
      }
    }
  }

  /**
   Accounting over every sequence of packets of both directions: if every request is read in
   time for its flag, every turn of the responses' direction accounts for what it did and
   resumes inside the buffer, and what was consumed and what is unread are its stream.
   */
  lemma DuplexAccounts(ps: seq<Packet>)
    requires AsksInTime(Fresh([]), ServerSeesAll(New(), ps))
    ensures var vs, r := LiveVisits(Fresh([]), ServerSeesAll(New(), ps)), ServerSide(DeliverAll(New(), ps));
      && (forall v :: v in vs ==> Accounts(v.before, v.turned) && ResumesInside(v.before))
      && ServerBytes(ps) == AllTaken(vs) + r.buf
      && r.apps.messages == Recorded(vs) && r.apps.decodeFailures == Failures(vs)
  {
    hide Accounts, AllTaken, Recorded, Failures, Live, LiveVisits, ResumesInside, AsksInTime, DeliverAll, ServerSeesAll;
    ServerSideIsLive(New(), ps);
    ServerBytesArrive(New(), ps);
    LiveAccounts(ServerSeesAll(New(), ps));
  }

  /** A request without fields and without a body. */
  function Bare(name: seq<byte>): Message {
    Message(Header(Request, name, [47], Ascii("HTTP/1.1"), 0, [], [], false, 0, false), Plain([]))
  }

  lemma BareIsProper(name: seq<byte>)
    requires IsToken(name) && |name| <= 10
    ensures Proper(Bare(name), false) && AllProper([Bare(name)], []) && |Wire(Bare(name))| <= 40
  {
    var m := Bare(name);
    assert |StartLine(m.head)| == |name| + 11;
    assert [m][1..] == [];
  }

  /** Reading one request from a quiet client queues its flag and leaves nothing unread. */
  lemma BareIsRead(d: Duplex, name: seq<byte>)
    requires IsToken(name) && |name| <= 10
    requires d.client.pendingHead == [] && d.server.pendingHead == [] && d.fromClient == []
    requires Idle(State(d.client, [], []))
    ensures Writable(Bare(name))
    ensures var r := Deliver(d, FromClient(Wire(Bare(name))));
      && r.client == d.client.(messages := d.client.messages + [Bare(name).head],
                               pendingHead := [name == Ascii("HEAD")])
      && r.server == d.server && r.fromClient == [] && r.fromServer == d.fromServer
  {
    BareIsProper(name);
    hide Poll, PollEach, Wire, Writable, AllProper;
    var m, s := Bare(name), State(d.client, [], []);
    PollOne(s, Wire(m));
    assert Wire(m) + [] == Wire(m);
    assert WireAll([m]) == Wire(m) by { assert [m][1..] == []; }
    PipelineFromReady(s, [m], [Wire(m)]);
    assert HavingAll(Having(s, m), []) == Having(s, m);
  }

  /** A GET, the first part of the response to it, and a HEAD. */
  function KeptAlive(): seq<Packet> {
    LettersAndHyphens("GET");
    LettersAndHyphens("HEAD");
    BareIsProper(Ascii("GET"));
    BareIsProper(Ascii("HEAD"));
    [FromClient(Wire(Bare(Ascii("GET")))), FromServer(Part()), FromClient(Wire(Bare(Ascii("HEAD"))))]
  }

  /** The next packet is delivered last. */
  lemma {:induction false} DeliversLast(d: Duplex, ps: seq<Packet>, k: nat)
    requires k < |ps|
    ensures DeliverAll(d, ps[..k + 1]) == Deliver(DeliverAll(d, ps[..k]), ps[k])
    decreases k
  {
    hide Deliver;
    if k == 0 {
      assert ps[..1][1..] == [];
    } else {
      assert ps[..k + 1][1..] == ps[1..][..k] && ps[..k][1..] == ps[1..][..k - 1];
      DeliversLast(Deliver(d, ps[0]), ps[1..], k - 1);
    }
  }

  /** The queue holds nothing, then the GET's flag, then nothing, then the HEAD's. */
  lemma QueueOfKeptAlive()
    ensures var d1 := Deliver(New(), KeptAlive()[0]);
      var d2 := Deliver(d1, KeptAlive()[1]);
      var d3 := Deliver(d2, KeptAlive()[2]);
      && d1.client.pendingHead == [false] && d2.client.pendingHead == [] && d3.client.pendingHead == [true]
      && d3.fromServer == Part() && d3.server == Initial().(chunkPrefix := 56)
  {
    LettersAndHyphens("GET");
    LettersAndHyphens("HEAD");
    hide IsToken, Part, Poll, Turn, PollEach, Wire, Writable;
    var d1 := Deliver(New(), KeptAlive()[0]);
    BareIsRead(New(), Ascii("GET"));
    assert |Ascii("GET")| != |Ascii("HEAD")|;
    ReadingThePart(d1);
    BareIsRead(Deliver(d1, KeptAlive()[1]), Ascii("HEAD"));
  }

  lemma ReadingThePart(d: Duplex)
    requires d.client.pendingHead == [false] && d.server == Initial() && d.fromServer == []
    ensures Deliver(d, FromServer(Part())) ==
            d.(client := d.client.(pendingHead := []), server := Initial().(chunkPrefix := 56), fromServer := Part())
  {
    hide Part, Poll, Turn, PollEach;
    var part := Plus(ServerSide(d), Part());
    PollsOnce(ServerSide(d), Part());
    assert part.buf == Part();
    PartTakesAFlag(part);
  }

  /** Never more than one flag waits, and yet a flag overtakes. */
  lemma OneFlagIsEnough()
    ensures forall k :: 0 <= k <= 3 ==> |DeliverAll(New(), KeptAlive()[..k]).client.pendingHead| <= 1
    ensures var s := ServerSide(DeliverAll(New(), KeptAlive()));
      && Overtakes(s) && !ResumesInside(Turn(s).s)
      && !Accounts(Plus(Turn(s).s, Filler()), Turn(Plus(Turn(s).s, Filler())))
  {
    QueueOfKeptAlive();
    var ps := KeptAlive();
    hide Deliver, Part, Turn, Poll, HeadOf, Overtakes, AtHead, ResumesInside, Accounts, Filler, KeptAlive;
    assert |ps| == 3 by { KeptAliveIsThree(); }
    DeliversLast(New(), ps, 0);
    DeliversLast(New(), ps, 1);
    DeliversLast(New(), ps, 2);
    assert ps[..3] == ps;
    var s := ServerSide(DeliverAll(New(), ps));
    Overtaken(s);
    StaleReading(Plus(Turn(s).s, Filler()));
  }

  lemma KeptAliveIsThree()
    ensures |KeptAlive()| == 3
  {
  }
}
