/** When the decoder is offered what a connection hands up, told by the packets. */
module ConnectionOffer {
  import opened Bytes
  import opened TcpStream
  import opened TcpMachine
  import opened TcpSafety
  import opened TcpConnection
  import opened TcpCompletion
  import opened ConnectionReader
  import Q = TcpQueue
  import H = HttpPoll
  import HF = HttpFragments
  import HW = HttpPipeline
  import D = DnsPoll

  lemma ReadingKeepsState(d: Reader)
    requires Valid(d.m)
    ensures var r := ReadOn(d).m; r.state == d.m.state && r.seeded == d.m.seeded && r.finSeen == d.m.finSeen
  {
    hide Polled, Queue;
  }

  /** What one packet hands up. */
  function HandedUp(d: Reader, e: Event): seq<byte>
    requires Valid(d.m)
  {
    Q.Gained(d.m, e)
  }

  /**
   One packet, told by the state it leaves: one of this endpoint that leaves it established
   or in one of the two FIN waits leaves nothing pending. Any other packet is not read for:
   what it hands up is pending behind what was.
   */
  lemma StepOffers(d: Reader, e: Event)
    requires Consistent(d) && !e.Consumed?
    ensures var r := Step(d, e); var s := r.m.state;
      && Consistent(r) && History(r.m) == History(d.m) + HandedUp(d, e)
      && s == Apply(d.m, e).state && r.m.seeded == Apply(d.m, e).seeded && r.m.finSeen == Apply(d.m, e).finSeen
      && if e.Sent? && (s == Established || s == FinWait1 || s == FinWait2) then Pending(r) == []
         else Pending(r) == Pending(d) + HandedUp(d, e) && r.decoder == d.decoder && r.left == d.left
  {
    hide Apply, Polled, Pending, Queue, History, ReadOn;
    StepPolls(d, e);
    PacketExtends(d.m, e);
    ReadingKeepsState(d.(m := Apply(d.m, e)));
  }

  /** A FIN or RST of the other endpoint. */
  predicate Closes(e: Event) {
    e.Received? && (e.h.fin || e.h.rst)
  }

  predicate NoneCloses(es: seq<Event>) {
    forall e :: e in es ==> !Closes(e)
  }

  /** No FIN of the other endpoint has been seen. */
  predicate Open(m: Machine) {
    m.state != CloseWait && m.state != Closing && m.state != LastAck && m.state != TimeWait
  }

  lemma OpenStays(m: Machine, e: Event)
    requires Valid(m) && Open(m) && !Closes(e)
    ensures Open(Apply(m, e))
  {
    hide StoredBytes, Ingest, FinDue;
  }

  lemma {:induction false} QuietStaysOpen(d: Reader, es: seq<Event>)
    requires Consistent(d) && Open(d.m) && Packets(es) && NoneCloses(es)
    ensures Consistent(Drive(d, es)) && Open(Drive(d, es).m)
    decreases |es|
  {
    hide Step, Apply, Queue, Counted, Open;
    if es != [] {
      assert es[0] in es;
      StepOffers(d, es[0]);
      OpenStays(d.m, es[0]);
      SameStateOpen(Apply(d.m, es[0]), Step(d, es[0]).m);
      QuietStaysOpen(Step(d, es[0]), es[1..]);
    }
  }

  lemma SameStateOpen(m: Machine, n: Machine)
    requires m.state == n.state && Open(m)
    ensures Open(n)
  {
  }

  /** A packet that hands up data, other than the first SYN, leaves an open connection in one of two states. */
  lemma HandingUpLeaves(m: Machine, h: Header, data: Payload)
    requires Valid(m) && Open(m) && (m.seeded || !h.syn) && History(OnSent(m, h, data)) != History(m)
    ensures OnSent(m, h, data).state == Established || OnSent(m, h, data).state == FinWait1
  {
    hide StoredBytes, Ingest;
  }

  /** While it is open, a packet that hands up data and is not the first SYN is read for at once. */
  lemma HandingUpOffers(d: Reader, e: Event)
    requires Consistent(d) && Open(d.m) && !e.Consumed?
    requires HandedUp(d, e) != [] && (d.m.seeded || (e.Sent? ==> !e.h.syn))
    ensures e.Sent? && Pending(Step(d, e)) == []
  {
    hide OnSent, OnReceived, Open, Pending, Queue, Step, History;
    StepOffers(d, e);
    match e {
      case Sent(h, data) => HandingUpLeaves(d.m, h, data);
      case Received(h) => Q.ReceivedKeepsQueue(d.m, h);
    }
  }

  lemma NothingMoreStaysOffered(d: Reader, es: seq<Event>)
    requires Consistent(d) && Packets(es) && Pending(d) == [] && History(Drive(d, es).m) == History(d.m)
    ensures Pending(Drive(d, es)) == []
  {
    hide Drive, Pieces, Pending, PollAll;
    DriveIsPolling(d, es);
  }

  lemma {:induction false} DriveJoins(d: Reader, a: seq<Event>, b: seq<Event>)
    requires Valid(d.m)
    ensures Drive(d, a + b) == Drive(Drive(d, a), b)
    ensures Calls(d, a + b) == Calls(d, a) + Calls(Drive(d, a), b)
    decreases |a|
  {
    hide Step, Apply, HasReadableData, ReadCount;
    if a == [] {
      assert a + b == b;
    } else {
      assert (a + b)[1..] == a[1..] + b;
      DriveJoins(Step(d, a[0]), a[1..], b);
    }
  }

  lemma DriveOne(d: Reader, e: Event)
    requires Valid(d.m)
    ensures Drive(d, [e]) == Step(d, e)
  {
    hide Step;
    assert [e][1..] == [];
  }

  /**
   Every run: if no FIN or RST of the other endpoint comes before the last packet that hands
   up data, and that packet is not the first SYN, nothing is left that has not been offered.
   That packet may carry this endpoint's FIN, and whatever follows it may come.
   */
  lemma DataIsOffered(d: Reader, before: seq<Event>, e: Event, after: seq<Event>)
    requires Consistent(d) && Open(d.m) && Packets(before + [e] + after) && NoneCloses(before)
    requires Drive(d, before).m.seeded || (e.Sent? ==> !e.h.syn)
    requires History(Drive(d, before).m) != History(Drive(d, before + [e]).m)
    requires History(Drive(d, before + [e]).m) == History(Drive(d, before + [e] + after).m)
    ensures Pending(Drive(d, before + [e] + after)) == []
  {
    hide Step, Pending, Open, NoneCloses, History, Queue, Apply;
    assert forall x :: x in before ==> x in before + [e] + after;
    assert e in before + [e] + after && forall x :: x in after ==> x in before + [e] + after;
    QuietStaysOpen(d, before);
    var b := Drive(d, before);
    DriveJoins(d, before, [e]);
    DriveOne(b, e);
    DriveJoins(d, before + [e], after);
    hide Drive, Consistent;
    StepOffers(b, e);
    assert History(b.m) + [] == History(b.m);
    HandingUpOffers(b, e);
    NothingMoreStaysOffered(Step(b, e), after);
  }

  /**
   Through the packets: as long as bytes of the source are missing, the other endpoint neither
   closes nor resets, and it is not the SYN that brings the last of them.
   */
  ghost predicate OpenWhileMissing(d: Reader, src: Source, es: seq<Event>)
    requires Valid(d.m)
  {
    forall k: nat | k < |es| && !AllBrought(src, 0, Calls(d, es[..k])) ::
      !Closes(es[k]) && (es[k].Sent? && es[k].h.syn ==> !AllBrought(src, 0, Calls(d, es[..k + 1])))
  }

  lemma {:induction false} GenuinePrefix(m: Machine, src: Source, origin: nat, a: seq<Event>, b: seq<Event>)
    requires Valid(m) && GenuineRun(m, src, origin, a + b)
    ensures GenuineRun(m, src, origin, a)
    decreases |a|
  {
    hide Apply, GenuineEvent;
    if a != [] {
      assert (a + b)[1..] == a[1..] + b;
      GenuinePrefix(Apply(m, a[0]), src, origin, a[1..], b);
    }
  }

  /** After any part of the packets, the whole source has been handed up exactly if all of it was brought. */
  lemma HandedUpWhenBrought(decoder: Decoder, src: Source, es: seq<Event>, k: nat)
    requires GenuineRun(Initial(true), src, 0, Calls(NewReader(decoder), es)) && k <= |es|
    ensures var d := NewReader(decoder);
      History(Drive(d, es[..k]).m) == src.bytes <==> AllBrought(src, 0, Calls(d, es[..k]))
  {
    var d := NewReader(decoder);
    hide Drive, Calls, GenuineRun, AllBrought, History;
    assert es[..k] + es[k..] == es;
    DriveJoins(d, es[..k], es[k..]);
    GenuinePrefix(Initial(true), src, 0, Calls(d, es[..k]), Calls(Drive(d, es[..k]), es[k..]));
    CallsAreRun(d, es[..k]);
    ConnectionIsExact(src, 0, Calls(d, es[..k]));
    assert src.bytes[0..] == src.bytes;
  }

  /** The source is not yet complete after `n` packets. */
  ghost predicate Misses(d: Reader, src: Source, es: seq<Event>, n: nat)
    requires Valid(d.m) && n <= |es|
  {
    !AllBrought(src, 0, Calls(d, es[..n]))
  }

  /** The packet with which the source first becomes complete. */
  lemma {:induction false} Completion(d: Reader, src: Source, es: seq<Event>, n: nat) returns (k: nat)
    requires Valid(d.m) && n <= |es| && (forall j: nat :: j <= n ==> Misses(d, src, es, j)) && !Misses(d, src, es, |es|)
    ensures k < |es| && (forall j: nat :: j <= k ==> Misses(d, src, es, j)) && !Misses(d, src, es, k + 1)
    decreases |es| - n
  {
    hide Misses;
    if Misses(d, src, es, n + 1) {
      k := Completion(d, src, es, n + 1);
    } else {
      k := n;
    }
  }

  lemma QuietBefore(d: Reader, src: Source, es: seq<Event>, k: nat)
    requires Valid(d.m) && k < |es| && (forall j: nat :: j <= k ==> Misses(d, src, es, j))
    requires OpenWhileMissing(d, src, es)
    ensures NoneCloses(es[..k])
  {
    hide AllBrought, Calls, Closes;
    forall e | e in es[..k]
      ensures !Closes(e)
    {
      var j :| 0 <= j < k && es[j] == e;
      assert Misses(d, src, es, j);
    }
  }

  /** Then all of it has been offered, with nothing assumed about what was offered when. */
  lemma TransferIsOffered(decoder: Decoder, src: Source, es: seq<Event>)
    requires Brings(NewReader(decoder), src, es) && OpenWhileMissing(NewReader(decoder), src, es)
    ensures Transfers(NewReader(decoder), src, es)
  {
    var d := NewReader(decoder);
    hide Drive, Calls, GenuineRun, AllBrought, History, Pending;
    InitiallyNothing(d, decoder);
    assert es[..|es|] == es && es[..0] == [];
    HandedUpWhenBrought(decoder, src, es, |es|);
    HandedUpWhenBrought(decoder, src, es, 0);
    if src.bytes == [] {
      NothingMoreStaysOffered(d, es);
    } else {
      assert forall j: nat :: j <= 0 ==> Misses(d, src, es, j);
      var k := Completion(d, src, es, 0);
      assert Misses(d, src, es, k);
      HandedUpWhenBrought(decoder, src, es, k);
      HandedUpWhenBrought(decoder, src, es, k + 1);
      QuietBefore(d, src, es, k);
      assert es[..k + 1] == es[..k] + [es[k]] && es == es[..k] + [es[k]] + es[k + 1..];
      DataIsOffered(d, es[..k], es[k], es[k + 1..]);
    }
  }

  lemma InitiallyNothing(d: Reader, decoder: Decoder)
    requires d == NewReader(decoder)
    ensures Consistent(d) && Open(d.m) && Pending(d) == [] && History(d.m) == [] && Drive(d, []) == d
  {
  }

  /**
   From packets to HTTP messages with nothing assumed about what was offered: the packets bring
   the whole source, and the other endpoint neither closes nor resets before they have.
   */
  lemma HttpOverOpenConnection(p: seq<bool>, ms: seq<HW.Message>, src: Source, es: seq<Event>)
    requires Brings(NewReader(Http(H.Initial(), p)), src, es)
    requires OpenWhileMissing(NewReader(Http(H.Initial(), p)), src, es)
    requires HF.Calm(p) && HW.AllProper(ms, p) && forall m :: m in ms ==> HW.Writable(m)
    requires src.bytes == HW.WireAll(ms)
    requires HF.Within(HF.Fresh(p), Pieces(NewReader(Http(H.Initial(), p)), es))
    ensures var r := Drive(NewReader(Http(H.Initial(), p)), es);
      && r.decoder.Http? && r.decoder.apps.messages == HW.Heads(ms)
      && r.decoder.apps.decodeFailures == 0 && Queue(r.m) == []
  {
    hide Brings, OpenWhileMissing, Transfers, Drive, Pieces, HW.WireAll, HW.Writable, HW.AllProper, HF.Within, Queue;
    hide Calls, SomeCarriesFin;
    TransferIsOffered(Http(H.Initial(), p), src, es);
    HttpOverConnection(p, ms, src, es);
  }

  /** The same for DNS over TCP. */
  lemma DnsOverOpenConnection(msgs: seq<seq<byte>>, src: Source, es: seq<Event>)
    requires Brings(NewReader(Dns(D.State(0, [], []))), src, es)
    requires OpenWhileMissing(NewReader(Dns(D.State(0, [], []))), src, es)
    requires forall m :: m in msgs ==> D.Sendable(m)
    requires src.bytes == D.FramedAll(msgs)
    ensures var r := Drive(NewReader(Dns(D.State(0, [], []))), es);
      && r.decoder.Dns? && r.decoder.state.messages == D.Parsed(msgs) && Queue(r.m) == []
      && r.decoder.state.failures + |r.decoder.state.messages| == |msgs|
  {
    hide Brings, OpenWhileMissing, Transfers, Drive, D.FramedAll, D.Parsed, Queue;
    TransferIsOffered(Dns(D.State(0, [], [])), src, es);
    DnsOverConnection(msgs, src, es);
  }

  /** The other endpoint has closed first. */
  predicate HalfClosed(m: Machine) {
    m.seeded && (m.state == CloseWait || m.state == LastAck)
  }

  lemma HalfClosedStays(m: Machine, e: Event)
    requires Valid(m) && HalfClosed(m) && !e.Consumed?
    ensures HalfClosed(Apply(m, e)) || Apply(m, e).state == Closed
  {
    hide StoredBytes, Ingest, FinDue;
  }

  /** All that the packets hand up, one after the other. */
  function HandedUpBy(d: Reader, es: seq<Event>): seq<byte>
    requires Valid(d.m)
    decreases |es|
  {
    if es == [] then [] else HandedUp(d, es[0]) + HandedUpBy(Step(d, es[0]), es[1..])
  }

  /**
   Once the other endpoint has closed first, and for as long as the connection is not closed
   altogether, nothing is read: the decoder stands still and all that is handed up is pending.
   */
  lemma {:induction false} NothingIsReadHalfClosed(d: Reader, es: seq<Event>)
    requires Consistent(d) && HalfClosed(d.m) && Packets(es)
    requires forall k: nat | 0 < k <= |es| :: Drive(d, es[..k]).m.state != Closed
    ensures var r := Drive(d, es);
      && Consistent(r) && HalfClosed(r.m) && r.decoder == d.decoder && r.left == d.left
      && Pending(r) == Pending(d) + HandedUpBy(d, es)
    decreases |es|
  {
    hide Step, Apply, HalfClosed, Pending, Queue, Counted;
    if es == [] {
      assert Pending(d) + [] == Pending(d);
    } else {
      assert es[0] in es;
      var n := Step(d, es[0]);
      assert es[..1] == [es[0]];
      DriveOne(d, es[0]);
      StepOffers(d, es[0]);
      HalfClosedStays(d.m, es[0]);
      SameStateHalfClosed(Apply(d.m, es[0]), n.m);
      forall k: nat | 0 < k <= |es[1..]|
        ensures Drive(n, es[1..][..k]).m.state != Closed
      {
        assert es[..k + 1] == [es[0]] + es[1..][..k];
        assert es[..k + 1][1..] == es[1..][..k];
      }
      NothingIsReadHalfClosed(n, es[1..]);
      assert Pending(d) + (HandedUp(d, es[0]) + HandedUpBy(n, es[1..])) ==
        Pending(d) + HandedUp(d, es[0]) + HandedUpBy(n, es[1..]);
    }
  }

  lemma SameStateHalfClosed(m: Machine, n: Machine)
    requires m.state == n.state && m.seeded == n.seeded && HalfClosed(m)
    ensures HalfClosed(n)
  {
  }

  /** A packet without RST and, if it is this endpoint's, without FIN. */
  predicate Tame(e: Event) {
    !e.Consumed? && !e.h.rst && (e.Sent? ==> !e.h.fin)
  }

  predicate AtCloseWait(m: Machine) {
    m.seeded && m.state == CloseWait && !m.finSeen
  }

  lemma CloseWaitStays(m: Machine, e: Event)
    requires Valid(m) && AtCloseWait(m) && !e.Consumed? && !e.h.rst
    ensures Apply(m, e).state == CloseWait || Apply(m, e).state == LastAck
    ensures Tame(e) ==> AtCloseWait(Apply(m, e))
  {
    hide StoredBytes, Ingest;
  }

  lemma {:induction false} CloseWaitIsNotRead(d: Reader, es: seq<Event>, last: Event)
    requires Consistent(d) && AtCloseWait(d.m) && (forall e :: e in es ==> Tame(e)) && last.Sent? && !last.h.rst
    ensures var r := Drive(d, es + [last]);
      r.decoder == d.decoder && r.left == d.left && Pending(r) == Pending(d) + HandedUpBy(d, es + [last])
    decreases |es|
  {
    hide Step, Apply, Pending, Queue, Counted, HandedUp;
    var all := es + [last];
    var n := Step(d, all[0]);
    assert if es == [] then all[0] == last else all[0] in es && Tame(all[0]);
    CloseWaitStays(d.m, all[0]);
    StepOffers(d, all[0]);
    if es == [] {
      assert all[1..] == [] && HandedUpBy(n, []) == [];
      assert HandedUp(d, last) + [] == HandedUp(d, last);
    } else {
      assert es[0] in es && all[1..] == es[1..] + [last];
      CloseWaitIsNotRead(n, es[1..], last);
      assert Pending(d) + (HandedUp(d, es[0]) + HandedUpBy(n, all[1..])) ==
        Pending(d) + HandedUp(d, es[0]) + HandedUpBy(n, all[1..]);
    }
  }

  /**
   The other endpoint's FIN comes first. What this endpoint still sends, up to and with its
   own FIN, is handed up and not read.
   */
  lemma AfterTheOthersFin(d: Reader, h: Header, es: seq<Event>, last: Event)
    requires Consistent(d) && d.m.seeded && d.m.state == Established && !d.m.finSeen && h.fin && !h.rst
    requires (forall e :: e in es ==> Tame(e)) && last.Sent? && !last.h.rst
    ensures var packets := [Received(h)] + es + [last]; var r := Drive(d, packets);
      r.decoder == d.decoder && r.left == d.left && Pending(r) == Pending(d) + HandedUpBy(d, packets)
  {
    hide Step, Pending, Queue, Counted, HandedUp, History;
    var packets := [Received(h)] + es + [last];
    var n := Step(d, Received(h));
    StepOffers(d, Received(h));
    assert packets[0] == Received(h) && packets[1..] == es + [last];
    CloseWaitIsNotRead(n, es, last);
    assert Pending(d) + (HandedUp(d, Received(h)) + HandedUpBy(n, es + [last])) ==
      Pending(d) + HandedUp(d, Received(h)) + HandedUpBy(n, es + [last]);
  }

  lemma SynIsHandedUp(h: Header, data: Payload)
    requires h.syn && !h.ack && !h.rst
    ensures var r := OnSent(Initial(true), h, data); r.state == SynSent && r.seeded && History(r) == data
  {
    assert [] + ([] + data) == data;
    assert OnSent(Initial(true), h, data).stream.store == [];
  }

  lemma AckOpens(m: Machine, h: Header, data: Payload)
    requires Valid(m) && m.seeded && m.state == SynSent && h.ack && !h.syn && !h.rst
    ensures OnSent(m, h, data).state == Established || OnSent(m, h, data).state == FinWait1
  {
    hide StoredBytes, Ingest;
  }

  lemma AnswerWaits(m: Machine, h: Header)
    requires Valid(m) && m.state == SynSent && h.syn && h.ack && !h.rst
    ensures OnReceived(m, h) == m
  {
  }

  lemma AnswerHandsUpNothing(d: Reader, h: Header)
    requires Valid(d.m)
    ensures HandedUp(d, Received(h)) == []
  {
    Q.ReceivedKeepsQueue(d.m, h);
  }

  lemma HandshakeIsReadAtItsEnd(d: Reader, answer: Header, ack: Header, more: Payload)
    requires Consistent(d) && d.m.seeded && d.m.state == SynSent
    requires answer.syn && answer.ack && !answer.rst && ack.ack && !ack.syn && !ack.rst
    ensures var d2 := Step(d, Received(answer)); var d3 := Step(d2, Sent(ack, more));
      && Pending(d2) == Pending(d) && d2.decoder == d.decoder
      && Pending(d3) == [] && History(d.m) <= History(d3.m)
  {
    hide OnSent, OnReceived, Step, Pending, HandedUp, Queue, History;
    StepOffers(d, Received(answer));
    AnswerWaits(d.m, answer);
    AnswerHandsUpNothing(d, answer);
    var d2 := Step(d, Received(answer));
    assert Pending(d) + [] == Pending(d) && History(d.m) + [] == History(d.m);
    AckOpens(d2.m, ack, more);
    StepOffers(d2, Sent(ack, more));
  }

  lemma FirstSynIsHandedUp(decoder: Decoder, h: Header, data: Payload)
    requires h.syn && !h.ack && !h.rst
    ensures var d := Step(NewReader(decoder), Sent(h, data));
      Consistent(d) && d.m.seeded && d.m.state == SynSent && Pending(d) == data && History(d.m) == data
  {
    hide OnSent, Step, Pending, HandedUp, Queue, History, Consistent;
    var d, e := NewReader(decoder), Sent(h, data);
    InitiallyNothing(d, decoder);
    SynIsHandedUp(h, data);
    StepOffers(d, e);
    HandedUpFromNothing(d, e);
    assert [] + data == data;
  }

  lemma HandedUpFromNothing(d: Reader, e: Event)
    requires Valid(d.m) && History(d.m) == []
    ensures HandedUp(d, e) == History(Apply(d.m, e))
  {
    hide Apply, History;
  }

  /**
   Data on the SYN is pending until this endpoint completes the handshake: the other side's
   answer does not have it read, the packet that acknowledges it does.
   */
  lemma SynDataWaits(decoder: Decoder, syn: Header, data: Payload, answer: Header, ack: Header, more: Payload)
    requires syn.syn && !syn.ack && !syn.rst
    requires answer.syn && answer.ack && !answer.rst && ack.ack && !ack.syn && !ack.rst
    ensures var d1 := Step(NewReader(decoder), Sent(syn, data));
      var d2 := Step(d1, Received(answer)); var d3 := Step(d2, Sent(ack, more));
      && Pending(d1) == data && Pending(d2) == data && d2.decoder == d1.decoder
      && Pending(d3) == [] && data <= History(d3.m)
  {
    hide Step, Pending, Queue, History, Consistent;
    FirstSynIsHandedUp(decoder, syn, data);
    HandshakeIsReadAtItsEnd(Step(NewReader(decoder), Sent(syn, data)), answer, ack, more);
  }
}
