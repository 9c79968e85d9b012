/**
 The whole path of one direction of a connection, packet by packet: a segment is ingested,
 then the decoder is polled on whatever has become readable.
 */
module EndToEnd {
  import opened Bytes
  import opened TcpStream
  import opened TcpSafety
  import opened TcpDelivery
  import TcpMachine
  import H = HttpPoll
  import HR = HttpResume
  import HF = HttpFragments
  import HW = HttpPipeline
  import D = DnsPoll

  /** What one packet makes readable. */
  function Gain(s: Stream, src: Source, d: Delivery): seq<byte>
    requires Counted(s) && Fits(src, d)
  {
    TcpMachine.DeliveredGrows(s, true, Number(src, d), Piece(src, d));
    Deliver(s, src, d).assembled[|s.assembled|..]
  }

  function Gains(s: Stream, src: Source, ds: seq<Delivery>): seq<seq<byte>>
    requires Counted(s) && forall d :: d in ds ==> Fits(src, d)
    decreases |ds|
  {
    if ds == [] then [] else [Gain(s, src, ds[0])] + Gains(Deliver(s, src, ds[0]), src, ds[1..])
  }

  /** The pieces that become readable, put together, are what reassembly hands up. */
  lemma {:induction false} GainsAddUp(s: Stream, src: Source, ds: seq<Delivery>)
    requires Counted(s) && forall d :: d in ds ==> Fits(src, d)
    ensures s.assembled + Concat(Gains(s, src, ds)) == DeliverAll(s, src, ds).assembled
    decreases |ds|
  {
    if ds != [] {
      hide Deliver;
      var r, g := Deliver(s, src, ds[0]), Gain(s, src, ds[0]);
      GainIsNew(s, src, ds[0]);
      GainsAddUp(r, src, ds[1..]);
      var more := Concat(Gains(r, src, ds[1..]));
      assert s.assembled + (g + more) == (s.assembled + g) + more;
    }
  }

  lemma GainIsNew(s: Stream, src: Source, d: Delivery)
    requires Counted(s) && Fits(src, d)
    ensures s.assembled + Gain(s, src, d) == Deliver(s, src, d).assembled
  {
    TcpMachine.DeliveredGrows(s, true, Number(src, d), Piece(src, d));
  }

  /** Each packet's segment is ingested and, if anything is readable, the HTTP decoder polled. */
  function DecodeHttp(s: Stream, a: H.State, src: Source, ds: seq<Delivery>): H.State
    requires Counted(s) && forall d :: d in ds ==> Fits(src, d)
    decreases |ds|
  {
    if ds == [] then a
    else
      var b := HR.Plus(a, Gain(s, src, ds[0]));
      DecodeHttp(Deliver(s, src, ds[0]), if b.buf == [] then b else H.Poll(b), src, ds[1..])
  }

  lemma {:induction false} DecodeIsPollEach(s: Stream, a: H.State, src: Source, ds: seq<Delivery>)
    requires Counted(s) && forall d :: d in ds ==> Fits(src, d)
    ensures DecodeHttp(s, a, src, ds) == HF.PollEach(a, Gains(s, src, ds))
    decreases |ds|
  {
    if ds != [] {
      hide Deliver, Gain, H.Poll;
      var b := HR.Plus(a, Gain(s, src, ds[0]));
      if b.buf == [] {
        HF.EmptyPoll(b);
      }
      DecodeIsPollEach(Deliver(s, src, ds[0]), H.Poll(b), src, ds[1..]);
    }
  }

  /** Every byte of the source has arrived in some segment, all in time and none refused. */
  predicate AllArrived(src: Source, ds: seq<Delivery>)
  {
    && ds != [] && (forall d :: d in ds ==> Fits(src, d))
    && Arriving(Start(src), src, ds) && NoneRefused(Start(src), src, ds)
    && forall j: nat :: j < |src.bytes| ==> Carries(ds, j)
  }

  lemma GainsOfAll(src: Source, ds: seq<Delivery>)
    requires AllArrived(src, ds)
    ensures Concat(Gains(Start(src), src, ds)) == src.bytes
  {
    ReassemblyCompletes(src, ds);
    GainsAddUp(Start(src), src, ds);
    assert Start(src).assembled == [];
    assert [] + Concat(Gains(Start(src), src, ds)) == Concat(Gains(Start(src), src, ds));
  }

  /**
   From segments to HTTP messages. Well-formed messages, cut into TCP segments anywhere and
   delivered in any order, with repeats and overlaps and with sequence numbers wrapping, are
   decoded into exactly those messages, although the decoder is polled after every packet.
   The stream may have any length as long as what is unread fits at every poll.
   */
  lemma HttpSurvivesDelivery(p: seq<bool>, ms: seq<HW.Message>, src: Source, ds: seq<Delivery>)
    requires HF.Calm(p) && HW.AllProper(ms, p) && forall m :: m in ms ==> HW.Writable(m)
    requires src.bytes == HW.WireAll(ms) && AllArrived(src, ds)
    requires HF.Within(HF.Fresh(p), Gains(Start(src), src, ds))
    ensures var r := DecodeHttp(Start(src), HF.Fresh(p), src, ds);
      r.apps.messages == HW.Heads(ms) && r.apps.decodeFailures == 0 && r.apps.bodiesSkipped == 0 && r.buf == []
  {
    hide HW.WireAll, HW.Writable, HW.AllProper, H.Poll, HF.Within, Deliver, Arriving, NoneRefused, Gain;
    GainsOfAll(src, ds);
    DecodeIsPollEach(Start(src), HF.Fresh(p), src, ds);
    HW.PipelineIsDecoded(p, ms, Gains(Start(src), src, ds));
  }

  /** One packet makes readable at most its own bytes and those that were stored. */
  const MAX_GAIN: nat := MAX_OOO_BYTES + MAX_PAYLOAD

  lemma {:induction false} DrainGains(s: Stream)
    requires Counted(s)
    ensures |Drain(s).assembled| + Drain(s).oooBytes <= |s.assembled| + s.oooBytes
    decreases |s.store|
  {
    if s.store != [] && SeqNumber.Delta(s.store[0].seqNumber, s.next) <= 0 {
      DrainGains(Absorb(s));
    }
  }

  lemma GainIsSmall(s: Stream, src: Source, d: Delivery)
    requires Counted(s) && Fits(src, d) && s.oooBytes <= MAX_OOO_BYTES
    ensures |Gain(s, src, d)| <= MAX_GAIN && Deliver(s, src, d).oooBytes <= MAX_OOO_BYTES
  {
    hide StoredBytes, Slot, Gain;
    GainIsNew(s, src, d);
    var v, data := Number(src, d), Piece(src, d);
    assert |data| <= MAX_PAYLOAD;
    if v == s.next {
      DrainGains(Append(s, data));
      DrainOnlyFrees(Append(s, data));
    } else if SeqNumber.Delta(v, s.next) > 0 {
      StashWithinCap(s, v, data);
    } else if SeqNumber.Dist(s.next, v) < |data| {
      DrainGains(Append(s, data[SeqNumber.Dist(s.next, v)..]));
      DrainOnlyFrees(Append(s, data[SeqNumber.Dist(s.next, v)..]));
    }
  }

  lemma {:induction false} GainsAreSmall(s: Stream, src: Source, ds: seq<Delivery>)
    requires Counted(s) && s.oooBytes <= MAX_OOO_BYTES && forall d :: d in ds ==> Fits(src, d)
    ensures forall g :: g in Gains(s, src, ds) ==> |g| <= MAX_GAIN
    decreases |ds|
  {
    if ds != [] {
      hide Gain, Deliver;
      GainIsSmall(s, src, ds[0]);
      GainsAreSmall(Deliver(s, src, ds[0]), src, ds[1..]);
    }
  }

  /**
   The same for any number of messages of moderate size, with nothing asked of the packets
   but that they arrive: a message may take all of the limit but what one packet can make
   readable at once.
   */
  lemma HttpOfAnyLengthSurvivesDelivery(p: seq<bool>, ms: seq<HW.Message>, src: Source, ds: seq<Delivery>)
    requires HF.Calm(p) && HW.AllProper(ms, p)
    requires forall m :: m in ms ==> HW.Writable(m) && |HW.Wire(m)| + MAX_GAIN <= H.MAX_HTTP_MESSAGE_BYTES
    requires src.bytes == HW.WireAll(ms) && AllArrived(src, ds)
    ensures var r := DecodeHttp(Start(src), HF.Fresh(p), src, ds);
      r.apps.messages == HW.Heads(ms) && r.apps.decodeFailures == 0 && r.apps.bodiesSkipped == 0 && r.buf == []
  {
    hide HW.WireAll, HW.Writable, HW.AllProper, H.Poll, HF.Within, Deliver, Arriving, NoneRefused, Gain, HW.Wire;
    GainsOfAll(src, ds);
    var gains := Gains(Start(src), src, ds);
    GainsAreSmall(Start(src), src, ds);
    HW.SmallPiecesFit(HF.Fresh(p), ms, gains, MAX_GAIN);
    HttpSurvivesDelivery(p, ms, src, ds);
  }

  /** The same path with the DNS decoder at its end. */
  function DecodeDns(s: Stream, a: D.State, src: Source, ds: seq<Delivery>): D.State
    requires Counted(s) && forall d :: d in ds ==> Fits(src, d)
    decreases |ds|
  {
    if ds == [] then a
    else
      var b := D.Plus(a, Gain(s, src, ds[0]));
      DecodeDns(Deliver(s, src, ds[0]), if b.buf == [] then b else D.Poll(b), src, ds[1..])
  }

  lemma {:induction false} DecodeDnsIsPollEach(s: Stream, a: D.State, src: Source, ds: seq<Delivery>)
    requires Counted(s) && forall d :: d in ds ==> Fits(src, d)
    ensures DecodeDns(s, a, src, ds) == D.PollEach(a, Gains(s, src, ds))
    decreases |ds|
  {
    if ds != [] {
      hide Deliver, Gain;
      var b := D.Plus(a, Gain(s, src, ds[0]));
      assert b.buf == [] ==> D.Poll(b) == b;
      DecodeDnsIsPollEach(Deliver(s, src, ds[0]), D.Poll(b), src, ds[1..]);
    }
  }

  /**
   From segments to DNS messages: each framed string that parses is recorded in order and
   each other one is a single failure, whatever the delivery order of the segments.
   */
  lemma DnsSurvivesDelivery(msgs: seq<seq<byte>>, src: Source, ds: seq<Delivery>)
    requires forall m :: m in msgs ==> D.Sendable(m)
    requires src.bytes == D.FramedAll(msgs) && AllArrived(src, ds)
    ensures var r := DecodeDns(Start(src), D.State(0, [], []), src, ds);
      r.messages == D.Parsed(msgs) && r.buf == [] && r.failures + |r.messages| == |msgs|
  {
    hide D.FramedAll, D.Parsed, D.Poll, Deliver, Arriving, NoneRefused, Gain;
    GainsOfAll(src, ds);
    var gains := Gains(Start(src), src, ds);
    DecodeDnsIsPollEach(Start(src), D.State(0, [], []), src, ds);
    D.FragmentationDoesNotMatter(D.State(0, [], []), gains);
    assert [] + Concat(gains) == src.bytes;
    D.FramesAreSplit(D.State(0, [], src.bytes), msgs);
    assert [] + D.Parsed(msgs) == D.Parsed(msgs);
  }
}
