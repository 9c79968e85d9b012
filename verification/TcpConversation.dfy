/**
 Both endpoints of one connection, each packet driving the sender's machine and the
 receiver's machine, through a whole in-order conversation.
 */
module TcpConversation {
  import opened Bytes
  import opened SeqNumber
  import opened TcpStream
  import opened TcpMachine
  import R = TcpReassembler

  /** `opener` sends the first SYN; `answerer` is the other endpoint. */
  datatype Pair = Pair(opener: Machine, answerer: Machine)

  /** The per-packet step: the sender's `onSent`, then the receiver's `onReceived`. */
  function Exchange(p: Pair, fromOpener: bool, h: Header, data: Payload): (r: Pair)
    requires Valid(p.opener) && Valid(p.answerer)
    ensures Valid(r.opener) && Valid(r.answerer)
  {
    if fromOpener
    then Pair(OnSent(p.opener, h, data), OnReceived(p.answerer, h))
    else Pair(OnReceived(p.opener, h), OnSent(p.answerer, h, data))
  }

  /** What the decoder does with a TCP packet: `self` is the endpoint it came from. */
  method DeliverPacket(self: R.TcpReassembler, other: R.TcpReassembler, h: Header, span: Payload)
    requires self != other && self.Valid() && other.Valid()
    modifies self, other`state
    ensures self.Valid() && other.Valid()
    ensures Pair(self.View(), other.View()) == Exchange(Pair(old(self.View()), old(other.View())), true, h, span)
    ensures Pair(other.View(), self.View()) == Exchange(Pair(old(other.View()), old(self.View())), false, h, span)
  {
    self.OnSent(h, span);
    other.OnReceived(h);
  }

  /** The next sequence number of each side, as the endpoints themselves count. */
  datatype Numbers = Numbers(opener: u32, answerer: u32)

  function Own(n: Numbers, ofOpener: bool): u32 {
    if ofOpener then n.opener else n.answerer
  }

  function Advance(n: Numbers, ofOpener: bool, step: nat): Numbers {
    if ofOpener then n.(opener := Wrap(n.opener + step)) else n.(answerer := Wrap(n.answerer + step))
  }

  /** How far an acknowledgement lags behind what has been received. */
  type Lag = x: nat | x < 0x8000_0000

  /** An ordinary segment: own number, acknowledgement of what was received, perhaps a FIN. */
  function SegmentFrom(n: Numbers, ofOpener: bool, fin: bool, lag: Lag): Header {
    Header(Own(n, ofOpener), Wrap(Own(n, !ofOpener) - lag as int), false, true, fin, false)
  }

  /** One side says something; an empty payload is a bare acknowledgement. */
  datatype Talk = Talk(byOpener: bool, data: Payload, lag: Lag)

  function Played(p: Pair, n: Numbers, talks: seq<Talk>): (r: (Pair, Numbers))
    requires Valid(p.opener) && Valid(p.answerer)
    ensures Valid(r.0.opener) && Valid(r.0.answerer)
    decreases |talks|
  {
    if talks == [] then (p, n)
    else
      var t := talks[0];
      Played(Exchange(p, t.byOpener, SegmentFrom(n, t.byOpener, false, t.lag), t.data),
             Advance(n, t.byOpener, |t.data|), talks[1..])
  }

  /** Everything one side says. */
  function Said(talks: seq<Talk>, byOpener: bool): seq<byte> {
    if talks == [] then []
    else (if talks[0].byOpener == byOpener then talks[0].data else []) + Said(talks[1..], byOpener)
  }

  /** Some segment of that side acknowledges everything. */
  predicate Acknowledges(talks: seq<Talk>, byOpener: bool) {
    exists t :: t in talks && t.byOpener == byOpener && t.lag == 0
  }

  /** A side says its last bytes together with its FIN, which takes one more number. */
  function Close(p: Pair, n: Numbers, byOpener: bool, last: Payload, lag: Lag): (r: (Pair, Numbers))
    requires Valid(p.opener) && Valid(p.answerer)
    ensures Valid(r.0.opener) && Valid(r.0.answerer)
  {
    (Exchange(p, byOpener, SegmentFrom(n, byOpener, true, lag), last), Advance(n, byOpener, |last| + 1))
  }

  lemma {:induction false} SaidFrom(before: seq<byte>, talks: seq<Talk>, byOpener: bool)
    ensures talks == [] ==> before + Said(talks, byOpener) == before
    ensures talks != [] && talks[0].byOpener == byOpener ==>
              before + Said(talks, byOpener) == before + talks[0].data + Said(talks[1..], byOpener)
    ensures talks != [] && talks[0].byOpener != byOpener ==>
              before + Said(talks, byOpener) == before + Said(talks[1..], byOpener)
  {
    if talks != [] {
      var first := if talks[0].byOpener == byOpener then talks[0].data else [];
      var rest := Said(talks[1..], byOpener);
      assert Said(talks, byOpener) == first + rest;
      assert before + (first + rest) == before + first + rest;
      assert before + [] == before;
    }
  }

  function Fresh(): Pair {
    Pair(Initial(true), Initial(true))
  }

  /** SYN, SYN with ACK, ACK. */
  function Handshake(isn: Numbers): (r: (Pair, Numbers))
    ensures Valid(r.0.opener) && Valid(r.0.answerer)
  {
    var n := Advance(Advance(isn, true, 1), false, 1);
    var p1 := Exchange(Fresh(), true, Header(isn.opener, 0, true, false, false, false), []);
    var p2 := Exchange(p1, false, Header(isn.answerer, n.opener, true, true, false, false), []);
    (Exchange(p2, true, SegmentFrom(n, true, false, 0), []), n)
  }

  /**
   A conversation: data both ways in any interleaving; then one side (the opener if
   `openerCloses`) closes; then the other side goes on talking while the closer only
   acknowledges; then the other side closes and the closer acknowledges that. Every
   segment before the last may acknowledge late.
   */
  datatype Conversation = Conversation(
    isn: Numbers, talks: seq<Talk>, openerCloses: bool, last: Payload, lastLag: Lag,
    tail: seq<Talk>, otherLast: Payload, otherLag: Lag)

  /** After its FIN the first closer sends bare acknowledgements only. */
  predicate InOrder(c: Conversation) {
    forall t :: t in c.tail ==> t.byOpener != c.openerCloses || t.data == []
  }

  /** The other side acknowledges the first FIN before or with its own. */
  predicate FinAcknowledged(c: Conversation) {
    Acknowledges(c.tail, !c.openerCloses) || c.otherLag == 0
  }

  function Outcome(c: Conversation): (r: Pair)
    ensures Valid(r.opener) && Valid(r.answerer)
  {
    Ended(c).0
  }

  /** Both machines and both numbers at the end. */
  function Ended(c: Conversation): (r: (Pair, Numbers))
    ensures Valid(r.0.opener) && Valid(r.0.answerer)
  {
    var (p0, n0) := Handshake(c.isn);
    var (p1, n1) := Played(p0, n0, c.talks);
    var (p2, n2) := Close(p1, n1, c.openerCloses, c.last, c.lastLag);
    var (p3, n3) := Played(p2, n2, c.tail);
    var (p4, n4) := Close(p3, n3, !c.openerCloses, c.otherLast, c.otherLag);
    (Exchange(p4, c.openerCloses, SegmentFrom(n4, c.openerCloses, false, 0), []), n4)
  }

  /** The machine of the side that has said `said` and stands at `next` with nothing outstanding. */
  predicate At(m: Machine, state: TcpState, next: u32, said: seq<byte>) {
    && Valid(m) && m.seeded && m.keepPayload && !m.finSeen
    && m.state == state && m.stream.next == next && m.stream.store == [] && History(m) == said
  }

  function Side(p: Pair, ofOpener: bool): Machine {
    if ofOpener then p.opener else p.answerer
  }

  /** Side `a` is at `state` having said `said`, the other side at `otherState`. */
  predicate PairAt(p: Pair, n: Numbers, a: bool, state: TcpState, said: seq<byte>,
                   otherState: TcpState, otherSaid: seq<byte>) {
    At(Side(p, a), state, Own(n, a), said) && At(Side(p, !a), otherState, Own(n, !a), otherSaid)
  }

  lemma InOrderData(m: Machine, h: Header, data: Payload, said: seq<byte>)
    requires At(m, m.state, h.seqNumber, said)
    ensures !h.fin ==> At(OnData(m, h, data), m.state, Wrap(h.seqNumber + |data|), said + data)
    ensures h.fin ==> At(OnData(m, h, data), if m.state == CloseWait then LastAck else FinWait1,
                         Wrap(h.seqNumber + |data| + 1), said + data)
  {
    hide StoredBytes;
    var s := m.stream;
    assert Drain(Append(s, data)) == Append(s, data);
    var r := AfterIngest(m, h.seqNumber, data);
    assert r.stream == Append(s, data);
    assert History(r) == said + data;
    WrapAdd(h.seqNumber + |data|, 1);
  }

  lemma HandshakeEstablishes(isn: Numbers)
    ensures var (p, n) := Handshake(isn);
      PairAt(p, n, true, Established, [], Established, [])
  {
    hide OnData;
    var n := Advance(Advance(isn, true, 1), false, 1);
    var syn := Header(isn.opener, 0, true, false, false, false);
    var p1 := Exchange(Fresh(), true, syn, []);
    assert At(p1.opener, SynSent, n.opener, []);
    assert p1.answerer == Initial(true).(state := Listen);
    var p2 := Exchange(p1, false, Header(isn.answerer, n.opener, true, true, false, false), []);
    assert p2.opener == p1.opener && At(p2.answerer, SynReceived, n.answerer, []);
    InOrderData(p2.opener.(state := Established), SegmentFrom(n, true, false, 0), [], []);
  }

  lemma TalkStep(p: Pair, n: Numbers, t: Talk, said: seq<byte>, otherSaid: seq<byte>)
    requires PairAt(p, n, t.byOpener, Established, said, Established, otherSaid)
    ensures Valid(p.opener) && Valid(p.answerer)
    ensures PairAt(Exchange(p, t.byOpener, SegmentFrom(n, t.byOpener, false, t.lag), t.data),
                   Advance(n, t.byOpener, |t.data|), t.byOpener, Established, said + t.data, Established, otherSaid)
  {
    hide StoredBytes, OnData;
    InOrderData(Side(p, t.byOpener), SegmentFrom(n, t.byOpener, false, t.lag), t.data, said);
  }

  lemma PairSwaps(p: Pair, n: Numbers, a: bool, state: TcpState, said: seq<byte>,
                  otherState: TcpState, otherSaid: seq<byte>)
    ensures PairAt(p, n, a, state, said, otherState, otherSaid) <==>
            PairAt(p, n, !a, otherState, otherSaid, state, said)
  {
  }

  /** In the data phase both stay established and each side's history grows by what it says. */
  lemma {:induction false} TalkingAppends(p: Pair, n: Numbers, talks: seq<Talk>, said: seq<byte>, otherSaid: seq<byte>)
    requires PairAt(p, n, true, Established, said, Established, otherSaid)
    ensures Valid(p.opener) && Valid(p.answerer)
    ensures var (q, n') := Played(p, n, talks);
      PairAt(q, n', true, Established, said + Said(talks, true), Established, otherSaid + Said(talks, false))
    decreases |talks|
  {
    PairIsValid(p, n, true, Established, said, Established, otherSaid);
    hide PairAt, Exchange, SegmentFrom, Advance, Valid, Said;
    SaidFrom(said, talks, true);
    SaidFrom(otherSaid, talks, false);
    if talks != [] {
      var t := talks[0];
      var q := Exchange(p, t.byOpener, SegmentFrom(n, t.byOpener, false, t.lag), t.data);
      var n1 := Advance(n, t.byOpener, |t.data|);
      if t.byOpener {
        TalkStep(p, n, t, said, otherSaid);
        TalkingAppends(q, n1, talks[1..], said + t.data, otherSaid);
      } else {
        PairSwaps(p, n, true, Established, said, Established, otherSaid);
        TalkStep(p, n, t, otherSaid, said);
        PairSwaps(q, n1, true, Established, said, Established, otherSaid + t.data);
        TalkingAppends(q, n1, talks[1..], said, otherSaid + t.data);
      }
    }
  }

  lemma PairIsValid(p: Pair, n: Numbers, a: bool, state: TcpState, said: seq<byte>,
                    otherState: TcpState, otherSaid: seq<byte>)
    requires PairAt(p, n, a, state, said, otherState, otherSaid)
    ensures Valid(p.opener) && Valid(p.answerer)
  {
  }

  lemma FirstClose(p: Pair, n: Numbers, a: bool, last: Payload, lag: Lag, said: seq<byte>, otherSaid: seq<byte>)
    requires PairAt(p, n, a, Established, said, Established, otherSaid)
    ensures var (q, n') := Close(p, n, a, last, lag);
      PairAt(q, n', a, FinWait1, said + last, CloseWait, otherSaid)
  {
    hide StoredBytes, OnData;
    InOrderData(Side(p, a), SegmentFrom(n, a, true, lag), last, said);
    assert Wrap(Own(n, a) + |last| + 1) == Wrap(Own(n, a) + (|last| + 1));
  }

  /** An acknowledgement covers everything exactly if it does not lag. */
  lemma LagAcknowledges(x: u32, lag: Lag)
    ensures Delta(Wrap(x - lag as int), x) >= 0 <==> lag == 0
  {
    DeltaIsDifference(0, x - lag as int, x);
    assert Wrap(x) == x;
  }

  /** One segment between the two FINs; the other side's may acknowledge the first FIN. */
  lemma TailStep(p: Pair, n: Numbers, a: bool, t: Talk, state: TcpState, said: seq<byte>, otherSaid: seq<byte>)
    requires state == FinWait1 || state == FinWait2
    requires PairAt(p, n, a, state, said, CloseWait, otherSaid)
    requires t.byOpener != a || t.data == []
    ensures Valid(p.opener) && Valid(p.answerer)
    ensures PairAt(Exchange(p, t.byOpener, SegmentFrom(n, t.byOpener, false, t.lag), t.data),
                   Advance(n, t.byOpener, |t.data|), a,
                   if t.byOpener == a || t.lag > 0 then state else FinWait2, said,
                   CloseWait, if t.byOpener == a then otherSaid else otherSaid + t.data)
  {
    hide StoredBytes, OnData, Delta, Dist;
    if t.byOpener != a {
      InOrderData(Side(p, !a), SegmentFrom(n, !a, false, t.lag), t.data, otherSaid);
      LagAcknowledges(Own(n, a), t.lag);
    }
  }

  /** Between the two FINs only the other side adds anything. */
  lemma {:induction false} TailAppends(
    p: Pair, n: Numbers, a: bool, tail: seq<Talk>, state: TcpState, said: seq<byte>, otherSaid: seq<byte>)
    requires state == FinWait1 || state == FinWait2
    requires PairAt(p, n, a, state, said, CloseWait, otherSaid)
    requires forall t :: t in tail ==> t.byOpener != a || t.data == []
    ensures Valid(p.opener) && Valid(p.answerer)
    ensures var (q, n') := Played(p, n, tail);
      PairAt(q, n', a, if Acknowledges(tail, !a) then FinWait2 else state, said, CloseWait, otherSaid + Said(tail, !a))
    decreases |tail|
  {
    PairIsValid(p, n, a, state, said, CloseWait, otherSaid);
    hide PairAt, Exchange, SegmentFrom, Advance, Valid, Said, Acknowledges;
    SaidFrom(otherSaid, tail, !a);
    AcknowledgesFrom(tail, !a);
    if tail != [] {
      var t := tail[0];
      assert t in tail;
      TailStep(p, n, a, t, state, said, otherSaid);
      var q := Exchange(p, t.byOpener, SegmentFrom(n, t.byOpener, false, t.lag), t.data);
      var n1 := Advance(n, t.byOpener, |t.data|);
      if t.byOpener == a {
        TailAppends(q, n1, a, tail[1..], state, said, otherSaid);
      } else {
        TailAppends(q, n1, a, tail[1..], if t.lag > 0 then state else FinWait2, said, otherSaid + t.data);
      }
    }
  }

  lemma AcknowledgesFrom(talks: seq<Talk>, byOpener: bool)
    ensures Acknowledges(talks, byOpener) <==>
            talks != [] && ((talks[0].byOpener == byOpener && talks[0].lag == 0) || Acknowledges(talks[1..], byOpener))
  {
    if talks != [] {
      assert talks == [talks[0]] + talks[1..];
    }
  }

  lemma SecondClose(
    p: Pair, n: Numbers, a: bool, last: Payload, lag: Lag, state: TcpState, said: seq<byte>, otherSaid: seq<byte>)
    requires state == FinWait1 || state == FinWait2
    requires PairAt(p, n, a, state, said, CloseWait, otherSaid)
    ensures var (q, n') := Close(p, n, !a, last, lag);
      PairAt(q, n', a, if state == FinWait2 || lag == 0 then TimeWait else Closing, said, LastAck, otherSaid + last)
  {
    hide StoredBytes, OnData;
    InOrderData(Side(p, !a), SegmentFrom(n, !a, true, lag), last, otherSaid);
    LagAcknowledges(Own(n, a), lag);
    assert Wrap(Own(n, !a) + |last| + 1) == Wrap(Own(n, !a) + (|last| + 1));
  }

  lemma LastAcknowledgement(p: Pair, n: Numbers, a: bool, state: TcpState, said: seq<byte>, otherSaid: seq<byte>)
    requires state == TimeWait || state == Closing
    requires PairAt(p, n, a, state, said, LastAck, otherSaid)
    ensures PairAt(Exchange(p, a, SegmentFrom(n, a, false, 0), []), n, a, state, said, Closed, otherSaid)
  {
    hide StoredBytes;
    LagAcknowledges(Own(n, !a), 0);
  }

  /** What each side says in the whole conversation. */
  function Script(c: Conversation, byOpener: bool): seq<byte> {
    if byOpener == c.openerCloses
    then Said(c.talks, byOpener) + c.last
    else Said(c.talks, byOpener) + Said(c.tail, byOpener) + c.otherLast
  }

  /**
   Every in-order conversation, acknowledgements lagging or not: each machine has handed up
   exactly what its side said, the side that closes last ends in Closed, and the first
   closer ends in TimeWait exactly if its FIN was acknowledged by then, else in Closing.
   */
  lemma ConversationEndsProperly(c: Conversation)
    requires InOrder(c)
    ensures var r := Outcome(c);
      && Side(r, c.openerCloses).state == (if FinAcknowledged(c) then TimeWait else Closing)
      && Side(r, !c.openerCloses).state == Closed
      && History(r.opener) == Script(c, true)
      && History(r.answerer) == Script(c, false)
  {
    hide Ended;
    ConversationEnds(c);
  }

  lemma ConversationEnds(c: Conversation)
    requires InOrder(c)
    ensures var (r, n) := Ended(c);
      PairAt(r, n, c.openerCloses, if FinAcknowledged(c) then TimeWait else Closing, Script(c, c.openerCloses),
             Closed, Script(c, !c.openerCloses))
  {
    hide Handshake, Played, Close, Exchange, Acknowledges;
    var a := c.openerCloses;
    HandshakeEstablishes(c.isn);
    var (p0, n0) := Handshake(c.isn);
    TalkingAppends(p0, n0, c.talks, [], []);
    assert forall b :: [] + Said(c.talks, b) == Said(c.talks, b);
    var (p1, n1) := Played(p0, n0, c.talks);
    FirstClose(p1, n1, a, c.last, c.lastLag, Said(c.talks, a), Said(c.talks, !a));
    var (p2, n2) := Close(p1, n1, a, c.last, c.lastLag);
    TailAppends(p2, n2, a, c.tail, FinWait1, Script(c, a), Said(c.talks, !a));
    var (p3, n3) := Played(p2, n2, c.tail);
    var state := if Acknowledges(c.tail, !a) then FinWait2 else FinWait1;
    SecondClose(p3, n3, a, c.otherLast, c.otherLag, state, Script(c, a), Said(c.talks, !a) + Said(c.tail, !a));
    var (p4, n4) := Close(p3, n3, !a, c.otherLast, c.otherLag);
    LastAcknowledgement(p4, n4, a, if FinAcknowledged(c) then TimeWait else Closing, Script(c, a), Script(c, !a));
  }

  /**
   The FINs have crossed: the closer waits in Closing until a segment of the other side that
   does not lag acknowledges its FIN.
   */
  lemma CrossedFinsEnd(c: Conversation, lag: Lag)
    requires InOrder(c) && !FinAcknowledged(c)
    ensures var (p, n) := Ended(c);
      var r := Exchange(p, !c.openerCloses, SegmentFrom(n, !c.openerCloses, false, lag), []);
      && Side(r, c.openerCloses).state == (if lag == 0 then TimeWait else Closing)
      && Side(r, !c.openerCloses) == Side(p, !c.openerCloses)
  {
    hide Ended, OnData;
    ConversationEnds(c);
    LagAcknowledges(Own(Ended(c).1, c.openerCloses), lag);
  }

  /** Both sides open at once: a SYN each way, then an acknowledgement each way, in either order. */
  lemma SimultaneousOpen(isn: Numbers, openerFirst: bool)
    ensures var n := Advance(Advance(isn, true, 1), false, 1);
      var p1 := Exchange(Fresh(), true, Header(isn.opener, 0, true, false, false, false), []);
      var p2 := Exchange(p1, false, Header(isn.answerer, 0, true, false, false, false), []);
      var p3 := Exchange(p2, openerFirst, SegmentFrom(n, openerFirst, false, 0), []);
      var p4 := Exchange(p3, !openerFirst, SegmentFrom(n, !openerFirst, false, 0), []);
      PairAt(Exchange(p4, openerFirst, SegmentFrom(n, openerFirst, false, 0), []), n, true,
             Established, [], Established, [])
  {
    hide OnData;
    var n := Advance(Advance(isn, true, 1), false, 1);
    var p1 := Exchange(Fresh(), true, Header(isn.opener, 0, true, false, false, false), []);
    var p2 := Exchange(p1, false, Header(isn.answerer, 0, true, false, false, false), []);
    assert PairAt(p2, n, true, SynReceived, [], SynSent, []);
    OpeningSteps(p2, n, openerFirst);
  }

  lemma OpeningSteps(p: Pair, n: Numbers, openerFirst: bool)
    requires PairAt(p, n, true, SynReceived, [], SynSent, [])
    ensures Valid(p.opener) && Valid(p.answerer)
    ensures var q := Exchange(p, openerFirst, SegmentFrom(n, openerFirst, false, 0), []);
      var r := Exchange(q, !openerFirst, SegmentFrom(n, !openerFirst, false, 0), []);
      PairAt(Exchange(r, openerFirst, SegmentFrom(n, openerFirst, false, 0), []), n, true,
             Established, [], Established, [])
  {
    hide StoredBytes, OnData;
    InOrderData(p.answerer.(state := Established), SegmentFrom(n, false, false, 0), [], []);
    InOrderData(p.opener.(state := Established), SegmentFrom(n, true, false, 0), [], []);
    InOrderData(OnData(p.answerer.(state := Established), SegmentFrom(n, false, false, 0), []),
                SegmentFrom(n, false, false, 0), [], []);
    InOrderData(OnData(p.opener.(state := Established), SegmentFrom(n, true, false, 0), []),
                SegmentFrom(n, true, false, 0), [], []);
  }

  /** The opener closes with the packet that completes the handshake, whatever it says in it. */
  lemma ClosedWithTheHandshake(isn: Numbers, last: Payload)
    ensures var n := Advance(Advance(isn, true, 1), false, 1);
      var p1 := Exchange(Fresh(), true, Header(isn.opener, 0, true, false, false, false), []);
      var p2 := Exchange(p1, false, Header(isn.answerer, n.opener, true, true, false, false), []);
      var r := Exchange(p2, true, SegmentFrom(n, true, true, 0), last);
      PairAt(r, Advance(n, true, |last| + 1), true, FinWait1, last, CloseWait, [])
  {
    hide OnData;
    var n := Advance(Advance(isn, true, 1), false, 1);
    var p1 := Exchange(Fresh(), true, Header(isn.opener, 0, true, false, false, false), []);
    assert At(p1.opener, SynSent, n.opener, []);
    var p2 := Exchange(p1, false, Header(isn.answerer, n.opener, true, true, false, false), []);
    assert p2.opener == p1.opener && At(p2.answerer, SynReceived, n.answerer, []);
    InOrderData(p2.opener.(state := Established), SegmentFrom(n, true, true, 0), last, []);
    assert [] + last == last && Wrap(n.opener + |last| + 1) == Wrap(n.opener + (|last| + 1));
  }

  /**
   A capture that begins in the middle: the first packet of each side seeds its machine with
   all it carries. If the very first packet has a FIN, its sender has closed and the other
   side is the one that closes last.
   */
  lemma JoinedInTheMiddle(h: Header, data: Payload, answer: Header, reply: Payload)
    requires h.ack && !h.syn && !h.rst && answer.ack && !answer.syn && !answer.fin && !answer.rst
    ensures var p := Exchange(Fresh(), true, h, data); var r := Exchange(p, false, answer, reply);
      && History(r.opener) == data && History(r.answerer) == reply
      && At(r.answerer, if h.fin then CloseWait else Established, Wrap(answer.seqNumber + |reply|), reply)
      && p.opener.state == (if h.fin then FinWait1 else Established)
      && (!h.fin ==> At(r.opener, Established, Wrap(h.seqNumber + |data|), data))
  {
    hide StoredBytes, OnData;
    SeededInTheMiddle(h, data, Established);
    SeededInTheMiddle(answer, reply, if h.fin then CloseWait else Established);
    assert [] + data == data && [] + reply == reply;
  }

  lemma SeededInTheMiddle(h: Header, data: Payload, state: TcpState)
    ensures At(Seed(Initial(true), h.seqNumber, state), state, h.seqNumber, [])
    ensures var r := OnData(Seed(Initial(true), h.seqNumber, state), h, data);
      && (!h.fin ==> At(r, state, Wrap(h.seqNumber + |data|), data))
      && (h.fin ==> r.state == (if state == CloseWait then LastAck else FinWait1) && History(r) == data)
  {
    hide OnData;
    InOrderData(Seed(Initial(true), h.seqNumber, state), h, data, []);
    assert [] + data == data;
  }

  /**
   A RST from either side ends a connection: the machine keeps all it has but its state, and
   nothing this endpoint sends changes it. Before the first packet a RST does not seed it.
   */
  lemma {:induction false} ResetEnds(m: Machine, e: Event, sent: seq<Event>)
    requires Valid(m) && !e.Consumed? && e.h.rst && forall x :: x in sent ==> x.Sent?
    ensures Apply(m, e) == m.(state := Closed)
    ensures m.seeded ==> Run(Apply(m, e), sent) == m.(state := Closed)
    decreases |sent|
  {
    hide OnData, AfterIngest;
    if m.seeded && sent != [] {
      assert sent[0] in sent;
      assert Apply(Apply(m, e), sent[0]) == m.(state := Closed);
      ResetEnds(m, e, sent[1..]);
    }
  }
}
