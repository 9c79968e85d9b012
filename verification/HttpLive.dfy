/**
 One direction while the other one goes on: bytes arrive and are polled, and between polls the
 other direction queues the flags of further requests.
 */
module HttpLive {
  import opened Bytes
  import opened HttpParser
  import opened HttpPoll
  import opened HttpResume
  import opened HttpFragments
  import opened HttpPipeline
  import opened HttpRoundTrip
  import opened HttpRepoll
  import opened HttpOvertake

  /**
   Bytes arrive and are polled; or the other direction has read a request, a HEAD or not; or
   it has read responses, and `left` is what they have left of this direction's own flags.
   */
  datatype Happening = Arrives(bytes: seq<byte>) | Asks(isHead: bool) | Answered(left: seq<bool>)

  function Asked(s: State, isHead: bool): State {
    s.(peer := s.peer + [isHead])
  }

  function OwnLeft(s: State, left: seq<bool>): State {
    s.(apps := s.apps.(pendingHead := left))
  }

  function Happen(s: State, e: Happening): State {
    match e
    case Arrives(bytes) => Poll(Plus(s, bytes))
    case Asks(isHead) => Asked(s, isHead)
    case Answered(left) => OwnLeft(s, left)
  }

  function Live(s: State, es: seq<Happening>): State
    decreases |es|
  {
    if es == [] then s else Live(Happen(s, es[0]), es[1..])
  }

  /** The bytes that have arrived. */
  function Arrived(es: seq<Happening>): seq<byte> {
    if es == [] then []
    else (if es[0].Arrives? then es[0].bytes else []) + Arrived(es[1..])
  }

  /** A final response is at the front. */
  predicate FinalAtHead(s: State) {
    AtHead(s) && IsFinal(HeadOf(Window(s.buf)).value)
  }

  /** The flag comes for a response part of whose body has been looked at, and none waits before it. */
  predicate ComesLate(s: State, isHead: bool) {
    isHead && s.peer == [] && Remembers(s) && FinalAtHead(s)
  }

  /** Exactly which flags may be queued without one ever overtaking. */
  predicate MayAsk(s: State, isHead: bool) {
    Unmixed(s.peer + [isHead]) && !ComesLate(s, isHead)
  }

  lemma AskedStaysInStep(s: State, isHead: bool)
    requires InStep(s)
    ensures InStep(Asked(s, isHead)) <==> MayAsk(s, isHead)
  {
    hide HeadOf, Window, PrefixFits, ScanFits, Unmixed;
  }

  lemma OwnStaysInStep(s: State, left: seq<bool>)
    requires InStep(s)
    ensures InStep(OwnLeft(s, left))
  {
    hide HeadOf, Window, PrefixFits, ScanFits, Unmixed;
  }

  predicate AlwaysInStep(s: State, es: seq<Happening>)
    decreases |es|
  {
    InStep(s) && (es != [] ==> AlwaysInStep(Happen(s, es[0]), es[1..]))
  }

  /** Every flag is queued when it may be. */
  predicate AsksInTime(s: State, es: seq<Happening>)
    decreases |es|
  {
    es != [] ==> (es[0].Asks? ==> MayAsk(s, es[0].isHead)) && AsksInTime(Happen(s, es[0]), es[1..])
  }

  lemma {:induction false} LiveStaysInStepFrom(s: State, es: seq<Happening>)
    requires InStep(s)
    ensures AlwaysInStep(s, es) <==> AsksInTime(s, es)
    ensures AsksInTime(s, es) ==> InStep(Live(s, es))
    decreases |es|
  {
    hide Poll, InStep, MayAsk;
    if es != [] {
      match es[0] {
        case Arrives(bytes) =>
          ArrivalStaysInStep(s, bytes);
          PollStaysInStep(Plus(s, bytes));
        case Asks(isHead) => AskedStaysInStep(s, isHead);
        case Answered(left) => OwnStaysInStep(s, left);
      }
      if InStep(Happen(s, es[0])) {
        LiveStaysInStepFrom(Happen(s, es[0]), es[1..]);
      }
    }
  }

  /**
   Over every run of arrivals and requests from a fresh decoder: no flag overtakes a response,
   and none can with the flags that wait, exactly if each flag was queued in time. A flag is
   out of time if it is set and waits behind an unset one, or if it is set, alone, and comes
   while a chunked response is half read.
   */
  lemma LiveStaysInStep(es: seq<Happening>)
    ensures AlwaysInStep(Fresh([]), es) <==> AsksInTime(Fresh([]), es)
  {
    hide AlwaysInStep, AsksInTime;
    FreshIsInStep([]);
    LiveStaysInStepFrom(Fresh([]), es);
  }

  /** Flags that are queued one after the other, and then fragments that arrive. */
  datatype Leg = Leg(flags: seq<bool>, fragments: seq<seq<byte>>)

  function AskAll(s: State, flags: seq<bool>): State {
    s.(peer := s.peer + flags)
  }

  function RunLegs(s: State, legs: seq<Leg>): State
    decreases |legs|
  {
    if legs == [] then s
    else RunLegs(PollEach(AskAll(s, legs[0].flags), legs[0].fragments), legs[1..])
  }

  /** The same flags at the same places of the same stream. */
  predicate SameButForCuts(ls: seq<Leg>, ks: seq<Leg>) {
    |ls| == |ks| &&
    forall i :: 0 <= i < |ls| ==> ls[i].flags == ks[i].flags && Concat(ls[i].fragments) == Concat(ks[i].fragments)
  }

  /** Whenever flags have been queued the state is steady. */
  predicate LegsSteady(s: State, legs: seq<Leg>)
    decreases |legs|
  {
    legs != [] ==>
      var a := AskAll(s, legs[0].flags);
      Steady(a) && LegsSteady(PollEach(a, legs[0].fragments), legs[1..])
  }

  /** After the flags something is polled, and what is unread fits the limit. */
  predicate LegsWithin(s: State, legs: seq<Leg>)
    decreases |legs|
  {
    legs != [] ==>
      var a := AskAll(s, legs[0].flags);
      && legs[0].fragments != [] && Within(a, legs[0].fragments)
      && LegsWithin(PollEach(a, legs[0].fragments), legs[1..])
  }

  /** Exactly which flags keep a steady state steady. */
  lemma AskedStaysSteady(s: State, isHead: bool)
    requires Steady(s)
    ensures Steady(Asked(s, isHead)) <==> Calm(s.peer + [isHead]) && !ComesLate(s, isHead)
  {
    hide HeadOf, Window, PrefixFits, ScanFits, Calm;
  }

  /**
   Fragmentation independence while the queue grows: two runs that queue the same flags at
   the same places of the same stream end in the same state, however the stream is cut
   between them, as long as each flag keeps the state steady.
   */
  lemma {:induction false} GrowingQueueCutsAgree(s: State, ls: seq<Leg>, ks: seq<Leg>)
    requires SameButForCuts(ls, ks) && LegsSteady(s, ls) && LegsWithin(s, ls) && LegsWithin(s, ks)
    ensures RunLegs(s, ls) == RunLegs(s, ks)
    decreases |ls|
  {
    hide Steady, PollEach, Within;
    if ls != [] {
      CuttingDoesNotMatter(AskAll(s, ls[0].flags), ls[0].fragments, ks[0].fragments);
      GrowingQueueCutsAgree(PollEach(AskAll(s, ls[0].flags), ls[0].fragments), ls[1..], ks[1..]);
    }
  }

  /**
   What the growing queue does to a response that is not complete when the next request is
   read: it takes that request's flag as well, wherever it has been cut and whichever flag it
   is, while the flag would still wait had the response been complete.
   */
  lemma UnfinishedResponseTakesTheNextFlag(s: State, m: Message, k: nat, isHead: bool)
    requires HasBody(m) && Idle(s) && s.buf == [] && |s.peer| < 2 && !AnswersHead(s.peer, m.head)
    requires |EncodeHead(m.head)| <= k < |Wire(m)| <= MAX_HTTP_MESSAGE_BYTES
    ensures Live(s, [Arrives(Wire(m)[..k]), Asks(isHead), Arrives(Wire(m)[k..])]).peer == []
    ensures Live(s, [Arrives(Wire(m)[..k]), Arrives(Wire(m)[k..]), Asks(isHead)]).peer == [isHead]
  {
    var x, y := Wire(m)[..k], Wire(m)[k..];
    LiveThree(s, Arrives(x), Asks(isHead), Arrives(y));
    LiveThree(s, Arrives(x), Arrives(y), Asks(isHead));
    hide Live, HasBody, Wire, Idle, EncodeHead, Poll;
    FlagIsTaken(s, m, k, isHead);
    FlagIsLeft(s, m, k);
  }

  lemma FlagIsTaken(s: State, m: Message, k: nat, isHead: bool)
    requires HasBody(m) && Idle(s) && s.buf == [] && |s.peer| < 2 && !AnswersHead(s.peer, m.head)
    requires |EncodeHead(m.head)| <= k < |Wire(m)| <= MAX_HTTP_MESSAGE_BYTES
    ensures Poll(Plus(Asked(Poll(Plus(s, Wire(m)[..k])), isHead), Wire(m)[k..])).peer == []
  {
    hide Turn, Poll, EncodeHead, Writable, BodyFits, BodyBytes;
    var x, y := Wire(m)[..k], Wire(m)[k..];
    var s0 := Plus(s, x);
    assert s0.buf == x && x + y == Wire(m);
    PartWaits(s0, m, y);
    WaitKeepsFront(s0);
    var s2 := Plus(Asked(Poll(s0), isHead), y);
    assert s2.buf == Wire(m) + [];
    HeadIsFound(m, []);
    assert s2.peer == [isHead];
    AnsweringTakesOne(s2);
    TurnThenPoll(s2);
  }

  lemma FlagIsLeft(s: State, m: Message, k: nat)
    requires HasBody(m) && Idle(s) && s.buf == [] && |s.peer| < 2 && !AnswersHead(s.peer, m.head)
    requires k <= |Wire(m)| <= MAX_HTTP_MESSAGE_BYTES
    ensures Poll(Plus(Poll(Plus(s, Wire(m)[..k])), Wire(m)[k..])).peer == []
  {
    ApartWithoutLoss(s, m, k);
    hide Turn, Poll, EncodeHead, Writable, BodyFits, BodyBytes;
    var full := Plus(s, Wire(m));
    assert full.buf == Wire(m) + [];
    MessageTurn(full, m, []);
    EmptyPoll(Turn(full).s);
    TurnThenPoll(full);
  }

  lemma LiveThree(s: State, a: Happening, b: Happening, c: Happening)
    ensures Live(s, [a, b, c]) == Happen(Happen(Happen(s, a), b), c)
  {
    hide Happen;
    assert [a, b, c][1..] == [b, c] && [b, c][1..] == [c];
    assert Live(Happen(Happen(s, a), b), [c]) == Happen(Happen(Happen(s, a), b), c);
  }
}
