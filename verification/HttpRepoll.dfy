/**
 What the queue of pending requests does to fragmentation. A response whose body is not all
 there takes a flag from that queue again at every poll, so the result depends on the cut
 exactly when a response with a body may arrive while more than its own flag is waiting.
 */
module HttpRepoll {
  import opened Bytes
  import opened HttpText
  import opened HttpParser
  import opened HttpStability
  import opened HttpRoundTrip
  import opened HttpPoll
  import opened HttpResume
  import opened HttpFragments
  import opened HttpPipeline

  /** A final response with a body, sized or chunked. */
  predicate HasBody(m: Message) {
    Proper(m, false) && IsFinal(m.head) && BodyBytes(m.body) != []
  }

  lemma {:induction false} PeerNeverGrows(s: State)
    ensures |Poll(s).peer| <= |s.peer|
    decreases |s.buf|
  {
    TurnTakesAtMostOne(s);
    hide Turn;
    if Turn(s).Again? {
      PeerNeverGrows(Turn(s).s);
    }
  }

  lemma TurnTakesAtMostOne(s: State)
    ensures |s.peer| - 1 <= |Turn(s).s.peer| <= |s.peer|
  {
    hide HeadOf, BodyOf, Remember;
  }

  /** A final response at the front takes exactly one flag. */
  lemma AnsweringTakesOne(s: State)
    requires Answering(s)
    ensures Turn(s).s.peer == s.peer[1..]
  {
    hide HeadOf, Turn, Window;
    if Flagged(s) {
      FlaggedTurn(s);
    } else {
      FlagsOnlyMatterWhenSet(s);
    }
  }

  /** The two ways of polling a response: whole, or cut after `k` bytes. */
  function Together(s: State, m: Message): State
    requires Writable(m)
  {
    Poll(Plus(s, Wire(m)))
  }

  function Apart(s: State, m: Message, k: nat): State
    requires Writable(m) && k <= |Wire(m)|
  {
    Poll(Plus(Poll(Plus(s, Wire(m)[..k])), Wire(m)[k..]))
  }

  /**
   Where a response is cut after its head, sized or chunked, between two polls. If it does
   not answer a HEAD, the result is the same exactly when no further flag is waiting: the
   second poll takes another one. If it does answer a HEAD, its head is the whole message,
   and polling after it changes nothing.
   */
  lemma CutInBodyMatters(s: State, m: Message, k: nat)
    requires HasBody(m) && Idle(s) && s.buf == []
    requires |EncodeHead(m.head)| <= k < |Wire(m)| <= MAX_HTTP_MESSAGE_BYTES
    requires AnswersHead(s.peer, m.head) ==> k == |EncodeHead(m.head)|
    ensures Apart(s, m, k) == Together(s, m) <==> |s.peer| < 2 || s.peer[0]
  {
    hide Turn, Poll, EncodeHead, Writable, BodyFits, Idle;
    assert Wire(m) == Wire(m)[..k] + Wire(m)[k..];
    if AnswersHead(s.peer, m.head) {
      ApartAfterHead(s, m);
    } else if |s.peer| < 2 {
      ApartWithoutLoss(s, m, k);
    } else {
      ApartWithLoss(s, m, k);
    }
  }

  /** A response to a HEAD ends with its head, whatever its fields say. */
  lemma HeadEndsIt(s: State, m: Message, rest: seq<byte>)
    requires Writable(m) && Idle(s) && s.buf == [] && AnswersHead(s.peer, m.head)
    ensures Poll(Plus(s, EncodeHead(m.head) + rest)) == Poll(Plus(Having(s, m), rest))
  {
    hide Turn, EncodeHead, WellFormedHead, Remember;
    var m' := m.(body := Plain([]));
    assert Wire(m') == EncodeHead(m.head);
    var full := Plus(s, EncodeHead(m.head) + rest);
    assert full.buf == Wire(m') + rest;
    MessageTurn(full, m', rest);
    assert Having(full, m').(buf := rest) == Plus(Having(s, m), rest);
  }

  lemma ApartAfterHead(s: State, m: Message)
    requires HasBody(m) && Idle(s) && s.buf == [] && AnswersHead(s.peer, m.head)
    ensures Apart(s, m, |EncodeHead(m.head)|) == Together(s, m)
  {
    hide Turn, Poll, EncodeHead, WellFormedHead, BodyBytes, Remember;
    var head, body := EncodeHead(m.head), BodyBytes(m.body);
    assert Wire(m)[..|head|] == head + [] && Wire(m)[|head|..] == body;
    HeadEndsIt(s, m, []);
    HeadEndsIt(s, m, body);
    assert Plus(Having(s, m), []) == Having(s, m);
    EmptyPoll(Having(s, m));
  }

  lemma ApartWithoutLoss(s: State, m: Message, k: nat)
    requires HasBody(m) && Idle(s) && s.buf == [] && |s.peer| < 2
    requires k <= |Wire(m)| <= MAX_HTTP_MESSAGE_BYTES
    ensures Apart(s, m, k) == Together(s, m)
  {
    hide Turn, Poll, Wire;
    var x, y := Wire(m)[..k], Wire(m)[k..];
    ReadyIsSettled(s, x, y);
    PollExtends(Plus(s, x), y);
    assert x + y == Wire(m);
    assert Plus(Plus(s, x), y) == Plus(s, Wire(m)) by { assert s.buf + x + y == s.buf + (x + y); }
  }

  lemma ApartWithLoss(s: State, m: Message, k: nat)
    requires HasBody(m) && Idle(s) && s.buf == [] && |s.peer| >= 2 && !s.peer[0]
    requires |EncodeHead(m.head)| <= k < |Wire(m)| <= MAX_HTTP_MESSAGE_BYTES
    ensures |Apart(s, m, k).peer| < |Together(s, m).peer|
  {
    hide Turn, Poll, EncodeHead, WellFormedHead, BodyFits, BodyBytes, Remember;
    var x, y := Wire(m)[..k], Wire(m)[k..];
    var s0 := Plus(s, x);
    assert s0.buf == x && x + y == Wire(m);
    PartWaits(s0, m, y);
    WaitKeepsFront(s0);
    var s2 := Plus(Poll(s0), y);
    assert s2.buf == Wire(m) + [];
    HeadIsFound(m, []);
    AnsweringTakesOne(s2);
    TurnThenPoll(s2);
    var full := Plus(s, Wire(m));
    assert full.buf == Wire(m) + [];
    MessageTurn(full, m, []);
    EmptyPoll(Turn(full).s);
    TurnThenPoll(full);
  }

  lemma TurnThenPoll(s: State)
    ensures Turn(s).Again? ==> Poll(s) == Poll(Turn(s).s)
    ensures |Poll(s).peer| <= |Turn(s).s.peer|
  {
    hide Turn;
    if Turn(s).Again? {
      PeerNeverGrows(Turn(s).s);
    }
  }

  /** `HTTP/1.1 200`, one byte of content. */
  function ExampleResponse(): Message {
    var length := Field(Ascii("Content-Length"), Ascii("1"));
    Message(Header(Response, [], [], Ascii("HTTP/1.1"), 200, [], [length], true, 1, false), Plain([65]))
  }

  lemma ExampleFraming()
    ensures FramingOf(ExampleResponse().head.fields) == Good(Length(1))
  {
    FieldNamesDiffer();
    var fields := ExampleResponse().head.fields;
    assert fields[..0] == [];
    var value := Ascii("1");
    assert value == [49];
    assert value[..0] == [];
    assert DecimalValue(value) == 1;
    assert TransferEncodings(fields) == [];
    assert ContentLengths(fields) == [value];
  }

  lemma ExampleHasBody()
    ensures HasBody(ExampleResponse()) && |Wire(ExampleResponse())| == 37
  {
    var m := ExampleResponse();
    ExampleFraming();
    ExampleFieldIsWellFormed();
    assert |StartLine(m.head)| == 13;
    assert EncodeFields(m.head.fields[1..]) == Line([]);
  }

  lemma ExampleFieldIsWellFormed()
    ensures WellFormedField(ExampleResponse().head.fields[0])
  {
    var name := Ascii("Content-Length");
    assert name == [67, 111, 110, 116, 101, 110, 116, 45, 76, 101, 110, 103, 116, 104];
    assert IsTokenChar(45) by {
      assert Ascii("!#$%&'*+-.^_`|~")[8] == 45;
    }
    assert Ascii("1") == [49];
  }

  /** The case that goes wrong does occur: two requests are waiting and the first was not a HEAD. */
  lemma ExampleIsAffected()
    ensures HasBody(ExampleResponse()) && |Wire(ExampleResponse())| == 37
    ensures Apart(Fresh([false, true]), ExampleResponse(), 36) != Together(Fresh([false, true]), ExampleResponse())
  {
    ExampleHasBody();
    var m := ExampleResponse();
    assert |BodyBytes(m.body)| == 1;
    hide HasBody, EncodeHead, Poll, Wire, ExampleResponse;
    HasBodyIsWritable(m);
    WireLength(m);
    CutInBodyMatters(Fresh([false, true]), m, 36);
  }

  lemma WireLength(m: Message)
    requires Writable(m)
    ensures |Wire(m)| == |EncodeHead(m.head)| + |BodyBytes(m.body)|
  {
  }

  /** Two ways of cutting a stream that both stay within the limit end in the same state. */
  predicate CutsAgree(s: State, fs: seq<seq<byte>>, gs: seq<seq<byte>>) {
    Concat(fs) == Concat(gs) && Within(s, fs) && Within(s, gs) ==> PollEach(s, fs) == PollEach(s, gs)
  }

  /** One cut in a body makes the difference. */
  lemma OneCutDisagrees(s: State, m: Message, k: nat)
    requires HasBody(m) && Idle(s) && s.buf == [] && |s.peer| >= 2 && !s.peer[0]
    requires |EncodeHead(m.head)| <= k < |Wire(m)| <= MAX_HTTP_MESSAGE_BYTES
    ensures var fs, gs := [Wire(m)[..k], Wire(m)[k..]], [Wire(m)];
      && Concat(fs) == Concat(gs) && Within(s, fs) && Within(s, gs)
      && PollEach(s, fs) != PollEach(s, gs)
  {
    hide Turn, Poll, EncodeHead, Wire, Writable;
    var x, y := Wire(m)[..k], Wire(m)[k..];
    CutInBodyMatters(s, m, k);
    assert Plus(s, x).buf == x && x + y == Wire(m);
    PartWaits(Plus(s, x), m, y);
    PollTwo(s, x, y);
    PollOne(s, Wire(m));
    assert Plus(s, Wire(m)).buf == Wire(m);
  }

  lemma PollOne(s: State, x: seq<byte>)
    ensures PollEach(s, [x]) == Poll(Plus(s, x)) && Concat([x]) == x
    ensures Within(s, [x]) <==> |s.buf| + |x| <= MAX_HTTP_MESSAGE_BYTES
  {
    hide Poll;
    assert [x][1..] == [] && x + Concat([]) == x;
  }

  lemma PollTwo(s: State, x: seq<byte>, y: seq<byte>)
    ensures PollEach(s, [x, y]) == Poll(Plus(Poll(Plus(s, x)), y)) && Concat([x, y]) == x + y
    ensures Within(s, [x, y]) <==>
            |s.buf| + |x| <= MAX_HTTP_MESSAGE_BYTES && |Poll(Plus(s, x)).buf| + |y| <= MAX_HTTP_MESSAGE_BYTES
  {
    hide Poll;
    assert [x, y][1..] == [y];
    PollOne(Poll(Plus(s, x)), y);
  }

  lemma HavingIsIdle(s: State, m: Message)
    requires Idle(s)
    ensures Idle(Having(s, m))
  {
  }

  lemma HasBodyIsWritable(m: Message)
    requires HasBody(m)
    ensures Writable(m) && IsFinal(m.head) && Proper(m, false) && BodyBytes(m.body) != []
  {
  }

  /** While a flag is unset in front of another one, some stream is decoded differently when cut differently. */
  lemma {:induction false} FindDisagreement(s: State, m: Message) returns (fs: seq<seq<byte>>, gs: seq<seq<byte>>)
    requires Idle(s) && s.buf == [] && !Calm(s.peer)
    requires HasBody(m) && |Wire(m)| <= MAX_HTTP_MESSAGE_BYTES
    ensures Concat(fs) == Concat(gs) && Within(s, fs) && Within(s, gs)
    ensures PollEach(s, fs) != PollEach(s, gs)
    decreases |s.peer|
  {
    HasBodyIsWritable(m);
    hide Turn, Poll, HasBody, Remember, EncodeHead, BodyBytes, Idle, BodyFits, WellFormedHead;
    var head := EncodeHead(m.head);
    if s.peer[0] {
      var s1 := Having(s, m);
      HavingIsIdle(s, m);
      HeadEndsIt(s, m, []);
      assert head + [] == head && Plus(s1, []) == s1;
      EmptyPoll(s1);
      NotCalmTail(s.peer);
      var fs1, gs1 := FindDisagreement(s1, m);
      fs, gs := [head] + fs1, [head] + gs1;
      assert fs[1..] == fs1 && gs[1..] == gs1;
    } else {
      OneCutDisagrees(s, m, |head|);
      fs, gs := [Wire(m)[..|head|], Wire(m)[|head|..]], [Wire(m)];
    }
  }

  lemma NotCalmTail(p: seq<bool>)
    requires !Calm(p) && p[0]
    ensures !Calm(p[1..]) && p != []
  {
    var i :| 0 <= i < |p| - 1 && !p[i];
    assert !p[1..][i - 1];
  }

  /**
   Exactly when the way the stream to come is cut cannot matter, while no further flag is
   queued: when every waiting flag but the last belongs to a HEAD. The moment is any at which
   nothing is half read, however the flags have come to wait.
   */
  lemma CutsAgreeExactly(s: State)
    requires Idle(s) && s.buf == []
    ensures (forall fs, gs :: CutsAgree(s, fs, gs)) <==> Calm(s.peer)
  {
    hide Poll, PollEach, Within, HasBody, Wire, ExampleResponse;
    if Calm(s.peer) {
      EmptyPoll(s);
      forall fs, gs
        ensures CutsAgree(s, fs, gs)
      {
        if Concat(fs) == Concat(gs) && Within(s, fs) && Within(s, gs) {
          CuttingDoesNotMatter(s, fs, gs);
        }
      }
    } else {
      ExampleHasBody();
      var fs, gs := FindDisagreement(s, ExampleResponse());
      assert !CutsAgree(s, fs, gs);
    }
  }
}
