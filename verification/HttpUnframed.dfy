/**
 Where bodies end, told from what is written: a length in decimal, a response that never has a
 body, and a response that lasts until the connection closes.
 */
module HttpUnframed {
  import opened Bytes
  import opened HttpText
  import opened HttpParser
  import opened HttpRoundTrip
  import opened HttpGrammar
  import opened HttpPoll
  import opened HttpResume
  import opened HttpFragments
  import opened HttpPipeline

  /** No field says anything about the body. */
  predicate SaysNothing(fields: seq<Field>) {
    NoneSaysEncoding(fields) && NoneSaysLength(fields)
  }

  /** A field list whose one field about the body says this many octets, in decimal with leading zeros or not. */
  predicate SaysOctets(fields: seq<Field>, i: nat, k: nat, n: nat) {
    && i < |fields| && SaysLength(fields[i]) && fields[i].value == Noughts(k) + Decimal(n)
    && forall j :: 0 <= j < |fields| && j != i ==> !SaysLength(fields[j]) && !SaysEncoding(fields[j])
  }

  lemma LengthIsNoEncoding(f: Field)
    ensures !(SaysLength(f) && SaysEncoding(f))
  {
  }

  /** A length written in decimal frames that many octets, if it fits 64 bits, and is malformed otherwise. */
  lemma WrittenLengthFrames(fields: seq<Field>, i: nat, k: nat, n: nat)
    requires SaysOctets(fields, i, k, n)
    ensures FramingOf(fields) ==
            if n < 0x1_0000_0000_0000_0000 then Good(Length(n)) else Wrong(MalformedHeader)
  {
    var v := fields[i].value;
    LengthIsNoEncoding(fields[i]);
    DecimalsAreNumbers(v, n);
    FramingMeans(fields);
    assert NoneSaysEncoding(fields);
    assert OneLength(fields, v) by { assert SaysLength(fields[i]); }
    hide DecimalOf, SaysLength, SaysEncoding, TransferEncodings, ContentLengths;
    if n >= 0x1_0000_0000_0000_0000 {
      TooLongIsMalformed(fields, v, n);
    }
  }

  lemma TooLongIsMalformed(fields: seq<Field>, v: seq<byte>, n: nat)
    requires OneLength(fields, v) && NoneSaysEncoding(fields) && DecimalOf(v) != Some(n)
    requires n >= 0x1_0000_0000_0000_0000 && exists k: nat :: v == Noughts(k) + Decimal(n)
    ensures FramingOf(fields) == Wrong(MalformedHeader)
  {
    var k: nat :| v == Noughts(k) + Decimal(n);
    DecimalValueOf(n, k);
    FramingMeans(fields);
    assert DecimalOf(v) == None;
    hide SaysLength, SaysEncoding, TransferEncodings, ContentLengths, DecimalOf;
    forall w | OneLength(fields, w)
      ensures w == v
    {
      SameOneLength(fields, v, w);
    }
  }

  lemma SameOneLength(fields: seq<Field>, v: seq<byte>, w: seq<byte>)
    requires OneLength(fields, v) && OneLength(fields, w)
    ensures v == w
  {
    var i :| 0 <= i < |fields| && SaysLength(fields[i]);
  }

  /** A head with these fields, the framing written out. */
  function Sized(h: Header, fields: seq<Field>, n: nat): Header {
    h.(fields := fields, hasContentLength := true, contentLength := n, chunked := false)
  }

  /**
   A message whose body's size is written in decimal, whatever else its fields say, is one the
   pipeline results are about.
   */
  lemma SizedIsProper(h: Header, fields: seq<Field>, i: nat, k: nat, body: seq<byte>)
    requires WellFormedStart(h) && forall f :: f in fields ==> WellFormedField(f)
    requires SaysOctets(fields, i, k, |body|) && |body| < 0x1_0000_0000_0000_0000
    requires h.kind == Response ==> !(100 <= h.statusCode < 200) && h.statusCode != 204 && h.statusCode != 304
    ensures WellFormedHead(Sized(h, fields, |body|))
    ensures |EncodeHead(Sized(h, fields, |body|))| <= 32768 ==>
              Proper(Message(Sized(h, fields, |body|), Plain(body)), false)
  {
    hide WellFormedField, FramingOf, EncodeHead;
    WrittenLengthFrames(fields, i, k, |body|);
  }

  /**
   A response that never has a body ends with its head, whatever its fields say: the next
   message starts right behind it.
   */
  lemma NothingBehindHead(s: State, h: Header, rest: seq<byte>)
    requires Idle(s) && s.buf == [] && WellFormedHead(h) && |EncodeHead(h)| <= 32768
    requires h.kind == Response && (100 <= h.statusCode < 200 || h.statusCode == 204 || h.statusCode == 304)
    ensures Poll(Plus(s, EncodeHead(h) + rest)) == Poll(Plus(Having(s, Message(h, Plain([]))), rest))
  {
    hide Turn, EncodeHead, WellFormedHead, Remember;
    var m := Message(h, Plain([]));
    var full := Plus(s, EncodeHead(h) + rest);
    assert full.buf == Wire(m) + rest;
    MessageTurn(full, m, rest);
    assert Having(full, m).(buf := rest) == Plus(Having(s, m), rest);
  }

  /** A final response about whose body nothing is said: it lasts until the connection closes. */
  predicate LastsUntilClose(h: Header) {
    && WellFormedHead(h) && |EncodeHead(h)| <= 32768 && SaysNothing(h.fields)
    && h.kind == Response && !(100 <= h.statusCode < 200) && h.statusCode != 204 && h.statusCode != 304
  }

  lemma SaysNothingIsUnframed(h: Header)
    requires WellFormedHead(h) && SaysNothing(h.fields)
    ensures !h.chunked && !h.hasContentLength
  {
    hide WellFormedStart, WellFormedField;
    FramingMeans(h.fields);
    hide SaysLength, SaysEncoding, FramingOf;
  }

  /** Everything behind the head has been, and will be, read as its body. */
  function Closing(s: State, h: Header): State {
    var r := Having(s, Message(h, Plain([])));
    r.(apps := r.apps.(bodyUntilClose := true))
  }

  /** Once a body lasts until close, everything that arrives is taken, and nothing else happens. */
  lemma {:induction false} ClosingTakesAll(s: State, h: Header, fs: seq<seq<byte>>)
    requires Idle(s) && s.buf == []
    ensures PollEach(Closing(s, h), fs) == Closing(s, h)
    decreases |fs|
  {
    if fs != [] {
      UntilCloseTakes(Plus(Closing(s, h), fs[0]));
      hide Poll;
      ClosingTakesAll(s, h, fs[1..]);
    }
  }

  lemma UntilCloseTakes(s: State)
    requires s.apps.bodyUntilClose && s.apps.skip == 0
    ensures Poll(s) == s.(buf := [])
  {
    hide HeadOf, WithHead, HeadIsBad;
  }

  /** The poll that finds the head. */
  lemma HeadThenAll(s: State, h: Header, t: seq<byte>)
    requires Idle(s) && s.buf == [] && LastsUntilClose(h) && !AnswersHead(s.peer, h)
    ensures Poll(Plus(s, EncodeHead(h) + t)) == Closing(s, h)
  {
    hide Turn, EncodeHead, WellFormedHead, HeadOf, Window, SaysNothing;
    var m := Message(h, Plain(t));
    SaysNothingIsUnframed(h);
    assert Wire(m) == EncodeHead(h) + t && Wire(m) + [] == Wire(m);
    HeadIsFound(m, []);
    var full := Plus(s, EncodeHead(h) + t);
    assert full.buf == Wire(m);
    TurnAtHead(full);
    UntilCloseTurn(full, h, |EncodeHead(h)|);
    UntilCloseTakes(Turn(full).s);
    GoesOn(full);
  }

  lemma UntilCloseTurn(s: State, h: Header, start: nat)
    requires 0 < start <= |s.buf| && Idle(s) && !h.chunked && !h.hasContentLength && h.kind == Response
    requires !(100 <= h.statusCode < 200) && h.statusCode != 204 && h.statusCode != 304
    requires !AnswersHead(s.peer, h)
    ensures WithHead(s, h, start) == Again(Closing(s, h).(buf := s.buf[start..]))
  {
  }

  lemma GoesOn(s: State)
    ensures Turn(s).Again? ==> Poll(s) == Poll(Turn(s).s)
  {
    hide Turn;
  }

  /** While the head is not all there, it waits. */
  lemma PartOfHeadWaits(s: State, h: Header, x: seq<byte>, y: seq<byte>)
    requires Idle(s) && s.buf == [] && WellFormedHead(h) && |EncodeHead(h)| <= 32768
    requires x + y == EncodeHead(h) && y != []
    ensures Poll(Plus(s, x)) == Plus(s, x)
  {
    hide HeadOf, EncodeHead, WellFormedHead, HeadIsBad, Window, Turn;
    var m := Message(h, Plain([]));
    assert Wire(m) == EncodeHead(h) && Wire(m) + [] == x + y;
    HeadIsFound(m, []);
    WindowExtends(x, y);
    HeadGotIsNotBad(x + y);
    var part := Plus(s, x);
    assert part.buf == x;
    if HeadOf(Window(x)).Fail? {
      UnfinishedWaits(part);
      StopsThere(part);
    }
  }

  lemma StopsThere(s: State)
    requires Turn(s) == Wait(s)
    ensures Poll(s) == s
  {
    hide Turn;
  }

  /**
   A response that lasts until close, behind it anything at all, in any pieces: the response is
   recorded, everything behind its head is taken as its body and nothing of it as a message,
   and that stays so for whatever follows.
   */
  lemma {:induction false} UntilCloseIsTaken(s: State, h: Header, t: seq<byte>, x: seq<byte>, fs: seq<seq<byte>>)
    requires Idle(s) && s.buf == [] && LastsUntilClose(h) && !AnswersHead(s.peer, h)
    requires x + Concat(fs) == EncodeHead(h) + t && |x| < |EncodeHead(h)|
    ensures PollEach(Plus(s, x), fs) == Closing(s, h)
    decreases |fs|
  {
    hide Poll, EncodeHead, WellFormedHead, SaysNothing, Idle, Closing;
    var head := EncodeHead(h);
    if fs != [] {
      var f, more := fs[0], Concat(fs[1..]);
      assert x + (f + more) == x + f + more;
      assert Plus(Plus(s, x), f) == Plus(s, x + f) by { assert s.buf + x + f == s.buf + (x + f); }
      if |x + f| < |head| {
        var y := head[|x + f|..];
        assert (x + f + more)[..|x + f|] == x + f && (head + t)[..|x + f|] == head[..|x + f|];
        PartOfHeadWaits(s, h, x + f, y);
        UntilCloseIsTaken(s, h, t, x + f, fs[1..]);
      } else {
        assert (x + f + more)[..|head|] == (x + f)[..|head|] && (head + t)[..|head|] == head;
        var behind := (x + f)[|head|..];
        assert x + f == head + behind;
        HeadThenAll(s, h, behind);
        ClosingTakesAll(s, h, fs[1..]);
      }
    }
  }

  /** From an idle decoder, with what the outcome means. */
  lemma UntilCloseIsOneMessage(s: State, h: Header, t: seq<byte>, fs: seq<seq<byte>>)
    requires Idle(s) && s.buf == [] && LastsUntilClose(h) && !AnswersHead(s.peer, h)
    requires Concat(fs) == EncodeHead(h) + t
    ensures var r := PollEach(s, fs);
      && r.apps.messages == s.apps.messages + [h] && r.buf == [] && r.apps.bodyUntilClose
      && r.apps.decodeFailures == s.apps.decodeFailures && r.apps.pendingHead == s.apps.pendingHead
  {
    hide PollEach, EncodeHead, WellFormedHead, SaysNothing;
    assert Plus(s, []) == s && [] + Concat(fs) == Concat(fs);
    HeadIsNotEmpty(h);
    UntilCloseIsTaken(s, h, t, [], fs);
  }

  lemma HeadIsNotEmpty(h: Header)
    requires WellFormedHead(h)
    ensures EncodeHead(h) != []
  {
    hide WellFormedHead, StartLine, EncodeFields;
  }
}
