/** DNS over TCP: length-prefixed messages taken from the stream as they become whole. */
module DnsPoll {
  import opened Bytes
  import opened DnsMessage

  /** Failures, messages and unread bytes of one direction. */
  datatype State = State(failures: nat, messages: seq<Header>, buf: seq<byte>)

  /** The front of the buffer is a whole frame: two length bytes and that many more. */
  predicate HasFrame(buf: seq<byte>) {
    |buf| >= 2 && |buf| >= 2 + Be16(buf, 0)
  }

  function Frame(buf: seq<byte>): seq<byte>
    requires HasFrame(buf)
  {
    buf[2..2 + Be16(buf, 0)]
  }

  /** A frame is consumed by its declared length, whether its message parses or not. */
  function TakeFrame(s: State): State
    requires HasFrame(s.buf)
  {
    var rest := s.buf[2 + Be16(s.buf, 0)..];
    match MessageOf(Frame(s.buf))
    case Err(_) => s.(failures := s.failures + 1, buf := rest)
    case Ok(h, _) => s.(messages := s.messages + [h], buf := rest)
  }

  function Poll(s: State): State
    decreases |s.buf|
  {
    if HasFrame(s.buf) then Poll(TakeFrame(s)) else s
  }

  function Plus(s: State, t: seq<byte>): State {
    s.(buf := s.buf + t)
  }

  lemma FrameExtends(s: State, t: seq<byte>)
    requires HasFrame(s.buf)
    ensures HasFrame(s.buf + t) && TakeFrame(Plus(s, t)) == Plus(TakeFrame(s), t)
  {
    hide MessageOf;
    var n := Be16(s.buf, 0);
    assert (s.buf + t)[2..2 + n] == s.buf[2..2 + n];
    assert (s.buf + t)[2 + n..] == s.buf[2 + n..] + t;
  }

  lemma {:induction false} PollExtends(s: State, t: seq<byte>)
    ensures Poll(Plus(Poll(s), t)) == Poll(Plus(s, t))
    decreases |s.buf|
  {
    hide TakeFrame, HasFrame;
    if HasFrame(s.buf) {
      FrameExtends(s, t);
      TakeFrameShrinks(s);
      PollExtends(TakeFrame(s), t);
    }
  }

  lemma TakeFrameShrinks(s: State)
    requires HasFrame(s.buf)
    ensures |TakeFrame(s).buf| < |s.buf|
  {
  }

  /** Polls after every fragment. */
  function PollEach(s: State, fragments: seq<seq<byte>>): State
    decreases |fragments|
  {
    if fragments == [] then s else PollEach(Poll(Plus(s, fragments[0])), fragments[1..])
  }

  /** Fragmentation independence, from any state, for any cut and any contents. */
  lemma {:induction false} FragmentationDoesNotMatter(s: State, fragments: seq<seq<byte>>)
    requires fragments != []
    ensures PollEach(s, fragments) == Poll(Plus(s, Concat(fragments)))
    decreases |fragments|
  {
    hide Poll;
    var f, more := fragments[0], Concat(fragments[1..]);
    PollExtends(Plus(s, f), more);
    assert s.buf + f + more == s.buf + (f + more);
    if fragments[1..] == [] {
      assert s.buf + f + [] == s.buf + f;
    } else {
      FragmentationDoesNotMatter(Poll(Plus(s, f)), fragments[1..]);
    }
  }

  /** A message and its length, as section 4.2.2 of RFC 1035 frames it. */
  function Framed(msg: seq<byte>): seq<byte>
    requires IsU16(|msg|)
  {
    Bytes16(|msg|) + msg
  }

  predicate Sendable(msg: seq<byte>) {
    IsU16(|msg|)
  }

  function FramedAll(msgs: seq<seq<byte>>): seq<byte>
    requires forall m :: m in msgs ==> Sendable(m)
  {
    if msgs == [] then [] else
      assert Sendable(msgs[0]);
      Framed(msgs[0]) + FramedAll(msgs[1..])
  }

  /** The messages that parse, in order. */
  function Parsed(msgs: seq<seq<byte>>): seq<Header> {
    if msgs == [] then []
    else (match MessageOf(msgs[0]) case Ok(h, _) => [h] case Err(_) => []) + Parsed(msgs[1..])
  }

  lemma FrameReadBack(s: State, msg: seq<byte>, rest: seq<byte>)
    requires Sendable(msg) && s.buf == Framed(msg) + rest
    ensures HasFrame(s.buf) && Frame(s.buf) == msg && s.buf[2 + Be16(s.buf, 0)..] == rest
  {
    Be16OfBytes(s.buf, [], |msg|, msg + rest);
    assert s.buf == [] + Bytes16(|msg|) + (msg + rest);
  }

  /**
   Any sequence of framed byte strings is split exactly at the frames: those that parse are
   recorded in order, the others are counted as failures, and nothing is left over. A bad
   message never disturbs the next one.
   */
  lemma {:induction false} FramesAreSplit(s: State, msgs: seq<seq<byte>>)
    requires forall m :: m in msgs ==> Sendable(m)
    requires s.buf == FramedAll(msgs)
    ensures var r := Poll(s);
      && r.messages == s.messages + Parsed(msgs) && r.buf == []
      && r.failures + |r.messages| == s.failures + |s.messages| + |msgs|
    decreases |msgs|
  {
    hide MessageOf, Framed;
    if msgs == [] {
      assert s.messages + [] == s.messages;
    } else {
      assert Sendable(msgs[0]);
      FrameReadBack(s, msgs[0], FramedAll(msgs[1..]));
      FramesAreSplit(TakeFrame(s), msgs[1..]);
      assert Poll(s) == Poll(TakeFrame(s));
      match MessageOf(msgs[0]) {
        case Ok(h, _) => assert s.messages + [h] + Parsed(msgs[1..]) == s.messages + ([h] + Parsed(msgs[1..]));
        case Err(_) => assert [] + Parsed(msgs[1..]) == Parsed(msgs[1..]);
      }
    }
  }
}
