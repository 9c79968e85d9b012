/**
 Both directions of an HTTP connection: requests and the responses to them, one exchange
 after the other, each cut in any way.
 */
module HttpExchange {
  import opened Bytes
  import opened HttpText
  import opened HttpParser
  import opened HttpPoll
  import opened HttpFragments
  import opened HttpPipeline

  /** The decoder's memory and the unread bytes of both directions. */
  datatype Duplex = Duplex(client: Apps, server: Apps, fromClient: seq<byte>, fromServer: seq<byte>)

  /** Polls of the requests' direction; the flags it could take are the other direction's. */
  function PollClient(d: Duplex, fs: seq<seq<byte>>): Duplex {
    var r := PollEach(State(d.client, d.server.pendingHead, d.fromClient), fs);
    d.(client := r.apps, server := d.server.(pendingHead := r.peer), fromClient := r.buf)
  }

  function PollServer(d: Duplex, fs: seq<seq<byte>>): Duplex {
    var r := PollEach(State(d.server, d.client.pendingHead, d.fromServer), fs);
    d.(server := r.apps, client := d.client.(pendingHead := r.peer), fromServer := r.buf)
  }

  /**
   Requests that are read together and the replies to them, with the fragments in which they
   arrive: one request, or several of which all but the last are HEADs.
   */
  datatype Exchange = Exchange(
    requests: seq<Message>, requestCut: seq<seq<byte>>, replies: seq<Message>, replyCut: seq<seq<byte>>)

  predicate AreRequests(ms: seq<Message>) {
    forall m :: m in ms ==> m.head.kind == Request
  }

  predicate AreReplies(ms: seq<Message>) {
    forall m :: m in ms ==> m.head.kind == Response
  }

  /** How many of the replies are final; the others are interim. */
  function Finals(ms: seq<Message>): nat {
    if ms == [] then 0 else (if IsFinal(ms[0].head) then 1 else 0) + Finals(ms[1..])
  }

  function IsHead(m: Message): bool {
    m.head.methodName == Ascii("HEAD")
  }

  function Flags(ms: seq<Message>): seq<bool> {
    seq(|ms|, i requires 0 <= i < |ms| => IsHead(ms[i]))
  }

  /** The fragments are the messages' bytes; with any message a fragment of `n` bytes fits the limit. */
  predicate IsCut(ms: seq<Message>, fs: seq<seq<byte>>, n: nat) {
    && (forall m :: m in ms ==> Writable(m) && |Wire(m)| + n <= 0x80_0000)
    && Concat(fs) == WireAll(ms) && n <= 0x80_0000
    && forall f :: f in fs ==> |f| <= n
  }

  predicate ProperExchange(x: Exchange, n: nat) {
    && AreRequests(x.requests) && AllProper(x.requests, []) && |x.requests| <= 1024
    && Calm(Flags(x.requests))
    && AreReplies(x.replies) && AllProper(x.replies, Flags(x.requests)) && Finals(x.replies) == |x.requests|
    && IsCut(x.requests, x.requestCut, n) && IsCut(x.replies, x.replyCut, n)
  }

  function Converse(d: Duplex, xs: seq<Exchange>): Duplex
    decreases |xs|
  {
    if xs == [] then d
    else Converse(PollServer(PollClient(d, xs[0].requestCut), xs[0].replyCut), xs[1..])
  }

  /** Neither direction has anything half read, and no request is waiting for its reply. */
  predicate Quiet(d: Duplex) {
    && d.client.pendingHead == [] && d.server.pendingHead == [] && d.fromClient == [] && d.fromServer == []
    && Idle(State(d.client, [], [])) && Idle(State(d.server, [], []))
  }

  function Requests(xs: seq<Exchange>): seq<Header> {
    if xs == [] then [] else Heads(xs[0].requests) + Requests(xs[1..])
  }

  function Replies(xs: seq<Exchange>): seq<Header> {
    if xs == [] then [] else Heads(xs[0].replies) + Replies(xs[1..])
  }

  /** Requests queue their flags in order and take none. */
  lemma {:induction false} RequestsQueueFlags(s: State, ms: seq<Message>)
    requires AreRequests(ms) && |s.apps.pendingHead| + |ms| <= 1024
    ensures HavingAll(s, ms).peer == s.peer
    ensures HavingAll(s, ms).apps.pendingHead == s.apps.pendingHead + Flags(ms)
    decreases |ms|
  {
    if ms == [] {
      assert s.apps.pendingHead + Flags(ms) == s.apps.pendingHead;
    } else {
      assert ms[0] in ms;
      var own := s.apps.pendingHead;
      RequestsQueueFlags(Having(s, ms[0]), ms[1..]);
      assert Flags(ms) == [IsHead(ms[0])] + Flags(ms[1..]);
      assert own + [IsHead(ms[0])] + Flags(ms[1..]) == own + Flags(ms);
    }
  }

  /** Final replies take one flag each; interim replies take none, and no reply queues one. */
  lemma {:induction false} RepliesTakeFlags(s: State, ms: seq<Message>)
    requires AreReplies(ms) && Finals(ms) == |s.peer|
    ensures HavingAll(s, ms).peer == [] && HavingAll(s, ms).apps.pendingHead == s.apps.pendingHead
    decreases |ms|
  {
    if ms != [] {
      assert ms[0] in ms;
      RepliesTakeFlags(Having(s, ms[0]), ms[1..]);
    }
  }

  lemma CutIsDecoded(s: State, ms: seq<Message>, fs: seq<seq<byte>>, n: nat)
    requires Ready(s) && AllProper(ms, s.peer) && IsCut(ms, fs, n)
    ensures PollEach(s, fs) == HavingAll(s, ms)
  {
    hide Poll, PollEach, Wire, WireAll, Writable, AllProper;
    SmallPiecesFit(s, ms, fs, n);
    PipelineFromReady(s, ms, fs);
  }

  lemma RequestsAreDecoded(d: Duplex, x: Exchange, n: nat)
    requires Quiet(d) && ProperExchange(x, n)
    ensures var r := PollClient(d, x.requestCut);
      && Quiet(r.(client := r.client.(pendingHead := []))) && r.client.pendingHead == Flags(x.requests)
      && r.server == d.server
      && r.client.messages == d.client.messages + Heads(x.requests)
      && r.client.decodeFailures == d.client.decodeFailures
  {
    hide PollEach, AllProper, IsCut, AreReplies, AreRequests, Flags, Finals;
    var s := State(d.client, [], []);
    CutIsDecoded(s, x.requests, x.requestCut, n);
    RequestsQueueFlags(s, x.requests);
    HavingAllHeads(s, x.requests);
    assert [] + Flags(x.requests) == Flags(x.requests);
    assert d.server.(pendingHead := []) == d.server;
  }

  lemma RepliesAreDecoded(d: Duplex, x: Exchange, n: nat)
    requires Quiet(d.(client := d.client.(pendingHead := [])))
    requires ProperExchange(x, n) && d.client.pendingHead == Flags(x.requests)
    ensures var r := PollServer(d, x.replyCut);
      && Quiet(r) && r.client == d.client.(pendingHead := [])
      && r.server.messages == d.server.messages + Heads(x.replies)
      && r.server.decodeFailures == d.server.decodeFailures
  {
    hide PollEach, AllProper, IsCut, AreReplies, AreRequests, Finals;
    var s := State(d.server, d.client.pendingHead, []);
    CutIsDecoded(s, x.replies, x.replyCut, n);
    RepliesTakeFlags(s, x.replies);
    HavingAllHeads(s, x.replies);
  }

  lemma ExchangeIsDecoded(d: Duplex, x: Exchange, n: nat)
    requires Quiet(d) && ProperExchange(x, n)
    ensures var r := PollServer(PollClient(d, x.requestCut), x.replyCut);
      && Quiet(r)
      && r.client.messages == d.client.messages + Heads(x.requests)
      && r.server.messages == d.server.messages + Heads(x.replies)
      && r.client.decodeFailures == d.client.decodeFailures && r.server.decodeFailures == d.server.decodeFailures
  {
    hide ProperExchange, PollClient, PollServer;
    RequestsAreDecoded(d, x, n);
    RepliesAreDecoded(PollClient(d, x.requestCut), x, n);
  }

  lemma Regroup(a: seq<Header>, b: seq<Header>, c: seq<Header>)
    ensures a + b + c == a + (b + c)
  {
  }

  /**
   A whole conversation on one connection: every request is decoded, and so is every reply,
   interim or final, with a body or to a HEAD, in order, whatever the fragments; there is no
   failure and no flag is left over.
   */
  lemma {:induction false} ConversationIsDecoded(d: Duplex, xs: seq<Exchange>, n: nat)
    requires Quiet(d) && forall x :: x in xs ==> ProperExchange(x, n)
    ensures var r := Converse(d, xs);
      && Quiet(r)
      && r.client.messages == d.client.messages + Requests(xs)
      && r.server.messages == d.server.messages + Replies(xs)
      && r.client.decodeFailures == d.client.decodeFailures && r.server.decodeFailures == d.server.decodeFailures
    decreases |xs|
  {
    hide ProperExchange, PollClient, PollServer, Heads, Quiet;
    if xs != [] {
      var x := xs[0];
      ExchangeIsDecoded(d, x, n);
      ConversationIsDecoded(PollServer(PollClient(d, x.requestCut), x.replyCut), xs[1..], n);
      Regroup(d.client.messages, Heads(x.requests), Requests(xs[1..]));
      Regroup(d.server.messages, Heads(x.replies), Replies(xs[1..]));
    }
  }
}
