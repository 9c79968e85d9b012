/** The application decoder as the program has it: a stream is read and counters are updated in place. */
module AppDecoder {
  import opened Bytes
  import opened HttpText
  import opened HttpParser
  import opened HttpResync
  import P = HttpPoll
  import D = DnsPoll
  import DnsMessage
  import M = TcpMachine
  import TcpReassembler

  const DNS_PORT: nat := 53
  const HTTP_PORT: nat := 80

  /** What is known about one direction of one connection. */
  class Applications {
    var decodeFailures: nat
    var httpBodiesSkipped: nat
    var dnsMessages: seq<DnsMessage.Header>
    var httpMessages: seq<Header>
    var httpChunkPrefix: nat
    var httpResyncScanned: nat
    var httpSkip: nat
    var pendingHeadRequests: seq<bool>
    var httpBodyUntilClose: bool

    ghost function View(): P.Apps
      reads this
    {
      P.Apps(decodeFailures, httpBodiesSkipped, httpMessages, httpChunkPrefix, httpResyncScanned,
             httpSkip, pendingHeadRequests, httpBodyUntilClose)
    }

    constructor ()
      ensures View() == P.Initial() && dnsMessages == []
    {
      decodeFailures, httpBodiesSkipped, dnsMessages, httpMessages := 0, 0, [], [];
      httpChunkPrefix, httpResyncScanned, httpSkip := 0, 0, 0;
      pendingHeadRequests, httpBodyUntilClose := [], false;
    }

    /** Notes whether a request was a HEAD, up to a limit. */
    method Remember(h: Header)
      modifies `pendingHeadRequests
      ensures View() == P.Remember(old(View()), h)
    {
      if h.kind == Request && |pendingHeadRequests| < P.MAX_PENDING_REQUESTS {
        pendingHeadRequests := pendingHeadRequests + [h.methodName == Ascii("HEAD")];
      }
    }
  }

  ghost function HttpState(stream: TcpReassembler.TcpReassembler, apps: Applications, peer: Applications): P.State
    requires stream.Valid()
    reads stream, apps, peer
  {
    P.State(apps.View(), peer.pendingHeadRequests, stream.Peek())
  }

  ghost function DnsState(stream: TcpReassembler.TcpReassembler, apps: Applications): D.State
    requires stream.Valid()
    reads stream, apps
  {
    D.State(apps.decodeFailures, apps.dnsMessages, stream.Peek())
  }

  /** Whether the loop goes round again, read off the specification. */
  ghost predicate Agrees(t: P.Turned, again: bool, s: P.State) {
    t.s == s && t.Again? == again
  }

  method ResyncHttp(stream: TcpReassembler.TcpReassembler, apps: Applications, peer: Applications) returns (again: bool)
    requires stream.Valid() && apps != peer
    modifies stream, apps
    ensures stream.Valid() && stream.state == old(stream.state)
    ensures apps.dnsMessages == old(apps.dnsMessages)
    ensures Agrees(P.Resync(old(HttpState(stream, apps, peer))), again, HttpState(stream, apps, peer))
  {
    hide ResyncOf;
    apps.httpChunkPrefix := 0;
    apps.httpBodyUntilClose := false;
    var avail := stream.Available();
    var at := FindHttpResync(stream.Peek(), apps.httpResyncScanned);
    if at.Some? {
      apps.decodeFailures := apps.decodeFailures + 1;
      apps.httpResyncScanned := 0;
      stream.Consume(at.value);
      return true;
    }
    apps.httpResyncScanned := if avail > 8 then avail - 8 else 0;
    if avail > P.MAX_HTTP_MESSAGE_BYTES {
      apps.decodeFailures := apps.decodeFailures + 1;
      apps.httpResyncScanned := 0;
      stream.Consume(avail);
      return true;
    }
    return false;
  }

  /** Pushes the message and consumes its bytes. */
  method CompleteMessage(
    stream: TcpReassembler.TcpReassembler, apps: Applications, peer: Applications, h: Header, n: nat)
    requires stream.Valid() && apps != peer && n <= stream.Available()
    modifies stream, apps
    ensures stream.Valid() && stream.state == old(stream.state)
    ensures apps.dnsMessages == old(apps.dnsMessages)
    ensures HttpState(stream, apps, peer) == P.Complete(old(HttpState(stream, apps, peer)), h, n)
  {
    hide P.Remember;
    apps.Remember(h);
    apps.httpMessages := apps.httpMessages + [h];
    stream.Consume(n);
  }

  /** The branch for a body that is not all there. */
  method IncompleteBody(
    stream: TcpReassembler.TcpReassembler, apps: Applications, peer: Applications, h: Header, start: nat)
    returns (again: bool)
    requires stream.Valid() && apps != peer && 0 < start <= stream.Available()
    modifies stream, apps
    ensures stream.Valid() && stream.state == old(stream.state)
    ensures apps.dnsMessages == old(apps.dnsMessages)
    ensures Agrees(P.Incomplete(old(HttpState(stream, apps, peer)), h, start), again, HttpState(stream, apps, peer))
  {
    hide P.Complete, P.Resync;
    if stream.Available() > P.MAX_HTTP_MESSAGE_BYTES {
      if h.hasContentLength && !h.chunked {
        CompleteMessage(stream, apps, peer, h, start);
        apps.httpSkip := h.contentLength;
        apps.httpBodiesSkipped := apps.httpBodiesSkipped + 1;
        return true;
      }
      again := ResyncHttp(stream, apps, peer);
      return again;
    }
    return false;
  }

  /** The loop body once the head has parsed: the body begins `start` bytes into the stream. */
  method FrameBody(
    stream: TcpReassembler.TcpReassembler, apps: Applications, peer: Applications, h: Header, start: nat)
    returns (again: bool)
    requires stream.Valid() && apps != peer && 0 < start <= stream.Available()
    modifies stream, apps, peer`pendingHeadRequests
    ensures stream.Valid() && stream.state == old(stream.state)
    ensures apps.dnsMessages == old(apps.dnsMessages)
    ensures Agrees(P.WithHead(old(HttpState(stream, apps, peer)), h, start), again, HttpState(stream, apps, peer))
  {
    hide P.Complete, P.Resync, P.Incomplete, BodyOf;
    ghost var s := HttpState(stream, apps, peer);
    var full := stream.Peek();
    var headResponse := false;
    if h.kind == Response && h.statusCode >= 200 && peer.pendingHeadRequests != [] {
      headResponse := peer.pendingHeadRequests[0];
      peer.pendingHeadRequests := peer.pendingHeadRequests[1..];
    }
    ghost var popped := HttpState(stream, apps, peer);
    var end := start;
    if BodyForbidden(h) || headResponse {
    } else if h.chunked {
      var body := ParseChunkedBody(full[P.Min(start + apps.httpChunkPrefix, |full|)..]);
      match body {
        case Partial(e, validated) =>
          if e != UnexpectedEof {
            again := ResyncHttp(stream, apps, peer);
            return again;
          }
          apps.httpChunkPrefix := apps.httpChunkPrefix + validated;
          again := IncompleteBody(stream, apps, peer, h, start);
          return again;
        case Whole(_, rest) =>
          apps.httpChunkPrefix := 0;
          end := |full| - |rest|;
      }
    } else if h.hasContentLength {
      if |full| - start < h.contentLength {
        again := IncompleteBody(stream, apps, peer, h, start);
        return again;
      }
      end := start + h.contentLength;
    } else if h.kind == Response {
      apps.httpBodyUntilClose := true;
    }
    CompleteMessage(stream, apps, peer, h, end);
    return true;
  }

  /** One pass through the body of the HTTP loop. */
  method HttpTurn(stream: TcpReassembler.TcpReassembler, apps: Applications, peer: Applications) returns (again: bool)
    requires stream.Valid() && apps != peer
    modifies stream, apps, peer`pendingHeadRequests
    ensures stream.Valid() && stream.state == old(stream.state)
    ensures apps.dnsMessages == old(apps.dnsMessages)
    ensures Agrees(P.Turn(old(HttpState(stream, apps, peer))), again, HttpState(stream, apps, peer))
  {
    hide P.Resync, P.WithHead, HeadOf;
    if apps.httpSkip > 0 {
      var n := P.Min(apps.httpSkip, stream.Available());
      stream.Consume(n);
      apps.httpSkip := apps.httpSkip - n;
      return apps.httpSkip == 0;
    }
    if apps.httpBodyUntilClose {
      stream.Consume(stream.Available());
      return false;
    }
    var full := stream.Peek();
    var window := P.Window(full);
    var head := Parse(window);
    match head {
      case Fail(e) =>
        if e == UnexpectedEof && stream.Available() <= P.MAX_HTTP_HEADER_BYTES {
          return false;
        }
        again := ResyncHttp(stream, apps, peer);
        return again;
      case Got(h, rest) =>
        again := FrameBody(stream, apps, peer, h, |window| - |rest|);
        return again;
    }
  }

  method PollHttp(stream: TcpReassembler.TcpReassembler, apps: Applications, peer: Applications)
    requires stream.Valid() && apps != peer
    modifies stream, apps, peer`pendingHeadRequests
    ensures stream.Valid() && stream.state == old(stream.state)
    ensures apps.dnsMessages == old(apps.dnsMessages)
    ensures HttpState(stream, apps, peer) == P.Poll(old(HttpState(stream, apps, peer)))
  {
    hide P.Turn;
    ghost var goal := P.Poll(HttpState(stream, apps, peer));
    while true
      invariant stream.Valid() && stream.state == old(stream.state)
      invariant apps.dnsMessages == old(apps.dnsMessages)
      invariant P.Poll(HttpState(stream, apps, peer)) == goal
      decreases stream.Available()
    {
      var again := HttpTurn(stream, apps, peer);
      if !again { break; }
    }
  }

  /** One pass through the body of the DNS loop. */
  method DnsTurn(stream: TcpReassembler.TcpReassembler, apps: Applications) returns (again: bool)
    requires stream.Valid()
    modifies stream, apps`decodeFailures, apps`dnsMessages
    ensures stream.Valid() && stream.state == old(stream.state)
    ensures var s := old(DnsState(stream, apps));
      again == D.HasFrame(s.buf) && DnsState(stream, apps) == if again then D.TakeFrame(s) else s
  {
    hide DnsMessage.MessageOf;
    if stream.Available() < 2 { return false; }
    var msgLen := DnsMessage.Be16(stream.Peek(), 0);
    if stream.Available() < 2 + msgLen { return false; }
    var msg := stream.Peek()[2..2 + msgLen];
    var header := DnsMessage.Parse(msg);
    if header.Err? {
      apps.decodeFailures := apps.decodeFailures + 1;
    } else {
      apps.dnsMessages := apps.dnsMessages + [header.value];
    }
    stream.Consume(2 + msgLen);
    return true;
  }

  method PollDns(stream: TcpReassembler.TcpReassembler, apps: Applications)
    requires stream.Valid()
    modifies stream, apps`decodeFailures, apps`dnsMessages
    ensures stream.Valid() && stream.state == old(stream.state)
    ensures DnsState(stream, apps) == D.Poll(old(DnsState(stream, apps)))
  {
    hide D.TakeFrame, D.HasFrame;
    ghost var goal := D.Poll(DnsState(stream, apps));
    while true
      invariant stream.Valid() && stream.state == old(stream.state)
      invariant D.Poll(DnsState(stream, apps)) == goal
      decreases stream.Available()
    {
      ghost var s := DnsState(stream, apps);
      var again := DnsTurn(stream, apps);
      if !again { break; }
      D.TakeFrameShrinks(s);
    }
  }

  /** `pollStream`: which protocol the ports name decides what is read; an unreadable stream is left alone. */
  method PollStream(
    srcPort: nat, dstPort: nat, stream: TcpReassembler.TcpReassembler, apps: Applications, peer: Applications)
    requires stream.Valid() && apps != peer
    modifies stream, apps, peer`pendingHeadRequests
    ensures stream.Valid()
    ensures var dns, http := srcPort == 53 || dstPort == 53, srcPort == 80 || dstPort == 80;
      if old(stream.state) !in {M.Established, M.FinWait1, M.FinWait2} then
        HttpState(stream, apps, peer) == old(HttpState(stream, apps, peer)) && apps.dnsMessages == old(apps.dnsMessages)
      else if dns then
        DnsState(stream, apps) == D.Poll(old(DnsState(stream, apps))) &&
        apps.View() == old(apps.View()).(decodeFailures := apps.decodeFailures) &&
        peer.pendingHeadRequests == old(peer.pendingHeadRequests)
      else if http then
        HttpState(stream, apps, peer) == P.Poll(old(HttpState(stream, apps, peer))) &&
        apps.dnsMessages == old(apps.dnsMessages)
      else
        HttpState(stream, apps, peer) == old(HttpState(stream, apps, peer)) && apps.dnsMessages == old(apps.dnsMessages)
  {
    if !stream.HasReadableData() { return; }
    if srcPort == DNS_PORT || dstPort == DNS_PORT {
      PollDns(stream, apps);
    } else if srcPort == HTTP_PORT || dstPort == HTTP_PORT {
      PollHttp(stream, apps, peer);
    }
  }
}
