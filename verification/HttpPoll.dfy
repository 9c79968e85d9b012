/** The HTTP side of `pollStream` as a value: one turn of its loop, and the loop. */
module HttpPoll {
  import opened Bytes
  import opened HttpText
  import opened HttpParser
  import opened HttpResync

  const MAX_HTTP_HEADER_BYTES: nat := 0x8000
  const MAX_HTTP_MESSAGE_BYTES: nat := 0x80_0000
  const MAX_PENDING_REQUESTS: nat := 1024

  /** The decoder's memory for one direction of a connection. */
  datatype Apps = Apps(
    decodeFailures: nat, bodiesSkipped: nat, messages: seq<Header>,
    chunkPrefix: nat, resyncScanned: nat, skip: nat, pendingHead: seq<bool>, bodyUntilClose: bool)

  /** What the loop works on: this direction, the other direction's pending requests, the unread bytes. */
  datatype State = State(apps: Apps, peer: seq<bool>, buf: seq<byte>)

  /** One turn of the loop either goes round again or stops. */
  datatype Turned = Again(s: State) | Wait(s: State)

  function Initial(): Apps {
    Apps(0, 0, [], 0, 0, 0, [], false)
  }

  function Min(a: nat, b: nat): nat {
    if a <= b then a else b
  }

  function Window(buf: seq<byte>): seq<byte> {
    buf[..Min(|buf|, MAX_HTTP_HEADER_BYTES)]
  }

  /** `resyncHttp` and what its caller does with the answer. */
  function Resync(s: State): (r: Turned)
    ensures r.Again? ==> |r.s.buf| < |s.buf|
  {
    var a := s.apps.(chunkPrefix := 0, bodyUntilClose := false);
    match ResyncOf(s.buf, a.resyncScanned)
    case Some(at) =>
      Again(s.(apps := a.(decodeFailures := a.decodeFailures + 1, resyncScanned := 0), buf := s.buf[at..]))
    case None =>
      if |s.buf| > MAX_HTTP_MESSAGE_BYTES
      then Again(s.(apps := a.(decodeFailures := a.decodeFailures + 1, resyncScanned := 0), buf := []))
      else Wait(s.(apps := a.(resyncScanned := ScannedUpTo(|s.buf|))))
  }

  /** Remembers whether a request was a HEAD, up to a limit. */
  function Remember(a: Apps, h: Header): Apps {
    if h.kind == Request && |a.pendingHead| < MAX_PENDING_REQUESTS
    then a.(pendingHead := a.pendingHead + [h.methodName == Ascii("HEAD")])
    else a
  }

  /** Records the message and consumes `n` bytes. */
  function Complete(s: State, h: Header, n: nat): State
    requires n <= |s.buf|
  {
    var a := Remember(s.apps, h);
    s.(apps := a.(messages := a.messages + [h]), buf := s.buf[n..])
  }

  /** The message's body is not all there. `start` is where the body begins. */
  function Incomplete(s: State, h: Header, start: nat): (r: Turned)
    requires 0 < start <= |s.buf|
    ensures r.Again? ==> |r.s.buf| < |s.buf|
  {
    if |s.buf| <= MAX_HTTP_MESSAGE_BYTES then Wait(s)
    else if h.hasContentLength && !h.chunked then
      var t := Complete(s, h, start);
      Again(t.(apps := t.apps.(skip := h.contentLength, bodiesSkipped := t.apps.bodiesSkipped + 1)))
    else Resync(s)
  }

  /** The response answers a request whose flag is next in the other direction's queue. */
  predicate Answers(s: State, h: Header) {
    h.kind == Response && h.statusCode >= 200 && s.peer != []
  }

  /**
   A parsed head whose body starts at `start`. The program does not define what happens when
   the remembered prefix reaches past the buffer; here reading then goes on at its end.
   HttpOvertake says exactly when that can be.
   */
  function WithHead(s: State, h: Header, start: nat): (r: Turned)
    requires 0 < start <= |s.buf|
    ensures r.Again? ==> |r.s.buf| < |s.buf|
  {
    var head := Answers(s, h) && s.peer[0];
    var s := if Answers(s, h) then s.(peer := s.peer[1..]) else s;
    if BodyForbidden(h) || head then Again(Complete(s, h, start))
    else if h.chunked then
      var resumed := Min(start + s.apps.chunkPrefix, |s.buf|);
      match BodyOf(s.buf[resumed..])
      case Partial(e, validated) =>
        if e == UnexpectedEof
        then Incomplete(s.(apps := s.apps.(chunkPrefix := s.apps.chunkPrefix + validated)), h, start)
        else Resync(s)
      case Whole(_, rest) => Again(Complete(s.(apps := s.apps.(chunkPrefix := 0)), h, |s.buf| - |rest|))
    else if h.hasContentLength then
      if |s.buf| - start < h.contentLength then Incomplete(s, h, start)
      else Again(Complete(s, h, start + h.contentLength))
    else if h.kind == Response then Again(Complete(s.(apps := s.apps.(bodyUntilClose := true)), h, start))
    else Again(Complete(s, h, start))
  }

  /** The head cannot be parsed now and more bytes will not help. */
  predicate HeadIsBad(buf: seq<byte>) {
    HeadOf(Window(buf)).Fail? &&
    (HeadOf(Window(buf)).error != UnexpectedEof || |buf| > MAX_HTTP_HEADER_BYTES)
  }

  function Turn(s: State): (r: Turned)
    ensures r.Again? ==> |r.s.buf| < |s.buf|
  {
    if s.apps.skip > 0 then
      var n := Min(s.apps.skip, |s.buf|);
      var t := s.(apps := s.apps.(skip := s.apps.skip - n), buf := s.buf[n..]);
      if t.apps.skip > 0 then Wait(t) else Again(t)
    else if s.apps.bodyUntilClose then Wait(s.(buf := []))
    else match HeadOf(Window(s.buf))
      case Fail(_) => if HeadIsBad(s.buf) then Resync(s) else Wait(s)
      case Got(h, rest) => WithHead(s, h, |Window(s.buf)| - |rest|)
  }

  /** The loop: every turn that goes round again has consumed something. */
  function Poll(s: State): State
    decreases |s.buf|
  {
    match Turn(s)
    case Wait(t) => t
    case Again(t) => Poll(t)
  }
}
