/**
 What the HTTP loop remembers between polls, and exactly when a turn leaves it behind for a
 message it does not belong to.
 */
module HttpResume {
  import opened Bytes
  import opened HttpParser
  import opened HttpStability
  import opened HttpResync
  import opened HttpPoll

  /** More bytes have arrived. */
  function Plus(s: State, t: seq<byte>): State {
    s.(buf := s.buf + t)
  }

  /** Where the body starts once the head has parsed. */
  function BodyStart(buf: seq<byte>): nat
    requires HeadOf(Window(buf)).Got?
  {
    |Window(buf)| - |HeadOf(Window(buf)).rest|
  }

  /** The head, as far as it matters, is the same in a longer buffer. */
  lemma WindowExtends(buf: seq<byte>, t: seq<byte>)
    ensures HeadOf(Window(buf)).Got? ==>
      && HeadOf(Window(buf + t)).Got? && HeadOf(Window(buf + t)).value == HeadOf(Window(buf)).value
      && BodyStart(buf + t) == BodyStart(buf) && 0 < BodyStart(buf) <= |buf|
    ensures HeadIsBad(buf) ==> HeadIsBad(buf + t)
  {
    hide HeadOf;
    var w, w' := Window(buf), Window(buf + t);
    assert w' == w + w'[|w|..];
    HeadExtends(w, w'[|w|..]);
    if |buf| > MAX_HTTP_HEADER_BYTES {
      assert w' == w;
    }
  }

  /** The message at the front is chunked and its body is looked at. */
  predicate AtChunkedBody(buf: seq<byte>) {
    HeadOf(Window(buf)).Got? &&
    var h := HeadOf(Window(buf)).value;
    h.chunked && !BodyForbidden(h)
  }

  /** The front of the buffer is garbage for good. */
  predicate Rejects(buf: seq<byte>) {
    HeadIsBad(buf) ||
    (AtChunkedBody(buf) &&
     var b := BodyOf(buf[BodyStart(buf)..]);
     b.Partial? && b.error != UnexpectedEof)
  }

  lemma RejectionIsFinal(buf: seq<byte>, t: seq<byte>)
    requires Rejects(buf)
    ensures Rejects(buf + t)
  {
    hide HeadOf, HeadIsBad, BodyFrom;
    WindowExtends(buf, t);
    if !HeadIsBad(buf) {
      var start := BodyStart(buf);
      assert (buf + t)[start..] == buf[start..] + t;
      BodyExtends(buf[start..], t, 0, []);
    }
  }

  lemma HeadGotIsNotBad(buf: seq<byte>)
    requires HeadOf(Window(buf)).Got?
    ensures !HeadIsBad(buf)
  {
  }

  /** No message starts behind a line end before position `n`. */
  predicate NothingBefore(buf: seq<byte>, n: nat) {
    forall p :: 0 <= p < n ==> !MarkedAt(buf, p)
  }

  /** The chunk prefix belongs to the message at the front of the buffer. */
  predicate PrefixFits(prefix: nat, buf: seq<byte>) {
    AtChunkedBody(buf) && Boundary(buf[BodyStart(buf)..], prefix)
  }

  /** The scan position belongs to garbage at the front of the buffer. */
  predicate ScanFits(scanned: nat, buf: seq<byte>) {
    Rejects(buf) && scanned <= ScannedUpTo(|buf|) && NothingBefore(buf, scanned)
  }

  /** What the loop keeps between polls belongs to what is at the front. */
  predicate Resumable(s: State) {
    && (s.apps.chunkPrefix > 0 ==>
          s.apps.skip == 0 && !s.apps.bodyUntilClose && s.apps.resyncScanned == 0 &&
          PrefixFits(s.apps.chunkPrefix, s.buf))
    && (s.apps.resyncScanned > 0 ==>
          s.apps.skip == 0 && !s.apps.bodyUntilClose && ScanFits(s.apps.resyncScanned, s.buf))
  }

  lemma NothingBeforeStays(buf: seq<byte>, t: seq<byte>, n: nat)
    requires NothingBefore(buf, n) && n <= ScannedUpTo(|buf|)
    ensures NothingBefore(buf + t, n)
  {
    forall p | 0 <= p < n
      ensures !MarkedAt(buf + t, p)
    {
      NoMarkStays(buf, t, p);
    }
  }

  lemma ResumableExtends(s: State, t: seq<byte>)
    requires Resumable(s)
    ensures Resumable(Plus(s, t))
  {
    hide HeadOf, HeadIsBad, BodyFrom, Rejects, Boundary, NothingBefore;
    WindowExtends(s.buf, t);
    if s.apps.chunkPrefix > 0 {
      var start := BodyStart(s.buf);
      assert (s.buf + t)[start..] == s.buf[start..] + t;
      BoundaryExtends(s.buf[start..], t, s.apps.chunkPrefix);
    }
    if s.apps.resyncScanned > 0 {
      RejectionIsFinal(s.buf, t);
      NothingBeforeStays(s.buf, t, s.apps.resyncScanned);
    }
  }

  /** The body parse from the remembered prefix and from the start agree. */
  lemma PrefixDoesNotMatter(s: State)
    requires Resumable(s) && AtChunkedBody(s.buf)
    ensures var start := BodyStart(s.buf);
      && 0 < start && start + s.apps.chunkPrefix <= |s.buf|
      && Boundary(s.buf[start..], s.apps.chunkPrefix)
      && SameOutcome(BodyOf(s.buf[start..]), BodyOf(s.buf[start + s.apps.chunkPrefix..]), s.apps.chunkPrefix)
  {
    hide HeadOf, HeadIsBad, BodyFrom, Rejects, SameOutcome, ScannedUpTo, Window;
    WindowExtends(s.buf, []);
    var start, c := BodyStart(s.buf), s.apps.chunkPrefix;
    var body := s.buf[start..];
    assert Boundary(body, c);
    BoundaryFits(body, c);
    ResumeFrom(body, c, 0, []);
    assert body[c..] == s.buf[start + c..];
  }

  /** Scanning on from the remembered position finds what a scan of the whole buffer finds. */
  lemma ScanningOnIsScanningAll(buf: seq<byte>, n: nat)
    requires NothingBefore(buf, n)
    ensures ResyncOf(buf, n) == ResyncOf(buf, 0)
  {
    if n > 1 {
      ScanSkips(buf, 1, n);
    }
  }

  lemma NothingBeforeTheNextScan(buf: seq<byte>, n: nat)
    requires NothingBefore(buf, n) && ResyncOf(buf, n) == None
    ensures NothingBefore(buf, ScannedUpTo(|buf|))
  {
    ScanIsFirst(buf, if n < 1 then 1 else n);
  }

  /** A message head is found at the front. */
  predicate AtHead(s: State) {
    s.apps.skip == 0 && !s.apps.bodyUntilClose && HeadOf(Window(s.buf)).Got?
  }

  /** A final response is at the front and a flag waits for it. */
  predicate Answering(s: State) {
    AtHead(s) && Answers(s, HeadOf(Window(s.buf)).value)
  }

  /** The flag says that the response at the front answers a HEAD, so it ends with its head. */
  predicate Flagged(s: State) {
    Answering(s) && s.peer[0]
  }

  /** A prefix or a scan position is remembered. */
  predicate Remembers(s: State) {
    s.apps.chunkPrefix > 0 || s.apps.resyncScanned > 0
  }

  /**
   The turn ends a message at its head although part of its body has been looked at before:
   an earlier poll took another flag for the same response.
   */
  predicate Overtakes(s: State) {
    Flagged(s) && Remembers(s)
  }

  /** What is remembered after the turn belongs to the message it was remembered for. */
  predicate Honest(s: State, r: State) {
    Remembers(r) ==> r.buf == s.buf
  }

  lemma ScanIsKnown(s: State)
    requires Resumable(s)
    ensures NothingBefore(s.buf, s.apps.resyncScanned)
  {
  }

  lemma ResyncRemembers(s: State)
    requires Rejects(s.buf) && s.apps.skip == 0 && NothingBefore(s.buf, s.apps.resyncScanned)
    ensures Resumable(Resync(s).s) && Honest(s, Resync(s).s)
  {
    hide Rejects, ResyncOf, NothingBefore;
    if ResyncOf(s.buf, s.apps.resyncScanned) == None {
      NothingBeforeTheNextScan(s.buf, s.apps.resyncScanned);
    }
  }

  lemma OversizeResync(s: State)
    requires |s.buf| > MAX_HTTP_MESSAGE_BYTES
    ensures Resync(s).Again? && !Remembers(Resync(s).s)
  {
    hide ResyncOf;
  }

  /** A chunked message at the front that is not ended at its head. */
  lemma ChunkedRemembers(s: State)
    requires Resumable(s) && AtHead(s) && AtChunkedBody(s.buf) && !Flagged(s)
    ensures Resumable(Turn(s).s) && Honest(s, Turn(s).s)
  {
    hide HeadOf, HeadIsBad, BodyFrom, Boundary, Window, Resync, NothingBefore;
    WindowExtends(s.buf, []);
    HeadGotIsNotBad(s.buf);
    PrefixDoesNotMatter(s);
    ScanIsKnown(s);
    var h, start := HeadOf(Window(s.buf)).value, BodyStart(s.buf);
    var s1 := if Answers(s, h) then s.(peer := s.peer[1..]) else s;
    match BodyOf(s.buf[start + s.apps.chunkPrefix..])
    case Whole(_, _) =>
    case Partial(e, validated) =>
      if e == UnexpectedEof {
        PrefixIsBoundary(s.buf[start..], 0, []);
        if |s.buf| > MAX_HTTP_MESSAGE_BYTES {
          OversizeResync(s1.(apps := s1.apps.(chunkPrefix := s1.apps.chunkPrefix + validated)));
        }
      } else {
        ResyncRemembers(s1);
      }
  }

  /** A message at the front that is ended at its head, or has no chunked body. */
  lemma PlainRemembers(s: State)
    requires Resumable(s) && AtHead(s) && !AtChunkedBody(s.buf) && !Flagged(s)
    ensures Resumable(Turn(s).s) && Honest(s, Turn(s).s)
  {
    hide HeadOf, HeadIsBad, BodyFrom, Boundary, Window, Resync, NothingBefore;
    WindowExtends(s.buf, []);
    HeadGotIsNotBad(s.buf);
  }

  /** A response that is ended at its head keeps what was remembered, for better or worse. */
  lemma FlaggedTurn(s: State)
    requires Flagged(s)
    ensures Turn(s) == Again(Complete(s.(peer := s.peer[1..]), HeadOf(Window(s.buf)).value, BodyStart(s.buf)))
    ensures 0 < BodyStart(s.buf) <= |s.buf|
    ensures var r := Turn(s).s;
      && r.apps.chunkPrefix == s.apps.chunkPrefix && r.apps.resyncScanned == s.apps.resyncScanned
      && r.apps.skip == 0 && !r.apps.bodyUntilClose && r.buf == s.buf[BodyStart(s.buf)..]
  {
    hide HeadOf, Window;
    WindowExtends(s.buf, []);
  }

  lemma OtherwiseRemembers(s: State)
    requires Resumable(s) && !AtHead(s)
    ensures Resumable(Turn(s).s) && Honest(s, Turn(s).s)
  {
    hide HeadOf, BodyFrom, Boundary, Window, Resync, NothingBefore, WithHead;
    ScanIsKnown(s);
    if s.apps.skip == 0 && !s.apps.bodyUntilClose && HeadIsBad(s.buf) {
      ResyncRemembers(s);
    }
  }

  /** The bytes behind the head happen to be what the memory was about. */
  predicate FitsBehindHead(s: State)
    requires Flagged(s) && BodyStart(s.buf) <= |s.buf|
  {
    var behind := s.buf[BodyStart(s.buf)..];
    && (s.apps.chunkPrefix > 0 ==> PrefixFits(s.apps.chunkPrefix, behind))
    && (s.apps.resyncScanned > 0 ==> ScanFits(s.apps.resyncScanned, behind))
  }

  /**
   Exactly when a turn carries a chunk prefix or a scan position over to another message:
   when a flag ends a response at its head although something is remembered about its body.
   Nothing is assumed about the other direction's queue or about sizes.
   */
  lemma TurnIsHonestExactly(s: State)
    requires Resumable(s)
    ensures Honest(s, Turn(s).s) <==> !Overtakes(s)
    ensures Flagged(s) ==> BodyStart(s.buf) <= |s.buf|
    ensures Resumable(Turn(s).s) <==> !Overtakes(s) || FitsBehindHead(s)
  {
    hide Turn, HeadOf, Rejects, Boundary, NothingBefore, AtChunkedBody, ScannedUpTo, Window;
    if Flagged(s) {
      FlaggedTurn(s);
    } else if !AtHead(s) {
      OtherwiseRemembers(s);
    } else if AtChunkedBody(s.buf) {
      ChunkedRemembers(s);
    } else {
      PlainRemembers(s);
    }
  }

  /** The next turn would resume the body at a place inside the buffer. */
  predicate ResumesInside(s: State) {
    AtHead(s) && AtChunkedBody(s.buf) && !Flagged(s) ==> BodyStart(s.buf) + s.apps.chunkPrefix <= |s.buf|
  }

  lemma ResumableIsInside(s: State)
    requires Resumable(s)
    ensures ResumesInside(s)
  {
    hide HeadOf, Boundary, Rejects, Window;
    if AtHead(s) && AtChunkedBody(s.buf) {
      PrefixDoesNotMatter(s);
    }
  }

  /** Behind the head stands a chunked message that ends no further than the remembered prefix reaches. */
  predicate ReachesOutside(s: State)
    requires Flagged(s) && BodyStart(s.buf) <= |s.buf|
  {
    var behind := s.buf[BodyStart(s.buf)..];
    && AtChunkedBody(behind)
    && !(Answers(s.(peer := s.peer[1..]), HeadOf(Window(behind)).value) && s.peer[1])
    && BodyStart(behind) + s.apps.chunkPrefix > |behind|
  }

  /** Exactly when the next turn would resume a body beyond the end of the buffer. */
  lemma TurnStaysInsideExactly(s: State)
    requires Resumable(s)
    ensures Flagged(s) ==> BodyStart(s.buf) <= |s.buf|
    ensures ResumesInside(Turn(s).s) <==> !(Overtakes(s) && ReachesOutside(s))
  {
    hide Turn, HeadOf, Rejects, Boundary, NothingBefore, Window, Resumable;
    TurnIsHonestExactly(s);
    if Flagged(s) {
      FlaggedTurn(s);
      var r := Turn(s).s;
      if AtHead(r) {
        WindowExtends(r.buf, []);
      }
      if !Overtakes(s) {
        ResumableIsInside(r);
      }
    } else {
      ResumableIsInside(Turn(s).s);
    }
  }
}
