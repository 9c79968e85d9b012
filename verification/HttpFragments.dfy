/**
 Cutting the byte stream differently does not change what is decoded: polling after every
 fragment ends in the same state, whatever the fragments, as long as what is unread fits.
 */
module HttpFragments {
  import opened Bytes
  import opened HttpParser
  import opened HttpStability
  import opened HttpResync
  import opened HttpPoll
  import opened HttpResume

  /** No flags are waiting. */
  predicate Alone(s: State, t: seq<byte>) {
    s.peer == [] && Resumable(s) && |s.buf| + |t| <= MAX_HTTP_MESSAGE_BYTES
  }

  lemma ResyncExtends(s: State, t: seq<byte>)
    requires |s.buf| + |t| <= MAX_HTTP_MESSAGE_BYTES && Resync(s).Again?
    ensures Resync(Plus(s, t)) == Again(Plus(Resync(s).s, t))
  {
    hide Scan;
    var from := s.apps.resyncScanned;
    var at := ResyncOf(s.buf, from).value;
    FoundStaysFirst(s.buf, t, if from < 1 then 1 else from);
    assert (s.buf + t)[at..] == s.buf[at..] + t;
  }

  lemma ResyncResumes(s: State, t: seq<byte>)
    requires s.apps.resyncScanned <= ScannedUpTo(|s.buf|) && Resync(s).Wait?
    ensures Resync(Plus(Resync(s).s, t)) == Resync(Plus(s, t))
  {
    hide ResyncOf;
    RescanIsExact(s.buf, t, s.apps.resyncScanned);
  }

  /** Resynchronising forgets the chunk prefix, so its value does not matter. */
  lemma ResyncForgetsPrefix(s: State, prefix: nat)
    ensures Resync(s.(apps := s.apps.(chunkPrefix := prefix))) == Resync(s)
  {
  }

  /** In front of garbage the loop resynchronises. */
  lemma GarbageResyncs(s: State)
    requires s.peer == [] && Resumable(s) && Rejects(s.buf)
    requires s.apps.skip == 0 && !s.apps.bodyUntilClose
    ensures Turn(s) == Resync(s)
  {
    hide HeadOf, BodyFrom, Resync, Boundary;
    if !HeadIsBad(s.buf) {
      PrefixDoesNotMatter(s);
    }
  }

  /** Otherwise a remembered scan position is zero. */
  lemma NoScanOtherwise(s: State)
    requires Resumable(s) && !Rejects(s.buf)
    ensures s.apps.resyncScanned == 0
  {
  }

  /** A chunked message at the front, seen through the body parse from its start. */
  lemma ChunkedTurn(s: State)
    requires s.peer == [] && Resumable(s) && AtChunkedBody(s.buf) && !Rejects(s.buf)
    requires s.apps.skip == 0 && !s.apps.bodyUntilClose && |s.buf| <= MAX_HTTP_MESSAGE_BYTES
    ensures var h, b := HeadOf(Window(s.buf)).value, BodyOf(s.buf[BodyStart(s.buf)..]);
      Turn(s) == if b.Whole?
        then Again(Complete(s.(apps := s.apps.(chunkPrefix := 0)), h, |s.buf| - |b.rest|))
        else Wait(s.(apps := s.apps.(chunkPrefix := b.prefix)))
  {
    hide HeadOf, BodyFrom, Boundary, Complete;
    PrefixDoesNotMatter(s);
  }

  lemma ChunkedExtends(s: State, t: seq<byte>)
    requires Alone(s, t) && AtChunkedBody(s.buf) && !Rejects(s.buf)
    requires s.apps.skip == 0 && !s.apps.bodyUntilClose
    ensures Turn(s).Again? ==> Turn(Plus(s, t)) == Again(Plus(Turn(s).s, t))
  {
    hide HeadOf, HeadIsBad, BodyFrom, Boundary, Turn, Resumable, Complete;
    WindowExtends(s.buf, t);
    var start := BodyStart(s.buf);
    assert (s.buf + t)[start..] == s.buf[start..] + t;
    BodyExtends(s.buf[start..], t, 0, []);
    ResumableExtends(s, t);
    ChunkedTurn(s);
    var b := BodyOf(s.buf[start..]);
    if b.Whole? {
      HeadGotIsNotBad(s.buf + t);
      ChunkedTurn(Plus(s, t));
      CompleteExtends(s.(apps := s.apps.(chunkPrefix := 0)), HeadOf(Window(s.buf)).value, |s.buf| - |b.rest|, t);
    }
  }

  lemma CompleteExtends(s: State, h: Header, n: nat, t: seq<byte>)
    requires n <= |s.buf|
    ensures Complete(Plus(s, t), h, n) == Plus(Complete(s, h, n), t)
  {
    assert (s.buf + t)[n..] == s.buf[n..] + t;
  }

  /** An unfinished chunked body picks up where it left off. */
  lemma ChunkedResumes(s: State, t: seq<byte>)
    requires Alone(s, t) && AtChunkedBody(s.buf) && !Rejects(s.buf)
    requires s.apps.skip == 0 && !s.apps.bodyUntilClose && Turn(s).Wait?
    ensures Turn(Plus(Turn(s).s, t)) == Turn(Plus(s, t))
  {
    hide HeadOf, HeadIsBad, BodyFrom, Boundary, Turn, Complete;
    WindowExtends(s.buf, t);
    ChunkedTurn(s);
    NoScanOtherwise(s);
    var s1 := Turn(s).s;
    TurnIsHonestExactly(s);
    ResumableExtends(s, t);
    ResumableExtends(s1, t);
    if Rejects(s.buf + t) {
      GarbageResyncs(Plus(s, t));
      GarbageResyncs(Plus(s1, t));
      ResyncForgetsPrefix(Plus(s, t), s1.apps.chunkPrefix);
      assert Plus(s1, t) == Plus(s, t).(apps := s.apps.(chunkPrefix := s1.apps.chunkPrefix));
    } else {
      ChunkedTurn(Plus(s, t));
      ChunkedTurn(Plus(s1, t));
      SamePrefixForgotten(Plus(s, t), s1.apps.chunkPrefix);
    }
  }

  lemma SamePrefixForgotten(s: State, prefix: nat)
    ensures var s' := s.(apps := s.apps.(chunkPrefix := prefix));
      forall c: nat :: s'.(apps := s'.apps.(chunkPrefix := c)) == s.(apps := s.apps.(chunkPrefix := c))
  {
  }

  /** A head that is neither garbage nor followed by a chunked body. */
  lemma PlainExtends(s: State, t: seq<byte>)
    requires Alone(s, t) && HeadOf(Window(s.buf)).Got? && !AtChunkedBody(s.buf)
    requires s.apps.skip == 0 && !s.apps.bodyUntilClose
    ensures Turn(s).Wait? ==> Turn(s).s == s
    ensures Turn(s).Again? ==> Turn(Plus(s, t)) == Again(Plus(Turn(s).s, t))
  {
    hide HeadOf, BodyFrom, Boundary;
    WindowExtends(s.buf, t);
    HeadGotIsNotBad(s.buf);
    var h, start := HeadOf(Window(s.buf)).value, BodyStart(s.buf);
    CompleteExtends(s, h, start, t);
    CompleteExtends(s.(apps := s.apps.(bodyUntilClose := true)), h, start, t);
    if h.hasContentLength && start + h.contentLength <= |s.buf| {
      CompleteExtends(s, h, start + h.contentLength, t);
    }
  }

  /** While bytes are skipped, or read until close, nothing else is remembered. */
  lemma SkippingExtends(s: State, t: seq<byte>)
    requires Alone(s, t) && (s.apps.skip > 0 || s.apps.bodyUntilClose)
    ensures Turn(s).Again? ==> Turn(Plus(s, t)) == Again(Plus(Turn(s).s, t))
    ensures Turn(s).Wait? ==> Turn(Plus(Turn(s).s, t)) == Turn(Plus(s, t))
  {
    hide HeadOf, HeadIsBad, WithHead, Rejects, Boundary;
    if s.apps.skip > 0 {
      SkipExtends(s, t);
    }
  }

  lemma SkipExtends(s: State, t: seq<byte>)
    requires s.apps.skip > 0
    ensures Turn(s).Again? ==> Turn(Plus(s, t)) == Again(Plus(Turn(s).s, t))
    ensures Turn(s).Wait? ==> Turn(Plus(Turn(s).s, t)) == Turn(Plus(s, t))
  {
    hide HeadOf, HeadIsBad, WithHead;
    DropAppends(s.buf, t, Min(s.apps.skip, |s.buf|), Min(s.apps.skip, |s.buf| + |t|));
  }

  lemma DropAppends(a: seq<byte>, t: seq<byte>, n: nat, m: nat)
    requires n <= |a| && m <= |a| + |t|
    ensures (a + t)[n..] == a[n..] + t
    ensures m >= |a| ==> (a + t)[m..] == t[m - |a|..] == ([] + t)[m - |a|..]
  {
  }

  lemma GarbageExtends(s: State, t: seq<byte>)
    requires Alone(s, t) && Rejects(s.buf) && s.apps.skip == 0 && !s.apps.bodyUntilClose
    ensures Turn(s).Again? ==> Turn(Plus(s, t)) == Again(Plus(Turn(s).s, t))
    ensures Turn(s).Wait? ==> Turn(Plus(Turn(s).s, t)) == Turn(Plus(s, t))
  {
    hide Turn, Rejects, Boundary, ResyncOf, AtChunkedBody;
    GarbageResyncs(s);
    RejectionIsFinal(s.buf, t);
    ResumableExtends(s, t);
    GarbageResyncs(Plus(s, t));
    if Resync(s).Again? {
      ResyncExtends(s, t);
    } else {
      var s1 := Resync(s).s;
      ResyncResumes(s, t);
      assert s1.buf == s.buf;
      TurnIsHonestExactly(s);
      ResumableExtends(s1, t);
      GarbageResyncs(Plus(s1, t));
    }
  }

  lemma PeerStaysEmpty(s: State)
    requires s.peer == []
    ensures Turn(s).s.peer == []
  {
    hide HeadOf, BodyOf, ResyncOf, Remember;
  }

  lemma UnfinishedHeadWaits(s: State)
    requires s.apps.skip == 0 && !s.apps.bodyUntilClose && HeadOf(Window(s.buf)).Fail? && !Rejects(s.buf)
    ensures Turn(s) == Wait(s)
  {
  }

  lemma AloneTurnExtends(s: State, t: seq<byte>)
    requires Alone(s, t)
    ensures Turn(s).Again? ==> Turn(Plus(s, t)) == Again(Plus(Turn(s).s, t))
    ensures Turn(s).Wait? ==> Turn(Plus(Turn(s).s, t)) == Turn(Plus(s, t))
  {
    hide Turn, Rejects, PrefixFits, ScanFits, HeadOf, AtChunkedBody, HeadIsBad;
    if s.apps.skip > 0 || s.apps.bodyUntilClose {
      SkippingExtends(s, t);
    } else if Rejects(s.buf) {
      GarbageExtends(s, t);
    } else if AtChunkedBody(s.buf) {
      ChunkedExtends(s, t);
      if Turn(s).Wait? {
        ChunkedResumes(s, t);
      }
    } else if HeadOf(Window(s.buf)).Got? {
      PlainExtends(s, t);
    } else {
      UnfinishedHeadWaits(s);
    }
  }

  /** Every waiting flag but the last is set: the responses still to come answer HEADs, but perhaps the last. */
  predicate Calm(p: seq<bool>) {
    forall i :: 0 <= i < |p| - 1 ==> p[i]
  }

  /** No set flag waits for a message about which something is remembered. */
  predicate Engaged(s: State) {
    !Overtakes(s)
  }

  /** The queue and what is remembered are such that cutting does not matter. */
  predicate Steady(s: State) {
    Calm(s.peer) && Resumable(s) && Engaged(s)
  }

  /** The conditions under which cutting does not matter. */
  predicate Settled(s: State, t: seq<byte>) {
    Steady(s) && |s.buf| + |t| <= MAX_HTTP_MESSAGE_BYTES
  }

  /** The queue after the turn: a final response at the front takes a flag. */
  function PeerAfter(s: State): seq<bool> {
    if Answering(s) then s.peer[1..] else s.peer
  }

  function WithPeer(t: Turned, p: seq<bool>): Turned {
    match t
    case Again(r) => Again(r.(peer := p))
    case Wait(r) => Wait(r.(peer := p))
  }

  lemma ResyncAnyQueue(s: State, p: seq<bool>)
    ensures Resync(s.(peer := p)) == WithPeer(Resync(s), p)
  {
    hide ResyncOf;
  }

  lemma IncompleteAnyQueue(s: State, h: Header, start: nat, p: seq<bool>)
    requires 0 < start <= |s.buf|
    ensures Incomplete(s.(peer := p), h, start) == WithPeer(Incomplete(s, h, start), p)
  {
    hide Resync, Remember;
    ResyncAnyQueue(s, p);
  }

  lemma HeadAnyQueue(s: State, h: Header, start: nat)
    requires 0 < start <= |s.buf| && !(Answers(s, h) && s.peer[0])
    ensures WithHead(s, h, start) ==
            WithPeer(WithHead(s.(peer := []), h, start), if Answers(s, h) then s.peer[1..] else s.peer)
  {
    hide BodyOf, Resync, Incomplete, Remember;
    var p := if Answers(s, h) then s.peer[1..] else s.peer;
    var s0 := s.(peer := []);
    ResyncAnyQueue(s0, p);
    IncompleteAnyQueue(s0, h, start, p);
    if h.chunked {
      var body := BodyOf(s.buf[Min(start + s.apps.chunkPrefix, |s.buf|)..]);
      if body.Partial? {
        IncompleteAnyQueue(s0.(apps := s.apps.(chunkPrefix := s.apps.chunkPrefix + body.prefix)), h, start, p);
      }
    }
  }

  /** A turn that is not told to end a response at its head does the same as with an empty queue. */
  lemma FlagsOnlyMatterWhenSet(s: State)
    requires !Flagged(s)
    ensures Turn(s) == WithPeer(Turn(s.(peer := [])), PeerAfter(s))
  {
    hide HeadOf, Resync, WithHead, Window;
    ResyncAnyQueue(s.(peer := []), s.peer);
    if AtHead(s) {
      WindowExtends(s.buf, []);
      HeadAnyQueue(s, HeadOf(Window(s.buf)).value, BodyStart(s.buf));
    }
  }

  lemma FlaggedExtends(s: State, t: seq<byte>)
    requires Flagged(s)
    ensures Turn(Plus(s, t)) == Again(Plus(Turn(s).s, t))
  {
    hide HeadOf, Turn, Complete, Window;
    FlaggedTurn(s);
    WindowExtends(s.buf, t);
    FlaggedTurn(Plus(s, t));
    CompleteExtends(s.(peer := s.peer[1..]), HeadOf(Window(s.buf)).value, BodyStart(s.buf), t);
  }

  /** Whether a flag is due is settled once the turn goes round, or once a head is found. */
  lemma AnsweringExtends(s: State, t: seq<byte>)
    requires AtHead(s) || Turn(s).Again? || s.apps.skip > 0 || s.apps.bodyUntilClose || HeadIsBad(s.buf)
    ensures Answering(Plus(s, t)) == Answering(s) && Flagged(Plus(s, t)) == Flagged(s)
  {
    hide HeadOf, WithHead, Resync, Window;
    WindowExtends(s.buf, t);
  }

  lemma CalmTail(p: seq<bool>)
    requires Calm(p) && p != []
    ensures Calm(p[1..]) && (!p[0] ==> p[1..] == [])
  {
  }

  /** A turn that stops leaves the front of the buffer, and the way it is read, as they were. */
  lemma WaitKeepsFront(s: State)
    requires Turn(s).Wait?
    ensures var r := Turn(s).s;
      && (s.apps.skip > 0 ==> r.apps.skip > 0)
      && (s.apps.bodyUntilClose && s.apps.skip == 0 ==> r.apps.bodyUntilClose)
      && (s.apps.skip == 0 && !s.apps.bodyUntilClose ==>
            r.buf == s.buf && r.apps.skip == 0 && !r.apps.bodyUntilClose)
    ensures s.apps.skip == 0 && !s.apps.bodyUntilClose && !AtHead(s) && !HeadIsBad(s.buf) ==> Turn(s).s == s
  {
    hide HeadOf, BodyOf, ResyncOf, Remember, Window;
  }

  lemma SkippingForgets(s: State)
    requires Resumable(s) && (s.apps.skip > 0 || s.apps.bodyUntilClose)
    ensures !Remembers(Turn(s).s)
  {
    hide HeadOf, WithHead, PrefixFits, ScanFits;
  }

  /** What holds between polls holds between turns, whatever the sizes. */
  lemma TurnStaysEngaged(s: State)
    requires Steady(s)
    ensures Steady(Turn(s).s)
  {
    hide Turn, HeadOf, PrefixFits, ScanFits, Window, Calm, Resumable;
    TurnIsHonestExactly(s);
    if Answering(s) {
      CalmTail(s.peer);
    }
    if Flagged(s) {
      FlaggedTurn(s);
    } else {
      FlagsOnlyMatterWhenSet(s);
      if Remembers(Turn(s).s) {
        RememberingIsReading(Turn(s).s);
        if s.apps.skip > 0 || s.apps.bodyUntilClose {
          SkippingForgets(s);
        }
      }
    }
  }

  lemma RememberingIsReading(s: State)
    requires Resumable(s) && Remembers(s)
    ensures s.apps.skip == 0 && !s.apps.bodyUntilClose
  {
  }

  lemma UnflaggedGoesRound(s: State, t: seq<byte>)
    requires Settled(s, t) && !Flagged(s) && Turn(s).Again?
    ensures Turn(Plus(s, t)) == Again(Plus(Turn(s).s, t))
  {
    hide Turn, HeadOf, PrefixFits, ScanFits, Window, Calm, Answering;
    var s0 := s.(peer := []);
    AloneTurnExtends(s0, t);
    FlagsOnlyMatterWhenSet(s);
    AnsweringExtends(s, t);
    FlagsOnlyMatterWhenSet(Plus(s, t));
    assert Plus(s, t).(peer := []) == Plus(s0, t);
  }

  lemma UnflaggedResumes(s: State, t: seq<byte>)
    requires Settled(s, t) && !Flagged(s) && Turn(s).Wait?
    ensures Turn(Plus(Turn(s).s, t)) == Turn(Plus(s, t))
  {
    hide Turn, HeadOf, PrefixFits, ScanFits, Window, Calm;
    WaitKeepsFront(s);
    var s0, r := s.(peer := []), Turn(s).s;
    if AtHead(s) || s.apps.skip > 0 || s.apps.bodyUntilClose || HeadIsBad(s.buf) {
      AloneTurnExtends(s0, t);
      FlagsOnlyMatterWhenSet(s);
      PeerStaysEmpty(s0);
      AnsweringExtends(s, t);
      FlagsOnlyMatterWhenSet(Plus(s, t));
      assert Plus(s, t).(peer := []) == Plus(s0, t);
      if Answering(s) {
        CalmTail(s.peer);
      } else {
        AnsweringExtends(r, t);
      }
      FlagsOnlyMatterWhenSet(Plus(r, t));
      assert Plus(r, t).(peer := []) == Plus(Turn(s0).s, t);
    }
  }

  /** Any turn: going round commutes with the arrival of bytes, and stopping loses nothing. */
  lemma TurnExtends(s: State, t: seq<byte>)
    requires Settled(s, t)
    ensures Steady(Turn(s).s)
    ensures Turn(s).Again? ==> Turn(Plus(s, t)) == Again(Plus(Turn(s).s, t))
    ensures Turn(s).Wait? ==> Turn(Plus(Turn(s).s, t)) == Turn(Plus(s, t))
  {
    TurnStaysEngaged(s);
    if Flagged(s) {
      FlaggedExtends(s, t);
    } else {
      if Turn(s).Again? {
        UnflaggedGoesRound(s, t);
      } else {
        UnflaggedResumes(s, t);
      }
    }
  }

  /** Polling, receiving more, and polling again is polling once over everything. */
  lemma {:induction false} PollExtends(s: State, t: seq<byte>)
    requires Settled(s, t)
    ensures Poll(Plus(Poll(s), t)) == Poll(Plus(s, t))
    ensures Settled(Poll(s), t) && |Poll(s).buf| <= |s.buf|
    decreases |s.buf|
  {
    hide Turn, Resumable, Engaged, Calm;
    TurnExtends(s, t);
    WaitShrinks(s);
    if Turn(s).Again? {
      PollExtends(Turn(s).s, t);
    }
  }

  lemma WaitShrinks(s: State)
    ensures Turn(s).Wait? ==> |Turn(s).s.buf| <= |s.buf|
  {
    hide HeadOf, BodyOf, ResyncOf, Remember, Window;
  }

  /** Polling an empty buffer does nothing. */
  lemma EmptyPoll(s: State)
    requires s.buf == []
    ensures Turn(s) == Wait(s) && Poll(s) == s
  {
    assert Window([]) == [];
    assert HeadOf([]) == Fail(UnexpectedEof);
  }

  /** Polls after every fragment. */
  function PollEach(s: State, fragments: seq<seq<byte>>): State
    decreases |fragments|
  {
    if fragments == [] then s else PollEach(Poll(Plus(s, fragments[0])), fragments[1..])
  }

  /** At every poll what is unread and what has just arrived fit the limit of 8 MiB together. */
  predicate Within(s: State, fragments: seq<seq<byte>>)
    decreases |fragments|
  {
    fragments != [] ==>
      && |s.buf| + |fragments[0]| <= 0x80_0000
      && Within(Poll(Plus(s, fragments[0])), fragments[1..])
  }

  /** Polled, with what it remembers in order. */
  predicate Rested(s: State) {
    Steady(s) && Poll(s) == s
  }

  /** A poll leaves a state at rest. */
  lemma PollRests(s: State, f: seq<byte>)
    requires Steady(s) && |s.buf| + |f| <= MAX_HTTP_MESSAGE_BYTES
    ensures Rested(Poll(Plus(s, f))) && |Poll(Plus(s, f)).buf| <= |s.buf| + |f|
  {
    hide Poll, Resumable, Overtakes, Calm;
    PlusSettled(s, f, []);
    PollExtends(Plus(s, f), []);
    assert Plus(Poll(Plus(s, f)), []) == Poll(Plus(s, f));
    assert Plus(Plus(s, f), []) == Plus(s, f);
  }

  lemma PlusSettled(s: State, f: seq<byte>, t: seq<byte>)
    requires Steady(s) && |s.buf| + |f| + |t| <= MAX_HTTP_MESSAGE_BYTES
    ensures Settled(Plus(s, f), t)
  {
    hide HeadOf, Window, Calm, HeadIsBad, PrefixFits;
    ResumableExtends(s, f);
    if Remembers(s) {
      RememberedFront(s);
      AnsweringExtends(s, f);
    }
  }

  /** Something is remembered only about a head that has been found, or about garbage. */
  lemma RememberedFront(s: State)
    requires Resumable(s) && Remembers(s)
    ensures AtHead(s) || HeadIsBad(s.buf)
  {
  }

  /** Polling in between, where the next fragment is cut, changes nothing. */
  lemma CutInBetween(s: State, f: seq<byte>, x: seq<byte>, more: seq<seq<byte>>)
    requires Steady(s) && Within(s, [f + x] + more)
    ensures PollEach(s, [f + x] + more) == PollEach(Poll(Plus(s, f)), [x] + more)
    ensures Within(Poll(Plus(s, f)), [x] + more)
  {
    hide Poll, Resumable, Overtakes, Calm;
    PlusSettled(s, f, x);
    PollExtends(Plus(s, f), x);
    assert Plus(Plus(s, f), x) == Plus(s, f + x) by { assert s.buf + f + x == s.buf + (f + x); }
    assert ([f + x] + more)[1..] == more && ([x] + more)[1..] == more;
  }

  /**
   Fragmentation independence, for streams of any length. Two ways of cutting one stream end
   in the same messages, failures, unread bytes and memory, as long as at every poll the
   unread bytes fit the limit. If one of them has no poll at all, nothing must be left to do.
   */
  lemma {:induction false} CuttingDoesNotMatter(s: State, fs: seq<seq<byte>>, gs: seq<seq<byte>>)
    requires Steady(s) && (fs == [] || gs == [] ==> Poll(s) == s)
    requires Within(s, fs) && Within(s, gs) && Concat(fs) == Concat(gs)
    ensures PollEach(s, fs) == PollEach(s, gs)
    decreases |fs| + |gs|
  {
    hide Poll, Steady;
    if fs == [] {
      NothingToPoll(s, gs);
    } else if gs == [] {
      NothingToPoll(s, fs);
    } else if |fs[0]| <= |gs[0]| {
      CutFirst(s, fs, gs);
    } else {
      CutFirst(s, gs, fs);
    }
  }

  lemma {:induction false} CutFirst(s: State, fs: seq<seq<byte>>, gs: seq<seq<byte>>)
    requires Steady(s) && Within(s, fs) && Within(s, gs) && Concat(fs) == Concat(gs)
    requires fs != [] && gs != [] && |fs[0]| <= |gs[0]|
    ensures PollEach(s, fs) == PollEach(s, gs)
    decreases |fs| + |gs|, 0
  {
    hide Poll, Steady;
    var f, x, more := fs[0], gs[0][|fs[0]|..], gs[1..];
    SamePrefix(f, Concat(fs[1..]), gs[0], Concat(more));
    assert gs == [f + x] + more;
    CutInBetween(s, f, x, more);
    PollRests(s, f);
    assert ([x] + more)[1..] == more;
    CuttingDoesNotMatter(Poll(Plus(s, f)), fs[1..], [x] + more);
  }

  lemma SamePrefix(f: seq<byte>, a: seq<byte>, g: seq<byte>, b: seq<byte>)
    requires f + a == g + b && |f| <= |g|
    ensures g == f + g[|f|..] && a == g[|f|..] + b
  {
    assert (f + a)[|f|..] == a && (g + b)[..|f|] == g[..|f|] && (g + b)[|f|..] == g[|f|..] + b;
    assert (f + a)[..|f|] == f;
  }

  lemma {:induction false} NothingToPoll(s: State, gs: seq<seq<byte>>)
    requires Rested(s) && Concat(gs) == []
    ensures PollEach(s, gs) == s
    decreases |gs|
  {
    hide Poll, Resumable, Overtakes, Calm;
    if gs != [] {
      assert gs[0] == [] && Concat(gs[1..]) == [];
      assert Plus(s, []) == s;
      NothingToPoll(s, gs[1..]);
    }
  }

  /** A decoder that has seen nothing, with flags waiting from the other direction. */
  function Fresh(p: seq<bool>): State {
    State(Initial(), p, [])
  }

  lemma FreshRests(p: seq<bool>)
    requires Calm(p)
    ensures Rested(Fresh(p))
  {
    EmptyPoll(Fresh(p));
  }

  /** A stream that fits as a whole fits at every poll. */
  lemma {:induction false} ShortIsWithin(s: State, fs: seq<seq<byte>>)
    requires Steady(s) && |s.buf| + |Concat(fs)| <= MAX_HTTP_MESSAGE_BYTES
    ensures Within(s, fs)
    decreases |fs|
  {
    hide Poll, Steady;
    if fs != [] {
      PollRests(s, fs[0]);
      ShortIsWithin(Poll(Plus(s, fs[0])), fs[1..]);
    }
  }

  /** A stream that fits as a whole may as well be polled once. */
  lemma PollingOnceIsEnough(p: seq<bool>, fs: seq<seq<byte>>)
    requires Calm(p) && fs != [] && |Concat(fs)| <= MAX_HTTP_MESSAGE_BYTES
    ensures PollEach(Fresh(p), fs) == Poll(Plus(Fresh(p), Concat(fs)))
  {
    hide Poll, Rested;
    FreshRests(p);
    var whole := [Concat(fs)];
    assert Concat(whole) == Concat(fs) + Concat([]) == Concat(fs);
    ShortIsWithin(Fresh(p), fs);
    ShortIsWithin(Fresh(p), whole);
    CuttingDoesNotMatter(Fresh(p), fs, whole);
  }
}
