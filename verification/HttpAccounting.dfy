/** What each turn of the HTTP loop consumes and counts, and what whole runs add up to. */
module HttpAccounting {
  import opened Bytes
  import opened HttpText
  import opened HttpParser
  import opened HttpStability
  import opened HttpResync
  import opened HttpPoll
  import opened HttpResume
  import opened HttpFragments
  import opened HttpPipeline
  import opened HttpRoundTrip
  import opened HttpOvertake
  import opened HttpLive

  /**
   Octets of the body behind a head that ends at `start`, as section 6.3 of RFC 9112 frames
   it, read from the body's first byte; a body that lasts until close is counted as none.
   */
  function BodyOctets(s: State, h: Header, start: nat): nat
    requires start <= |s.buf|
  {
    if BodyForbidden(h) || (Answers(s, h) && s.peer[0]) then 0
    else if h.chunked then
      match BodyOf(s.buf[start..])
      case Whole(_, rest) => if |rest| <= |s.buf| - start then |s.buf| - start - |rest| else 0
      case Partial(_, _) => 0
    else if h.hasContentLength then h.contentLength
    else 0
  }

  /** The turn recorded the message at the front and consumed its head and body, no more and no less. */
  predicate TookMessage(s: State, r: State) {
    && HeadOf(Window(s.buf)).Got? && BodyStart(s.buf) <= |s.buf|
    && var h, start := HeadOf(Window(s.buf)).value, BodyStart(s.buf);
    && var n := start + BodyOctets(s, h, start);
    && r.apps.messages == s.apps.messages + [h]
    && r.apps.decodeFailures == s.apps.decodeFailures && r.apps.bodiesSkipped == s.apps.bodiesSkipped
    && r.apps.skip == 0 && (s.peer == [] ==> r.apps.chunkPrefix == 0)
    && n <= |s.buf| && r.buf == s.buf[n..]
  }

  /** The turn recorded an oversize message; its head is consumed and its body is still to be skipped. */
  predicate TookOversize(s: State, r: State) {
    && HeadOf(Window(s.buf)).Got? && BodyStart(s.buf) <= |s.buf|
    && var h, start := HeadOf(Window(s.buf)).value, BodyStart(s.buf);
    && |s.buf| > MAX_HTTP_MESSAGE_BYTES && start + h.contentLength > |s.buf|
    && r.apps.messages == s.apps.messages + [h]
    && r.apps.decodeFailures == s.apps.decodeFailures && r.apps.bodiesSkipped == s.apps.bodiesSkipped + 1
    && r.apps.skip == BodyOctets(s, h, start) == h.contentLength
    && r.buf == s.buf[start..]
  }

  /** Where reading goes on after garbage: at the first plausible start of a message, or with nothing. */
  function FromNextStart(buf: seq<byte>): seq<byte> {
    match ResyncOf(buf, 0)
    case Some(k) => buf[k..]
    case None => []
  }

  /** The turn gave up on the front of the buffer: one failure, no message. */
  predicate GaveUp(s: State, r: State) {
    && r.apps.messages == s.apps.messages && r.apps.bodiesSkipped == s.apps.bodiesSkipped
    && r.apps.decodeFailures == s.apps.decodeFailures + 1
    && r.buf == FromNextStart(s.buf)
    && (ResyncOf(s.buf, 0) == None ==> |s.buf| > MAX_HTTP_MESSAGE_BYTES)
  }

  /** What is read on from after garbage begins like a message, and no earlier line end has that behind it. */
  lemma NextStartIsFirst(buf: seq<byte>)
    ensures match ResyncOf(buf, 0)
      case Some(k) =>
        && 2 < k <= |buf| && FromNextStart(buf) == buf[k..] && StartsMessage(buf[k..])
        && forall p :: 1 <= p < k - 1 ==> !MarkedAt(buf, p)
      case None => FromNextStart(buf) == [] && forall p :: 1 <= p ==> !MarkedAt(buf, p)
  {
    hide StartsMessage;
    ScanIsFirst(buf, 1);
  }

  /** The turn finished skipping a body. */
  predicate EndedSkip(s: State, r: State) {
    && 0 < s.apps.skip <= |s.buf|
    && r == s.(apps := s.apps.(skip := 0), buf := s.buf[s.apps.skip..])
  }

  /** Nothing decoded, nothing failed. */
  predicate CountedNothing(s: State, r: State) {
    && r.apps.messages == s.apps.messages && r.apps.decodeFailures == s.apps.decodeFailures
    && r.apps.bodiesSkipped == s.apps.bodiesSkipped
  }

  lemma ResyncAccounts(s: State)
    requires NothingBefore(s.buf, s.apps.resyncScanned)
    ensures match Resync(s)
      case Again(r) => GaveUp(s, r)
      case Wait(r) => CountedNothing(s, r) && r.buf == s.buf
  {
    hide ResyncOf;
    ScanningOnIsScanningAll(s.buf, s.apps.resyncScanned);
  }

  predicate Accounts(s: State, t: Turned) {
    match t
    case Again(r) =>
      && |r.buf| < |s.buf|
      && (TookMessage(s, r) || TookOversize(s, r) || GaveUp(s, r) || EndedSkip(s, r))
    case Wait(r) => CountedNothing(s, r)
  }

  /** Completing with the octets the framing gives. */
  lemma CompleteAccounts(s: State, s': State, n: nat)
    requires HeadOf(Window(s.buf)).Got? && 0 < BodyStart(s.buf) <= |s.buf| && s.apps.skip == 0
    requires s'.buf == s.buf && s'.apps.skip == 0
    requires s'.apps.messages == s.apps.messages && s'.apps.decodeFailures == s.apps.decodeFailures
    requires s'.apps.bodiesSkipped == s.apps.bodiesSkipped && (s.peer == [] ==> s'.apps.chunkPrefix == 0)
    requires n == BodyStart(s.buf) + BodyOctets(s, HeadOf(Window(s.buf)).value, BodyStart(s.buf)) <= |s.buf|
    ensures Accounts(s, Again(Complete(s', HeadOf(Window(s.buf)).value, n)))
  {
    hide HeadOf, BodyOctets, Window;
  }

  /** An unfinished body is waited for, skipped, or given up. */
  lemma IncompleteAccounts(s: State, s': State)
    requires HeadOf(Window(s.buf)).Got? && 0 < BodyStart(s.buf) <= |s.buf| && s.apps.skip == 0
    requires s'.buf == s.buf && s'.apps.skip == 0 && NothingBefore(s'.buf, s'.apps.resyncScanned)
    requires s'.apps.messages == s.apps.messages && s'.apps.decodeFailures == s.apps.decodeFailures
    requires s'.apps.bodiesSkipped == s.apps.bodiesSkipped
    requires var h, start := HeadOf(Window(s.buf)).value, BodyStart(s.buf);
      h.hasContentLength && !h.chunked ==>
        start + h.contentLength > |s.buf| && BodyOctets(s, h, start) == h.contentLength
    ensures Accounts(s, Incomplete(s', HeadOf(Window(s.buf)).value, BodyStart(s.buf)))
  {
    hide HeadOf, BodyOctets, Window, Resync, FromNextStart, NothingBefore;
    ResyncAccounts(s');
  }

  lemma ResyncTurnAccounts(s: State, s': State)
    requires s'.buf == s.buf && NothingBefore(s'.buf, s'.apps.resyncScanned)
    requires s'.apps.messages == s.apps.messages && s'.apps.decodeFailures == s.apps.decodeFailures
    requires s'.apps.bodiesSkipped == s.apps.bodiesSkipped
    ensures Accounts(s, Resync(s'))
  {
    hide Resync, FromNextStart, NothingBefore;
    ResyncAccounts(s');
  }

  lemma ChunkedAccounts(s: State)
    requires Resumable(s) && AtChunkedBody(s.buf) && s.apps.skip == 0 && !s.apps.bodyUntilClose
    ensures Accounts(s, Turn(s))
  {
    hide HeadOf, BodyFrom, Boundary, Window, Resync, Complete, Incomplete, Rejects, Accounts, NothingBefore;
    WindowExtends(s.buf, []);
    ScanIsKnown(s);
    PrefixDoesNotMatter(s);
    var h, start := HeadOf(Window(s.buf)).value, BodyStart(s.buf);
    var s1 := if Answers(s, h) then s.(peer := s.peer[1..]) else s;
    if Answers(s, h) && s.peer[0] {
      CompleteAccounts(s, s1, start);
    } else {
      match BodyOf(s.buf[start + s.apps.chunkPrefix..])
      case Partial(e, validated) =>
        if e == UnexpectedEof {
          IncompleteAccounts(s, s1.(apps := s1.apps.(chunkPrefix := s1.apps.chunkPrefix + validated)));
        } else {
          ResyncTurnAccounts(s, s1);
        }
      case Whole(_, rest) =>
        CompleteAccounts(s, s1.(apps := s1.apps.(chunkPrefix := 0)), |s.buf| - |rest|);
    }
  }

  lemma PlainAccounts(s: State)
    requires Resumable(s) && HeadOf(Window(s.buf)).Got? && !AtChunkedBody(s.buf)
    requires s.apps.skip == 0 && !s.apps.bodyUntilClose
    ensures Accounts(s, Turn(s))
  {
    hide HeadOf, BodyFrom, Boundary, Window, Resync, Complete, Incomplete, Rejects, Accounts, NothingBefore;
    WindowExtends(s.buf, []);
    ScanIsKnown(s);
    var h, start := HeadOf(Window(s.buf)).value, BodyStart(s.buf);
    var s1 := if Answers(s, h) then s.(peer := s.peer[1..]) else s;
    if BodyForbidden(h) || (Answers(s, h) && s.peer[0]) {
      CompleteAccounts(s, s1, start);
    } else if h.hasContentLength && |s.buf| - start < h.contentLength {
      IncompleteAccounts(s, s1);
    } else if h.hasContentLength {
      CompleteAccounts(s, s1, start + h.contentLength);
    } else if h.kind == Response {
      CompleteAccounts(s, s1.(apps := s1.apps.(bodyUntilClose := true)), start);
    } else {
      CompleteAccounts(s, s1, start);
    }
  }

  /**
   Every turn that goes round again has consumed something and did exactly what it counted:
   a message with its head and body, the head of an oversize message, a failure that leaves
   the buffer at a plausible start, or the end of a skip. A turn that stops counts nothing.
   */
  lemma TurnAccounts(s: State)
    requires Resumable(s)
    ensures Accounts(s, Turn(s))
  {
    hide HeadOf, Resync, Accounts, Resumable, NothingBefore;
    ScanIsKnown(s);
    if s.apps.skip > 0 || s.apps.bodyUntilClose {
      SkipAccounts(s);
    } else if HeadOf(Window(s.buf)).Fail? {
      ResyncTurnAccounts(s, s);
      WaitAccounts(s);
    } else if AtChunkedBody(s.buf) {
      ChunkedAccounts(s);
    } else {
      PlainAccounts(s);
    }
  }

  lemma WaitAccounts(s: State)
    ensures Accounts(s, Wait(s))
  {
  }

  lemma SkipAccounts(s: State)
    requires s.apps.skip > 0 || s.apps.bodyUntilClose
    ensures Accounts(s, Turn(s))
  {
    hide HeadOf, FromNextStart;
  }

  lemma SkipTurn(s: State)
    requires 0 < s.apps.skip
    ensures var n := Min(s.apps.skip, |s.buf|);
      var r := s.(apps := s.apps.(skip := s.apps.skip - n), buf := s.buf[n..]);
      Turn(s) == if n < s.apps.skip then Wait(r) else Again(r)
  {
    hide HeadOf, WithHead, HeadIsBad;
  }

  /**
   A skip lets exactly the rest of the body pass, in however many pieces it arrives; what
   follows is read as if the body had never been there.
   */
  lemma {:induction false} SkipTakesTheBody(s: State, pieces: seq<seq<byte>>, last: seq<byte>, rest: seq<byte>)
    requires s.buf == [] && s.apps.skip == |Concat(pieces)| + |last|
    ensures PollEach(s, pieces + [last + rest]) == Poll(s.(apps := s.apps.(skip := 0), buf := rest))
    decreases |pieces|
  {
    hide Poll, Turn;
    if pieces == [] {
      var full := Plus(s, last + rest);
      assert full.buf == last + rest && full.buf[|last|..] == rest;
      assert (pieces + [last + rest])[1..] == [];
      if s.apps.skip > 0 {
        SkipTurn(full);
        TurnThenPoll(full);
      } else {
        assert full == s.(apps := s.apps.(skip := 0), buf := rest);
      }
    } else {
      var f := pieces[0];
      var full := Plus(s, f);
      assert full.buf == f;
      SkipPiece(s, f);
      assert (pieces + [last + rest])[1..] == pieces[1..] + [last + rest];
      SkipTakesTheBody(s.(apps := s.apps.(skip := s.apps.skip - |f|)), pieces[1..], last, rest);
    }
  }

  lemma SkipPiece(s: State, f: seq<byte>)
    requires s.buf == [] && |f| <= s.apps.skip
    ensures Poll(Plus(s, f)) == s.(apps := s.apps.(skip := s.apps.skip - |f|))
  {
    hide Turn;
    var full, r := Plus(s, f), s.(apps := s.apps.(skip := s.apps.skip - |f|));
    assert full.buf == f && f[|f|..] == [];
    EmptyPoll(r);
    if s.apps.skip > 0 {
      SkipTurn(full);
    } else {
      assert full == r;
    }
  }

  lemma TurnThenPoll(s: State)
    ensures Poll(s) == if Turn(s).Again? then Poll(Turn(s).s) else Turn(s).s
  {
    hide Turn;
  }

  /** One turn of a run: the state before it and what it did. */
  datatype Visit = Visit(before: State, turned: Turned)

  /** The turns of one poll, in order. */
  function Visits(s: State): seq<Visit>
    decreases |s.buf|
  {
    [Visit(s, Turn(s))] + if Turn(s).Again? then Visits(Turn(s).s) else []
  }

  function VisitsEach(s: State, fragments: seq<seq<byte>>): seq<Visit>
    decreases |fragments|
  {
    if fragments == [] then []
    else Visits(Plus(s, fragments[0])) + VisitsEach(Poll(Plus(s, fragments[0])), fragments[1..])
  }

  /** The bytes a turn consumed. */
  function Taken(v: Visit): seq<byte> {
    var n := |v.before.buf| - |v.turned.s.buf|;
    if n >= 0 then v.before.buf[..n] else []
  }

  function AllTaken(vs: seq<Visit>): seq<byte> {
    if vs == [] then [] else Taken(vs[0]) + AllTaken(vs[1..])
  }

  predicate TookAny(v: Visit) {
    v.turned.Again? && (TookMessage(v.before, v.turned.s) || TookOversize(v.before, v.turned.s))
  }

  /** The heads of the messages that the turns recorded. */
  function Recorded(vs: seq<Visit>): seq<Header> {
    if vs == [] then []
    else (if TookAny(vs[0]) then [HeadOf(Window(vs[0].before.buf)).value] else []) + Recorded(vs[1..])
  }

  /** How many turns gave up. */
  function Failures(vs: seq<Visit>): nat {
    if vs == [] then 0
    else (if vs[0].turned.Again? && GaveUp(vs[0].before, vs[0].turned.s) then 1 else 0) + Failures(vs[1..])
  }

  lemma {:induction false} TakenJoins(vs: seq<Visit>, ws: seq<Visit>)
    ensures AllTaken(vs + ws) == AllTaken(vs) + AllTaken(ws)
    decreases |vs|
  {
    hide Taken;
    if vs == [] {
      assert vs + ws == ws;
    } else {
      assert (vs + ws)[1..] == vs[1..] + ws;
      TakenJoins(vs[1..], ws);
    }
  }

  lemma {:induction false} RecordedJoins(vs: seq<Visit>, ws: seq<Visit>)
    ensures Recorded(vs + ws) == Recorded(vs) + Recorded(ws)
    decreases |vs|
  {
    hide TookMessage, TookOversize, HeadOf;
    if vs == [] {
      assert vs + ws == ws;
    } else {
      assert (vs + ws)[1..] == vs[1..] + ws;
      RecordedJoins(vs[1..], ws);
    }
  }

  lemma {:induction false} FailuresJoin(vs: seq<Visit>, ws: seq<Visit>)
    ensures Failures(vs + ws) == Failures(vs) + Failures(ws)
    decreases |vs|
  {
    hide GaveUp;
    if vs == [] {
      assert vs + ws == ws;
    } else {
      assert (vs + ws)[1..] == vs[1..] + ws;
      FailuresJoin(vs[1..], ws);
    }
  }

  lemma VisitsJoin(vs: seq<Visit>, ws: seq<Visit>)
    ensures AllTaken(vs + ws) == AllTaken(vs) + AllTaken(ws)
    ensures Recorded(vs + ws) == Recorded(vs) + Recorded(ws)
    ensures Failures(vs + ws) == Failures(vs) + Failures(ws)
  {
    hide AllTaken, Recorded, Failures;
    TakenJoins(vs, ws);
    RecordedJoins(vs, ws);
    FailuresJoin(vs, ws);
  }

  lemma WaitTakesTheFront(s: State)
    requires Turn(s).Wait?
    ensures var r := Turn(s).s; |r.buf| <= |s.buf| && r.buf == s.buf[|s.buf| - |r.buf|..]
  {
    WaitKeepsFront(s);
    if s.apps.skip > 0 {
      SkipTurn(s);
    } else if s.apps.bodyUntilClose {
      hide HeadOf, WithHead, HeadIsBad;
      assert Turn(s).s.buf == [];
    }
  }

  /** What one turn consumes is the front of the buffer, and what it counts is what it did. */
  lemma VisitAdds(s: State)
    requires Accounts(s, Turn(s))
    ensures var v, r := Visit(s, Turn(s)), Turn(s).s;
      && s.buf == Taken(v) + r.buf
      && r.apps.messages == s.apps.messages + Recorded([v])
      && r.apps.decodeFailures == s.apps.decodeFailures + Failures([v])
  {
    hide Turn, HeadOf, BodyOctets, Window, ResyncOf;
    var v := Visit(s, Turn(s));
    assert [v][1..] == [];
    if Turn(s).Wait? {
      WaitTakesTheFront(s);
      assert s.apps.messages + [] == s.apps.messages;
    }
  }

  /** The visits lead from `s`, with the unread bytes `bytes`, to `r`, and add up to the difference. */
  predicate Adds(vs: seq<Visit>, bytes: seq<byte>, s: State, r: State) {
    && (forall v :: v in vs ==> Accounts(v.before, v.turned) && ResumesInside(v.before))
    && bytes == AllTaken(vs) + r.buf
    && r.apps.messages == s.apps.messages + Recorded(vs)
    && r.apps.decodeFailures == s.apps.decodeFailures + Failures(vs)
  }

  lemma AddsOne(s: State)
    requires InStep(s)
    ensures Adds([Visit(s, Turn(s))], s.buf, s, Turn(s).s)
  {
    hide Turn, Accounts, Taken, Recorded, Failures, Unmixed, Resumable, Overtakes, ResumesInside;
    TurnAccounts(s);
    ResumableIsInside(s);
    VisitAdds(s);
    var v := Visit(s, Turn(s));
    assert [v][1..] == [];
    assert AllTaken([v]) == Taken(v) + AllTaken([]) == Taken(v);
  }

  lemma AddsJoin(vs: seq<Visit>, ws: seq<Visit>, bytes: seq<byte>, more: seq<byte>, s: State, m: State, r: State)
    requires Adds(vs, bytes, s, m) && Adds(ws, m.buf + more, m, r)
    ensures Adds(vs + ws, bytes + more, s, r)
  {
    hide Accounts, AllTaken, Recorded, Failures, ResumesInside;
    VisitsJoin(vs, ws);
    assert bytes + more == AllTaken(vs) + (m.buf + more) == AllTaken(vs) + (AllTaken(ws) + r.buf);
    assert AllTaken(vs) + (AllTaken(ws) + r.buf) == AllTaken(vs) + AllTaken(ws) + r.buf;
  }

  lemma {:induction false} PollAdds(s: State)
    requires InStep(s)
    ensures Adds(Visits(s), s.buf, s, Poll(s))
    decreases |s.buf|
  {
    hide Turn, InStep, Adds;
    TurnStaysInStep(s);
    AddsOne(s);
    var v := Visit(s, Turn(s));
    if Turn(s).Again? {
      var r := Turn(s).s;
      PollAdds(r);
      assert r.buf + [] == r.buf && s.buf + [] == s.buf;
      AddsJoin([v], Visits(r), s.buf, [], s, r, Poll(r));
    } else {
      assert Visits(s) == [v];
    }
  }

  lemma {:induction false} RunAdds(s: State, fs: seq<seq<byte>>)
    requires InStep(s)
    ensures Adds(VisitsEach(s, fs), s.buf + Concat(fs), s, PollEach(s, fs))
    decreases |fs|
  {
    hide Poll, Visits, Adds, InStep;
    if fs == [] {
      NothingAdds(s);
    } else {
      var a, more := Plus(s, fs[0]), Concat(fs[1..]);
      ArrivalStaysInStep(s, fs[0]);
      PollAdds(a);
      PollStaysInStep(a);
      RunAdds(Poll(a), fs[1..]);
      SameCounts(Visits(a), a.buf, s, a, Poll(a));
      AddsJoin(Visits(a), VisitsEach(Poll(a), fs[1..]), a.buf, more, s, Poll(a), PollEach(s, fs));
      assert s.buf + fs[0] + more == s.buf + (fs[0] + more);
    }
  }

  lemma SameCounts(vs: seq<Visit>, bytes: seq<byte>, s: State, a: State, r: State)
    requires Adds(vs, bytes, a, r)
    requires a.apps.messages == s.apps.messages && a.apps.decodeFailures == s.apps.decodeFailures
    ensures Adds(vs, bytes, s, r)
  {
  }

  lemma NothingAdds(s: State)
    ensures Adds([], s.buf + [], s, s)
  {
    assert s.buf + [] == [] + s.buf && s.apps.messages == s.apps.messages + [];
  }

  /**
   Accounting over every run from a fresh decoder, for any fragments of any sizes and any
   queue in which no set flag waits behind an unset one. Every turn accounts for what it did
   and resumes a chunked body inside the buffer; the pieces consumed, one after the other,
   and the unread bytes are the stream; the messages are those recorded and the failures
   those given up.
   */
  lemma RunAccounts(p: seq<bool>, fs: seq<seq<byte>>)
    requires Unmixed(p)
    ensures var vs, r := VisitsEach(Fresh(p), fs), PollEach(Fresh(p), fs);
      && (forall v :: v in vs ==> Accounts(v.before, v.turned) && ResumesInside(v.before))
      && Concat(fs) == AllTaken(vs) + r.buf
      && r.apps.messages == Recorded(vs) && r.apps.decodeFailures == Failures(vs)
  {
    hide Accounts, AllTaken, Recorded, Failures, PollEach, VisitsEach, ResumesInside;
    FreshIsInStep(p);
    RunAdds(Fresh(p), fs);
    var vs := VisitsEach(Fresh(p), fs);
    assert [] + Concat(fs) == Concat(fs) && [] + Recorded(vs) == Recorded(vs);
  }

  /** The turns of a run in which the other direction queues flags between polls. */
  function LiveVisits(s: State, es: seq<Happening>): seq<Visit>
    decreases |es|
  {
    if es == [] then []
    else
      (match es[0] case Arrives(bytes) => Visits(Plus(s, bytes)) case _ => []) +
        LiveVisits(Happen(s, es[0]), es[1..])
  }

  lemma {:induction false} LiveAdds(s: State, es: seq<Happening>)
    requires InStep(s) && AsksInTime(s, es)
    ensures Adds(LiveVisits(s, es), s.buf + Arrived(es), s, Live(s, es))
    decreases |es|
  {
    hide Poll, Visits, Adds, InStep, MayAsk;
    if es == [] {
      NothingAdds(s);
    } else {
      var r, more := Happen(s, es[0]), Arrived(es[1..]);
      match es[0] {
        case Arrives(bytes) =>
          var a := Plus(s, bytes);
          ArrivalStaysInStep(s, bytes);
          PollAdds(a);
          PollStaysInStep(a);
          LiveAdds(r, es[1..]);
          SameCounts(Visits(a), a.buf, s, a, r);
          AddsJoin(Visits(a), LiveVisits(r, es[1..]), a.buf, more, s, r, Live(s, es));
          assert s.buf + bytes + more == s.buf + (bytes + more);
        case Asks(isHead) =>
          AskedStaysInStep(s, isHead);
          LiveAdds(r, es[1..]);
          SameCounts(LiveVisits(r, es[1..]), s.buf + more, s, r, Live(s, es));
          assert [] + more == more && [] + LiveVisits(r, es[1..]) == LiveVisits(r, es[1..]);
        case Answered(left) =>
          OwnStaysInStep(s, left);
          LiveAdds(r, es[1..]);
          SameCounts(LiveVisits(r, es[1..]), s.buf + more, s, r, Live(s, es));
          assert [] + more == more && [] + LiveVisits(r, es[1..]) == LiveVisits(r, es[1..]);
      }
    }
  }

  /**
   Accounting over every run of arrivals and requests from a fresh decoder, in which each flag
   is queued in time: the same as for a fixed queue, for a queue that grows between polls.
   */
  lemma LiveAccounts(es: seq<Happening>)
    requires AsksInTime(Fresh([]), es)
    ensures var vs, r := LiveVisits(Fresh([]), es), Live(Fresh([]), es);
      && (forall v :: v in vs ==> Accounts(v.before, v.turned) && ResumesInside(v.before))
      && Arrived(es) == AllTaken(vs) + r.buf
      && r.apps.messages == Recorded(vs) && r.apps.decodeFailures == Failures(vs)
  {
    hide Accounts, AllTaken, Recorded, Failures, Live, LiveVisits, ResumesInside, AsksInTime;
    FreshIsInStep([]);
    LiveAdds(Fresh([]), es);
    var vs := LiveVisits(Fresh([]), es);
    assert [] + Arrived(es) == Arrived(es) && [] + Recorded(vs) == Recorded(vs);
  }

  /** Forty-six octets and an empty chunked body. */
  function Filler(): (t: seq<byte>)
    ensures |t| == 51
  {
    seq(46, _ => 120) + Line(Ascii("0")) + Line([])
  }

  lemma SlicesBehindDisguise()
    ensures var buf := DisguisedChunk() + Filler();
      buf[46..] == Line(Eight()) + Filler() && buf[102..] == Line(Ascii("0")) + Line([]) + []
  {
    HeadsAreWellFormed();
    hide EncodeHead, WellFormedHead, Line, Ascii;
    var head, tail := EncodeHead(Disguised()), Line(Ascii("0")) + Line([]);
    assert Eight() + Line([]) == Line(Eight()) by { LineOfEight(); }
    var buf := DisguisedChunk() + Filler();
    assert buf == head + (Line(Eight()) + Filler());
    assert |Line(Eight())| == 10 by { LineOfEight(); }
    assert buf[102..] == Filler()[46..];
  }

  lemma LineOfEight()
    ensures Line(Eight()) == Eight() + Line([]) && |Line(Eight())| == 10
  {
  }

  /** The octets behind the disguised head are no chunk, but at the stale place an empty body stands. */
  lemma BodiesBehindDisguise()
    ensures var buf := DisguisedChunk() + Filler();
      && BodyOf(buf[46..]) == Partial(MalformedHeader, 0)
      && BodyOf(buf[102..]) == Whole([], [])
  {
    SlicesBehindDisguise();
    LineReadBack(Eight(), Filler());
    NoSize();
    LastChunkReadBack([]);
    hide ReadLine, ChunkSizeOf, FieldsFrom, DisguisedChunk, Filler, Line;
  }

  lemma NoSize()
    ensures ChunkSizeOf(Eight()) == None
  {
    var line := Eight();
    assert Find(line, SEMICOLON, 0) == 8 by {
      assert forall k :: 0 <= k < 8 ==> line[k] != SEMICOLON;
    }
    assert line[..8] == line;
    assert !IsHex(line[0]);
  }

  /**
   Once a flag has overtaken, the accounting fails: after the run of `ResumesOutside` and
   fifty-one octets more, a chunked request is recorded although its body is malformed from
   its first byte.
   */
  lemma OvertakingMisframes()
    ensures var s := Plus(Turn(Poll(Plus(Fresh([false, true]), Part()))).s, Filler());
      !Accounts(s, Turn(s))
  {
    var part := Plus(Fresh([false, true]), Part());
    assert part.buf == Part();
    PartTakesAFlag(part);
    hide Turn, Poll, HeadOf, Part, Overtakes, AtHead;
    Overtaken(Poll(part));
    StaleReading(Plus(Turn(Poll(part)).s, Filler()));
  }

  lemma StaleReading(s: State)
    requires s.buf == DisguisedChunk() + Filler() && s.apps.chunkPrefix == 56
    requires s.apps.skip == 0 && !s.apps.bodyUntilClose
    ensures !Accounts(s, Turn(s))
  {
    DisguisedIsAtHead(s, Filler());
    BodiesBehindDisguise();
    StaleTurn(s);
    hide HeadOf, Window, BodyOf, Turn, DisguisedChunk, Filler, FromNextStart;
    var r := Turn(s).s;
    assert !TookMessage(s, r) && !TookOversize(s, r) && !GaveUp(s, r) && !EndedSkip(s, r);
  }

  lemma StaleTurn(s: State)
    requires s.buf == DisguisedChunk() + Filler() && s.apps.chunkPrefix == 56
    requires s.apps.skip == 0 && !s.apps.bodyUntilClose
    ensures var r := Turn(s).s;
      && Turn(s).Again? && r.buf == [] && r.apps.skip == 0
      && r.apps.messages == s.apps.messages + [Disguised()]
      && r.apps.decodeFailures == s.apps.decodeFailures && r.apps.bodiesSkipped == s.apps.bodiesSkipped
  {
    DisguisedIsAtHead(s, Filler());
    BodiesBehindDisguise();
    hide HeadOf, Window, BodyOf, Turn, DisguisedChunk, Filler, Resync, Incomplete;
    TurnAtHead(s);
    assert |s.buf| == 107 && s.buf[107..] == [];
  }
}
