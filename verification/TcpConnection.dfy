/**
 Whole runs of the reassembler, with connection state, FINs, resets and reads mixed in:
 what is handed up is always the sent stream, and closing waits for all of it.
 */
module TcpConnection {
  import opened Bytes
  import opened SeqNumber
  import opened Sorted
  import opened TcpStream
  import opened TcpMachine
  import opened TcpSafety
  import opened TcpOrder

  /**
   The absolute offset of a packet's first byte, read from its sequence number. `origin` is
   the offset at which the reassembler was seeded: 0 if it saw the SYN, anywhere if the
   capture started in mid-stream.
   */
  function Offset(m: Machine, origin: nat, h: Header): int {
    origin + m.stream.pos + Delta(h.seqNumber, m.stream.next)
  }

  /**
   A packet that reaches the data path as its sender meant it: a slice of the source, or
   wholly behind the position (then its contents do not matter), and a FIN only at the end.
   */
  predicate Genuine(m: Machine, src: Source, origin: nat, h: Header, data: Payload) {
    var p := origin + m.stream.pos;
    var off := Offset(m, origin, h);
    && p - HALF < off && off + |data| < p + HALF
    && (off + |data| <= p || IsSlice(src, off, h.seqNumber, data))
    && (h.fin ==> off + |data| == |src.bytes|)
  }

  /** The SYN of the source again, with the first bytes of the stream, as its sender would repeat it. */
  predicate RepeatsSyn(src: Source, h: Header, data: Payload) {
    && h.syn && !h.fin && !h.rst && h.seqNumber == Wrap(src.base - 1)
    && |data| <= |src.bytes| && data == src.bytes[..|data|]
  }

  /**
   A SYN that is repeated once established is ingested at its own number, one before its
   first byte. That does no harm if it reaches no further than the position, or if the
   bytes it adds happen to equal those one place earlier.
   */
  predicate HarmlessRepeat(src: Source, p: nat, n: nat)
    requires n <= |src.bytes|
  {
    n <= p + 1 || src.bytes[p + 1..n] == src.bytes[p..n - 1]
  }

  predicate GenuineEvent(m: Machine, src: Source, origin: nat, e: Event) {
    match e
    case Received(_) => true
    case Consumed(_) => true
    case Sent(h, data) =>
      if m.seeded then
        ReachesData(m, h) ==>
          || Genuine(m, src, origin, h, data)
          || (RepeatsSyn(src, h, data) && origin + m.stream.pos + 1 < HALF &&
              HarmlessRepeat(src, origin + m.stream.pos, |data|))
      else if h.syn && !h.rst then origin == 0 && IsSlice(src, 0, Wrap(h.seqNumber + 1), data)
      else ReachesData(m, h) ==>
             IsSlice(src, origin, h.seqNumber, data) && (h.fin ==> origin + |data| == |src.bytes|)
  }

  predicate GenuineRun(m: Machine, src: Source, origin: nat, events: seq<Event>)
    requires Valid(m)
    decreases |events|
  {
    events != [] ==>
      GenuineEvent(m, src, origin, events[0]) && GenuineRun(Apply(m, events[0]), src, origin, events[1..])
  }

  /** States reached only after this endpoint's FIN has been taken. */
  predicate FinTaken(state: TcpState) {
    state == FinWait1 || state == FinWait2 || state == Closing || state == LastAck || state == TimeWait
  }

  /** The FIN is still waiting for bytes before it. */
  predicate FinPending(m: Machine, src: Source, p: nat) {
    m.finSeq == Wrap(src.base + |src.bytes|) && p < |src.bytes| < p + HALF
  }

  /** History handed up at absolute position `p`; the FIN moves `p` past the end of the bytes. */
  function HistoryAt(src: Source, origin: nat, p: nat): seq<byte> {
    Between(src.bytes, origin, if p <= |src.bytes| then p else |src.bytes|)
  }

  predicate TracksSeeded(m: Machine, src: Source, origin: nat, offs: seq<nat>) {
    var p := origin + m.stream.pos;
    && m.seeded
    && Faithful(m.stream, src, p, offs) && m.stream.oooBytes <= MAX_OOO_BYTES
    && origin <= |src.bytes| && History(m) == HistoryAt(src, origin, p)
    && (m.finSeen ==> FinPending(m, src, p))
    && (FinTaken(m.state) ==> p > |src.bytes|)
  }

  predicate Tracks(m: Machine, src: Source, origin: nat, offs: seq<nat>) {
    && Valid(m) && m.keepPayload && origin <= |src.bytes|
    && if m.seeded then TracksSeeded(m, src, origin, offs)
       else m.stream == Stream(0, 0, [], 0, []) && m.erased == [] && !m.finSeen && !FinTaken(m.state)
  }

  /** Byte `j` of the source has been handed up or is stored, or lies before the point of seeding. */
  predicate HeldBy(m: Machine, origin: nat, offs: seq<nat>, j: nat) {
    if m.seeded && |offs| == |m.stream.store|
    then Held(m.stream, origin + m.stream.pos, offs, j)
    else j < origin + m.stream.pos
  }

  /** From `m` to `r` exactly the bytes `more` of the source have been added to those held. */
  ghost predicate Adds(
    m: Machine, r: Machine, src: Source, origin: nat, offs: seq<nat>, offs': seq<nat>, more: iset<nat>)
  {
    forall j: nat :: j < |src.bytes| ==>
      (HeldBy(r, origin, offs', j) <==> HeldBy(m, origin, offs, j) || j in more)
  }

  /** The FIN has been noted or taken. */
  predicate KnowsFin(m: Machine, src: Source, origin: nat) {
    m.seeded && (m.finSeen || origin + m.stream.pos > |src.bytes|)
  }

  /** The sequence number is the wrapped absolute offset. */
  lemma OffsetIsAbsolute(m: Machine, src: Source, origin: nat, h: Header)
    requires m.stream.next == Wrap(src.base + origin + m.stream.pos)
    ensures h.seqNumber == Wrap(src.base + Offset(m, origin, h))
  {
    var d := Delta(h.seqNumber, m.stream.next);
    WrapAdd(src.base + origin + m.stream.pos, d);
    assert h.seqNumber == Wrap(m.stream.next + d);
  }

  /** Ingesting a genuine segment moves the position to some `q` and hands up the source to there. */
  lemma IngestTracks(m: Machine, src: Source, origin: nat, offs: seq<nat>, off: int, v: u32, data: Payload)
    returns (offs': seq<nat>)
    requires Valid(m) && m.keepPayload && m.seeded && origin <= |src.bytes|
    requires Faithful(m.stream, src, origin + m.stream.pos, offs) && m.stream.oooBytes <= MAX_OOO_BYTES
    requires History(m) == HistoryAt(src, origin, origin + m.stream.pos)
    requires v == Wrap(src.base + off) && InWindow(origin + m.stream.pos, off, |data|)
    requires off + |data| <= origin + m.stream.pos || IsSlice(src, off, v, data)
    ensures var r := AfterIngest(m, v, data);
      && Valid(r) && m.stream.pos <= r.stream.pos
      && (m.stream.pos == r.stream.pos || origin + r.stream.pos <= |src.bytes|)
      && (off <= origin + m.stream.pos ==> off + |data| <= origin + r.stream.pos)
      && Faithful(r.stream, src, origin + r.stream.pos, offs') && r.stream.oooBytes <= MAX_OOO_BYTES
      && History(r) == HistoryAt(src, origin, origin + r.stream.pos)
      && Adds(m, r, src, origin, offs, offs', Brought(m.stream, off, v, data))
  {
    hide Slices, AllIn, Ascending, Holding, Brought, Buffer, StoredBytes, IsSlice;
    var p := origin + m.stream.pos;
    var q;
    q, offs' := BufferDelivers(m.stream, src, p, offs, off, v, data);
    var r := AfterIngest(m, v, data);
    assert History(r) == History(m) + Between(src.bytes, p, q);
    if q > p {
      JoinBetween(src.bytes, origin, p, q);
    }
    HoldingAdds(m, r, src, origin, offs, offs', Brought(m.stream, off, v, data));
  }

  lemma HoldingAdds(m: Machine, r: Machine, src: Source, origin: nat, offs: seq<nat>, offs': seq<nat>, more: iset<nat>)
    requires m.seeded && r.seeded && |offs| == |m.stream.store| && |offs'| == |r.stream.store|
    requires Holding(r.stream, origin + r.stream.pos, offs') == Holding(m.stream, origin + m.stream.pos, offs) + more
    ensures Adds(m, r, src, origin, offs, offs', more)
  {
    hide Held;
    forall j: nat | j < |src.bytes|
      ensures HeldBy(r, origin, offs', j) <==> HeldBy(m, origin, offs, j) || j in more
    {
      assert j in Holding(r.stream, origin + r.stream.pos, offs') <==> HeldBy(r, origin, offs', j);
      assert j in Holding(m.stream, origin + m.stream.pos, offs) <==> HeldBy(m, origin, offs, j);
    }
  }

  /** The data path as a whole: ingest, note the FIN, take it if it is due. */
  lemma DataTracks(m: Machine, src: Source, origin: nat, offs: seq<nat>, h: Header, data: Payload)
    returns (offs': seq<nat>)
    requires Tracks(m, src, origin, offs) && m.seeded && Genuine(m, src, origin, h, data)
    requires !FinTaken(m.state)
    ensures Tracks(OnData(m, h, data), src, origin, offs')
    ensures Adds(m, OnData(m, h, data), src, origin, offs, offs',
                 Brought(m.stream, Offset(m, origin, h), h.seqNumber, data))
    ensures KnowsFin(OnData(m, h, data), src, origin) <==> KnowsFin(m, src, origin) || h.fin
  {
    hide Slices, AllIn, Ascending, StoredBytes, IsSlice, Wrap, Delta, Dist, Between, Ingest, Adds, Brought;
    var p := origin + m.stream.pos;
    var off := Offset(m, origin, h);
    OffsetIsAbsolute(m, src, origin, h);
    offs' := IngestTracks(m, src, origin, offs, off, h.seqNumber, data);
    var r := AfterIngest(m, h.seqNumber, data);
    var n := NoteFin(r, h, data);
    var more := Brought(m.stream, off, h.seqNumber, data);
    SameHeld(m, r, n, src, origin, offs, offs', more);
    if n.finSeen {
      NotedFinIsTheEnd(m, src, origin, h, data);
      FinDueAtTheEnd(n, src, origin);
      if FinDue(n) {
        FinFollowsEverything(n, src, origin, offs');
        TakingHolds(m, n, src, origin, offs, offs', more);
        offs' := [];
      }
    }
  }

  lemma SameHeld(m: Machine, r: Machine, n: Machine, src: Source, origin: nat,
                 offs: seq<nat>, offs': seq<nat>, more: iset<nat>)
    requires Adds(m, r, src, origin, offs, offs', more) && n.stream == r.stream && n.seeded == r.seeded
    ensures Adds(m, n, src, origin, offs, offs', more)
  {
    hide Held;
    forall j: nat | j < |src.bytes|
      ensures HeldBy(n, origin, offs', j) <==> HeldBy(m, origin, offs, j) || j in more
    {
      assert HeldBy(n, origin, offs', j) == HeldBy(r, origin, offs', j);
    }
  }

  /** Once everything is handed up, taking the FIN changes nothing about that. */
  lemma TakingHolds(m: Machine, n: Machine, src: Source, origin: nat, offs: seq<nat>, offs': seq<nat>, more: iset<nat>)
    requires Adds(m, n, src, origin, offs, offs', more)
    requires n.stream.store == [] && origin + n.stream.pos >= |src.bytes|
    ensures Adds(m, TakeFin(n), src, origin, offs, [], more)
  {
    forall j: nat | j < |src.bytes|
      ensures HeldBy(TakeFin(n), origin, [], j) <==> HeldBy(m, origin, offs, j) || j in more
    {
      assert HeldBy(n, origin, offs', j) <==> HeldBy(m, origin, offs, j) || j in more;
    }
  }

  lemma NotedFinIsTheEnd(m: Machine, src: Source, origin: nat, h: Header, data: Payload)
    requires Genuine(m, src, origin, h, data)
    requires m.stream.next == Wrap(src.base + origin + m.stream.pos)
    requires m.finSeen ==> FinPending(m, src, origin + m.stream.pos)
    requires m.finSeen || h.fin
    ensures NoteFin(m, h, data).finSeq == Wrap(src.base + |src.bytes|)
    ensures -HALF < |src.bytes| - (origin + m.stream.pos) < HALF
  {
    OffsetIsAbsolute(m, src, origin, h);
    WrapAdd(src.base + Offset(m, origin, h), |data|);
  }

  /** The signed comparison with the FIN's number tells whether the position has reached the end. */
  lemma FinDueAtTheEnd(n: Machine, src: Source, origin: nat)
    requires n.finSeen && n.finSeq == Wrap(src.base + |src.bytes|)
    requires n.stream.next == Wrap(src.base + origin + n.stream.pos)
    requires -HALF < |src.bytes| - (origin + n.stream.pos) < HALF
    ensures FinDue(n) <==> origin + n.stream.pos >= |src.bytes|
  {
    DeltaIsDifference(src.base, origin + n.stream.pos, |src.bytes|);
  }

  /** Nothing can be stored beyond the end, so taking the FIN disturbs nothing. */
  lemma FinFollowsEverything(n: Machine, src: Source, origin: nat, offs: seq<nat>)
    requires Faithful(n.stream, src, origin + n.stream.pos, offs) && origin + n.stream.pos >= |src.bytes|
    ensures n.stream.store == []
    ensures Faithful(TakeFin(n).stream, src, origin + n.stream.pos + 1, [])
  {
    if offs != [] {
      assert false;
    }
    WrapAdd(src.base + origin + n.stream.pos, 1);
  }

  lemma SeedTracks(m: Machine, src: Source, origin: nat, next: u32, state: TcpState)
    requires Tracks(m, src, origin, []) && !m.seeded && next == Wrap(src.base + origin) && !FinTaken(state)
    ensures Tracks(Seed(m, next, state), src, origin, [])
  {
  }

  /** The bytes of the source that a call brings: none if the packet is not looked at or is refused. */
  ghost function BroughtBy(m: Machine, src: Source, origin: nat, e: Event): iset<nat>
    requires Valid(m)
  {
    if !e.Sent? || e.h.rst then iset{}
    else if !m.seeded then
      if e.h.syn then Range(0, |e.data|) else if e.h.ack then Range(origin, origin + |e.data|) else iset{}
    else if !ReachesData(m, e.h) then iset{}
    else if Genuine(m, src, origin, e.h, e.data)
    then Brought(m.stream, Offset(m, origin, e.h), e.h.seqNumber, e.data)
    else
      var p := origin + m.stream.pos;
      Range(p, p + |RepeatTail(p, e.data)|)
  }

  /** The packet carries a FIN to the data path. */
  predicate CarriesFin(m: Machine, e: Event) {
    e.Sent? && ReachesData(m, e.h) && e.h.fin
  }

  /** The call adds to what is held what it brings, and makes the FIN known exactly if it carries it. */
  ghost predicate Advances(m: Machine, r: Machine, src: Source, origin: nat, offs: seq<nat>, offs': seq<nat>, e: Event)
    requires Valid(m)
  {
    && Adds(m, r, src, origin, offs, offs', BroughtBy(m, src, origin, e))
    && (KnowsFin(r, src, origin) <==> KnowsFin(m, src, origin) || CarriesFin(m, e))
  }

  lemma SentTracks(m: Machine, src: Source, origin: nat, offs: seq<nat>, h: Header, data: Payload)
    returns (offs': seq<nat>)
    requires Tracks(m, src, origin, offs) && GenuineEvent(m, src, origin, Sent(h, data))
    ensures Tracks(OnSent(m, h, data), src, origin, offs')
    ensures Advances(m, OnSent(m, h, data), src, origin, offs, offs', Sent(h, data))
  {
    TracksIsValid(m, src, origin, offs);
    hide Tracks, Genuine, RepeatsSyn, HarmlessRepeat, OnData, AfterIngest, IsSlice;
    offs' := offs;
    if m.seeded && ReachesData(m, h) {
      offs' := SeededTracks(m, src, origin, offs, h, data);
    } else if !m.seeded && !h.rst && (h.syn || h.ack) {
      offs' := SeedingTracks(m, src, origin, offs, h, data);
    } else {
      OtherwiseTracks(m, src, origin, offs, h);
    }
  }

  /** A packet that is not looked at changes nothing, a reset only the state. */
  lemma OtherwiseTracks(m: Machine, src: Source, origin: nat, offs: seq<nat>, h: Header)
    requires Tracks(m, src, origin, offs)
    ensures h.rst ==> Tracks(m.(state := Closed), src, origin, offs)
    ensures forall state: TcpState :: Adds(m, m.(state := state), src, origin, offs, offs, iset{})
    ensures Adds(m, m, src, origin, offs, offs, iset{})
  {
    hide Faithful, Between, Held;
  }

  lemma SeedingTracks(m: Machine, src: Source, origin: nat, offs: seq<nat>, h: Header, data: Payload)
    returns (offs': seq<nat>)
    requires Tracks(m, src, origin, offs) && GenuineEvent(m, src, origin, Sent(h, data))
    requires !m.seeded && !h.rst && (h.syn || h.ack)
    ensures Tracks(OnSent(m, h, data), src, origin, offs')
    ensures Valid(m) && Advances(m, OnSent(m, h, data), src, origin, offs, offs', Sent(h, data))
  {
    hide Slices, Ascending, StoredBytes, Dist, Between, Ingest, OnData, Held, Slot, Range;
    if h.syn {
      var next := Wrap(h.seqNumber + 1);
      var state := if h.ack then SynReceived else SynSent;
      SeedTracks(m, src, 0, next, state);
      offs' := IngestTracks(Seed(m, next, state), src, 0, [], 0, next, data);
      SeedHolds(m, src, 0, offs, next, state);
      AddsThen(m, Seed(m, next, state), OnSent(m, h, data), src, 0, offs, [], offs', iset{}, Range(0, |data|));
    } else {
      var n := Seed(m, h.seqNumber, if m.state != CloseWait then Established else CloseWait);
      SeedTracks(m, src, origin, h.seqNumber, n.state);
      SeedIsGenuine(n, src, origin, h, data);
      offs' := DataTracks(n, src, origin, [], h, data);
      SeedHolds(m, src, origin, offs, h.seqNumber, n.state);
      var more := Range(origin, origin + |data|);
      AddsThen(m, n, OnSent(m, h, data), src, origin, offs, [], offs', iset{}, more);
    }
  }

  lemma SeedHolds(m: Machine, src: Source, origin: nat, offs: seq<nat>, next: u32, state: TcpState)
    requires !m.seeded && m.stream.store == []
    ensures Adds(m, Seed(m, next, state), src, origin, offs, [], iset{})
  {
  }

  lemma AddsThen(m: Machine, n: Machine, r: Machine, src: Source, origin: nat,
                 offs: seq<nat>, offs1: seq<nat>, offs2: seq<nat>, first: iset<nat>, second: iset<nat>)
    requires Adds(m, n, src, origin, offs, offs1, first) && Adds(n, r, src, origin, offs1, offs2, second)
    ensures Adds(m, r, src, origin, offs, offs2, first + second)
    ensures first == iset{} ==> Adds(m, r, src, origin, offs, offs2, second)
  {
    hide HeldBy;
  }

  lemma SeededTracks(m: Machine, src: Source, origin: nat, offs: seq<nat>, h: Header, data: Payload)
    returns (offs': seq<nat>)
    requires Tracks(m, src, origin, offs) && GenuineEvent(m, src, origin, Sent(h, data))
    requires m.seeded && ReachesData(m, h)
    ensures Tracks(OnSent(m, h, data), src, origin, offs')
    ensures Valid(m) && Advances(m, OnSent(m, h, data), src, origin, offs, offs', Sent(h, data))
  {
    hide Slices, Faithful, StoredBytes, Delta, Dist, Between, OnData, HarmlessRepeat, Held, Brought, Range;
    if Genuine(m, src, origin, h, data) {
      var n := Entering(m, h);
      offs' := DataTracks(n, src, origin, offs, h, data);
      EnteringHolds(m, h, src, origin, offs);
      var more := BroughtBy(m, src, origin, Sent(h, data));
      AddsThen(m, n, OnSent(m, h, data), src, origin, offs, offs, offs', iset{}, more);
    } else {
      offs' := RepeatTracks(m, src, origin, offs, h, data);
    }
  }

  lemma EnteringHolds(m: Machine, h: Header, src: Source, origin: nat, offs: seq<nat>)
    requires m.seeded
    ensures Adds(m, Entering(m, h), src, origin, offs, offs, iset{})
    ensures KnowsFin(Entering(m, h), src, origin) == KnowsFin(m, src, origin)
  {
    hide Held;
  }

  /** The part of a repeated SYN's payload that `ingest` takes to be new. */
  function RepeatTail(p: nat, data: Payload): Payload {
    if |data| <= p + 1 then [] else data[p + 1..]
  }

  lemma RepeatIsItsTail(s: Stream, v: u32, p: nat, data: Payload)
    requires Counted(s) && Delta(v, s.next) == -1 - p && Dist(s.next, v) == p + 1
    requires s.store == [] || Delta(s.store[0].seqNumber, s.next) > 0
    ensures Buffer(s, v, data) == Buffer(s, s.next, RepeatTail(p, data))
  {
    hide StoredBytes;
    assert Append(s, []) == s;
  }

  /** A repeated SYN is treated like an in-order segment of the bytes it is taken to add. */
  lemma RepeatIsInOrder(m: Machine, src: Source, origin: nat, offs: seq<nat>, h: Header, data: Payload)
    requires TracksSeeded(m, src, origin, offs) && Valid(m) && m.keepPayload
    requires RepeatsSyn(src, h, data) && origin + m.stream.pos + 1 < HALF
    ensures var p := origin + m.stream.pos;
      OnData(m, h, data) == OnData(m, h.(seqNumber := m.stream.next), RepeatTail(p, data))
  {
    hide Slices, AllIn, Ascending, StoredBytes, Buffer, Wrap, FinDue, TakeFin;
    var p := origin + m.stream.pos;
    DeltaIsDifference(src.base, -1, p);
    GapsAreOffsets(m.stream, src, p, offs);
    if m.stream.store != [] {
      assert 1 <= Gaps(m.stream)[0] < HALF;
    }
    RepeatIsItsTail(m.stream, h.seqNumber, p, data);
  }

  lemma RepeatTracks(m: Machine, src: Source, origin: nat, offs: seq<nat>, h: Header, data: Payload)
    returns (offs': seq<nat>)
    requires Tracks(m, src, origin, offs) && m.seeded && !FinTaken(m.state)
    requires RepeatsSyn(src, h, data) && origin + m.stream.pos + 1 < HALF
    requires HarmlessRepeat(src, origin + m.stream.pos, |data|)
    ensures Tracks(OnData(m, h, data), src, origin, offs')
    ensures var p := origin + m.stream.pos;
      Adds(m, OnData(m, h, data), src, origin, offs, offs', Range(p, p + |RepeatTail(p, data)|))
    ensures KnowsFin(OnData(m, h, data), src, origin) <==> KnowsFin(m, src, origin)
  {
    hide Slices, AllIn, Ascending, StoredBytes, Between, OnData, Adds, Range, Slot;
    var p := origin + m.stream.pos;
    RepeatIsInOrder(m, src, origin, offs, h, data);
    offs' := DataTracks(m, src, origin, offs, h.(seqNumber := m.stream.next), RepeatTail(p, data));
  }

  /**
   Exactly when a repeated SYN with data does harm, in every reachable state, with stored
   segments, a pending FIN or a half-closed connection: when it reaches more than one byte
   past the position and those bytes differ from their predecessors.
   */
  lemma RepeatedSynHarmsExactly(m: Machine, src: Source, origin: nat, offs: seq<nat>, h: Header, data: Payload)
    requires Tracks(m, src, origin, offs) && m.seeded && ReachesData(m, h)
    requires RepeatsSyn(src, h, data) && origin + m.stream.pos + 1 < HALF
    ensures History(OnSent(m, h, data)) <= src.bytes[origin..] <==>
            HarmlessRepeat(src, origin + m.stream.pos, |data|)
    ensures HandsUpTheSource(OnSent(m, h, data), src, origin) <==>
            HarmlessRepeat(src, origin + m.stream.pos, |data|)
  {
    hide Slices, AllIn, Ascending, StoredBytes, Between, OnData, HandsUpTheSource;
    var p := origin + m.stream.pos;
    if HarmlessRepeat(src, p, |data|) {
      var offs' := RepeatTracks(m, src, origin, offs, h, data);
      TracksIsFaithful(OnData(m, h, data), src, origin, offs');
      FaithfulHistory(OnData(m, h, data), src, origin);
    } else {
      RepeatIsInOrder(m, src, origin, offs, h, data);
      var tail := RepeatTail(p, data);
      InOrderIsAppended(m, h.(seqNumber := m.stream.next), tail);
      var r := OnData(m, h, data);
      assert History(m) + tail <= History(r);
      HistoryToPosition(m, src, origin, offs);
      assert !(History(m) + tail <= src.bytes[origin..]) by {
        assert src.bytes[origin..][m.stream.pos..|data| - 1 - origin] == src.bytes[p..|data| - 1];
        assert tail == src.bytes[p + 1..|data|];
      }
      if HandsUpTheSource(r, src, origin) {
        FaithfulHistory(r, src, origin);
      }
    }
  }

  lemma FaithfulHistory(m: Machine, src: Source, origin: nat)
    requires origin <= |src.bytes| && HandsUpTheSource(m, src, origin)
    ensures History(m) <= src.bytes[origin..]
  {
  }

  lemma HistoryToPosition(m: Machine, src: Source, origin: nat, offs: seq<nat>)
    requires TracksSeeded(m, src, origin, offs) && origin + m.stream.pos <= |src.bytes|
    ensures History(m) == src.bytes[origin..origin + m.stream.pos] && |History(m)| == m.stream.pos
  {
  }

  lemma InOrderIsAppended(m: Machine, h: Header, data: Payload)
    requires Valid(m) && m.keepPayload && h.seqNumber == m.stream.next
    ensures History(m) + data <= History(OnData(m, h, data))
  {
    hide Drain, FinDue, StoredBytes, Count;
    DrainGrows(Append(m.stream, data));
    assert m.erased + (m.stream.assembled + data) == History(m) + data;
  }

  lemma SeedIsGenuine(n: Machine, src: Source, origin: nat, h: Header, data: Payload)
    requires n.stream.next == h.seqNumber && n.stream.pos == 0
    requires IsSlice(src, origin, h.seqNumber, data) && (h.fin ==> origin + |data| == |src.bytes|)
    ensures Genuine(n, src, origin, h, data)
    ensures Offset(n, origin, h) == origin && Delta(h.seqNumber, n.stream.next) == 0
  {
  }

  lemma ReceivedTracks(m: Machine, src: Source, origin: nat, offs: seq<nat>, h: Header)
    requires Tracks(m, src, origin, offs)
    ensures Tracks(OnReceived(m, h), src, origin, offs)
    ensures Valid(m) && Advances(m, OnReceived(m, h), src, origin, offs, offs, Received(h))
  {
    hide Slices, AllIn, Ascending, StoredBytes, Between, AcksAll, Held;
  }

  lemma ConsumedTracks(m: Machine, src: Source, origin: nat, offs: seq<nat>, n: nat)
    requires Tracks(m, src, origin, offs)
    ensures Tracks(Consume(m, n), src, origin, offs)
    ensures Valid(m) && Advances(m, Consume(m, n), src, origin, offs, offs, Consumed(n))
  {
    hide Slices, AllIn, Ascending, StoredBytes, Between;
    assert History(Consume(m, n)) == History(m);
    if !m.seeded {
      assert Consume(m, n) == m;
    }
  }

  ghost function BroughtByAll(m: Machine, src: Source, origin: nat, events: seq<Event>): iset<nat>
    requires Valid(m)
    decreases |events|
  {
    if events == [] then iset{}
    else BroughtBy(m, src, origin, events[0]) + BroughtByAll(Apply(m, events[0]), src, origin, events[1..])
  }

  predicate SomeCarriesFin(m: Machine, events: seq<Event>)
    requires Valid(m)
    decreases |events|
  {
    events != [] && (CarriesFin(m, events[0]) || SomeCarriesFin(Apply(m, events[0]), events[1..]))
  }

  lemma {:induction false} RunTracks(m: Machine, src: Source, origin: nat, offs: seq<nat>, events: seq<Event>)
    returns (offs': seq<nat>)
    requires Tracks(m, src, origin, offs) && GenuineRun(m, src, origin, events)
    ensures Tracks(Run(m, events), src, origin, offs')
    ensures Adds(m, Run(m, events), src, origin, offs, offs', BroughtByAll(m, src, origin, events))
    ensures KnowsFin(Run(m, events), src, origin) <==> KnowsFin(m, src, origin) || SomeCarriesFin(m, events)
    decreases |events|
  {
    TracksIsValid(m, src, origin, offs);
    hide Tracks, GenuineEvent, OnSent, OnReceived, Consume, Adds, BroughtBy, KnowsFin, CarriesFin;
    offs' := offs;
    if events == [] {
      NothingAdded(m, src, origin, offs);
    } else {
      match events[0] {
        case Sent(h, data) => offs' := SentTracks(m, src, origin, offs, h, data);
        case Received(h) => ReceivedTracks(m, src, origin, offs, h);
        case Consumed(n) => ConsumedTracks(m, src, origin, offs, n);
      }
      var r, offs1 := Apply(m, events[0]), offs';
      offs' := RunTracks(r, src, origin, offs1, events[1..]);
      AddsThen(m, r, Run(m, events), src, origin, offs, offs1, offs',
               BroughtBy(m, src, origin, events[0]), BroughtByAll(r, src, origin, events[1..]));
    }
  }

  lemma NothingAdded(m: Machine, src: Source, origin: nat, offs: seq<nat>)
    ensures Adds(m, m, src, origin, offs, offs, iset{})
  {
    hide HeldBy;
  }

  lemma InitialTracks(src: Source, origin: nat)
    requires origin <= |src.bytes|
    ensures Tracks(Initial(true), src, origin, [])
  {
  }

  lemma TracksIsValid(m: Machine, src: Source, origin: nat, offs: seq<nat>)
    requires Tracks(m, src, origin, offs)
    ensures Valid(m)
  {
  }

  /** What a caller can rely on at any moment. */
  ghost predicate HandsUpTheSource(m: Machine, src: Source, origin: nat)
    requires origin <= |src.bytes|
  {
    && Orderly(m)
    && History(m) <= src.bytes[origin..]
    && (m.seeded ==> m.stream.next == Wrap(src.base + origin + m.stream.pos))
    && (m.seeded && m.stream.pos <= |src.bytes| - origin ==> |History(m)| == m.stream.pos)
    && (m.finSeen ==> History(m) < src.bytes[origin..])
    && (FinTaken(m.state) ==> History(m) == src.bytes[origin..])
  }

  /**
   Safety over every run. Whatever is interleaved (reordering, repeats, overlaps,
   wrap-around, refused segments, resets, received packets, reads and compaction): what has
   been handed up is the sent stream from the point of seeding to the current position; the
   store stays sorted; a FIN is pending only while something is missing, and a state that
   follows our FIN means nothing is.
   */
  lemma RunIsFaithful(src: Source, origin: nat, events: seq<Event>)
    requires origin <= |src.bytes| && GenuineRun(Initial(true), src, origin, events)
    ensures HandsUpTheSource(Run(Initial(true), events), src, origin)
  {
    hide HandsUpTheSource, GenuineRun, Run, Tracks;
    InitialTracks(src, origin);
    var offs := RunTracks(Initial(true), src, origin, [], events);
    TracksIsFaithful(Run(Initial(true), events), src, origin, offs);
  }

  /** After any genuine run, a repeated SYN keeps what a caller relies on exactly when it is harmless. */
  lemma RepeatedSynAfterRun(src: Source, origin: nat, events: seq<Event>, h: Header, data: Payload)
    requires origin <= |src.bytes| && GenuineRun(Initial(true), src, origin, events)
    requires RepeatsSyn(src, h, data)
    requires var m := Run(Initial(true), events);
      m.seeded && ReachesData(m, h) && origin + m.stream.pos + 1 < HALF
    ensures var m := Run(Initial(true), events);
      HandsUpTheSource(Apply(m, Sent(h, data)), src, origin) <==>
      HarmlessRepeat(src, origin + m.stream.pos, |data|)
  {
    hide HandsUpTheSource, HarmlessRepeat, GenuineRun, Run, ReachesData, Tracks, RepeatsSyn, OnSent;
    InitialTracks(src, origin);
    var offs := RunTracks(Initial(true), src, origin, [], events);
    var m := Run(Initial(true), events);
    RepeatedSynHarmsExactly(m, src, origin, offs, h, data);
  }

  lemma TracksIsFaithful(m: Machine, src: Source, origin: nat, offs: seq<nat>)
    requires Tracks(m, src, origin, offs) && origin <= |src.bytes|
    ensures HandsUpTheSource(m, src, origin)
  {
    if m.seeded {
      GapsAreOffsets(m.stream, src, origin + m.stream.pos, offs);
      assert src.bytes[origin..|src.bytes|] == src.bytes[origin..];
    }
  }

  /** A header with the given flags; the acknowledgement number does not matter here. */
  function Flagged(seqNumber: u32, syn: bool, ack: bool, fin: bool): Header {
    Header(seqNumber, 0, syn, ack, fin, false)
  }

  function SynReplay(): seq<Event> {
    [Sent(Flagged(99, true, false, false), []),
     Sent(Flagged(100, false, true, false), []),
     Sent(Flagged(99, true, false, false), [1, 2])]
  }

  /**
   The side condition on SYNs is needed. A SYN that carries data is ingested at its own number
   plus one when it seeds the reassembler, but at its own number when it is repeated once
   established, so its data then lands one place early.
   */
  lemma RepeatedSynWithDataIsMisplaced()
    ensures var src := Source([1, 2, 3], 100);
      !(History(Run(Initial(true), SynReplay())) <= src.bytes)
  {
    var m1 := Apply(Initial(true), SynReplay()[0]);
    assert m1 == Machine(SynSent, Stream(100, 0, [], 0, []), false, 0, true, true, 0, []);
    var m2 := Apply(m1, SynReplay()[1]);
    assert m2 == Machine(Established, Stream(100, 0, [], 0, []), false, 0, true, true, 0, []);
    var m3 := Apply(m2, SynReplay()[2]);
    assert m3.stream.assembled == [2];
    assert Run(m3, []) == m3 == Run(m2, SynReplay()[2..]) == Run(m1, SynReplay()[1..]);
    assert History(m3)[0] == 2;
  }

  function OvertakingRun(): seq<Event> {
    [Sent(Flagged(100, false, true, false), []),
     Sent(Flagged(101, false, true, false), [7]),
     Sent(Flagged(100, false, true, true), []),
     Received(Header(0, 0, false, false, false, true)),
     Received(Flagged(0, false, true, false)),
     Sent(Flagged(100, false, true, true), [])]
  }

  /**
   The exception in `RunKeepsOrder` is reachable: data stored just past a FIN, a reset and an
   acknowledgement that reopen the machine, and the same FIN again leave a stored segment
   almost 2^32 "ahead" of the position.
   */
  lemma FinCanOvertake()
    ensures !Orderly(Run(Initial(true), OvertakingRun()))
  {
    var es := OvertakingRun();
    var seg := Segment(101, [7]);
    var m1 := Apply(Initial(true), es[0]);
    assert m1 == Machine(Established, Stream(100, 0, [], 0, []), false, 0, true, true, 0, []);
    var m2 := Apply(m1, es[1]);
    assert m2 == Machine(Established, Stream(100, 0, [seg], 1, []), false, 0, true, true, 0, []);
    var m3 := Apply(m2, es[2]);
    assert m3 == Machine(FinWait1, Stream(101, 1, [seg], 1, []), false, 100, true, true, 0, []);
    var m5 := Apply(Apply(m3, es[3]), es[4]);
    assert m5 == m3.(state := Established);
    var m6 := Apply(m5, es[5]);
    assert m6.stream == Stream(102, 2, [seg], 1, []);
    assert Gaps(m6.stream)[0] == MODULUS - 1;
    assert Run(m6, []) == m6 == Run(m5, es[5..]) == Run(Apply(m3, es[3]), es[4..]);
    assert Run(m3, es[3..]) == m6 == Run(m2, es[2..]) == Run(m1, es[1..]);
  }

  lemma StoredBehind()
    ensures Apply(Apply(Initial(true), OvertakingRun()[0]), OvertakingRun()[1]) ==
            Machine(Established, Stream(100, 0, [Segment(101, [7])], 1, []), false, 0, true, true, 0, [])
  {
    var m1 := Apply(Initial(true), OvertakingRun()[0]);
    assert m1 == Machine(Established, Stream(100, 0, [], 0, []), false, 0, true, true, 0, []);
  }

  /** Where the first five events lead: reopened, with a segment stored at the position. */
  lemma Reopened()
    ensures Run(Initial(true), OvertakingRun()[..5]) ==
            Machine(Established, Stream(101, 1, [Segment(101, [7])], 1, []), false, 100, true, true, 0, [])
  {
    hide Slot, OnReceived;
    var es := OvertakingRun()[..5];
    StoredBehind();
    var m1 := Apply(Initial(true), es[0]);
    var m2 := Apply(m1, es[1]);
    var m3 := Apply(m2, es[2]);
    var m5 := Apply(Apply(m3, es[3]), es[4]);
    assert Run(m5, []) == m5 == Run(Apply(m3, es[3]), es[4..]) == Run(m3, es[3..]);
    assert Run(m2, es[2..]) == Run(m1, es[1..]) == m5;
    assert m3 == Machine(FinWait1, Stream(101, 1, [Segment(101, [7])], 1, []), false, 100, true, true, 0, []);
    Reopens(m3);
  }

  lemma Reopens(m: Machine)
    ensures OnReceived(OnReceived(m, Header(0, 0, false, false, false, true)), Flagged(0, false, true, false)) ==
            m.(state := Established)
  {
  }

  /**
   On the way there, with the store still sorted, an `ingest` of a segment further on leaves
   a stored segment at distance zero.
   */
  lemma IngestCanLeaveZero()
    ensures var m := Run(Initial(true), OvertakingRun()[..5]);
      var r := Apply(m, Sent(Flagged(105, false, true, false), [1]));
      Orderly(m) && Orderly(r) && r.stream.store != [] && r.stream.store[0].seqNumber == r.stream.next
  {
    hide Run, StoredBytes, Slot;
    Reopened();
    var m := Machine(Established, Stream(101, 1, [Segment(101, [7])], 1, []), false, 100, true, true, 0, []);
    OneStored(m.stream);
    StepKeepsOrder(m, Sent(Flagged(105, false, true, false), [1]));
    AheadAfterIngest(m.stream, 105, [1]);
    BufferKeepsOrder(m.stream, 105, [1]);
    FirstIsAtPosition(Buffer(m.stream, 105, [1]));
    FirstIsAtPosition(m.stream);
  }

  lemma OneStored(s: Stream)
    requires s == Stream(101, 1, [Segment(101, [7])], 1, [])
    ensures StoreInv(s) && Counted(s) && Gaps(s) == [0]
  {
  }
}
