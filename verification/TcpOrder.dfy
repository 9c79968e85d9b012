/**
 The out-of-order store stays sorted by distance from a base that moves, for arbitrary
 traffic, with one exception that is characterised exactly.
 */
module TcpOrder {
  import opened SeqNumber
  import opened Sorted
  import opened TcpStream
  import opened TcpMachine

  /** Every stored segment is at least `least` and less than half the number space ahead. */
  predicate Ahead(s: Stream, least: nat) {
    forall i :: 0 <= i < |s.store| ==> least <= Gaps(s)[i] < HALF
  }

  predicate StoreInv(s: Stream) {
    Counted(s) && s.oooBytes <= 0x10_0000 && Ascending(Gaps(s)) && Ahead(s, 0)
  }

  /** The slot `Stash` uses is exact: the segment with this number if there is one, else the sorted place for it. */
  lemma SlotIsExact(s: Stream, v: u32)
    requires Ascending(Gaps(s))
    ensures Splits(Gaps(s), Slot(s, v).0, Dist(v, s.next))
    ensures Slot(s, v).1 <==> Dist(v, s.next) in Gaps(s)
    ensures Slot(s, v).1 <==> exists seg :: seg in s.store && seg.seqNumber == v
  {
    LowerBoundSplits(Gaps(s), Dist(v, s.next));
    var (k, present) := Slot(s, v);
    if k < |s.store| && Gaps(s)[k] == Dist(v, s.next) {
      SameDistance(s.store[k].seqNumber, v, s.next);
      assert s.store[k] in s.store;
    }
    forall seg | seg in s.store && seg.seqNumber == v
      ensures present
    {
      var i :| 0 <= i < |s.store| && s.store[i] == seg;
      assert Gaps(s)[i] == Dist(v, s.next);
    }
  }

  lemma SameDistance(a: u32, b: u32, base: u32)
    requires Dist(a, base) == Dist(b, base)
    ensures a == b
  {
  }

  /** Stashing keeps the store sorted and adds at most the new segment. */
  lemma StashKeepsOrder(s: Stream, v: u32, data: Payload, least: nat)
    requires StoreInv(s) && Ahead(s, least)
    requires least <= Dist(v, s.next) < HALF
    ensures StoreInv(Stash(s, v, data)) && Ahead(Stash(s, v, data), least)
    ensures Stash(s, v, data).next == s.next
  {
    hide Ascending, Splits, StoredBytes, Dist, Slot;
    SlotIsExact(s, v);
    var (k, present) := Slot(s, v);
    var r := Stash(s, v, data);
    if present {
      assert Gaps(r) == Gaps(s);
    } else if |r.store| != |s.store| {
      InsertedGaps(s, r, k, Segment(v, data));
      InsertAscending(Gaps(s), k, Dist(v, s.next));
    }
  }

  lemma InsertedGaps(s: Stream, r: Stream, k: nat, seg: Segment)
    requires k <= |s.store| && r.next == s.next && r.store == s.store[..k] + [seg] + s.store[k..]
    ensures Gaps(r) == Gaps(s)[..k] + [Dist(seg.seqNumber, s.next)] + Gaps(s)[k..]
  {
  }

  /** Signed counterpart of `Gaps`: while draining, stored segments may already lie behind the position. */
  function Leads(s: Stream): (leads: seq<int>)
    ensures |leads| == |s.store|
    ensures forall i :: 0 <= i < |leads| ==> leads[i] == Delta(s.store[i].seqNumber, s.next)
  {
    seq(|s.store|, i requires 0 <= i < |s.store| => Delta(s.store[i].seqNumber, s.next))
  }

  /** What holds between two iterations of the drain loop. */
  predicate Draining(s: Stream) {
    && Counted(s) && s.oooBytes <= MAX_OOO_BYTES && Ascending(Leads(s))
    && (forall i :: 0 <= i < |s.store| ==> Leads(s)[i] + MAX_PAYLOAD >= 0)
  }

  lemma AppendKeepsDraining(s: Stream, data: Payload)
    requires StoreInv(s)
    ensures Draining(Append(s, data))
  {
    hide Ascending, StoredBytes;
    var r := Append(s, data);
    forall i | 0 <= i < |s.store|
      ensures Leads(r)[i] == Gaps(s)[i] - |data| && Gaps(s)[i] >= 0
    {
      assert 0 <= Gaps(s)[i] < HALF;
      DeltaAfterStep(s.store[i].seqNumber, s.next, |data|);
    }
    ShiftAscending(Gaps(s), Leads(r), -|data|);
  }

  lemma AbsorbKeepsDraining(s: Stream)
    requires Draining(s) && s.store != [] && Leads(s)[0] <= 0
    ensures Draining(Absorb(s))
  {
    hide Ascending, StoredBytes, Delta, Dist;
    var r := Absorb(s);
    TailAscending(Leads(s));
    DeltaNegates(s.store[0].seqNumber, s.next);
    var covered := Dist(s.next, s.store[0].seqNumber);
    var step: nat := if covered < |s.store[0].data| then |s.store[0].data| - covered else 0;
    forall i | 0 <= i < |r.store|
      ensures Leads(r)[i] == Leads(s)[1..][i] - step && Leads(r)[i] + MAX_PAYLOAD >= 0
    {
      assert Leads(s)[i + 1] in Leads(s)[1..];
      DeltaAfterStep(s.store[i + 1].seqNumber, s.next, step);
    }
    ShiftAscending(Leads(s)[1..], Leads(r), 0 - step as int);
  }

  /** Draining leaves only segments strictly ahead, still sorted. */
  lemma DrainRestoresOrder(s: Stream)
    requires Draining(s)
    ensures StoreInv(Drain(s)) && Ahead(Drain(s), 1)
    decreases |s.store|
  {
    if s.store == [] || Leads(s)[0] > 0 {
      forall i | 0 <= i < |s.store|
        ensures Gaps(s)[i] == Leads(s)[i] && 1 <= Gaps(s)[i] < HALF
      {
        if i > 0 { assert Leads(s)[0] < Leads(s)[i]; }
      }
      ShiftAscending(Leads(s), Gaps(s), 0);
    } else {
      AbsorbKeepsDraining(s);
      DrainRestoresOrder(Absorb(s));
    }
  }

  /** `ingest` keeps the store sorted for any segment at all, consistent with others or not. */
  lemma BufferKeepsOrder(s: Stream, v: u32, data: Payload)
    requires StoreInv(s)
    ensures StoreInv(Buffer(s, v, data))
    ensures Ahead(s, 1) ==> Ahead(Buffer(s, v, data), 1)
  {
    if v == s.next {
      AppendKeepsDraining(s, data);
      DrainRestoresOrder(Append(s, data));
    } else if Delta(v, s.next) > 0 {
      StashKeepsOrder(s, v, data, 0);
      if Ahead(s, 1) { StashKeepsOrder(s, v, data, 1); }
    } else {
      var overlap := Dist(s.next, v);
      if overlap < |data| {
        AppendKeepsDraining(s, data[overlap..]);
        DrainRestoresOrder(Append(s, data[overlap..]));
      }
    }
  }

  /** The segment starts at or before the position and reaches it, so something is handed up or drained. */
  predicate Reaches(s: Stream, v: u32, data: Payload) {
    v == s.next || (Delta(v, s.next) < 0 && Dist(s.next, v) < |data|)
  }

  /** After `ingest` every stored segment is strictly ahead exactly if it was so before or the store was drained. */
  lemma AheadAfterIngest(s: Stream, v: u32, data: Payload)
    requires StoreInv(s)
    ensures Ahead(Buffer(s, v, data), 1) <==> Ahead(s, 1) || Reaches(s, v, data)
    ensures !Reaches(s, v, data) ==> Buffer(s, v, data).next == s.next
    ensures !Reaches(s, v, data) && !Ahead(s, 1) ==> Buffer(s, v, data).store[0].seqNumber == s.next
  {
    BufferKeepsOrder(s, v, data);
    if v == s.next {
      AppendKeepsDraining(s, data);
      DrainRestoresOrder(Append(s, data));
    } else if Reaches(s, v, data) {
      AppendKeepsDraining(s, data[Dist(s.next, v)..]);
      DrainRestoresOrder(Append(s, data[Dist(s.next, v)..]));
    } else if !Ahead(s, 1) {
      FirstIsAtPosition(s);
      StashKeepsFirst(s, v, data);
    }
  }

  /** A segment that is not strictly ahead is the first one, at the position itself. */
  lemma FirstIsAtPosition(s: Stream)
    requires StoreInv(s)
    ensures !Ahead(s, 1) <==> s.store != [] && s.store[0].seqNumber == s.next
  {
    if !Ahead(s, 1) {
      var i :| 0 <= i < |s.store| && Gaps(s)[i] < 1;
      assert Gaps(s)[i] == 0;
      assert 0 <= Gaps(s)[0] <= Gaps(s)[i];
    } else if s.store != [] {
      assert Gaps(s)[0] >= 1;
    }
  }

  lemma StashKeepsFirst(s: Stream, v: u32, data: Payload)
    requires StoreInv(s) && s.store != [] && s.store[0].seqNumber == s.next && v != s.next
    ensures Stash(s, v, data).store != [] && Stash(s, v, data).store[0].seqNumber == s.next
  {
    SlotIsExact(s, v);
    assert Gaps(s)[0] == 0 < Dist(v, s.next);
  }

  /** The invariant of the whole reassembler over its calls. */
  predicate Orderly(m: Machine) {
    Valid(m) && StoreInv(m.stream) && (!m.keepPayload || !m.seeded ==> m.stream.store == [])
  }

  /** The packet reaches `onData`. */
  predicate ReachesData(m: Machine, h: Header) {
    !h.rst &&
    if !m.seeded then !h.syn && h.ack
    else m.state == Established || m.state == CloseWait || (m.state == SynSent && h.ack && !h.syn)
  }

  /**
   A FIN is taken although a stored segment is waiting at exactly the position it takes, told
   from the state before the call: the first stored segment is at the position, the packet
   brings nothing there, and the FIN is due.
   */
  predicate FinOvertakes(m: Machine, e: Event) {
    && e.Sent? && m.seeded && ReachesData(m, e.h)
    && m.stream.store != [] && m.stream.store[0].seqNumber == m.stream.next
    && !Reaches(m.stream, e.h.seqNumber, e.data)
    && FinDue(NoteFin(m, e.h, e.data))
  }

  lemma IngestKeepsOrderly(m: Machine, v: u32, data: Payload)
    requires Orderly(m) && m.seeded
    ensures Orderly(AfterIngest(m, v, data))
  {
    if m.keepPayload { BufferKeepsOrder(m.stream, v, data); }
  }

  /** Taking a FIN moves the position by one: the order survives exactly if nothing is stored right there. */
  lemma StepPastFin(s: Stream)
    requires StoreInv(s)
    ensures StoreInv(s.(next := Wrap(s.next + 1), pos := s.pos + 1)) <==>
            !(s.store != [] && s.store[0].seqNumber == s.next)
  {
    var r := s.(next := Wrap(s.next + 1), pos := s.pos + 1);
    if s.store != [] {
      if s.store[0].seqNumber == s.next {
        assert Gaps(r)[0] == MODULUS - 1;
      } else {
        assert Gaps(s)[0] > 0;
        forall i | 0 <= i < |s.store|
          ensures Gaps(r)[i] == Gaps(s)[i] - 1 && Gaps(s)[i] >= 1
        {
          assert i > 0 ==> Gaps(s)[0] < Gaps(s)[i];
        }
        ShiftAscending(Gaps(s), Gaps(r), -1);
      }
    }
  }

  lemma DataKeepsOrder(m: Machine, h: Header, data: Payload)
    requires Orderly(m) && m.seeded
    ensures Orderly(OnData(m, h, data)) <==>
            !(m.stream.store != [] && m.stream.store[0].seqNumber == m.stream.next &&
              !Reaches(m.stream, h.seqNumber, data) && FinDue(NoteFin(m, h, data)))
  {
    hide Ascending, Ahead, StoredBytes, Buffer, Count, Delta, Dist, Reaches;
    IngestKeepsOrderly(m, h.seqNumber, data);
    var n := NoteFin(AfterIngest(m, h.seqNumber, data), h, data);
    StepPastFin(n.stream);
    if m.keepPayload {
      AheadAfterIngest(m.stream, h.seqNumber, data);
      FirstIsAtPosition(m.stream);
      FirstIsAtPosition(n.stream);
    }
  }

  /**
   One call keeps the store sorted exactly when it does not take a FIN over a segment
   stored at the FIN's own place. Nothing is assumed about the traffic.
   */
  lemma StepKeepsOrder(m: Machine, e: Event)
    requires Orderly(m)
    ensures Orderly(Apply(m, e)) <==> !FinOvertakes(m, e)
  {
    hide Ascending, StoredBytes, Ingest, Delta, Dist, OnData;
    match e {
      case Sent(h, data) =>
        if h.rst {
        } else if !m.seeded {
          if h.syn {
            IngestKeepsOrderly(Seed(m, Wrap(h.seqNumber + 1), Unknown), Wrap(h.seqNumber + 1), data);
          } else if h.ack {
            DataKeepsOrder(Seed(m, h.seqNumber, if m.state != CloseWait then Established else CloseWait), h, data);
          }
        } else if m.state == SynSent && h.ack && !h.syn {
          DataKeepsOrder(m.(state := Established), h, data);
        } else if m.state == Established || m.state == CloseWait {
          DataKeepsOrder(m, h, data);
        }
      case Received(h) =>
      case Consumed(n) =>
        var c := Consume(m, n);
        assert Gaps(c.stream) == Gaps(m.stream);
    }
  }

  /** The invariant holds before the first call and after every call. */
  predicate AlwaysOrderly(m: Machine, events: seq<Event>)
    requires Valid(m)
    decreases |events|
  {
    Orderly(m) && (events != [] ==> AlwaysOrderly(Apply(m, events[0]), events[1..]))
  }

  predicate SomeFinOvertakes(m: Machine, events: seq<Event>)
    requires Valid(m)
    decreases |events|
  {
    events != [] && (FinOvertakes(m, events[0]) || SomeFinOvertakes(Apply(m, events[0]), events[1..]))
  }

  /** Over every run from a fresh reassembler, the invariant holds throughout iff no FIN overtakes. */
  lemma RunKeepsOrder(keepPayload: bool, events: seq<Event>)
    ensures AlwaysOrderly(Initial(keepPayload), events) <==> !SomeFinOvertakes(Initial(keepPayload), events)
  {
    RunKeepsOrderFrom(Initial(keepPayload), events);
  }

  lemma {:induction false} RunKeepsOrderFrom(m: Machine, events: seq<Event>)
    requires Orderly(m)
    ensures AlwaysOrderly(m, events) <==> !SomeFinOvertakes(m, events)
    decreases |events|
  {
    if events != [] {
      StepKeepsOrder(m, events[0]);
      if Orderly(Apply(m, events[0])) {
        RunKeepsOrderFrom(Apply(m, events[0]), events[1..]);
      }
    }
  }

  /** The machine as it enters `onData`. */
  function Entering(m: Machine, h: Header): Machine {
    if !m.seeded then Seed(m, h.seqNumber, if m.state != CloseWait then Established else CloseWait)
    else if m.state == SynSent then m.(state := Established)
    else m
  }

  /** The machine once the packet's payload has been ingested and its FIN noted. */
  function WithPayload(m: Machine, h: Header, data: Payload): Machine
    requires Valid(m)
  {
    NoteFin(AfterIngest(Entering(m, h), h.seqNumber, data), h, data)
  }

  /** The packet's `ingest` leaves a segment stored at the position: one was there and nothing arrived for it. */
  predicate IngestMisses(m: Machine, e: Event) {
    && e.Sent? && m.seeded && ReachesData(m, e.h)
    && m.stream.store != [] && m.stream.store[0].seqNumber == m.stream.next
    && !Reaches(m.stream, e.h.seqNumber, e.data)
  }

  /** Everything stored is strictly ahead once the packet's payload has been ingested. */
  predicate AheadOnceIngested(m: Machine, e: Event)
    requires Valid(m)
  {
    e.Sent? && ReachesData(m, e.h) ==> Ahead(WithPayload(m, e.h, e.data).stream, 1)
  }

  lemma IngestIsExact(m: Machine, e: Event)
    requires Orderly(m)
    ensures AheadOnceIngested(m, e) <==> !IngestMisses(m, e)
  {
    hide Ascending, StoredBytes, Buffer, Delta, Dist, Reaches;
    if e.Sent? && m.keepPayload {
      var n := Entering(m, e.h);
      AheadAfterIngest(n.stream, e.h.seqNumber, e.data);
      FirstIsAtPosition(n.stream);
    }
  }

  predicate AlwaysAheadOnceIngested(m: Machine, events: seq<Event>)
    requires Valid(m)
    decreases |events|
  {
    events != [] ==> AheadOnceIngested(m, events[0]) && AlwaysAheadOnceIngested(Apply(m, events[0]), events[1..])
  }

  predicate SomeIngestMisses(m: Machine, events: seq<Event>)
    requires Valid(m)
    decreases |events|
  {
    events != [] && (IngestMisses(m, events[0]) || SomeIngestMisses(Apply(m, events[0]), events[1..]))
  }

  /**
   Over every run that keeps the store sorted, all distances are above zero after each
   `ingest` exactly if no `ingest` misses a segment stored at the position.
   */
  lemma {:induction false} IngestsAreExact(m: Machine, events: seq<Event>)
    requires Valid(m) && AlwaysOrderly(m, events)
    ensures AlwaysAheadOnceIngested(m, events) <==> !SomeIngestMisses(m, events)
    decreases |events|
  {
    hide AheadOnceIngested, IngestMisses, Apply;
    if events != [] {
      IngestIsExact(m, events[0]);
      IngestsAreExact(Apply(m, events[0]), events[1..]);
    }
  }

  /** Between calls everything stored is strictly ahead. */
  predicate StrictlyOrderly(m: Machine) {
    Orderly(m) && Ahead(m.stream, 1)
  }

  /** A FIN is taken although a segment is stored just behind its place. */
  predicate FinTouches(m: Machine, e: Event)
    requires Valid(m)
  {
    e.Sent? && ReachesData(m, e.h) &&
    var n := WithPayload(m, e.h, e.data);
    FinDue(n) && n.stream.store != [] && n.stream.store[0].seqNumber == Wrap(n.stream.next + 1)
  }

  lemma StepOntoFin(s: Stream)
    requires StoreInv(s) && Ahead(s, 1)
    ensures Ahead(s.(next := Wrap(s.next + 1), pos := s.pos + 1), 1) <==>
            !(s.store != [] && s.store[0].seqNumber == Wrap(s.next + 1))
  {
    var r := s.(next := Wrap(s.next + 1), pos := s.pos + 1);
    forall i | 0 <= i < |s.store|
      ensures Gaps(r)[i] == Gaps(s)[i] - 1
    {
      assert 1 <= Gaps(s)[i] < HALF;
    }
    if s.store != [] {
      assert Gaps(r)[0] == 0 <==> s.store[0].seqNumber == r.next;
      if Gaps(r)[0] != 0 {
        forall i | 0 <= i < |s.store|
          ensures 1 <= Gaps(r)[i] < HALF
        {
          assert Gaps(s)[0] <= Gaps(s)[i];
          assert 1 <= Gaps(s)[0] && 1 <= Gaps(s)[i] < HALF;
        }
      }
    }
  }

  lemma DataKeepsAhead(m: Machine, h: Header, data: Payload)
    requires StrictlyOrderly(m) && m.seeded
    ensures Orderly(OnData(m, h, data))
    ensures var n := NoteFin(AfterIngest(m, h.seqNumber, data), h, data);
      Ahead(OnData(m, h, data).stream, 1) <==>
      !(FinDue(n) && n.stream.store != [] && n.stream.store[0].seqNumber == Wrap(n.stream.next + 1))
  {
    hide Ascending, Ahead, StoredBytes, Buffer, Count, Delta, Dist, Reaches, FinDue;
    FirstIsAtPosition(m.stream);
    DataKeepsOrder(m, h, data);
    IngestKeepsOrderly(m, h.seqNumber, data);
    if m.keepPayload {
      AheadAfterIngest(m.stream, h.seqNumber, data);
    } else {
      EmptyIsAhead(AfterIngest(m, h.seqNumber, data).stream);
    }
    var n := NoteFin(AfterIngest(m, h.seqNumber, data), h, data);
    StepOntoFin(n.stream);
  }

  lemma EmptyIsAhead(s: Stream)
    requires s.store == []
    ensures Ahead(s, 1)
  {
  }

  /** One call keeps everything strictly ahead exactly if it takes no FIN in front of an adjoining segment. */
  lemma StepKeepsAhead(m: Machine, e: Event)
    requires StrictlyOrderly(m)
    ensures Orderly(Apply(m, e))
    ensures Ahead(Apply(m, e).stream, 1) <==> !FinTouches(m, e)
  {
    hide Ascending, StoredBytes, Ingest, Delta, Dist, OnData, FinDue;
    FirstIsAtPosition(m.stream);
    StepKeepsOrder(m, e);
    match e {
      case Sent(h, data) =>
        if h.rst {
        } else if !m.seeded {
          if h.syn {
            IngestKeepsAhead(Seed(m, Wrap(h.seqNumber + 1), Unknown), Wrap(h.seqNumber + 1), data);
          } else if h.ack {
            DataKeepsAhead(Seed(m, h.seqNumber, if m.state != CloseWait then Established else CloseWait), h, data);
          }
        } else if m.state == SynSent && h.ack && !h.syn {
          DataKeepsAhead(m.(state := Established), h, data);
        } else if m.state == Established || m.state == CloseWait {
          DataKeepsAhead(m, h, data);
        }
      case Received(h) =>
      case Consumed(n) =>
        var c := Consume(m, n);
        assert Gaps(c.stream) == Gaps(m.stream);
    }
  }

  lemma IngestKeepsAhead(m: Machine, v: u32, data: Payload)
    requires StrictlyOrderly(m) && m.seeded
    ensures Ahead(AfterIngest(m, v, data).stream, 1)
  {
    if m.keepPayload {
      BufferKeepsOrder(m.stream, v, data);
    }
  }

  predicate AlwaysStrictlyOrderly(m: Machine, events: seq<Event>)
    requires Valid(m)
    decreases |events|
  {
    StrictlyOrderly(m) && (events != [] ==> AlwaysStrictlyOrderly(Apply(m, events[0]), events[1..]))
  }

  predicate SomeFinTouches(m: Machine, events: seq<Event>)
    requires Valid(m)
    decreases |events|
  {
    events != [] && (FinTouches(m, events[0]) || SomeFinTouches(Apply(m, events[0]), events[1..]))
  }

  lemma {:induction false} RunKeepsAheadFrom(m: Machine, events: seq<Event>)
    requires StrictlyOrderly(m)
    ensures AlwaysStrictlyOrderly(m, events) <==> !SomeFinTouches(m, events)
    ensures AlwaysStrictlyOrderly(m, events) ==> StrictlyOrderly(Run(m, events))
    decreases |events|
  {
    hide FinTouches, Apply;
    if events != [] {
      StepKeepsAhead(m, events[0]);
      if StrictlyOrderly(Apply(m, events[0])) {
        RunKeepsAheadFrom(Apply(m, events[0]), events[1..]);
      }
    }
  }

  /** Over every run from a fresh reassembler, all distances are above zero after every call iff no FIN touches. */
  lemma RunKeepsAhead(keepPayload: bool, events: seq<Event>)
    ensures AlwaysStrictlyOrderly(Initial(keepPayload), events) <==> !SomeFinTouches(Initial(keepPayload), events)
  {
    RunKeepsAheadFrom(Initial(keepPayload), events);
  }

  /** The order can break only after an earlier FIN was taken right in front of a stored segment. */
  lemma OvertakingNeedsAnEarlierFin(keepPayload: bool, events: seq<Event>, e: Event)
    requires FinOvertakes(Run(Initial(keepPayload), events), e)
    ensures SomeFinTouches(Initial(keepPayload), events)
  {
    hide Run, FinTouches;
    RunKeepsAheadFrom(Initial(keepPayload), events);
    if !SomeFinTouches(Initial(keepPayload), events) {
      FirstIsAtPosition(Run(Initial(keepPayload), events).stream);
      assert false;
    }
  }
}
