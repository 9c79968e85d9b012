/**
 Runs of `ingest` over slices of one source, in any order, with repeats and overlaps:
 exactly which bytes come out.
 */
module TcpDelivery {
  import opened SeqNumber
  import opened TcpStream
  import opened TcpSafety
  import opened Sorted

  /** A segment as the slice of the source it carries. */
  datatype Delivery = Delivery(off: nat, len: nat)

  predicate Fits(src: Source, d: Delivery) {
    d.len <= MAX_PAYLOAD && d.off + d.len <= |src.bytes|
  }

  function Number(src: Source, d: Delivery): u32 {
    Wrap(src.base + d.off)
  }

  function Piece(src: Source, d: Delivery): Payload
    requires Fits(src, d)
  {
    src.bytes[d.off..d.off + d.len]
  }

  function Start(src: Source): Stream {
    Stream(src.base, 0, [], 0, [])
  }

  function Deliver(s: Stream, src: Source, d: Delivery): (r: Stream)
    requires Counted(s) && Fits(src, d)
    ensures Counted(r)
  {
    Buffer(s, Number(src, d), Piece(src, d))
  }

  function DeliverAll(s: Stream, src: Source, ds: seq<Delivery>): (r: Stream)
    requires Counted(s) && forall d :: d in ds ==> Fits(src, d)
    ensures Counted(r)
    decreases |ds|
  {
    if ds == [] then s else DeliverAll(Deliver(s, src, ds[0]), src, ds[1..])
  }

  /** Every segment arrives within half the sequence space of the position it meets. */
  predicate Arriving(s: Stream, src: Source, ds: seq<Delivery>)
    requires Counted(s)
    decreases |ds|
  {
    ds != [] ==>
      && Fits(src, ds[0]) && InWindow(s.pos, ds[0].off, ds[0].len)
      && Arriving(Deliver(s, src, ds[0]), src, ds[1..])
  }

  lemma {:induction false} ArrivingFit(s: Stream, src: Source, ds: seq<Delivery>)
    requires Counted(s) && Arriving(s, src, ds)
    ensures forall d :: d in ds ==> Fits(src, d)
    decreases |ds|
  {
    if ds != [] {
      ArrivingFit(Deliver(s, src, ds[0]), src, ds[1..]);
      assert ds == [ds[0]] + ds[1..];
    }
  }

  /** The bytes carried by the segments that were not refused for lack of room. */
  ghost function Taken(s: Stream, src: Source, ds: seq<Delivery>): iset<nat>
    requires Counted(s) && forall d :: d in ds ==> Fits(src, d)
    decreases |ds|
  {
    if ds == [] then iset{}
    else Brought(s, ds[0].off, Number(src, ds[0]), Piece(src, ds[0])) + Taken(Deliver(s, src, ds[0]), src, ds[1..])
  }

  predicate NoneRefused(s: Stream, src: Source, ds: seq<Delivery>)
    requires Counted(s) && forall d :: d in ds ==> Fits(src, d)
    decreases |ds|
  {
    ds != [] ==>
      && !Refused(s, Number(src, ds[0]), Piece(src, ds[0]))
      && NoneRefused(Deliver(s, src, ds[0]), src, ds[1..])
  }

  /** Some segment carries byte `j`. */
  predicate Carries(ds: seq<Delivery>, j: nat) {
    exists d :: d in ds && d.off <= j < d.off + d.len
  }

  /** What one run does to the position and to the set of held bytes. */
  lemma {:induction false} DeliverAllFrom(s: Stream, src: Source, ds: seq<Delivery>, p: nat, offs: seq<nat>)
    returns (q: nat, offs': seq<nat>)
    requires Faithful(s, src, p, offs) && s.oooBytes <= MAX_OOO_BYTES && s.pos == p <= |src.bytes|
    requires s.assembled == src.bytes[..p]
    requires Arriving(s, src, ds) && forall d :: d in ds ==> Fits(src, d)
    ensures var r := DeliverAll(s, src, ds);
      && Faithful(r, src, q, offs') && r.oooBytes <= MAX_OOO_BYTES && r.pos == q <= |src.bytes|
      && r.assembled == src.bytes[..q]
      && Holding(r, q, offs') == Holding(s, p, offs) + Taken(s, src, ds)
    decreases |ds|
  {
    hide Slices, AllIn, Ascending, Held, Holding, Within, Brought, StoredBytes, Buffer;
    if ds == [] {
      q, offs' := p, offs;
      assert Taken(s, src, ds) == iset{};
    } else {
      var d := ds[0];
      var p1, offs1 := BufferDelivers(s, src, p, offs, d.off, Number(src, d), Piece(src, d));
      assert Between(src.bytes, p, p1) == src.bytes[p..p1];
      q, offs' := DeliverAllFrom(Deliver(s, src, d), src, ds[1..], p1, offs1);
      assert Holding(s, p, offs) + Taken(s, src, ds)
          == Holding(Deliver(s, src, d), p1, offs1) + Taken(Deliver(s, src, d), src, ds[1..]);
    }
  }

  /**
   The exact result of reassembly. After any run of slices of one source the bytes handed
   up are the source up to some position; every byte before it was carried by a segment
   that was not refused, and the byte at it was not.
   */
  lemma ReassemblyIsExact(src: Source, ds: seq<Delivery>)
    requires Arriving(Start(src), src, ds)
    ensures forall d :: d in ds ==> Fits(src, d)
    ensures var r := DeliverAll(Start(src), src, ds);
      && r.pos <= |src.bytes| && r.assembled == src.bytes[..r.pos]
      && r.next == Wrap(src.base + r.pos)
      && (forall j: nat :: j < r.pos ==> j in Taken(Start(src), src, ds))
      && r.pos !in Taken(Start(src), src, ds)
  {
    ArrivingFit(Start(src), src, ds);
    var q, offs := DeliverAllFrom(Start(src), src, ds, 0, []);
    var r := DeliverAll(Start(src), src, ds);
    NextByteIsMissing(r, src, q, offs);
    NothingHeldAtStart(src);
    hide DeliverAll, Taken, Arriving, Held, Faithful, StoredBytes, Slices, AllIn, Ascending;
    forall j: nat
      ensures j in Taken(Start(src), src, ds) <==> Held(r, q, offs, j)
    {
      assert j in Holding(r, q, offs) <==> j in Taken(Start(src), src, ds);
    }
  }

  lemma StartIsFaithful(src: Source)
    ensures Faithful(Start(src), src, 0, [])
  {
  }

  lemma NothingHeldAtStart(src: Source)
    ensures Holding(Start(src), 0, []) == iset{}
  {
  }

  /** Without refusals the bytes taken are the bytes carried. */
  lemma {:induction false} TakenIsCarried(s: Stream, src: Source, ds: seq<Delivery>, j: nat)
    requires Counted(s) && (forall d :: d in ds ==> Fits(src, d)) && NoneRefused(s, src, ds)
    ensures j in Taken(s, src, ds) <==> Carries(ds, j)
    decreases |ds|
  {
    if ds != [] {
      TakenIsCarried(Deliver(s, src, ds[0]), src, ds[1..], j);
      assert ds == [ds[0]] + ds[1..];
    }
  }

  /** When nothing is refused, the position is the first byte that no segment carries. */
  lemma PositionIsFirstGap(src: Source, ds: seq<Delivery>)
    requires Arriving(Start(src), src, ds) && forall d :: d in ds ==> Fits(src, d)
    requires NoneRefused(Start(src), src, ds)
    ensures var p := DeliverAll(Start(src), src, ds).pos;
      (forall j: nat :: j < p ==> Carries(ds, j)) && !Carries(ds, p)
  {
    ReassemblyIsExact(src, ds);
    forall j: nat
      ensures j in Taken(Start(src), src, ds) <==> Carries(ds, j)
    {
      TakenIsCarried(Start(src), src, ds, j);
    }
  }

  /**
   Completeness: once every byte has been delivered and none refused, the whole source has
   been handed up and the store is empty, whatever the order of delivery. And only then.
   */
  lemma ReassemblyCompletes(src: Source, ds: seq<Delivery>)
    requires Arriving(Start(src), src, ds) && forall d :: d in ds ==> Fits(src, d)
    requires NoneRefused(Start(src), src, ds)
    ensures DeliverAll(Start(src), src, ds).assembled == src.bytes <==>
            forall j: nat :: j < |src.bytes| ==> Carries(ds, j)
    ensures var r := DeliverAll(Start(src), src, ds);
      r.assembled == src.bytes ==> r.store == [] && r.oooBytes == 0 && r.next == Wrap(src.base + |src.bytes|)
  {
    ReassemblyIsExact(src, ds);
    PositionIsFirstGap(src, ds);
    CompleteLeavesNothing(src, ds);
    var p := DeliverAll(Start(src), src, ds).pos;
    assert p == |src.bytes| ==> src.bytes[..p] == src.bytes;
  }

  /** Once everything has been handed up the store is empty, refusals or not. */
  lemma CompleteLeavesNothing(src: Source, ds: seq<Delivery>)
    requires Arriving(Start(src), src, ds) && forall d :: d in ds ==> Fits(src, d)
    ensures var r := DeliverAll(Start(src), src, ds);
      r.assembled == src.bytes ==> r.store == [] && r.oooBytes == 0 && r.next == Wrap(src.base + |src.bytes|)
  {
    hide DeliverAll, Arriving, Taken, Holding, Held, Faithful, Fits;
    StartIsFaithful(src);
    var q, offs := DeliverAllFrom(Start(src), src, ds, 0, []);
    var r := DeliverAll(Start(src), src, ds);
    if r.assembled == src.bytes {
      assert q == |src.bytes[..q]| == |src.bytes|;
      NothingBeyondTheEnd(r, src, offs);
    }
  }

  lemma NothingBeyondTheEnd(r: Stream, src: Source, offs: seq<nat>)
    requires Faithful(r, src, |src.bytes|, offs)
    ensures r.store == [] && r.oooBytes == 0 && r.next == Wrap(src.base + |src.bytes|)
  {
    if offs != [] {
      assert false;
    }
  }

  /** Two runs that carry the same bytes hand up the same bytes: order and cutting do not matter. */
  lemma ReassemblyIgnoresOrder(src: Source, ds: seq<Delivery>, es: seq<Delivery>)
    requires Arriving(Start(src), src, ds) && forall d :: d in ds ==> Fits(src, d)
    requires Arriving(Start(src), src, es) && forall d :: d in es ==> Fits(src, d)
    requires NoneRefused(Start(src), src, ds) && NoneRefused(Start(src), src, es)
    requires forall j: nat :: Carries(ds, j) <==> Carries(es, j)
    ensures DeliverAll(Start(src), src, ds).assembled == DeliverAll(Start(src), src, es).assembled
    ensures DeliverAll(Start(src), src, ds).next == DeliverAll(Start(src), src, es).next
  {
    hide DeliverAll, Arriving, Taken, NoneRefused, Fits;
    ReassemblyIsExact(src, ds);
    ReassemblyIsExact(src, es);
    PositionIsFirstGap(src, ds);
    PositionIsFirstGap(src, es);
  }

  function TotalLength(ds: seq<Delivery>): nat {
    if ds == [] then 0 else ds[0].len + TotalLength(ds[1..])
  }

  /** A run that carries at most 1 MiB in all never has a segment refused. */
  lemma {:induction false} SmallRunsAreNeverRefused(s: Stream, src: Source, ds: seq<Delivery>)
    requires Counted(s) && forall d :: d in ds ==> Fits(src, d)
    requires s.oooBytes + TotalLength(ds) <= 0x10_0000
    ensures NoneRefused(s, src, ds)
    decreases |ds|
  {
    if ds != [] {
      BufferAddsAtMost(s, Number(src, ds[0]), Piece(src, ds[0]));
      SmallRunsAreNeverRefused(Deliver(s, src, ds[0]), src, ds[1..]);
    }
  }

  lemma DrainOnlyFrees(s: Stream)
    requires Counted(s)
    ensures Drain(s).oooBytes <= s.oooBytes
    decreases |s.store|
  {
    if s.store != [] && Delta(s.store[0].seqNumber, s.next) <= 0 {
      DrainOnlyFrees(Absorb(s));
    }
  }

  lemma BufferAddsAtMost(s: Stream, v: u32, data: Payload)
    requires Counted(s)
    ensures Buffer(s, v, data).oooBytes <= s.oooBytes + |data|
  {
    if v == s.next {
      DrainOnlyFrees(Append(s, data));
    } else if Delta(v, s.next) < 0 && Dist(s.next, v) < |data| {
      DrainOnlyFrees(Append(s, data[Dist(s.next, v)..]));
    }
  }

  /** The same run while only the position is tracked. */
  function CountAll(s: Stream, src: Source, ds: seq<Delivery>): Stream
    requires forall d :: d in ds ==> Fits(src, d)
    decreases |ds|
  {
    if ds == [] then s else CountAll(Count(s, Number(src, ds[0]), Piece(src, ds[0])), src, ds[1..])
  }

  /** Every segment starts at or before the position it meets. */
  predicate InOrder(s: Stream, src: Source, ds: seq<Delivery>)
    requires Counted(s) && forall d :: d in ds ==> Fits(src, d)
    decreases |ds|
  {
    ds != [] ==> ds[0].off <= s.pos && InOrder(Deliver(s, src, ds[0]), src, ds[1..])
  }

  lemma CountStep(c: Stream, src: Source, d: Delivery)
    requires c.next == Wrap(src.base + c.pos) && Fits(src, d) && c.pos <= |src.bytes| < HALF
    ensures var r := Count(c, Number(src, d), Piece(src, d));
      && r.next == Wrap(src.base + r.pos) && r.pos <= |src.bytes|
      && r.pos == if d.off <= c.pos < d.off + d.len then d.off + d.len else c.pos
  {
    DeltaIsDifference(src.base, d.off, c.pos);
    WrapAdd(src.base + c.pos, Count(c, Number(src, d), Piece(src, d)).pos - c.pos);
  }

  lemma {:induction false} CountingFrom(s: Stream, c: Stream, src: Source, ds: seq<Delivery>, offs: seq<nat>)
    requires |src.bytes| < HALF && forall d :: d in ds ==> Fits(src, d)
    requires Faithful(s, src, s.pos, offs) && s.oooBytes <= MAX_OOO_BYTES && s.pos <= |src.bytes|
    requires c.next == Wrap(src.base + c.pos) && c.pos <= s.pos
    ensures CountAll(c, src, ds).pos <= DeliverAll(s, src, ds).pos
    ensures offs == [] && c.pos == s.pos && InOrder(s, src, ds) ==>
            CountAll(c, src, ds).pos == DeliverAll(s, src, ds).pos
    decreases |ds|
  {
    hide Slices, AllIn, Ascending, Held, Within, Brought, StoredBytes, Buffer, Count;
    if ds != [] {
      var d := ds[0];
      CountStep(c, src, d);
      var q, offs1 := BufferDelivers(s, src, s.pos, offs, d.off, Number(src, d), Piece(src, d));
      if offs == [] && d.off <= s.pos {
        OnlyInOrder(s, src, d);
      }
      CountingFrom(Deliver(s, src, d), Count(c, Number(src, d), Piece(src, d)), src, ds[1..], offs1);
    }
  }

  /** With an empty store a segment without a gap before it is handed up and nothing else happens. */
  lemma OnlyInOrder(s: Stream, src: Source, d: Delivery)
    requires Counted(s) && s.store == [] && s.next == Wrap(src.base + s.pos) && s.pos <= |src.bytes| < HALF
    requires Fits(src, d) && d.off <= s.pos
    ensures Deliver(s, src, d).store == []
    ensures Deliver(s, src, d).pos == if s.pos < d.off + d.len then d.off + d.len else s.pos
  {
    DeltaIsDifference(src.base, d.off, s.pos);
  }

  /**
   Tracking only the position never runs ahead of buffering, and agrees with it when
   delivery is in order.
   */
  lemma CountingUnderApproximates(src: Source, ds: seq<Delivery>)
    requires |src.bytes| < HALF && forall d :: d in ds ==> Fits(src, d)
    ensures CountAll(Start(src), src, ds).pos <= DeliverAll(Start(src), src, ds).pos
    ensures InOrder(Start(src), src, ds) ==> CountAll(Start(src), src, ds).pos == DeliverAll(Start(src), src, ds).pos
  {
    CountingFrom(Start(src), Start(src), src, ds, []);
  }
}
