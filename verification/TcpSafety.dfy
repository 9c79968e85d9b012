/**
 Reassembly against the stream that was sent. `Source` is that stream; `p` is always an
 absolute offset into it, unbounded, while the reassembler itself only knows 32-bit numbers.
 */
module TcpSafety {
  import opened Bytes
  import opened SeqNumber
  import opened Sorted
  import opened TcpStream
  import O = TcpOrder

  /** The bytes one endpoint sends and the sequence number of the first of them. */
  datatype Source = Source(bytes: seq<byte>, base: u32)

  predicate IsSlice(src: Source, off: int, v: u32, data: seq<byte>) {
    0 <= off && off + |data| <= |src.bytes| && data == src.bytes[off..off + |data|] &&
    v == Wrap(src.base + off)
  }

  /** The segment lies within half the sequence space of the position. */
  predicate InWindow(p: int, off: int, n: nat) {
    p - HALF <= off && off + n < p + HALF
  }

  /** The bytes from `i` up to `j`, none when that is not a range. */
  function Between(b: seq<byte>, i: nat, j: nat): seq<byte> {
    if i <= j <= |b| then b[i..j] else []
  }

  /** Every stored segment is the slice of the source at its offset. */
  predicate Slices(src: Source, offs: seq<nat>, store: seq<Segment>)
    requires |offs| == |store|
  {
    forall i :: 0 <= i < |offs| ==> IsSlice(src, offs[i], store[i].seqNumber, store[i].data)
  }

  predicate AllIn(offs: seq<nat>, from: int, to: int) {
    forall i :: 0 <= i < |offs| ==> from <= offs[i] < to
  }

  /** While draining, stored segments may lie up to one payload behind the position. */
  predicate Placed(s: Stream, src: Source, p: nat, offs: seq<nat>) {
    && Counted(s)
    && s.next == Wrap(src.base + p)
    && |offs| == |s.store|
    && Ascending(offs)
    && Slices(src, offs, s.store)
    && AllIn(offs, p - MAX_PAYLOAD, p + HALF)
  }

  /** Between two calls everything stored is strictly ahead of the position. */
  predicate Faithful(s: Stream, src: Source, p: nat, offs: seq<nat>) {
    && Counted(s)
    && s.next == Wrap(src.base + p)
    && |offs| == |s.store|
    && Ascending(offs)
    && Slices(src, offs, s.store)
    && AllIn(offs, p + 1, p + HALF)
  }

  /** Byte `j` of the source has been handed up or is in the store. */
  predicate Held(s: Stream, p: nat, offs: seq<nat>, j: nat)
    requires |offs| == |s.store|
  {
    j < p || exists i :: 0 <= i < |offs| && offs[i] <= j < offs[i] + |s.store[i].data|
  }

  ghost function Holding(s: Stream, p: nat, offs: seq<nat>): iset<nat>
    requires |offs| == |s.store|
  {
    iset j: nat | Held(s, p, offs, j)
  }

  predicate Within(j: nat, from: int, to: int) {
    from <= j < to
  }

  ghost function Range(from: int, to: int): iset<nat> {
    iset j: nat | Within(j, from, to)
  }

  /** Nothing that is handed up is missing, and the next byte is never already in the store. */
  lemma NextByteIsMissing(s: Stream, src: Source, p: nat, offs: seq<nat>)
    requires Faithful(s, src, p, offs)
    ensures !Held(s, p, offs, p)
  {
  }

  /** Handing up source bytes moves the position with them. */
  lemma AppendAdvances(s: Stream, src: Source, p: nat, to: nat)
    requires s.next == Wrap(src.base + p) && p <= to <= |src.bytes|
    ensures var r := Append(s, src.bytes[p..to]);
      r.next == Wrap(src.base + to) && r.pos == s.pos + (to - p) &&
      r.assembled == s.assembled + Between(src.bytes, p, to)
  {
    WrapAdd(src.base + p, to - p);
  }

  /** One drain step hands up exactly the uncovered tail of the first stored segment. */
  lemma AbsorbDelivers(s: Stream, src: Source, p: nat, offs: seq<nat>) returns (q: nat)
    requires Placed(s, src, p, offs) && offs != []
    requires Delta(s.store[0].seqNumber, s.next) <= 0
    ensures offs[0] <= p <= q && q == p + (Absorb(s).pos - s.pos)
    ensures q == p || q == offs[0] + |s.store[0].data| <= |src.bytes|
    ensures Placed(Absorb(s), src, q, offs[1..])
    ensures Absorb(s).assembled == s.assembled + Between(src.bytes, p, q)
    ensures Absorb(s).oooBytes <= s.oooBytes
    ensures Holding(Absorb(s), q, offs[1..]) == Holding(s, p, offs)
  {
    var head := s.store[0];
    var o := offs[0];
    DeltaIsDifference(src.base, o, p);
    q := if p - o < |head.data| then o + |head.data| else p;
    if p - o < |head.data| {
      assert head.data[p - o..] == src.bytes[p..q];
      AppendAdvances(s, src, p, q);
    }
    var r := Absorb(s);
    forall i | 0 <= i < |offs[1..]|
      ensures o < offs[1..][i] && IsSlice(src, offs[1..][i], r.store[i].seqNumber, r.store[i].data)
    {
      assert offs[0] < offs[i + 1];
    }
    assert Placed(r, src, q, offs[1..]);
    forall j: nat
      ensures Held(r, q, offs[1..], j) <==> Held(s, p, offs, j)
    {
      AbsorbKeepsHeld(s, r, p, q, offs, j);
    }
  }

  lemma AbsorbKeepsHeld(s: Stream, r: Stream, p: nat, q: nat, offs: seq<nat>, j: nat)
    requires |offs| == |s.store| && offs != [] && r.store == s.store[1..]
    requires offs[0] <= p
    requires q == if p - offs[0] < |s.store[0].data| then offs[0] + |s.store[0].data| else p
    ensures Held(r, q, offs[1..], j) <==> Held(s, p, offs, j)
  {
    if Held(s, p, offs, j) && j >= q {
      var i :| 0 <= i < |offs| && offs[i] <= j < offs[i] + |s.store[i].data|;
      assert i > 0 && offs[1..][i - 1] == offs[i] && r.store[i - 1] == s.store[i];
    }
    if Held(r, q, offs[1..], j) && j >= p {
      if j < q {
        assert offs[0] <= j < offs[0] + |s.store[0].data|;
      } else {
        var i :| 0 <= i < |offs[1..]| && offs[1..][i] <= j < offs[1..][i] + |r.store[i].data|;
        assert offs[i + 1] <= j < offs[i + 1] + |s.store[i + 1].data|;
      }
    }
  }

  /** Draining hands up source bytes in order and forgets none. */
  lemma DrainDelivers(s: Stream, src: Source, p: nat, offs: seq<nat>) returns (q: nat, offs': seq<nat>)
    requires Placed(s, src, p, offs)
    ensures Faithful(Drain(s), src, q, offs')
    ensures p <= q == p + (Drain(s).pos - s.pos)
    ensures q == p || q <= |src.bytes|
    ensures Drain(s).oooBytes <= s.oooBytes
    ensures Drain(s).assembled == s.assembled + Between(src.bytes, p, q)
    ensures Holding(Drain(s), q, offs') == Holding(s, p, offs)
    decreases |s.store|
  {
    hide Held, Holding, Delta, Dist, Wrap, StoredBytes, Absorb, Slices, AllIn, Ascending;
    if s.store == [] || Delta(s.store[0].seqNumber, s.next) > 0 {
      q, offs' := p, offs;
      NothingToDrain(s, src, p, offs);
    } else {
      var p1 := AbsorbDelivers(s, src, p, offs);
      q, offs' := DrainDelivers(Absorb(s), src, p1, offs[1..]);
      JoinBetween(src.bytes, p, p1, q);
    }
  }

  lemma NothingToDrain(s: Stream, src: Source, p: nat, offs: seq<nat>)
    requires Placed(s, src, p, offs)
    requires s.store == [] || Delta(s.store[0].seqNumber, s.next) > 0
    ensures Faithful(s, src, p, offs)
  {
    if s.store != [] {
      DeltaIsDifference(src.base, offs[0], p);
    }
  }

  lemma JoinBetween(b: seq<byte>, i: nat, j: nat, k: nat)
    requires i <= j <= k && (j == i || j <= |b|) && (k == j || k <= |b|)
    ensures Between(b, i, j) + Between(b, j, k) == Between(b, i, k)
  {
  }

  /** Stored offsets are the positions the store is sorted by. */
  lemma GapsAreOffsets(s: Stream, src: Source, p: nat, offs: seq<nat>)
    requires Faithful(s, src, p, offs)
    ensures forall i :: 0 <= i < |offs| ==> Gaps(s)[i] == offs[i] - p
    ensures Ascending(Gaps(s)) && O.Ahead(s, 1)
  {
    forall i | 0 <= i < |offs|
      ensures Gaps(s)[i] == offs[i] - p
    {
      DeltaIsDifference(src.base, offs[i], p);
    }
    ShiftAscending(offs, Gaps(s), 0 - p as int);
  }

  /** The bytes a segment adds to what is held: none if the store has no room for it. */
  ghost function Brought(s: Stream, off: int, v: u32, data: Payload): iset<nat>
    requires Counted(s)
  {
    if Refused(s, v, data) then iset{} else Range(off, off + |data|)
  }

  /** The sorted place that `Slot` finds, read as absolute offsets. */
  lemma SlotByOffset(s: Stream, src: Source, p: nat, offs: seq<nat>, off: nat, v: u32)
    requires Faithful(s, src, p, offs)
    requires v == Wrap(src.base + off) && p < off < p + HALF
    ensures Delta(v, s.next) > 0
    ensures Splits(offs, Slot(s, v).0, off)
    ensures if Slot(s, v).1 then offs[Slot(s, v).0] == off else off !in offs
  {
    hide Slices, AllIn, Ascending, StoredBytes, Slot;
    GapsAreOffsets(s, src, p, offs);
    DeltaIsDifference(src.base, off, p);
    O.SlotIsExact(s, v);
    assert off in offs ==> off - p in Gaps(s);
  }

  /** Stashing adds exactly the bytes of the segment, unless it is refused. */
  lemma StashDelivers(s: Stream, src: Source, p: nat, offs: seq<nat>, off: nat, v: u32, data: Payload)
    returns (offs': seq<nat>)
    requires Faithful(s, src, p, offs) && s.oooBytes <= MAX_OOO_BYTES
    requires IsSlice(src, off, v, data) && p < off < p + HALF
    ensures Faithful(Stash(s, v, data), src, p, offs')
    ensures Holding(Stash(s, v, data), p, offs') == Holding(s, p, offs) + Brought(s, off, v, data)
  {
    hide Slices, AllIn, Ascending, Splits, Held, StoredBytes, Slot, Stash, Wrap, Dist, Delta;
    SlotByOffset(s, src, p, offs, off, v);
    var k := Slot(s, v).0;
    if Slot(s, v).1 || Refused(s, v, data) {
      offs' := offs;
      StashInPlaceIsFaithful(s, src, p, offs, off, v, data);
      forall j: nat
        ensures Held(Stash(s, v, data), p, offs, j) <==> Held(s, p, offs, j) || j in Brought(s, off, v, data)
      {
        StashInPlace(s, p, offs, off, v, data, j);
      }
    } else {
      offs' := offs[..k] + [off] + offs[k..];
      StashInsertIsFaithful(s, src, p, offs, off, v, data);
      forall j: nat
        ensures Held(Stash(s, v, data), p, offs', j) <==> Held(s, p, offs, j) || j in Brought(s, off, v, data)
      {
        InsertAddsHeld(s, Stash(s, v, data), p, offs, k, off, Segment(v, data), j);
      }
    }
  }

  lemma StashInPlaceIsFaithful(s: Stream, src: Source, p: nat, offs: seq<nat>, off: nat, v: u32, data: Payload)
    requires Faithful(s, src, p, offs)
    requires IsSlice(src, off, v, data) && Delta(v, s.next) > 0
    requires Slot(s, v).1 || Refused(s, v, data)
    requires Slot(s, v).1 ==> offs[Slot(s, v).0] == off
    ensures Faithful(Stash(s, v, data), src, p, offs)
  {
  }

  lemma StashInsertIsFaithful(s: Stream, src: Source, p: nat, offs: seq<nat>, off: nat, v: u32, data: Payload)
    requires Faithful(s, src, p, offs)
    requires IsSlice(src, off, v, data) && p < off < p + HALF && Delta(v, s.next) > 0
    requires !Slot(s, v).1 && !Refused(s, v, data)
    requires Splits(offs, Slot(s, v).0, off) && off !in offs
    ensures Stash(s, v, data).store == s.store[..Slot(s, v).0] + [Segment(v, data)] + s.store[Slot(s, v).0..]
    ensures Faithful(Stash(s, v, data), src, p, offs[..Slot(s, v).0] + [off] + offs[Slot(s, v).0..])
  {
    hide Slices, AllIn, Ascending, Splits, StoredBytes, Slot, Wrap, Dist, Delta;
    var k := Slot(s, v).0;
    InsertAscending(offs, k, off);
    SlicesInsert(src, offs, s.store, k, off, Segment(v, data), p + 1, p + HALF);
  }

  lemma SlicesInsert(
    src: Source, offs: seq<nat>, store: seq<Segment>, k: nat, off: nat, seg: Segment, from: int, to: int)
    requires |offs| == |store| && k <= |offs|
    requires Slices(src, offs, store) && AllIn(offs, from, to)
    requires IsSlice(src, off, seg.seqNumber, seg.data) && from <= off < to
    ensures Slices(src, offs[..k] + [off] + offs[k..], store[..k] + [seg] + store[k..])
    ensures AllIn(offs[..k] + [off] + offs[k..], from, to)
  {
    hide IsSlice;
    var offs', store' := offs[..k] + [off] + offs[k..], store[..k] + [seg] + store[k..];
    forall i | 0 <= i < |offs'|
      ensures IsSlice(src, offs'[i], store'[i].seqNumber, store'[i].data) && from <= offs'[i] < to
    {
      var i' := if i < k then i else i - 1;
      if i != k {
        assert offs'[i] == offs[i'] && store'[i] == store[i'];
      }
    }
  }

  lemma StashInPlace(s: Stream, p: nat, offs: seq<nat>, off: nat, v: u32, data: Payload, j: nat)
    requires Counted(s) && |offs| == |s.store| && Delta(v, s.next) > 0
    requires Slot(s, v).1 || Refused(s, v, data)
    requires Slot(s, v).1 ==> offs[Slot(s, v).0] == off
    ensures |Stash(s, v, data).store| == |s.store|
    ensures Held(Stash(s, v, data), p, offs, j) <==> Held(s, p, offs, j) || j in Brought(s, off, v, data)
  {
    var (k, present) := Slot(s, v);
    var r := Stash(s, v, data);
    if Held(s, p, offs, j) && j >= p {
      var i :| 0 <= i < |offs| && offs[i] <= j < offs[i] + |s.store[i].data|;
      assert offs[i] <= j < offs[i] + |r.store[i].data|;
    }
    if j in Brought(s, off, v, data) {
      assert offs[k] <= j < offs[k] + |r.store[k].data|;
    }
    if Held(r, p, offs, j) && j >= p {
      var i :| 0 <= i < |offs| && offs[i] <= j < offs[i] + |r.store[i].data|;
      if j !in Brought(s, off, v, data) {
        assert offs[i] <= j < offs[i] + |s.store[i].data|;
      }
    }
  }

  lemma InsertAddsHeld(s: Stream, r: Stream, p: nat, offs: seq<nat>, k: nat, off: nat, seg: Segment, j: nat)
    requires |offs| == |s.store| && k <= |offs| && r.store == s.store[..k] + [seg] + s.store[k..]
    ensures Held(r, p, offs[..k] + [off] + offs[k..], j) <==> Held(s, p, offs, j) || off <= j < off + |seg.data|
  {
    var offs' := offs[..k] + [off] + offs[k..];
    if Held(s, p, offs, j) && j >= p {
      var i :| 0 <= i < |offs| && offs[i] <= j < offs[i] + |s.store[i].data|;
      var i' := if i < k then i else i + 1;
      assert offs'[i'] <= j < offs'[i'] + |r.store[i'].data|;
    }
    if off <= j < off + |seg.data| {
      assert offs'[k] <= j < offs'[k] + |r.store[k].data|;
    }
    if Held(r, p, offs', j) && j >= p && !(off <= j < off + |seg.data|) {
      var i :| 0 <= i < |offs'| && offs'[i] <= j < offs'[i] + |r.store[i].data|;
      assert i != k;
      var i' := if i < k then i else i - 1;
      assert offs[i'] <= j < offs[i'] + |s.store[i'].data|;
    }
  }

  /**
   One `ingest` of a slice of the source: what is handed up is the source from the old
   position to the new one, and what is held afterwards is what was held before plus the
   bytes of the segment. A segment wholly behind the position may carry anything.
   */
  lemma BufferDelivers(s: Stream, src: Source, p: nat, offs: seq<nat>, off: int, v: u32, data: Payload)
    returns (q: nat, offs': seq<nat>)
    requires Faithful(s, src, p, offs) && s.oooBytes <= MAX_OOO_BYTES
    requires InWindow(p, off, |data|) && v == Wrap(src.base + off)
    requires off + |data| <= p || IsSlice(src, off, v, data)
    ensures Faithful(Buffer(s, v, data), src, q, offs')
    ensures p <= q == p + (Buffer(s, v, data).pos - s.pos)
    ensures off <= p ==> off + |data| <= q
    ensures q == p || q <= |src.bytes|
    ensures Buffer(s, v, data).oooBytes <= MAX_OOO_BYTES
    ensures Buffer(s, v, data).assembled == s.assembled + Between(src.bytes, p, q)
    ensures Holding(Buffer(s, v, data), q, offs') == Holding(s, p, offs) + Brought(s, off, v, data)
  {
    hide Slices, AllIn, Ascending, Held, Holding, Within, StoredBytes, Slot, Stash, Drain, Wrap, Dist, Delta, Buffer;
    BufferBranch(s, src, p, off, v, data);
    if off > p {
      q := p;
      offs' := StashDelivers(s, src, p, offs, off, v, data);
      StashWithinCap(s, v, data);
    } else if p - off < |data| || off == p {
      q, offs' := DeliverInOrder(s, src, p, offs, off, v, data);
    } else {
      q, offs' := p, offs;
      OldRangeIsHeld(s, p, offs, off, off + |data|);
    }
  }

  /** Which branch of `ingest` a segment takes, told from absolute offsets. */
  lemma BufferBranch(s: Stream, src: Source, p: nat, off: int, v: u32, data: Payload)
    requires Counted(s) && s.next == Wrap(src.base + p) && v == Wrap(src.base + off)
    requires InWindow(p, off, |data|)
    ensures off > p ==> Buffer(s, v, data) == Stash(s, v, data)
    ensures off <= p ==> !Refused(s, v, data)
    ensures off < p && off + |data| <= p ==> Buffer(s, v, data) == s
  {
    DeltaIsDifference(src.base, off, p);
  }

  lemma OldRangeIsHeld(s: Stream, p: nat, offs: seq<nat>, from: int, to: int)
    requires |offs| == |s.store| && to <= p
    ensures Holding(s, p, offs) + Range(from, to) == Holding(s, p, offs)
  {
  }

  lemma StashWithinCap(s: Stream, v: u32, data: Payload)
    requires Counted(s) && s.oooBytes <= MAX_OOO_BYTES
    ensures Stash(s, v, data).oooBytes <= MAX_OOO_BYTES && Stash(s, v, data).pos == s.pos
    ensures Stash(s, v, data).assembled == s.assembled
  {
  }

  /** The case of `BufferDelivers` in which the segment starts at or before the position. */
  lemma DeliverInOrder(s: Stream, src: Source, p: nat, offs: seq<nat>, off: int, v: u32, data: Payload)
    returns (q: nat, offs': seq<nat>)
    requires Faithful(s, src, p, offs)
    requires v == Wrap(src.base + off) && off <= p <= off + |data| && p - off < HALF
    requires off + |data| == p || IsSlice(src, off, v, data)
    requires off < p ==> p < off + |data|
    ensures Faithful(Buffer(s, v, data), src, q, offs')
    ensures p <= q == p + (Buffer(s, v, data).pos - s.pos)
    ensures off + |data| <= q && (q == p || q <= |src.bytes|)
    ensures Buffer(s, v, data).oooBytes <= s.oooBytes
    ensures Buffer(s, v, data).assembled == s.assembled + Between(src.bytes, p, q)
    ensures Holding(Buffer(s, v, data), q, offs') == Holding(s, p, offs) + Range(off, off + |data|)
  {
    hide Slices, AllIn, Ascending, Held, Holding, Within, StoredBytes, Drain, Wrap, Dist, Delta, Buffer;
    var to: nat := off + |data|;
    var tail := BufferIsDrain(s, src, p, off, v, data);
    var s1 := AppendTail(s, src, p, offs, to, tail);
    q, offs' := DrainDelivers(s1, src, to, offs);
    JoinBetween(src.bytes, p, to, q);
    AppendedIsHeld(s, p, offs, off, |data|, s1);
  }

  /** A segment that reaches the position appends its new tail and drains. */
  lemma BufferIsDrain(s: Stream, src: Source, p: nat, off: int, v: u32, data: Payload) returns (tail: Payload)
    requires Counted(s) && s.next == Wrap(src.base + p)
    requires v == Wrap(src.base + off) && off <= p <= off + |data| && p - off < HALF
    requires off + |data| == p || IsSlice(src, off, v, data)
    requires off < p ==> p < off + |data|
    ensures Buffer(s, v, data) == Drain(Append(s, tail))
    ensures tail == Between(src.bytes, p, off + |data|)
  {
    DeltaIsDifference(src.base, off, p);
    tail := data[p - off..];
    if off == p {
      assert tail == data;
    }
    if off + |data| > p {
      assert tail == src.bytes[p..off + |data|];
    }
  }

  lemma AppendTail(s: Stream, src: Source, p: nat, offs: seq<nat>, to: nat, tail: Payload) returns (r: Stream)
    requires Faithful(s, src, p, offs)
    requires p <= to && (to == p || to <= |src.bytes|) && tail == Between(src.bytes, p, to)
    ensures r == Append(s, tail) && Placed(r, src, to, offs)
    ensures r.assembled == s.assembled + Between(src.bytes, p, to) && r.pos == s.pos + (to - p)
  {
    r := Append(s, tail);
    WrapAdd(src.base + p, to - p);
  }

  /** Appending up to `off + |data|` adds exactly the bytes of the segment. */
  lemma AppendedIsHeld(s: Stream, p: nat, offs: seq<nat>, off: int, n: nat, s1: Stream)
    requires |offs| == |s.store| && s1.store == s.store && off <= p <= off + n
    ensures Holding(s1, off + n, offs) == Holding(s, p, offs) + Range(off, off + n)
  {
    forall j: nat
      ensures Held(s1, off + n, offs, j) <==> Held(s, p, offs, j) || off <= j < off + n
    {
      if j >= p && exists i :: 0 <= i < |offs| && offs[i] <= j < offs[i] + |s.store[i].data| {
        var i :| 0 <= i < |offs| && offs[i] <= j < offs[i] + |s.store[i].data|;
        assert offs[i] <= j < offs[i] + |s1.store[i].data|;
      }
    }
  }
}
