/**
 The reassembler's state as a value, and one pure step function per operation.
 The class in TcpReassembler.dfy is proved equal to these functions; the results
 about runs (TcpOrder, TcpSafety, TcpConversation) are about these functions.
 */
module TcpStream {
  import opened Bytes
  import opened SeqNumber
  import opened Sorted

  const MAX_OOO_BYTES: nat := 0x10_0000
  const MIN_COMPACT_BYTES: nat := 4096
  const MAX_PAYLOAD: nat := 65535

  /** The payload of one packet: IP lengths are 16-bit fields. */
  type Payload = d: seq<byte> | |d| <= MAX_PAYLOAD witness []

  datatype Segment = Segment(seqNumber: u32, data: Payload)

  /**
   What `ingest` works on. `pos` is a history variable: how far `next` has moved
   since the reassembler was seeded, counted without wrap-around.
   */
  datatype Stream = Stream(next: u32, pos: nat, store: seq<Segment>, oooBytes: nat, assembled: seq<byte>)

  function StoredBytes(store: seq<Segment>): nat {
    if store == [] then 0 else |store[0].data| + StoredBytes(store[1..])
  }

  /** The byte counter is exact, so subtracting from it never underflows. */
  predicate Counted(s: Stream) {
    s.oooBytes == StoredBytes(s.store)
  }

  /** Hands `data` up: it becomes the newest assembled bytes and the position moves past it. */
  function Append(s: Stream, data: seq<byte>): Stream {
    s.(next := Wrap(s.next + |data|), pos := s.pos + |data|, assembled := s.assembled + data)
  }

  /** One iteration of the drain loop on the first stored segment. */
  function Absorb(s: Stream): (r: Stream)
    requires s.store != [] && Counted(s)
    ensures Counted(r) && r.store == s.store[1..]
  {
    var head := s.store[0];
    var covered := Dist(s.next, head.seqNumber);
    var t := if covered < |head.data| then Append(s, head.data[covered..]) else s;
    t.(store := s.store[1..], oooBytes := s.oooBytes - |head.data|)
  }

  function Drain(s: Stream): (r: Stream)
    requires Counted(s)
    ensures Counted(r)
    decreases |s.store|
  {
    if s.store == [] || Delta(s.store[0].seqNumber, s.next) > 0 then s else Drain(Absorb(s))
  }

  /** The keys the store is ordered by: unsigned distances ahead of the position. */
  function Gaps(s: Stream): (gaps: seq<int>)
    ensures |gaps| == |s.store|
    ensures forall i :: 0 <= i < |gaps| ==> gaps[i] == Dist(s.store[i].seqNumber, s.next)
  {
    seq(|s.store|, i requires 0 <= i < |s.store| => Dist(s.store[i].seqNumber, s.next))
  }

  /** Where `Stash` looks: the index found and whether it already holds that sequence number. */
  function Slot(s: Stream, seqNumber: u32): (r: (nat, bool))
    ensures r.0 <= |s.store|
    ensures r.1 ==> r.0 < |s.store| && s.store[r.0].seqNumber == seqNumber
  {
    var k := LowerBound(Gaps(s), Dist(seqNumber, s.next));
    (k, k < |s.store| && s.store[k].seqNumber == seqNumber)
  }

  /** A segment ahead of the position is refused when the store has no room for what it adds. */
  predicate Refused(s: Stream, seqNumber: u32, data: Payload)
    requires Counted(s)
  {
    Delta(seqNumber, s.next) > 0 &&
    var (k, present) := Slot(s, seqNumber);
    if present
    then |data| > |s.store[k].data| && s.oooBytes + |data| - |s.store[k].data| > MAX_OOO_BYTES
    else s.oooBytes + |data| > MAX_OOO_BYTES
  }

  lemma {:induction false} StoredBytesSplit(store: seq<Segment>, k: nat)
    requires k <= |store|
    ensures StoredBytes(store) == StoredBytes(store[..k]) + StoredBytes(store[k..])
  {
    if k == 0 {
      assert store[k..] == store;
    } else {
      StoredBytesSplit(store[1..], k - 1);
      assert store[1..][..k - 1] == store[..k][1..];
      assert store[1..][k - 1..] == store[k..];
    }
  }

  lemma StoredBytesReplace(store: seq<Segment>, k: nat, seg: Segment)
    requires k < |store|
    ensures StoredBytes(store[k := seg]) == StoredBytes(store) - |store[k].data| + |seg.data|
    ensures |store[k].data| <= StoredBytes(store)
  {
    StoredBytesSplit(store, k);
    StoredBytesSplit(store[k := seg], k);
    assert store[k := seg][..k] == store[..k];
    assert store[k := seg][k..][1..] == store[k..][1..];
  }

  lemma StoredBytesInsert(store: seq<Segment>, k: nat, seg: Segment)
    requires k <= |store|
    ensures StoredBytes(store[..k] + [seg] + store[k..]) == StoredBytes(store) + |seg.data|
  {
    var inserted := store[..k] + [seg] + store[k..];
    StoredBytesSplit(store, k);
    StoredBytesSplit(inserted, k);
    assert inserted[..k] == store[..k];
    assert inserted[k..][1..] == store[k..];
  }

  /** Keeps a segment that is ahead of the position, if there is room. */
  function Stash(s: Stream, seqNumber: u32, data: Payload): (r: Stream)
    requires Counted(s)
    ensures Counted(r)
  {
    var (k, present) := Slot(s, seqNumber);
    if present then
      if |data| > |s.store[k].data| && s.oooBytes + |data| - |s.store[k].data| <= MAX_OOO_BYTES then
        StoredBytesReplace(s.store, k, Segment(seqNumber, data));
        s.(store := s.store[k := Segment(seqNumber, data)],
           oooBytes := s.oooBytes + |data| - |s.store[k].data|)
      else s
    else if s.oooBytes + |data| <= MAX_OOO_BYTES then
      StoredBytesInsert(s.store, k, Segment(seqNumber, data));
      s.(store := s.store[..k] + [Segment(seqNumber, data)] + s.store[k..],
         oooBytes := s.oooBytes + |data|)
    else s
  }

  /** `ingest` while payload is kept. */
  function Buffer(s: Stream, seqNumber: u32, data: Payload): (r: Stream)
    requires Counted(s)
    ensures Counted(r)
  {
    if seqNumber == s.next then Drain(Append(s, data))
    else if Delta(seqNumber, s.next) > 0 then Stash(s, seqNumber, data)
    else
      var overlap := Dist(s.next, seqNumber);
      if overlap < |data| then Drain(Append(s, data[overlap..])) else s
  }

  /** `ingest` while only the position is tracked. */
  function Count(s: Stream, seqNumber: u32, data: Payload): Stream {
    var advance :=
      if seqNumber == s.next then |data|
      else if Delta(seqNumber, s.next) < 0 && Dist(s.next, seqNumber) < |data|
      then |data| - Dist(s.next, seqNumber)
      else 0;
    s.(next := Wrap(s.next + advance), pos := s.pos + advance)
  }

  function Ingest(s: Stream, keepPayload: bool, seqNumber: u32, data: Payload): (r: Stream)
    requires Counted(s)
    ensures Counted(r)
  {
    if keepPayload then Buffer(s, seqNumber, data) else Count(s, seqNumber, data)
  }
}
