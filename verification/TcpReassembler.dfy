/** The reassembler as the program has it: one object whose methods update its fields. */
module TcpReassembler {
  import opened Bytes
  import opened SeqNumber
  import opened Sorted
  import opened TcpStream
  import M = TcpMachine

  class TcpReassembler {
    var state: M.TcpState
    var nextSeq: u32
    var oooBytes: nat
    var outOfOrder: seq<Segment>
    var assembled: seq<byte>
    var finSeen: bool
    var finSeq: u32
    var seeded: bool
    var keepPayload: bool
    var readPos: nat

    ghost var pos: nat
    ghost var erased: seq<byte>

    ghost predicate Valid()
      reads this
    {
      oooBytes == StoredBytes(outOfOrder) && readPos <= |assembled|
    }

    ghost function Stream(): Stream
      reads this
    {
      TcpStream.Stream(nextSeq, pos, outOfOrder, oooBytes, assembled)
    }

    ghost function View(): (m: M.Machine)
      reads this
      ensures Valid() <==> M.Valid(m)
    {
      M.Machine(state, Stream(), finSeen, finSeq, seeded, keepPayload, readPos, erased)
    }

    constructor (keepPayload: bool)
      ensures Valid() && View() == M.Initial(keepPayload)
    {
      state := M.Unknown;
      nextSeq, oooBytes, outOfOrder, assembled := 0, 0, [], [];
      finSeen, finSeq, seeded, readPos := false, 0, false, 0;
      this.keepPayload := keepPayload;
      pos, erased := 0, [];
    }

    method OnSent(h: M.Header, span: Payload)
      requires Valid()
      modifies this
      ensures Valid() && View() == M.OnSent(old(View()), h, span)
    {
      if h.rst {
        state := M.Closed;
        return;
      }
      if !seeded {
        if h.syn {
          nextSeq := Wrap(h.seqNumber + 1);
          state := if h.ack then M.SynReceived else M.SynSent;
          seeded := true;
          Ingest(Wrap(h.seqNumber + 1), span);
        } else if h.ack {
          nextSeq := h.seqNumber;
          seeded := true;
          if state != M.CloseWait {
            state := M.Established;
          }
          OnData(h, span);
        }
        return;
      }
      match state {
        case Unknown | Closed | Listen =>
        case SynSent =>
          if h.ack && !h.syn {
            state := M.Established;
          }
          if state == M.Established {
            OnData(h, span);
          }
        case SynReceived =>
        case Established | CloseWait =>
          OnData(h, span);
        case FinWait1 | FinWait2 | Closing | LastAck | TimeWait =>
      }
    }

    method OnReceived(h: M.Header)
      requires Valid()
      modifies `state
      ensures Valid() && View() == M.OnReceived(old(View()), h)
    {
      if h.rst {
        state := M.Closed;
        return;
      }
      match state {
        case Unknown | Closed | Listen =>
          if h.syn && !h.ack {
            state := M.Listen;
          } else if h.ack && !h.syn {
            state := if h.fin then M.CloseWait else M.Established;
          }
        case SynSent =>
          if h.syn && !h.ack {
            state := M.SynReceived;
          }
        case SynReceived =>
          if h.ack && !h.syn {
            state := if h.fin then M.CloseWait else M.Established;
          }
        case Established =>
          if h.fin {
            state := M.CloseWait;
          }
        case FinWait1 =>
          if h.fin && h.ack && Delta(h.ackNumber, nextSeq) >= 0 {
            state := M.TimeWait;
          } else if h.fin {
            state := M.Closing;
          } else if h.ack && Delta(h.ackNumber, nextSeq) >= 0 {
            state := M.FinWait2;
          }
        case FinWait2 =>
          if h.fin {
            state := M.TimeWait;
          }
        case Closing =>
          if h.ack && Delta(h.ackNumber, nextSeq) >= 0 {
            state := M.TimeWait;
          }
        case LastAck =>
          if h.ack && Delta(h.ackNumber, nextSeq) >= 0 {
            state := M.Closed;
          }
        case TimeWait | CloseWait =>
      }
    }

    method OnData(h: M.Header, span: Payload)
      requires Valid()
      modifies this
      ensures Valid() && View() == M.OnData(old(View()), h, span)
    {
      hide StoredBytes, Wrap, Delta, TcpStream.Ingest;
      Ingest(h.seqNumber, span);
      ghost var ingested := View();
      if h.fin {
        finSeen := true;
        finSeq := Wrap(h.seqNumber + |span|);
      }
      ghost var noted := View();
      assert noted == M.NoteFin(ingested, h, span);
      if finSeen && Delta(nextSeq, finSeq) >= 0 {
        nextSeq := Wrap(nextSeq + 1);
        pos := pos + 1;
        finSeen := false;
        state := if state == M.CloseWait then M.LastAck else M.FinWait1;
        assert View() == M.TakeFin(noted);
      }
    }

    /** Appends to the assembled bytes and moves the position past them. */
    method HandUp(bytes: seq<byte>)
      modifies `assembled, `nextSeq, `pos
      ensures Stream() == Append(old(Stream()), bytes)
    {
      assembled := assembled + bytes;
      nextSeq := Wrap(nextSeq + |bytes|);
      pos := pos + |bytes|;
    }

    method Ingest(seqNumber: u32, span: Payload)
      requires Valid()
      modifies `nextSeq, `oooBytes, `outOfOrder, `assembled, `pos
      ensures Valid() && View() == M.AfterIngest(old(View()), seqNumber, span)
    {
      M.DeliveredGrows(Stream(), keepPayload, seqNumber, span);
      if !keepPayload {
        if seqNumber == nextSeq {
          nextSeq := Wrap(nextSeq + |span|);
          pos := pos + |span|;
        } else if Delta(seqNumber, nextSeq) < 0 {
          var overlap := Dist(nextSeq, seqNumber);
          if overlap < |span| {
            nextSeq := Wrap(nextSeq + (|span| - overlap));
            pos := pos + (|span| - overlap);
          }
        }
        return;
      }
      if seqNumber == nextSeq {
        HandUp(span);
        DrainStore();
      } else if Delta(seqNumber, nextSeq) > 0 {
        StashSegment(seqNumber, span);
      } else {
        var overlap := Dist(nextSeq, seqNumber);
        if overlap < |span| {
          HandUp(span[overlap..]);
          DrainStore();
        }
      }
    }

    /** The branch of `ingest` for a segment ahead of the position. */
    method StashSegment(seqNumber: u32, span: Payload)
      requires Valid()
      modifies `oooBytes, `outOfOrder
      ensures Valid() && Stream() == Stash(old(Stream()), seqNumber, span)
    {
      var it := FindSlot(seqNumber);
      if it < |outOfOrder| && outOfOrder[it].seqNumber == seqNumber {
        if |span| > |outOfOrder[it].data| {
          if oooBytes + |span| - |outOfOrder[it].data| <= MAX_OOO_BYTES {
            StoredBytesReplace(outOfOrder, it, Segment(seqNumber, span));
            oooBytes := oooBytes + |span| - |outOfOrder[it].data|;
            outOfOrder := outOfOrder[it := Segment(seqNumber, span)];
          }
        }
      } else if oooBytes + |span| <= MAX_OOO_BYTES {
        StoredBytesInsert(outOfOrder, it, Segment(seqNumber, span));
        outOfOrder := outOfOrder[..it] + [Segment(seqNumber, span)] + outOfOrder[it..];
        oooBytes := oooBytes + |span|;
      }
    }

    /** `std::lower_bound` over the store, ordered by distance from the current `next_seq`. */
    method FindSlot(v: u32) returns (first: nat)
      ensures first == Slot(Stream(), v).0
    {
      var base := nextSeq;
      ghost var gaps, d := Gaps(Stream()), Dist(v, base);
      first := 0;
      var len: nat := |outOfOrder|;
      while len > 0
        invariant first + len <= |outOfOrder|
        invariant Bisect(gaps, d, first, len) == LowerBound(gaps, d)
      {
        var half := len / 2;
        if Dist(outOfOrder[first + half].seqNumber, base) < Dist(v, base) {
          first := first + half + 1;
          len := len - half - 1;
        } else {
          len := half;
        }
      }
    }

    /** The body of the drain loop for a segment that starts at or before the position. */
    method AbsorbSegment(segment: Segment, ghost rest: Stream)
      requires rest == Stream().(store := rest.store) && Counted(rest)
      requires rest.store != [] && rest.store[0] == segment && Delta(segment.seqNumber, nextSeq) <= 0
      modifies `nextSeq, `oooBytes, `assembled, `pos
      ensures Absorb(rest) == Stream().(store := rest.store[1..])
    {
      DeltaNegates(segment.seqNumber, nextSeq);
      var covered := -Delta(segment.seqNumber, nextSeq);
      if covered < |segment.data| {
        HandUp(segment.data[covered..]);
      }
      oooBytes := oooBytes - |segment.data|;
    }

    method DrainStore()
      requires Valid()
      modifies `nextSeq, `oooBytes, `outOfOrder, `assembled, `pos
      ensures Valid() && Stream() == Drain(old(Stream()))
    {
      M.DrainGrows(Stream());
      ghost var rest := Stream();
      var len := 0;
      while len < |outOfOrder|
        invariant len <= |outOfOrder| && outOfOrder == old(outOfOrder)
        invariant rest == Stream().(store := outOfOrder[len..])
        invariant Counted(rest) && Drain(rest) == Drain(old(Stream()))
      {
        if Delta(outOfOrder[len].seqNumber, nextSeq) > 0 { break; }
        assert outOfOrder[len..][1..] == outOfOrder[len + 1..];
        AbsorbSegment(outOfOrder[len], rest);
        rest := Absorb(rest);
        len := len + 1;
      }
      if len > 0 {
        outOfOrder := outOfOrder[len..];
      }
    }

    function Available(): (n: nat)
      requires Valid()
      reads this
      ensures n == |M.Queue(View())|
    {
      |assembled| - readPos
    }

    function Peek(): (bytes: seq<byte>)
      requires Valid()
      reads this
      ensures bytes == M.Queue(View())
    {
      assembled[readPos..]
    }

    method Consume(n: nat)
      requires Valid()
      modifies `readPos, `assembled, `erased
      ensures Valid() && View() == M.Consume(old(View()), n)
      ensures Peek() == old(Peek())[if n <= old(Available()) then n else old(Available())..]
    {
      readPos := readPos + if n <= Available() then n else Available();
      if readPos > MIN_COMPACT_BYTES && readPos > |assembled| / 2 {
        erased := erased + assembled[..readPos];
        assembled := assembled[readPos..];
        readPos := 0;
      }
    }

    predicate HasReadableData()
      reads this
      ensures HasReadableData() <==> M.HasReadableData(View())
    {
      state == M.Established || state == M.FinWait1 || state == M.FinWait2
    }
  }
}
