/** The assembled buffer with its lazy compaction is a plain byte queue, and compaction is cheap. */
module TcpQueue {
  import opened Bytes
  import opened SeqNumber
  import opened TcpStream
  import opened TcpMachine

  function Min(a: nat, b: nat): nat {
    if a <= b then a else b
  }

  /** The bytes that one call hands up. */
  function Gained(m: Machine, e: Event): seq<byte>
    requires Valid(m)
  {
    var before, after := History(m), History(Apply(m, e));
    if |before| <= |after| then after[|before|..] else []
  }

  /** A queue with no compaction: calls append what they hand up, reads drop from the front. */
  function PlainQueue(q: seq<byte>, m: Machine, events: seq<Event>): seq<byte>
    requires Valid(m)
    decreases |events|
  {
    if events == [] then q
    else
      var q' := match events[0]
        case Consumed(n) => q[Min(n, |q|)..]
        case _ => q + Gained(m, events[0]);
      PlainQueue(q', Apply(m, events[0]), events[1..])
  }

  /** Dropping from the front and compacting commute; compaction is invisible. */
  lemma ConsumeDrops(m: Machine, n: nat)
    requires Valid(m)
    ensures Queue(Consume(m, n)) == Queue(m)[Min(n, |Queue(m)|)..]
    ensures History(Consume(m, n)) == History(m)
  {
  }

  lemma AppendExtends(m: Machine, r: Machine)
    requires Valid(m) && Valid(r)
    requires r.readPos == m.readPos && r.erased == m.erased && m.stream.assembled <= r.stream.assembled
    ensures History(m) <= History(r)
    ensures Queue(r) == Queue(m) + History(r)[|History(m)|..]
  {
    var gained := r.stream.assembled[|m.stream.assembled|..];
    assert r.stream.assembled == m.stream.assembled + gained;
    assert History(r) == History(m) + gained;
  }

  lemma SentExtends(m: Machine, h: Header, data: Payload)
    requires Valid(m)
    ensures var r := OnSent(m, h, data);
      r.readPos == m.readPos && r.erased == m.erased && m.stream.assembled <= r.stream.assembled
  {
    hide StoredBytes, Dist, Delta, Ingest;
    DeliveredGrows(m.stream, m.keepPayload, h.seqNumber, data);
    DeliveredGrows(m.stream.(next := h.seqNumber), m.keepPayload, h.seqNumber, data);
    DeliveredGrows(m.stream.(next := Wrap(h.seqNumber + 1)), m.keepPayload, Wrap(h.seqNumber + 1), data);
  }

  /** Over every run, what `peek` shows is the plain queue. */
  lemma {:induction false} QueueIsPlain(m: Machine, events: seq<Event>)
    requires Valid(m)
    ensures Queue(Run(m, events)) == PlainQueue(Queue(m), m, events)
    decreases |events|
  {
    hide OnSent, OnReceived, Consume, Queue, History;
    if events != [] {
      var r := Apply(m, events[0]);
      match events[0] {
        case Sent(h, data) =>
          SentExtends(m, h, data);
          AppendExtends(m, r);
          assert Queue(r) == Queue(m) + Gained(m, events[0]);
        case Received(h) =>
          ReceivedKeepsQueue(m, h);
          assert Queue(r) == Queue(m) + Gained(m, events[0]);
        case Consumed(n) => ConsumeDrops(m, n);
      }
      QueueIsPlain(r, events[1..]);
    }
  }

  lemma ReceivedKeepsQueue(m: Machine, h: Header)
    requires Valid(m)
    ensures Queue(OnReceived(m, h)) == Queue(m) && History(OnReceived(m, h)) == History(m)
  {
  }

  /** The space before the read position is bounded by a constant or by what is still unread. */
  predicate LittleDeadSpace(m: Machine)
    requires Valid(m)
  {
    m.readPos <= 4096 || m.readPos <= |Queue(m)|
  }

  /** Bytes that one call copies to the front of the buffer. */
  function MovedByCall(m: Machine, e: Event): nat
    requires Valid(m)
  {
    if e.Consumed? && MustCompact(m.(readPos := m.readPos + Min(e.n, |Queue(m)|)))
    then |Queue(m)| - Min(e.n, |Queue(m)|)
    else 0
  }

  function Moved(m: Machine, events: seq<Event>): nat
    requires Valid(m)
    decreases |events|
  {
    if events == [] then 0 else MovedByCall(m, events[0]) + Moved(Apply(m, events[0]), events[1..])
  }

  /** Bytes that the reads of one run have dropped. */
  function Dropped(m: Machine, events: seq<Event>): nat
    requires Valid(m)
    decreases |events|
  {
    if events == [] then 0
    else (if events[0].Consumed? then Min(events[0].n, |Queue(m)|) else 0) + Dropped(Apply(m, events[0]), events[1..])
  }

  lemma CompactionStep(m: Machine, e: Event)
    requires Valid(m) && LittleDeadSpace(m)
    ensures var r := Apply(m, e);
      && LittleDeadSpace(r)
      && MovedByCall(m, e) + |m.erased| <= |r.erased|
      && |r.erased| + r.readPos ==
           |m.erased| + m.readPos + (if e.Consumed? then Min(e.n, |Queue(m)|) else 0)
  {
    hide OnSent, StateOnReceived, StoredBytes, Counted;
    if e.Sent? {
      SentExtends(m, e.h, e.data);
    }
  }

  lemma {:induction false} CompactionFrom(m: Machine, events: seq<Event>)
    requires Valid(m) && LittleDeadSpace(m)
    ensures LittleDeadSpace(Run(m, events))
    ensures Moved(m, events) + |m.erased| <= |Run(m, events).erased|
    ensures |Run(m, events).erased| + Run(m, events).readPos == |m.erased| + m.readPos + Dropped(m, events)
    decreases |events|
  {
    hide LittleDeadSpace, MovedByCall, Apply;
    if events != [] {
      CompactionStep(m, events[0]);
      CompactionFrom(Apply(m, events[0]), events[1..]);
    }
  }

  /**
   A read moves the unread bytes to the front exactly if more than 4096 bytes lie before them
   and more than they are themselves; else it moves nothing.
   */
  lemma CompactsExactly(m: Machine, n: nat)
    requires Valid(m)
    ensures var r, read := Consume(m, n), m.readPos + Min(n, |Queue(m)|);
      && |r.stream.assembled| - r.readPos == |Queue(m)| - Min(n, |Queue(m)|)
      && if read > 4096 && read > |m.stream.assembled| - read
         then r.readPos == 0 && r.erased == m.erased + m.stream.assembled[..read]
         else r == m.(readPos := read)
  {
  }

  /** Over every run: dead space stays small, and compaction moves at most as many bytes as were read. */
  lemma CompactionIsAmortized(keepPayload: bool, events: seq<Event>)
    ensures var m := Run(Initial(keepPayload), events);
      && LittleDeadSpace(m)
      && Moved(Initial(keepPayload), events) <= Dropped(Initial(keepPayload), events)
      && |m.erased| + m.readPos == Dropped(Initial(keepPayload), events)
  {
    CompactionFrom(Initial(keepPayload), events);
  }
}
