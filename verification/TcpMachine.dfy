/** The whole reassembler as a value: connection state, stream, pending FIN and read buffer. */
module TcpMachine {
  import opened Bytes
  import opened SeqNumber
  import opened TcpStream

  datatype TcpState =
    | Unknown | Closed | Listen | SynSent | SynReceived | Established
    | FinWait1 | FinWait2 | CloseWait | Closing | LastAck | TimeWait

  /** The header fields the reassembler looks at. */
  datatype Header = Header(seqNumber: u32, ackNumber: u32, syn: bool, ack: bool, fin: bool, rst: bool)

  /** `erased` is a history variable: the bytes that compaction has removed from `stream.assembled`. */
  datatype Machine = Machine(
    state: TcpState, stream: Stream, finSeen: bool, finSeq: u32,
    seeded: bool, keepPayload: bool, readPos: nat, erased: seq<byte>)

  predicate Valid(m: Machine) {
    Counted(m.stream) && m.readPos <= |m.stream.assembled|
  }

  function Initial(keepPayload: bool): Machine {
    Machine(Unknown, Stream(0, 0, [], 0, []), false, 0, false, keepPayload, 0, [])
  }

  /** `ingest` on the stream, before the FIN is looked at. */
  function AfterIngest(m: Machine, seqNumber: u32, data: Payload): (r: Machine)
    requires Valid(m)
    ensures Valid(r)
  {
    DeliveredGrows(m.stream, m.keepPayload, seqNumber, data);
    m.(stream := Ingest(m.stream, m.keepPayload, seqNumber, data))
  }

  lemma DrainGrows(s: Stream)
    requires Counted(s)
    ensures s.assembled <= Drain(s).assembled && s.pos <= Drain(s).pos
    decreases |s.store|
  {
    if s.store != [] && Delta(s.store[0].seqNumber, s.next) <= 0 {
      DrainGrows(Absorb(s));
    }
  }

  /** Bytes handed up are never taken back or changed, and the position never moves back. */
  lemma DeliveredGrows(s: Stream, keepPayload: bool, seqNumber: u32, data: Payload)
    requires Counted(s)
    ensures s.assembled <= Ingest(s, keepPayload, seqNumber, data).assembled
    ensures s.pos <= Ingest(s, keepPayload, seqNumber, data).pos
  {
    if keepPayload && seqNumber == s.next {
      DrainGrows(Append(s, data));
    } else if keepPayload && Delta(seqNumber, s.next) < 0 && Dist(s.next, seqNumber) < |data| {
      DrainGrows(Append(s, data[Dist(s.next, seqNumber)..]));
    }
  }

  /** The FIN that is pending once this packet's own FIN has been noted. */
  function NoteFin(m: Machine, h: Header, data: Payload): Machine {
    if h.fin then m.(finSeen := true, finSeq := Wrap(h.seqNumber + |data|)) else m
  }

  predicate FinDue(m: Machine) {
    m.finSeen && Delta(m.stream.next, m.finSeq) >= 0
  }

  /** The FIN occupies one sequence number and closes this direction. */
  function TakeFin(m: Machine): Machine {
    m.(stream := m.stream.(next := Wrap(m.stream.next + 1), pos := m.stream.pos + 1),
       finSeen := false,
       state := if m.state == CloseWait then LastAck else FinWait1)
  }

  function OnData(m: Machine, h: Header, data: Payload): (r: Machine)
    requires Valid(m)
    ensures Valid(r)
  {
    var n := NoteFin(AfterIngest(m, h.seqNumber, data), h, data);
    if FinDue(n) then TakeFin(n) else n
  }

  /** `next_seq` as the first packet sets it. */
  function Seed(m: Machine, next: u32, state: TcpState): Machine {
    m.(stream := m.stream.(next := next), seeded := true, state := state)
  }

  function OnSent(m: Machine, h: Header, data: Payload): (r: Machine)
    requires Valid(m)
    ensures Valid(r)
  {
    if h.rst then m.(state := Closed)
    else if !m.seeded then
      if h.syn then
        var next := Wrap(h.seqNumber + 1);
        AfterIngest(Seed(m, next, if h.ack then SynReceived else SynSent), next, data)
      else if h.ack then
        OnData(Seed(m, h.seqNumber, if m.state != CloseWait then Established else CloseWait), h, data)
      else m
    else if m.state == SynSent && h.ack && !h.syn then OnData(m.(state := Established), h, data)
    else if m.state == Established || m.state == CloseWait then OnData(m, h, data)
    else m
  }

  /** The received segment acknowledges everything sent so far. */
  predicate AcksAll(m: Machine, h: Header) {
    h.ack && Delta(h.ackNumber, m.stream.next) >= 0
  }

  function StateOnReceived(m: Machine, h: Header): TcpState {
    if h.rst then Closed
    else match m.state
      case Unknown | Closed | Listen =>
        if h.syn && !h.ack then Listen
        else if h.ack && !h.syn then (if h.fin then CloseWait else Established)
        else m.state
      case SynSent => if h.syn && !h.ack then SynReceived else SynSent
      case SynReceived =>
        if h.ack && !h.syn then (if h.fin then CloseWait else Established) else SynReceived
      case Established => if h.fin then CloseWait else Established
      case FinWait1 =>
        if h.fin && AcksAll(m, h) then TimeWait
        else if h.fin then Closing
        else if AcksAll(m, h) then FinWait2
        else FinWait1
      case FinWait2 => if h.fin then TimeWait else FinWait2
      case Closing => if AcksAll(m, h) then TimeWait else Closing
      case LastAck => if AcksAll(m, h) then Closed else LastAck
      case TimeWait => TimeWait
      case CloseWait => CloseWait
  }

  function OnReceived(m: Machine, h: Header): Machine {
    m.(state := StateOnReceived(m, h))
  }

  /** What `peek` shows. */
  function Queue(m: Machine): seq<byte>
    requires Valid(m)
  {
    m.stream.assembled[m.readPos..]
  }

  predicate MustCompact(m: Machine) {
    m.readPos > MIN_COMPACT_BYTES && m.readPos > |m.stream.assembled| / 2
  }

  function Compacted(m: Machine): (r: Machine)
    requires Valid(m)
    ensures Valid(r)
  {
    if MustCompact(m)
    then m.(stream := m.stream.(assembled := m.stream.assembled[m.readPos..]), readPos := 0,
            erased := m.erased + m.stream.assembled[..m.readPos])
    else m
  }

  function Consume(m: Machine, n: nat): (r: Machine)
    requires Valid(m)
    ensures Valid(r)
  {
    var available := |m.stream.assembled| - m.readPos;
    Compacted(m.(readPos := m.readPos + if n <= available then n else available))
  }

  predicate HasReadableData(m: Machine) {
    m.state == Established || m.state == FinWait1 || m.state == FinWait2
  }

  /** Everything ever handed up, compacted or not. */
  function History(m: Machine): seq<byte> {
    m.erased + m.stream.assembled
  }

  /** One call on the reassembler. */
  datatype Event = Sent(h: Header, data: Payload) | Received(h: Header) | Consumed(n: nat)

  function Apply(m: Machine, e: Event): (r: Machine)
    requires Valid(m)
    ensures Valid(r)
  {
    match e
    case Sent(h, data) => OnSent(m, h, data)
    case Received(h) => OnReceived(m, h)
    case Consumed(n) => Consume(m, n)
  }

  function Run(m: Machine, events: seq<Event>): (r: Machine)
    requires Valid(m)
    ensures Valid(r)
    decreases |events|
  {
    if events == [] then m else Run(Apply(m, events[0]), events[1..])
  }
}
