/** The flow table: one active flow per normalised key, retired when idle or too old. */
module FlowTable {
  import opened FlowKey

  const U64: nat := 0x1_0000_0000_0000_0000
  const DNS_PORT: nat := 53
  const HTTP_PORT: nat := 80

  type u64 = x: int | 0 <= x < 0x1_0000_0000_0000_0000

  datatype Stats = Stats(packets: nat, bytes: nat)

  datatype Flow = Flow(firstSeen: u64, lastSeen: u64, fwd: Stats, rev: Stats, isReverse: bool, keepPayload: bool) {
    function TotalBytes(): nat {
      fwd.bytes + rev.bytes
    }
  }

  datatype FlowError = UnsupportedNetworkType | UnsupportedTransportType

  /** What the table needs to know of a captured packet. */
  datatype Content = Arp | NoKey(error: FlowError) | Keyed(key: FlowKey)
  datatype Capture = Capture(content: Content, tsUs: u64, inclLen: nat)

  datatype Timeouts = Timeouts(active: u64, idle: u64)

  /** The table as a value. */
  datatype Table = Table(totalBytes: nat, flows: map<FlowKey, Flow>, completed: seq<(FlowKey, Flow)>)

  datatype Answer = Ignored | Refused(error: FlowError) | Added(key: FlowKey, isNew: bool)

  /** `a - b` in `uint64_t`. */
  function Minus(a: u64, b: u64): u64 {
    if a >= b then a - b else a - b + U64
  }

  predicate IsExpired(firstSeen: u64, lastSeen: u64, ts: u64, t: Timeouts) {
    ts >= lastSeen &&
    (ts - lastSeen > t.idle || (t.active != 0 && Minus(ts, firstSeen) > t.active))
  }

  predicate PortHasAppDecoder(k: FlowKey) {
    k.srcPort == DNS_PORT || k.dstPort == DNS_PORT || k.srcPort == HTTP_PORT || k.dstPort == HTTP_PORT
  }

  function Add(s: Stats, bytes: nat): Stats {
    Stats(s.packets + 1, s.bytes + bytes)
  }

  /** One more packet of a flow. */
  function Extend(f: Flow, ts: u64, bytes: nat, reversed: bool): Flow {
    f.(lastSeen := ts, isReverse := reversed,
       fwd := if reversed then f.fwd else Add(f.fwd, bytes),
       rev := if reversed then Add(f.rev, bytes) else f.rev)
  }

  function NewFlow(k: FlowKey, ts: u64): Flow {
    Flow(ts, ts, Stats(0, 0), Stats(0, 0), false, PortHasAppDecoder(k))
  }

  /** Retires the active flow of `k` if this packet comes too late for it. */
  function Retire(s: Table, k: FlowKey, ts: u64, t: Timeouts): Table {
    if k in s.flows && IsExpired(s.flows[k].firstSeen, s.flows[k].lastSeen, ts, t)
    then s.(completed := s.completed + [(k, s.flows[k])], flows := s.flows - {k})
    else s
  }

  /** `addPacket` for a packet that has a key. */
  function AddKeyed(s: Table, key: FlowKey, ts: u64, bytes: nat, t: Timeouts): Table {
    var (k, reversed) := Normalize(key);
    var r := Retire(s, k, ts, t);
    var f := if k in r.flows then r.flows[k] else NewFlow(k, ts);
    r.(totalBytes := r.totalBytes + bytes, flows := r.flows[k := Extend(f, ts, bytes, reversed)])
  }

  function WithPacket(s: Table, c: Capture, t: Timeouts): Table {
    if c.content.Keyed? then AddKeyed(s, c.content.key, c.tsUs, c.inclLen, t) else s
  }

  function AnswerTo(s: Table, c: Capture, t: Timeouts): Answer {
    match c.content
    case Arp => Ignored
    case NoKey(e) => Refused(e)
    case Keyed(key) =>
      var k := Normalize(key).0;
      Added(k, k !in Retire(s, k, c.tsUs, t).flows)
  }

  function CompletedBytes(completed: seq<(FlowKey, Flow)>): nat {
    if completed == [] then 0
    else CompletedBytes(completed[..|completed| - 1]) + completed[|completed| - 1].1.TotalBytes()
  }

  ghost function ActiveBytes(flows: map<FlowKey, Flow>): nat
    decreases |flows|
  {
    if flows == map[] then 0
    else
      var k :| k in flows;
      flows[k].TotalBytes() + ActiveBytes(flows - {k})
  }

  /** The sum does not depend on the order in which the map is walked. */
  lemma {:induction false} ActiveBytesSplit(flows: map<FlowKey, Flow>, k: FlowKey)
    requires k in flows
    ensures ActiveBytes(flows) == flows[k].TotalBytes() + ActiveBytes(flows - {k})
    decreases |flows|
  {
    var j :| j in flows && ActiveBytes(flows) == flows[j].TotalBytes() + ActiveBytes(flows - {j});
    if j != k {
      ActiveBytesSplit(flows - {j}, k);
      ActiveBytesSplit(flows - {k}, j);
      assert flows - {j} - {k} == flows - {k} - {j};
    }
  }

  /** Every byte counted belongs to exactly one flow, retired or active. */
  ghost predicate Conserves(s: Table) {
    s.totalBytes == CompletedBytes(s.completed) + ActiveBytes(s.flows)
  }

  lemma RetireKeepsTotal(s: Table, k: FlowKey, ts: u64, t: Timeouts)
    ensures Retire(s, k, ts, t).totalBytes == s.totalBytes
  {
  }

  lemma RetireConserves(s: Table, k: FlowKey, ts: u64, t: Timeouts)
    requires Conserves(s)
    ensures Conserves(Retire(s, k, ts, t))
  {
    var r := Retire(s, k, ts, t);
    if r != s {
      ActiveBytesSplit(s.flows, k);
      assert r.completed[..|r.completed| - 1] == s.completed;
    }
  }

  lemma UpdateConserves(flows: map<FlowKey, Flow>, k: FlowKey, f: Flow)
    ensures ActiveBytes(flows[k := f]) ==
            ActiveBytes(flows - {k}) + f.TotalBytes()
    ensures k in flows ==> ActiveBytes(flows) == ActiveBytes(flows - {k}) + flows[k].TotalBytes()
  {
    ActiveBytesSplit(flows[k := f], k);
    assert flows[k := f] - {k} == flows - {k};
    if k in flows {
      ActiveBytesSplit(flows, k);
    }
  }

  lemma PacketConserves(s: Table, c: Capture, t: Timeouts)
    requires Conserves(s)
    ensures Conserves(WithPacket(s, c, t))
  {
    if c.content.Keyed? {
      var (k, reversed) := Normalize(c.content.key);
      RetireConserves(s, k, c.tsUs, t);
      var r := Retire(s, k, c.tsUs, t);
      var f := if k in r.flows then r.flows[k] else NewFlow(k, c.tsUs);
      UpdateConserves(r.flows, k, Extend(f, c.tsUs, c.inclLen, reversed));
      if k !in r.flows {
        assert r.flows - {k} == r.flows;
      }
    }
  }

  /** The retired flows of one key, oldest first. */
  function CompletedOf(completed: seq<(FlowKey, Flow)>, k: FlowKey): seq<Flow> {
    if completed == [] then []
    else
      CompletedOf(completed[..|completed| - 1], k) +
        if completed[|completed| - 1].0 == k then [completed[|completed| - 1].1] else []
  }

  /** All flows of one key in order of time: the retired ones, then the active one. */
  function FlowsOf(s: Table, k: FlowKey): seq<Flow> {
    CompletedOf(s.completed, k) + if k in s.flows then [s.flows[k]] else []
  }

  class FlowTable {
    const timeouts: Timeouts
    var totalBytes: nat
    var flows: map<FlowKey, Flow>
    var completed: seq<(FlowKey, Flow)>

    ghost function View(): Table
      reads this
    {
      Table(totalBytes, flows, completed)
    }

    ghost predicate Valid()
      reads this
    {
      Conserves(View())
    }

    constructor (timeouts: Timeouts)
      ensures Valid() && View() == Table(0, map[], []) && this.timeouts == timeouts
    {
      this.timeouts := timeouts;
      totalBytes, flows, completed := 0, map[], [];
    }

    /** Moves the active flow of `key` to the retired ones if this packet comes too late for it. */
    method RetireExpired(key: FlowKey, tsUs: u64)
      modifies `flows, `completed
      ensures View() == Retire(old(View()), key, tsUs, timeouts)
    {
      if key in flows && IsExpired(flows[key].firstSeen, flows[key].lastSeen, tsUs, timeouts) {
        completed := completed + [(key, flows[key])];
        flows := flows - {key};
      }
    }

    method AddPacket(c: Capture) returns (answer: Answer)
      requires Valid()
      modifies this
      ensures Valid()
      ensures View() == WithPacket(old(View()), c, timeouts)
      ensures answer == AnswerTo(old(View()), c, timeouts)
    {
      PacketConserves(View(), c, timeouts);
      hide Conserves, Normalize, IsExpired, Extend, NewFlow, Retire;
      match c.content {
        case Arp => return Ignored;
        case NoKey(e) => return Refused(e);
        case Keyed(packetKey) =>
          var (key, isReverse) := Normalize(packetKey);
          RetireExpired(key, c.tsUs);
          totalBytes := totalBytes + c.inclLen;
          RetireKeepsTotal(old(View()), key, c.tsUs, timeouts);
          var isNew := key !in flows;
          var flow := if isNew then NewFlow(key, c.tsUs) else flows[key];
          flows := flows[key := Extend(flow, c.tsUs, c.inclLen, isReverse)];
          return Added(key, isNew);
      }
    }

    /** Retires every active flow, in the map's own order. */
    method Flush()
      requires Valid()
      modifies this
      ensures Valid() && flows == map[] && totalBytes == old(totalBytes)
      ensures old(completed) <= completed && |completed| == |old(completed)| + |old(flows)|
      ensures forall k :: CompletedOf(completed, k) == FlowsOf(old(View()), k)
    {
      while flows != map[]
        invariant Valid() && totalBytes == old(totalBytes)
        invariant old(completed) <= completed && |completed| + |flows| == |old(completed)| + |old(flows)|
        invariant forall k :: FlowsOf(View(), k) == FlowsOf(old(View()), k)
        decreases |flows|
      {
        var key :| key in flows;
        ghost var before := View();
        RetireOneKeeps(before, key);
        completed := completed + [(key, flows[key])];
        flows := flows - {key};
      }
    }
  }

  lemma RetireOneKeeps(s: Table, key: FlowKey)
    requires key in s.flows
    ensures var r := s.(completed := s.completed + [(key, s.flows[key])], flows := s.flows - {key});
      && (Conserves(s) ==> Conserves(r)) && |r.flows| + 1 == |s.flows|
      && forall k :: FlowsOf(r, k) == FlowsOf(s, k)
  {
    var r := s.(completed := s.completed + [(key, s.flows[key])], flows := s.flows - {key});
    ActiveBytesSplit(s.flows, key);
    assert r.completed[..|r.completed| - 1] == s.completed;
    assert r.flows.Keys == s.flows.Keys - {key};
  }
}
