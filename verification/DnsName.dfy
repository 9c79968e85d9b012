/** Domain names in a message: the one-pass decompressing parser against the recursive meaning of a name. */
module DnsName {
  import opened Bytes

  const MAX_JUMPS: nat := 10
  const MAX_NAME_OCTETS: nat := 255
  const DOT: byte := 46

  /** A parsed name and the position just after it, or the reason there is none. */
  datatype NameResult = Named(name: seq<byte>, next: nat) | Failed(error: ParseError)

  predicate IsPointer(b: byte) {
    b >= 0xC0
  }

  /** Where a pointer points: the low 14 bits of its two bytes. */
  function Target(msg: seq<byte>, at: nat): nat
    requires at + 1 < |msg| && IsPointer(msg[at])
  {
    var high: nat := msg[at] - 0xC0;
    high * 256 + msg[at + 1]
  }

  /** A label is set off from what precedes it by a dot. */
  function AppendLabel(name: seq<byte>, part: seq<byte>): seq<byte> {
    if name == [] then part else name + [DOT] + part
  }

  /**
   The parser's variables. `next` is the position after the name, known from the first jump
   on; `ceiling` is the target of the last jump.
   */
  datatype Cursor = Cursor(cur: nat, jumps: nat, octets: nat, ceiling: nat, name: seq<byte>, next: nat)

  datatype Progress = Done(r: NameResult) | More(c: Cursor)

  /** One iteration of the parser's loop. */
  function Step(msg: seq<byte>, c: Cursor): (p: Progress)
    ensures p.More? ==> p.c.octets >= c.octets && p.c.jumps >= c.jumps
    ensures p.More? ==> p.c.jumps == c.jumps ==> c.cur < p.c.cur <= |msg|
    ensures p.More? && p.c.jumps > c.jumps ==> p.c.jumps <= MAX_JUMPS
  {
    if c.cur >= |msg| then Done(Failed(UnexpectedEof))
    else if msg[c.cur] == 0 then Done(Named(c.name, if c.jumps == 0 then c.cur + 1 else c.next))
    else if IsPointer(msg[c.cur]) then
      if c.cur + 1 >= |msg| then Done(Failed(UnexpectedEof))
      else if c.jumps + 1 > MAX_JUMPS then Done(Failed(MalformedHeader))
      else
        var target := Target(msg, c.cur);
        if target >= (if c.jumps == 0 then c.cur else c.ceiling) then Done(Failed(MalformedHeader))
        else More(c.(cur := target, jumps := c.jumps + 1, ceiling := target,
                     next := if c.jumps == 0 then c.cur + 2 else c.next))
    else if msg[c.cur] >= 0x40 then Done(Failed(MalformedHeader))
    else
      var len: nat := msg[c.cur];
      var from, to := c.cur + 1, c.cur + 1 + len;
      if to > |msg| then Done(Failed(UnexpectedEof))
      else if c.octets + len + 1 > MAX_NAME_OCTETS then Done(Failed(MalformedHeader))
      else More(c.(cur := to, octets := c.octets + len + 1, name := AppendLabel(c.name, msg[from..to])))
  }

  function Walk(msg: seq<byte>, c: Cursor): NameResult
    requires c.jumps <= MAX_JUMPS
    decreases MAX_JUMPS - c.jumps, |msg| - c.cur
  {
    match Step(msg, c)
    case Done(r) => r
    case More(c') => Walk(msg, c')
  }

  function Begin(at: nat): Cursor {
    Cursor(at, 0, 0, 0, [], 0)
  }

  function NameAt(msg: seq<byte>, at: nat): NameResult {
    Walk(msg, Begin(at))
  }

  method ParseName(msg: seq<byte>, at: nat) returns (r: NameResult)
    ensures r == NameAt(msg, at)
  {
    var cur: nat, jumps: nat, octets: nat, ceiling: nat, next: nat := at, 0, 0, 0, 0;
    var name: seq<byte> := [];
    while cur < |msg|
      invariant jumps <= MAX_JUMPS
      invariant Walk(msg, Cursor(cur, jumps, octets, ceiling, name, next)) == NameAt(msg, at)
      decreases MAX_JUMPS - jumps, |msg| - cur
    {
      hide Walk, Target, IsPointer;
      ghost var c := Cursor(cur, jumps, octets, ceiling, name, next);
      WalkUnrolls(msg, c);
      if msg[cur] == 0 {
        if jumps == 0 {
          next := cur + 1;
        }
        return Named(name, next);
      }
      if IsPointer(msg[cur]) {
        if cur + 1 >= |msg| { return Failed(UnexpectedEof); }
        jumps := jumps + 1;
        if jumps > MAX_JUMPS { return Failed(MalformedHeader); }
        if jumps == 1 {
          next := cur + 2;
        }
        var target := Target(msg, cur);
        var limit := if jumps == 1 then cur else ceiling;
        if target >= limit { return Failed(MalformedHeader); }
        ceiling := target;
        cur := target;
        assert Step(msg, c) == More(Cursor(cur, jumps, octets, ceiling, name, next));
        continue;
      }
      if msg[cur] >= 0x40 { return Failed(MalformedHeader); }
      var len: nat := msg[cur];
      cur := cur + 1;
      if cur + len > |msg| { return Failed(UnexpectedEof); }
      octets := octets + len + 1;
      if octets > MAX_NAME_OCTETS { return Failed(MalformedHeader); }
      if name != [] {
        name := name + [DOT];
      }
      name := name + msg[cur..cur + len];
      cur := cur + len;
      assert name == AppendLabel(c.name, msg[cur - len..cur]);
      assert Step(msg, c) == More(Cursor(cur, jumps, octets, ceiling, name, next));
    }
    return Failed(UnexpectedEof);
  }

  lemma WalkUnrolls(msg: seq<byte>, c: Cursor)
    requires c.jumps <= MAX_JUMPS
    ensures Step(msg, c).Done? ==> Walk(msg, c) == Step(msg, c).r
    ensures Step(msg, c).More? ==> Walk(msg, c) == Walk(msg, Step(msg, c).c)
  {
  }

  /**
   The meaning of a name by section 4.1.4 of RFC 1035: labels ending in the root, labels
   ending in a pointer to a name, or a pointer alone. `at` is where each part is written.
   */
  datatype Expansion =
    | Root(at: nat)
    | Label(at: nat, rest: Expansion)
    | Pointer(at: nat, rest: Expansion)

  /** The expansion is what the message says. */
  predicate Spells(msg: seq<byte>, e: Expansion) {
    match e
    case Root(at) => at < |msg| && msg[at] == 0
    case Label(at, rest) =>
      && at < |msg| && 0 < msg[at] < 0x40
      && at + 1 + msg[at] as int <= |msg|
      && rest.at == at + 1 + msg[at] as int
      && Spells(msg, rest)
    case Pointer(at, rest) =>
      && at + 1 < |msg| && IsPointer(msg[at])
      && rest.at == Target(msg, at)
      && Spells(msg, rest)
  }

  function Labels(msg: seq<byte>, e: Expansion): seq<seq<byte>>
    requires Spells(msg, e)
  {
    match e
    case Root(_) => []
    case Label(at, rest) => [msg[at + 1..rest.at]] + Labels(msg, rest)
    case Pointer(_, rest) => Labels(msg, rest)
  }

  function Jumps(e: Expansion): nat {
    match e
    case Root(_) => 0
    case Label(_, rest) => Jumps(rest)
    case Pointer(_, rest) => 1 + Jumps(rest)
  }

  /** Octets of the name, each label with its length octet, the root not counted. */
  function Octets(labels: seq<seq<byte>>): nat {
    if labels == [] then 0 else |labels[0]| + 1 + Octets(labels[1..])
  }

  /** The first pointer points before itself, every later one before the previous target. */
  predicate Descends(e: Expansion, ceiling: Option<nat>) {
    match e
    case Root(_) => true
    case Label(_, rest) => Descends(rest, ceiling)
    case Pointer(at, rest) =>
      rest.at < (if ceiling.None? then at else ceiling.value) && Descends(rest, Some(rest.at))
  }

  /** The position after the name where it is written: past the first root or pointer. */
  function EndOf(e: Expansion): nat {
    match e
    case Root(at) => at + 1
    case Label(_, rest) => EndOf(rest)
    case Pointer(at, _) => at + 2
  }

  function JoinOnto(name: seq<byte>, labels: seq<seq<byte>>): seq<byte>
    decreases |labels|
  {
    if labels == [] then name else JoinOnto(AppendLabel(name, labels[0]), labels[1..])
  }

  function Dotted(labels: seq<seq<byte>>): seq<byte> {
    JoinOnto([], labels)
  }

  /** The labels with an ASCII dot between any two. */
  function Joined(labels: seq<seq<byte>>): seq<byte> {
    if labels == [] then []
    else if |labels| == 1 then labels[0]
    else labels[0] + [46] + Joined(labels[1..])
  }

  lemma {:induction false} JoinedOnto(name: seq<byte>, labels: seq<seq<byte>>)
    requires name != [] && forall l :: l in labels ==> IsLabel(l)
    ensures JoinOnto(name, labels) == if labels == [] then name else name + [46] + Joined(labels)
    decreases |labels|
  {
    if labels != [] {
      assert IsLabel(labels[0]);
      var longer := name + [46] + labels[0];
      JoinedOnto(longer, labels[1..]);
      if |labels| > 1 {
        assert longer + [46] + Joined(labels[1..]) == name + [46] + (labels[0] + [46] + Joined(labels[1..]));
      }
    }
  }

  lemma DottedIsJoined(labels: seq<seq<byte>>)
    requires forall l :: l in labels ==> IsLabel(l)
    ensures Dotted(labels) == Joined(labels)
  {
    if labels != [] {
      assert IsLabel(labels[0]);
      JoinedOnto(labels[0], labels[1..]);
    }
  }

  /** An expansion the parser accepts, standing at `at`. */
  predicate Acceptable(msg: seq<byte>, at: nat, e: Expansion) {
    && e.at == at && Spells(msg, e)
    && Jumps(e) <= MAX_JUMPS
    && Octets(Labels(msg, e)) <= MAX_NAME_OCTETS
    && Descends(e, None)
  }

  /** A message says at most one thing at each position. */
  lemma {:induction false} SpellingIsUnique(msg: seq<byte>, e: Expansion, f: Expansion)
    requires Spells(msg, e) && Spells(msg, f) && e.at == f.at
    ensures e == f
  {
    match e {
      case Root(_) =>
      case Label(_, rest) => SpellingIsUnique(msg, rest, f.rest);
      case Pointer(_, rest) => SpellingIsUnique(msg, rest, f.rest);
    }
  }

  /** The cursor's ceiling as the limit on the next pointer. */
  function Limit(c: Cursor): Option<nat> {
    if c.jumps == 0 then None else Some(c.ceiling)
  }

  /** The part of an expansion still to be read is within what the cursor has left. */
  predicate Remains(msg: seq<byte>, c: Cursor, e: Expansion) {
    && e.at == c.cur && Spells(msg, e)
    && c.jumps + Jumps(e) <= MAX_JUMPS
    && c.octets + Octets(Labels(msg, e)) <= MAX_NAME_OCTETS
    && Descends(e, Limit(c))
  }

  /** The result of reading the rest of an expansion. */
  function Reads(msg: seq<byte>, c: Cursor, e: Expansion): NameResult
    requires Spells(msg, e)
  {
    Named(JoinOnto(c.name, Labels(msg, e)), if c.jumps == 0 then EndOf(e) else c.next)
  }

  /** One iteration reads one part of the expansion. */
  lemma StepReads(msg: seq<byte>, c: Cursor, e: Expansion)
    requires Spells(msg, e) && e.at == c.cur
    ensures e.Root? ==> Step(msg, c) == Done(Reads(msg, c, e))
    ensures !e.Root? && Remains(msg, c, e) ==> Step(msg, c).More? && Remains(msg, Step(msg, c).c, e.rest)
    ensures !e.Root? && Step(msg, c).More? ==>
              e.rest.at == Step(msg, c).c.cur && Reads(msg, c, e) == Reads(msg, Step(msg, c).c, e.rest)
    ensures !e.Root? && Step(msg, c).More? && Remains(msg, Step(msg, c).c, e.rest) ==> Remains(msg, c, e)
  {
    if e.Label? {
      var part := msg[e.at + 1..e.rest.at];
      assert Labels(msg, e)[0] == part && Labels(msg, e)[1..] == Labels(msg, e.rest);
    }
  }

  /** `Walk` reads any expansion that is within the limits. */
  lemma {:induction false} WalkFollows(msg: seq<byte>, c: Cursor, e: Expansion)
    requires Remains(msg, c, e)
    ensures Walk(msg, c) == Reads(msg, c, e)
    decreases e
  {
    hide Step, Reads;
    StepReads(msg, c, e);
    if !e.Root? {
      WalkFollows(msg, Step(msg, c).c, e.rest);
    }
  }

  /** When `Walk` succeeds it has read an expansion that is within the limits. */
  lemma {:induction false} WalkFinds(msg: seq<byte>, c: Cursor) returns (e: Expansion)
    requires c.jumps <= MAX_JUMPS && c.octets <= MAX_NAME_OCTETS && Walk(msg, c).Named?
    ensures Remains(msg, c, e)
    decreases MAX_JUMPS - c.jumps, |msg| - c.cur
  {
    var p := Step(msg, c);
    if p.Done? {
      e := Root(c.cur);
    } else {
      var rest := WalkFinds(msg, p.c);
      e := if IsPointer(msg[c.cur]) then Pointer(c.cur, rest) else Label(c.cur, rest);
      StepReads(msg, c, e);
    }
  }

  /**
   The parser succeeds exactly when the name at that position has an expansion within the
   limits, and then returns its labels joined by dots and the position after it.
   */
  lemma NameMeansItsExpansion(msg: seq<byte>, at: nat)
    ensures NameAt(msg, at).Named? <==> exists e :: Acceptable(msg, at, e)
    ensures forall e :: Acceptable(msg, at, e) ==>
              NameAt(msg, at) == Named(Dotted(Labels(msg, e)), EndOf(e)) && at < EndOf(e) <= |msg|
  {
    if NameAt(msg, at).Named? {
      var e := WalkFinds(msg, Begin(at));
      assert Acceptable(msg, at, e);
    }
    forall e | Acceptable(msg, at, e)
      ensures NameAt(msg, at) == Named(Dotted(Labels(msg, e)), EndOf(e)) && at < EndOf(e) <= |msg|
    {
      WalkFollows(msg, Begin(at), e);
      EndIsInside(msg, e);
    }
  }

  lemma {:induction false} EndIsInside(msg: seq<byte>, e: Expansion)
    requires Spells(msg, e)
    ensures e.at < EndOf(e) <= |msg|
  {
    if e.Label? { EndIsInside(msg, e.rest); }
  }

  /** A successful parse moves forward and stays inside the message. */
  lemma NameMovesForward(msg: seq<byte>, at: nat)
    ensures NameAt(msg, at).Named? ==> at < NameAt(msg, at).next <= |msg|
  {
    NameMeansItsExpansion(msg, at);
  }

  predicate IsLabel(part: seq<byte>) {
    0 < |part| < 0x40
  }

  /** The wire form of a name without compression. */
  function Encode(labels: seq<seq<byte>>): seq<byte>
    requires forall l :: l in labels ==> IsLabel(l)
  {
    if labels == [] then [0]
    else
      assert IsLabel(labels[0]);
      [|labels[0]|] + labels[0] + Encode(labels[1..])
  }

  lemma {:induction false} EncodeLength(labels: seq<seq<byte>>)
    requires forall l :: l in labels ==> IsLabel(l)
    ensures |Encode(labels)| == Octets(labels) + 1
  {
    if labels != [] {
      EncodeLength(labels[1..]);
    }
  }

  /** An encoded name, wherever it stands, spells its labels. */
  lemma {:induction false} EncodedSpells(before: seq<byte>, labels: seq<seq<byte>>, after: seq<byte>)
    returns (e: Expansion)
    requires forall l :: l in labels ==> IsLabel(l)
    ensures var msg := before + Encode(labels) + after;
      && Spells(msg, e) && e.at == |before| && Labels(msg, e) == labels
      && Jumps(e) == 0 && Descends(e, None) && EndOf(e) == |before| + |Encode(labels)|
    decreases |labels|
  {
    var msg := before + Encode(labels) + after;
    if labels == [] {
      e := Root(|before|);
    } else {
      var l := labels[0];
      assert IsLabel(l);
      var head: seq<byte> := [|l|] + l;
      assert msg == before + head + Encode(labels[1..]) + after;
      var rest := EncodedSpells(before + head, labels[1..], after);
      e := Label(|before|, rest);
      assert msg[|before|] == |l|;
      assert msg[|before| + 1..rest.at] == l;
      assert Labels(msg, e) == [l] + labels[1..] == labels;
    }
  }

  /**
   Round trip, with the exact length limit. An uncompressed name is read back whole exactly
   when its wire form has at most 256 octets: the root octet is not counted, so the parser
   is one octet laxer than section 2.3.4 of RFC 1035.
   */
  lemma EncodedNameIsReadBack(before: seq<byte>, labels: seq<seq<byte>>, after: seq<byte>)
    requires forall l :: l in labels ==> IsLabel(l)
    ensures var r := NameAt(before + Encode(labels) + after, |before|);
      if |Encode(labels)| <= 256
      then r == Named(Dotted(labels), |before| + |Encode(labels)|)
      else r.Failed?
  {
    var msg := before + Encode(labels) + after;
    EncodeLength(labels);
    var e := EncodedSpells(before, labels, after);
    NameMeansItsExpansion(msg, |before|);
    if Acceptable(msg, |before|, e) {
    } else {
      forall f | Acceptable(msg, |before|, f)
        ensures false
      {
        SpellingIsUnique(msg, e, f);
      }
    }
  }
}
