/**
 Compressed names, told by writing them: labels and pointers as octets, in chains of any
 length, read back with the exact limits.
 */
module DnsCompression {
  import opened Bytes
  import opened DnsName

  /** These octets stand in the message at this position. */
  predicate Stands(msg: seq<byte>, at: nat, octets: seq<byte>) {
    at + |octets| <= |msg| && msg[at..at + |octets|] == octets
  }

  /** Labels as they are written, each behind its length, with nothing at their end. */
  function Written(labels: seq<seq<byte>>): seq<byte>
    requires forall l :: l in labels ==> IsLabel(l)
  {
    if labels == [] then []
    else
      assert IsLabel(labels[0]);
      [|labels[0]|] + labels[0] + Written(labels[1..])
  }

  /** The two octets of a pointer: the two high bits set, and fourteen bits of position. */
  function PointerTo(t: nat): seq<byte>
    requires t < 0x4000
  {
    [192 + t / 256, t % 256]
  }

  /** Labels written at a position. */
  datatype Link = Link(at: nat, labels: seq<seq<byte>>)

  predicate HasLabels(link: Link) {
    forall l :: l in link.labels ==> IsLabel(l)
  }

  function AfterLabels(link: Link): nat
    requires HasLabels(link)
  {
    link.at + |Written(link.labels)|
  }

  /**
   A name as it is written: the labels of each link stand at its position, behind them a
   pointer to the next link, and behind those of the last link the root.
   */
  predicate Writes(msg: seq<byte>, chain: seq<Link>) {
    && chain != [] && HasLabels(chain[0])
    && if |chain| == 1 then Stands(msg, chain[0].at, Written(chain[0].labels) + [0])
       else
         && chain[1].at < 0x4000
         && Stands(msg, chain[0].at, Written(chain[0].labels) + PointerTo(chain[1].at))
         && Writes(msg, chain[1..])
  }

  /** The first pointer points before itself, and each later one before where the one before it points. */
  predicate PointsBack(chain: seq<Link>, before: nat)
    decreases |chain|
  {
    |chain| <= 1 || (chain[1].at < before && PointsBack(chain[1..], chain[1].at))
  }

  function AllLabels(chain: seq<Link>): seq<seq<byte>> {
    if chain == [] then [] else chain[0].labels + AllLabels(chain[1..])
  }

  /** Octets of the name: each label and its length, the root not counted. */
  function OctetsOf(labels: seq<seq<byte>>): nat {
    if labels == [] then 0 else 1 + |labels[0]| + OctetsOf(labels[1..])
  }

  lemma {:induction false} OctetsAreOctets(labels: seq<seq<byte>>)
    ensures Octets(labels) == OctetsOf(labels)
  {
    if labels != [] {
      OctetsAreOctets(labels[1..]);
    }
  }

  lemma PointerIsRead(msg: seq<byte>, at: nat, t: nat)
    requires t < 0x4000 && Stands(msg, at, PointerTo(t))
    ensures at + 1 < |msg| && IsPointer(msg[at]) && Target(msg, at) == t
  {
    assert msg[at..at + 2][0] == msg[at] && msg[at..at + 2][1] == msg[at + 1];
  }

  lemma StandsSplit(msg: seq<byte>, at: nat, a: seq<byte>, b: seq<byte>)
    requires Stands(msg, at, a + b)
    ensures Stands(msg, at, a) && Stands(msg, at + |a|, b)
  {
    var all := msg[at..at + |a + b|];
    assert all[..|a|] == a && all[|a|..] == b;
    assert all[..|a|] == msg[at..at + |a|] && all[|a|..] == msg[at + |a|..at + |a| + |b|];
  }

  lemma OneLabelSpells(msg: seq<byte>, at: nat, l: seq<byte>, rest: Expansion)
    requires IsLabel(l) && Stands(msg, at, [|l|] + l) && Spells(msg, rest) && rest.at == at + 1 + |l|
    ensures Spells(msg, Label(at, rest)) && Labels(msg, Label(at, rest)) == [l] + Labels(msg, rest)
    ensures Jumps(Label(at, rest)) == Jumps(rest) && EndOf(Label(at, rest)) == EndOf(rest)
    ensures forall c :: Descends(Label(at, rest), c) <==> Descends(rest, c)
  {
    var head: seq<byte> := [|l|] + l;
    assert msg[at..at + |head|][0] == msg[at] == |l|;
    assert msg[at + 1..at + |head|] == msg[at..at + |head|][1..] == l;
  }

  /** `e` stands at `at` and spells these labels and then what `rest` spells. */
  ghost predicate Prefixes(msg: seq<byte>, e: Expansion, at: nat, labels: seq<seq<byte>>, rest: Expansion) {
    && Spells(msg, e) && Spells(msg, rest) && e.at == at && Labels(msg, e) == labels + Labels(msg, rest)
    && Jumps(e) == Jumps(rest) && EndOf(e) == EndOf(rest)
    && Descends(e, None) == Descends(rest, None)
    && forall c :: Descends(e, Some(c)) <==> Descends(rest, Some(c))
  }

  /** One more label in front. */
  lemma LabelPrefixes(msg: seq<byte>, at: nat, l: seq<byte>, e: Expansion, labels: seq<seq<byte>>, rest: Expansion)
    requires IsLabel(l) && Stands(msg, at, LengthAndLabel(l)) && Prefixes(msg, e, at + 1 + |l|, labels, rest)
    ensures Prefixes(msg, Label(at, e), at, [l] + labels, rest)
  {
    hide Stands, IsLabel, Jumps, EndOf, Descends, Labels, Spells;
    OneLabelSpells(msg, at, l, e);
    assert [l] + (labels + Labels(msg, rest)) == [l] + labels + Labels(msg, rest);
  }

  /** Labels in front of what is already spelled. */
  lemma {:induction false} LabelsSpell(msg: seq<byte>, at: nat, labels: seq<seq<byte>>, rest: Expansion)
    returns (e: Expansion)
    requires forall l :: l in labels ==> IsLabel(l)
    requires Stands(msg, at, Written(labels)) && Spells(msg, rest) && rest.at == at + |Written(labels)|
    ensures Prefixes(msg, e, at, labels, rest)
    decreases |labels|
  {
    hide Stands, IsLabel, Jumps, EndOf, Descends, Labels, Spells;
    if labels == [] {
      e := rest;
      assert labels + Labels(msg, rest) == Labels(msg, rest);
    } else {
      var l, others := labels[0], labels[1..];
      assert l in labels && [l] + others == labels;
      var head := LengthAndLabel(l);
      assert Written(labels) == head + Written(others);
      hide Written, Prefixes;
      StandsSplit(msg, at, head, Written(others));
      var inner := LabelsSpell(msg, at + |head|, others, rest);
      LabelPrefixes(msg, at, l, inner, others, rest);
      e := Label(at, inner);
    }
  }

  function LengthAndLabel(l: seq<byte>): (s: seq<byte>)
    requires IsLabel(l)
    ensures s == [|l|] + l
  {
    [|l|] + l
  }

  function EndOfChain(chain: seq<Link>): nat
    requires chain != [] && HasLabels(chain[0])
  {
    AfterLabels(chain[0]) + if |chain| == 1 then 1 else 2
  }

  /** What is written spells the labels of all links. */
  lemma {:induction false} ChainSpells(msg: seq<byte>, chain: seq<Link>) returns (e: Expansion)
    requires Writes(msg, chain)
    ensures Spells(msg, e) && e.at == chain[0].at && Labels(msg, e) == AllLabels(chain)
    ensures Jumps(e) == |chain| - 1 && EndOf(e) == EndOfChain(chain)
    ensures Descends(e, None) <==> PointsBack(chain, AfterLabels(chain[0]))
    ensures forall c :: Descends(e, Some(c)) <==> PointsBack(chain, c)
    decreases |chain|
  {
    hide Stands;
    var first := chain[0];
    var end := AfterLabels(first);
    if |chain| == 1 {
      StandsSplit(msg, first.at, Written(first.labels), [0]);
      RootIsRead(msg, end);
      e := LabelsSpell(msg, first.at, first.labels, Root(end));
      assert chain[1..] == [];
      assert AllLabels(chain) == first.labels + [] == first.labels;
    } else {
      var next := chain[1].at;
      StandsSplit(msg, first.at, Written(first.labels), PointerTo(next));
      PointerIsRead(msg, end, next);
      var tail := ChainSpells(msg, chain[1..]);
      e := LabelsSpell(msg, first.at, first.labels, Pointer(end, tail));
    }
  }

  lemma RootIsRead(msg: seq<byte>, at: nat)
    requires Stands(msg, at, [0])
    ensures Spells(msg, Root(at))
  {
    assert msg[at..at + 1][0] == msg[at];
  }

  /**
   Compression, read back. Whatever the links of a name are and wherever they stand: the name
   is read exactly if it has at most ten pointers, they point back, and its octets without the
   root are at most 255; then it is the labels of all links joined by dots, and what follows
   it stands two octets behind the first labels if a pointer does, else one.
   */
  lemma ChainIsReadBack(msg: seq<byte>, chain: seq<Link>)
    requires Writes(msg, chain)
    ensures var r := NameAt(msg, chain[0].at);
      if |chain| - 1 <= 10 && PointsBack(chain, AfterLabels(chain[0])) && OctetsOf(AllLabels(chain)) <= 255
      then r == Named(Joined(AllLabels(chain)), EndOfChain(chain))
      else r.Failed?
  {
    var e := ChainSpells(msg, chain);
    hide NameAt, Spells, Descends, Writes, AllLabels, PointsBack, OctetsOf, Octets, Joined, Dotted;
    NameMeansItsExpansion(msg, chain[0].at);
    AllAreLabels(msg, chain);
    DottedIsJoined(AllLabels(chain));
    OctetsAreOctets(AllLabels(chain));
    forall f | Acceptable(msg, chain[0].at, f)
      ensures f == e
    {
      SpellingIsUnique(msg, e, f);
    }
  }

  lemma {:induction false} AllAreLabels(msg: seq<byte>, chain: seq<Link>)
    requires Writes(msg, chain)
    ensures forall l :: l in AllLabels(chain) ==> IsLabel(l)
    decreases |chain|
  {
    hide Stands, IsLabel;
    if |chain| > 1 {
      AllAreLabels(msg, chain[1..]);
    } else {
      assert chain[1..] == [];
    }
  }

  /** The ordinary case: labels and a pointer to a name that stands earlier, written in full. */
  lemma PointerIsFollowed(msg: seq<byte>, t: nat, labels: seq<seq<byte>>, at: nat, first: seq<seq<byte>>)
    requires (forall l :: l in labels ==> IsLabel(l)) && forall l :: l in first ==> IsLabel(l)
    requires t < 0x4000 && t < at && Stands(msg, t, Written(labels) + [0])
    requires Stands(msg, at, Written(first) + [192 + t / 256, t % 256])
    requires OctetsOf(first + labels) <= 255
    ensures NameAt(msg, at) == Named(Joined(first + labels), at + |Written(first)| + 2)
  {
    hide NameAt, Stands, IsLabel, Joined, OctetsOf, Written;
    var chain := [Link(at, first), Link(t, labels)];
    assert chain[1..] == [chain[1]] && chain[1..][1..] == [];
    assert Writes(msg, chain[1..]) && PointsBack(chain[1..], t);
    assert AllLabels(chain) == first + labels by {
      assert AllLabels(chain[1..]) == labels + [] == labels;
    }
    ChainIsReadBack(msg, chain);
  }

  /** An octet from 64 to 191 where a label should start is neither a length nor a pointer. */
  lemma ReservedIsRefused(msg: seq<byte>, at: nat)
    requires at < |msg| && 64 <= msg[at] < 192
    ensures NameAt(msg, at) == Failed(MalformedHeader)
  {
  }
}
