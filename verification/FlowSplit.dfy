/**
 What the flow table computes over a whole trace: for every key, independently of the
 others, the greedy split of that key's packets by idle gap and active span.
 */
module FlowSplit {
  import opened FlowKey
  import opened FlowTable

  /** A packet as its own flow sees it. */
  datatype Arrival = Arrival(ts: u64, bytes: nat, reversed: bool)

  function Empty(): Table {
    Table(0, map[], [])
  }

  function Run(captures: seq<Capture>, t: Timeouts): Table {
    if captures == [] then Empty()
    else WithPacket(Run(captures[..|captures| - 1], t), captures[|captures| - 1], t)
  }

  /** The packets of one normalised key, in order. */
  function ArrivalsOf(captures: seq<Capture>, k: FlowKey): seq<Arrival> {
    if captures == [] then []
    else
      var c := captures[|captures| - 1];
      ArrivalsOf(captures[..|captures| - 1], k) +
        if c.content.Keyed? && Normalize(c.content.key).0 == k
        then [Arrival(c.tsUs, c.inclLen, Normalize(c.content.key).1)] else []
  }

  /** `a` comes too late for the flow made of `g`. */
  predicate Cuts(g: seq<Arrival>, a: Arrival, t: Timeouts)
    requires g != []
  {
    IsExpired(g[0].ts, g[|g| - 1].ts, a.ts, t)
  }

  /** The greedy split: a packet joins the last group unless it comes too late for it. */
  function Groups(arrivals: seq<Arrival>, t: Timeouts): (gs: seq<seq<Arrival>>)
    ensures forall j :: 0 <= j < |gs| ==> gs[j] != []
    ensures gs == [] <==> arrivals == []
  {
    if arrivals == [] then []
    else
      var gs, a := Groups(arrivals[..|arrivals| - 1], t), arrivals[|arrivals| - 1];
      if gs == [] || Cuts(gs[|gs| - 1], a, t) then gs + [[a]]
      else gs[..|gs| - 1] + [gs[|gs| - 1] + [a]]
  }

  function Packets(g: seq<Arrival>, reversed: bool): nat {
    if g == [] then 0
    else Packets(g[..|g| - 1], reversed) + if g[|g| - 1].reversed == reversed then 1 else 0
  }

  function Bytes(g: seq<Arrival>, reversed: bool): nat {
    if g == [] then 0
    else Bytes(g[..|g| - 1], reversed) + if g[|g| - 1].reversed == reversed then g[|g| - 1].bytes else 0
  }

  /** The flow record of a group of packets. */
  function FlowOf(k: FlowKey, g: seq<Arrival>): Flow
    requires g != []
  {
    Flow(g[0].ts, g[|g| - 1].ts, Stats(Packets(g, false), Bytes(g, false)), Stats(Packets(g, true), Bytes(g, true)),
         g[|g| - 1].reversed, PortHasAppDecoder(k))
  }

  function FlowsOfGroups(k: FlowKey, gs: seq<seq<Arrival>>): seq<Flow>
    requires forall j :: 0 <= j < |gs| ==> gs[j] != []
  {
    seq(|gs|, j requires 0 <= j < |gs| => FlowOf(k, gs[j]))
  }

  lemma FlowOfOne(k: FlowKey, a: Arrival)
    ensures FlowOf(k, [a]) == Extend(NewFlow(k, a.ts), a.ts, a.bytes, a.reversed)
  {
    var g := [a];
    assert g[..|g| - 1] == [];
    assert Packets(g, false) == Packets([], false) + if a.reversed == false then 1 else 0;
    assert Packets(g, true) == Packets([], true) + if a.reversed == true then 1 else 0;
    assert Bytes(g, false) == Bytes([], false) + if a.reversed == false then a.bytes else 0;
    assert Bytes(g, true) == Bytes([], true) + if a.reversed == true then a.bytes else 0;
  }

  lemma FlowOfMore(k: FlowKey, g: seq<Arrival>, a: Arrival)
    requires g != []
    ensures FlowOf(k, g + [a]) == Extend(FlowOf(k, g), a.ts, a.bytes, a.reversed)
  {
    var r := g + [a];
    assert r[..|r| - 1] == g;
  }

  /** The table's entry for `k` is the record of the last group, its retired flows those of the others. */
  predicate Holds(s: Table, k: FlowKey, gs: seq<seq<Arrival>>)
    requires forall j :: 0 <= j < |gs| ==> gs[j] != []
  {
    && (k in s.flows <==> gs != [])
    && (gs != [] ==> s.flows[k] == FlowOf(k, gs[|gs| - 1]))
    && CompletedOf(s.completed, k) == FlowsOfGroups(k, if gs == [] then [] else gs[..|gs| - 1])
  }

  lemma OtherKeysUntouched(s: Table, key: FlowKey, ts: u64, bytes: nat, t: Timeouts, k: FlowKey)
    requires Normalize(key).0 != k
    ensures var r := AddKeyed(s, key, ts, bytes, t);
      && (k in r.flows <==> k in s.flows) && (k in s.flows ==> r.flows[k] == s.flows[k])
      && CompletedOf(r.completed, k) == CompletedOf(s.completed, k)
  {
    hide Normalize, IsExpired, Extend, NewFlow;
    var k0 := Normalize(key).0;
    var r := Retire(s, k0, ts, t);
    if r.completed != s.completed {
      assert r.completed[..|r.completed| - 1] == s.completed;
    }
  }

  lemma RetiredEntry(s: Table, k: FlowKey, ts: u64, t: Timeouts)
    ensures var r := Retire(s, k, ts, t);
      if k in s.flows && IsExpired(s.flows[k].firstSeen, s.flows[k].lastSeen, ts, t)
      then k !in r.flows && CompletedOf(r.completed, k) == CompletedOf(s.completed, k) + [s.flows[k]]
      else r == s
  {
    hide IsExpired;
    var r := Retire(s, k, ts, t);
    if r != s {
      assert r.completed[..|r.completed| - 1] == s.completed;
    }
  }

  lemma AddedPacketGroups(s: Table, key: FlowKey, ts: u64, bytes: nat, t: Timeouts, gs: seq<seq<Arrival>>)
    requires forall j :: 0 <= j < |gs| ==> gs[j] != []
    requires Holds(s, Normalize(key).0, gs)
    ensures var a := Arrival(ts, bytes, Normalize(key).1);
      var gs' := if gs == [] || Cuts(gs[|gs| - 1], a, t) then gs + [[a]] else gs[..|gs| - 1] + [gs[|gs| - 1] + [a]];
      Holds(AddKeyed(s, key, ts, bytes, t), Normalize(key).0, gs')
  {
    hide Normalize, IsExpired, Extend, NewFlow, FlowOf, CompletedOf, Retire;
    var (k, reversed) := Normalize(key);
    var a := Arrival(ts, bytes, reversed);
    RetiredEntry(s, k, ts, t);
    FlowOfOne(k, a);
    if gs != [] {
      FlowOfMore(k, gs[|gs| - 1], a);
      LastGroupTimes(k, gs[|gs| - 1]);
      assert FlowsOfGroups(k, gs) == FlowsOfGroups(k, gs[..|gs| - 1]) + [FlowOf(k, gs[|gs| - 1])];
      assert (gs + [[a]])[..|gs|] == gs;
      assert (gs[..|gs| - 1] + [gs[|gs| - 1] + [a]])[..|gs| - 1] == gs[..|gs| - 1];
    }
  }

  lemma LastGroupTimes(k: FlowKey, g: seq<Arrival>)
    requires g != []
    ensures FlowOf(k, g).firstSeen == g[0].ts && FlowOf(k, g).lastSeen == g[|g| - 1].ts
  {
  }

  lemma {:induction false} RunHolds(captures: seq<Capture>, t: Timeouts, k: FlowKey)
    ensures Holds(Run(captures, t), k, Groups(ArrivalsOf(captures, k), t))
    decreases |captures|
  {
    hide Holds, Normalize, AddKeyed, Cuts;
    if captures == [] {
      NothingHolds(k);
    } else {
      var before, c := captures[..|captures| - 1], captures[|captures| - 1];
      RunHolds(before, t, k);
      var s, mine := Run(before, t), ArrivalsOf(before, k);
      if c.content.Keyed? {
        if Normalize(c.content.key).0 == k {
          AddedPacketGroups(s, c.content.key, c.tsUs, c.inclLen, t, Groups(mine, t));
          var all := ArrivalsOf(captures, k);
          assert all[..|all| - 1] == mine;
        } else {
          OtherKeysUntouched(s, c.content.key, c.tsUs, c.inclLen, t, k);
          HoldsElsewhere(s, AddKeyed(s, c.content.key, c.tsUs, c.inclLen, t), k, Groups(mine, t));
          assert mine + [] == mine;
        }
      } else {
        assert mine + [] == mine;
      }
    }
  }

  lemma NothingHolds(k: FlowKey)
    ensures Holds(Empty(), k, [])
  {
  }

  lemma HoldsElsewhere(s: Table, r: Table, k: FlowKey, gs: seq<seq<Arrival>>)
    requires forall j :: 0 <= j < |gs| ==> gs[j] != []
    requires Holds(s, k, gs) && (k in r.flows <==> k in s.flows) && (k in s.flows ==> r.flows[k] == s.flows[k])
    requires CompletedOf(r.completed, k) == CompletedOf(s.completed, k)
    ensures Holds(r, k, gs)
  {
  }

  /** Over every trace, and for every key, the flows are those of the greedy split of that key's packets. */
  lemma FlowsAreGreedyGroups(captures: seq<Capture>, t: Timeouts, k: FlowKey)
    ensures FlowsOf(Run(captures, t), k) == FlowsOfGroups(k, Groups(ArrivalsOf(captures, k), t))
  {
    hide FlowOf;
    RunHolds(captures, t, k);
    var gs := Groups(ArrivalsOf(captures, k), t);
    if gs != [] {
      assert FlowsOfGroups(k, gs) == FlowsOfGroups(k, gs[..|gs| - 1]) + [FlowOf(k, gs[|gs| - 1])];
    }
  }

  /** Over every trace the byte total is the sum over all flows. */
  lemma {:induction false} RunConserves(captures: seq<Capture>, t: Timeouts)
    ensures Conserves(Run(captures, t))
    decreases |captures|
  {
    if captures != [] {
      RunConserves(captures[..|captures| - 1], t);
      PacketConserves(Run(captures[..|captures| - 1], t), captures[|captures| - 1], t);
    }
  }

  function Flatten(gs: seq<seq<Arrival>>): seq<Arrival> {
    if gs == [] then [] else Flatten(gs[..|gs| - 1]) + gs[|gs| - 1]
  }

  /** A split that cuts exactly where a packet comes too late for the group before it. */
  predicate IsGreedySplit(gs: seq<seq<Arrival>>, arrivals: seq<Arrival>, t: Timeouts) {
    && Flatten(gs) == arrivals
    && (forall j :: 0 <= j < |gs| ==> gs[j] != [])
    && (forall j, i :: 0 <= j < |gs| && 0 < i < |gs[j]| ==> !Cuts(gs[j][..i], gs[j][i], t))
    && (forall j :: 0 < j < |gs| ==> Cuts(gs[j - 1], gs[j][0], t))
  }

  /** Adding a packet to a greedy split, one way or the other, gives a greedy split. */
  lemma SplitGrows(gs: seq<seq<Arrival>>, arrivals: seq<Arrival>, a: Arrival, t: Timeouts)
    requires IsGreedySplit(gs, arrivals, t)
    ensures gs == [] || Cuts(gs[|gs| - 1], a, t) ==> IsGreedySplit(gs + [[a]], arrivals + [a], t)
    ensures gs != [] && !Cuts(gs[|gs| - 1], a, t) ==>
              IsGreedySplit(gs[..|gs| - 1] + [gs[|gs| - 1] + [a]], arrivals + [a], t)
  {
    hide Cuts;
    var r := gs + [[a]];
    assert r[..|gs|] == gs;
    if gs != [] {
      var g := gs[|gs| - 1];
      var q := gs[..|gs| - 1] + [g + [a]];
      assert q[..|gs| - 1] == gs[..|gs| - 1];
      assert Flatten(gs[..|gs| - 1]) + (g + [a]) == Flatten(gs[..|gs| - 1]) + g + [a];
      assert (g + [a])[..|g|] == g;
      forall i | 0 < i < |g|
        ensures (g + [a])[..i] == g[..i]
      {
      }
    }
  }

  /** Taking the last packet away from a greedy split leaves one. */
  lemma SplitShrinks(gs: seq<seq<Arrival>>, arrivals: seq<Arrival>, t: Timeouts) returns (before: seq<seq<Arrival>>)
    requires IsGreedySplit(gs, arrivals, t) && arrivals != []
    ensures IsGreedySplit(before, arrivals[..|arrivals| - 1], t)
    ensures var a := arrivals[|arrivals| - 1];
      gs == if before == [] || Cuts(before[|before| - 1], a, t) then before + [[a]]
            else before[..|before| - 1] + [before[|before| - 1] + [a]]
  {
    hide Cuts;
    var g, a := gs[|gs| - 1], arrivals[|arrivals| - 1];
    assert g[|g| - 1] == a;
    assert arrivals[..|arrivals| - 1] == Flatten(gs[..|gs| - 1]) + g[..|g| - 1];
    if |g| == 1 {
      before := gs[..|gs| - 1];
      assert g == [a];
      assert gs == before + [[a]];
    } else {
      before := gs[..|gs| - 1] + [g[..|g| - 1]];
      assert before[..|before| - 1] == gs[..|gs| - 1];
      assert g[..|g| - 1] + [a] == g;
      assert gs == before[..|before| - 1] + [before[|before| - 1] + [a]];
      forall i | 0 < i < |g| - 1
        ensures g[..|g| - 1][..i] == g[..i]
      {
      }
    }
  }

  /** `Groups` is the only greedy split there is. */
  lemma {:induction false} GroupsIsTheGreedySplit(gs: seq<seq<Arrival>>, arrivals: seq<Arrival>, t: Timeouts)
    ensures IsGreedySplit(gs, arrivals, t) <==> gs == Groups(arrivals, t)
    decreases |arrivals|
  {
    hide Cuts, IsGreedySplit;
    if arrivals == [] {
      EmptySplit(gs, t);
    } else {
      var before, a := arrivals[..|arrivals| - 1], arrivals[|arrivals| - 1];
      assert before + [a] == arrivals;
      GroupsIsTheGreedySplit(Groups(before, t), before, t);
      SplitGrows(Groups(before, t), before, a, t);
      if IsGreedySplit(gs, arrivals, t) {
        var shorter := SplitShrinks(gs, arrivals, t);
        GroupsIsTheGreedySplit(shorter, before, t);
      }
    }
  }

  lemma EmptySplit(gs: seq<seq<Arrival>>, t: Timeouts)
    ensures IsGreedySplit(gs, [], t) <==> gs == []
  {
  }

  /** Time does not run backwards. */
  predicate InTime(captures: seq<Capture>) {
    forall i, j :: 0 <= i < j < |captures| ==> captures[i].tsUs <= captures[j].tsUs
  }

  predicate Ordered(arrivals: seq<Arrival>) {
    forall i, j :: 0 <= i < j < |arrivals| ==> arrivals[i].ts <= arrivals[j].ts
  }

  /** `a` comes after a gap longer than the idle timeout, or makes the flow span more than the active one. */
  predicate GapOrSpan(g: seq<Arrival>, a: Arrival, t: Timeouts)
    requires g != []
  {
    a.ts - g[|g| - 1].ts > t.idle || (t.active != 0 && a.ts - g[0].ts > t.active)
  }

  /** While time does not run backwards, a packet cuts exactly after a long gap or a long span. */
  lemma CutIsGapOrSpan(g: seq<Arrival>, a: Arrival, t: Timeouts)
    requires g != [] && g[0].ts <= g[|g| - 1].ts <= a.ts
    ensures Cuts(g, a, t) <==> GapOrSpan(g, a, t)
  {
  }

  /**
   Whatever time does: a packet from before the last one never cuts, and any other cuts after
   a long gap or a long span, the span counted modulo 2^64.
   */
  lemma CutsModulo(g: seq<Arrival>, a: Arrival, t: Timeouts)
    requires g != []
    ensures var (gap, span) := (a.ts - g[|g| - 1].ts, (a.ts - g[0].ts) % 0x1_0000_0000_0000_0000);
      Cuts(g, a, t) <==> gap >= 0 && (gap > t.idle || (t.active != 0 && span > t.active))
  {
  }

  /** Every cut is at a long gap or a long span, and every join at neither. */
  predicate IsPlainSplit(gs: seq<seq<Arrival>>, arrivals: seq<Arrival>, t: Timeouts) {
    && Flatten(gs) == arrivals
    && (forall j :: 0 <= j < |gs| ==> gs[j] != [])
    && (forall j, i :: 0 <= j < |gs| && 0 < i < |gs[j]| ==> !GapOrSpan(gs[j][..i], gs[j][i], t))
    && (forall j :: 0 < j < |gs| ==> GapOrSpan(gs[j - 1], gs[j][0], t))
  }

  lemma {:induction false} ArrivalsInTime(captures: seq<Capture>, k: FlowKey)
    requires InTime(captures)
    ensures Ordered(ArrivalsOf(captures, k))
    ensures forall a :: a in ArrivalsOf(captures, k) ==> a.ts <= captures[|captures| - 1].tsUs
    decreases |captures|
  {
    hide Normalize;
    if captures != [] {
      ArrivalsInTime(captures[..|captures| - 1], k);
    }
  }

  /** The groups of an ordered division are ordered, inside and from one to the next. */
  lemma {:induction false} DivisionIsOrdered(gs: seq<seq<Arrival>>)
    requires Ordered(Flatten(gs)) && forall j :: 0 <= j < |gs| ==> gs[j] != []
    ensures forall j :: 0 <= j < |gs| ==> Ordered(gs[j])
    ensures forall j :: 0 < j < |gs| ==> gs[j - 1][|gs[j - 1]| - 1].ts <= gs[j][0].ts
    decreases |gs|
  {
    if gs != [] {
      var n := |gs| - 1;
      var before, g := Flatten(gs[..n]), gs[n];
      assert Ordered(before) by {
        assert forall i :: 0 <= i < |before| ==> before[i] == Flatten(gs)[i];
      }
      assert Ordered(g) by {
        assert forall i :: 0 <= i < |g| ==> g[i] == Flatten(gs)[|before| + i];
      }
      DivisionIsOrdered(gs[..n]);
      if n > 0 {
        assert gs[..n][n - 1] == gs[n - 1];
        assert before[|before| - 1] == gs[n - 1][|gs[n - 1]| - 1];
        assert Flatten(gs)[|before| - 1] == before[|before| - 1] && Flatten(gs)[|before|] == g[0];
      }
    }
  }

  lemma PlainIsGreedy(gs: seq<seq<Arrival>>, arrivals: seq<Arrival>, t: Timeouts)
    requires Ordered(arrivals)
    ensures IsPlainSplit(gs, arrivals, t) <==> IsGreedySplit(gs, arrivals, t)
  {
    hide Cuts, GapOrSpan;
    if Flatten(gs) == arrivals && forall j :: 0 <= j < |gs| ==> gs[j] != [] {
      DivisionIsOrdered(gs);
      forall j, i | 0 <= j < |gs| && 0 < i < |gs[j]|
        ensures Cuts(gs[j][..i], gs[j][i], t) <==> GapOrSpan(gs[j][..i], gs[j][i], t)
      {
        assert Ordered(gs[j]);
        CutIsGapOrSpan(gs[j][..i], gs[j][i], t);
      }
      forall j | 0 < j < |gs|
        ensures Cuts(gs[j - 1], gs[j][0], t) <==> GapOrSpan(gs[j - 1], gs[j][0], t)
      {
        assert Ordered(gs[j - 1]);
        CutIsGapOrSpan(gs[j - 1], gs[j][0], t);
      }
    }
  }

  /**
   Over every trace in which time does not run backwards, the flows of each key are the
   records of the one division of that key's packets whose every cut is at a long gap or a
   long span and whose every join is at neither.
   */
  lemma FlowsAreGapsAndSpans(captures: seq<Capture>, t: Timeouts, k: FlowKey, gs: seq<seq<Arrival>>)
    requires InTime(captures)
    ensures IsPlainSplit(gs, ArrivalsOf(captures, k), t) <==> gs == Groups(ArrivalsOf(captures, k), t)
    ensures IsPlainSplit(gs, ArrivalsOf(captures, k), t) ==>
              FlowsOf(Run(captures, t), k) == FlowsOfGroups(k, gs)
  {
    hide IsPlainSplit, IsGreedySplit, Groups, FlowsOf, FlowsOfGroups, Run, ArrivalsOf, Ordered;
    ArrivalsInTime(captures, k);
    PlainIsGreedy(gs, ArrivalsOf(captures, k), t);
    GroupsIsTheGreedySplit(gs, ArrivalsOf(captures, k), t);
    FlowsAreGreedyGroups(captures, t, k);
  }

  /** A packet of the connection whose normal form is `k`. */
  predicate IsOf(c: Capture, k: FlowKey) {
    c.content.Keyed? && Normalize(c.content.key).0 == k
  }

  lemma {:induction false} ArrivalsComeFromCaptures(captures: seq<Capture>, k: FlowKey)
    ensures ArrivalsOf(captures, k) != [] <==> exists c :: c in captures && IsOf(c, k)
    decreases |captures|
  {
    hide Normalize;
    if captures != [] {
      var before, c := captures[..|captures| - 1], captures[|captures| - 1];
      assert captures == before + [c];
      assert c in captures && forall x :: x in captures ==> x in before || x == c;
      ArrivalsComeFromCaptures(before, k);
    }
  }

  /**
   Over every trace: each flow keeps its payload exactly if a packet of its connection, as it
   was captured and whichever way it went, has port 53 or 80 at either end. All of them then do,
   and there is one.
   */
  lemma PayloadIsKeptByPort(captures: seq<Capture>, t: Timeouts, k: FlowKey)
    ensures FlowsOf(Run(captures, t), k) != [] <==> exists c :: c in captures && IsOf(c, k)
    ensures forall f, c :: f in FlowsOf(Run(captures, t), k) && c in captures && IsOf(c, k) ==>
              var (src, dst) := (c.content.key.srcPort, c.content.key.dstPort);
              (f.keepPayload <==> src == 53 || dst == 53 || src == 80 || dst == 80)
  {
    hide Run, FlowsOf, ArrivalsOf, Groups, IsExpired;
    FlowsAreGreedyGroups(captures, t, k);
    ArrivalsComeFromCaptures(captures, k);
    var gs := Groups(ArrivalsOf(captures, k), t);
    assert |FlowsOfGroups(k, gs)| == |gs|;
  }

  /**
   What the caller is told: a packet with a key is answered with its normal form, and is
   called new exactly if it opens one more flow of that key; else all flows stay as many.
   */
  lemma NewMeansOneMoreFlow(captures: seq<Capture>, c: Capture, t: Timeouts)
    requires c.content.Keyed?
    ensures var k := Normalize(c.content.key).0;
      var answer := AnswerTo(Run(captures, t), c, t);
      var before, after := FlowsOf(Run(captures, t), k), FlowsOf(Run(captures + [c], t), k);
      && answer.Added? && answer.key == k
      && |after| == |before| + if answer.isNew then 1 else 0
  {
    hide Normalize, IsExpired, Extend, NewFlow;
    var k := Normalize(c.content.key).0;
    var s := Run(captures, t);
    assert (captures + [c])[..|captures|] == captures;
    RetiredEntry(s, k, c.tsUs, t);
    RetireCompletes(s, k, c.tsUs, t);
  }

  lemma RetireCompletes(s: Table, k: FlowKey, ts: u64, t: Timeouts)
    ensures |FlowsOf(Retire(s, k, ts, t), k)| == |FlowsOf(s, k)|
  {
    RetiredEntry(s, k, ts, t);
  }
}
