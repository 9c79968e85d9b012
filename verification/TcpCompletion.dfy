/**
 Completeness of a whole connection: which bytes have been handed up and whether the FIN has
 been taken, told from what the packets brought.
 */
module TcpCompletion {
  import opened TcpStream
  import opened TcpMachine
  import opened TcpSafety
  import opened TcpConnection

  /** Every byte from the point of seeding on has been brought by some packet that was not refused. */
  ghost predicate AllBrought(src: Source, origin: nat, events: seq<Event>) {
    forall j: nat :: origin <= j < |src.bytes| ==> j in BroughtByAll(Initial(true), src, origin, events)
  }

  /** What is held at the end of a run is what was brought. */
  lemma HeldIsBrought(src: Source, origin: nat, events: seq<Event>) returns (offs: seq<nat>)
    requires origin <= |src.bytes| && GenuineRun(Initial(true), src, origin, events)
    ensures var r := Run(Initial(true), events);
      && Tracks(r, src, origin, offs)
      && (forall j: nat :: j < |src.bytes| ==>
            (HeldBy(r, origin, offs, j) <==> j < origin || j in BroughtByAll(Initial(true), src, origin, events)))
      && (KnowsFin(r, src, origin) <==> SomeCarriesFin(Initial(true), events))
  {
    InitialTracks(src, origin);
    hide Tracks, GenuineRun, Run, BroughtByAll, SomeCarriesFin;
    offs := RunTracks(Initial(true), src, origin, [], events);
  }

  /** What being held says about the position. */
  lemma PositionIsFirstMissing(m: Machine, src: Source, origin: nat, offs: seq<nat>)
    requires Tracks(m, src, origin, offs)
    ensures var n := |History(m)|;
      && origin + n <= |src.bytes| && History(m) == src.bytes[origin..origin + n]
      && (forall j: nat :: j < origin + n ==> HeldBy(m, origin, offs, j))
      && (origin + n < |src.bytes| ==> !HeldBy(m, origin, offs, origin + n))
    ensures var p := origin + m.stream.pos;
      && (p <= |src.bytes| ==> |History(m)| == m.stream.pos)
      && (p > |src.bytes| ==> origin + |History(m)| == |src.bytes|)
      && (m.seeded && m.finSeen ==> p < |src.bytes|)
    ensures m.seeded && origin + m.stream.pos >= |src.bytes| ==> m.stream.store == []
  {
    hide Slices, StoredBytes;
    if m.seeded {
      NextByteIsMissing(m.stream, src, origin + m.stream.pos, offs);
      if origin + m.stream.pos >= |src.bytes| {
        FinFollowsEverything(m, src, origin, offs);
      }
    }
  }

  /**
   The exact outcome of every genuine run, through seeding, connection states, repeats,
   resets and reads: what has been handed up ends at the first byte that was not brought; it
   is everything if and only if everything was brought; and the FIN has been taken if and
   only if everything was brought and a FIN was carried. Then the store is empty.
   */
  lemma ConnectionIsExact(src: Source, origin: nat, events: seq<Event>)
    requires origin <= |src.bytes| && GenuineRun(Initial(true), src, origin, events)
    ensures var r, brought := Run(Initial(true), events), BroughtByAll(Initial(true), src, origin, events);
      && History(r) <= src.bytes[origin..]
      && (forall j: nat :: origin <= j < origin + |History(r)| ==> j in brought)
      && (origin + |History(r)| < |src.bytes| ==> origin + |History(r)| !in brought)
      && (History(r) == src.bytes[origin..] <==> AllBrought(src, origin, events))
      && (r.seeded && origin + r.stream.pos > |src.bytes| <==>
            AllBrought(src, origin, events) && SomeCarriesFin(Initial(true), events))
      && (AllBrought(src, origin, events) && r.seeded ==> r.stream.store == [] && !r.finSeen)
  {
    hide Run, GenuineRun, BroughtByAll, SomeCarriesFin, Tracks, HeldBy;
    var offs := HeldIsBrought(src, origin, events);
    var r := Run(Initial(true), events);
    PositionIsFirstMissing(r, src, origin, offs);
    var n := |History(r)|;
    assert src.bytes[origin..][..n] == src.bytes[origin..origin + n];
    assert origin + n == |src.bytes| ==> AllBrought(src, origin, events);
  }
}
