/** Printing an IPv6 address: the choice of the `::`, the text, and its reading back. */
module Ipv6Printer {
  import opened Bytes
  import opened Ipv6Text

  datatype Run = Run(start: nat, len: nat)

  predicate ZeroRun(g: Groups, s: nat, n: nat) {
    s + n <= 8 && forall k :: s <= k < s + n ==> g[k] == 0
  }

  /**
   The run section 4.2 of RFC 5952 replaces by `::`: the leftmost of the longest runs of zero
   groups, and only if it has at least two.
   */
  ghost predicate IsBest(g: Groups, best: Option<Run>) {
    match best
    case None => forall s: nat, n: nat :: ZeroRun(g, s, n) ==> n < 2
    case Some(r) =>
      && r.len >= 2 && ZeroRun(g, r.start, r.len)
      && forall s: nat, n: nat :: ZeroRun(g, s, n) ==> n < r.len || (n == r.len && r.start <= s)
  }

  lemma BestIsUnique(g: Groups, a: Option<Run>, b: Option<Run>)
    requires IsBest(g, a) && IsBest(g, b)
    ensures a == b
  {
    if a.Some? {
      assert ZeroRun(g, a.value.start, a.value.len);
    }
    if b.Some? {
      assert ZeroRun(g, b.value.start, b.value.len);
    }
  }

  function Hexes(gs: seq<Group>): (ts: seq<string>)
    ensures |ts| == |gs| && AllTokens(ts)
  {
    seq(|gs|, i requires 0 <= i < |gs| => Hex4(gs[i]))
  }

  function FormOf(g: Groups, best: Option<Run>): Form
    requires best.Some? ==> ZeroRun(g, best.value.start, best.value.len)
  {
    match best
    case None => Full(Hexes(g))
    case Some(r) => Gapped(Hexes(g[..r.start]), Hexes(g[r.start + r.len..]))
  }

  /** The printed text of an address: four digits a group, with its best run as `::`. */
  ghost predicate Prints(ip: Address, text: string) {
    exists best :: IsBest(GroupsOf(ip), best) && text == FormText(FormOf(GroupsOf(ip), best))
  }

  lemma {:induction false} HexesReadBack(gs: seq<Group>)
    ensures Values(Hexes(gs)) == gs
  {
    if gs != [] {
      Hex4ReadBack(gs[0]);
      assert Hexes(gs)[1..] == Hexes(gs[1..]);
      HexesReadBack(gs[1..]);
    }
  }

  lemma WithoutRun(g: Groups, s: nat, n: nat)
    requires ZeroRun(g, s, n)
    ensures g == g[..s] + Zeros(n) + g[s + n..]
  {
  }

  /** Whichever run of zeros is left out, the text still denotes the address. */
  lemma FormDenotes(g: Groups, best: Option<Run>)
    requires best.Some? ==> best.value.len > 0 && ZeroRun(g, best.value.start, best.value.len)
    ensures WellFormed(FormOf(g, best)) && Denotes(FormOf(g, best)) == g
  {
    match best {
      case None => HexesReadBack(g);
      case Some(r) =>
        HexesReadBack(g[..r.start]);
        HexesReadBack(g[r.start + r.len..]);
        WithoutRun(g, r.start, r.len);
        hide Hexes, Values, Zeros, AllTokens, ZeroRun;
    }
  }

  /** Reading back what is printed gives the address, for every address. */
  lemma PrintedIsReadBack(ip: Address, text: string)
    requires Prints(ip, text)
    ensures AddressOf(text) == Some(ip)
  {
    hide ParseGroups, FormText, FormOf, GroupsOf, BytesOf, Denotes;
    var g := GroupsOf(ip);
    var best :| IsBest(g, best) && text == FormText(FormOf(g, best));
    FormDenotes(g, best);
    FormsAreAccepted(FormOf(g, best));
    BytesOfGroups(ip);
  }

  /** An address has one printed text, and no two addresses share it. */
  lemma PrintingIsInjective(ip: Address, other: Address, text: string, text': string)
    requires Prints(ip, text) && Prints(other, text')
    ensures ip == other <==> text == text'
  {
    PrintedIsReadBack(ip, text);
    PrintedIsReadBack(other, text');
    if ip == other {
      var a :| IsBest(GroupsOf(ip), a) && text == FormText(FormOf(GroupsOf(ip), a));
      var b :| IsBest(GroupsOf(ip), b) && text' == FormText(FormOf(GroupsOf(ip), b));
      BestIsUnique(GroupsOf(ip), a, b);
    }
  }

  /** A `::` at position k. */
  predicate GapAt(t: string, k: nat) {
    k + 1 < |t| && t[k] == ':' && t[k + 1] == ':'
  }

  /** The text of tokens begins and ends with a digit and holds no `::`. */
  lemma {:induction false} JoinHasNoGap(ts: seq<string>)
    requires AllTokens(ts)
    ensures forall k :: !GapAt(Join(ts), k)
    ensures ts != [] ==> Join(ts) != "" && Join(ts)[0] != ':' && Join(ts)[|Join(ts)| - 1] != ':'
    ensures ts == [] ==> Join(ts) == ""
  {
    if |ts| == 1 {
      assert IsToken(ts[0]);
    } else if |ts| > 1 {
      assert IsToken(ts[0]);
      JoinHasNoGap(ts[1..]);
      var n, rest := |ts[0]|, Join(ts[1..]);
      forall k: nat
        ensures !GapAt(Join(ts), k)
      {
        NoGapAcross(ts[0], rest, k);
      }
    }
  }

  lemma NoGapAcross(token: string, rest: string, k: nat)
    requires IsToken(token) && rest != "" && rest[0] != ':' && forall j :: !GapAt(rest, j)
    ensures !GapAt(token + ":" + rest, k)
  {
    var n, t := |token|, token + ":" + rest;
    if k < n {
      assert t[k] == token[k];
    } else if k > n && k + 1 < |t| {
      assert t[k] == rest[k - n - 1] && t[k + 1] == rest[k - n];
      assert !GapAt(rest, k - n - 1);
    }
  }

  /** The only `::` in the text of a form is the one of its gap. */
  lemma GapIsWhereItShouldBe(f: Form, k: nat)
    requires WellFormed(f)
    ensures GapAt(FormText(f), k) <==> f.Gapped? && k == |Join(f.left)|
  {
    match f {
      case Full(ts) => JoinHasNoGap(ts);
      case Gapped(l, r) =>
        JoinHasNoGap(l);
        JoinHasNoGap(r);
        hide Join;
        var n, left, right, t := |Join(l)|, Join(l), Join(r), FormText(f);
        if k + 1 < n {
          assert !GapAt(left, k);
        } else if k >= n + 2 && k + 1 < |t| {
          assert t[k] == right[k - n - 2] && t[k + 1] == right[k - n - 1];
          assert !GapAt(right, k - n - 2);
        }
    }
  }

  /** Every printed text has at most one `::`, and has one exactly when two zero groups are adjacent. */
  lemma AtMostOneGap(ip: Address, text: string)
    requires Prints(ip, text)
    ensures forall j, k :: GapAt(text, j) && GapAt(text, k) ==> j == k
    ensures (exists k :: GapAt(text, k)) <==> exists i :: ZeroRun(GroupsOf(ip), i, 2)
  {
    hide FormText, GroupsOf;
    var g := GroupsOf(ip);
    var best :| IsBest(g, best) && text == FormText(FormOf(g, best));
    var f := FormOf(g, best);
    FormDenotes(g, best);
    forall k: nat
      ensures GapAt(text, k) <==> f.Gapped? && k == |Join(f.left)|
    {
      GapIsWhereItShouldBe(f, k);
    }
    if best.Some? {
      assert ZeroRun(g, best.value.start, 2);
      assert GapAt(text, |Join(f.left)|);
    }
  }

  /** A run of n groups against the best so far: first position and length minus one, in bytes. */
  predicate Beaten(start: int, len: int, s: nat, n: nat) {
    2 * n - 2 < len || (2 * n - 2 == len && (len == 0 || start <= 2 * s))
  }

  ghost predicate BestUpTo(g: Groups, h: nat, start: int, len: int) {
    && (len > 0 ==>
          start >= 0 && start % 2 == 0 && len % 2 == 0 && start / 2 + len / 2 < h &&
          ZeroRun(g, start / 2, len / 2 + 1))
    && forall s: nat, n: nat :: ZeroRun(g, s, n) && n > 0 && s < h ==> s + n <= h && Beaten(start, len, s, n)
  }

  lemma PastOther(g: Groups, h: nat, start: int, len: int)
    requires h < 8 && g[h] != 0 && len >= 0 && BestUpTo(g, h, start, len)
    ensures BestUpTo(g, h + 1, start, len)
  {
    forall s: nat, n: nat | ZeroRun(g, s, n) && n > 0 && s < h + 1
      ensures s + n <= h + 1 && Beaten(start, len, s, n)
    {
      assert s != h;
    }
  }

  lemma PastRun(g: Groups, h: nat, e: nat, start: int, len: int)
    requires h < e <= 8 && ZeroRun(g, h, e - h) && (e == 8 || g[e] != 0)
    requires len >= 0 && BestUpTo(g, h, start, len)
    ensures if 2 * (e - h) - 2 > len then BestUpTo(g, e, 2 * h, 2 * (e - h) - 2) else BestUpTo(g, e, start, len)
  {
    forall s: nat, n: nat | ZeroRun(g, s, n) && n > 0 && h <= s < e
      ensures s + n <= e
    {
      assert s + n > e && e < 8 ==> !ZeroRun(g, s, n);
    }
    if 2 * (e - h) - 2 > len {
      assert 2 * h / 2 == h && (2 * (e - h) - 2) / 2 + 1 == e - h;
    }
  }

  lemma NothingYet(g: Groups)
    ensures BestUpTo(g, 0, -1, 0)
  {
  }

  lemma AllSeen(g: Groups, start: int, len: int)
    requires BestUpTo(g, 8, start, len) && len >= 0 && len != 1 && (len > 0 ==> start >= 0)
    ensures len == 0 ==> IsBest(g, None)
    ensures len > 0 ==> start % 2 == 0 && len % 2 == 0 && IsBest(g, Some(Run(start / 2, len / 2 + 1)))
  {
    forall s: nat, n: nat | ZeroRun(g, s, n) && n > 0
      ensures Beaten(start, len, s, n)
    {
      assert s < 8;
    }
  }

  lemma ZeroGroup(ip: Address, i: nat)
    requires i < 16 && i % 2 == 0
    ensures GroupsOf(ip)[i / 2] == 0 <==> ip[i] == 0 && ip[i + 1] == 0
  {
    assert GroupsOf(ip)[i / 2] == GroupAt(ip, i / 2);
  }

  lemma RunGrows(g: Groups, s: nat, e: nat)
    requires s <= e < 8 && g[e] == 0 && (s == e || ZeroRun(g, s, e - s))
    ensures ZeroRun(g, s, e + 1 - s)
  {
  }

  /** The last group of the run of zeros that starts here. */
  method LastZero(ip: Address, start: nat) returns (i: nat)
    requires start < 16 && start % 2 == 0 && ip[start] == 0 && ip[start + 1] == 0
    ensures start <= i < 16 && i % 2 == 0
    ensures ZeroRun(GroupsOf(ip), start / 2, i / 2 + 1 - start / 2)
    ensures i + 2 == 16 || GroupsOf(ip)[i / 2 + 1] != 0
  {
    hide GroupsOf, ZeroRun;
    ghost var g := GroupsOf(ip);
    i := start;
    ZeroGroup(ip, i);
    RunGrows(g, i / 2, i / 2);
    while i + 2 < 16 && ip[i + 2] == 0 && ip[i + 3] == 0
      invariant start <= i < 16 && i % 2 == 0
      invariant ZeroRun(g, start / 2, i / 2 + 1 - start / 2)
    {
      ZeroGroup(ip, i + 2);
      RunGrows(g, start / 2, i / 2 + 1);
      i := i + 2;
    }
    if i + 2 < 16 {
      ZeroGroup(ip, i + 2);
    }
  }

  /** Finds the best run: its first byte, or -1, and its length less one group, in bytes. */
  method FindBest(ip: Address) returns (bestStart: int, bestLen: int)
    ensures bestStart == -1 ==> IsBest(GroupsOf(ip), None)
    ensures bestStart != -1 ==>
              && 0 <= bestStart && bestStart % 2 == 0 && 2 <= bestLen && bestLen % 2 == 0
              && IsBest(GroupsOf(ip), Some(Run(bestStart / 2, bestLen / 2 + 1)))
  {
    hide GroupsOf, BestUpTo, ZeroRun, IsBest, Beaten;
    ghost var g := GroupsOf(ip);
    bestStart, bestLen := -1, 0;
    NothingYet(g);
    var i := 0;
    while i < 16
      invariant 0 <= i <= 16 && i % 2 == 0
      invariant bestLen >= 0 && (bestLen == 0 <==> bestStart == -1) && bestLen != 1
      invariant BestUpTo(g, i / 2, bestStart, bestLen)
    {
      ZeroGroup(ip, i);
      if ip[i] != 0 || ip[i + 1] != 0 {
        PastOther(g, i / 2, bestStart, bestLen);
        i := i + 2;
        continue;
      }
      var start := i;
      i := LastZero(ip, start);
      PastRun(g, start / 2, i / 2 + 1, bestStart, bestLen);
      var len := i - start;
      if len > bestLen {
        bestStart := start;
        bestLen := len;
      }
      i := i + 2;
    }
    AllSeen(g, bestStart, bestLen);
    if bestLen < 2 {
      bestStart := -1;
    }
  }

  function ByteHex(b: byte): string {
    [HexChar(b as int / 16), HexChar(b as int % 16)]
  }

  lemma HighLow(high: nat, low: nat)
    requires low < 256
    ensures (high * 256 + low) / 256 == high && (high * 256 + low) % 256 == low
  {
  }

  lemma Nibbles(x: nat)
    ensures x / 4096 == x / 256 / 16
    ensures x / 16 % 16 == x % 256 / 16
    ensures x % 16 == x % 256 % 16
  {
    var high, low := x / 256, x % 256;
    assert x == high * 256 + low;
    assert x / 16 == high * 16 + low / 16;
  }

  lemma TwoBytes(ip: Address, i: nat)
    requires i < 16 && i % 2 == 0
    ensures ByteHex(ip[i]) + ByteHex(ip[i + 1]) == Hex4(GroupsOf(ip)[i / 2])
  {
    hide HexChar;
    var high: nat, low: nat := ip[i] as int, ip[i + 1] as int;
    var x: nat := GroupsOf(ip)[i / 2];
    assert x == GroupAt(ip, i / 2) == high * 256 + low;
    HighLow(high, low);
    Nibbles(x);
  }

  /** What has been written once the groups before h are done. */
  function Written(g: Groups, best: Option<Run>, h: nat): string
    requires h <= 8 && (best.Some? ==> best.value.start + best.value.len <= 8)
  {
    if best.None? || h <= best.value.start then Join(Hexes(g[..h]))
    else
      var e := best.value.start + best.value.len;
      var left := Join(Hexes(g[..best.value.start]));
      if h <= e then left + (if e == 8 then "::" else ":") else left + "::" + Join(Hexes(g[e..h]))
  }

  /** Joining one group more. */
  lemma JoinSnoc(gs: seq<Group>, x: Group)
    ensures Join(Hexes(gs + [x])) == (if gs == [] then "" else Join(Hexes(gs)) + ":") + Hex4(x)
  {
    HexesSnoc(gs, x);
    JoinTokens(Hexes(gs), Hex4(x));
  }

  lemma HexesSnoc(gs: seq<Group>, x: Group)
    ensures Hexes(gs + [x]) == Hexes(gs) + [Hex4(x)]
  {
    hide Hex4;
  }

  lemma {:induction false} JoinTokens(ts: seq<string>, t: string)
    ensures Join(ts + [t]) == (if ts == [] then "" else Join(ts) + ":") + t
  {
    if ts == [] {
      assert ts + [t] == [t];
    } else {
      assert (ts + [t])[1..] == ts[1..] + [t];
      JoinTokens(ts[1..], t);
      if |ts| > 1 {
        var rest := Join(ts[1..]);
        assert ts[0] + ":" + (rest + ":" + t) == (ts[0] + ":" + rest) + ":" + t;
      }
    }
  }

  /** Writing a group that is not in the run. */
  lemma WrittenGroup(g: Groups, best: Option<Run>, h: nat)
    requires h < 8 && (best.Some? ==> best.value.start + best.value.len <= 8 && best.value.len > 0)
    requires best.Some? ==> h < best.value.start || h >= best.value.start + best.value.len
    ensures Written(g, best, h + 1) == Written(g, best, h) + (if h > 0 then ":" else "") + Hex4(g[h])
  {
    hide Join, Hexes, Hex4;
    if best.None? || h < best.value.start {
      JoinSnoc(g[..h], g[h]);
      assert g[..h + 1] == g[..h] + [g[h]];
      NothingWritten(g);
      assert h == 0 ==> g[..h] == [];
    } else {
      var e := best.value.start + best.value.len;
      JoinSnoc(g[e..h], g[h]);
      assert g[e..h + 1] == g[e..h] + [g[h]];
    }
  }

  lemma BestRun(g: Groups, best: Option<Run>)
    requires IsBest(g, best)
    ensures best.Some? ==> best.value.len >= 2 && ZeroRun(g, best.value.start, best.value.len)
    ensures best.Some? ==> best.value.start + best.value.len <= 8
  {
  }

  lemma WrittenNothing(g: Groups, best: Option<Run>)
    requires best.Some? ==> best.value.start + best.value.len <= 8
    ensures Written(g, best, 0) == ""
  {
  }

  /** Passing over the run. */
  lemma WrittenRun(g: Groups, r: Run)
    requires r.len > 0 && r.start + r.len <= 8
    ensures Written(g, Some(r), r.start + r.len) ==
            Written(g, Some(r), r.start) + (if r.start + r.len == 8 then "::" else ":")
  {
  }

  lemma NothingWritten(g: Groups)
    ensures Join(Hexes([])) == ""
  {
  }

  /** At the end the whole text has been written. */
  lemma AllWritten(g: Groups, best: Option<Run>)
    requires best.Some? ==> best.value.len > 0 && ZeroRun(g, best.value.start, best.value.len)
    ensures Written(g, best, 8) == FormText(FormOf(g, best))
  {
    assert g[..8] == g;
    if best.Some? {
      var e := best.value.start + best.value.len;
      assert g[e..8] == g[e..];
    }
  }

  /** Prints the address; what is printed reads back as the address. */
  method PrintIp(ip: Address) returns (os: string)
    ensures Prints(ip, os)
    ensures AddressOf(os) == Some(ip)
  {
    hide GroupsOf, IsBest, Written, FormOf, FormText, Join, Hexes, ZeroRun, AddressOf;
    ghost var g := GroupsOf(ip);
    var bestStart, bestLen := FindBest(ip);
    ghost var best := if bestStart == -1 then None else Some(Run(bestStart / 2, bestLen / 2 + 1));
    BestRun(g, best);
    os := "";
    var i := 0;
    WrittenNothing(g, best);
    while i < 16
      invariant 0 <= i <= 16 && i % 2 == 0
      invariant bestStart == -1 || i <= bestStart || bestStart + bestLen + 2 <= i
      invariant os == Written(g, best, i / 2)
    {
      if i == bestStart {
        WrittenRun(g, best.value);
        os := os + ":";
        i := i + bestLen;
        if i + 2 == 16 {
          os := os + ":";
        }
        i := i + 2;
        continue;
      }
      WrittenGroup(g, best, i / 2);
      TwoBytes(ip, i);
      if i != 0 {
        os := os + ":";
      }
      os := os + ByteHex(ip[i]) + ByteHex(ip[i + 1]);
      i := i + 2;
    }
    AllWritten(g, best);
    PrintedIsReadBack(ip, os);
  }
}
