/** Parsing an IPv6 address into a caller's 16-byte buffer. */
module Ipv6Parser {
  import opened Bytes
  import opened Ipv6Text

  lemma {:induction false} DigitRunIs(t: string, d: nat)
    requires d <= |t| && AllHex(t[..d]) && (d == |t| || !IsHexDigit(t[d]))
    ensures DigitRun(t) == d
    decreases d
  {
    if d > 0 {
      assert t[..d][0] == t[0];
      assert t[1..][..d - 1] == t[..d][1..];
      DigitRunIs(t[1..], d - 1);
    }
  }

  lemma {:induction false} DigitRunIsLong(t: string, d: nat)
    requires d <= |t| && AllHex(t[..d])
    ensures DigitRun(t) >= d
    decreases d
  {
    if d > 0 {
      assert t[..d][0] == t[0];
      assert t[1..][..d - 1] == t[..d][1..];
      DigitRunIsLong(t[1..], d - 1);
    }
  }

  /** Reads one to four digits; `ok` is false at none or at a fifth. */
  method ReadDigits(text: string, start: nat) returns (ok: bool, i: nat, value: Group)
    requires start < |text|
    ensures ok == (1 <= DigitRun(text[start..]) <= 4)
    ensures ok ==> i == start + DigitRun(text[start..]) && value == Value(text[start..][..DigitRun(text[start..])])
  {
    hide DigitRun;
    ghost var t := text[start..];
    var digits := 0;
    i, value, ok := start, 0, false;
    var sum: nat := 0;
    while i < |text| && IsHexDigit(text[i])
      invariant start <= i <= |text| && digits == i - start <= 4
      invariant AllHex(text[start..i]) && sum == Value(text[start..i])
    {
      assert text[start..i + 1] == text[start..i] + [text[i]];
      ValueGrows(text[start..i], text[i]);
      sum := sum * 16 + HexVal(text[i]);
      digits := digits + 1;
      if digits > 4 {
        assert t[..digits] == text[start..i + 1];
        DigitRunIsLong(t, digits);
        return;
      }
      i := i + 1;
    }
    assert t[..digits] == text[start..i];
    DigitRunIs(t, digits);
    if digits > 0 {
      TokenFits(text[start..i]);
      ok, value := true, sum;
    }
  }

  ghost function GapOf(gap: int): Option<nat> {
    if gap < 0 then None else Some(gap)
  }

  /** The buffer holds the first groups of g. */
  ghost predicate Holds(bytes: seq<byte>, g: seq<Group>)
    requires |bytes| == 16 && |g| <= 8
  {
    forall j :: 0 <= j < |g| ==> bytes[2 * j] as int == g[j] / 256 && bytes[2 * j + 1] as int == g[j] % 256
  }

  lemma HoldsAll(bytes: seq<byte>, g: Groups)
    requires |bytes| == 16 && Holds(bytes, g[..8])
    ensures bytes == BytesOf(g)
  {
    forall k | 0 <= k < 16
      ensures bytes[k] == BytesOf(g)[k]
    {
      assert k == 2 * (k / 2) + k % 2;
      assert bytes[2 * (k / 2)] as int == g[k / 2] / 256;
    }
  }

  method Assign(out: array<byte>, slot: nat, n: Group, ghost all: Groups)
    requires out.Length == 16 && slot < 8 && Holds(out[..], all[..slot]) && n == all[slot]
    modifies out
    ensures Holds(out[..], all[..slot + 1])
  {
    out[2 * slot] := (n / 256) as byte;
    out[2 * slot + 1] := (n % 256) as byte;
  }

  /** Where each group of an assembled address comes from. */
  lemma AssembledAt(r: Reading, all: Groups)
    requires Assemble(r) == Some(all)
    ensures r.gap.None? ==> all == r.groups
    ensures r.gap.Some? ==>
              && r.gap.value <= |r.groups| < 8
              && (forall i :: 0 <= i < r.gap.value ==> all[i] == r.groups[i])
              && (forall k :: r.gap.value <= k < r.gap.value + 8 - |r.groups| ==> all[k] == 0)
              && (forall i :: r.gap.value <= i < |r.groups| ==> all[8 - |r.groups| + i] == r.groups[i])
  {
  }

  /** Writes groups with zeros at the gap, as a reading is assembled. */
  method Fill(out: array<byte>, groups: array<Group>, count: nat, gap: int) returns (ok: bool)
    requires out.Length == 16 && groups.Length == 8 && count <= 8 && -1 <= gap <= count
    modifies out
    ensures ok == Assemble(Reading(groups[..count], GapOf(gap))).Some?
    ensures ok ==> out[..] == BytesOf(Assemble(Reading(groups[..count], GapOf(gap))).value)
    ensures !ok ==> out[..] == old(out[..])
  {
    hide Holds, BytesOf;
    ghost var r := Reading(groups[..count], GapOf(gap));
    if gap == -1 && count != 8 {
      return false;
    }
    if gap != -1 && count >= 8 {
      return false;
    }
    ghost var all := Assemble(r).value;
    hide Assemble;
    AssembledAt(r, all);
    NothingHeld(out[..]);
    assert all[..0] == [];
    if gap == -1 {
      for i := 0 to 8
        invariant Holds(out[..], all[..i])
        invariant groups[..count] == r.groups
      {
        Assign(out, i, groups[i], all);
      }
      HoldsAll(out[..], all);
      return true;
    }
    var slot := 0;
    for i := 0 to gap
      invariant slot == i && Holds(out[..], all[..slot])
      invariant groups[..count] == r.groups
    {
      Assign(out, slot, groups[i], all);
      slot := slot + 1;
    }
    for i := 0 to 8 - count
      invariant slot == gap + i && Holds(out[..], all[..slot])
      invariant groups[..count] == r.groups
    {
      Assign(out, slot, 0, all);
      slot := slot + 1;
    }
    for i := gap to count
      invariant slot == 8 - count + i && Holds(out[..], all[..slot])
      invariant groups[..count] == r.groups
    {
      Assign(out, slot, groups[i], all);
      slot := slot + 1;
    }
    HoldsAll(out[..], all);
    return slot == 8;
  }

  lemma NothingHeld(bytes: seq<byte>)
    requires |bytes| == 16
    ensures Holds(bytes, [])
  {
  }

  /** Whether the text is an address; the buffer then holds it, and is untouched otherwise. */
  method AddressFromString(text: string, out: array<byte>) returns (ok: bool)
    requires out.Length == 16
    modifies out
    ensures ok == AddressOf(text).Some?
    ensures ok ==> out[..] == AddressOf(text).value
    ensures !ok ==> out[..] == old(out[..])
  {
    hide ReadGroups, Assemble, BytesOf;
    var groups := new Group[8](_ => 0);
    var gap := -1;
    var i := 0;
    if |text| >= 2 && text[0] == ':' && text[1] == ':' {
      gap, i := 0, 2;
      if i == |text| {
        AllZero(text);
        for k := 0 to 16
          invariant forall j :: 0 <= j < k ==> out[j] == 0
        {
          out[k] := 0;
        }
        assert out[..] == seq(16, _ => 0);
        return true;
      }
    } else if text != "" && text[0] == ':' {
      return false;
    }
    assert text[0..] == text;
    var count;
    ok, count, gap := ReadGroupsFrom(text, i, gap, groups);
    if ok {
      ok := Fill(out, groups, count, gap);
    }
  }

  /** The main loop: reads the groups from position start on; a gap at 0 has been seen or not. */
  method ReadGroupsFrom(text: string, start: nat, seen: int, groups: array<Group>)
      returns (ok: bool, count: nat, gap: int)
    requires start <= |text| && groups.Length == 8 && -1 <= seen <= 0
    modifies groups
    ensures var end := ReadGroups(text[start..], Reading([], GapOf(seen)));
      && ok == end.Some?
      && (ok ==> count <= 8 && -1 <= gap <= count && end.value == Reading(groups[..count], GapOf(gap)))
  {
    hide ReadGroups, ReadGroup;
    ghost var goal := ReadGroups(text[start..], Reading([], GapOf(seen)));
    ok, count, gap := false, 0, seen;
    var i := start;
    assert groups[..0] == [];
    while i < |text|
      invariant 0 <= i <= |text| && 0 <= count <= 8 && -1 <= gap <= count
      invariant ReadGroups(text[i..], Reading(groups[..count], GapOf(gap))) == goal
    {
      ghost var r, at := Reading(groups[..count], GapOf(gap)), i;
      var good, end, value := ReadDigits(text, i);
      OneGroup(text[i..], r, goal);
      if !good || count >= 8 {
        return;
      }
      groups[count] := value;
      count := count + 1;
      assert Reading(groups[..count], GapOf(gap)) == Grown(r, text[i..][..DigitRun(text[i..])]);
      i := end;
      Following(text, at, i - at);
      if i == |text| {
        break;
      }
      if text[i] != ':' {
        return;
      }
      i := i + 1;
      if i < |text| && text[i] == ':' {
        if gap != -1 {
          return;
        }
        gap := count;
        i := i + 1;
        if i == |text| {
          break;
        }
      } else if i == |text| {
        return;
      }
    }
    assert goal == Some(Reading(groups[..count], GapOf(gap))) by {
      assert text[|text|..] == "";
      Ended(Reading(groups[..count], GapOf(gap)));
    }
    ok := true;
  }

  lemma AllZero(text: string)
    requires text == "::"
    ensures AddressOf(text) == Some(seq(16, _ => 0 as byte))
  {
    assert text[2..] == "";
    var g := Denotes(Gapped([], []));
    FormsAreAccepted(Gapped([], []));
    assert BytesOf(g) == seq(16, _ => 0 as byte);
  }

  lemma Ended(r: Reading)
    ensures ReadGroups("", r) == Some(r)
  {
  }

  lemma Following(text: string, i: nat, d: nat)
    requires i + d <= |text|
    ensures i + d < |text| ==> text[i..][d] == text[i + d] && text[i..][d + 1..] == text[i + d + 1..]
    ensures i + d + 1 < |text| ==> text[i..][d + 1] == text[i + d + 1] && text[i..][d + 2..] == text[i + d + 2..]
  {
  }

  /** One turn of the loop on the text t, by the digits found there. */
  lemma OneGroup(t: string, r: Reading, goal: Option<Reading>)
    requires t != "" && ReadGroups(t, r) == goal
    ensures var d := DigitRun(t);
      if d == 0 || d > 4 || |r.groups| >= 8 then goal == None
      else
        var q := Grown(r, t[..d]);
        if d == |t| then goal == Some(q)
        else if t[d] != ':' || d + 1 == |t| then goal == None
        else if t[d + 1] != ':' then goal == ReadGroups(t[d + 1..], q)
        else if r.gap.Some? then goal == None
        else goal == ReadGroups(t[d + 2..], Opened(q))
  {
    hide Value, DigitRun;
  }
}
