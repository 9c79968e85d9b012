/** The five-tuple of a packet and its normal form, shared by both directions of a connection. */
module FlowKey {
  import opened Bytes

  type Address = a: seq<byte> | |a| == 16 witness seq(16, _ => 0)

  datatype FlowKey = FlowKey(
    isIpv4: bool, srcIp: Address, dstIp: Address, srcPort: nat, dstPort: nat, protocol: nat)

  /** `memcmp`: the sign of the first difference, as -1, 0 or 1. */
  function Compare(a: seq<byte>, b: seq<byte>): (c: int)
    requires |a| == |b|
    ensures -1 <= c <= 1
  {
    if a == [] then 0
    else if a[0] < b[0] then -1
    else if a[0] > b[0] then 1
    else Compare(a[1..], b[1..])
  }

  /** The same packet's key seen from the other end. */
  function Reverse(k: FlowKey): FlowKey {
    k.(srcIp := k.dstIp, dstIp := k.srcIp, srcPort := k.dstPort, dstPort := k.srcPort)
  }

  predicate MustSwap(k: FlowKey) {
    Compare(k.srcIp, k.dstIp) > 0 || (Compare(k.srcIp, k.dstIp) == 0 && k.srcPort > k.dstPort)
  }

  /** `normalize`: the key in normal form and whether its ends were swapped. */
  function Normalize(k: FlowKey): (FlowKey, bool) {
    if MustSwap(k) then (Reverse(k), true) else (k, false)
  }

  lemma {:induction false} CompareIsOrder(a: seq<byte>, b: seq<byte>)
    requires |a| == |b|
    ensures Compare(a, b) == -Compare(b, a)
    ensures Compare(a, b) == 0 <==> a == b
  {
    if a != [] {
      CompareIsOrder(a[1..], b[1..]);
      assert a == [a[0]] + a[1..] && b == [b[0]] + b[1..];
    }
  }

  /** Both directions of a connection have one normal form, and the flag tells them apart. */
  lemma DirectionsShareKey(k: FlowKey)
    ensures Normalize(k).0 == Normalize(Reverse(k)).0
    ensures Normalize(k).1 == Normalize(Reverse(k)).1 <==> k == Reverse(k)
    ensures Normalize(Normalize(k).0) == (Normalize(k).0, false)
  {
    CompareIsOrder(k.srcIp, k.dstIp);
  }

  /** Nothing else shares it: two keys have the same normal form only if they are equal or opposite. */
  lemma SameKeySameConnection(k: FlowKey, l: FlowKey)
    ensures Normalize(k).0 == Normalize(l).0 <==> l == k || l == Reverse(k)
  {
    DirectionsShareKey(k);
    assert Reverse(Reverse(l)) == l;
  }

  /** `a` is larger at the first octet in which the two differ. */
  predicate Larger(a: seq<byte>, b: seq<byte>)
    requires |a| == |b|
  {
    exists i :: 0 <= i < |a| && a[..i] == b[..i] && a[i] > b[i]
  }

  lemma {:induction false} CompareMeans(a: seq<byte>, b: seq<byte>)
    requires |a| == |b|
    ensures Compare(a, b) > 0 <==> Larger(a, b)
  {
    if a != [] {
      CompareMeans(a[1..], b[1..]);
      if a[0] > b[0] {
        assert a[..0] == b[..0];
        assert Larger(a, b);
      } else if a[0] == b[0] && Larger(a[1..], b[1..]) {
        var i :| 0 <= i < |a[1..]| && a[1..][..i] == b[1..][..i] && a[1..][i] > b[1..][i];
        assert a[..i + 1] == [a[0]] + a[1..][..i] && b[..i + 1] == [b[0]] + b[1..][..i];
        assert a[i + 1] > b[i + 1];
      } else if Larger(a, b) {
        var i :| 0 <= i < |a| && a[..i] == b[..i] && a[i] > b[i];
        LargerBehind(a, b, i);
      }
    }
  }

  lemma LargerBehind(a: seq<byte>, b: seq<byte>, i: nat)
    requires |a| == |b| && i < |a| && a[..i] == b[..i] && a[i] > b[i]
    ensures a[0] > b[0] || (a[0] == b[0] && Larger(a[1..], b[1..]))
  {
    if i > 0 {
      assert a[..i][0] == a[0] && b[..i][0] == b[0];
      assert a[1..][..i - 1] == a[..i][1..] && b[1..][..i - 1] == b[..i][1..];
      assert a[1..][i - 1] > b[1..][i - 1];
    }
  }

  /**
   The normal form is the key or its reverse, as the flag says: reversed exactly if the source
   address is the larger at the first octet in which they differ, or they do not and the
   source port is the larger.
   */
  lemma NormalFormIsLeast(k: FlowKey)
    ensures var (n, swapped) := Normalize(k);
      && (swapped <==> Larger(k.srcIp, k.dstIp) || (k.srcIp == k.dstIp && k.srcPort > k.dstPort))
      && n == (if swapped
               then k.(srcIp := k.dstIp, dstIp := k.srcIp, srcPort := k.dstPort, dstPort := k.srcPort)
               else k)
      && !Larger(n.srcIp, n.dstIp) && (n.srcIp == n.dstIp ==> n.srcPort <= n.dstPort)
  {
    CompareIsOrder(k.srcIp, k.dstIp);
    CompareMeans(k.srcIp, k.dstIp);
    CompareMeans(k.dstIp, k.srcIp);
  }
}
