/** Characters, searches, tokens and numbers of HTTP/1.x, over octets. */
module HttpText {
  import opened Bytes

  const TAB: byte := 9
  const LF: byte := 10
  const CR: byte := 13
  const SP: byte := 32
  const COLON: byte := 58
  const SEMICOLON: byte := 59

  const MAX_U64: nat := 0xFFFF_FFFF_FFFF_FFFF

  /** The octets of an ASCII literal. */
  function Ascii(s: string): (b: seq<byte>)
    ensures |b| == |s|
    ensures forall i :: 0 <= i < |s| ==> b[i] == s[i] as int % 256
  {
    seq(|s|, i requires 0 <= i < |s| => (s[i] as int % 256) as byte)
  }

  /** Index of the first `b` at or after `from`, the length of `s` if there is none. */
  function Find(s: seq<byte>, b: byte, from: nat): (k: nat)
    requires from <= |s|
    ensures from <= k <= |s|
    ensures k < |s| ==> s[k] == b
    ensures forall i :: from <= i < k ==> s[i] != b
    decreases |s| - from
  {
    if from == |s| || s[from] == b then from else Find(s, b, from + 1)
  }

  predicate StartsWith(s: seq<byte>, m: seq<byte>) {
    |m| <= |s| && s[..|m|] == m
  }

  predicate IsDigit(c: byte) {
    48 <= c <= 57
  }

  predicate IsTokenChar(c: byte) {
    || 97 <= c <= 122 || 65 <= c <= 90 || IsDigit(c)
    || c in Ascii("!#$%&'*+-.^_`|~")
  }

  predicate IsToken(s: seq<byte>) {
    s != [] && forall c :: c in s ==> IsTokenChar(c)
  }

  predicate IsOws(c: byte) {
    c == SP || c == TAB
  }

  function TrimRight(s: seq<byte>): seq<byte> {
    if s != [] && IsOws(s[|s| - 1]) then TrimRight(s[..|s| - 1]) else s
  }

  function TrimLeft(s: seq<byte>): seq<byte> {
    if s != [] && IsOws(s[0]) then TrimLeft(s[1..]) else s
  }

  function TrimOws(s: seq<byte>): seq<byte> {
    TrimRight(TrimLeft(s))
  }

  function Lower(c: byte): byte {
    if 65 <= c <= 90 then c + 32 else c
  }

  /** `util::isEquals`: equality up to ASCII case. */
  predicate EqualsIgnoringCase(a: seq<byte>, b: seq<byte>) {
    |a| == |b| && forall i :: 0 <= i < |a| ==> Lower(a[i]) == Lower(b[i])
  }

  function DigitValue(c: byte): nat
    requires IsDigit(c)
  {
    c - 48
  }

  predicate AllDigits(s: seq<byte>) {
    forall i :: 0 <= i < |s| ==> IsDigit(s[i])
  }

  /** The number a digit string denotes. */
  function DecimalValue(s: seq<byte>): nat
    requires AllDigits(s)
  {
    if s == [] then 0 else DecimalValue(s[..|s| - 1]) * 10 + DigitValue(s[|s| - 1])
  }

  /** The accepted decimal numbers: digits only, at least one, and the value fits 64 bits. */
  function DecimalOf(s: seq<byte>): Option<nat> {
    if s != [] && AllDigits(s) && DecimalValue(s) <= MAX_U64 then Some(DecimalValue(s)) else None
  }

  lemma {:induction false} DecimalGrows(s: seq<byte>, k: nat)
    requires AllDigits(s) && k <= |s|
    ensures DecimalValue(s[..k]) <= DecimalValue(s)
    decreases |s|
  {
    if k == |s| {
      assert s[..k] == s;
    } else {
      assert s[..|s| - 1][..k] == s[..k];
      DecimalGrows(s[..|s| - 1], k);
    }
  }

  method ParseDecimal(s: seq<byte>) returns (r: Option<nat>)
    ensures r == DecimalOf(s)
  {
    if s == [] { return None; }
    var value: nat := 0;
    for i := 0 to |s|
      invariant AllDigits(s[..i])
      invariant value == DecimalValue(s[..i]) <= MAX_U64
    {
      if !IsDigit(s[i]) { return None; }
      var digit := DigitValue(s[i]);
      assert s[..i + 1][..i] == s[..i];
      if value > (MAX_U64 - digit) / 10 {
        if AllDigits(s) {
          DecimalGrows(s, i + 1);
        }
        return None;
      }
      value := value * 10 + digit;
    }
    assert s[..|s|] == s;
    return Some(value);
  }

  predicate IsHex(c: byte) {
    IsDigit(c) || 97 <= c <= 102 || 65 <= c <= 70
  }

  function HexDigit(c: byte): nat
    requires IsHex(c)
  {
    if IsDigit(c) then c - 48 else if c >= 97 then c - 87 else c - 55
  }

  predicate AllHex(s: seq<byte>) {
    forall i :: 0 <= i < |s| ==> IsHex(s[i])
  }

  function HexValue(s: seq<byte>): nat
    requires AllHex(s)
  {
    if s == [] then 0 else HexValue(s[..|s| - 1]) * 16 + HexDigit(s[|s| - 1])
  }

  /** `from_chars` in base 16 over a whole string: fails on a stray character and on overflow. */
  function HexOf(s: seq<byte>): Option<nat> {
    if s != [] && AllHex(s) && HexValue(s) <= MAX_U64 then Some(HexValue(s)) else None
  }

  /** The hexadecimal digits of a number, without leading zeros. */
  function Hex(n: nat): (s: seq<byte>)
    ensures s != [] && AllHex(s)
  {
    var d := n % 16;
    var c: byte := if d < 10 then d + 48 else d + 87;
    if n < 16 then [c] else Hex(n / 16) + [c]
  }

  lemma {:induction false} HexReadBack(n: nat)
    ensures HexValue(Hex(n)) == n
  {
    if n >= 16 {
      HexReadBack(n / 16);
      assert Hex(n)[..|Hex(n)| - 1] == Hex(n / 16);
    } else {
      assert Hex(n)[..0] == [];
    }
  }

  /** The decimal digits of a number, without leading zeros. */
  function Decimal(n: nat): (s: seq<byte>)
    ensures s != [] && AllDigits(s)
  {
    var c: byte := n % 10 + 48;
    if n < 10 then [c] else Decimal(n / 10) + [c]
  }

  /** Leading zeros. */
  function Noughts(k: nat): (s: seq<byte>)
    ensures |s| == k && AllDigits(s) && forall i :: 0 <= i < k ==> s[i] == 48
  {
    seq(k, _ => 48)
  }

  lemma DecimalSnoc(s: seq<byte>, c: byte)
    requires AllDigits(s) && IsDigit(c)
    ensures AllDigits(s + [c]) && DecimalValue(s + [c]) == DecimalValue(s) * 10 + (c as int - 48)
  {
    assert (s + [c])[..|s|] == s;
  }

  lemma {:induction false} NoughtsAreNothing(k: nat)
    ensures DecimalValue(Noughts(k)) == 0
  {
    if k > 0 {
      NoughtsAreNothing(k - 1);
      assert Noughts(k) == Noughts(k - 1) + [48];
      DecimalSnoc(Noughts(k - 1), 48);
    }
  }

  /** A number written in decimal, with any leading zeros, has its own value. */
  lemma {:induction false} DecimalValueOf(n: nat, k: nat)
    ensures DecimalValue(Noughts(k) + Decimal(n)) == n
    decreases n
  {
    var c: byte := n % 10 + 48;
    if n < 10 {
      NoughtsAreNothing(k);
      DecimalSnoc(Noughts(k), c);
    } else {
      DecimalValueOf(n / 10, k);
      DecimalSnoc(Noughts(k) + Decimal(n / 10), c);
      assert Noughts(k) + Decimal(n) == Noughts(k) + Decimal(n / 10) + [c];
    }
  }

  /** Every string of digits is a number in decimal with some leading zeros. */
  lemma {:induction false} DigitsAreDecimal(s: seq<byte>) returns (k: nat)
    requires s != [] && AllDigits(s)
    ensures s == Noughts(k) + Decimal(DecimalValue(s))
    decreases |s|
  {
    var t, c := s[..|s| - 1], s[|s| - 1];
    assert s == t + [c];
    DecimalSnoc(t, c);
    k := 0;
    if t == [] {
      assert Noughts(0) + [c] == [c];
    } else {
      k := DigitsAreDecimal(t);
      if DecimalValue(t) == 0 {
        k := k + 1;
        assert Noughts(k) == Noughts(k - 1) + [48];
      } else {
        assert Noughts(k) + Decimal(DecimalValue(t)) + [c] == Noughts(k) + (Decimal(DecimalValue(t)) + [c]);
      }
    }
  }

  /**
   The accepted decimals, told by writing: exactly the numbers below 2^64 in decimal, with any
   leading zeros.
   */
  lemma DecimalsAreNumbers(s: seq<byte>, n: nat)
    ensures DecimalOf(s) == Some(n) <==>
            n < 0x1_0000_0000_0000_0000 && exists k: nat :: s == Noughts(k) + Decimal(n)
  {
    if s != [] && AllDigits(s) {
      var k := DigitsAreDecimal(s);
    }
    forall k: nat | s == Noughts(k) + Decimal(n)
      ensures AllDigits(s) && DecimalValue(s) == n
    {
      DecimalValueOf(n, k);
    }
  }

  /** Hexadecimal letters in lower case. */
  function LowerHex(s: seq<byte>): (t: seq<byte>)
    ensures |t| == |s|
  {
    seq(|s|, i requires 0 <= i < |s| => LowerDigit(s[i]))
  }

  function LowerDigit(c: byte): byte {
    if 65 <= c <= 70 then c as int + 32 else c
  }

  lemma HexSnoc(v: nat, c: byte)
    requires IsHex(c)
    ensures Hex(v * 16 + HexDigit(c)) == (if v == 0 then [] else Hex(v)) + [LowerDigit(c)]
  {
    assert (v * 16 + HexDigit(c)) / 16 == v && (v * 16 + HexDigit(c)) % 16 == HexDigit(c);
  }

  /** Every string of hexadecimal digits is a number in hexadecimal, in either case, with some leading zeros. */
  lemma {:induction false} DigitsAreHex(s: seq<byte>) returns (k: nat)
    requires s != [] && AllHex(s)
    ensures LowerHex(s) == Noughts(k) + Hex(HexValue(s))
    decreases |s|
  {
    hide HexDigit, Hex, LowerDigit;
    var t, c := s[..|s| - 1], s[|s| - 1];
    var l: seq<byte> := [LowerDigit(c)];
    assert LowerHex(s) == LowerHex(t) + l;
    HexSnoc(HexValue(t), c);
    k := 0;
    if t == [] {
      assert Noughts(0) + l == [] + l == LowerHex(s);
    } else {
      k := DigitsAreHex(t);
      if HexValue(t) == 0 {
        k := k + 1;
        ZeroInHex();
        assert Noughts(k) == Noughts(k - 1) + [48];
        assert Noughts(k) + l == Noughts(k) + ([] + l);
      } else {
        assert Noughts(k) + Hex(HexValue(t)) + l == Noughts(k) + (Hex(HexValue(t)) + l);
      }
    }
  }

  lemma ZeroInHex()
    ensures Hex(0) == [48]
  {
  }

  lemma HexJoin(s: seq<byte>, c: byte)
    requires AllHex(s) && IsHex(c)
    ensures AllHex(s + [c]) && HexValue(s + [c]) == HexValue(s) * 16 + HexDigit(c)
  {
    assert (s + [c])[..|s|] == s;
  }

  lemma {:induction false} NoughtsAreNoHex(k: nat)
    ensures HexValue(Noughts(k)) == 0
  {
    if k > 0 {
      NoughtsAreNoHex(k - 1);
      assert Noughts(k) == Noughts(k - 1) + [48];
      HexJoin(Noughts(k - 1), 48);
    }
  }

  lemma {:induction false} HexValueOf(n: nat, k: nat)
    ensures AllHex(Noughts(k) + Hex(n)) && HexValue(Noughts(k) + Hex(n)) == n
    decreases n
  {
    var d := n % 16;
    var c: byte := if d < 10 then d + 48 else d + 87;
    if n < 16 {
      NoughtsAreNoHex(k);
      HexJoin(Noughts(k), c);
    } else {
      HexValueOf(n / 16, k);
      HexJoin(Noughts(k) + Hex(n / 16), c);
      assert Noughts(k) + Hex(n) == Noughts(k) + Hex(n / 16) + [c];
    }
  }

  lemma {:induction false} CaseIsNoMatter(s: seq<byte>)
    requires AllHex(LowerHex(s))
    ensures AllHex(s) && HexValue(s) == HexValue(LowerHex(s))
    decreases |s|
  {
    forall i | 0 <= i < |s|
      ensures IsHex(s[i])
    {
      assert IsHex(LowerHex(s)[i]);
    }
    if s != [] {
      var t := s[..|s| - 1];
      assert LowerHex(s)[..|s| - 1] == LowerHex(t);
      CaseIsNoMatter(t);
    }
  }

  /** The accepted hexadecimals: exactly the numbers below 2^64, in either case, with any leading zeros. */
  lemma HexesAreNumbers(s: seq<byte>, n: nat)
    ensures HexOf(s) == Some(n) <==>
            n < 0x1_0000_0000_0000_0000 && exists k: nat :: LowerHex(s) == Noughts(k) + Hex(n)
  {
    hide HexValue, Hex, HexDigit;
    if s != [] && AllHex(s) {
      var k := DigitsAreHex(s);
    }
    forall k: nat | LowerHex(s) == Noughts(k) + Hex(n)
      ensures s != [] && AllHex(s) && HexValue(s) == n
    {
      HexValueOf(n, k);
      CaseIsNoMatter(s);
    }
  }

  /** The same octet, or the same ASCII letter in the other case. */
  predicate SameLetter(a: byte, b: byte) {
    a == b || (65 <= a <= 90 && b == a as int + 32) || (97 <= a <= 122 && b == a as int - 32)
  }

  lemma EqualsIgnoresOnlyCase(a: seq<byte>, b: seq<byte>)
    ensures EqualsIgnoringCase(a, b) <==> |a| == |b| && forall i :: 0 <= i < |a| ==> SameLetter(a[i], b[i])
  {
  }

  /** The token characters of section 5.6.2 of RFC 9110, by their codes. */
  lemma TokenCharsByCode(c: byte)
    ensures IsTokenChar(c) <==>
            || 48 <= c <= 57 || 65 <= c <= 90 || 97 <= c <= 122
            || c in [33, 35, 36, 37, 38, 39, 42, 43, 45, 46, 94, 95, 96, 124, 126]
  {
    assert Ascii("!#$%&'*+-.^_`|~") == [33, 35, 36, 37, 38, 39, 42, 43, 45, 46, 94, 95, 96, 124, 126];
  }
}
