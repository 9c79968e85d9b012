/** IPv6 addresses as text: the printer, and the parser with the grammar it accepts. */
module Ipv6Text {
  import opened Bytes

  type Group = x: int | 0 <= x < 0x1_0000
  type Address = a: seq<byte> | |a| == 16 witness seq(16, _ => 0)
  type Groups = g: seq<Group> | |g| == 8 witness seq(8, _ => 0)

  function GroupAt(ip: Address, i: nat): Group
    requires i < 8
  {
    var high: nat := ip[2 * i];
    high * 256 + ip[2 * i + 1]
  }

  function GroupsOf(ip: Address): Groups {
    seq(8, i requires 0 <= i < 8 => GroupAt(ip, i))
  }

  function BytesOf(g: Groups): Address {
    seq(16, j requires 0 <= j < 16 => (if j % 2 == 0 then g[j / 2] / 256 else g[j / 2] % 256) as byte)
  }

  lemma BytesOfGroups(ip: Address)
    ensures BytesOf(GroupsOf(ip)) == ip
  {
    forall j | 0 <= j < 16
      ensures BytesOf(GroupsOf(ip))[j] == ip[j]
    {
      assert j == 2 * (j / 2) + j % 2;
      assert GroupsOf(ip)[j / 2] == GroupAt(ip, j / 2);
    }
  }

  predicate IsHexDigit(c: char) {
    '0' <= c <= '9' || 'a' <= c <= 'f' || 'A' <= c <= 'F'
  }

  function HexVal(c: char): (d: nat)
    requires IsHexDigit(c)
    ensures d < 16
  {
    if c <= '9' then c as int - '0' as int
    else if c <= 'F' then c as int - 'A' as int + 10
    else c as int - 'a' as int + 10
  }

  function HexChar(d: nat): (c: char)
    requires d < 16
    ensures IsHexDigit(c) && HexVal(c) == d
  {
    "0123456789abcdef"[d]
  }

  /** The digits by their characters: the printer's are the lower-case ones, the parser takes both. */
  lemma DigitsByCharacter(d: nat, c: char)
    requires d < 16
    ensures HexChar(d) in "0123456789abcdef"
    ensures IsHexDigit(c) && HexVal(c) == d <==> c == "0123456789abcdef"[d] || c == "0123456789ABCDEF"[d]
  {
    assert "0123456789abcdef"[d] as int == if d < 10 then 48 + d else 87 + d;
    assert "0123456789ABCDEF"[d] as int == if d < 10 then 48 + d else 55 + d;
  }

  predicate AllHex(s: string) {
    forall i :: 0 <= i < |s| ==> IsHexDigit(s[i])
  }

  /** The number a string of hexadecimal digits denotes. */
  function Value(s: string): nat
    requires AllHex(s)
  {
    if s == "" then 0 else Value(s[..|s| - 1]) * 16 + HexVal(s[|s| - 1])
  }

  /** One group in text: one to four hexadecimal digits. */
  predicate IsToken(s: string) {
    1 <= |s| <= 4 && AllHex(s)
  }

  lemma TokenFits(s: string)
    requires IsToken(s)
    ensures Value(s) < 0x1_0000
  {
    Digits(s, |s|);
    assert Power16(1) == 0x10 && Power16(2) == 0x100;
    assert Power16(3) == 0x1000 && Power16(4) == 0x1_0000;
  }

  function Power16(n: nat): nat {
    if n == 0 then 1 else 16 * Power16(n - 1)
  }

  lemma {:induction false} Digits(s: string, n: nat)
    requires AllHex(s) && |s| == n <= 4
    ensures Value(s) < Power16(n)
  {
    if n > 0 {
      Digits(s[..n - 1], n - 1);
    }
  }

  /** What the printer writes for a group: four lower-case digits. */
  function Hex4(x: Group): (s: string)
    ensures IsToken(s)
  {
    [HexChar(x / 4096), HexChar(x / 256 % 16), HexChar(x / 16 % 16), HexChar(x % 16)]
  }

  /** A printed group has four characters, none of them an upper-case letter. */
  lemma Hex4IsLowerCase(x: Group)
    ensures |Hex4(x)| == 4 && forall c :: c in Hex4(x) ==> '0' <= c <= '9' || 'a' <= c <= 'f'
  {
    assert forall d: nat :: d < 16 ==> HexChar(d) == "0123456789abcdef"[d];
  }

  lemma ValueGrows(s: string, c: char)
    requires AllHex(s) && IsHexDigit(c)
    ensures Value(s + [c]) == Value(s) * 16 + HexVal(c)
  {
    var t := s + [c];
    assert t[..|t| - 1] == s;
  }

  lemma Hex4ReadBack(x: Group)
    ensures Value(Hex4(x)) == x
  {
    hide HexVal;
    var s1 := "" + [HexChar(x / 4096)];
    var s2 := s1 + [HexChar(x / 256 % 16)];
    var s3 := s2 + [HexChar(x / 16 % 16)];
    ValueGrows("", HexChar(x / 4096));
    ValueGrows(s1, HexChar(x / 256 % 16));
    ValueGrows(s2, HexChar(x / 16 % 16));
    ValueGrows(s3, HexChar(x % 16));
    assert Hex4(x) == s3 + [HexChar(x % 16)];
    NibblesMake(x);
  }

  lemma NibblesMake(x: Group)
    ensures ((x / 4096 * 16 + x / 256 % 16) * 16 + x / 16 % 16) * 16 + x % 16 == x
  {
    var n: nat := x;
    assert n / 256 == n / 4096 * 16 + n / 256 % 16;
    assert n / 16 == n / 256 * 16 + n / 16 % 16;
  }

  predicate AllTokens(ts: seq<string>) {
    forall t :: t in ts ==> IsToken(t)
  }

  function Join(tokens: seq<string>): string {
    if tokens == [] then ""
    else if |tokens| == 1 then tokens[0]
    else tokens[0] + ":" + Join(tokens[1..])
  }

  /**
   The forms of section 2.2 of RFC 4291 without an embedded IPv4 address: eight groups, or
   fewer with one `::` standing for the missing ones.
   */
  datatype Form = Full(tokens: seq<string>) | Gapped(left: seq<string>, right: seq<string>)

  predicate WellFormed(f: Form) {
    match f
    case Full(ts) => |ts| == 8 && AllTokens(ts)
    case Gapped(l, r) => |l| + |r| < 8 && AllTokens(l) && AllTokens(r)
  }

  function FormText(f: Form): string {
    match f
    case Full(ts) => Join(ts)
    case Gapped(l, r) => Join(l) + "::" + Join(r)
  }

  function Values(tokens: seq<string>): (vs: seq<Group>)
    requires AllTokens(tokens)
    ensures |vs| == |tokens|
  {
    if tokens == [] then []
    else
      TokenFits(tokens[0]);
      [Value(tokens[0])] + Values(tokens[1..])
  }

  function Zeros(n: nat): seq<Group> {
    seq(n, _ => 0)
  }

  /** The address a form denotes, as groups. */
  function Denotes(f: Form): Groups
    requires WellFormed(f)
  {
    match f
    case Full(ts) => Values(ts)
    case Gapped(l, r) => Values(l) + Zeros(8 - |l| - |r|) + Values(r)
  }

  /** Length of the run of hexadecimal digits at the front. */
  function DigitRun(t: string): (d: nat)
    ensures d <= |t| && AllHex(t[..d])
    ensures d < |t| ==> !IsHexDigit(t[d])
  {
    if t == "" || !IsHexDigit(t[0]) then 0 else 1 + DigitRun(t[1..])
  }

  /** The groups read and where the `::` was, if there was one. */
  datatype Reading = Reading(groups: seq<Group>, gap: Option<nat>)

  datatype Turn = Bad | Last(reading: Reading) | More(rest: string, reading: Reading)

  /** One turn of the parser's main loop: a group and the colons behind it. */
  function ReadGroup(t: string, r: Reading): (turn: Turn)
    requires t != ""
    ensures turn.More? ==> |turn.rest| < |t|
  {
    var d := DigitRun(t);
    if d > 4 || d == 0 || |r.groups| >= 8 then Bad
    else
      TokenFits(t[..d]);
      var groups := r.groups + [Value(t[..d])];
      if d == |t| then Last(r.(groups := groups))
      else if t[d] != ':' || d + 1 == |t| then Bad
      else if t[d + 1] != ':' then More(t[d + 1..], r.(groups := groups))
      else if r.gap.Some? then Bad
      else More(t[d + 2..], Reading(groups, Some(|groups|)))
  }

  /** The main loop on the text still to be read. */
  function ReadGroups(t: string, r: Reading): Option<Reading>
    decreases |t|
  {
    if t == "" then Some(r)
    else
      match ReadGroup(t, r)
      case Bad => None
      case Last(q) => Some(q)
      case More(rest, q) => ReadGroups(rest, q)
  }

  /** Fills the gap with zeros, if the counts allow it. */
  function Assemble(r: Reading): Option<Groups> {
    match r.gap
    case None => if |r.groups| == 8 then Some(r.groups) else None
    case Some(g) =>
      if |r.groups| >= 8 || g > |r.groups| then None
      else Some(r.groups[..g] + Zeros(8 - |r.groups|) + r.groups[g..])
  }

  function StartsGapped(t: string): bool {
    |t| >= 2 && t[0] == ':' && t[1] == ':'
  }

  /** `addressFromString` as a function from text to groups. */
  function ParseGroups(t: string): Option<Groups> {
    if !StartsGapped(t) && t != "" && t[0] == ':' then None
    else
      var start :=
        if StartsGapped(t) then ReadGroups(t[2..], Reading([], Some(0))) else ReadGroups(t, Reading([], None));
      match start
      case None => None
      case Some(r) => Assemble(r)
  }

  function AddressOf(t: string): Option<Address> {
    match ParseGroups(t)
    case None => None
    case Some(g) => Some(BytesOf(g))
  }

  lemma {:induction false} DigitRunOfToken(token: string, rest: string)
    requires AllHex(token) && (rest == "" || !IsHexDigit(rest[0]))
    ensures DigitRun(token + rest) == |token| && (token + rest)[..|token|] == token && (token + rest)[|token|..] == rest
    decreases |token|
  {
    if token == "" {
      assert token + rest == rest;
    } else {
      assert (token + rest)[1..] == token[1..] + rest;
      DigitRunOfToken(token[1..], rest);
    }
  }

  /** The text of tokens starts with a hexadecimal digit. */
  lemma JoinStartsWithDigit(ts: seq<string>)
    requires ts != [] && AllTokens(ts)
    ensures Join(ts) != "" && IsHexDigit(Join(ts)[0])
  {
    assert IsToken(ts[0]);
  }

  /** The reading after one more group. */
  function Grown(r: Reading, token: string): Reading
    requires IsToken(token)
  {
    TokenFits(token);
    r.(groups := r.groups + [Value(token)])
  }

  function Opened(r: Reading): Reading {
    r.(gap := Some(|r.groups|))
  }

  /** What one turn does on a group followed by nothing, by a colon, or by two. */
  lemma ReadsToken(token: string, rest: string, r: Reading)
    requires IsToken(token) && |r.groups| < 8
    ensures ReadGroup(token, r) == Last(Grown(r, token))
    ensures rest != "" && rest[0] != ':' ==> ReadGroup(token + ":" + rest, r) == More(rest, Grown(r, token))
    ensures r.gap.None? ==> ReadGroup(token + "::" + rest, r) == More(rest, Opened(Grown(r, token)))
  {
    hide Value, DigitRun;
    DigitRunOfToken(token, "");
    assert token + "" == token;
    var one, two := ":" + rest, "::" + rest;
    DigitRunOfToken(token, one);
    DigitRunOfToken(token, two);
    assert token + ":" + rest == token + one && token + "::" + rest == token + two;
    assert (token + one)[|token| + 1..] == rest;
    assert (token + two)[|token| + 2..] == rest;
  }

  /** Reading tokens to the end of the text. */
  lemma {:induction false} ReadsTokens(ts: seq<string>, r: Reading)
    requires AllTokens(ts) && |r.groups| + |ts| <= 8
    ensures ReadGroups(Join(ts), r) == Some(r.(groups := r.groups + Values(ts)))
    decreases |ts|
  {
    if ts == [] {
      assert r.groups + Values(ts) == r.groups;
    } else {
      hide Value, ReadGroup, AllHex;
      var rest, r1 := Join(ts[1..]), Grown(r, ts[0]);
      assert r.groups + Values(ts) == r1.groups + Values(ts[1..]);
      ReadsToken(ts[0], rest, r);
      if |ts| == 1 {
        assert r1.groups + Values(ts[1..]) == r1.groups;
      } else {
        JoinStartsWithDigit(ts[1..]);
        ReadsTokens(ts[1..], r1);
      }
    }
  }

  /** Reading tokens, a `::` and the tokens after it. */
  lemma {:induction false} ReadsGapped(l: seq<string>, rt: seq<string>, r: Reading)
    requires l != [] && r.gap.None? && |r.groups| + |l| + |rt| <= 8
    requires AllTokens(l) && AllTokens(rt)
    ensures ReadGroups(Join(l) + "::" + Join(rt), r) ==
            Some(Reading(r.groups + Values(l) + Values(rt), Some(|r.groups| + |l|)))
    decreases |l|
  {
    hide Value, ReadGroup, AllHex;
    var r1 := Grown(r, l[0]);
    assert r.groups + Values(l) == r1.groups + Values(l[1..]);
    if |l| == 1 {
      ReadsToken(l[0], Join(rt), r);
      ReadsTokens(rt, Opened(r1));
      assert r1.groups + Values(l[1..]) == r1.groups;
    } else {
      var rest := Join(l[1..]) + "::" + Join(rt);
      JoinStartsWithDigit(l[1..]);
      ReadsToken(l[0], rest, r);
      assert Join(l) + "::" + Join(rt) == l[0] + ":" + rest;
      ReadsGapped(l[1..], rt, r1);
    }
  }

  lemma NoValues(ts: seq<string>)
    requires ts == []
    ensures Values(ts) == []
  {
  }

  /** Every well-formed text is accepted with its meaning. */
  lemma FormsAreAccepted(f: Form)
    requires WellFormed(f)
    ensures ParseGroups(FormText(f)) == Some(Denotes(f))
  {
    hide ReadGroups, ReadGroup, Values;
    match f {
      case Full(ts) =>
        JoinStartsWithDigit(ts);
        ReadsTokens(ts, Reading([], None));
        assert [] + Values(ts) == Values(ts);
      case Gapped(l, r) =>
        var text := FormText(f);
        if l == [] {
          assert Values(l) == [] by { NoValues(l); }
          assert text == "::" + Join(r);
          assert text[2..] == Join(r);
          ReadsTokens(r, Reading([], Some(0)));
          assert [] + Values(r) == Values(r);
          assert Values(r)[..0] == [] && Values(r)[0..] == Values(r);
        } else {
          JoinStartsWithDigit(l);
          ReadsGapped(l, r, Reading([], None));
          var groups := [] + Values(l) + Values(r);
          assert groups[..|l|] == Values(l) && groups[|l|..] == Values(r);
        }
    }
  }

  /** What a successful turn has read. */
  lemma TurnReads(t: string, r: Reading) returns (token: string)
    requires t != "" && !ReadGroup(t, r).Bad?
    ensures IsToken(token)
    ensures match ReadGroup(t, r)
            case Last(q) => t == token && |q.groups| == |r.groups| + 1 && q.gap == r.gap
            case More(rest, q) =>
              && |q.groups| == |r.groups| + 1
              && if q.gap == r.gap then rest != "" && rest[0] != ':' && t == token + ":" + rest
                 else r.gap.None? && q.gap == Some(|q.groups|) && t == token + "::" + rest
  {
    hide Value;
    var d := DigitRun(t);
    token := t[..d];
    assert t == token + t[d..];
    if d + 1 < |t| {
      assert t[d..] == ":" + t[d + 1..];
      if t[d + 1] == ':' {
        assert t[d..] == "::" + t[d + 2..];
      }
    }
  }

  lemma JoinCons(token: string, ts: seq<string>)
    requires IsToken(token) && AllTokens(ts)
    ensures Join([token]) == token && AllTokens([token]) && AllTokens([token] + ts)
    ensures ts != [] ==> Join([token] + ts) == token + ":" + Join(ts)
  {
    assert ([token] + ts)[1..] == ts;
  }

  /** The text of tokens, with a `::` behind the first of them if gapped. */
  function TextOf(l: seq<string>, rt: seq<string>, gapped: bool): string {
    if gapped then Join(l) + "::" + Join(rt) else Join(l)
  }

  lemma PlainText(l: seq<string>)
    ensures TextOf(l, [], false) == Join(l)
    ensures l == [] ==> Join(l) == ""
  {
  }

  lemma GappedText(token: string, rt: seq<string>)
    requires IsToken(token)
    ensures AllTokens([token])
    ensures TextOf([token], rt, true) == token + "::" + Join(rt)
  {
  }

  lemma TextCons(token: string, l: seq<string>, rt: seq<string>, gapped: bool)
    requires l != [] && IsToken(token) && AllTokens(l)
    ensures AllTokens([token] + l)
    ensures TextOf([token] + l, rt, gapped) == token + ":" + TextOf(l, rt, gapped)
  {
    JoinCons(token, l);
    assert token + ":" + (Join(l) + "::" + Join(rt)) == (token + ":" + Join(l)) + "::" + Join(rt);
  }

  /** What reading the text from r to q has found: tokens, and after a first `::` more tokens. */
  datatype Found = Found(l: seq<string>, rt: seq<string>, gapped: bool)

  predicate Explains(w: Found, t: string, r: Reading, q: Reading) {
    && AllTokens(w.l) && AllTokens(w.rt)
    && (w.gapped ==> r.gap.None? && w.l != [])
    && (!w.gapped ==> w.rt == [])
    && (t == "" || t[0] == ':' || w.l != [])
    && t == TextOf(w.l, w.rt, w.gapped)
    && |q.groups| == |r.groups| + |w.l| + |w.rt|
    && q.gap == if w.gapped then Some(|r.groups| + |w.l|) else r.gap
  }

  lemma ExplainsColon(w: Found, token: string, rest: string, r: Reading, q: Reading, end: Reading) returns (v: Found)
    requires Explains(w, rest, q, end) && IsToken(token) && rest != "" && rest[0] != ':'
    requires |q.groups| == |r.groups| + 1 && q.gap == r.gap
    ensures Explains(v, token + ":" + rest, r, end)
  {
    hide TextOf, AllTokens, IsToken;
    v := Found([token] + w.l, w.rt, w.gapped);
    TextCons(token, w.l, w.rt, w.gapped);
  }

  lemma ExplainsGap(w: Found, token: string, rest: string, r: Reading, q: Reading, end: Reading) returns (v: Found)
    requires Explains(w, rest, q, end) && IsToken(token)
    requires |q.groups| == |r.groups| + 1 && r.gap.None? && q.gap == Some(|q.groups|)
    ensures Explains(v, token + "::" + rest, r, end)
  {
    hide TextOf, AllTokens, IsToken;
    v := Found([token], w.l, true);
    PlainText(w.l);
    GappedText(token, w.l);
  }

  lemma {:induction false} ReadingIsTokens(t: string, r: Reading) returns (w: Found)
    requires ReadGroups(t, r).Some?
    ensures Explains(w, t, r, ReadGroups(t, r).value)
    decreases |t|
  {
    if t == "" {
      w := Found([], [], false);
    } else {
      hide ReadGroup, IsToken, Explains;
      var token := TurnReads(t, r);
      match ReadGroup(t, r)
      case Last(q) =>
        w := ExplainsLast(token, r, q);
      case More(rest, q) =>
        var w1 := ReadingIsTokens(rest, q);
        if q.gap == r.gap {
          w := ExplainsColon(w1, token, rest, r, q, ReadGroups(t, r).value);
        } else {
          w := ExplainsGap(w1, token, rest, r, q, ReadGroups(t, r).value);
        }
    }
  }

  lemma ExplainsLast(token: string, r: Reading, q: Reading) returns (w: Found)
    requires IsToken(token) && |q.groups| == |r.groups| + 1 && q.gap == r.gap
    ensures Explains(w, token, r, q)
  {
    w := Found([token], [], false);
    JoinCons(token, []);
  }

  /**
   The parser accepts exactly the texts of the grammar, and gives each its meaning: nothing
   else is accepted, whatever the letter case or the leading zeros.
   */
  lemma ParserAcceptsTheGrammar(t: string)
    ensures ParseGroups(t).Some? <==> exists f :: WellFormed(f) && FormText(f) == t
    ensures forall f :: WellFormed(f) && FormText(f) == t ==> ParseGroups(t) == Some(Denotes(f))
  {
    forall f | WellFormed(f) && FormText(f) == t
      ensures ParseGroups(t) == Some(Denotes(f))
    {
      FormsAreAccepted(f);
    }
    if ParseGroups(t).Some? {
      var f := AcceptedForm(t);
      assert WellFormed(f) && FormText(f) == t;
    }
  }

  lemma AcceptedForm(t: string) returns (f: Form)
    requires ParseGroups(t).Some?
    ensures WellFormed(f) && FormText(f) == t
  {
    hide ReadGroups;
    if StartsGapped(t) {
      var w := ReadingIsTokens(t[2..], Reading([], Some(0)));
      f := Gapped([], w.l);
      assert t == "::" + t[2..];
    } else {
      var w := ReadingIsTokens(t, Reading([], None));
      f := if w.gapped then Gapped(w.l, w.rt) else Full(w.l);
    }
  }
}
