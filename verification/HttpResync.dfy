/** Finding the next plausible message start after garbage. */
module HttpResync {
  import opened Bytes
  import opened HttpText

  /** The starts of message that `findHttpResync` looks for. */
  function Markers(): seq<seq<byte>> {
    [Ascii("HTTP/1.0"), Ascii("HTTP/1.1"),
     Ascii("GET "), Ascii("POST "), Ascii("PUT "), Ascii("DELETE "), Ascii("HEAD "),
     Ascii("OPTIONS "), Ascii("PATCH "), Ascii("TRACE "), Ascii("CONNECT ")]
  }

  const LONGEST_MARKER: nat := 8

  predicate StartsMessage(s: seq<byte>) {
    exists i :: 0 <= i < |Markers()| && StartsWith(s, Markers()[i])
  }

  /** A line end at `p` with a marker right after it. */
  predicate MarkedAt(s: seq<byte>, p: nat) {
    2 <= p < |s| && s[p] == LF && s[p - 1] == CR && StartsMessage(s[p + 1..])
  }

  /** The first marked line end at or after `from`, as the position after it. */
  function Scan(s: seq<byte>, from: nat): (r: Option<nat>)
    ensures r.Some? ==> 2 < r.value <= |s| && from < r.value
    decreases |s| - from
  {
    if from >= |s| then None
    else if MarkedAt(s, from) then Some(from + 1)
    else Scan(s, from + 1)
  }

  function ResyncOf(s: seq<byte>, from: nat): (r: Option<nat>)
    ensures r.Some? ==> 2 < r.value <= |s|
  {
    Scan(s, if from < 1 then 1 else from)
  }

  /** Skipping positions without a mark does not change the result of a scan. */
  lemma {:induction false} ScanSkips(s: seq<byte>, from: nat, upTo: nat)
    requires from <= upTo && forall p :: from <= p < upTo ==> !MarkedAt(s, p)
    ensures Scan(s, from) == Scan(s, upTo)
    decreases upTo - from
  {
    if from < upTo {
      ScanSkips(s, from + 1, upTo);
    }
  }

  /** The result of a scan is the first mark, and there is none when it finds none. */
  lemma {:induction false} ScanIsFirst(s: seq<byte>, from: nat)
    ensures match Scan(s, from)
      case Some(k) => from < k && MarkedAt(s, k - 1) && forall p :: from <= p < k - 1 ==> !MarkedAt(s, p)
      case None => forall p :: from <= p ==> !MarkedAt(s, p)
    decreases |s| - from
  {
    hide MarkedAt;
    if from < |s| && !MarkedAt(s, from) {
      ScanIsFirst(s, from + 1);
    } else if from >= |s| {
      NoMarkBeyond(s);
    }
  }

  lemma NoMarkBeyond(s: seq<byte>)
    ensures forall p :: |s| <= p ==> !MarkedAt(s, p)
  {
  }

  /** A message begins at `k`: carriage return and line feed stand before it, and something before those. */
  predicate BeginsAt(s: seq<byte>, k: nat) {
    3 <= k <= |s| && s[k - 2] == 13 && s[k - 1] == 10 && StartsMessage(s[k..])
  }

  /** The search finds the first place behind `from` at which a message begins, and nothing only if there is none. */
  lemma ResyncMeans(s: seq<byte>, from: nat)
    ensures forall k: nat :: ResyncOf(s, from) == Some(k) <==>
              from < k && BeginsAt(s, k) && forall j: nat :: from < j < k ==> !BeginsAt(s, j)
    ensures ResyncOf(s, from) == None <==> forall k: nat :: from < k ==> !BeginsAt(s, k)
  {
    hide StartsMessage;
    var start := if from < 1 then 1 else from;
    ScanIsFirst(s, start);
    var r := ResyncOf(s, from);
    forall j: nat | from < j && (r.Some? ==> j < r.value)
      ensures !BeginsAt(s, j)
    {
      if j >= 3 {
        assert !MarkedAt(s, j - 1);
      }
    }
    if r.Some? {
      assert MarkedAt(s, r.value - 1) && BeginsAt(s, r.value);
    }
  }

  method FindHttpResync(buf: seq<byte>, from: nat) returns (at: Option<nat>)
    ensures at == ResyncOf(buf, from)
  {
    hide StartsWith, StartsMessage;
    var start := if from < 1 then 1 else from;
    var p := if start > |buf| then |buf| else Find(buf, LF, start);
    NothingToFind(buf, start);
    assert Scan(buf, start) == Scan(buf, p) by {
      if start <= |buf| { ScanSkips(buf, start, p); }
    }
    while p < |buf|
      invariant start <= p || p == |buf|
      invariant p < |buf| ==> buf[p] == LF
      invariant Scan(buf, p) == Scan(buf, start)
      decreases |buf| - p
    {
      if p >= 2 && buf[p - 1] == CR {
        var found := MatchMarker(buf[p + 1..]);
        if found { return Some(p + 1); }
      }
      var next := Find(buf, LF, p + 1);
      ScanSkips(buf, p, next);
      p := next;
    }
    return None;
  }

  lemma NothingToFind(s: seq<byte>, from: nat)
    ensures from >= |s| ==> Scan(s, from) == None && Scan(s, |s|) == None
  {
  }

  /** The inner loop over the markers. */
  method MatchMarker(rest: seq<byte>) returns (found: bool)
    ensures found <==> StartsMessage(rest)
  {
    var markers := Markers();
    for i := 0 to |markers|
      invariant forall j :: 0 <= j < i ==> !StartsWith(rest, Markers()[j])
    {
      if StartsWith(rest, markers[i]) { return true; }
    }
    return false;
  }

  /** The starts of message, octet by octet: eight of a version, or a method and a space. */
  lemma StartsByCode(s: seq<byte>)
    ensures StartsMessage(s) <==>
        || [72, 84, 84, 80, 47, 49, 46, 48] <= s
        || [72, 84, 84, 80, 47, 49, 46, 49] <= s
        || [71, 69, 84, 32] <= s
        || [80, 79, 83, 84, 32] <= s
        || [80, 85, 84, 32] <= s
        || [68, 69, 76, 69, 84, 69, 32] <= s
        || [72, 69, 65, 68, 32] <= s
        || [79, 80, 84, 73, 79, 78, 83, 32] <= s
        || [80, 65, 84, 67, 72, 32] <= s
        || [84, 82, 65, 67, 69, 32] <= s
        || [67, 79, 78, 78, 69, 67, 84, 32] <= s
  {
    MarkersByCode();
    hide Markers, StartsWith;
    if StartsMessage(s) {
      var i :| 0 <= i < |Markers()| && StartsWith(s, Markers()[i]);
      PrefixIsStart(s, Markers()[i]);
    }
    forall i | 0 <= i < 11
      ensures StartsWith(s, Markers()[i]) <==> Markers()[i] <= s
    {
      PrefixIsStart(s, Markers()[i]);
    }
  }

  lemma PrefixIsStart(s: seq<byte>, m: seq<byte>)
    ensures StartsWith(s, m) <==> m <= s
  {
  }

  lemma MarkersByCode()
    ensures |Markers()| == 11
    ensures Markers()[0] == [72, 84, 84, 80, 47, 49, 46, 48]
    ensures Markers()[1] == [72, 84, 84, 80, 47, 49, 46, 49]
    ensures Markers()[2] == [71, 69, 84, 32]
    ensures Markers()[3] == [80, 79, 83, 84, 32]
    ensures Markers()[4] == [80, 85, 84, 32]
    ensures Markers()[5] == [68, 69, 76, 69, 84, 69, 32]
    ensures Markers()[6] == [72, 69, 65, 68, 32]
    ensures Markers()[7] == [79, 80, 84, 73, 79, 78, 83, 32]
    ensures Markers()[8] == [80, 65, 84, 67, 72, 32]
    ensures Markers()[9] == [84, 82, 65, 67, 69, 32]
    ensures Markers()[10] == [67, 79, 78, 78, 69, 67, 84, 32]
  {
    SpelledOut("HTTP/1.0", [72, 84, 84, 80, 47, 49, 46, 48]);
    SpelledOut("HTTP/1.1", [72, 84, 84, 80, 47, 49, 46, 49]);
    SpelledOut("GET ", [71, 69, 84, 32]);
    SpelledOut("POST ", [80, 79, 83, 84, 32]);
    SpelledOut("PUT ", [80, 85, 84, 32]);
    SpelledOut("DELETE ", [68, 69, 76, 69, 84, 69, 32]);
    SpelledOut("HEAD ", [72, 69, 65, 68, 32]);
    SpelledOut("OPTIONS ", [79, 80, 84, 73, 79, 78, 83, 32]);
    SpelledOut("PATCH ", [80, 65, 84, 67, 72, 32]);
    SpelledOut("TRACE ", [84, 82, 65, 67, 69, 32]);
    SpelledOut("CONNECT ", [67, 79, 78, 78, 69, 67, 84, 32]);
  }

  lemma SpelledOut(s: string, b: seq<byte>)
    requires |s| == |b| && forall i :: 0 <= i < |s| ==> b[i] == s[i] as int % 256
    ensures Ascii(s) == b
  {
  }

  lemma MarkerShape(i: nat)
    requires i < |Markers()|
    ensures 0 < |Markers()[i]| <= LONGEST_MARKER && CR !in Markers()[i]
  {
    if i == 0 { NoReturnIn("HTTP/1.0"); }
    else if i == 1 { NoReturnIn("HTTP/1.1"); }
    else if i == 2 { NoReturnIn("GET "); }
    else if i == 3 { NoReturnIn("POST "); }
    else if i == 4 { NoReturnIn("PUT "); }
    else if i == 5 { NoReturnIn("DELETE "); }
    else if i == 6 { NoReturnIn("HEAD "); }
    else if i == 7 { NoReturnIn("OPTIONS "); }
    else if i == 8 { NoReturnIn("PATCH "); }
    else if i == 9 { NoReturnIn("TRACE "); }
    else { NoReturnIn("CONNECT "); }
  }

  lemma NoReturnIn(s: string)
    requires forall i :: 0 <= i < |s| ==> s[i] as int % 256 != 13
    ensures CR !in Ascii(s)
  {
  }

  /** Once eight bytes follow, whether a message starts there is settled. */
  lemma StartIsSettled(s: seq<byte>, t: seq<byte>)
    requires |s| >= LONGEST_MARKER
    ensures StartsMessage(s + t) <==> StartsMessage(s)
  {
    forall i | 0 <= i < |Markers()|
      ensures StartsWith(s + t, Markers()[i]) <==> StartsWith(s, Markers()[i])
    {
      MarkerShape(i);
      var m := Markers()[i];
      assert (s + t)[..|m|] == s[..|m|];
    }
  }

  /** It is also settled once a carriage return follows, for no marker contains one. */
  lemma StartIsSettledByReturn(s: seq<byte>, t: seq<byte>, k: nat)
    requires k < |s| && s[k] == CR
    ensures StartsMessage(s + t) <==> StartsMessage(s)
  {
    forall i | 0 <= i < |Markers()|
      ensures StartsWith(s + t, Markers()[i]) <==> StartsWith(s, Markers()[i])
    {
      MarkerShape(i);
      var m := Markers()[i];
      if |m| <= |s| {
        assert (s + t)[..|m|] == s[..|m|];
      } else {
        assert m[k] in m && m[k] != CR;
        assert |m| <= |s + t| ==> (s + t)[..|m|][k] == CR;
      }
    }
  }

  lemma MarkStays(s: seq<byte>, t: seq<byte>, p: nat)
    requires MarkedAt(s, p)
    ensures MarkedAt(s + t, p)
  {
    assert (s + t)[p + 1..] == s[p + 1..] + t;
    var i :| 0 <= i < |Markers()| && StartsWith(s[p + 1..], Markers()[i]);
    var m := Markers()[i];
    assert (s[p + 1..] + t)[..|m|] == s[p + 1..][..|m|];
  }

  /** A place with no mark and at least eight bytes after it never gets one. */
  lemma NoMarkStays(s: seq<byte>, t: seq<byte>, p: nat)
    requires p + LONGEST_MARKER < |s| && !MarkedAt(s, p)
    ensures !MarkedAt(s + t, p)
  {
    assert (s + t)[p + 1..] == s[p + 1..] + t;
    StartIsSettled(s[p + 1..], t);
  }

  /** Nor does a place before a mark that has already been found. */
  lemma NoMarkBeforeMark(s: seq<byte>, t: seq<byte>, p: nat, q: nat)
    requires p < q && MarkedAt(s, q) && !MarkedAt(s, p)
    ensures !MarkedAt(s + t, p)
  {
    if q > p + 1 {
      assert (s + t)[p + 1..] == s[p + 1..] + t;
      assert s[p + 1..][q - 1 - (p + 1)] == CR;
      StartIsSettledByReturn(s[p + 1..], t, q - 1 - (p + 1));
    }
  }

  /** A found position stays the first one when more bytes arrive. */
  lemma FoundStaysFirst(s: seq<byte>, t: seq<byte>, from: nat)
    requires Scan(s, from).Some?
    ensures Scan(s + t, from) == Scan(s, from)
  {
    ScanIsFirst(s, from);
    var q := Scan(s, from).value - 1;
    forall p | from <= p < q
      ensures !MarkedAt(s + t, p)
    {
      NoMarkBeforeMark(s, t, p, q);
    }
    ScanSkips(s + t, from, q);
    MarkStays(s, t, q);
  }

  /** Where the next scan starts after a scan of `n` bytes has found nothing. */
  function ScannedUpTo(n: nat): nat {
    if n > LONGEST_MARKER then n - LONGEST_MARKER else 0
  }

  /**
   The rescan is exact: when a scan found nothing, scanning the longer buffer again from
   eight bytes before the old end finds what a scan from the old start would find.
   */
  lemma RescanIsExact(s: seq<byte>, t: seq<byte>, from: nat)
    requires from <= ScannedUpTo(|s|) && ResyncOf(s, from) == None
    ensures ResyncOf(s + t, ScannedUpTo(|s|)) == ResyncOf(s + t, from)
  {
    var start := if from < 1 then 1 else from;
    ScanIsFirst(s, start);
    forall p | start <= p < ScannedUpTo(|s|)
      ensures !MarkedAt(s + t, p)
    {
      NoMarkStays(s, t, p);
    }
    if start <= ScannedUpTo(|s|) {
      ScanSkips(s + t, start, ScannedUpTo(|s|));
    }
  }
}
