/**
 Verdicts do not change when more bytes arrive, a chunked body may be resumed at any chunk
 boundary, and what a sender writes is read back.
 */
module HttpStability {
  import opened Bytes
  import opened HttpText
  import opened HttpParser

  lemma {:induction false} FindExtends(s: seq<byte>, t: seq<byte>, b: byte, from: nat)
    requires from <= |s|
    ensures Find(s, b, from) < |s| ==> Find(s + t, b, from) == Find(s, b, from)
    decreases |s| - from
  {
    if from < |s| && s[from] != b {
      FindExtends(s, t, b, from + 1);
    }
  }

  /** A finished reading of `s` is the reading of `s + t`, with `t` left over. */
  predicate Extends<T(==)>(r: Read<T>, r': Read<T>, t: seq<byte>) {
    match r
    case Got(v, rest) => r' == Got(v, rest + t)
    case Fail(e) => e != UnexpectedEof ==> r' == Fail(e)
  }

  lemma ReadLineExtends(s: seq<byte>, t: seq<byte>)
    ensures Extends(ReadLine(s), ReadLine(s + t), t)
  {
    var r := Find(s, CR, 0);
    FindExtends(s, t, CR, 0);
    if r + 1 < |s| {
      assert (s + t)[..r] == s[..r];
      assert (s + t)[r + 2..] == s[r + 2..] + t;
    }
  }

  lemma {:induction false} FieldsExtend(s: seq<byte>, t: seq<byte>, read: seq<Field>)
    ensures Extends(FieldsFrom(s, read), FieldsFrom(s + t, read), t)
    decreases |s|
  {
    hide ReadLine, FieldOf;
    ReadLineExtends(s, t);
    match ReadLine(s) {
      case Fail(_) =>
      case Got(line, rest) =>
        if line != [] && FieldOf(line).Good? {
          FieldsExtend(rest, t, read + [FieldOf(line).value]);
        }
    }
  }

  /** The verdict on a message head is final: more bytes only lengthen what is left. */
  lemma HeadExtends(s: seq<byte>, t: seq<byte>)
    ensures Extends(HeadOf(s), HeadOf(s + t), t)
  {
    hide ReadLine, StartLineOf, FieldsFrom, FramingOf;
    ReadLineExtends(s, t);
    if ReadLine(s).Got? {
      FieldsExtend(ReadLine(s).rest, t, []);
    }
  }

  lemma ChunkExtends(s: seq<byte>, t: seq<byte>)
    ensures match ChunkAt(s)
      case Chunk(d, rest) => ChunkAt(s + t) == Chunk(d, rest + t)
      case LastChunk(rest) => ChunkAt(s + t) == LastChunk(rest + t)
      case Stop(e) => e != UnexpectedEof ==> ChunkAt(s + t) == Stop(e)
  {
    hide ReadLine, ChunkSizeOf;
    ReadLineExtends(s, t);
    if ReadLine(s).Got? && ChunkSizeOf(ReadLine(s).value).Some? {
      var size, rest := ChunkSizeOf(ReadLine(s).value).value, ReadLine(s).rest;
      if 0 < size <= |rest| {
        assert (rest + t)[size..] == rest[size..] + t;
        assert (rest + t)[..size] == rest[..size];
        ReadLineExtends(rest[size..], t);
      }
    }
  }

  /** The verdict on a chunked body is final. */
  lemma {:induction false} BodyExtends(s: seq<byte>, t: seq<byte>, done: nat, data: seq<byte>)
    ensures match BodyFrom(s, done, data)
      case Whole(d, rest) => BodyFrom(s + t, done, data) == Whole(d, rest + t)
      case Partial(e, p) => e != UnexpectedEof ==> BodyFrom(s + t, done, data) == Partial(e, p)
    decreases |s|
  {
    hide ChunkAt, FieldsFrom;
    ChunkExtends(s, t);
    match ChunkAt(s) {
      case Stop(_) =>
      case Chunk(d, rest) => BodyExtends(rest, t, done + (|s| - |rest|), data + d);
      case LastChunk(rest) => FieldsExtend(rest, t, []);
    }
  }

  /** `c` bytes of `s` are whole chunks. */
  predicate Boundary(s: seq<byte>, c: nat)
    decreases |s|
  {
    c == 0 ||
    (ChunkAt(s).Chunk? && |s| - |ChunkAt(s).rest| <= c && Boundary(ChunkAt(s).rest, c - (|s| - |ChunkAt(s).rest|)))
  }

  lemma ChunkRestIsSuffix(s: seq<byte>)
    requires ChunkAt(s).Chunk?
    ensures ChunkAt(s).rest == s[|s| - |ChunkAt(s).rest|..]
  {
  }

  lemma {:induction false} BoundaryFits(s: seq<byte>, c: nat)
    requires Boundary(s, c)
    ensures c <= |s|
    decreases |s|
  {
    hide ChunkAt;
    if c > 0 {
      BoundaryFits(ChunkAt(s).rest, c - (|s| - |ChunkAt(s).rest|));
    }
  }

  lemma {:induction false} BoundaryExtends(s: seq<byte>, t: seq<byte>, c: nat)
    requires Boundary(s, c)
    ensures Boundary(s + t, c)
    decreases |s|
  {
    hide ChunkAt;
    if c > 0 {
      ChunkExtends(s, t);
      BoundaryExtends(ChunkAt(s).rest, t, c - (|s| - |ChunkAt(s).rest|));
    }
  }

  /** Where an unfinished parse says it got to is a boundary. */
  lemma {:induction false} PrefixIsBoundary(s: seq<byte>, done: nat, data: seq<byte>)
    requires BodyFrom(s, done, data).Partial?
    ensures var p := BodyFrom(s, done, data).prefix;
      done <= p && Boundary(s, p - done)
    decreases |s|
  {
    hide ChunkAt, FieldsFrom;
    if ChunkAt(s).Chunk? {
      var d, rest := ChunkAt(s).data, ChunkAt(s).rest;
      PrefixIsBoundary(rest, done + (|s| - |rest|), data + d);
    }
  }

  /** The same outcome up to the data already decoded before the point of restart. */
  predicate SameOutcome(whole: Body, resumed: Body, skipped: nat) {
    match resumed
    case Whole(_, rest) => whole.Whole? && whole.rest == rest
    case Partial(e, p) => whole == Partial(e, skipped + p)
  }

  lemma {:induction false} ShiftedBody(s: seq<byte>, done: nat, data: seq<byte>, done': nat, data': seq<byte>)
    requires done <= done'
    ensures SameOutcome(BodyFrom(s, done', data'), BodyFrom(s, done, data), done' - done)
    decreases |s|
  {
    hide ChunkAt, FieldsFrom;
    if ChunkAt(s).Chunk? {
      var d, rest := ChunkAt(s).data, ChunkAt(s).rest;
      ShiftedBody(rest, done + (|s| - |rest|), data + d, done' + (|s| - |rest|), data' + d);
    }
  }

  lemma {:induction false} ResumeFrom(s: seq<byte>, c: nat, done: nat, data: seq<byte>)
    requires Boundary(s, c) && c <= |s|
    ensures SameOutcome(BodyFrom(s, done, data), BodyOf(s[c..]), done + c)
    decreases |s|
  {
    hide ChunkAt, FieldsFrom;
    if c == 0 {
      assert s[c..] == s;
      ShiftedBody(s, 0, [], done, data);
    } else {
      var d, rest := ChunkAt(s).data, ChunkAt(s).rest;
      var k := |s| - |rest|;
      ChunkRestIsSuffix(s);
      BoundaryFits(rest, c - k);
      assert rest[c - k..] == s[c..];
      ResumeFrom(rest, c - k, done + k, data + d);
    }
  }

  /**
   Resuming a chunked body. If a parse stopped for lack of bytes after `p` bytes of whole
   chunks, then once more bytes have come, parsing from `p` gives the same verdict and the
   same end as parsing the body from its first byte.
   */
  lemma ResumingIsExact(s: seq<byte>, t: seq<byte>)
    requires BodyOf(s).Partial?
    ensures var p := BodyOf(s).prefix;
      p <= |s| && SameOutcome(BodyOf(s + t), BodyOf((s + t)[p..]), p)
  {
    hide BodyFrom, Boundary;
    var p := BodyOf(s).prefix;
    PrefixIsBoundary(s, 0, []);
    BoundaryFits(s, p);
    BoundaryExtends(s, t, p);
    ResumeFrom(s + t, p, 0, []);
  }

  lemma {:induction false} FindSkips(a: seq<byte>, s: seq<byte>, b: byte, from: nat)
    requires from <= |a| && forall i :: from <= i < |a| ==> a[i] != b
    ensures Find(a + s, b, from) == |a| + Find(s, b, 0)
    decreases |a| - from
  {
    if from < |a| {
      FindSkips(a, s, b, from + 1);
    } else {
      FindShifts(a, s, b, 0);
    }
  }

  lemma {:induction false} FindShifts(a: seq<byte>, s: seq<byte>, b: byte, k: nat)
    requires k <= |s|
    ensures Find(a + s, b, |a| + k) == |a| + Find(s, b, k)
    decreases |s| - k
  {
    if k < |s| && s[k] != b {
      FindShifts(a, s, b, k + 1);
    }
  }

  function Line(text: seq<byte>): seq<byte> {
    text + [CR, LF]
  }

  /** A line without a carriage return is read back. */
  lemma LineReadBack(text: seq<byte>, rest: seq<byte>)
    requires CR !in text
    ensures ReadLine(Line(text) + rest) == Got(text, rest)
  {
    var s := Line(text) + rest;
    assert s == text + ([CR, LF] + rest);
    FindSkips(text, [CR, LF] + rest, CR, 0);
    assert Find([CR, LF] + rest, CR, 0) == 0;
    assert s[..|text|] == text && s[|text| + 2..] == rest;
  }

  /** The wire form of a chunked body: every chunk with its size, then the last chunk. */
  function EncodeChunks(chunks: seq<seq<byte>>): seq<byte> {
    if chunks == [] then Line(Ascii("0")) + Line([])
    else Line(Hex(|chunks[0]|)) + Line(chunks[0]) + EncodeChunks(chunks[1..])
  }

  lemma SizeReadBack(n: nat)
    requires n <= MAX_U64
    ensures CR !in Hex(n) && ChunkSizeOf(Hex(n)) == Some(n)
  {
    var h := Hex(n);
    assert forall i :: 0 <= i < |h| ==> IsHex(h[i]);
    assert h[..|h|] == h;
    HexReadBack(n);
  }

  lemma ChunkReadBack(c: seq<byte>, rest: seq<byte>)
    requires 0 < |c| <= MAX_U64
    ensures ChunkAt(Line(Hex(|c|)) + (Line(c) + rest)) == Chunk(c, rest)
  {
    hide ReadLine, ChunkSizeOf, Hex, Line;
    SizeReadBack(|c|);
    LineReadBack(Hex(|c|), Line(c) + rest);
    DataThenLineEnd(c, rest);
    LineReadBack([], rest);
  }

  lemma DataThenLineEnd(c: seq<byte>, rest: seq<byte>)
    ensures var s := Line(c) + rest;
      |s| >= |c| && s[..|c|] == c && s[|c|..] == Line([]) + rest
  {
  }

  /**
   Round trip of the chunked coding: any list of non-empty chunks is decoded whole, and
   nothing after it is touched.
   */
  lemma {:induction false} ChunksReadBack(chunks: seq<seq<byte>>, rest: seq<byte>, done: nat, data: seq<byte>)
    requires forall c :: c in chunks ==> 0 < |c| <= MAX_U64
    ensures BodyFrom(EncodeChunks(chunks) + rest, done, data) == Whole(data + Concat(chunks), rest)
    decreases |chunks|
  {
    hide ChunkAt, FieldsFrom, Hex, Line;
    if chunks == [] {
      LastChunkReadBack(rest);
      assert data + [] == data;
    } else {
      var c := chunks[0];
      var size, body, more := Line(Hex(|c|)), Line(c), EncodeChunks(chunks[1..]);
      var s := EncodeChunks(chunks) + rest;
      Regroup(size, body, more, rest);
      ChunkReadBack(c, more + rest);
      ChunksReadBack(chunks[1..], rest, done + (|s| - |more + rest|), data + c);
      assert data + c + Concat(chunks[1..]) == data + (c + Concat(chunks[1..]));
    }
  }

  lemma Regroup(a: seq<byte>, b: seq<byte>, c: seq<byte>, d: seq<byte>)
    ensures a + b + c + d == a + (b + (c + d))
  {
  }

  lemma LastChunkReadBack(rest: seq<byte>)
    ensures var s := Line(Ascii("0")) + Line([]) + rest;
      ChunkAt(s) == LastChunk(Line([]) + rest) && FieldsFrom(Line([]) + rest, []) == Got([], rest)
  {
    hide ReadLine;
    var zero := Ascii("0");
    assert zero[0] == 48;
    assert Line(zero) + Line([]) + rest == Line(zero) + (Line([]) + rest);
    LineReadBack(zero, Line([]) + rest);
    LineReadBack([], rest);
    assert zero == [48];
    assert zero[..|zero|] == zero;
    assert HexValue(zero) == 0;
    assert ChunkSizeOf(zero) == Some(0);
  }
}
