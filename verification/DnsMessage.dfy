/** DNS messages: header, early size check, question and record sections. */
module DnsMessage {
  import opened Bytes
  import opened DnsName

  const HEADER_LEN: nat := 12
  const QUESTION_HEADER_LEN: nat := 4
  const RESOURCE_HEADER_LEN: nat := 10

  datatype Question = Question(name: seq<byte>, qtype: nat, qclass: nat)
  datatype Record = Record(name: seq<byte>, rtype: nat, rclass: nat, ttl: nat, rdata: seq<byte>)

  datatype Header = Header(
    id: nat, flags: nat, qdcount: nat, ancount: nat, nscount: nat, arcount: nat,
    questions: seq<Question>, answers: seq<Record>, authority: seq<Record>, additional: seq<Record>)

  /** A value read from a message and the position after it. */
  datatype Parsed<+T> = Ok(value: T, next: nat) | Err(error: ParseError)

  function Be16(msg: seq<byte>, at: nat): nat
    requires at + 2 <= |msg|
  {
    var high: nat := msg[at];
    high * 256 + msg[at + 1]
  }

  function Be32(msg: seq<byte>, at: nat): nat
    requires at + 4 <= |msg|
  {
    Be16(msg, at) * 0x1_0000 + Be16(msg, at + 2)
  }

  function QuestionAt(msg: seq<byte>, at: nat): Parsed<Question> {
    match NameAt(msg, at)
    case Failed(e) => Err(e)
    case Named(name, p) =>
      if p + QUESTION_HEADER_LEN > |msg| then Err(UnexpectedEof)
      else Ok(Question(name, Be16(msg, p), Be16(msg, p + 2)), p + QUESTION_HEADER_LEN)
  }

  function RecordAt(msg: seq<byte>, at: nat): Parsed<Record> {
    match NameAt(msg, at)
    case Failed(e) => Err(e)
    case Named(name, p) =>
      if p + RESOURCE_HEADER_LEN > |msg| then Err(UnexpectedEof)
      else
        var data := p + RESOURCE_HEADER_LEN;
        var rdlength := Be16(msg, p + 8);
        if data + rdlength > |msg| then Err(UnexpectedEof)
        else Ok(Record(name, Be16(msg, p), Be16(msg, p + 2), Be32(msg, p + 4), msg[data..data + rdlength]),
                data + rdlength)
  }

  /** `n` more questions after those in `read`. */
  function QuestionsFrom(msg: seq<byte>, at: nat, n: nat, read: seq<Question>): Parsed<seq<Question>>
    decreases n
  {
    if n == 0 then Ok(read, at)
    else match QuestionAt(msg, at)
      case Err(e) => Err(e)
      case Ok(q, next) => QuestionsFrom(msg, next, n - 1, read + [q])
  }

  /** `n` more records after those in `read`. */
  function RecordsFrom(msg: seq<byte>, at: nat, n: nat, read: seq<Record>): Parsed<seq<Record>>
    decreases n
  {
    if n == 0 then Ok(read, at)
    else match RecordAt(msg, at)
      case Err(e) => Err(e)
      case Ok(r, next) => RecordsFrom(msg, next, n - 1, read + [r])
  }

  /** `parseQuestion`. */
  method ParseQuestion(msg: seq<byte>, at: nat) returns (r: Parsed<Question>)
    ensures r == QuestionAt(msg, at)
  {
    var name := ParseName(msg, at);
    if name.Failed? { return Err(name.error); }
    var span := name.next;
    if span + QUESTION_HEADER_LEN > |msg| { return Err(UnexpectedEof); }
    return Ok(Question(name.name, Be16(msg, span), Be16(msg, span + 2)), span + QUESTION_HEADER_LEN);
  }

  method ParseQuestions(msg: seq<byte>, at: nat, n: nat) returns (r: Parsed<seq<Question>>)
    ensures r == QuestionsFrom(msg, at, n, [])
  {
    hide QuestionAt;
    var span: nat, questions: seq<Question> := at, [];
    for i := 0 to n
      invariant QuestionsFrom(msg, span, n - i, questions) == QuestionsFrom(msg, at, n, [])
    {
      var q := ParseQuestion(msg, span);
      if q.Err? { return Err(q.error); }
      questions := questions + [q.value];
      span := q.next;
    }
    return Ok(questions, span);
  }

  /** `parseResourceRecord`. */
  method ParseRecord(msg: seq<byte>, at: nat) returns (r: Parsed<Record>)
    ensures r == RecordAt(msg, at)
  {
    var name := ParseName(msg, at);
    if name.Failed? { return Err(name.error); }
    var span := name.next;
    if span + RESOURCE_HEADER_LEN > |msg| { return Err(UnexpectedEof); }
    var rtype, rclass, ttl, rdlength := Be16(msg, span), Be16(msg, span + 2), Be32(msg, span + 4), Be16(msg, span + 8);
    span := span + RESOURCE_HEADER_LEN;
    if span + rdlength > |msg| { return Err(UnexpectedEof); }
    return Ok(Record(name.name, rtype, rclass, ttl, msg[span..span + rdlength]), span + rdlength);
  }

  method ParseRecords(msg: seq<byte>, at: nat, n: nat) returns (r: Parsed<seq<Record>>)
    ensures r == RecordsFrom(msg, at, n, [])
  {
    hide RecordAt;
    var span: nat, records: seq<Record> := at, [];
    for i := 0 to n
      invariant RecordsFrom(msg, span, n - i, records) == RecordsFrom(msg, at, n, [])
    {
      var rr := ParseRecord(msg, span);
      if rr.Err? { return Err(rr.error); }
      records := records + [rr.value];
      span := rr.next;
    }
    return Ok(records, span);
  }

  /** The least number of bytes the declared entries can take. */
  function MinBytes(msg: seq<byte>): nat
    requires HEADER_LEN <= |msg|
  {
    Be16(msg, 4) * (1 + QUESTION_HEADER_LEN)
    + (Be16(msg, 6) + Be16(msg, 8) + Be16(msg, 10)) * (1 + RESOURCE_HEADER_LEN)
  }

  /** The four sections, without the early size check. */
  function SectionsOf(msg: seq<byte>): Parsed<Header>
    requires HEADER_LEN <= |msg|
  {
    match QuestionsFrom(msg, HEADER_LEN, Be16(msg, 4), [])
    case Err(e) => Err(e)
    case Ok(questions, p1) =>
      match RecordsFrom(msg, p1, Be16(msg, 6), [])
      case Err(e) => Err(e)
      case Ok(answers, p2) =>
        match RecordsFrom(msg, p2, Be16(msg, 8), [])
        case Err(e) => Err(e)
        case Ok(authority, p3) =>
          match RecordsFrom(msg, p3, Be16(msg, 10), [])
          case Err(e) => Err(e)
          case Ok(additional, p4) =>
            Ok(Header(Be16(msg, 0), Be16(msg, 2), Be16(msg, 4), Be16(msg, 6), Be16(msg, 8), Be16(msg, 10),
                      questions, answers, authority, additional), p4)
  }

  function MessageOf(msg: seq<byte>): Parsed<Header> {
    if |msg| < HEADER_LEN then Err(UnexpectedEof)
    else if |msg| - HEADER_LEN < MinBytes(msg) then Err(UnexpectedEof)
    else SectionsOf(msg)
  }

  method Parse(msg: seq<byte>) returns (r: Parsed<Header>)
    ensures r == MessageOf(msg)
  {
    if |msg| < HEADER_LEN { return Err(UnexpectedEof); }
    var qdcount, ancount, nscount, arcount := Be16(msg, 4), Be16(msg, 6), Be16(msg, 8), Be16(msg, 10);
    var minBytes := qdcount * (1 + QUESTION_HEADER_LEN) + (ancount + nscount + arcount) * (1 + RESOURCE_HEADER_LEN);
    if |msg| - HEADER_LEN < minBytes { return Err(UnexpectedEof); }
    hide QuestionsFrom, RecordsFrom, Be16;
    var questions := ParseQuestions(msg, HEADER_LEN, qdcount);
    if questions.Err? { return Err(questions.error); }
    var answers := ParseRecords(msg, questions.next, ancount);
    if answers.Err? { return Err(answers.error); }
    var authority := ParseRecords(msg, answers.next, nscount);
    if authority.Err? { return Err(authority.error); }
    var additional := ParseRecords(msg, authority.next, arcount);
    if additional.Err? { return Err(additional.error); }
    return Ok(Header(Be16(msg, 0), Be16(msg, 2), qdcount, ancount, nscount, arcount,
                     questions.value, answers.value, authority.value, additional.value), additional.next);
  }

  /** Reading `n` questions yields exactly `n` more and takes at least five bytes for each. */
  lemma {:induction false} QuestionsTakeSpace(msg: seq<byte>, at: nat, n: nat, read: seq<Question>)
    requires at <= |msg|
    ensures var r := QuestionsFrom(msg, at, n, read);
      r.Ok? ==> |r.value| == |read| + n && read <= r.value && at + n * (1 + QUESTION_HEADER_LEN) <= r.next <= |msg|
    decreases n
  {
    if n > 0 && QuestionAt(msg, at).Ok? {
      NameMovesForward(msg, at);
      var q := QuestionAt(msg, at);
      QuestionsTakeSpace(msg, q.next, n - 1, read + [q.value]);
    }
  }

  /** Reading `n` records yields exactly `n` more and takes at least eleven bytes for each. */
  lemma {:induction false} RecordsTakeSpace(msg: seq<byte>, at: nat, n: nat, read: seq<Record>)
    requires at <= |msg|
    ensures var r := RecordsFrom(msg, at, n, read);
      r.Ok? ==> |r.value| == |read| + n && read <= r.value && at + n * (1 + RESOURCE_HEADER_LEN) <= r.next <= |msg|
    decreases n
  {
    if n > 0 && RecordAt(msg, at).Ok? {
      NameMovesForward(msg, at);
      var rr := RecordAt(msg, at);
      RecordsTakeSpace(msg, rr.next, n - 1, read + [rr.value]);
    }
  }

  /** A message that parses has exactly the declared entries and at least the bytes they need. */
  lemma SectionsMatchCounts(msg: seq<byte>)
    requires HEADER_LEN <= |msg|
    ensures var r := SectionsOf(msg);
      r.Ok? ==>
        && |r.value.questions| == r.value.qdcount == Be16(msg, 4)
        && |r.value.answers| == r.value.ancount == Be16(msg, 6)
        && |r.value.authority| == r.value.nscount == Be16(msg, 8)
        && |r.value.additional| == r.value.arcount == Be16(msg, 10)
        && HEADER_LEN + MinBytes(msg) <= r.next <= |msg|
  {
    hide QuestionsFrom, RecordsFrom, Be16;
    if SectionsOf(msg).Ok? {
      QuestionsTakeSpace(msg, HEADER_LEN, Be16(msg, 4), []);
      var p1 := QuestionsFrom(msg, HEADER_LEN, Be16(msg, 4), []).next;
      RecordsTakeSpace(msg, p1, Be16(msg, 6), []);
      var p2 := RecordsFrom(msg, p1, Be16(msg, 6), []).next;
      RecordsTakeSpace(msg, p2, Be16(msg, 8), []);
      RecordsTakeSpace(msg, RecordsFrom(msg, p2, Be16(msg, 8), []).next, Be16(msg, 10), []);
    }
  }

  /** The early check changes no outcome: it rejects only what the sections would reject too. */
  lemma EarlyCheckIsSound(msg: seq<byte>)
    requires HEADER_LEN <= |msg|
    ensures MessageOf(msg).Ok? <==> SectionsOf(msg).Ok?
    ensures MessageOf(msg).Ok? ==> MessageOf(msg) == SectionsOf(msg)
  {
    hide SectionsOf, MinBytes;
    SectionsMatchCounts(msg);
  }

  /** Below twelve octets, or five for each question and eleven for each record behind them, nothing is read. */
  lemma TooShortIsRefused(msg: seq<byte>)
    ensures |msg| < 12 ==> MessageOf(msg) == Err(UnexpectedEof)
    ensures |msg| >= 12 && |msg| < 12 + 5 * Be16(msg, 4) + 11 * (Be16(msg, 6) + Be16(msg, 8) + Be16(msg, 10)) ==>
              MessageOf(msg) == Err(UnexpectedEof)
  {
  }

  /** What a sender writes: names as labels, every field within its width. */
  datatype WireQuestion = WireQuestion(labels: seq<seq<byte>>, qtype: nat, qclass: nat)
  datatype WireRecord = WireRecord(labels: seq<seq<byte>>, rtype: nat, rclass: nat, ttl: nat, rdata: seq<byte>)
  datatype WireMessage = WireMessage(id: nat, flags: nat, questions: seq<WireQuestion>,
                                     answers: seq<WireRecord>, authority: seq<WireRecord>, additional: seq<WireRecord>)

  predicate IsU16(x: nat) {
    x < 0x1_0000
  }

  predicate IsName(labels: seq<seq<byte>>) {
    (forall l :: l in labels ==> IsLabel(l)) && Octets(labels) <= 255
  }

  predicate WellFormedQuestion(q: WireQuestion) {
    IsName(q.labels) && IsU16(q.qtype) && IsU16(q.qclass)
  }

  predicate WellFormedRecord(r: WireRecord) {
    IsName(r.labels) && IsU16(r.rtype) && IsU16(r.rclass) && r.ttl < 0x1_0000_0000 && IsU16(|r.rdata|)
  }

  predicate WellFormed(m: WireMessage) {
    && IsU16(m.id) && IsU16(m.flags)
    && IsU16(|m.questions|) && IsU16(|m.answers|) && IsU16(|m.authority|) && IsU16(|m.additional|)
    && (forall q :: q in m.questions ==> WellFormedQuestion(q))
    && (forall r :: r in m.answers ==> WellFormedRecord(r))
    && (forall r :: r in m.authority ==> WellFormedRecord(r))
    && (forall r :: r in m.additional ==> WellFormedRecord(r))
  }

  function Bytes16(x: nat): (b: seq<byte>)
    requires IsU16(x)
    ensures |b| == 2
  {
    [x / 256, x % 256]
  }

  function Bytes32(x: nat): (b: seq<byte>)
    requires x < 0x1_0000_0000
    ensures |b| == 4
  {
    Bytes16(x / 0x1_0000) + Bytes16(x % 0x1_0000)
  }

  function EncodeQuestion(q: WireQuestion): seq<byte>
    requires WellFormedQuestion(q)
  {
    Encode(q.labels) + (Bytes16(q.qtype) + Bytes16(q.qclass))
  }

  function RecordHeader(r: WireRecord): (b: seq<byte>)
    requires WellFormedRecord(r)
    ensures |b| == RESOURCE_HEADER_LEN
  {
    Bytes16(r.rtype) + Bytes16(r.rclass) + Bytes32(r.ttl) + Bytes16(|r.rdata|)
  }

  function EncodeRecord(r: WireRecord): seq<byte>
    requires WellFormedRecord(r)
  {
    Encode(r.labels) + RecordHeader(r) + r.rdata
  }

  function EncodeQuestions(qs: seq<WireQuestion>): seq<byte>
    requires forall q :: q in qs ==> WellFormedQuestion(q)
  {
    if qs == [] then [] else EncodeQuestion(qs[0]) + EncodeQuestions(qs[1..])
  }

  function EncodeRecords(rs: seq<WireRecord>): seq<byte>
    requires forall r :: r in rs ==> WellFormedRecord(r)
  {
    if rs == [] then [] else EncodeRecord(rs[0]) + EncodeRecords(rs[1..])
  }

  function EncodeHeader(m: WireMessage): (b: seq<byte>)
    requires WellFormed(m)
    ensures |b| == HEADER_LEN
  {
    Bytes16(m.id) + Bytes16(m.flags) + Bytes16(|m.questions|) + Bytes16(|m.answers|)
    + Bytes16(|m.authority|) + Bytes16(|m.additional|)
  }

  function EncodeMessage(m: WireMessage): seq<byte>
    requires WellFormed(m)
  {
    EncodeHeader(m) + EncodeQuestions(m.questions) + EncodeRecords(m.answers)
    + EncodeRecords(m.authority) + EncodeRecords(m.additional)
  }

  function MeantQuestions(qs: seq<WireQuestion>): seq<Question> {
    seq(|qs|, i requires 0 <= i < |qs| => Question(Dotted(qs[i].labels), qs[i].qtype, qs[i].qclass))
  }

  function MeantRecords(rs: seq<WireRecord>): seq<Record> {
    seq(|rs|, i requires 0 <= i < |rs| =>
      Record(Dotted(rs[i].labels), rs[i].rtype, rs[i].rclass, rs[i].ttl, rs[i].rdata))
  }

  function Meant(m: WireMessage): Header {
    Header(m.id, m.flags, |m.questions|, |m.answers|, |m.authority|, |m.additional|,
           MeantQuestions(m.questions), MeantRecords(m.answers), MeantRecords(m.authority), MeantRecords(m.additional))
  }

  lemma Be16OfBytes(msg: seq<byte>, before: seq<byte>, x: nat, after: seq<byte>)
    requires IsU16(x) && msg == before + Bytes16(x) + after
    ensures Be16(msg, |before|) == x
  {
  }

  lemma NameReadBack(msg: seq<byte>, before: seq<byte>, labels: seq<seq<byte>>, after: seq<byte>)
    requires IsName(labels) && msg == before + Encode(labels) + after
    ensures NameAt(msg, |before|) == Named(Dotted(labels), |before| + |Encode(labels)|)
  {
    EncodeLength(labels);
    EncodedNameIsReadBack(before, labels, after);
  }

  lemma QuestionReadBack(msg: seq<byte>, before: seq<byte>, q: WireQuestion, after: seq<byte>)
    requires WellFormedQuestion(q) && msg == before + EncodeQuestion(q) + after
    ensures QuestionAt(msg, |before|) ==
            Ok(Question(Dotted(q.labels), q.qtype, q.qclass), |before| + |EncodeQuestion(q)|)
  {
    hide NameAt, Encode, Be16, Bytes16, Dotted, IsLabel, Octets;
    var name := Encode(q.labels);
    var t, c := Bytes16(q.qtype), Bytes16(q.qclass);
    assert msg == before + name + (t + c + after);
    NameReadBack(msg, before, q.labels, t + c + after);
    assert msg == (before + name) + t + (c + after);
    Be16OfBytes(msg, before + name, q.qtype, c + after);
    assert msg == (before + name + t) + c + after;
    Be16OfBytes(msg, before + name + t, q.qclass, after);
  }

  lemma RecordReadBack(msg: seq<byte>, before: seq<byte>, r: WireRecord, after: seq<byte>)
    requires WellFormedRecord(r) && msg == before + EncodeRecord(r) + after
    ensures RecordAt(msg, |before|) ==
            Ok(Record(Dotted(r.labels), r.rtype, r.rclass, r.ttl, r.rdata), |before| + |EncodeRecord(r)|)
  {
    hide NameAt, Encode, Be16, Be32, RecordHeader, Dotted, IsLabel, Octets;
    var name, header := Encode(r.labels), RecordHeader(r);
    assert msg == before + name + (header + r.rdata + after);
    NameReadBack(msg, before, r.labels, header + r.rdata + after);
    var p := |before| + |name|;
    assert msg[p..p + RESOURCE_HEADER_LEN] == header;
    RecordFieldsReadBack(msg, p, r);
    assert msg[p + RESOURCE_HEADER_LEN..p + RESOURCE_HEADER_LEN + |r.rdata|] == r.rdata;
  }

  lemma RecordFieldsReadBack(msg: seq<byte>, p: nat, r: WireRecord)
    requires WellFormedRecord(r) && p + RESOURCE_HEADER_LEN <= |msg|
    requires msg[p..p + RESOURCE_HEADER_LEN] == RecordHeader(r)
    ensures Be16(msg, p) == r.rtype && Be16(msg, p + 2) == r.rclass
    ensures Be32(msg, p + 4) == r.ttl && Be16(msg, p + 8) == |r.rdata|
  {
    hide IsName;
    var h := RecordHeader(r);
    assert forall i :: 0 <= i < RESOURCE_HEADER_LEN ==> msg[p + i] == h[i];
  }

  lemma {:induction false} QuestionsReadBack(
    msg: seq<byte>, before: seq<byte>, qs: seq<WireQuestion>, after: seq<byte>, read: seq<Question>)
    requires forall q :: q in qs ==> WellFormedQuestion(q)
    requires msg == before + EncodeQuestions(qs) + after
    ensures QuestionsFrom(msg, |before|, |qs|, read) == Ok(read + MeantQuestions(qs), |before| + |EncodeQuestions(qs)|)
    decreases |qs|
  {
    hide QuestionAt, EncodeQuestion, WellFormedQuestion, Dotted;
    if qs == [] {
      assert read + MeantQuestions(qs) == read;
    } else {
      var first := EncodeQuestion(qs[0]);
      assert msg == before + first + (EncodeQuestions(qs[1..]) + after);
      QuestionReadBack(msg, before, qs[0], EncodeQuestions(qs[1..]) + after);
      assert msg == (before + first) + EncodeQuestions(qs[1..]) + after;
      var q := QuestionAt(msg, |before|).value;
      QuestionsReadBack(msg, before + first, qs[1..], after, read + [q]);
      assert read + MeantQuestions(qs) == read + [q] + MeantQuestions(qs[1..]);
    }
  }

  lemma {:induction false} RecordsReadBack(
    msg: seq<byte>, before: seq<byte>, rs: seq<WireRecord>, after: seq<byte>, read: seq<Record>)
    requires forall r :: r in rs ==> WellFormedRecord(r)
    requires msg == before + EncodeRecords(rs) + after
    ensures RecordsFrom(msg, |before|, |rs|, read) == Ok(read + MeantRecords(rs), |before| + |EncodeRecords(rs)|)
    decreases |rs|
  {
    hide RecordAt, EncodeRecord, WellFormedRecord, Dotted;
    if rs == [] {
      assert read + MeantRecords(rs) == read;
    } else {
      var first := EncodeRecord(rs[0]);
      assert msg == before + first + (EncodeRecords(rs[1..]) + after);
      RecordReadBack(msg, before, rs[0], EncodeRecords(rs[1..]) + after);
      assert msg == (before + first) + EncodeRecords(rs[1..]) + after;
      var r := RecordAt(msg, |before|).value;
      RecordsReadBack(msg, before + first, rs[1..], after, read + [r]);
      assert read + MeantRecords(rs) == read + [r] + MeantRecords(rs[1..]);
    }
  }

  lemma HeaderReadBack(msg: seq<byte>, m: WireMessage, after: seq<byte>)
    requires WellFormed(m) && msg == EncodeHeader(m) + after
    ensures |msg| >= HEADER_LEN
    ensures Be16(msg, 0) == m.id && Be16(msg, 2) == m.flags && Be16(msg, 4) == |m.questions|
    ensures Be16(msg, 6) == |m.answers| && Be16(msg, 8) == |m.authority| && Be16(msg, 10) == |m.additional|
  {
    hide Be16, Bytes16;
    var h0, h1, h2, h3, h4, h5 := Bytes16(m.id), Bytes16(m.flags), Bytes16(|m.questions|),
      Bytes16(|m.answers|), Bytes16(|m.authority|), Bytes16(|m.additional|);
    assert msg == [] + h0 + (h1 + h2 + h3 + h4 + h5 + after);
    Be16OfBytes(msg, [], m.id, h1 + h2 + h3 + h4 + h5 + after);
    assert msg == h0 + h1 + (h2 + h3 + h4 + h5 + after);
    Be16OfBytes(msg, h0, m.flags, h2 + h3 + h4 + h5 + after);
    assert msg == (h0 + h1) + h2 + (h3 + h4 + h5 + after);
    Be16OfBytes(msg, h0 + h1, |m.questions|, h3 + h4 + h5 + after);
    assert msg == (h0 + h1 + h2) + h3 + (h4 + h5 + after);
    Be16OfBytes(msg, h0 + h1 + h2, |m.answers|, h4 + h5 + after);
    assert msg == (h0 + h1 + h2 + h3) + h4 + (h5 + after);
    Be16OfBytes(msg, h0 + h1 + h2 + h3, |m.authority|, h5 + after);
    assert msg == (h0 + h1 + h2 + h3 + h4) + h5 + after;
    Be16OfBytes(msg, h0 + h1 + h2 + h3 + h4, |m.additional|, after);
  }

  /** Round trip: every well-formed message, written without compression, is accepted and read back whole. */
  lemma MessageIsReadBack(m: WireMessage)
    requires WellFormed(m)
    ensures MessageOf(EncodeMessage(m)) == Ok(Meant(m), |EncodeMessage(m)|)
  {
    hide QuestionsFrom, RecordsFrom, EncodeQuestions, EncodeRecords, EncodeHeader, Be16, MinBytes,
      MeantQuestions, MeantRecords, WellFormedQuestion, WellFormedRecord;
    var msg := EncodeMessage(m);
    var h, q, a := EncodeHeader(m), EncodeQuestions(m.questions), EncodeRecords(m.answers);
    var u, d := EncodeRecords(m.authority), EncodeRecords(m.additional);
    assert msg == h + (q + a + u + d);
    HeaderReadBack(msg, m, q + a + u + d);
    assert msg == h + q + (a + u + d);
    QuestionsReadBack(msg, h, m.questions, a + u + d, []);
    assert msg == (h + q) + a + (u + d);
    RecordsReadBack(msg, h + q, m.answers, u + d, []);
    assert msg == (h + q + a) + u + d;
    RecordsReadBack(msg, h + q + a, m.authority, d, []);
    assert msg == (h + q + a + u) + d + [];
    RecordsReadBack(msg, h + q + a + u, m.additional, [], []);
    assert [] + MeantQuestions(m.questions) == MeantQuestions(m.questions);
    assert [] + MeantRecords(m.answers) == MeantRecords(m.answers);
    assert [] + MeantRecords(m.authority) == MeantRecords(m.authority);
    assert [] + MeantRecords(m.additional) == MeantRecords(m.additional);
    EarlyCheckIsSound(msg);
  }
}
