/** Whole messages whose names are compressed, told by the octets that stand in them, and read back. */
module DnsCompressedMessage {
  import opened Bytes
  import opened DnsName
  import opened DnsCompression
  import opened DnsMessage

  /** An entry of a message: a name in links, and what stands behind it. */
  datatype Asked = Asked(name: seq<Link>, qtype: nat, qclass: nat)
  datatype Told = Told(name: seq<Link>, rtype: nat, rclass: nat, ttl: nat, rdata: seq<byte>)

  /** The name stands at `at`, with at most ten pointers that point back and at most 255 octets. */
  predicate NameStands(msg: seq<byte>, at: nat, name: seq<Link>) {
    && Writes(msg, name) && name[0].at == at
    && |name| <= 11 && PointsBack(name, AfterLabels(name[0])) && OctetsOf(AllLabels(name)) <= 255
  }

  lemma NameIsRead(msg: seq<byte>, at: nat, name: seq<Link>)
    requires NameStands(msg, at, name)
    ensures NameAt(msg, at) == Named(Joined(AllLabels(name)), EndOfChain(name))
  {
    hide NameAt, Writes, PointsBack, AllLabels, OctetsOf, Joined, EndOfChain, AfterLabels;
    ChainIsReadBack(msg, name);
  }

  predicate QuestionStands(msg: seq<byte>, at: nat, q: Asked) {
    && NameStands(msg, at, q.name) && IsU16(q.qtype) && IsU16(q.qclass)
    && Stands(msg, EndOfChain(q.name), [q.qtype / 256, q.qtype % 256, q.qclass / 256, q.qclass % 256])
  }

  /** Type, class, time to live in four octets, and the length of the data. */
  function TenOctets(r: Told): (s: seq<byte>)
    requires IsU16(r.rtype) && IsU16(r.rclass) && r.ttl < 0x1_0000_0000 && IsU16(|r.rdata|)
    ensures |s| == 10
  {
    [r.rtype / 256, r.rtype % 256, r.rclass / 256, r.rclass % 256,
     r.ttl / 0x1_0000 / 256, r.ttl / 0x1_0000 % 256, r.ttl % 0x1_0000 / 256, r.ttl % 0x1_0000 % 256,
     |r.rdata| / 256, |r.rdata| % 256]
  }

  predicate RecordStands(msg: seq<byte>, at: nat, r: Told) {
    && NameStands(msg, at, r.name)
    && IsU16(r.rtype) && IsU16(r.rclass) && r.ttl < 0x1_0000_0000 && IsU16(|r.rdata|)
    && Stands(msg, EndOfChain(r.name), TenOctets(r) + r.rdata)
  }

  function EndOfName(name: seq<Link>): nat {
    if name != [] && HasLabels(name[0]) then EndOfChain(name) else 0
  }

  function AfterQuestions(at: nat, qs: seq<Asked>): nat {
    if qs == [] then at else EndOfName(qs[|qs| - 1].name) + 4
  }

  function AfterRecords(at: nat, rs: seq<Told>): nat {
    if rs == [] then at else EndOfName(rs[|rs| - 1].name) + 10 + |rs[|rs| - 1].rdata|
  }

  /** The questions stand one behind the other. */
  predicate QuestionsStand(msg: seq<byte>, at: nat, qs: seq<Asked>)
    decreases |qs|
  {
    qs != [] ==> QuestionStands(msg, at, qs[0]) && QuestionsStand(msg, EndOfName(qs[0].name) + 4, qs[1..])
  }

  predicate RecordsStand(msg: seq<byte>, at: nat, rs: seq<Told>)
    decreases |rs|
  {
    rs != [] ==>
      RecordStands(msg, at, rs[0]) && RecordsStand(msg, EndOfName(rs[0].name) + 10 + |rs[0].rdata|, rs[1..])
  }

  function Questions(qs: seq<Asked>): seq<Question> {
    seq(|qs|, i requires 0 <= i < |qs| => Question(Joined(AllLabels(qs[i].name)), qs[i].qtype, qs[i].qclass))
  }

  function Records(rs: seq<Told>): seq<Record> {
    seq(|rs|, i requires 0 <= i < |rs| =>
      Record(Joined(AllLabels(rs[i].name)), rs[i].rtype, rs[i].rclass, rs[i].ttl, rs[i].rdata))
  }

  lemma OctetStands(msg: seq<byte>, at: nat, s: seq<byte>, i: nat)
    requires Stands(msg, at, s) && i < |s|
    ensures at + i < |msg| && msg[at + i] == s[i]
  {
    assert msg[at..at + |s|][i] == msg[at + i];
  }

  lemma Be16Stands(msg: seq<byte>, at: nat, s: seq<byte>, i: nat, x: nat)
    requires Stands(msg, at, s) && i + 1 < |s| && IsU16(x) && s[i] as int == x / 256 && s[i + 1] as int == x % 256
    ensures at + i + 2 <= |msg| && Be16(msg, at + i) == x
  {
    OctetStands(msg, at, s, i);
    OctetStands(msg, at, s, i + 1);
  }

  lemma QuestionIsRead(msg: seq<byte>, at: nat, q: Asked)
    requires QuestionStands(msg, at, q)
    ensures QuestionAt(msg, at) ==
            Ok(Question(Joined(AllLabels(q.name)), q.qtype, q.qclass), EndOfName(q.name) + 4)
  {
    NameIsRead(msg, at, q.name);
    var p := EndOfChain(q.name);
    hide NameAt, Writes, PointsBack, AllLabels, OctetsOf, Joined, EndOfChain, AfterLabels, Stands, Be16;
    var s: seq<byte> := [q.qtype / 256, q.qtype % 256, q.qclass / 256, q.qclass % 256];
    Be16Stands(msg, p, s, 0, q.qtype);
    Be16Stands(msg, p, s, 2, q.qclass);
  }

  lemma FieldsAreRead(msg: seq<byte>, p: nat, r: Told)
    requires IsU16(r.rtype) && IsU16(r.rclass) && r.ttl < 0x1_0000_0000 && IsU16(|r.rdata|)
    requires Stands(msg, p, TenOctets(r))
    ensures p + 10 <= |msg| && Be16(msg, p) == r.rtype && Be16(msg, p + 2) == r.rclass
    ensures Be32(msg, p + 4) == r.ttl && Be16(msg, p + 8) == |r.rdata|
  {
    hide Stands, Be16;
    var s := TenOctets(r);
    Be16Stands(msg, p, s, 0, r.rtype);
    Be16Stands(msg, p, s, 2, r.rclass);
    Be16Stands(msg, p, s, 4, r.ttl / 0x1_0000);
    Be16Stands(msg, p, s, 6, r.ttl % 0x1_0000);
    Be16Stands(msg, p, s, 8, |r.rdata|);
  }

  lemma RecordIsRead(msg: seq<byte>, at: nat, r: Told)
    requires RecordStands(msg, at, r)
    ensures RecordAt(msg, at) ==
            Ok(Record(Joined(AllLabels(r.name)), r.rtype, r.rclass, r.ttl, r.rdata), EndOfName(r.name) + 10 + |r.rdata|)
  {
    NameIsRead(msg, at, r.name);
    var p := EndOfChain(r.name);
    hide NameAt, Writes, PointsBack, AllLabels, OctetsOf, Joined, EndOfChain, AfterLabels, Be16, Be32, TenOctets;
    StandsSplit(msg, p, TenOctets(r), r.rdata);
    FieldsAreRead(msg, p, r);
  }

  lemma {:induction false} QuestionsAreRead(msg: seq<byte>, at: nat, qs: seq<Asked>, read: seq<Question>)
    requires QuestionsStand(msg, at, qs)
    ensures QuestionsFrom(msg, at, |qs|, read) == Ok(read + Questions(qs), AfterQuestions(at, qs))
    decreases |qs|
  {
    hide QuestionAt, QuestionStands, AllLabels, Joined, EndOfName;
    if qs == [] {
      assert read + Questions(qs) == read;
    } else {
      QuestionIsRead(msg, at, qs[0]);
      var q := QuestionAt(msg, at).value;
      QuestionsAreRead(msg, EndOfName(qs[0].name) + 4, qs[1..], read + [q]);
      assert read + Questions(qs) == read + [q] + Questions(qs[1..]);
    }
  }

  lemma {:induction false} RecordsAreRead(msg: seq<byte>, at: nat, rs: seq<Told>, read: seq<Record>)
    requires RecordsStand(msg, at, rs)
    ensures RecordsFrom(msg, at, |rs|, read) == Ok(read + Records(rs), AfterRecords(at, rs))
    decreases |rs|
  {
    hide RecordAt, RecordStands, AllLabels, Joined, EndOfName;
    if rs == [] {
      assert read + Records(rs) == read;
    } else {
      RecordIsRead(msg, at, rs[0]);
      var r := RecordAt(msg, at).value;
      RecordsAreRead(msg, EndOfName(rs[0].name) + 10 + |rs[0].rdata|, rs[1..], read + [r]);
      assert read + Records(rs) == read + [r] + Records(rs[1..]);
    }
  }

  /** A message: two numbers, and its four sections. */
  datatype Compressed = Compressed(
    id: nat, flags: nat, questions: seq<Asked>, answers: seq<Told>, authority: seq<Told>, additional: seq<Told>)

  predicate Countable(m: Compressed) {
    && IsU16(m.id) && IsU16(m.flags) && IsU16(|m.questions|)
    && IsU16(|m.answers|) && IsU16(|m.authority|) && IsU16(|m.additional|)
  }

  function TwelveOctets(m: Compressed): (s: seq<byte>)
    requires Countable(m)
    ensures |s| == 12
  {
    [m.id / 256, m.id % 256, m.flags / 256, m.flags % 256, |m.questions| / 256, |m.questions| % 256,
     |m.answers| / 256, |m.answers| % 256, |m.authority| / 256, |m.authority| % 256,
     |m.additional| / 256, |m.additional| % 256]
  }

  function AfterAnswers(m: Compressed): nat {
    AfterRecords(AfterQuestions(12, m.questions), m.answers)
  }

  /** The header stands at the front and the sections behind it, one behind the other. */
  predicate MessageStands(msg: seq<byte>, m: Compressed) {
    && Countable(m) && Stands(msg, 0, TwelveOctets(m))
    && QuestionsStand(msg, 12, m.questions)
    && RecordsStand(msg, AfterQuestions(12, m.questions), m.answers)
    && RecordsStand(msg, AfterAnswers(m), m.authority)
    && RecordsStand(msg, AfterRecords(AfterAnswers(m), m.authority), m.additional)
  }

  lemma HeaderIsRead(msg: seq<byte>, m: Compressed)
    requires Countable(m) && Stands(msg, 0, TwelveOctets(m))
    ensures 12 <= |msg| && Be16(msg, 0) == m.id && Be16(msg, 2) == m.flags && Be16(msg, 4) == |m.questions|
    ensures Be16(msg, 6) == |m.answers| && Be16(msg, 8) == |m.authority| && Be16(msg, 10) == |m.additional|
  {
    hide Stands, Be16;
    var s := TwelveOctets(m);
    Be16Stands(msg, 0, s, 0, m.id);
    Be16Stands(msg, 0, s, 2, m.flags);
    Be16Stands(msg, 0, s, 4, |m.questions|);
    Be16Stands(msg, 0, s, 6, |m.answers|);
    Be16Stands(msg, 0, s, 8, |m.authority|);
    Be16Stands(msg, 0, s, 10, |m.additional|);
  }

  /**
   Whatever is compressed, and however: a message in whose octets these sections stand is
   accepted and read as them, each name the labels of its links joined by dots.
   */
  lemma CompressedMessageIsReadBack(msg: seq<byte>, m: Compressed)
    requires MessageStands(msg, m)
    ensures MessageOf(msg) ==
            Ok(Header(m.id, m.flags, |m.questions|, |m.answers|, |m.authority|, |m.additional|,
                      Questions(m.questions), Records(m.answers), Records(m.authority), Records(m.additional)),
               AfterRecords(AfterRecords(AfterAnswers(m), m.authority), m.additional))
  {
    hide QuestionsFrom, RecordsFrom, QuestionsStand, RecordsStand, Be16, MinBytes, Stands, TwelveOctets,
      Questions, Records, AfterQuestions, AfterRecords;
    HeaderIsRead(msg, m);
    QuestionsAreRead(msg, 12, m.questions, []);
    RecordsAreRead(msg, AfterQuestions(12, m.questions), m.answers, []);
    RecordsAreRead(msg, AfterAnswers(m), m.authority, []);
    RecordsAreRead(msg, AfterRecords(AfterAnswers(m), m.authority), m.additional, []);
    assert [] + Questions(m.questions) == Questions(m.questions);
    assert [] + Records(m.answers) == Records(m.answers);
    assert [] + Records(m.authority) == Records(m.authority);
    assert [] + Records(m.additional) == Records(m.additional);
    EarlyCheckIsSound(msg);
  }
}
