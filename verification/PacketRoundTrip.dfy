/**
 Whole packets: `parse` undoes `serialize`.
 */
module PacketRoundTrip {
  import opened Bytes
  import opened Wire
  import opened RoundTrip
  import opened RecordData

  /** `chunk` is one uncompressed proper name. */
  predicate PlainName(chunk: bytes) {
    var r := ReadName(chunk, 0);
    r.Got? && ProperName(r.value) && chunk == NameWire(r.value)
  }

  predicate PlainSoa(chunk: bytes) {
    var r := ReadSoa(chunk, 0);
    r.Got? && ProperName(r.value.mname) && ProperName(r.value.rname) && chunk == SoaWire(r.value)
  }

  /** Data whose embedded names are uncompressed and proper. */
  predicate ProperData(t: RType, rdata: bytes) {
    match t
    case NS | CNAME | PTR => PlainName(rdata)
    case MX => |rdata| < 2 || PlainName(rdata[2..])
    case SRV => |rdata| < 6 || PlainName(rdata[6..])
    case SOA => PlainSoa(rdata)
    case _ => true
  }

  predicate ProperRecord(r: Record) {
    ProperName(r.name) && ProperType(r.rtype) && |r.rdata| < 0x1_0000 && ProperData(r.rtype, r.rdata)
  }

  predicate ProperQuestion(q: Question) {
    ProperName(q.name) && ProperType(q.qtype)
  }

  predicate ProperRecords(rs: seq<Record>) {
    forall i :: 0 <= i < |rs| ==> ProperRecord(rs[i])
  }

  predicate ProperQuestions(qs: seq<Question>) {
    forall i :: 0 <= i < |qs| ==> ProperQuestion(qs[i])
  }

  predicate CountsFit(p: Packet, includeEdns: bool) {
    |p.questions| < 0x1_0000 && |p.answers| < 0x1_0000 && |p.authority| < 0x1_0000
    && |Extra(p, includeEdns)| < 0x1_0000
  }

  predicate NoOpt(rs: seq<Record>) {
    forall i :: 0 <= i < |rs| ==> rs[i].rtype != OPT
  }

  predicate ProperPacket(p: Packet) {
    && ProperQuestions(p.questions)
    && ProperRecords(p.answers) && ProperRecords(p.authority) && ProperRecords(p.additional)
    && NoOpt(p.additional)
    && (p.dnssecOk ==> p.ednsUdpSize > 0)
    && CountsFit(p, true)
  }

  /** Canonical data is left alone wherever it stands in a packet. */
  lemma DecompressIdentity(buf: bytes, t: RType, rdata: bytes, pos: nat)
    requires At(buf, pos, rdata) && ProperData(t, rdata)
    ensures Decompress(buf, t, rdata, pos) == rdata
  {
    hide At, ReadName, NameWire, SoaWire, ProperName, CanonicalName;
    match t
    case NS | CNAME | PTR =>
      var name := ReadName(rdata, 0).value;
      ReadNameBack(buf, pos, name);
      CanonicalIsPlain(name);
    case MX =>
      if |rdata| >= 2 { PrefixedIdentity(buf, 2, rdata, pos); }
    case SRV =>
      if |rdata| >= 6 { PrefixedIdentity(buf, 6, rdata, pos); }
    case SOA =>
      SoaReadsBack(buf, pos, ReadSoa(rdata, 0).value);
    case _ =>
  }

  lemma PrefixedIdentity(buf: bytes, k: nat, rdata: bytes, pos: nat)
    requires k <= |rdata| && At(buf, pos, rdata) && PlainName(rdata[k..])
    ensures ReadName(buf, pos + k).Got? && rdata[..k] + NameWire(ReadName(buf, pos + k).value) == rdata
  {
    hide ReadName, NameWire, ProperName;
    var name := ReadName(rdata[k..], 0).value;
    assert rdata == rdata[..k] + NameWire(name);
    AtSplit(buf, pos, rdata[..k], NameWire(name));
    ReadNameBack(buf, pos + k, name);
  }

  lemma ReadRecordBack(buf: bytes, pos: nat, r: Record)
    requires ProperRecord(r) && At(buf, pos, RecordWire(r))
    ensures ReadRecord(buf, pos) == Got(r, pos + |RecordWire(r)|)
  {
    hide At, ReadName, ReadU16, ReadU32, Decompress, NameWire, ProperName, ProperData, Be16, Be32;
    var a, b, c, d, e := NameWire(r.name), Be16(Code(r.rtype)), Be16(r.cls), Be32(r.ttl), Be16(|r.rdata|);
    AtSplit(buf, pos, a + b + c + d + e, r.rdata);
    AtSplit(buf, pos, a + b + c + d, e);
    AtSplit(buf, pos, a + b + c, d);
    AtSplit(buf, pos, a + b, c);
    AtSplit(buf, pos, a, b);
    ReadNameBack(buf, pos, r.name);
    ReadU16Back(buf, pos + |a|, Code(r.rtype));
    ReadU16Back(buf, pos + |a| + 2, r.cls);
    ReadU32Back(buf, pos + |a| + 4, r.ttl);
    ReadU16Back(buf, pos + |a| + 8, |r.rdata|);
    AtBounds(buf, pos + |a| + 10, r.rdata);
    DecompressIdentity(buf, r.rtype, r.rdata, pos + |a| + 10);
  }

  lemma AtBounds(buf: bytes, pos: nat, chunk: bytes)
    requires At(buf, pos, chunk)
    ensures ReadBytes(buf, pos, |chunk|) == Got(chunk, pos + |chunk|)
  {}

  lemma {:induction false} RecordsWireCons(r: Record, rs: seq<Record>)
    ensures RecordsWire([r] + rs) == RecordWire(r) + RecordsWire(rs)
  {
    hide RecordWire;
    var all := [r] + rs;
    if rs == [] {
      assert all[..0] == [] && all == [r];
      assert RecordsWire(all) == [] + RecordWire(r);
    } else {
      var k := |rs| - 1;
      assert all[..k + 1] == [r] + rs[..k];
      RecordsWireCons(r, rs[..k]);
    }
  }

  lemma {:induction false} ReadRecordsBack(buf: bytes, pos: nat, rs: seq<Record>)
    requires ProperRecords(rs) && At(buf, pos, RecordsWire(rs))
    ensures ReadRecords(buf, pos, |rs|) == Got(rs, pos + |RecordsWire(rs)|)
    decreases |rs|
  {
    hide At, ReadRecord, RecordWire, ProperRecord;
    if rs != [] {
      var r, more := rs[0], rs[1..];
      assert rs == [r] + more;
      RecordsWireCons(r, more);
      AtSplit(buf, pos, RecordWire(r), RecordsWire(more));
      ReadRecordBack(buf, pos, r);
      ReadRecordsBack(buf, pos + |RecordWire(r)|, more);
    }
  }

  lemma ReadQuestionBack(buf: bytes, pos: nat, q: Question)
    requires ProperQuestion(q) && At(buf, pos, QuestionWire(q))
    ensures ReadQuestion(buf, pos) == Got(q, pos + |QuestionWire(q)|)
  {
    hide At, ReadName, ReadU16, NameWire, ProperName, Be16;
    var a, b, c := NameWire(q.name), Be16(Code(q.qtype)), Be16(q.qclass);
    AtSplit(buf, pos, a + b, c);
    AtSplit(buf, pos, a, b);
    ReadNameBack(buf, pos, q.name);
    ReadU16Back(buf, pos + |a|, Code(q.qtype));
    ReadU16Back(buf, pos + |a| + 2, q.qclass);
  }

  lemma {:induction false} QuestionsWireCons(q: Question, qs: seq<Question>)
    ensures QuestionsWire([q] + qs) == QuestionWire(q) + QuestionsWire(qs)
  {
    hide QuestionWire;
    var all := [q] + qs;
    if qs == [] {
      assert all[..0] == [] && all == [q];
      assert QuestionsWire(all) == [] + QuestionWire(q);
    } else {
      var k := |qs| - 1;
      assert all[..k + 1] == [q] + qs[..k];
      QuestionsWireCons(q, qs[..k]);
    }
  }

  lemma {:induction false} ReadQuestionsBack(buf: bytes, pos: nat, qs: seq<Question>)
    requires ProperQuestions(qs) && At(buf, pos, QuestionsWire(qs))
    ensures ReadQuestions(buf, pos, |qs|) == Got(qs, pos + |QuestionsWire(qs)|)
    decreases |qs|
  {
    hide At, ReadQuestion, QuestionWire, ProperQuestion;
    if qs != [] {
      var q, more := qs[0], qs[1..];
      assert qs == [q] + more;
      QuestionsWireCons(q, more);
      AtSplit(buf, pos, QuestionWire(q), QuestionsWire(more));
      ReadQuestionBack(buf, pos, q);
      ReadQuestionsBack(buf, pos + |QuestionWire(q)|, more);
    }
  }

  lemma {:induction false} WithoutOptNoOp(rs: seq<Record>)
    requires NoOpt(rs)
    ensures WithoutOpt(rs) == rs && EdnsOf(rs) == (0, false)
  {
    if rs != [] {
      WithoutOptNoOp(rs[..|rs| - 1]);
      assert rs == rs[..|rs| - 1] + [rs[|rs| - 1]];
    }
  }

  /** The OPT record carries the size and the DO bit and leaves no other trace. */
  lemma ExtraSplits(p: Packet)
    requires NoOpt(p.additional) && (p.dnssecOk ==> p.ednsUdpSize > 0)
    ensures WithoutOpt(Extra(p, true)) == p.additional
    ensures EdnsOf(Extra(p, true)) == (p.ednsUdpSize, p.dnssecOk)
  {
    WithoutOptNoOp(p.additional);
    if p.ednsUdpSize > 0 {
      var opt := OptRecord(p.ednsUdpSize, p.dnssecOk);
      assert Extra(p, true)[..|p.additional|] == p.additional;
      assert opt.ttl / 0x8000 % 2 == if p.dnssecOk then 1 else 0;
    } else {
      assert Extra(p, true) == p.additional;
    }
  }

  lemma HeaderReadsBack(buf: bytes, p: Packet, includeEdns: bool)
    requires At(buf, 0, HeaderWire(p, includeEdns)) && CountsFit(p, includeEdns)
    ensures ReadU16(buf, 0) == Got(p.id, 2) && ReadU16(buf, 2) == Got(p.flags, 4)
    ensures ReadU16(buf, 4) == Got(|p.questions|, 6) && ReadU16(buf, 6) == Got(|p.answers|, 8)
    ensures ReadU16(buf, 8) == Got(|p.authority|, 10) && ReadU16(buf, 10) == Got(|Extra(p, includeEdns)|, 12)
  {
    hide At, ReadU16, Be16, Extra;
    var a, b, c := Be16(p.id), Be16(p.flags), Be16(|p.questions|);
    var d, e, f := Be16(|p.answers|), Be16(|p.authority|), Be16(|Extra(p, includeEdns)|);
    AtSplit(buf, 0, a + b + c + d + e, f);
    AtSplit(buf, 0, a + b + c + d, e);
    AtSplit(buf, 0, a + b + c, d);
    AtSplit(buf, 0, a + b, c);
    AtSplit(buf, 0, a, b);
    ReadU16Back(buf, 0, p.id);
    ReadU16Back(buf, 2, p.flags);
    ReadU16Back(buf, 4, |p.questions|);
    ReadU16Back(buf, 6, |p.answers|);
    ReadU16Back(buf, 8, |p.authority|);
    ReadU16Back(buf, 10, |Extra(p, includeEdns)|);
  }

  /** Where each section of a serialized packet stands. */
  lemma SectionsAt(p: Packet, includeEdns: bool)
    ensures var wire, extra := Serialize(p, includeEdns), Extra(p, includeEdns);
            var q, a, n := |QuestionsWire(p.questions)|, |RecordsWire(p.answers)|, |RecordsWire(p.authority)|;
            At(wire, 0, HeaderWire(p, includeEdns)) && At(wire, 12, QuestionsWire(p.questions))
            && At(wire, 12 + q, RecordsWire(p.answers)) && At(wire, 12 + q + a, RecordsWire(p.authority))
            && At(wire, 12 + q + a + n, RecordsWire(extra))
            && |wire| == 12 + q + a + n + |RecordsWire(extra)|
  {
    hide HeaderWire, QuestionsWire, RecordsWire, Extra;
    var wire := Serialize(p, includeEdns);
    var h, q := HeaderWire(p, includeEdns), QuestionsWire(p.questions);
    var a, n, e := RecordsWire(p.answers), RecordsWire(p.authority), RecordsWire(Extra(p, includeEdns));
    assert At(wire, 0, h + q + a + n + e);
    AtSplit(wire, 0, h + q + a + n, e);
    AtSplit(wire, 0, h + q + a, n);
    AtSplit(wire, 0, h + q, a);
    AtSplit(wire, 0, h, q);
  }

  /** Parsing a serialized packet gives it back and consumes every octet. */
  lemma ParseSerialize(p: Packet)
    requires ProperPacket(p)
    ensures Parse(Serialize(p, true)) == Got(p, |Serialize(p, true)|)
  {
    hide At, ReadU16, ReadQuestions, ReadRecords, Serialize, QuestionsWire, RecordsWire, HeaderWire, Extra;
    hide ProperQuestions, ProperRecords, NoOpt, WithoutOpt, EdnsOf;
    var wire, extra := Serialize(p, true), Extra(p, true);
    var q, a, n := |QuestionsWire(p.questions)|, |RecordsWire(p.answers)|, |RecordsWire(p.authority)|;
    SectionsAt(p, true);
    HeaderReadsBack(wire, p, true);
    ExtraIsProper(p);
    ReadQuestionsBack(wire, 12, p.questions);
    ReadRecordsBack(wire, 12 + q, p.answers);
    ReadRecordsBack(wire, 12 + q + a, p.authority);
    ReadRecordsBack(wire, 12 + q + a + n, extra);
    ExtraSplits(p);
  }

  lemma ExtraIsProper(p: Packet)
    requires ProperRecords(p.additional)
    ensures ProperRecords(Extra(p, true))
  {
    if p.ednsUdpSize > 0 {
      var opt := OptRecord(p.ednsUdpSize, p.dnssecOk);
      assert ProperRecord(opt);
    }
  }
}
