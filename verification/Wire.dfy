/**
 DNS wire format (src/proto.rs): record types, packets, and the functions that say what
 reading a buffer and writing a packet mean.
 */
module Wire {
  import opened Bytes
  import opened Names

  // Record types

  datatype RType =
    | A | NS | CNAME | SOA | PTR | MX | TXT | AAAA | SRV | NAPTR | OPT | DS | RRSIG | NSEC
    | DNSKEY | NSEC3 | NSEC3PARAM | TSIG | IXFR | AXFR | ANY | Unknown(number: u16)

  function TypeOf(n: u16): RType {
    match n
    case 1 => A
    case 2 => NS
    case 5 => CNAME
    case 6 => SOA
    case 12 => PTR
    case 15 => MX
    case 16 => TXT
    case 28 => AAAA
    case 33 => SRV
    case 35 => NAPTR
    case 41 => OPT
    case 43 => DS
    case 46 => RRSIG
    case 47 => NSEC
    case 48 => DNSKEY
    case 50 => NSEC3
    case 51 => NSEC3PARAM
    case 250 => TSIG
    case 251 => IXFR
    case 252 => AXFR
    case 255 => ANY
    case _ => Unknown(n)
  }

  function Code(t: RType): u16 {
    match t
    case A => 1
    case NS => 2
    case CNAME => 5
    case SOA => 6
    case PTR => 12
    case MX => 15
    case TXT => 16
    case AAAA => 28
    case SRV => 33
    case NAPTR => 35
    case OPT => 41
    case DS => 43
    case RRSIG => 46
    case NSEC => 47
    case DNSKEY => 48
    case NSEC3 => 50
    case NSEC3PARAM => 51
    case TSIG => 250
    case IXFR => 251
    case AXFR => 252
    case ANY => 255
    case Unknown(n) => n
  }

  /** `Unknown` carries no number that has a name of its own. */
  predicate ProperType(t: RType) {
    TypeOf(Code(t)) == t
  }

  datatype Question = Question(name: text, qtype: RType, qclass: u16)

  datatype Record = Record(name: text, rtype: RType, cls: u16, ttl: u32, rdata: bytes)

  datatype Packet = Packet(id: u16, flags: u16, questions: seq<Question>, answers: seq<Record>,
                           authority: seq<Record>, additional: seq<Record>,
                           ednsUdpSize: u16, dnssecOk: bool)

  // Reading

  /** A value read from a buffer and the position after it. */
  datatype Read<+T> = Fail | Got(value: T, next: nat) {
    predicate IsFailure() { Fail? }
    function PropagateFailure<U>(): Read<U> requires Fail? { Fail }
    function Extract(): (T, nat) requires Got? { (value, next) }
  }

  function ReadU8(buf: bytes, pos: nat): Read<byte> {
    if pos < |buf| then Got(buf[pos], pos + 1) else Fail
  }

  function ReadU16(buf: bytes, pos: nat): Read<u16> {
    if pos + 2 <= |buf| then Got(FromBe16(buf[pos], buf[pos + 1]), pos + 2) else Fail
  }

  function ReadU32(buf: bytes, pos: nat): Read<u32> {
    var (hi, p) :- ReadU16(buf, pos);
    var (lo, q) :- ReadU16(buf, p);
    Got(hi * 0x1_0000 + lo, q)
  }

  function ReadBytes(buf: bytes, pos: nat, n: nat): Read<bytes> {
    if pos + n > |buf| then Fail else Got(buf[pos..pos + n], pos + n)
  }

  const MAX_JUMPS: nat := 20

  /** Octets with the two top bits set start a compression pointer. */
  predicate IsPointer(b: byte) {
    b >= 0xC0
  }

  function PointerTarget(hi: byte, lo: byte): nat
    requires IsPointer(hi)
  {
    (hi - 0xC0) * 0x100 + lo
  }

  /** The labels of the name at `pos`, and the position just past its terminator or first pointer. */
  function ReadLabels(buf: bytes, pos: nat, jumps: nat): (r: Read<seq<bytes>>)
    requires jumps <= MAX_JUMPS
    decreases MAX_JUMPS - jumps, |buf| - pos
  {
    if pos >= |buf| then Fail
    else if buf[pos] == 0 then Got([], pos + 1)
    else if IsPointer(buf[pos]) then
      if pos + 1 >= |buf| || jumps == MAX_JUMPS then Fail
      else
        var (ls, _) :- ReadLabels(buf, PointerTarget(buf[pos], buf[pos + 1]), jumps + 1);
        Got(ls, pos + 2)
    else
      var end := pos + 1 + buf[pos];
      if end > |buf| then Fail
      else
        var (ls, next) :- ReadLabels(buf, end, jumps);
        Got([buf[pos + 1..end]] + ls, next)
  }

  /** A label as text: lower-cased, or `?` when it is not UTF-8. */
  function DecodeLabel(raw: bytes): text {
    if ValidUtf8(raw) then Lower(raw) else [63]
  }

  function DecodeLabels(raws: seq<bytes>): (ls: seq<text>)
    ensures |ls| == |raws| && forall i :: 0 <= i < |ls| ==> ls[i] == DecodeLabel(raws[i])
  {
    seq(|raws|, i requires 0 <= i < |raws| => DecodeLabel(raws[i]))
  }

  function NameText(raws: seq<bytes>): text {
    if raws == [] then ROOT else Join(DecodeLabels(raws))
  }

  function ReadName(buf: bytes, pos: nat): Read<text> {
    var (raws, next) :- ReadLabels(buf, pos, 0);
    Got(NameText(raws), next)
  }

  /**
   Section 4.1.4 of RFC 1035 read as a relation, with `hops` pointers followed: the
   octets at `pos` denote `labels`. Length octets 64..191, reserved by the RFC, count
   as plain lengths because the parser only looks for both top bits set.
   */
  ghost predicate Denotes(buf: bytes, pos: nat, hops: nat, labels: seq<bytes>)
    decreases hops, |labels|
  {
    pos < |buf| &&
    if buf[pos] == 0 then labels == [] && hops == 0
    else if IsPointer(buf[pos]) then
      pos + 1 < |buf| && hops > 0 &&
      Denotes(buf, PointerTarget(buf[pos], buf[pos + 1]), hops - 1, labels)
    else
      labels != [] && pos + 1 + buf[pos] <= |buf| &&
      labels[0] == buf[pos + 1..pos + 1 + buf[pos]] &&
      Denotes(buf, pos + 1 + buf[pos], hops, labels[1..])
  }

  /** `end` is just past the first zero octet or pointer met from `pos` by stepping over labels. */
  ghost predicate EndsAt(buf: bytes, pos: nat, end: nat)
    decreases |buf| - pos
  {
    pos < |buf| &&
    if buf[pos] == 0 then end == pos + 1
    else if IsPointer(buf[pos]) then end == pos + 2
    else EndsAt(buf, pos + 1 + buf[pos], end)
  }

  function ReadQuestion(buf: bytes, pos: nat): Read<Question> {
    var (name, p) :- ReadName(buf, pos);
    var (qtype, q) :- ReadU16(buf, p);
    var (qclass, r) :- ReadU16(buf, q);
    Got(Question(name, TypeOf(qtype), qclass), r)
  }

  function ReadQuestions(buf: bytes, pos: nat, n: nat): Read<seq<Question>>
    decreases n
  {
    if n == 0 then Got([], pos)
    else
      var (q, p) :- ReadQuestion(buf, pos);
      var (qs, next) :- ReadQuestions(buf, p, n - 1);
      Got([q] + qs, next)
  }

  function ReadRecord(buf: bytes, pos: nat): Read<Record> {
    var (name, p) :- ReadName(buf, pos);
    var (code, q) :- ReadU16(buf, p);
    var (cls, r) :- ReadU16(buf, q);
    var (ttl, s) :- ReadU32(buf, r);
    var (len, t) :- ReadU16(buf, s);
    var (raw, next) :- ReadBytes(buf, t, len);
    Got(Record(name, TypeOf(code), cls, ttl, Decompress(buf, TypeOf(code), raw, t)), next)
  }

  function ReadRecords(buf: bytes, pos: nat, n: nat): Read<seq<Record>>
    decreases n
  {
    if n == 0 then Got([], pos)
    else
      var (r, p) :- ReadRecord(buf, pos);
      var (rs, next) :- ReadRecords(buf, p, n - 1);
      Got([r] + rs, next)
  }

  function WithoutOpt(rs: seq<Record>): seq<Record> {
    if rs == [] then []
    else if rs[|rs| - 1].rtype == OPT then WithoutOpt(rs[..|rs| - 1])
    else WithoutOpt(rs[..|rs| - 1]) + [rs[|rs| - 1]]
  }

  /** Payload size and DO bit of the last OPT record. */
  function EdnsOf(rs: seq<Record>): (u16, bool) {
    if rs == [] then (0, false)
    else if rs[|rs| - 1].rtype == OPT then (rs[|rs| - 1].cls, rs[|rs| - 1].ttl / 0x8000 % 2 == 1)
    else EdnsOf(rs[..|rs| - 1])
  }

  function Parse(buf: bytes): Read<Packet> {
    var (id, p0) :- ReadU16(buf, 0);
    var (flags, p1) :- ReadU16(buf, p0);
    var (qd, p2) :- ReadU16(buf, p1);
    var (an, p3) :- ReadU16(buf, p2);
    var (ns, p4) :- ReadU16(buf, p3);
    var (ar, p5) :- ReadU16(buf, p4);
    var (questions, p6) :- ReadQuestions(buf, p5, qd);
    var (answers, p7) :- ReadRecords(buf, p6, an);
    var (authority, p8) :- ReadRecords(buf, p7, ns);
    var (extra, p9) :- ReadRecords(buf, p8, ar);
    Got(Packet(id, flags, questions, answers, authority, WithoutOpt(extra), EdnsOf(extra).0, EdnsOf(extra).1), p9)
  }

  // Writing

  function LabelWire(l: text): bytes {
    [|l| % 0x100] + l
  }

  function LabelsWire(ls: seq<text>): bytes {
    if ls == [] then [] else LabelWire(ls[0]) + LabelsWire(ls[1..])
  }

  /** `Builder::name`: empty labels are skipped. */
  function NameWire(name: text): bytes {
    LabelsWire(Labels(name)) + [0]
  }

  /** `canonical_name`: lower-cased; empty labels are written as zero octets. */
  function CanonicalName(name: text): bytes {
    var trimmed := TrimDots(Lower(name));
    if trimmed == [] then [0] else LabelsWire(Split(trimmed)) + [0]
  }

  function QuestionWire(q: Question): bytes {
    NameWire(q.name) + Be16(Code(q.qtype)) + Be16(q.qclass)
  }

  function QuestionsWire(qs: seq<Question>): bytes {
    if qs == [] then [] else QuestionsWire(qs[..|qs| - 1]) + QuestionWire(qs[|qs| - 1])
  }

  function RecordWire(r: Record): bytes {
    NameWire(r.name) + Be16(Code(r.rtype)) + Be16(r.cls) + Be32(r.ttl) + Be16(|r.rdata| % 0x1_0000) + r.rdata
  }

  function RecordsWire(rs: seq<Record>): bytes {
    if rs == [] then [] else RecordsWire(rs[..|rs| - 1]) + RecordWire(rs[|rs| - 1])
  }

  function OptRecord(size: u16, dnssecOk: bool): Record {
    Record(ROOT, OPT, size, if dnssecOk then 0x8000 else 0, [])
  }

  /** The additional section as sent: with the OPT record when EDNS is on. */
  function Extra(p: Packet, includeEdns: bool): seq<Record> {
    p.additional + if includeEdns && p.ednsUdpSize > 0 then [OptRecord(p.ednsUdpSize, p.dnssecOk)] else []
  }

  function HeaderWire(p: Packet, includeEdns: bool): (h: bytes)
    ensures |h| == 12
  {
    Be16(p.id) + Be16(p.flags) + Be16(|p.questions| % 0x1_0000) + Be16(|p.answers| % 0x1_0000)
    + Be16(|p.authority| % 0x1_0000) + Be16(|Extra(p, includeEdns)| % 0x1_0000)
  }

  function Serialize(p: Packet, includeEdns: bool): bytes {
    HeaderWire(p, includeEdns) + QuestionsWire(p.questions) + RecordsWire(p.answers)
    + RecordsWire(p.authority) + RecordsWire(Extra(p, includeEdns))
  }

  // Names inside record data

  /** `decompress_rdata`: names are read from the whole packet, not from the slice. */
  function Decompress(packet: bytes, rtype: RType, rdata: bytes, offset: nat): bytes {
    match rtype
    case NS | CNAME | PTR =>
      var name := ReadName(packet, offset);
      if name.Got? then CanonicalName(name.value) else rdata
    case MX =>
      if |rdata| < 2 then rdata
      else
        var name := ReadName(packet, offset + 2);
        if name.Got? then rdata[..2] + NameWire(name.value) else rdata
    case SRV =>
      if |rdata| < 6 then rdata
      else
        var name := ReadName(packet, offset + 6);
        if name.Got? then rdata[..6] + NameWire(name.value) else rdata
    case SOA =>
      var soa := ReadSoa(packet, offset);
      if soa.Got? then SoaWire(soa.value) else rdata
    case _ => rdata
  }

  const SOA_NUMBERS: seq<string> := ["serial", "refresh", "retry", "expire", "minimum"]

  /** SOA data: two names, then the five numbers. */
  datatype Soa = Soa(mname: text, rname: text, numbers: seq<u32>)

  function ReadU32s(buf: bytes, pos: nat, n: nat): (r: Read<seq<u32>>)
    ensures r.Got? ==> |r.value| == n && r.next == pos + 4 * n
    decreases n
  {
    if n == 0 then Got([], pos)
    else
      var (v, p) :- ReadU32(buf, pos);
      var (vs, next) :- ReadU32s(buf, p, n - 1);
      Got([v] + vs, next)
  }

  function ReadSoa(buf: bytes, pos: nat): Read<Soa> {
    var (mname, p) :- ReadName(buf, pos);
    var (rname, q) :- ReadName(buf, p);
    var (numbers, next) :- ReadU32s(buf, q, |SOA_NUMBERS|);
    Got(Soa(mname, rname, numbers), next)
  }

  function U32sWire(vs: seq<u32>): bytes {
    if vs == [] then [] else Be32(vs[0]) + U32sWire(vs[1..])
  }

  function SoaWire(s: Soa): bytes {
    NameWire(s.mname) + (NameWire(s.rname) + U32sWire(s.numbers))
  }

  /** Serial of an SOA record (`soa_serial`, `extract_serial`). */
  function SoaSerial(rdata: bytes): Option<u32> {
    var mname := ReadName(rdata, 0);
    if mname.Fail? then None
    else
      var rname := ReadName(rdata, mname.next);
      if rname.Fail? then None
      else
        var serial := ReadU32(rdata, rname.next);
        if serial.Fail? then None else Some(serial.value)
  }

  // RRSIG data

  datatype Rrsig = Rrsig(typeCovered: u16, algorithm: byte, labels: byte, origTtl: u32, expiry: u32,
                         inception: u32, keyTag: u16, signer: text, signature: bytes)

  /** `parse_rrsig`: the signature is whatever follows the signer's name. */
  function ReadRrsig(buf: bytes): Read<Rrsig> {
    var (typeCovered, p) :- ReadU16(buf, 0);
    var (algorithm, q) :- ReadU8(buf, p);
    var (labels, r) :- ReadU8(buf, q);
    var (origTtl, s) :- ReadU32(buf, r);
    var (expiry, t) :- ReadU32(buf, s);
    var (inception, u) :- ReadU32(buf, t);
    var (keyTag, v) :- ReadU16(buf, u);
    var (signer, w) :- ReadName(buf, v);
    var (signature, next) :- ReadBytes(buf, w, if w <= |buf| then |buf| - w else 0);
    Got(Rrsig(typeCovered, algorithm, labels, origTtl, expiry, inception, keyTag, signer, signature), next)
  }
}
