/**
 The imperative parser and builder of src/proto.rs, proved against the reading and
 writing functions of `Wire`, and the name loop against section 4.1.4 of RFC 1035.
 */
module Codec {
  import opened Bytes
  import opened Names
  import opened Wire

  // The name reader against the RFC

  lemma {:induction false} ReadDenotes(buf: bytes, pos: nat, jumps: nat) returns (hops: nat)
    requires jumps <= MAX_JUMPS && ReadLabels(buf, pos, jumps).Got?
    ensures hops <= MAX_JUMPS - jumps && Denotes(buf, pos, hops, ReadLabels(buf, pos, jumps).value)
    ensures EndsAt(buf, pos, ReadLabels(buf, pos, jumps).next)
    decreases MAX_JUMPS - jumps, |buf| - pos
  {
    if buf[pos] == 0 {
      hops := 0;
    } else if IsPointer(buf[pos]) {
      hops := ReadDenotes(buf, PointerTarget(buf[pos], buf[pos + 1]), jumps + 1);
      hops := hops + 1;
    } else {
      var end := pos + 1 + buf[pos];
      hops := ReadDenotes(buf, end, jumps);
      var ls := ReadLabels(buf, end, jumps).value;
      assert ([buf[pos + 1..end]] + ls)[1..] == ls;
    }
  }

  lemma {:induction false} DenotesRead(buf: bytes, pos: nat, hops: nat, labels: seq<bytes>, jumps: nat)
    requires hops + jumps <= MAX_JUMPS && Denotes(buf, pos, hops, labels)
    ensures ReadLabels(buf, pos, jumps).Got? && ReadLabels(buf, pos, jumps).value == labels
    decreases hops, |labels|
  {
    if buf[pos] != 0 {
      if IsPointer(buf[pos]) {
        DenotesRead(buf, PointerTarget(buf[pos], buf[pos + 1]), hops - 1, labels, jumps + 1);
      } else {
        var end := pos + 1 + buf[pos];
        DenotesRead(buf, end, hops, labels[1..], jumps);
        assert ReadLabels(buf, pos, jumps).value == [buf[pos + 1..end]] + ReadLabels(buf, end, jumps).value;
        assert labels == [labels[0]] + labels[1..];
      }
    }
  }

  /**
   Reading a name succeeds exactly when the octets denote labels through at most 20
   pointers; the labels are then the only ones denoted, and reading stops just past
   the terminator or the first pointer.
   */
  lemma ReadLabelsExact(buf: bytes, pos: nat)
    ensures ReadLabels(buf, pos, 0).Got?
            <==> exists hops: nat, labels :: hops <= MAX_JUMPS && Denotes(buf, pos, hops, labels)
    ensures forall hops: nat, labels ::
              hops <= MAX_JUMPS && Denotes(buf, pos, hops, labels) ==> ReadLabels(buf, pos, 0).value == labels
    ensures ReadLabels(buf, pos, 0).Got? ==> EndsAt(buf, pos, ReadLabels(buf, pos, 0).next)
  {
    forall hops: nat, labels | hops <= MAX_JUMPS && Denotes(buf, pos, hops, labels)
      ensures ReadLabels(buf, pos, 0).Got? && ReadLabels(buf, pos, 0).value == labels
    {
      DenotesRead(buf, pos, hops, labels, 0);
    }
    if ReadLabels(buf, pos, 0).Got? {
      var hops := ReadDenotes(buf, pos, 0);
      assert exists h: nat, labels :: h <= MAX_JUMPS && Denotes(buf, pos, h, labels);
    }
  }

  /** The outcome of a parser method is the one the reading function gives. */
  ghost predicate Outcome<T>(r: Option<T>, spec: Read<T>, pos: nat) {
    match spec
    case Fail => r.None?
    case Got(value, next) => r == Some(value) && pos == next
  }

  /** What is left to read, put after what was read already. */
  ghost function After<T>(done: seq<T>, rest: Read<seq<T>>): Read<seq<T>> {
    if rest.Fail? then Fail else Got(done + rest.value, rest.next)
  }

  lemma AfterNothing<T>(rest: Read<seq<T>>)
    ensures After([], rest) == rest
  {
    if rest.Got? { assert [] + rest.value == rest.value; }
  }

  lemma AfterOne<T>(done: seq<T>, x: T, rest: Read<seq<T>>)
    ensures After(done, After([x], rest)) == After(done + [x], rest)
  {
    if rest.Got? { assert done + ([x] + rest.value) == done + [x] + rest.value; }
  }

  // The loop of `Parser.Name`

  /**
   The name at `start` is `raws` followed by what stands at `at`, `jumps` pointers in;
   once a pointer was followed the name ends at `end`.
   */
  ghost predicate Resumes(buf: bytes, start: nat, raws: seq<bytes>, at: nat, jumps: nat, end: nat)
    requires jumps <= MAX_JUMPS
  {
    var rest := ReadLabels(buf, at, jumps);
    ReadLabels(buf, start, 0)
    == if rest.Fail? then Fail else Got(raws + rest.value, if jumps > 0 then end else rest.next)
  }

  lemma ResumesAtStart(buf: bytes, start: nat)
    ensures Resumes(buf, start, [], start, 0, start)
  {
    AfterNothing(ReadLabels(buf, start, 0));
  }

  /** What the loop may conclude at the end of the buffer, at a terminator and at a bad length. */
  lemma ResumesOutcome(buf: bytes, start: nat, raws: seq<bytes>, at: nat, jumps: nat, end: nat)
    requires jumps <= MAX_JUMPS && Resumes(buf, start, raws, at, jumps, end)
    ensures at >= |buf| ==> ReadLabels(buf, start, 0).Fail?
    ensures at < |buf| && buf[at] == 0
            ==> ReadLabels(buf, start, 0) == Got(raws, if jumps > 0 then end else at + 1)
    ensures at + 1 == |buf| && IsPointer(buf[at]) ==> ReadLabels(buf, start, 0).Fail?
    ensures at + 1 < |buf| && IsPointer(buf[at]) && jumps == MAX_JUMPS ==> ReadLabels(buf, start, 0).Fail?
    ensures at < |buf| && 0 < buf[at] < 0xC0 && at + 1 + buf[at] > |buf| ==> ReadLabels(buf, start, 0).Fail?
  {
    if at < |buf| && buf[at] == 0 { assert raws + [] == raws; }
  }

  lemma ResumesPointer(buf: bytes, start: nat, raws: seq<bytes>, at: nat, jumps: nat, end: nat)
    requires jumps <= MAX_JUMPS && Resumes(buf, start, raws, at, jumps, end)
    requires at + 1 < |buf| && IsPointer(buf[at])
    ensures jumps < MAX_JUMPS ==>
              Resumes(buf, start, raws, PointerTarget(buf[at], buf[at + 1]), jumps + 1,
                      if jumps > 0 then end else at + 2)
  {}

  lemma ResumesLabel(buf: bytes, start: nat, raws: seq<bytes>, at: nat, jumps: nat, end: nat)
    requires jumps <= MAX_JUMPS && Resumes(buf, start, raws, at, jumps, end)
    requires at < |buf| && 0 < buf[at] < 0xC0 && at + 1 + buf[at] <= |buf|
    ensures Resumes(buf, start, raws + [buf[at + 1..at + 1 + buf[at]]], at + 1 + buf[at], jumps, end)
  {
    AfterOne(raws, buf[at + 1..at + 1 + buf[at]], ReadLabels(buf, at + 1 + buf[at], jumps));
  }

  lemma DecodeSnoc(raws: seq<bytes>, raw: bytes)
    ensures DecodeLabels(raws + [raw]) == DecodeLabels(raws) + [DecodeLabel(raw)]
  {}

  class Parser {
    const buf: bytes
    var pos: nat

    constructor (buf: bytes)
      ensures this.buf == buf && pos == 0
    {
      this.buf := buf;
      pos := 0;
    }

    method U8() returns (r: Option<byte>)
      modifies this
      ensures Outcome(r, ReadU8(buf, old(pos)), pos)
    {
      if pos >= |buf| { return None; }
      r := Some(buf[pos]);
      pos := pos + 1;
    }

    method U16() returns (r: Option<u16>)
      modifies this
      ensures Outcome(r, ReadU16(buf, old(pos)), pos)
    {
      var hi :- U8();
      var lo :- U8();
      return Some(FromBe16(hi, lo));
    }

    method U32() returns (r: Option<u32>)
      modifies this
      ensures Outcome(r, ReadU32(buf, old(pos)), pos)
    {
      var hi: int :- U16();
      var lo: int :- U16();
      return Some(hi * 0x1_0000 + lo);
    }

    method Bytes(n: nat) returns (r: Option<bytes>)
      modifies this
      ensures Outcome(r, ReadBytes(buf, old(pos), n), pos)
    {
      if pos + n > |buf| { return None; }
      r := Some(buf[pos..pos + n]);
      pos := pos + n;
    }

    method Name() returns (r: Option<text>)
      modifies this
      ensures Outcome(r, ReadName(buf, old(pos)), pos)
    {
      hide DecodeLabels, Lower, ValidUtf8, ReadLabels, Resumes;
      ghost var start, raws: seq<bytes> := pos, [];
      var parts: seq<text> := [];
      var at: nat := pos;
      var jumped := false;
      var jumps := 0;
      ResumesAtStart(buf, at);
      while true
        invariant jumps <= MAX_JUMPS && (jumped <==> jumps > 0)
        invariant !jumped ==> pos == start
        invariant parts == DecodeLabels(raws) && |parts| == |raws|
        invariant Resumes(buf, start, raws, at, jumps, pos)
        decreases MAX_JUMPS - jumps, |buf| - at
      {
        ResumesOutcome(buf, start, raws, at, jumps, pos);
        if at >= |buf| { return None; }
        var b: int := buf[at];
        if b == 0 {
          if !jumped { pos := at + 1; }
          break;
        } else if b >= 0xC0 {
          if at + 1 >= |buf| { return None; }
          if !jumped { pos := at + 2; }
          ResumesPointer(buf, start, raws, at, jumps, if jumped then pos else start);
          at := (b - 0xC0) * 0x100 + buf[at + 1];
          jumped := true;
          jumps := jumps + 1;
          if jumps > MAX_JUMPS { return None; }
        } else {
          var end := at + 1 + b;
          if end > |buf| { return None; }
          var raw := buf[at + 1..end];
          parts := parts + [if ValidUtf8(raw) then Lower(raw) else [63]];
          DecodeSnoc(raws, raw);
          ResumesLabel(buf, start, raws, at, jumps, pos);
          raws := raws + [raw];
          at := end;
        }
      }
      return Some(if parts == [] then ROOT else Join(parts));
    }

    method Record() returns (r: Option<Record>)
      modifies this
      ensures Outcome(r, ReadRecord(buf, old(pos)), pos)
    {
      var name :- Name();
      var code :- U16();
      var cls :- U16();
      var ttl :- U32();
      var len :- U16();
      var offset := pos;
      var raw :- Bytes(len);
      var rdata := DecompressRdata(buf, TypeOf(code), raw, offset);
      return Some(Wire.Record(name, TypeOf(code), cls, ttl, rdata));
    }

    method Records(n: nat) returns (r: Option<seq<Record>>)
      modifies this
      ensures Outcome(r, ReadRecords(buf, old(pos), n), pos)
    {
      ghost var start := pos;
      var done: seq<Record> := [];
      var i := 0;
      hide ReadRecord;
      AfterNothing(ReadRecords(buf, pos, n));
      while i < n
        invariant i <= n
        invariant ReadRecords(buf, start, n) == After(done, ReadRecords(buf, pos, n - i))
      {
        var rec :- Record();
        AfterOne(done, rec, ReadRecords(buf, pos, n - i - 1));
        done := done + [rec];
        i := i + 1;
      }
      assert done + [] == done;
      return Some(done);
    }

    method Questions(n: nat) returns (r: Option<seq<Question>>)
      modifies this
      ensures Outcome(r, ReadQuestions(buf, old(pos), n), pos)
    {
      ghost var start := pos;
      var done: seq<Question> := [];
      var i := 0;
      hide ReadName;
      AfterNothing(ReadQuestions(buf, pos, n));
      while i < n
        invariant i <= n
        invariant ReadQuestions(buf, start, n) == After(done, ReadQuestions(buf, pos, n - i))
      {
        var name :- Name();
        var qtype :- U16();
        var qclass :- U16();
        var q := Question(name, TypeOf(qtype), qclass);
        AfterOne(done, q, ReadQuestions(buf, pos, n - i - 1));
        done := done + [q];
        i := i + 1;
      }
      assert done + [] == done;
      return Some(done);
    }

    method Parse() returns (r: Option<Packet>)
      requires pos == 0
      modifies this
      ensures Outcome(r, Wire.Parse(buf), pos)
    {
      hide ReadU16, ReadQuestions, ReadRecords;
      var id :- U16();
      var flags :- U16();
      var qd :- U16();
      var an :- U16();
      var ns :- U16();
      var ar :- U16();
      var questions :- Questions(qd);
      var answers :- Records(an);
      var authority :- Records(ns);
      var raw :- Records(ar);

      var size: u16, dnssecOk := 0, false;
      var additional: seq<Record> := [];
      for i := 0 to |raw|
        invariant additional == WithoutOpt(raw[..i])
        invariant (size, dnssecOk) == EdnsOf(raw[..i])
      {
        assert raw[..i + 1][..i] == raw[..i];
        var rec := raw[i];
        if rec.rtype == OPT {
          size := rec.cls;
          dnssecOk := rec.ttl / 0x8000 % 2 == 1;
        } else {
          additional := additional + [rec];
        }
      }
      assert raw[..|raw|] == raw;
      return Some(Packet(id, flags, questions, answers, authority, additional, size, dnssecOk));
    }
  }

  class Builder {
    var buf: bytes

    constructor ()
      ensures buf == []
    {
      buf := [];
    }

    method U8(v: byte)
      modifies this
      ensures buf == old(buf) + [v]
    {
      buf := buf + [v];
    }

    method U16(v: u16)
      modifies this
      ensures buf == old(buf) + Be16(v)
    {
      buf := buf + Be16(v);
    }

    method U32(v: u32)
      modifies this
      ensures buf == old(buf) + Be32(v)
    {
      buf := buf + Be32(v);
    }

    method Raw(v: bytes)
      modifies this
      ensures buf == old(buf) + v
    {
      buf := buf + v;
    }

    method Name(name: text)
      modifies this
      ensures buf == old(buf) + NameWire(name)
    {
      hide LabelsWire, NonEmpty, LabelWire, Split;
      if name == ROOT || name == [] {
        RootWire();
        U8(0);
        return;
      }
      NoPieces();
      var pieces := Split(TrimDots(name));
      assert pieces[..0] == [];
      for i := 0 to |pieces|
        invariant buf == old(buf) + LabelsWire(NonEmpty(pieces[..i]))
      {
        PiecesStep(pieces, i);
        if pieces[i] == [] { continue; }
        ghost var before := buf;
        U8(|pieces[i]| % 0x100);
        Raw(pieces[i]);
        LabelWireParts(before, pieces[i]);
      }
      assert pieces[..|pieces|] == pieces;
      U8(0);
    }

    method Question(q: Question)
      modifies this
      ensures buf == old(buf) + QuestionWire(q)
    {
      Name(q.name);
      U16(Code(q.qtype));
      U16(q.qclass);
    }

    method Record(r: Record)
      modifies this
      ensures buf == old(buf) + RecordWire(r)
    {
      hide NameWire, Be16, Be32, Code;
      Name(r.name);
      U16(Code(r.rtype));
      U16(r.cls);
      U32(r.ttl);
      U16(|r.rdata| % 0x1_0000);
      Raw(r.rdata);
    }

    method Opt(size: u16, dnssecOk: bool)
      modifies this
      ensures buf == old(buf) + RecordWire(OptRecord(size, dnssecOk))
    {
      hide NameWire, Be16, Be32;
      RootWire();
      U8(0);
      U16(41);
      U16(size);
      U32(if dnssecOk then 0x8000 else 0);
      U16(0);
      Raw([]);
    }

    method Questions(qs: seq<Question>)
      modifies this
      ensures buf == old(buf) + QuestionsWire(qs)
    {
      hide QuestionWire;
      for i := 0 to |qs|
        invariant buf == old(buf) + QuestionsWire(qs[..i])
      {
        assert qs[..i + 1][..i] == qs[..i];
        Question(qs[i]);
      }
      assert qs[..|qs|] == qs;
    }

    method Records(rs: seq<Record>)
      modifies this
      ensures buf == old(buf) + RecordsWire(rs)
    {
      hide RecordWire;
      for i := 0 to |rs|
        invariant buf == old(buf) + RecordsWire(rs[..i])
      {
        assert rs[..i + 1][..i] == rs[..i];
        Record(rs[i]);
      }
      assert rs[..|rs|] == rs;
    }
  }

  lemma NonEmptyOne(l: text)
    ensures NonEmpty([l]) == if l == [] then [] else [l]
  {
    assert NonEmpty([l][1..]) == [];
  }

  lemma NoPieces()
    ensures LabelsWire(NonEmpty([])) == []
  {}

  lemma LabelWireParts(before: bytes, l: text)
    ensures before + [|l| % 0x100] + l == before + LabelWire(l)
  {}

  /** One more piece of a dotted name, written unless it is empty. */
  lemma PiecesStep(pieces: seq<text>, i: nat)
    requires i < |pieces|
    ensures LabelsWire(NonEmpty(pieces[..i + 1]))
            == LabelsWire(NonEmpty(pieces[..i])) + if pieces[i] == [] then [] else LabelWire(pieces[i])
  {
    hide LabelWire;
    assert pieces[..i + 1] == pieces[..i] + [pieces[i]];
    NonEmptyConcat(pieces[..i], [pieces[i]]);
    NonEmptyOne(pieces[i]);
    if pieces[i] == [] {
      assert NonEmpty(pieces[..i]) + [] == NonEmpty(pieces[..i]);
    } else {
      LabelsWireSnoc(NonEmpty(pieces[..i]), pieces[i]);
    }
  }

  /** The OPT record is one more record at the end of the additional section. */
  lemma ExtraWire(p: Packet, includeEdns: bool)
    ensures var on := includeEdns && p.ednsUdpSize > 0;
            |Extra(p, includeEdns)| == |p.additional| + (if on then 1 else 0) &&
            RecordsWire(Extra(p, includeEdns)) == RecordsWire(p.additional)
              + (if on then RecordWire(OptRecord(p.ednsUdpSize, p.dnssecOk)) else [])
  {
    hide RecordWire;
    var extra := Extra(p, includeEdns);
    if includeEdns && p.ednsUdpSize > 0 {
      assert extra[..|p.additional|] == p.additional;
    } else {
      assert extra == p.additional;
    }
  }

  lemma RootWire()
    ensures NameWire(ROOT) == [0] && NameWire([]) == [0]
  {
    RootLabels();
    assert LabelsWire([]) + [0] == [0];
  }

  lemma {:induction false} LabelsWireSnoc(ls: seq<text>, l: text)
    ensures LabelsWire(ls + [l]) == LabelsWire(ls) + LabelWire(l)
  {
    if ls == [] {
      assert ls + [l] == [l];
      assert LabelsWire([l]) == LabelWire(l) + LabelsWire([]);
    } else {
      LabelsWireSnoc(ls[1..], l);
      assert (ls + [l])[1..] == ls[1..] + [l];
    }
  }

  method SerializePacket(p: Packet, includeEdns: bool) returns (wire: bytes)
    ensures wire == Serialize(p, includeEdns)
  {
    hide QuestionsWire, RecordsWire, RecordWire, Be16, Extra;
    var b := new Builder();
    var extra := if includeEdns && p.ednsUdpSize > 0 then 1 else 0;
    ExtraWire(p, includeEdns);
    b.U16(p.id);
    b.U16(p.flags);
    b.U16(|p.questions| % 0x1_0000);
    b.U16(|p.answers| % 0x1_0000);
    b.U16(|p.authority| % 0x1_0000);
    b.U16((|p.additional| + extra) % 0x1_0000);
    assert b.buf == HeaderWire(p, includeEdns);
    hide HeaderWire;
    b.Questions(p.questions);
    b.Records(p.answers);
    b.Records(p.authority);
    b.Records(p.additional);
    if includeEdns && p.ednsUdpSize > 0 {
      b.Opt(p.ednsUdpSize, p.dnssecOk);
    }
    wire := b.buf;
  }

  method EncodeCanonicalName(name: text) returns (out: bytes)
    ensures out == CanonicalName(name)
  {
    out := [];
    var trimmed := TrimDots(Lower(name));
    if trimmed == [] {
      return [0];
    }
    var pieces := Split(trimmed);
    for i := 0 to |pieces|
      invariant out == LabelsWire(pieces[..i])
    {
      assert pieces[..i + 1] == pieces[..i] + [pieces[i]];
      LabelsWireSnoc(pieces[..i], pieces[i]);
      out := out + [|pieces[i]| % 0x100];
      out := out + pieces[i];
    }
    assert pieces[..|pieces|] == pieces;
    out := out + [0];
  }

  method DecompressRdata(packet: bytes, rtype: RType, rdata: bytes, offset: nat) returns (out: bytes)
    ensures out == Decompress(packet, rtype, rdata, offset)
  {
    hide ReadName, NameWire, CanonicalName, Be32, ReadU32, ReadU32s, U32sWire;
    var p := new Parser(packet);
    var b := new Builder();
    match rtype
    case NS | CNAME | PTR =>
      p.pos := offset;
      var name := p.Name();
      if name.None? { return rdata; }
      out := EncodeCanonicalName(name.value);
    case MX =>
      if |rdata| < 2 { return rdata; }
      p.pos := offset + 2;
      var name := p.Name();
      if name.None? { return rdata; }
      b.U16(FromBe16(rdata[0], rdata[1]));
      b.Name(name.value);
      assert Be16(FromBe16(rdata[0], rdata[1])) == rdata[..2];
      out := b.buf;
    case SRV =>
      if |rdata| < 6 { return rdata; }
      p.pos := offset + 6;
      var name := p.Name();
      if name.None? { return rdata; }
      b.U16(FromBe16(rdata[0], rdata[1]));
      b.U16(FromBe16(rdata[2], rdata[3]));
      b.U16(FromBe16(rdata[4], rdata[5]));
      assert b.buf == rdata[..6];
      b.Name(name.value);
      out := b.buf;
    case SOA =>
      out := DecompressSoa(packet, rdata, offset);
    case _ =>
      out := rdata;
  }

  method DecompressSoa(packet: bytes, rdata: bytes, offset: nat) returns (out: bytes)
    ensures out == Decompress(packet, SOA, rdata, offset)
  {
    hide ReadName, NameWire, Be32, ReadU32, ReadU32s, U32sWire;
    var p := new Parser(packet);
    var b := new Builder();
    p.pos := offset;
    var mname := p.Name();
    if mname.None? { return rdata; }
    var rname := p.Name();
    if rname.None? { return rdata; }
    NumbersUnrolled(packet, p.pos);
    var serial := p.U32();
    if serial.None? { return rdata; }
    var refresh := p.U32();
    if refresh.None? { return rdata; }
    var retry := p.U32();
    if retry.None? { return rdata; }
    var expire := p.U32();
    if expire.None? { return rdata; }
    var minimum := p.U32();
    if minimum.None? { return rdata; }
    b.Name(mname.value);
    b.Name(rname.value);
    b.U32(serial.value);
    b.U32(refresh.value);
    b.U32(retry.value);
    b.U32(expire.value);
    b.U32(minimum.value);
    NumbersWireUnrolled(serial.value, refresh.value, retry.value, expire.value, minimum.value);
    Assemble(NameWire(mname.value), NameWire(rname.value), Be32(serial.value), Be32(refresh.value),
             Be32(retry.value), Be32(expire.value), Be32(minimum.value));
    out := b.buf;
  }

  lemma Assemble(m: bytes, r: bytes, a: bytes, b: bytes, c: bytes, d: bytes, e: bytes)
    ensures [] + m + r + a + b + c + d + e == m + (r + (a + b + c + d + e))
  {}

  /** The five numbers of an SOA read one by one. */
  function FiveNumbers(buf: bytes, pos: nat): Read<seq<u32>> {
    var (serial, p) :- ReadU32(buf, pos);
    var (refresh, q) :- ReadU32(buf, p);
    var (retry, r) :- ReadU32(buf, q);
    var (expire, s) :- ReadU32(buf, r);
    var (minimum, next) :- ReadU32(buf, s);
    Got([serial, refresh, retry, expire, minimum], next)
  }

  /** One step of `ReadU32s` after the numbers already read. */
  lemma NumbersStep(buf: bytes, done: seq<u32>, pos: nat, n: nat)
    ensures After(done, ReadU32s(buf, pos, n + 1))
            == var v := ReadU32(buf, pos);
               if v.Fail? then Fail else After(done + [v.value], ReadU32s(buf, v.next, n))
  {
    var v := ReadU32(buf, pos);
    if v.Got? {
      AfterOne(done, v.value, ReadU32s(buf, v.next, n));
    }
  }

  lemma NumbersUnrolled(buf: bytes, pos: nat)
    ensures ReadU32s(buf, pos, |SOA_NUMBERS|) == FiveNumbers(buf, pos)
  {
    hide ReadU32, ReadU32s, After;
    var a := ReadU32(buf, pos);
    AfterNothing(ReadU32s(buf, pos, 5));
    assert |SOA_NUMBERS| == 5;
    NumbersStep(buf, [], pos, 4);
    if a.Fail? { return; }
    assert [] + [a.value] == [a.value];
    var b := ReadU32(buf, a.next);
    NumbersStep(buf, [a.value], a.next, 3);
    if b.Fail? { return; }
    assert [a.value] + [b.value] == [a.value, b.value];
    var c := ReadU32(buf, b.next);
    NumbersStep(buf, [a.value, b.value], b.next, 2);
    if c.Fail? { return; }
    assert [a.value, b.value] + [c.value] == [a.value, b.value, c.value];
    var d := ReadU32(buf, c.next);
    NumbersStep(buf, [a.value, b.value, c.value], c.next, 1);
    if d.Fail? { return; }
    assert [a.value, b.value, c.value] + [d.value] == [a.value, b.value, c.value, d.value];
    var e := ReadU32(buf, d.next);
    NumbersStep(buf, [a.value, b.value, c.value, d.value], d.next, 0);
    if e.Got? {
      assert [a.value, b.value, c.value, d.value] + [e.value] == [a.value, b.value, c.value, d.value, e.value];
      AfterAll([a.value, b.value, c.value, d.value, e.value], buf, e.next);
    }
  }

  lemma AfterAll(done: seq<u32>, buf: bytes, pos: nat)
    ensures After(done, ReadU32s(buf, pos, 0)) == Got(done, pos)
  {
    assert done + [] == done;
  }

  lemma NumbersWireUnrolled(a: u32, b: u32, c: u32, d: u32, e: u32)
    ensures U32sWire([a, b, c, d, e]) == Be32(a) + Be32(b) + Be32(c) + Be32(d) + Be32(e)
  {
    hide Be32;
    assert [a, b, c, d, e][1..] == [b, c, d, e] && [b, c, d, e][1..] == [c, d, e];
    assert [c, d, e][1..] == [d, e] && [d, e][1..] == [e] && [e][1..] == [];
    assert U32sWire([e]) == Be32(e);
    assert U32sWire([d, e]) == Be32(d) + Be32(e);
    assert U32sWire([c, d, e]) == Be32(c) + Be32(d) + Be32(e);
    assert U32sWire([b, c, d, e]) == Be32(b) + Be32(c) + Be32(d) + Be32(e);
  }
}
