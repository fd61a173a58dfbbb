/**
 Transaction signatures (src/tsig.rs, RFC 8945): signing appends a TSIG record and bumps
 ARCOUNT in place; verifying walks to the last record and rebuilds the signed octets.
 HMAC-SHA256 is any function from key and octets to 32 octets.
 */
module Tsig {
  import opened Bytes
  import opened Names
  import opened Wire
  import opened Codec

  type Mac = m: bytes | |m| == 32 witness seq(32, _ => 0)
  type Hmac = (bytes, bytes) -> Mac

  datatype TsigKey = TsigKey(name: text, algorithm: text, secret: bytes)

  datatype TsigData = TsigData(algorithm: text, timeSigned: nat, fudge: u16, mac: bytes,
                               origId: u16, error: u16, other: bytes)

  /** The TSIG record of a message, where it starts, and the message's ARCOUNT. */
  datatype Extracted = Extracted(name: text, tsig: TsigData, offset: nat, arcount: u16)

  datatype TsigError =
    | TooShort | NoAdditional | Malformed | NotTsig | UnknownKey | UnsupportedAlgorithm | OutsideWindow | BadMac

  datatype Result<+T> = Ok(value: T) | Err(error: TsigError)

  const FUDGE: u16 := 300
  const HMAC_SHA256: text := [104, 109, 97, 99, 45, 115, 104, 97, 50, 53, 54]

  /** Key names compare lower-cased and with a trailing dot. */
  function KeyId(name: text): text {
    var n := Lower(name);
    if n != [] && n[|n| - 1] == DOT then n else n + [DOT]
  }

  class TsigKeyring {
    var keys: map<text, TsigKey>

    constructor ()
      ensures keys == map[]
    {
      keys := map[];
    }

    method Insert(key: TsigKey)
      modifies this
      ensures keys == old(keys)[KeyId(key.name) := key]
    {
      keys := keys[KeyId(key.name) := key];
    }

    function Get(name: text): Option<TsigKey>
      reads this
    {
      Lookup(keys, name)
    }
  }

  function Lookup(keys: map<text, TsigKey>, name: text): Option<TsigKey> {
    if KeyId(name) in keys then Some(keys[KeyId(name)]) else None
  }

  predicate SupportedAlgorithm(algorithm: text) {
    HMAC_SHA256 <= KeyId(algorithm)
  }

  /** Seconds as 48 bits. */
  function TimeWire(time: nat): bytes {
    Be16(time / 0x1_0000_0000 % 0x1_0000) + Be32(time % 0x1_0000_0000)
  }

  /** The variables hashed after the message (section 4.3.3 of RFC 8945). */
  function Variables(name: text, algorithm: text, time: nat, fudge: u16, error: u16, other: bytes): bytes {
    NameWire(name) + Be16(255) + Be32(0) + NameWire(algorithm) + TimeWire(time) + Be16(fudge)
    + Be16(error) + Be16(|other| % 0x1_0000) + other
  }

  function TsigRdata(algorithm: text, time: nat, fudge: u16, mac: bytes, origId: u16): bytes {
    NameWire(algorithm) + TimeWire(time) + Be16(fudge) + Be16(|mac| % 0x1_0000) + mac
    + Be16(origId) + Be16(0) + Be16(0)
  }

  function TsigRecord(name: text, algorithm: text, time: nat, fudge: u16, mac: bytes, origId: u16): bytes {
    var rdata := TsigRdata(algorithm, time, fudge, mac, origId);
    NameWire(name) + Be16(250) + Be16(255) + Be32(0) + Be16(|rdata| % 0x1_0000) + rdata
  }

  /** `buf` with a 16-bit value written over two octets. */
  function Patch(buf: bytes, at: nat, v: u16): (r: bytes)
    requires at + 2 <= |buf|
    ensures |r| == |buf|
  {
    buf[at := v / 0x100][at + 1 := v % 0x100]
  }

  function Sign(hmac: Hmac, message: bytes, key: TsigKey, now: nat): bytes
    requires |message| >= 2
  {
    var mac := hmac(key.secret, message + Variables(key.name, key.algorithm, now, FUDGE, 0, []));
    var id := FromBe16(message[0], message[1]);
    var out := message + TsigRecord(key.name, key.algorithm, now, FUDGE, mac, id);
    TsigRecordLong(key.name, key.algorithm, now, FUDGE, mac, id);
    Patch(out, 10, (FromBe16(out[10], out[11]) + 1) % 0x1_0000)
  }

  lemma TsigRecordLong(name: text, algorithm: text, time: nat, fudge: u16, mac: bytes, origId: u16)
    ensures |TsigRecord(name, algorithm, time, fudge, mac, origId)| >= 12
  {}

  // Finding the TSIG record

  /** Position after `n` questions; the four octets after a name are not looked at. */
  function SkipQuestions(buf: bytes, pos: nat, n: nat): Option<nat>
    decreases n
  {
    if n == 0 then Some(pos)
    else
      var name := ReadName(buf, pos);
      if name.Fail? then None else SkipQuestions(buf, name.next + 4, n - 1)
  }

  /** Position after one record; its data is stepped over unread. */
  function SkipRecord(buf: bytes, pos: nat): Option<nat> {
    var name := ReadName(buf, pos);
    if name.Fail? then None
    else
      var len := ReadU16(buf, name.next + 8);
      if len.Fail? then None else Some(len.next + len.value)
  }

  function SkipRecords(buf: bytes, pos: nat, n: nat): Option<nat>
    decreases n
  {
    if n == 0 then Some(pos)
    else
      var next := SkipRecord(buf, pos);
      if next.None? then None else SkipRecords(buf, next.value, n - 1)
  }

  function ReadTime(buf: bytes, pos: nat): Read<nat> {
    var (hi, p) :- ReadU16(buf, pos);
    var (lo, q) :- ReadU32(buf, p);
    Got(hi * 0x1_0000_0000 + lo, q)
  }

  function ReadTsigData(buf: bytes, pos: nat): Read<TsigData> {
    var (algorithm, p) :- ReadName(buf, pos);
    var (time, q) :- ReadTime(buf, p);
    var (fudge, r) :- ReadU16(buf, q);
    var (macLen, s) :- ReadU16(buf, r);
    var (mac, t) :- ReadBytes(buf, s, macLen);
    var (origId, u) :- ReadU16(buf, t);
    var (error, v) :- ReadU16(buf, u);
    var (otherLen, w) :- ReadU16(buf, v);
    var (other, next) :- ReadBytes(buf, w, otherLen);
    Got(TsigData(algorithm, time, fudge, mac, origId, error, other), next)
  }

  /** The owner name and data of the TSIG record at `pos`. */
  function ReadTsig(buf: bytes, pos: nat): Result<(text, TsigData)> {
    var name := ReadName(buf, pos);
    if name.Fail? then Err(Malformed)
    else
      var rtype := ReadU16(buf, name.next);
      if rtype.Fail? then Err(Malformed)
      else if rtype.value != 250 then Err(NotTsig)
      else
        var rdlen := ReadU16(buf, name.next + 8);
        if rdlen.Fail? then Err(Malformed)
        else
          var data := ReadTsigData(buf, name.next + 10);
          if data.Fail? then Err(Malformed) else Ok((name.value, data.value))
  }

  function Count(message: bytes, i: nat): u16
    requires i + 2 <= |message|
  {
    FromBe16(message[i], message[i + 1])
  }

  function Extract(message: bytes): Result<Extracted> {
    if |message| < 12 then Err(TooShort)
    else if Count(message, 10) == 0 then Err(NoAdditional)
    else
      var start := SkipQuestions(message, 12, Count(message, 4));
      if start.None? then Err(Malformed)
      else
        var offset := SkipRecords(message, start.value, Count(message, 6) + Count(message, 8) + Count(message, 10) - 1);
        if offset.None? then Err(Malformed)
        else
          match ReadTsig(message, offset.value)
          case Err(e) => Err(e)
          case Ok((name, tsig)) => Ok(Extracted(name, tsig, offset.value, Count(message, 10)))
  }

  /** The octets the signer hashed: the message before the TSIG record with its ID and ARCOUNT put back. */
  function Preimage(message: bytes, x: Extracted): bytes
    requires 12 <= x.offset <= |message|
  {
    Patch(Patch(message[..x.offset], 0, x.tsig.origId), 10, if x.arcount == 0 then 0 else x.arcount - 1)
    + Variables(x.name, x.tsig.algorithm, x.tsig.timeSigned, x.tsig.fudge, x.tsig.error, x.tsig.other)
  }

  predicate WithinFudge(signed: nat, now: nat, fudge: u16) {
    signed - now <= fudge && now - signed <= fudge
  }

  function Verify(hmac: Hmac, message: bytes, keys: map<text, TsigKey>, now: nat): Result<()> {
    match Extract(message)
    case Err(e) => Err(e)
    case Ok(x) =>
      var key := Lookup(keys, x.name);
      if key.None? then Err(UnknownKey)
      else if !SupportedAlgorithm(x.tsig.algorithm) then Err(UnsupportedAlgorithm)
      else if !WithinFudge(x.tsig.timeSigned, now, x.tsig.fudge) then Err(OutsideWindow)
      else
        ExtractBounds(message);
        if hmac(key.value.secret, Preimage(message, x)) == x.tsig.mac then Ok(()) else Err(BadMac)
  }

  lemma {:induction false} SkipQuestionsBound(buf: bytes, pos: nat, n: nat)
    requires SkipQuestions(buf, pos, n).Some?
    ensures SkipQuestions(buf, pos, n).value >= pos
    decreases n
  {
    hide ReadName;
    if n > 0 {
      ReadAdvances(buf, pos);
      var name := ReadName(buf, pos);
      SkipQuestionsBound(buf, name.next + 4, n - 1);
    }
  }

  lemma ReadAdvances(buf: bytes, pos: nat)
    requires ReadName(buf, pos).Got?
    ensures ReadName(buf, pos).next > pos
  {
    var hops := ReadDenotes(buf, pos, 0);
    EndsAfter(buf, pos, ReadName(buf, pos).next);
  }

  lemma {:induction false} EndsAfter(buf: bytes, pos: nat, end: nat)
    requires EndsAt(buf, pos, end)
    ensures end > pos
    decreases |buf| - pos
  {
    if buf[pos] != 0 && !IsPointer(buf[pos]) {
      EndsAfter(buf, pos + 1 + buf[pos], end);
    }
  }

  lemma {:induction false} SkipRecordsBound(buf: bytes, pos: nat, n: nat)
    requires SkipRecords(buf, pos, n).Some?
    ensures SkipRecords(buf, pos, n).value >= pos
    decreases n
  {
    hide ReadName;
    if n > 0 {
      ReadAdvances(buf, pos);
      var name := ReadName(buf, pos);
      SkipRecordsBound(buf, SkipRecord(buf, pos).value, n - 1);
    }
  }

  /** A TSIG record that was found starts after the header and inside the message. */
  lemma ExtractBounds(message: bytes)
    requires Extract(message).Ok?
    ensures 12 <= Extract(message).value.offset <= |message|
  {
    hide SkipQuestions, SkipRecords, ReadTsigData, ReadLabels;
    var start := SkipQuestions(message, 12, Count(message, 4)).value;
    SkipQuestionsBound(message, 12, Count(message, 4));
    SkipRecordsBound(message, start, Count(message, 6) + Count(message, 8) + Count(message, 10) - 1);
    ReadInside(message, Extract(message).value.offset);
  }

  lemma ReadInside(buf: bytes, pos: nat)
    requires ReadName(buf, pos).Got?
    ensures pos < |buf|
  {}

  // The methods of the source

  method SignMessage(hmac: Hmac, message: bytes, key: TsigKey, now: nat) returns (out: bytes)
    requires |message| >= 2
    ensures out == Sign(hmac, message, key, now)
  {
    hide Variables, TsigRecord;
    var variables := ExtendTsigVariables(key.name, key.algorithm, now, FUDGE, 0, []);
    var mac := hmac(key.secret, message + variables);
    var id := FromBe16(message[0], message[1]);
    var rr := BuildTsigRecord(key.name, key.algorithm, now, FUDGE, mac, id);
    TsigRecordLong(key.name, key.algorithm, now, FUDGE, mac, id);
    out := message + rr;
    var arcount := (FromBe16(out[10], out[11]) + 1) % 0x1_0000;
    out := out[10 := arcount / 0x100][11 := arcount % 0x100];
  }

  method ExtendTsigVariables(name: text, algorithm: text, time: nat, fudge: u16, error: u16, other: bytes)
    returns (out: bytes)
    ensures out == Variables(name, algorithm, time, fudge, error, other)
  {
    hide NameWire, Be16, Be32;
    var b := new Builder();
    b.Name(name);
    b.U16(255);
    b.U32(0);
    b.Name(algorithm);
    ghost var before := b.buf;
    b.U16(time / 0x1_0000_0000 % 0x1_0000);
    b.U32(time % 0x1_0000_0000);
    assert b.buf == before + TimeWire(time);
    hide TimeWire;
    b.U16(fudge);
    b.U16(error);
    b.U16(|other| % 0x1_0000);
    b.Raw(other);
    out := b.buf;
  }

  method BuildTsigRecord(name: text, algorithm: text, time: nat, fudge: u16, mac: bytes, origId: u16)
    returns (out: bytes)
    ensures out == TsigRecord(name, algorithm, time, fudge, mac, origId)
  {
    hide NameWire, Be16, Be32;
    var b := new Builder();
    b.Name(name);
    b.U16(250);
    b.U16(255);
    b.U32(0);
    var rd := new Builder();
    rd.Name(algorithm);
    ghost var before := rd.buf;
    rd.U16(time / 0x1_0000_0000 % 0x1_0000);
    rd.U32(time % 0x1_0000_0000);
    assert rd.buf == before + TimeWire(time);
    hide TimeWire;
    rd.U16(fudge);
    rd.U16(|mac| % 0x1_0000);
    rd.Raw(mac);
    rd.U16(origId);
    rd.U16(0);
    rd.U16(0);
    assert rd.buf == TsigRdata(algorithm, time, fudge, mac, origId);
    hide TsigRdata;
    b.U16(|rd.buf| % 0x1_0000);
    b.Raw(rd.buf);
    out := b.buf;
  }

  method SkipRr(p: Parser) returns (ok: bool)
    modifies p
    ensures ok == SkipRecord(p.buf, old(p.pos)).Some?
    ensures ok ==> p.pos == SkipRecord(p.buf, old(p.pos)).value
  {
    hide ReadName;
    var name := p.Name();
    if name.None? { return false; }
    var rtype := p.U16();
    if rtype.None? { return false; }
    var cls := p.U16();
    if cls.None? { return false; }
    var ttl := p.U32();
    if ttl.None? { return false; }
    var len := p.U16();
    if len.None? { return false; }
    p.pos := p.pos + len.value;
    return true;
  }

  method ParseTsigData(p: Parser) returns (r: Option<TsigData>)
    modifies p
    ensures Outcome(r, ReadTsigData(p.buf, old(p.pos)), p.pos)
  {
    hide ReadName, ReadU16, ReadU32;
    var algorithm :- p.Name();
    var hi: int :- p.U16();
    var lo: int :- p.U32();
    var fudge :- p.U16();
    var macLen :- p.U16();
    var mac :- p.Bytes(macLen);
    var origId :- p.U16();
    var error :- p.U16();
    var otherLen :- p.U16();
    var other :- p.Bytes(otherLen);
    return Some(TsigData(algorithm, hi * 0x1_0000_0000 + lo, fudge, mac, origId, error, other));
  }

  method ExtractTsig(message: bytes) returns (r: Result<Extracted>)
    ensures r == Extract(message)
  {
    hide ReadName, SkipRecord, ReadTsigData;
    if |message| < 12 { return Err(TooShort); }
    var arcount := FromBe16(message[10], message[11]);
    if arcount == 0 { return Err(NoAdditional); }
    var qd := FromBe16(message[4], message[5]);
    var an := FromBe16(message[6], message[7]);
    var ns := FromBe16(message[8], message[9]);
    var p := new Parser(message);
    p.pos := 12;
    for i := 0 to qd
      invariant p.buf == message
      invariant SkipQuestions(message, 12, qd) == SkipQuestions(message, p.pos, qd - i)
    {
      var name := p.Name();
      if name.None? { return Err(Malformed); }
      p.pos := p.pos + 4;
    }
    ghost var start := p.pos;
    var total := an as int + ns + arcount - 1;
    for i := 0 to total
      invariant p.buf == message
      invariant SkipRecords(message, start, total) == SkipRecords(message, p.pos, total - i)
    {
      var ok := SkipRr(p);
      if !ok { return Err(Malformed); }
    }
    var offset := p.pos;
    var name := p.Name();
    if name.None? { return Err(Malformed); }
    var rtype := p.U16();
    if rtype.None? { return Err(Malformed); }
    if rtype.value != 250 { return Err(NotTsig); }
    var cls := p.U16();
    if cls.None? { return Err(Malformed); }
    var ttl := p.U32();
    if ttl.None? { return Err(Malformed); }
    var rdlen := p.U16();
    if rdlen.None? { return Err(Malformed); }
    var tsig := ParseTsigData(p);
    if tsig.None? { return Err(Malformed); }
    return Ok(Extracted(name.value, tsig.value, offset, arcount));
  }

  method VerifyMessage(hmac: Hmac, message: bytes, keyring: TsigKeyring, now: nat) returns (r: Result<()>)
    ensures r == Verify(hmac, message, keyring.keys, now)
  {
    hide Extract, Variables, SupportedAlgorithm, KeyId;
    var extracted := ExtractTsig(message);
    if extracted.Err? { return Err(extracted.error); }
    var x := extracted.value;
    var key := keyring.Get(x.name);
    if key.None? { return Err(UnknownKey); }
    if !SupportedAlgorithm(x.tsig.algorithm) { return Err(UnsupportedAlgorithm); }
    if (if x.tsig.timeSigned >= now then x.tsig.timeSigned - now else now - x.tsig.timeSigned) > x.tsig.fudge {
      return Err(OutsideWindow);
    }
    ExtractBounds(message);
    var preimage := message[..x.offset];
    preimage := preimage[0 := x.tsig.origId / 0x100][1 := x.tsig.origId % 0x100];
    var left: u16 := if x.arcount == 0 then 0 else x.arcount - 1;
    preimage := preimage[10 := left / 0x100][11 := left % 0x100];
    var variables := ExtendTsigVariables(x.name, x.tsig.algorithm, x.tsig.timeSigned, x.tsig.fudge, x.tsig.error,
        x.tsig.other);
    if hmac(key.value.secret, preimage + variables) == x.tsig.mac { return Ok(()); }
    return Err(BadMac);
  }
}
