/**
 A signed message verifies: exactly when ARCOUNT had room, the algorithm is supported
 and the clocks are within the fudge.
 */
module TsigRoundTrip {
  import opened Bytes
  import opened Names
  import opened Wire
  import opened RoundTrip
  import opened PacketRoundTrip
  import opened Codec
  import opened Tsig

  /** The text the parser makes of a written name. */
  function ReadAs(name: text): text {
    NameText(Labels(name))
  }

  /** A name the walk can step over; it need not be restored. */
  predicate Steppable(name: text) {
    ShorterThan(Labels(name), 0xC0)
  }

  predicate SteppableRecord(r: Record) {
    Steppable(r.name) && |r.rdata| < 0x1_0000
  }

  predicate SteppableRecords(rs: seq<Record>) {
    forall i :: 0 <= i < |rs| ==> SteppableRecord(rs[i])
  }

  /** A packet whose serialization the walk crosses: no label of 192 octets or more, no oversized data or section. */
  predicate SteppablePacket(p: Packet, includeEdns: bool) {
    && CountsFit(p, includeEdns)
    && (forall i :: 0 <= i < |p.questions| ==> Steppable(p.questions[i].name))
    && SteppableRecords(p.answers + p.authority + Extra(p, includeEdns))
  }

  lemma ReadSteppable(buf: bytes, pos: nat, name: text)
    requires Steppable(name) && At(buf, pos, NameWire(name))
    ensures ReadName(buf, pos) == Got(ReadAs(name), pos + |NameWire(name)|)
  {
    ReadLabelsBack(buf, pos, Labels(name), 0);
  }

  /** A name with proper labels is written the same again after it was read. */
  lemma ReadAsSameWire(name: text)
    requires ProperLabels(Labels(name))
    ensures NameWire(ReadAs(name)) == NameWire(name)
  {
    var ls := Labels(name);
    DecodeProper(ls);
    if ls == [] {
      RootWire();
      assert NameWire(name) == LabelsWire([]) + [0];
    } else {
      SplitJoin(ls);
      LabelsUntrimmed(Join(ls));
      NonEmptyNoOp(ls);
    }
  }

  // Walking

  lemma {:induction false} StepQuestions(buf: bytes, pos: nat, qs: seq<Question>)
    requires forall i :: 0 <= i < |qs| ==> Steppable(qs[i].name)
    requires At(buf, pos, QuestionsWire(qs))
    ensures SkipQuestions(buf, pos, |qs|) == Some(pos + |QuestionsWire(qs)|)
    decreases |qs|
  {
    hide At, ReadName, NameWire, Steppable, Be16;
    if qs != [] {
      var q, more := qs[0], qs[1..];
      assert qs == [q] + more;
      QuestionsWireCons(q, more);
      AtSplit(buf, pos, QuestionWire(q), QuestionsWire(more));
      AtSplit(buf, pos, NameWire(q.name) + Be16(Code(q.qtype)), Be16(q.qclass));
      AtSplit(buf, pos, NameWire(q.name), Be16(Code(q.qtype)));
      ReadSteppable(buf, pos, q.name);
      StepQuestions(buf, pos + |QuestionWire(q)|, more);
    }
  }

  lemma StepRecord(buf: bytes, pos: nat, r: Record)
    requires SteppableRecord(r) && At(buf, pos, RecordWire(r))
    ensures SkipRecord(buf, pos) == Some(pos + |RecordWire(r)|)
  {
    hide At, ReadName, ReadU16, NameWire, Steppable, Be16, Be32;
    var a, b, c, d, e := NameWire(r.name), Be16(Code(r.rtype)), Be16(r.cls), Be32(r.ttl), Be16(|r.rdata|);
    AtSplit(buf, pos, a + b + c + d + e, r.rdata);
    AtSplit(buf, pos, a + b + c + d, e);
    AtSplit(buf, pos, a + b + c, d);
    AtSplit(buf, pos, a + b, c);
    AtSplit(buf, pos, a, b);
    ReadSteppable(buf, pos, r.name);
    ReadU16Back(buf, pos + |a| + 8, |r.rdata|);
  }

  lemma {:induction false} StepRecords(buf: bytes, pos: nat, rs: seq<Record>)
    requires SteppableRecords(rs) && At(buf, pos, RecordsWire(rs))
    ensures SkipRecords(buf, pos, |rs|) == Some(pos + |RecordsWire(rs)|)
    decreases |rs|
  {
    hide At, SkipRecord, RecordWire, SteppableRecord;
    if rs != [] {
      var r, more := rs[0], rs[1..];
      assert rs == [r] + more;
      RecordsWireCons(r, more);
      AtSplit(buf, pos, RecordWire(r), RecordsWire(more));
      StepRecord(buf, pos, r);
      StepRecords(buf, pos + |RecordWire(r)|, more);
    }
  }

  lemma {:induction false} RecordsWireConcat(a: seq<Record>, b: seq<Record>)
    ensures RecordsWire(a + b) == RecordsWire(a) + RecordsWire(b)
  {
    hide RecordWire;
    if b == [] {
      assert a + b == a;
    } else {
      var k := |b| - 1;
      assert (a + b)[..|a| + k] == a + b[..k];
      RecordsWireConcat(a, b[..k]);
    }
  }

  // The signed message

  /** Patching octets 10 and 11 leaves everything after the header where it was. */
  lemma AtPatched(buf: bytes, v: u16, pos: nat, chunk: bytes)
    requires 12 <= pos && |buf| >= 12 && At(buf, pos, chunk)
    ensures At(Patch(buf, 10, v), pos, chunk)
  {
    assert Patch(buf, 10, v)[pos..pos + |chunk|] == buf[pos..pos + |chunk|];
  }

  lemma AtPrefix(m: bytes, rest: bytes, pos: nat, chunk: bytes)
    requires At(m, pos, chunk)
    ensures At(m + rest, pos, chunk)
  {
    assert (m + rest)[pos..pos + |chunk|] == m[pos..pos + |chunk|];
  }

  lemma TimeReadsBack(buf: bytes, pos: nat, time: nat)
    requires time < 0x1_0000_0000_0000 && At(buf, pos, TimeWire(time))
    ensures ReadTime(buf, pos) == Got(time, pos + 6)
  {
    hide At, ReadU16, ReadU32, Be16, Be32;
    var hi, lo := time / 0x1_0000_0000, time % 0x1_0000_0000;
    AtSplit(buf, pos, Be16(hi), Be32(lo));
    ReadU16Back(buf, pos, hi);
    ReadU32Back(buf, pos + 2, lo);
  }

  lemma TsigDataReadsBack(buf: bytes, pos: nat, algorithm: text, time: nat, mac: Mac, id: u16)
    requires Steppable(algorithm) && time < 0x1_0000_0000_0000
    requires At(buf, pos, TsigRdata(algorithm, time, FUDGE, mac, id))
    ensures var r := ReadTsigData(buf, pos);
            r.Got? && r.value == TsigData(ReadAs(algorithm), time, FUDGE, mac, id, 0, [])
  {
    hide At, ReadName, ReadTime, ReadU16, NameWire, TimeWire, Be16, ReadAs, Steppable;
    var a, t, f, n := NameWire(algorithm), TimeWire(time), Be16(FUDGE), Be16(|mac|);
    var i, z := Be16(id), Be16(0);
    TimeLength(time);
    AtSplit(buf, pos, a + t + f + n + mac + i + z, z);
    AtSplit(buf, pos, a + t + f + n + mac + i, z);
    AtSplit(buf, pos, a + t + f + n + mac, i);
    AtSplit(buf, pos, a + t + f + n, mac);
    AtSplit(buf, pos, a + t + f, n);
    AtSplit(buf, pos, a + t, f);
    AtSplit(buf, pos, a, t);
    ReadSteppable(buf, pos, algorithm);
    TimeReadsBack(buf, pos + |a|, time);
    var q := pos + |a| + 6;
    ReadU16Back(buf, q, FUDGE);
    ReadU16Back(buf, q + 2, |mac|);
    AtBounds(buf, q + 4, mac);
    ReadU16Back(buf, q + 36, id);
    ReadU16Back(buf, q + 38, 0);
    ReadU16Back(buf, q + 40, 0);
    AtBounds(buf, q + 40, z);
    assert buf[q + 42..q + 42] == [];
  }

  lemma TimeLength(time: nat)
    ensures |TimeWire(time)| == 6
  {}

  lemma TsigReadsBack(buf: bytes, pos: nat, key: TsigKey, time: nat, mac: Mac, id: u16)
    requires Steppable(key.name) && Steppable(key.algorithm) && time < 0x1_0000_0000_0000
    requires At(buf, pos, TsigRecord(key.name, key.algorithm, time, FUDGE, mac, id))
    ensures ReadTsig(buf, pos)
            == Ok((ReadAs(key.name), TsigData(ReadAs(key.algorithm), time, FUDGE, mac, id, 0, [])))
  {
    hide At, ReadName, ReadU16, ReadTsigData, NameWire, TsigRdata, Be16, Be32, ReadAs, Steppable;
    var rdata := TsigRdata(key.algorithm, time, FUDGE, mac, id);
    var a, b, c, d, e := NameWire(key.name), Be16(250), Be16(255), Be32(0), Be16(|rdata| % 0x1_0000);
    AtSplit(buf, pos, a + b + c + d + e, rdata);
    AtSplit(buf, pos, a + b + c + d, e);
    AtSplit(buf, pos, a + b + c, d);
    AtSplit(buf, pos, a + b, c);
    AtSplit(buf, pos, a, b);
    ReadSteppable(buf, pos, key.name);
    ReadU16Back(buf, pos + |a|, 250);
    ReadU16Back(buf, pos + |a| + 8, |rdata| % 0x1_0000);
    TsigDataReadsBack(buf, pos + |a| + 10, key.algorithm, time, mac, id);
  }

  // Signing, then verifying

  /** The signed form of a serialized packet: its octets, with ARCOUNT bumped, then the TSIG record. */
  lemma SignedParts(hmac: Hmac, m: bytes, key: TsigKey, now: nat) returns (mac: Mac)
    requires |m| >= 12
    ensures mac == hmac(key.secret, m + Variables(key.name, key.algorithm, now, FUDGE, 0, []))
    ensures var rr := TsigRecord(key.name, key.algorithm, now, FUDGE, mac, Count(m, 0));
            Sign(hmac, m, key, now) == Patch(m + rr, 10, (Count(m, 10) + 1) % 0x1_0000)
  {
    mac := hmac(key.secret, m + Variables(key.name, key.algorithm, now, FUDGE, 0, []));
  }

  lemma HeaderKept(m: bytes, rr: bytes, v: u16)
    requires |m| >= 12
    ensures var signed := Patch(m + rr, 10, v);
            (forall i :: 0 <= i <= 8 ==> Count(signed, i) == Count(m, i)) && Count(signed, 10) == v
  {}

  /** Undoing the patches of the signer gives the message back octet for octet. */
  lemma PreimageRestored(m: bytes, rr: bytes, v: u16)
    requires |m| >= 12
    ensures Patch(Patch(Patch(m + rr, 10, v)[..|m|], 0, Count(m, 0)), 10, Count(m, 10)) == m
  {
    hide Patch;
    var head := Patch(m + rr, 10, v)[..|m|];
    var mid := Patch(head, 0, Count(m, 0));
    var out := Patch(mid, 10, Count(m, 10));
    forall i | 0 <= i < |m| ensures out[i] == m[i] {
      PatchAt(m + rr, 10, v, i);
      PatchAt(head, 0, Count(m, 0), i);
      PatchAt(mid, 10, Count(m, 10), i);
      assert (m + rr)[i] == m[i];
    }
  }

  lemma PatchAt(buf: bytes, at: nat, v: u16, i: nat)
    requires at + 2 <= |buf| && i < |buf|
    ensures Patch(buf, at, v)[i] == if i == at then v / 0x100 else if i == at + 1 then v % 0x100 else buf[i]
  {}

  /** The header counts of a serialized packet. */
  lemma HeaderCounts(p: Packet, includeEdns: bool)
    requires CountsFit(p, includeEdns)
    ensures var m := Serialize(p, includeEdns);
            |m| >= 12 && Count(m, 4) == |p.questions| && Count(m, 6) == |p.answers|
            && Count(m, 8) == |p.authority| && Count(m, 10) == |Extra(p, includeEdns)|
  {
    hide At, Serialize, HeaderWire, Extra, QuestionsWire, RecordsWire;
    SectionsAt(p, includeEdns);
    HeaderReadsBack(Serialize(p, includeEdns), p, includeEdns);
  }

  /** The walk over questions and records lands exactly at the end of the message that was signed. */
  lemma WalkLandsAtEnd(p: Packet, includeEdns: bool, rr: bytes, v: u16)
    requires SteppablePacket(p, includeEdns) && |Serialize(p, includeEdns)| >= 12
    ensures var m := Serialize(p, includeEdns);
            var signed := Patch(m + rr, 10, v);
            var start := SkipQuestions(signed, 12, |p.questions|);
            start.Some? &&
            SkipRecords(signed, start.value, |p.answers| + |p.authority| + |Extra(p, includeEdns)|) == Some(|m|)
  {
    hide At, SkipQuestions, SkipRecords, QuestionsWire, RecordsWire, Serialize, Patch, Steppable, SteppableRecords;
    hide Extra;
    var m := Serialize(p, includeEdns);
    var signed := Patch(m + rr, 10, v);
    var extra := Extra(p, includeEdns);
    var q := QuestionsWire(p.questions);
    var all := p.answers + p.authority + extra;
    SectionsAt(p, includeEdns);
    SectionsJoined(p, includeEdns);
    AtPrefix(m, rr, 12, q);
    AtPatched(m + rr, v, 12, q);
    StepQuestions(signed, 12, p.questions);
    AtPrefix(m, rr, 12 + |q|, RecordsWire(all));
    AtPatched(m + rr, v, 12 + |q|, RecordsWire(all));
    StepRecords(signed, 12 + |q|, all);
  }

  /** The three record sections stand one after the other. */
  lemma SectionsJoined(p: Packet, includeEdns: bool)
    ensures var m := Serialize(p, includeEdns);
            var all := p.answers + p.authority + Extra(p, includeEdns);
            At(m, 12 + |QuestionsWire(p.questions)|, RecordsWire(all))
            && |m| == 12 + |QuestionsWire(p.questions)| + |RecordsWire(all)|
  {
    hide RecordsWire, QuestionsWire, HeaderWire, Extra;
    var m := Serialize(p, includeEdns);
    var extra := Extra(p, includeEdns);
    var h := HeaderWire(p, includeEdns) + QuestionsWire(p.questions);
    var a, n, e := RecordsWire(p.answers), RecordsWire(p.authority), RecordsWire(extra);
    RecordsWireConcat(p.answers, p.authority);
    RecordsWireConcat(p.answers + p.authority, extra);
    assert m == h + (a + n + e);
    assert m[|h|..] == a + n + e;
  }

  /** A proper name, with or without its trailing dot. */
  predicate ProperKeyName(name: text) {
    ProperName(name)
    || (name != [] && name[|name| - 1] == DOT && name[..|name| - 1] != ROOT && ProperName(name[..|name| - 1]))
  }

  /** The parser drops the trailing dot of such a name and nothing else, so the keyring finds it again. */
  lemma KeyNameReadAs(name: text)
    requires ProperKeyName(name)
    ensures ProperLabels(Labels(name)) && KeyId(ReadAs(name)) == KeyId(name)
  {
    if name == ROOT {
      RootLabels();
    } else if ProperName(name) {
      ProperReadAs(name);
    } else {
      var t := name[..|name| - 1];
      assert name == t + [DOT];
      ProperReadAs(t);
      assert Labels(name) == Labels(t);
      ProperNameLower(t);
      LastLabel(t);
      assert Lower(name) == Lower(t) + [DOT];
    }
  }

  /** The reader makes the same text of a name in any case. */
  lemma ReadAsLower(name: text)
    ensures ReadAs(Lower(name)) == ReadAs(name)
  {
    hide Labels, Lower, ValidUtf8;
    LabelsLower(name);
    var ls := Labels(name);
    forall i | 0 <= i < |ls| ensures DecodeLabel(LowerAll(ls)[i]) == DecodeLabel(ls[i]) {
      LowerTwice(ls[i]);
      if ValidUtf8(ls[i]) { LowerKeepsUtf8(ls[i]); }
      if ValidUtf8(Lower(ls[i])) { LowerOnlyFromUtf8(ls[i]); }
    }
    assert DecodeLabels(LowerAll(ls)) == DecodeLabels(ls);
  }

  lemma KeyIdLower(name: text)
    ensures KeyId(Lower(name)) == KeyId(name)
  {
    LowerTwice(name);
  }

  /** A key name in any case is stepped over, found again, and written again in lower case. */
  lemma AnyCaseReadAs(name: text)
    requires ProperKeyName(Lower(name))
    ensures Steppable(name) && KeyId(ReadAs(name)) == KeyId(name) && NameWire(ReadAs(name)) == NameWire(Lower(name))
  {
    hide Labels, Lower, KeyId, NameWire, ReadAs, ProperKeyName, ProperLabel;
    KeyNameReadAs(Lower(name));
    ReadAsLower(name);
    KeyIdLower(name);
    ReadAsSameWire(Lower(name));
    LabelsLower(name);
    forall i | 0 <= i < |Labels(name)| ensures |Labels(name)[i]| < 0xC0 {
      assert ProperLabel(LowerAll(Labels(name))[i]);
      ProperIsShort(LowerAll(Labels(name))[i]);
      LowerLength(Labels(name)[i]);
    }
  }

  lemma ProperIsShort(l: text)
    requires ProperLabel(l)
    ensures |l| < 0xC0
  {}

  lemma LowerLength(l: text)
    ensures |Lower(l)| == |l|
  {}

  lemma ProperReadAs(name: text)
    requires ProperName(name) && name != ROOT
    ensures ProperLabels(Labels(name)) && ReadAs(name) == name
  {
    LabelsOfProper(name);
    DecodeProper(Labels(name));
    JoinSplit(name);
  }

  /** The keyring's key is the one the signer used; its names may be in any case. */
  predicate UsableKey(key: TsigKey, keys: map<text, TsigKey>) {
    ProperKeyName(Lower(key.name)) && ProperKeyName(Lower(key.algorithm)) && Lookup(keys, key.name) == Some(key)
  }

  /** What the signer hashes, and what the verifier rebuilds: the same with the names in lower case. */
  function Hashed(m: bytes, key: TsigKey, time: nat): bytes {
    m + Variables(key.name, key.algorithm, time, FUDGE, 0, [])
  }

  function Rebuilt(m: bytes, key: TsigKey, time: nat): bytes {
    m + Variables(Lower(key.name), Lower(key.algorithm), time, FUDGE, 0, [])
  }

  /**
   A message made by `serialize` and signed with a key of the keyring verifies exactly when
   the algorithm is supported, ARCOUNT had room for one more record, the two clocks are
   within the fudge, and the octets rebuilt with the key's names in lower case have the
   authentication code of the octets signed.
   */
  lemma SignThenVerify(hmac: Hmac, p: Packet, includeEdns: bool, key: TsigKey, keys: map<text, TsigKey>,
                       signTime: nat, verifyTime: nat)
    requires SteppablePacket(p, includeEdns) && signTime < 0x1_0000_0000_0000 && UsableKey(key, keys)
    ensures var m := Serialize(p, includeEdns);
            |m| >= 12
            && (Verify(hmac, Sign(hmac, m, key, signTime), keys, verifyTime).Ok?
                <==> |Extra(p, includeEdns)| < 0xFFFF
                     && SupportedAlgorithm(key.algorithm)
                     && WithinFudge(signTime, verifyTime, FUDGE)
                     && hmac(key.secret, Rebuilt(m, key, signTime)) == hmac(key.secret, Hashed(m, key, signTime)))
  {
    hide Serialize, Extra, Patch, Preimage, ReadAs, SteppablePacket, TsigRecord, Variables, Extract, Sign,
         ProperKeyName, KeyId, WithinFudge, Rebuilt, Lower, Steppable, NameWire;
    CountsOf(p, includeEdns);
    AnyCaseReadAs(key.name);
    AnyCaseReadAs(key.algorithm);
    var m := Serialize(p, includeEdns);
    var mac := SignedParts(hmac, m, key, signTime);
    var v := (Count(m, 10) + 1) % 0x1_0000;
    var rr := TsigRecord(key.name, key.algorithm, signTime, FUDGE, mac, Count(m, 0));
    HeaderKept(m, rr, v);
    if |Extra(p, includeEdns)| < 0xFFFF {
      ExtractSigned(p, includeEdns, key, signTime, mac);
      PreimageRebuilt(m, key, signTime, mac, rr, v);
    } else {
      CountOfAdditional(p, includeEdns);
      NothingToExtract(Patch(m + rr, 10, v));
    }
  }

  /** With a key whose names are in lower case the rebuilt octets are the signed ones. */
  lemma LowerCaseKeyVerifies(hmac: Hmac, p: Packet, includeEdns: bool, key: TsigKey, keys: map<text, TsigKey>,
                             signTime: nat, verifyTime: nat)
    requires SteppablePacket(p, includeEdns) && signTime < 0x1_0000_0000_0000 && UsableKey(key, keys)
    requires Lower(key.name) == key.name && Lower(key.algorithm) == key.algorithm
    ensures |Serialize(p, includeEdns)| >= 12
    ensures Verify(hmac, Sign(hmac, Serialize(p, includeEdns), key, signTime), keys, verifyTime).Ok?
            <==> |Extra(p, includeEdns)| < 0xFFFF
                 && SupportedAlgorithm(key.algorithm)
                 && WithinFudge(signTime, verifyTime, FUDGE)
  {
    hide Serialize, Extra, SteppablePacket, UsableKey, SupportedAlgorithm, WithinFudge, Verify, Sign, Variables, Lower;
    SignThenVerify(hmac, p, includeEdns, key, keys, signTime, verifyTime);
  }

  /**
   With an upper-case letter in the key's name or algorithm they differ, so that verification
   rests on a collision of the authentication code.
   */
  lemma CaseChangesPreimage(m: bytes, key: TsigKey, time: nat)
    ensures Rebuilt(m, key, time) == Hashed(m, key, time)
            <==> Lower(key.name) == key.name && Lower(key.algorithm) == key.algorithm
  {
    hide NameWire, Lower, TimeWire, Be16, Be32;
    var lower := Variables(Lower(key.name), Lower(key.algorithm), time, FUDGE, 0, []);
    var given := Variables(key.name, key.algorithm, time, FUDGE, 0, []);
    NameWireCase(key.name);
    NameWireCase(key.algorithm);
    if Rebuilt(m, key, time) == Hashed(m, key, time) {
      assert (m + lower)[|m|..] == lower && (m + given)[|m|..] == given;
      VariablesApart(Lower(key.name), Lower(key.algorithm), time);
      VariablesApart(key.name, key.algorithm, time);
    }
  }

  /** Where the two names stand in the variables. */
  lemma VariablesApart(name: text, algorithm: text, time: nat)
    ensures var v := Variables(name, algorithm, time, FUDGE, 0, []);
            var n, k := |NameWire(name)|, |NameWire(algorithm)|;
            n + 6 + k <= |v| && v[..n] == NameWire(name) && v[n + 6..n + 6 + k] == NameWire(algorithm)
  {
    hide NameWire, TimeWire, Be16, Be32;
    var n, a := NameWire(name), NameWire(algorithm);
    var tail := TimeWire(time) + Be16(FUDGE) + Be16(0) + Be16(0) + [];
    var v := Variables(name, algorithm, time, FUDGE, 0, []);
    assert v == n + (Be16(255) + Be32(0)) + a + tail;
    ThirdOfFour(n, Be16(255) + Be32(0), a, tail);
  }

  lemma ThirdOfFour(a: bytes, b: bytes, c: bytes, d: bytes)
    ensures var s := a + b + c + d;
            s[..|a|] == a && s[|a| + |b|..|a| + |b| + |c|] == c
  {}

  /** Lower-casing a name changes its octets exactly when it changes the name, and never their number. */
  lemma NameWireCase(name: text)
    ensures |NameWire(Lower(name))| == |NameWire(name)|
    ensures NameWire(Lower(name)) == NameWire(name) <==> Lower(name) == name
  {
    hide Labels, Lower, LabelsWire;
    LabelsLower(name);
    LabelsWireCase(Labels(name));
    if NameWire(Lower(name)) == NameWire(name) {
      var a, b := LabelsWire(LowerAll(Labels(name))), LabelsWire(Labels(name));
      assert a == (a + [0])[..|a|] && b == (b + [0])[..|b|];
      LowerLabelsLower(name);
    }
  }

  lemma {:induction false} LabelsWireCase(ls: seq<text>)
    ensures |LabelsWire(LowerAll(ls))| == |LabelsWire(ls)|
    ensures LabelsWire(LowerAll(ls)) == LabelsWire(ls) ==> LowerAll(ls) == ls
  {
    hide Lower;
    if ls == [] {
      assert LowerAll(ls) == [];
    } else {
      LabelsWireCase(ls[1..]);
      LowerLength(ls[0]);
      assert LowerAll(ls)[1..] == LowerAll(ls[1..]) && LowerAll(ls)[0] == Lower(ls[0]);
      var a, b := LabelWire(Lower(ls[0])), LabelWire(ls[0]);
      var x, y := LabelsWire(LowerAll(ls[1..])), LabelsWire(ls[1..]);
      assert LabelsWire(LowerAll(ls)) == a + x && LabelsWire(ls) == b + y;
      if a + x == b + y {
        assert a == (a + x)[..|a|] && b == (b + y)[..|b|];
        assert x == (a + x)[|a|..] && y == (b + y)[|b|..];
        assert Lower(ls[0]) == a[1..] && ls[0] == b[1..];
        assert ls == [ls[0]] + ls[1..] && LowerAll(ls) == [Lower(ls[0])] + LowerAll(ls[1..]);
      }
    }
  }

  lemma LowerLabelsLower(name: text)
    requires LowerAll(Labels(name)) == Labels(name)
    ensures Lower(name) == name
  {
    hide Lower, Split, Join;
    LabelsUntrimmed(name);
    SplitLower(name);
    NoUpperPieces(Split(name));
    JoinSplit(name);
    JoinSplit(Lower(name));
  }

  lemma {:induction false} NoUpperPieces(ls: seq<text>)
    requires LowerAll(NonEmpty(ls)) == NonEmpty(ls)
    ensures LowerAll(ls) == ls
  {
    hide Lower;
    if ls != [] {
      var head: seq<text> := if ls[0] == [] then [] else [ls[0]];
      var rest := NonEmpty(ls[1..]);
      assert NonEmpty(ls) == head + rest;
      assert rest == NonEmpty(ls)[|head|..];
      assert LowerAll(rest) == LowerAll(NonEmpty(ls))[|head|..];
      NoUpperPieces(ls[1..]);
      if ls[0] == [] {
        LowerLength([]);
      } else {
        assert LowerAll(NonEmpty(ls))[0] == Lower(ls[0]);
      }
      assert ls == [ls[0]] + ls[1..] && LowerAll(ls) == [Lower(ls[0])] + LowerAll(ls[1..]);
    }
  }

  lemma CountOfAdditional(p: Packet, includeEdns: bool)
    requires SteppablePacket(p, includeEdns)
    ensures |Extra(p, includeEdns)| <= 0xFFFF
  {}

  /** ARCOUNT 65535 wraps to 0, and a message without additional records is refused. */
  lemma NothingToExtract(message: bytes)
    requires |message| >= 12 && Count(message, 10) == 0
    ensures Extract(message) == Err(NoAdditional)
  {}

  lemma ExtractSigned(p: Packet, includeEdns: bool, key: TsigKey, time: nat, mac: Mac)
    requires SteppablePacket(p, includeEdns) && time < 0x1_0000_0000_0000 && |Extra(p, includeEdns)| < 0xFFFF
    requires Steppable(key.name) && Steppable(key.algorithm)
    requires |Serialize(p, includeEdns)| >= 12
    ensures var m := Serialize(p, includeEdns);
            var rr := TsigRecord(key.name, key.algorithm, time, FUDGE, mac, Count(m, 0));
            Extract(Patch(m + rr, 10, |Extra(p, includeEdns)| + 1))
            == Ok(Extracted(ReadAs(key.name), TsigData(ReadAs(key.algorithm), time, FUDGE, mac, Count(m, 0), 0, []),
                            |m|, |Extra(p, includeEdns)| + 1))
  {
    hide At, SkipQuestions, SkipRecords, Serialize, TsigRecord, ReadTsig, SteppablePacket, ReadAs, Extra, Patch;
    hide Steppable;
    var m := Serialize(p, includeEdns);
    var v := |Extra(p, includeEdns)| + 1;
    var rr := TsigRecord(key.name, key.algorithm, time, FUDGE, mac, Count(m, 0));
    var signed := Patch(m + rr, 10, v);
    CountsOf(p, includeEdns);
    HeaderKept(m, rr, v);
    WalkLandsAtEnd(p, includeEdns, rr, v);
    TailAt(m, rr);
    AtPatched(m + rr, v, |m|, rr);
    TsigReadsBack(signed, |m|, key, time, mac, Count(m, 0));
  }

  lemma CountsOf(p: Packet, includeEdns: bool)
    requires SteppablePacket(p, includeEdns)
    ensures var m := Serialize(p, includeEdns);
            |m| >= 12 && Count(m, 4) == |p.questions| && Count(m, 6) == |p.answers|
            && Count(m, 8) == |p.authority| && Count(m, 10) == |Extra(p, includeEdns)|
  {
    HeaderCounts(p, includeEdns);
  }

  lemma TailAt(m: bytes, rr: bytes)
    ensures At(m + rr, |m|, rr)
  {
    assert (m + rr)[|m|..|m| + |rr|] == rr;
  }

  /** What the verifier rebuilds from the record and the patched message. */
  lemma PreimageRebuilt(m: bytes, key: TsigKey, time: nat, mac: Mac, rr: bytes, v: u16)
    requires |m| >= 12 && v == Count(m, 10) + 1
    requires NameWire(ReadAs(key.name)) == NameWire(Lower(key.name))
    requires NameWire(ReadAs(key.algorithm)) == NameWire(Lower(key.algorithm))
    ensures var tsig := TsigData(ReadAs(key.algorithm), time, FUDGE, mac, Count(m, 0), 0, []);
            Preimage(Patch(m + rr, 10, v), Extracted(ReadAs(key.name), tsig, |m|, v)) == Rebuilt(m, key, time)
  {
    hide Patch, NameWire, TimeWire, ReadAs, Lower;
    PreimageRestored(m, rr, v);
  }
}
