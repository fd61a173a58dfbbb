/**
 Signing and validating RRsets (src/zone_signing.rs, src/dnssec.rs). RSA and the curve
 algorithms are any functions with one law: a check accepts what the matching key signed.
 */
module Dnssec {
  import opened Bytes
  import opened Names
  import opened Wire
  import opened RoundTrip
  import opened PacketRoundTrip
  import opened SignedData
  import opened Codec

  // Primitives

  datatype Hash = Sha256 | Sha512

  /**
   `None` stands for an error: a private key that does not parse, a signature that cannot be
   made, a public key the library rejects. `curve` is the curve check of an algorithm.
   */
  datatype Crypto = Crypto(
    publicKey: bytes -> Option<(bytes, bytes)>,
    sign: (bytes, Hash, bytes) -> Option<bytes>,
    verify: (bytes, bytes, Hash, bytes, bytes) -> Option<bool>,
    curve: (byte, bytes, bytes, bytes) -> Option<bool>)

  /** Signatures are as long as the modulus and verify under the signer's exponent and modulus. */
  ghost predicate Lawful(c: Crypto) {
    forall secret, hash, data :: c.sign(secret, hash, data).Some? ==>
      c.publicKey(secret).Some? &&
      var (exponent, modulus) := c.publicKey(secret).value;
      var signature := c.sign(secret, hash, data).value;
      |signature| == |modulus| && c.verify(exponent, modulus, hash, data, signature) == Some(true)
  }

  // Keys

  /** RFC 3110, section 2: length of the exponent in one octet, or in two after a zero octet. */
  function EncodeRsaKey(exponent: bytes, modulus: bytes): bytes {
    (if |exponent| <= 255 then [|exponent|] else [0] + Be16(|exponent| % 0x1_0000)) + exponent + modulus
  }

  function ParseRsaKey(key: bytes): Option<(bytes, bytes)> {
    if key == [] then None
    else if key[0] == 0 then
      if |key| < 3 then None
      else if |key| - 3 < FromBe16(key[1], key[2]) then None
      else Some((key[3..3 + FromBe16(key[1], key[2])], key[3 + FromBe16(key[1], key[2])..]))
    else if |key| - 1 < key[0] then None
    else Some((key[1..1 + key[0]], key[1 + key[0]..]))
  }

  /** The encoding parses back exactly for exponents of 1 to 65535 octets. */
  lemma RsaKeyRoundTripExact(exponent: bytes, modulus: bytes)
    ensures ParseRsaKey(EncodeRsaKey(exponent, modulus)) == Some((exponent, modulus))
            <==> 1 <= |exponent| < 0x1_0000
  {
    var key := EncodeRsaKey(exponent, modulus);
    if |exponent| == 0 {
      assert key == [0] + modulus;
    } else if |exponent| <= 255 {
      assert key[1..1 + |exponent|] == exponent && key[1 + |exponent|..] == modulus;
    } else {
      LongKeyParts(exponent, modulus);
      if |exponent| < 0x1_0000 {
        assert key[3..3 + |exponent|] == exponent && key[3 + |exponent|..] == modulus;
      }
    }
  }

  lemma LongKeyParts(exponent: bytes, modulus: bytes)
    requires |exponent| > 255
    ensures var key := EncodeRsaKey(exponent, modulus);
            key == [0] + Be16(|exponent| % 0x1_0000) + exponent + modulus
            && key[0] == 0 && FromBe16(key[1], key[2]) == |exponent| % 0x1_0000
  {}

  datatype Dnskey = Dnskey(flags: u16, protocol: byte, algorithm: byte, publicKey: bytes)

  function DnskeyWire(k: Dnskey): bytes {
    Be16(k.flags) + [k.protocol] + [k.algorithm] + k.publicKey
  }

  function ReadDnskey(rdata: bytes): Option<Dnskey> {
    if |rdata| < 4 then None
    else Some(Dnskey(FromBe16(rdata[0], rdata[1]), rdata[2], rdata[3], rdata[4..]))
  }

  lemma DnskeyReadsBack(k: Dnskey)
    ensures ReadDnskey(DnskeyWire(k)) == Some(k)
  {
    assert DnskeyWire(k)[4..] == k.publicKey;
  }

  /** Appendix B of RFC 4034: even-numbered octets count as high ones. */
  function TagSum(rdata: bytes): nat {
    if rdata == [] then 0
    else
      var b: int := rdata[|rdata| - 1];
      TagSum(rdata[..|rdata| - 1]) + if |rdata| % 2 == 1 then b * 0x100 else b
  }

  /** `compute_key_tag` and `Dnskey::key_tag`, with a 32-bit accumulator that wraps. */
  function KeyTag(rdata: bytes): u16 {
    var ac := TagSum(rdata) % 0x1_0000_0000;
    (ac + ac / 0x1_0000) % 0x1_0000
  }

  lemma {:induction false} TagSumBound(rdata: bytes)
    ensures TagSum(rdata) <= 0x8000 * |rdata| + 0x7F00
    ensures |rdata| % 2 == 0 ==> TagSum(rdata) <= 0x8000 * |rdata|
  {
    if rdata != [] {
      TagSumBound(rdata[..|rdata| - 1]);
    }
  }

  /** On record data nothing wraps: the tag is that of appendix B. */
  lemma TagNeverWraps(rdata: bytes)
    requires |rdata| < 0x1_0000
    ensures KeyTag(rdata) == (TagSum(rdata) + TagSum(rdata) / 0x1_0000) % 0x1_0000
  {
    TagSumBound(rdata);
    hide TagSum;
    SmallStays(TagSum(rdata));
  }

  lemma SmallStays(n: nat)
    requires n < 0x1_0000_0000
    ensures n % 0x1_0000_0000 == n
  {}

  lemma WrappedSum(a: nat, b: nat)
    ensures (a % 0x1_0000_0000 + b) % 0x1_0000_0000 == (a + b) % 0x1_0000_0000
  {}

  lemma FoldWraps(ac: u32)
    ensures (ac + ac / 0x1_0000) % 0x1_0000_0000 % 0x1_0000 == (ac + ac / 0x1_0000) % 0x1_0000
  {}

  method ComputeKeyTag(rdata: bytes) returns (tag: u16)
    ensures tag == KeyTag(rdata)
  {
    var ac: u32 := 0;
    for i := 0 to |rdata|
      invariant ac == TagSum(rdata[..i]) % 0x1_0000_0000
    {
      var b: int := rdata[i];
      assert rdata[..i + 1][..i] == rdata[..i];
      var term := if i % 2 == 0 then b * 0x100 else b;
      WrappedSum(TagSum(rdata[..i]), term);
      ac := (ac + term) % 0x1_0000_0000;
    }
    assert rdata[..|rdata|] == rdata;
    FoldWraps(ac);
    ac := (ac + ac / 0x1_0000) % 0x1_0000_0000;
    tag := ac % 0x1_0000;
  }

  // Signing

  /** `DnsKey`: the private key is what the library loads. */
  datatype SigningKey = SigningKey(flags: u16, protocol: byte, algorithm: byte, secret: bytes, name: text)

  const RSASHA256: byte := 8
  const RSASHA512: byte := 10

  function PublicRdata(c: Crypto, key: SigningKey): Option<bytes> {
    var parts :- c.publicKey(key.secret);
    Some(DnskeyWire(Dnskey(key.flags, key.protocol, key.algorithm, EncodeRsaKey(parts.0, parts.1))))
  }

  /** Labels of the owner, not counting the root or a leading wildcard, as one octet. */
  function OwnerLabels(name: text): byte {
    var n := |Labels(name)|;
    (if [42, DOT] <= TrimDots(name) && n > 0 then n - 1 else n) % 0x100
  }

  /** `sign_data`: SHA-256 for algorithm 8 and SHA-512 for every other number. */
  function SignHash(algorithm: byte): Hash {
    if algorithm == RSASHA256 then Sha256 else Sha512
  }

  function Unsigned(key: SigningKey, rrset: seq<Record>, zone: text, tag: u16, inception: u32, expiry: u32): Rrsig
    requires rrset != []
  {
    Rrsig(Code(rrset[0].rtype), key.algorithm, OwnerLabels(rrset[0].name), rrset[0].ttl, expiry, inception, tag,
          Lower(zone), [])
  }

  function RrsigWire(s: Rrsig): bytes {
    RrsigHeader(s) + s.signature
  }

  /** `sign_rrset_with_key` */
  function SignRrset(c: Crypto, key: SigningKey, rrset: seq<Record>, zone: text, tag: u16,
                     inception: u32, expiry: u32): Option<Record>
  {
    if rrset == [] then None
    else
      var s := Unsigned(key, rrset, zone, tag, inception, expiry);
      var signature :- c.sign(key.secret, SignHash(key.algorithm), SignedOctets(s, rrset));
      Some(Record(rrset[0].name, RRSIG, rrset[0].cls, rrset[0].ttl, RrsigWire(s.(signature := signature))))
  }

  // Validating

  datatype Validation = Secure | Insecure | Bogus

  function VerifySignature(c: Crypto, algorithm: byte, publicKey: bytes, data: bytes, signature: bytes): Option<bool> {
    match algorithm
    case 8 => VerifyRsa(c, Sha256, publicKey, data, signature)
    case 10 => VerifyRsa(c, Sha512, publicKey, data, signature)
    case 13 => if |publicKey| != 64 || |signature| != 64 then None else c.curve(13, publicKey, data, signature)
    case 14 => if |publicKey| != 96 || |signature| != 96 then None else c.curve(14, publicKey, data, signature)
    case 15 => if |publicKey| != 32 || |signature| != 64 then None else c.curve(15, publicKey, data, signature)
    case _ => None
  }

  function VerifyRsa(c: Crypto, hash: Hash, publicKey: bytes, data: bytes, signature: bytes): Option<bool> {
    var parts :- ParseRsaKey(publicKey);
    c.verify(parts.0, parts.1, hash, data, signature)
  }

  predicate Matches(rdata: bytes, tag: u16, algorithm: byte) {
    var k := ReadDnskey(rdata);
    k.Some? && KeyTag(rdata) == tag && k.value.algorithm == algorithm
  }

  function FindKey(keys: seq<Record>, tag: u16, algorithm: byte): Option<Dnskey> {
    if keys == [] then None
    else if Matches(keys[0].rdata, tag, algorithm) then ReadDnskey(keys[0].rdata)
    else FindKey(keys[1..], tag, algorithm)
  }

  /** What one signature says: `None` when it is passed over. */
  function Judge(c: Crypto, now: nat, rrset: seq<Record>, keys: seq<Record>, rdata: bytes): Option<bool> {
    var s := ReadRrsig(rdata);
    if s.Fail? then None
    else if now < s.value.inception || now > s.value.expiry then None
    else
      var key :- FindKey(keys, s.value.keyTag, s.value.algorithm);
      VerifySignature(c, s.value.algorithm, key.publicKey, SignedOctets(s.value, rrset), s.value.signature)
  }

  /** The first signature not passed over decides. */
  function FirstVerdict(c: Crypto, now: nat, rrset: seq<Record>, keys: seq<Record>, sigs: seq<Record>): Validation {
    if sigs == [] then Bogus
    else
      match Judge(c, now, rrset, keys, sigs[0].rdata)
      case Some(ok) => if ok then Secure else Bogus
      case None => FirstVerdict(c, now, rrset, keys, sigs[1..])
  }

  /** `validate_rrset` */
  function Validate(c: Crypto, now: nat, rrset: seq<Record>, sigs: seq<Record>, keys: seq<Record>): Validation {
    if rrset == [] || sigs == [] || keys == [] then Insecure else FirstVerdict(c, now, rrset, keys, sigs)
  }

  // Round trip of the signature record

  /** The signer's name can be written and read back: labels of 1..191 octets of text. */
  predicate WritableSigner(zone: text) {
    ProperLabels(Labels(Lower(zone)))
  }

  /** The name the reader makes of written labels; it has the same labels. */
  lemma SignerReadsBack(buf: bytes, pos: nat, signer: text)
    requires ProperLabels(Labels(signer)) && At(buf, pos, NameWire(signer))
    ensures var r := ReadName(buf, pos);
            r.Got? && r.next == pos + |NameWire(signer)| && NameWire(r.value) == NameWire(signer)
  {
    hide At, ReadLabels, ProperLabel, LabelsWire;
    var ls := Labels(signer);
    assert PlainLabels(ls) by { ProperArePlain(ls); }
    ReadLabelsBack(buf, pos, ls, 0);
    DecodeProper(ls);
    LabelsOfText(ls);
  }

  lemma ProperArePlain(ls: seq<text>)
    requires ProperLabels(ls)
    ensures PlainLabels(ls)
  {
    forall i | 0 <= i < |ls| ensures 0 < |ls[i]| < 0xC0 {
      assert ProperLabel(ls[i]);
    }
  }

  lemma LabelsOfText(ls: seq<text>)
    requires PlainPieces(ls) && DecodeLabels(ls) == ls
    ensures Labels(NameText(ls)) == ls
  {
    hide Split, Join, TrimDots, DecodeLabel;
    if ls == [] {
      RootLabels();
    } else {
      SplitJoin(ls);
      LabelsOfProper(Join(ls));
    }
  }

  /**
   A written RRSIG reads back with all its fields; the signer's name may come back without
   its trailing dot, but written again it is the same octets.
   */
  lemma RrsigReadsBack(s: Rrsig)
    requires ProperLabels(Labels(s.signer))
    ensures var r := ReadRrsig(RrsigWire(s));
            r.Got? && r.value == s.(signer := r.value.signer) && NameWire(r.value.signer) == NameWire(s.signer)
  {
    hide At, ReadName, ReadU16, ReadU32, ReadBytes, NameWire, Be16, Be32, ProperLabels, Labels, RrsigWire;
    var buf := RrsigWire(s);
    RrsigParts(s);
    ReadU16Back(buf, 0, s.typeCovered);
    TwoOctets(buf, 2, s.algorithm, s.labels);
    ReadU32Back(buf, 4, s.origTtl);
    ReadU32Back(buf, 8, s.expiry);
    ReadU32Back(buf, 12, s.inception);
    ReadU16Back(buf, 16, s.keyTag);
    SignerReadsBack(buf, 18, s.signer);
    AtBounds(buf, 18 + |NameWire(s.signer)|, s.signature);
  }

  /** Where each field of a written RRSIG stands. */
  lemma RrsigParts(s: Rrsig)
    ensures var buf := RrsigWire(s);
            && At(buf, 0, Be16(s.typeCovered)) && At(buf, 2, [s.algorithm] + [s.labels]) && At(buf, 4, Be32(s.origTtl))
            && At(buf, 8, Be32(s.expiry)) && At(buf, 12, Be32(s.inception)) && At(buf, 16, Be16(s.keyTag))
            && At(buf, 18, NameWire(s.signer)) && At(buf, 18 + |NameWire(s.signer)|, s.signature)
            && |buf| == 18 + |NameWire(s.signer)| + |s.signature|
  {
    hide At, NameWire, Be16, Be32;
    var buf := RrsigWire(s);
    var a, b, c, d, e, f := Be16(s.typeCovered), Be32(s.origTtl), Be32(s.expiry), Be32(s.inception), Be16(s.keyTag),
                            NameWire(s.signer);
    var two := [s.algorithm] + [s.labels];
    assert buf == (a + two + b + c + d + e + f) + s.signature;
    hide RrsigWire, RrsigHeader;
    WholeAt(buf);
    AtSplit(buf, 0, a + two + b + c + d + e + f, s.signature);
    AtSplit(buf, 0, a + two + b + c + d + e, f);
    AtSplit(buf, 0, a + two + b + c + d, e);
    AtSplit(buf, 0, a + two + b + c, d);
    AtSplit(buf, 0, a + two + b, c);
    AtSplit(buf, 0, a + two, b);
    AtSplit(buf, 0, a, two);
  }

  lemma WholeAt(buf: bytes)
    ensures At(buf, 0, buf)
  {}

  lemma TwoOctets(buf: bytes, pos: nat, x: byte, y: byte)
    requires At(buf, pos, [x] + [y])
    ensures ReadU8(buf, pos) == Got(x, pos + 1) && ReadU8(buf, pos + 1) == Got(y, pos + 2)
  {
    AtIndex(buf, pos, [x] + [y], 0);
    AtIndex(buf, pos, [x] + [y], 1);
  }

  // Signing, then validating

  /** Among `keys` only the signer's public key has its tag and algorithm. */
  ghost predicate OnlyKey(keys: seq<Record>, rdata: bytes, algorithm: byte) {
    && (exists i :: 0 <= i < |keys| && keys[i].rdata == rdata)
    && (forall i :: 0 <= i < |keys| && Matches(keys[i].rdata, KeyTag(rdata), algorithm) ==> keys[i].rdata == rdata)
  }

  /** The first of `keys` with the signer's tag and algorithm is the signer's public key. */
  predicate FindsSigner(keys: seq<Record>, rdata: bytes, algorithm: byte) {
    FindKey(keys, KeyTag(rdata), algorithm) == ReadDnskey(rdata)
  }

  /** In whatever order the keys come, the signer's is found when it is the only one of its kind. */
  lemma {:induction false} OnlyKeyFound(keys: seq<Record>, rdata: bytes, algorithm: byte)
    requires OnlyKey(keys, rdata, algorithm) && Matches(rdata, KeyTag(rdata), algorithm)
    ensures FindsSigner(keys, rdata, algorithm)
  {
    hide Matches, KeyTag, ReadDnskey;
    var i :| 0 <= i < |keys| && keys[i].rdata == rdata;
    if !Matches(keys[0].rdata, KeyTag(rdata), algorithm) {
      assert keys[1..][i - 1].rdata == rdata;
      OnlyKeyFound(keys[1..], rdata, algorithm);
    }
  }

  /** Only the two RSA algorithms are both signed and checked with the same hash. */
  predicate RsaAlgorithm(algorithm: byte) {
    algorithm == RSASHA256 || algorithm == RSASHA512
  }

  lemma SignatureChecks(c: Crypto, key: SigningKey, data: bytes)
    requires Lawful(c) && c.sign(key.secret, SignHash(key.algorithm), data).Some?
    requires c.publicKey(key.secret).Some? && 1 <= |c.publicKey(key.secret).value.0| < 0x1_0000
    ensures var (exponent, modulus) := c.publicKey(key.secret).value;
            var signature := c.sign(key.secret, SignHash(key.algorithm), data).value;
            VerifySignature(c, key.algorithm, EncodeRsaKey(exponent, modulus), data, signature)
            == if RsaAlgorithm(key.algorithm) then Some(true) else None
  {
    hide ParseRsaKey, EncodeRsaKey;
    var (exponent, modulus) := c.publicKey(key.secret).value;
    RsaKeyRoundTripExact(exponent, modulus);
    KeyLonger(exponent, modulus);
  }

  lemma KeyLonger(exponent: bytes, modulus: bytes)
    ensures |EncodeRsaKey(exponent, modulus)| > |modulus|
  {}

  lemma SameHeader(s: Rrsig, t: Rrsig, rrset: seq<Record>)
    requires t == s.(signer := t.signer, signature := t.signature) && NameWire(t.signer) == NameWire(s.signer)
    ensures SignedOctets(t, rrset) == SignedOctets(s, rrset)
  {
    hide NameWire;
  }

  /** What the validator makes of a signature the signer made, for every RRset served in its place. */
  lemma JudgeOwnSignature(c: Crypto, key: SigningKey, rrset: seq<Record>, served: seq<Record>, zone: text,
                          inception: u32, expiry: u32, keys: seq<Record>, now: nat)
    requires Lawful(c) && SameRrset(rrset, served) && WritableSigner(zone)
    requires PublicRdata(c, key).Some? && 1 <= |c.publicKey(key.secret).value.0| < 0x1_0000
    requires FindsSigner(keys, PublicRdata(c, key).value, key.algorithm)
    requires SignRrset(c, key, rrset, zone, KeyTag(PublicRdata(c, key).value), inception, expiry).Some?
    ensures var sig := SignRrset(c, key, rrset, zone, KeyTag(PublicRdata(c, key).value), inception, expiry).value;
            Judge(c, now, served, keys, sig.rdata)
            == if inception <= now <= expiry && RsaAlgorithm(key.algorithm) then Some(true) else None
  {
    hide SignedOctets, RrsigWire, ReadRrsig, KeyTag, EncodeRsaKey, VerifySignature, Matches, NameWire;
    hide DnskeyWire, ReadDnskey, Lawful, SameRrset, ProperLabels, Labels, SignHash, RsaAlgorithm;
    var rdata := PublicRdata(c, key).value;
    var (exponent, modulus) := c.publicKey(key.secret).value;
    var published := Dnskey(key.flags, key.protocol, key.algorithm, EncodeRsaKey(exponent, modulus));
    var unsigned := Unsigned(key, rrset, zone, KeyTag(rdata), inception, expiry);
    var data := SignedOctets(unsigned, rrset);
    var signature := c.sign(key.secret, SignHash(key.algorithm), data).value;
    var s := unsigned.(signature := signature);
    RrsigReadsBack(s);
    var r := ReadRrsig(RrsigWire(s)).value;
    DnskeyReadsBack(published);
    SameHeader(unsigned, r, served);
    SameRrsetSameOctets(unsigned, rrset, served);
    SignatureChecks(c, key, data);
  }

  /** The published key has its own tag and algorithm. */
  lemma MatchesItself(c: Crypto, key: SigningKey)
    requires PublicRdata(c, key).Some?
    ensures var rdata := PublicRdata(c, key).value; Matches(rdata, KeyTag(rdata), key.algorithm)
  {
    hide KeyTag, EncodeRsaKey;
    var (exponent, modulus) := c.publicKey(key.secret).value;
    DnskeyReadsBack(Dnskey(key.flags, key.protocol, key.algorithm, EncodeRsaKey(exponent, modulus)));
  }

  predicate AllPassedOver(c: Crypto, now: nat, rrset: seq<Record>, keys: seq<Record>, sigs: seq<Record>) {
    forall i :: 0 <= i < |sigs| ==> Judge(c, now, rrset, keys, sigs[i].rdata).None?
  }

  lemma {:induction false} PassedOver(c: Crypto, now: nat, rrset: seq<Record>, keys: seq<Record>,
                                      before: seq<Record>, rest: seq<Record>)
    requires AllPassedOver(c, now, rrset, keys, before)
    ensures FirstVerdict(c, now, rrset, keys, before + rest) == FirstVerdict(c, now, rrset, keys, rest)
  {
    hide Judge;
    if before == [] {
      assert before + rest == rest;
    } else {
      assert (before + rest)[0] == before[0] && (before + rest)[1..] == before[1..] + rest;
      PassedOver(c, now, rrset, keys, before[1..], rest);
    }
  }

  /**
   Signing then validating: a signature that no other overtakes makes the RRset, permuted,
   with other TTLs or another owner case, Secure exactly within the validity period and for
   algorithms 8 and 10; otherwise it is passed over and the signatures after it decide.
   */
  lemma SignThenValidate(c: Crypto, key: SigningKey, rrset: seq<Record>, served: seq<Record>, zone: text,
                         inception: u32, expiry: u32, keys: seq<Record>, now: nat,
                         before: seq<Record>, after: seq<Record>)
    requires Lawful(c) && SameRrset(rrset, served) && WritableSigner(zone)
    requires PublicRdata(c, key).Some? && 1 <= |c.publicKey(key.secret).value.0| < 0x1_0000
    requires FindsSigner(keys, PublicRdata(c, key).value, key.algorithm)
    requires SignRrset(c, key, rrset, zone, KeyTag(PublicRdata(c, key).value), inception, expiry).Some?
    requires AllPassedOver(c, now, served, keys, before)
    ensures var sig := SignRrset(c, key, rrset, zone, KeyTag(PublicRdata(c, key).value), inception, expiry).value;
            Validate(c, now, served, before + [sig] + after, keys)
            == if inception <= now <= expiry && RsaAlgorithm(key.algorithm) then Secure
               else FirstVerdict(c, now, served, keys, after)
  {
    hide SignRrset, PublicRdata, Judge, AllPassedOver, SameRrset, FindsSigner, KeyTag, RsaAlgorithm, Lawful;
    JudgeOwnSignature(c, key, rrset, served, zone, inception, expiry, keys, now);
    var sig := SignRrset(c, key, rrset, zone, KeyTag(PublicRdata(c, key).value), inception, expiry).value;
    SignedNotEmpty(c, key, rrset, served, zone, KeyTag(PublicRdata(c, key).value), inception, expiry);
    KeysNotEmpty(c, key, keys);
    assert before + [sig] + after == before + ([sig] + after);
    PassedOver(c, now, served, keys, before, [sig] + after);
    assert ([sig] + after)[1..] == after;
  }

  lemma KeysNotEmpty(c: Crypto, key: SigningKey, keys: seq<Record>)
    requires PublicRdata(c, key).Some? && FindsSigner(keys, PublicRdata(c, key).value, key.algorithm)
    ensures keys != []
  {
    hide KeyTag, EncodeRsaKey;
    var (exponent, modulus) := c.publicKey(key.secret).value;
    DnskeyReadsBack(Dnskey(key.flags, key.protocol, key.algorithm, EncodeRsaKey(exponent, modulus)));
  }

  lemma SignedNotEmpty(c: Crypto, key: SigningKey, rrset: seq<Record>, served: seq<Record>, zone: text, tag: u16,
                       inception: u32, expiry: u32)
    requires SignRrset(c, key, rrset, zone, tag, inception, expiry).Some? && SameRrset(rrset, served)
    ensures served != []
  {
    hide SignedOctets, RrsigWire;
    assert |rrset| == |multiset(Map(Form, rrset))| == |multiset(Map(Form, served))| == |served|;
  }

  // What a verdict means

  ghost predicate Decisive(c: Crypto, now: nat, rrset: seq<Record>, keys: seq<Record>, sigs: seq<Record>, i: nat,
      ok: bool) {
    i < |sigs| && Judge(c, now, rrset, keys, sigs[i].rdata) == Some(ok)
    && forall j :: 0 <= j < i ==> Judge(c, now, rrset, keys, sigs[j].rdata).None?
  }

  lemma DecisiveShift(c: Crypto, now: nat, rrset: seq<Record>, keys: seq<Record>, sigs: seq<Record>, i: nat, ok: bool)
    requires sigs != [] && Judge(c, now, rrset, keys, sigs[0].rdata).None?
    ensures Decisive(c, now, rrset, keys, sigs[1..], i, ok) <==> Decisive(c, now, rrset, keys, sigs, i + 1, ok)
  {
    hide Judge;
    if Decisive(c, now, rrset, keys, sigs, i + 1, ok) {
      forall j | 0 <= j < i ensures Judge(c, now, rrset, keys, sigs[1..][j].rdata).None? {
        assert sigs[1..][j] == sigs[j + 1];
      }
    }
    if Decisive(c, now, rrset, keys, sigs[1..], i, ok) {
      forall j | 0 <= j < i + 1 ensures Judge(c, now, rrset, keys, sigs[j].rdata).None? {
        if j > 0 { assert sigs[1..][j - 1] == sigs[j]; }
      }
    }
  }

  /**
   Secure exactly when some signature verifies and every one before it is passed over: one
   mismatch ahead of it is enough for Bogus.
   */
  lemma {:induction false} SecureExactly(c: Crypto, now: nat, rrset: seq<Record>, keys: seq<Record>, sigs: seq<Record>)
    ensures FirstVerdict(c, now, rrset, keys, sigs) == Secure
        <==> exists i: nat :: Decisive(c, now, rrset, keys, sigs, i, true)
  {
    hide Judge;
    if sigs != [] {
      if Judge(c, now, rrset, keys, sigs[0].rdata).None? {
        hide Decisive;
        SecureExactly(c, now, rrset, keys, sigs[1..]);
        if FirstVerdict(c, now, rrset, keys, sigs) == Secure {
          var i: nat :| Decisive(c, now, rrset, keys, sigs[1..], i, true);
          DecisiveShift(c, now, rrset, keys, sigs, i, true);
        } else if i: nat :| Decisive(c, now, rrset, keys, sigs, i, true) {
          NotTheFirst(c, now, rrset, keys, sigs, i);
          DecisiveShift(c, now, rrset, keys, sigs, i - 1, true);
        }
      } else if Judge(c, now, rrset, keys, sigs[0].rdata) == Some(true) {
        assert Decisive(c, now, rrset, keys, sigs, 0, true);
      }
    }
  }

  lemma NotTheFirst(c: Crypto, now: nat, rrset: seq<Record>, keys: seq<Record>, sigs: seq<Record>, i: nat)
    requires Decisive(c, now, rrset, keys, sigs, i, true) && Judge(c, now, rrset, keys, sigs[0].rdata).None?
    ensures i > 0
  {
    hide Judge;
  }

  // The loops and builders

  method ValidateRrset(c: Crypto, now: nat, rrset: seq<Record>, sigs: seq<Record>, keys: seq<Record>)
    returns (result: Validation)
    ensures result == Validate(c, now, rrset, sigs, keys)
  {
    hide ReadRrsig, SignedOctets, VerifySignature, FindKey;
    if rrset == [] || sigs == [] || keys == [] { return Insecure; }
    assert sigs[0..] == sigs;
    for i := 0 to |sigs|
      invariant Validate(c, now, rrset, sigs, keys) == FirstVerdict(c, now, rrset, keys, sigs[i..])
    {
      assert sigs[i..][0] == sigs[i] && sigs[i..][1..] == sigs[i + 1..];
      var read := ReadRrsig(sigs[i].rdata);
      if read.Fail? { continue; }
      var rrsig := read.value;
      if now < rrsig.inception { continue; }
      if now > rrsig.expiry { continue; }
      var key := FindKey(keys, rrsig.keyTag, rrsig.algorithm);
      if key.None? { continue; }
      var data := BuildSignedData(rrsig, rrset);
      var verdict := VerifySignature(c, rrsig.algorithm, key.value.publicKey, data, rrsig.signature);
      if verdict == Some(true) { return Secure; }
      if verdict == Some(false) { return Bogus; }
    }
    return Bogus;
  }

  method BuildDnskeyRdata(c: Crypto, key: SigningKey) returns (rdata: Option<bytes>)
    ensures rdata == PublicRdata(c, key)
  {
    hide Be16;
    var parts := c.publicKey(key.secret);
    if parts.None? { return None; }
    var (exponent, modulus) := parts.value;
    var b := new Builder();
    b.U16(key.flags);
    b.U8(key.protocol);
    b.U8(key.algorithm);
    if |exponent| <= 255 {
      b.U8(|exponent|);
    } else {
      b.U8(0);
      b.U16(|exponent| % 0x1_0000);
    }
    b.Raw(exponent);
    b.Raw(modulus);
    assert b.buf == DnskeyWire(Dnskey(key.flags, key.protocol, key.algorithm, EncodeRsaKey(exponent, modulus)));
    rdata := Some(b.buf);
  }

  method SignRrsetWithKey(c: Crypto, key: SigningKey, rrset: seq<Record>, zone: text, tag: u16,
                          inception: u32, expiry: u32) returns (sig: Option<Record>)
    ensures sig == SignRrset(c, key, rrset, zone, tag, inception, expiry)
  {
    hide SignedOctets, RrsigHeader, SignHash, OwnerLabels, Code, Lower;
    if rrset == [] { return None; }
    var labels := OwnerLabels(rrset[0].name);
    var rrsig := Rrsig(Code(rrset[0].rtype), key.algorithm, labels, rrset[0].ttl, expiry, inception, tag,
        Lower(zone), []);
    var data := BuildSignedData(rrsig, rrset);
    var signature := c.sign(key.secret, SignHash(key.algorithm), data);
    if signature.None? { return None; }
    rrsig := rrsig.(signature := signature.value);
    var header := WriteHeader(rrsig);
    return Some(Record(rrset[0].name, RRSIG, rrset[0].cls, rrset[0].ttl, header + rrsig.signature));
  }
}
