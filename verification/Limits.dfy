/**
 Concrete inputs at which the code does not do what it is for. The exact conditions stand
 with the properties themselves.
 */
module Limits {
  import opened Bytes
  import opened Names
  import opened Wire
  import opened RoundTrip
  import opened RecordData
  import opened Canonical
  import opened Zones
  import opened Denial
  import opened Answers
  import opened SignedData
  import opened Dnssec
  import opened Tsig
  import opened TsigRoundTrip
  import Chain = ZoneSigning

  // A signed zone with two names

  const Z: text := [122]

  /** One letter under `z`. */
  function Under(l: byte): text {
    [l, DOT] + Z
  }

  /** Letters and the asterisk. */
  predicate Plain(l: byte) {
    l == STAR || 97 <= l <= 122
  }

  function Address(name: text): Record {
    Record(name, A, 1, 0, [192, 0, 2, 1])
  }

  function TwoNames(l: byte): ZoneView {
    ZoneView(Z, map[(Z, 1) := [Address(Z)], (Under(l), 1) := [Address(Under(l))]], {Z, Under(l)}, [])
  }

  /** The zone with its NSEC chain. */
  function Signed(l: byte): ZoneView {
    WithNsecs(TwoNames(l), [Z, Under(l)], 0, 2).(nsecOwners := [Z, Under(l)])
  }

  lemma NamesProper(l: byte)
    requires Plain(l)
    ensures ZoneName(Z) && ZoneName(Under(l)) && Lower(Z) == Z && Lower(Under(l)) == Under(l)
    ensures Split(Z) == [Z] && Split(Under(l)) == [[l], Z] && EndsWith(Under(l), [DOT] + Z)
  {
    SplitPlain(Z);
    SplitPlain([l]);
    SplitConcat([l], Z);
    assert Under(l) == [l] + [DOT] + Z;
    assert ValidUtf8(Z[1..]) && ValidUtf8([l][1..]);
    assert ProperLabel(Z) && ProperLabel([l]);
    ZoneNameKey(Z);
    ZoneNameKey(Under(l));
  }

  lemma TwoNamesListed(l: byte)
    requires Plain(l)
    ensures SortedListing([Z, Under(l)], TwoNames(l).names)
  {
    hide KeyOf, ZoneName, CompareKeys;
    NamesProper(l);
    SuffixIsDescent(Under(l), Z);
    PrefixBefore(KeyOf(Z), KeyOf(Under(l)));
    var owners := [Z, Under(l)];
    assert owners[0] == Z && owners[1] == Under(l) && |Under(l)| == 3;
    assert NameSet(owners) == {Z, Under(l)};
  }

  lemma SignedIsSigned(l: byte)
    requires Plain(l)
    ensures SignedZone(Signed(l)) && Signed(l).names == {Z, Under(l)} && Signed(l).nsecOwners == [Z, Under(l)]
    ensures Signed(l).origin == Z
  {
    hide KeyOf, ZoneName, WithNsecs, SignedChain, SortedListing, StrictlyAscending, HasNsec;
    var z, owners := TwoNames(l), [Z, Under(l)];
    NamesProper(l);
    assert |Under(l)| == 3;
    assert Keyed(z) && NoNsec(z) && ProperTypes(z);
    TwoNamesListed(l);
    ChainIsSigned(z, owners, 0);
    Chain.ChainKeyed(z, owners, 0, 2);
    Chain.ChainTypes(z, owners, 0, 2);
    Chain.NamesAfterChain(z, owners, 0, 2);
    SignedNames(Signed(l), l);
  }

  lemma SignedNames(z: ZoneView, l: byte)
    requires SignedChain(z) && z.nsecOwners == [Z, Under(l)]
    ensures z.names == {Z, Under(l)}
  {
    var owners := [Z, Under(l)];
    assert owners[0] == Z && owners[1] == Under(l);
    assert NameSet(owners) == {Z, Under(l)};
  }

  /** The chase does not move from a name the zone does not know. */
  lemma UnknownNameStays(z: ZoneView, name: text, qtype: RType)
    requires Keyed(z) && Lower(name) !in z.names
    ensures Chase(z, name, qtype, true, MAX_CNAME_CHAIN) == Chased([], false, name)
  {
    hide Lower;
    ChaseUnfolds(z, name, qtype, true, MAX_CNAME_CHAIN);
  }

  // A dot inside a label

  const HIDDEN_DOT: text := [97, DOT, DOT, 122]

  /** Wire form: a label of the two octets `a.`, then `z`. */
  const HIDDEN_DOT_WIRE: bytes := [2, 97, DOT, 1, 122, 0]

  lemma HiddenDotReads()
    ensures ReadName(HIDDEN_DOT_WIRE, 0) == Got(HIDDEN_DOT, 6)
  {
    hide ReadLabels;
    var ls: seq<text> := [[97, DOT], Z];
    assert ls[1..] == [Z] && [Z][1..] == [];
    assert LabelsWire([Z]) == LabelWire(Z) + LabelsWire([]);
    assert LabelsWire(ls) == LabelWire(ls[0]) + LabelsWire(ls[1..]);
    assert HIDDEN_DOT_WIRE == LabelsWire(ls) + [0];
    assert At(HIDDEN_DOT_WIRE, 0, LabelsWire(ls) + [0]);
    ReadLabelsBack(HIDDEN_DOT_WIRE, 0, ls, 0);
    assert ValidUtf8([97, DOT][1..][1..]) && ValidUtf8([97, DOT][1..]) && ValidUtf8(Z[1..]);
    assert ProperLabels(ls);
    DecodeProper(ls);
    assert Join([Z]) == Z;
    assert Join(ls) == ls[0] + [DOT] + Join(ls[1..]);
    assert DecodeLabels(ls) == ls && ls[0] + [DOT] + Z == HIDDEN_DOT;
    assert NameText(ls) == HIDDEN_DOT;
  }

  lemma HiddenDotLabels()
    ensures Lower(HIDDEN_DOT) == HIDDEN_DOT && KeyOf(HIDDEN_DOT) == KeyOf(Under(97))
    ensures Split(HIDDEN_DOT) == [[97], [], Z]
  {
    hide Split, NonEmpty, TrimDots;
    NamesProper(97);
    SplitPlain([97]);
    SplitPlain(Z);
    SplitConcat([], Z);
    SplitNothing();
    assert [] + [DOT] + Z == [DOT] + Z;
    SplitConcat([97], [DOT] + Z);
    assert HIDDEN_DOT == [97] + [DOT] + ([DOT] + Z);
    assert Split(HIDDEN_DOT) == [[97]] + ([[]] + [Z]);
    LabelsUntrimmed(HIDDEN_DOT);
    LabelsUntrimmed(Under(97));
    NonEmptyConcat([[97]], [[]] + [Z]);
    NonEmptyConcat([[]], [Z]);
    NonEmptyConcat([[97]], [Z]);
    NonEmptyNothing();
    var empty: seq<text> := [[]];
    NonEmptyFirst(empty);
    assert empty[1..] == [] && NonEmpty(empty) == [];
    assert empty == [[]] && [] + NonEmpty([Z]) == NonEmpty([Z]);
    assert Split(Under(97)) == [[97]] + [Z];
    assert NonEmpty(Split(HIDDEN_DOT)) == NonEmpty([[97]]) + (NonEmpty(empty) + NonEmpty([Z]));
    assert Labels(HIDDEN_DOT) == Labels(Under(97));
    assert Split(HIDDEN_DOT) == [[97], [], Z];
  }

  /**
   Asked for the name with the hidden dot, a signed zone that owns `a.z` says NXDOMAIN and
   sends no NSEC that covers it: to the canonical order the name is `a.z`.
   */
  lemma HiddenDotUnproven(nsec3: text -> Option<Record>)
    requires forall n :: nsec3(n).None?
    ensures SignedZone(Signed(97)) && Authoritative(Signed(97), HIDDEN_DOT)
    ensures var reply := Answer(Signed(97), HIDDEN_DOT, A, true, nsec3);
            reply.nxdomain && !SomeProves(reply.authority, HIDDEN_DOT)
  {
    hide Signed, SignedChain, Chase, KeyOf, ZoneName, Answer, SomeProves, ClosestEncloser, NonTerminalProven;
    hide TypesProven;
    var z := Signed(97);
    SignedIsSigned(97);
    HiddenDotLabels();
    assert |HIDDEN_DOT| == 4 && |Under(97)| == 3;
    assert HIDDEN_DOT[2..] == [DOT] + Z;
    UnknownNameStays(z, HIDDEN_DOT, A);
    assert KeyOf(z.nsecOwners[1]) == KeyOf(HIDDEN_DOT);
    NegativeAnswerProven(z, HIDDEN_DOT, A, nsec3);
  }

  /** NS data with that name is stored as data that says `a`. */
  lemma HiddenDotChangesData()
    ensures ReadContent(HIDDEN_DOT_WIRE, NS, HIDDEN_DOT_WIRE, 0) == Some(Content([], [HIDDEN_DOT], []))
    ensures !SaysTheSame(HIDDEN_DOT_WIRE, NS, HIDDEN_DOT_WIRE, 0)
  {
    hide ReadName, SaysTheSame, Split;
    HiddenDotReads();
    HiddenDotLabels();
    DecompressKeepsMeaning(HIDDEN_DOT_WIRE, NS, HIDDEN_DOT_WIRE, 0);
    assert Split(HIDDEN_DOT)[1] == [];
    assert !Restorable(HIDDEN_DOT);
    assert [HIDDEN_DOT][0] == HIDDEN_DOT;
  }

  // A wildcard

  /** In a signed zone that owns `*.z`, the denial of `b.z` does not deny the wildcard. */
  lemma WildcardUnproven(nsec3: text -> Option<Record>)
    requires forall n :: nsec3(n).None?
    ensures SignedZone(Signed(STAR)) && Authoritative(Signed(STAR), Under(98))
    ensures var reply := Answer(Signed(STAR), Under(98), A, true, nsec3);
            reply.nxdomain && Wildcard(ClosestEncloser(Signed(STAR), Under(98))) == Under(STAR)
            && !SomeProves(reply.authority, Under(STAR))
  {
    hide Signed, SignedChain, Chase, KeyOf, ZoneName, Answer, SomeProves, NonTerminalProven, TypesProven;
    var z := Signed(STAR);
    SignedIsSigned(STAR);
    NamesProper(98);
    assert Under(98) !in z.names by { assert Under(98)[0] == 98 && Under(STAR)[0] == STAR; }
    assert |Under(98)| == 3 && |Under(STAR)| == 3;
    UnknownNameStays(z, Under(98), A);
    assert Parent(Under(98)) == Some(Z) by {
      assert Under(98)[1..] == [DOT] + Z && Under(98)[1..][1..] == Z;
    }
    assert NameExists(z, Z);
    assert Wildcard(Z) == Under(STAR);
    NegativeAnswerProven(z, Under(98), A, nsec3);
  }

  // ARCOUNT

  const KEY: TsigKey := TsigKey([107], HMAC_SHA256, [0])

  /** A packet with as many additional records as fit. */
  function FullPacket(): Packet {
    Packet(0, 0, [], [], [], seq(0xFFFF, _ => Record(ROOT, A, 1, 0, [])), 0, false)
  }

  lemma KeyIsUsable()
    ensures UsableKey(KEY, map[KeyId(KEY.name) := KEY])
  {
    hide ProperKeyName, KeyId, Lower;
    PlainKeyName([107]);
    PlainKeyName(HMAC_SHA256);
  }

  lemma PlainKeyName(l: text)
    requires 0 < |l| < 0xC0 && forall i :: 0 <= i < |l| ==> 46 < l[i] < 65 || 90 < l[i] < 0x80 || l[i] == 45
    ensures ProperKeyName(Lower(l))
  {
    hide Split, ProperLabel;
    assert Lower(l) == l;
    SplitPlain(l);
    PlainText(l);
  }

  lemma PlainText(l: text)
    requires 0 < |l| < 0xC0 && forall i :: 0 <= i < |l| ==> l[i] < 65 || 90 < l[i] < 0x80
    ensures ProperLabel(l)
  {
    AsciiText(l);
  }

  lemma {:induction false} AsciiText(l: text)
    requires forall i :: 0 <= i < |l| ==> l[i] < 0x80
    ensures ValidUtf8(l)
  {
    if l != [] { AsciiText(l[1..]); }
  }

  /** Signing it wraps ARCOUNT to 0, and no clock and no hash function make it verify. */
  lemma FullPacketNeverVerifies(hmac: Hmac, signTime: nat, verifyTime: nat)
    requires signTime < 0x1_0000_0000_0000
    ensures UsableKey(KEY, map[KeyId(KEY.name) := KEY]) && |Serialize(FullPacket(), false)| >= 12
    ensures !Verify(hmac, Sign(hmac, Serialize(FullPacket(), false), KEY, signTime), map[KeyId(KEY.name) := KEY],
                    verifyTime).Ok?
  {
    hide Serialize, Sign, Verify, UsableKey, Rebuilt, Hashed;
    KeyIsUsable();
    FullPacketSteppable();
    SignThenVerify(hmac, FullPacket(), false, KEY, map[KeyId(KEY.name) := KEY], signTime, verifyTime);
  }

  lemma FullPacketSteppable()
    ensures SteppablePacket(FullPacket(), false) && |Extra(FullPacket(), false)| == 0xFFFF
  {
    hide Labels;
    RootLabels();
    var extra := Extra(FullPacket(), false);
    assert extra == FullPacket().additional;
    assert [] + [] + extra == extra;
  }

  // An algorithm number

  /** A lawful signature scheme: one key, one signature, always accepted. */
  function Lax(): Crypto {
    Crypto((_: bytes) => Some(([1], [0])), (_: bytes, _: Hash, _: bytes) => Some([0]),
           (_: bytes, _: bytes, _: Hash, _: bytes, _: bytes) => Some(true),
           (_: byte, _: bytes, _: bytes, _: bytes) => None)
  }

  const SHA1_KEY: SigningKey := SigningKey(256, 3, 5, [], Z)

  /** A record signed under algorithm 5, which the signer accepts, is Bogus at every moment. */
  lemma UnknownAlgorithmIsBogus(inception: u32, expiry: u32, now: nat)
    ensures Lawful(Lax()) && PublicRdata(Lax(), SHA1_KEY).Some?
    ensures var rdata := PublicRdata(Lax(), SHA1_KEY).value;
            var sig := SignRrset(Lax(), SHA1_KEY, [Address(Z)], Z, KeyTag(rdata), inception, expiry);
            sig.Some? && Validate(Lax(), now, [Address(Z)], [sig.value], [Record(Z, DNSKEY, 1, 0, rdata)]) == Bogus
  {
    hide SignRrset, Validate, KeyTag, EncodeRsaKey, DnskeyWire, SignedOctets, WritableSigner, SameRrset, Matches;
    var c := Lax();
    var rdata := PublicRdata(c, SHA1_KEY).value;
    var key := Record(Z, DNSKEY, 1, 0, rdata);
    var rrset := [Address(Z)];
    assert SignRrset(c, SHA1_KEY, rrset, Z, KeyTag(rdata), inception, expiry).Some? by {
      LaxSigns(rrset, inception, expiry);
    }
    var sig := SignRrset(c, SHA1_KEY, rrset, Z, KeyTag(rdata), inception, expiry).value;
    assert WritableSigner(Z) by { ZWritable(); }
    assert SameRrset(rrset, rrset) by { SameAsItself(rrset); }
    MatchesItself(c, SHA1_KEY);
    assert FindsSigner([key], rdata, 5) by { assert [key][0] == key; }
    SignThenValidate(c, SHA1_KEY, rrset, rrset, Z, inception, expiry, [key], now, [], []);
    assert [] + [sig] + [] == [sig];
  }

  lemma LaxSigns(rrset: seq<Record>, inception: u32, expiry: u32)
    requires rrset != []
    ensures SignRrset(Lax(), SHA1_KEY, rrset, Z, KeyTag(PublicRdata(Lax(), SHA1_KEY).value), inception, expiry).Some?
  {
    hide SignedOctets, RrsigWire, KeyTag, Unsigned;
  }

  lemma ZWritable()
    ensures WritableSigner(Z)
  {
    NamesProper(97);
    ZoneNameKey(Z);
  }

  lemma SameAsItself(rrset: seq<Record>)
    ensures SameRrset(rrset, rrset)
  {}
}
