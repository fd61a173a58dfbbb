/**
 Signing a zone (`sign_zone` in src/zone_manager.rs): keys at the apex, the NSEC chain, a
 signature for every record set. What the server then hands out validates.
 */
module ZoneSigning {
  import opened Bytes
  import opened Names
  import opened Wire
  import opened RoundTrip
  import opened Canonical
  import opened SignedData
  import opened Dnssec
  import opened Zones
  import opened Answers

  const DNSKEY_CODE: u16 := 48
  const ZSK_FLAGS: u16 := 256
  const KSK_FLAGS: u16 := 257

  /** A private key file, once parsed, as the signer of a zone. */
  function KeyFor(origin: text, secret: bytes, flags: u16): SigningKey {
    SigningKey(flags, 3, RSASHA256, secret, origin)
  }

  function KeyRecord(c: Crypto, key: SigningKey, ttl: u32): Option<Record> {
    var rdata :- PublicRdata(c, key);
    Some(Record(key.name, DNSKEY, 1, ttl, rdata))
  }

  datatype Signer = Signer(zsk: SigningKey, ksk: Option<SigningKey>, inception: u32, expiry: u32)

  /** Thirty days, in seconds. */
  const VALIDITY: nat := 2_592_000

  /** `ZoneSigner::new`: an hour back, thirty days ahead, in 32 bits that wrap. */
  function SignerAt(zsk: SigningKey, ksk: Option<SigningKey>, now: nat): Signer {
    var clock := now % 0x1_0000_0000;
    Signer(zsk, ksk, if clock >= 3600 then clock - 3600 else 0, (clock + VALIDITY) % 0x1_0000_0000)
  }

  function SignWith(c: Crypto, s: Signer, key: SigningKey, rrset: seq<Record>, zone: text): Option<Record> {
    var rdata :- PublicRdata(c, key);
    SignRrset(c, key, rrset, zone, KeyTag(rdata), s.inception, s.expiry)
  }

  function Listed(r: Option<Record>): seq<Record> {
    if r.Some? then [r.value] else []
  }

  /** The signatures of one set: by the zone signing key, and for the keys also by the key signing key. */
  function SetSignatures(c: Crypto, s: Signer, rrset: seq<Record>, zone: text): seq<Record> {
    if rrset == [] then []
    else
      Listed(SignWith(c, s, s.zsk, rrset, zone))
      + if rrset[0].rtype == DNSKEY && s.ksk.Some? then Listed(SignWith(c, s, s.ksk.value, rrset, zone)) else []
  }

  type SetKey = (text, u16)

  ghost predicate ListsPart(order: seq<SetKey>, part: set<SetKey>) {
    && (forall i, j :: 0 <= i < j < |order| ==> order[i] != order[j])
    && (forall i :: 0 <= i < |order| ==> order[i] in part)
    && (forall k :: k in part ==> exists i :: 0 <= i < |order| && order[i] == k)
  }

  /** The sets of the zone, each once, in some order. */
  ghost predicate ListsSets(order: seq<SetKey>, z: ZoneView) {
    ListsPart(order, z.rrsets.Keys)
  }

  function AllSignatures(c: Crypto, s: Signer, z: ZoneView, order: seq<SetKey>): seq<Record> {
    if order == [] then []
    else AllSignatures(c, s, z, order[..|order| - 1]) + SetSignatures(c, s, RrsetOr(z, order[|order| - 1]), z.origin)
  }

  function AddedAll(z: ZoneView, rs: seq<Record>): ZoneView {
    if rs == [] then z else Added(AddedAll(z, rs[..|rs| - 1]), rs[|rs| - 1])
  }

  // Signatures find their sets again

  /** The signature stands with the owner and covers the type. */
  predicate Covers(r: Record, k: SetKey) {
    var s := ReadRrsig(r.rdata);
    Lower(r.name) == k.0 && s.Got? && s.value.typeCovered == k.1
  }

  function CoveringAmong(rs: seq<Record>, k: SetKey): seq<Record> {
    if rs == [] then []
    else CoveringAmong(rs[..|rs| - 1], k) + if Covers(rs[|rs| - 1], k) then [rs[|rs| - 1]] else []
  }

  lemma {:induction false} SigsCoveringSnoc(sigs: seq<Record>, r: Record, code: u16)
    ensures var s := ReadRrsig(r.rdata);
            SigsCovering(sigs + [r], code)
            == SigsCovering(sigs, code) + if s.Got? && s.value.typeCovered == code then [r] else []
  {
    hide ReadRrsig;
    if sigs == [] {
      assert (sigs + [r])[1..] == [];
    } else {
      assert (sigs + [r])[1..] == sigs[1..] + [r];
      SigsCoveringSnoc(sigs[1..], r, code);
    }
  }

  lemma TypeOfCode(n: u16)
    ensures Code(TypeOf(n)) == n
  {}

  predicate AllSigs(rs: seq<Record>) {
    forall i :: 0 <= i < |rs| ==> rs[i].rtype == RRSIG
  }

  /** Adding signatures touches no other set, and the ones covering a set are those among them that do. */
  lemma {:induction false} SignaturesAdded(z: ZoneView, rs: seq<Record>, k: SetKey)
    requires AllSigs(rs) && Lower(k.0) == k.0
    ensures var y := AddedAll(z, rs);
            && y.origin == z.origin
            && (k.1 != RRSIG_CODE ==>
                  (k in y.rrsets <==> k in z.rrsets) && (k in z.rrsets ==> y.rrsets[k] == z.rrsets[k]))
            && CoveringRrsigs(y, k.0, TypeOf(k.1)) == CoveringRrsigs(z, k.0, TypeOf(k.1)) + CoveringAmong(rs, k)
  {
    hide ReadRrsig, Lower, Code, TypeOf, SigsCovering;
    if rs != [] {
      var init, r := rs[..|rs| - 1], rs[|rs| - 1];
      SignaturesAdded(z, init, k);
      OneSignatureAdded(AddedAll(z, init), r, k);
    }
  }

  lemma OneSignatureAdded(y: ZoneView, r: Record, k: SetKey)
    requires r.rtype == RRSIG && Lower(k.0) == k.0
    ensures var w := Added(y, r);
            && w.origin == y.origin
            && (k.1 != RRSIG_CODE ==>
                  (k in w.rrsets <==> k in y.rrsets) && (k in y.rrsets ==> w.rrsets[k] == y.rrsets[k]))
            && CoveringRrsigs(w, k.0, TypeOf(k.1))
               == CoveringRrsigs(y, k.0, TypeOf(k.1)) + if Covers(r, k) then [r] else []
  {
    hide ReadRrsig, Lower, SigsCovering;
    TypeOfCode(k.1);
    SigsCoveringSnoc(RrsetOr(y, (k.0, RRSIG_CODE)), r, k.1);
    assert SigsCovering([], k.1) == [] by { NoSigsCovering(k.1); }
  }

  lemma NoSigsCovering(code: u16)
    ensures SigsCovering([], code) == []
  {}

  lemma {:induction false} CoveringConcat(a: seq<Record>, b: seq<Record>, k: SetKey)
    ensures CoveringAmong(a + b, k) == CoveringAmong(a, k) + CoveringAmong(b, k)
  {
    hide Covers;
    if b == [] {
      assert a + b == a;
    } else {
      var init := b[..|b| - 1];
      CoveringConcat(a, init, k);
      assert (a + b)[..|a + b| - 1] == a + init;
    }
  }

  /** A signature names its set: owner and type of the records it was made for. */
  lemma SignatureNamesSet(c: Crypto, s: Signer, key: SigningKey, rrset: seq<Record>, zone: text, k: SetKey)
    requires WritableSigner(zone) && SignWith(c, s, key, rrset, zone).Some?
    ensures var sig := SignWith(c, s, key, rrset, zone).value;
            && rrset != [] && sig.rtype == RRSIG
            && (Covers(sig, k) <==> RrsetKey(rrset[0]) == k)
            && var r := ReadRrsig(sig.rdata); r.Got? && r.value.inception == s.inception && r.value.expiry == s.expiry
  {
    hide ReadRrsig, RrsigWire, SignedOctets, KeyTag, PublicRdata, SignHash, ProperLabels, Labels, NameWire, Lower;
    hide OwnerLabels, Code;
    var tag := KeyTag(PublicRdata(c, key).value);
    var unsigned := Unsigned(key, rrset, zone, tag, s.inception, s.expiry);
    var signature := c.sign(key.secret, SignHash(key.algorithm), SignedOctets(unsigned, rrset)).value;
    RrsigReadsBack(unsigned.(signature := signature));
  }

  lemma OneCovers(r: Option<Record>, k: SetKey)
    ensures CoveringAmong(Listed(r), k) == if r.Some? && Covers(r.value, k) then Listed(r) else []
  {
    hide Covers;
    if r.Some? { assert [r.value][..0] == []; }
  }

  lemma SetSignaturesCover(c: Crypto, s: Signer, rrset: seq<Record>, zone: text, k: SetKey)
    requires WritableSigner(zone) && rrset != []
    ensures CoveringAmong(SetSignatures(c, s, rrset, zone), k)
            == if RrsetKey(rrset[0]) == k then SetSignatures(c, s, rrset, zone) else []
    ensures AllSigs(SetSignatures(c, s, rrset, zone))
  {
    hide Covers, SignWith, WritableSigner, RrsetKey, CoveringAmong;
    var a := SignWith(c, s, s.zsk, rrset, zone);
    OneCovers(a, k);
    if a.Some? { SignatureNamesSet(c, s, s.zsk, rrset, zone, k); }
    if rrset[0].rtype == DNSKEY && s.ksk.Some? {
      var b := SignWith(c, s, s.ksk.value, rrset, zone);
      OneCovers(b, k);
      if b.Some? { SignatureNamesSet(c, s, s.ksk.value, rrset, zone, k); }
      CoveringConcat(Listed(a), Listed(b), k);
    } else {
      assert Listed(a) + [] == Listed(a);
    }
  }

  /** Among all signatures of the zone, the ones covering a set are the set's own. */
  lemma {:induction false} SignaturesFound(c: Crypto, s: Signer, z: ZoneView, order: seq<SetKey>, k: SetKey)
    requires Keyed(z) && WritableSigner(z.origin) && forall i :: 0 <= i < |order| ==> order[i] in z.rrsets
    requires forall i, j :: 0 <= i < j < |order| ==> order[i] != order[j]
    ensures AllSigs(AllSignatures(c, s, z, order))
    ensures CoveringAmong(AllSignatures(c, s, z, order), k)
            == if k in order then SetSignatures(c, s, RrsetOr(z, k), z.origin) else []
  {
    hide SetSignatures, CoveringAmong, WritableSigner, RrsetKey, Keyed, SignWith, Lower;
    if order == [] {
      NothingCovers(k);
    } else {
      var init, last := order[..|order| - 1], order[|order| - 1];
      SignaturesFound(c, s, z, init, k);
      NamedLower(z, last);
      var own := SetSignatures(c, s, z.rrsets[last], z.origin);
      SetSignaturesCover(c, s, z.rrsets[last], z.origin, k);
      CoveringConcat(AllSignatures(c, s, z, init), own, k);
      assert order == init + [last];
      if last == k {
        assert k !in init;
        assert [] + own == own;
      }
    }
  }

  lemma NothingCovers(k: SetKey)
    ensures CoveringAmong([], k) == []
  {}

  // Keys at the apex

  /** The zone with its public keys at the apex. */
  function WithKeys(z: ZoneView, zsk: Record, ksk: Option<Record>): ZoneView {
    AddedAll(z, [zsk] + Listed(ksk))
  }

  /** The NSEC chain changes no set of another type. */
  lemma {:induction false} ChainKeepsSets(z: ZoneView, owners: seq<text>, ttl: u32, n: nat, k: SetKey)
    requires n <= |owners| && k.1 != NSEC_CODE
    ensures var y := WithNsecs(z, owners, ttl, n);
            y.origin == z.origin && (k in y.rrsets <==> k in z.rrsets) && (k in z.rrsets ==> y.rrsets[k] == z.rrsets[k])
  {
    hide NsecData, Lower;
    if n > 0 {
      ChainKeepsSets(z, owners, ttl, n - 1, k);
    }
  }

  lemma KeysAtApex(z: ZoneView, zsk: Record, ksk: Option<Record>)
    requires (Lower(z.origin), DNSKEY_CODE) !in z.rrsets
    requires zsk.rtype == DNSKEY && zsk.name == z.origin
    requires ksk.Some? ==> ksk.value.rtype == DNSKEY && ksk.value.name == z.origin
    ensures var y := WithKeys(z, zsk, ksk);
            && y.origin == z.origin
            && (Lower(z.origin), DNSKEY_CODE) in y.rrsets
            && y.rrsets[(Lower(z.origin), DNSKEY_CODE)] == [zsk] + Listed(ksk)
            && (forall k: SetKey :: k.1 != DNSKEY_CODE ==> (k in y.rrsets <==> k in z.rrsets))
  {
    hide Lower;
    var rs := [zsk] + Listed(ksk);
    assert rs[..1] == [zsk] && [zsk][..0] == [];
    assert AddedAll(z, [zsk]) == Added(AddedAll(z, []), zsk);
    if ksk.Some? {
      assert AddedAll(z, rs) == Added(AddedAll(z, [zsk]), ksk.value);
      assert [] + [zsk] + [ksk.value] == rs;
    } else {
      assert rs == [zsk];
    }
  }

  lemma {:induction false} AddedAllKeyed(z: ZoneView, rs: seq<Record>)
    requires Keyed(z)
    ensures Keyed(AddedAll(z, rs))
  {
    hide Keyed, Added;
    if rs != [] {
      AddedAllKeyed(z, rs[..|rs| - 1]);
      AddKeepsKeyed(AddedAll(z, rs[..|rs| - 1]), rs[|rs| - 1]);
    }
  }

  lemma {:induction false} ChainKeyed(z: ZoneView, owners: seq<text>, ttl: u32, n: nat)
    requires Keyed(z) && n <= |owners|
    ensures Keyed(WithNsecs(z, owners, ttl, n))
  {
    hide Keyed, Added, NsecRecord;
    if n > 0 {
      ChainKeyed(z, owners, ttl, n - 1);
      var y := WithNsecs(z, owners, ttl, n - 1);
      AddKeepsKeyed(y, NsecRecord(y, owners[n - 1], Next(owners, n - 1), ttl));
    }
  }

  // The signed zone

  /** `z` after `sign_zone`: keys, chain, signatures in the order of `order`. */
  function Prepared(z: ZoneView, zsk: Record, ksk: Option<Record>, owners: seq<text>, nsecTtl: u32): ZoneView {
    WithNsecs(WithKeys(z, zsk, ksk), owners, nsecTtl, |owners|).(nsecOwners := owners)
  }

  /** No keys and no signatures yet. */
  ghost predicate NotYetSigned(z: ZoneView) {
    (Lower(z.origin), DNSKEY_CODE) !in z.rrsets && forall k :: k in z.rrsets ==> k.1 != RRSIG_CODE
  }

  ghost predicate CanSign(c: Crypto, key: SigningKey) {
    && c.publicKey(key.secret).Some? && 1 <= |c.publicKey(key.secret).value.0| < 0x1_0000
    && forall data :: c.sign(key.secret, Sha256, data).Some?
  }

  lemma NamedLower(z: ZoneView, k: SetKey)
    requires Keyed(z) && k in z.rrsets
    ensures Lower(k.0) == k.0 && z.rrsets[k] != [] && RrsetKey(z.rrsets[k][0]) == k
  {
    LowerTwice(z.rrsets[k][0].name);
  }

  lemma OriginWritable(origin: text)
    requires ZoneName(origin)
    ensures WritableSigner(origin) && Lower(origin) == origin
  {
    ZoneNameKey(origin);
  }

  /** The zone signing key stands first among the keys, so it is found even if tags collide. */
  lemma FirstKeyFound(c: Crypto, key: SigningKey, ttl: u32, rest: seq<Record>)
    requires KeyRecord(c, key, ttl).Some?
    ensures FindsSigner([KeyRecord(c, key, ttl).value] + rest, PublicRdata(c, key).value, key.algorithm)
  {
    hide Matches, KeyTag, PublicRdata, ReadDnskey;
    MatchesItself(c, key);
  }

  /** Outside its period a signature is passed over. */
  lemma OutsidePeriod(c: Crypto, s: Signer, key: SigningKey, rrset: seq<Record>, zone: text, served: seq<Record>,
                      keys: seq<Record>, now: nat)
    requires WritableSigner(zone) && !(s.inception <= now <= s.expiry)
    ensures FirstVerdict(c, now, served, keys, Listed(SignWith(c, s, key, rrset, zone))) == Bogus
  {
    hide SignWith, WritableSigner, ReadRrsig, FindKey, VerifySignature, SignedOctets;
    var sig := SignWith(c, s, key, rrset, zone);
    if sig.Some? {
      SignatureNamesSet(c, s, key, rrset, zone, ([], 0));
      assert [sig.value][1..] == [];
    }
  }

  /** One set's signatures, zone signing key first. */
  lemma SetValidates(c: Crypto, s: Signer, rrset: seq<Record>, served: seq<Record>, zone: text, keys: seq<Record>,
      now: nat)
    requires Lawful(c) && WritableSigner(zone) && CanSign(c, s.zsk) && s.zsk.algorithm == RSASHA256
    requires FindsSigner(keys, PublicRdata(c, s.zsk).value, RSASHA256)
    requires rrset != [] && SameRrset(rrset, served)
    ensures Validate(c, now, served, SetSignatures(c, s, rrset, zone), keys)
            == if s.inception <= now <= s.expiry then Secure else Bogus
  {
    hide Lawful, SameRrset, FindsSigner, SignRrset, KeyTag, EncodeRsaKey, WritableSigner, Judge, Validate;
    var sig := SignWith(c, s, s.zsk, rrset, zone);
    assert sig.Some? by { SignsAnything(c, s, rrset, zone); }
    var rest := if rrset[0].rtype == DNSKEY
        && s.ksk.Some? then Listed(SignWith(c, s, s.ksk.value, rrset, zone)) else [];
    assert SetSignatures(c, s, rrset, zone) == [] + [sig.value] + rest;
    SignThenValidate(c, s.zsk, rrset, served, zone, s.inception, s.expiry, keys, now, [], rest);
    if !(s.inception <= now <= s.expiry) && rest != [] {
      OutsidePeriod(c, s, s.ksk.value, rrset, zone, served, keys, now);
    }
  }

  lemma SignsAnything(c: Crypto, s: Signer, rrset: seq<Record>, zone: text)
    requires CanSign(c, s.zsk) && s.zsk.algorithm == RSASHA256 && rrset != []
    ensures SignWith(c, s, s.zsk, rrset, zone).Some?
  {
    hide SignedOctets, RrsigWire, KeyTag;
  }

  lemma NoSignatureSets(z: ZoneView, zsk: Record, ksk: Option<Record>, owners: seq<text>, nsecTtl: u32, k: SetKey)
    requires NotYetSigned(z) && zsk.rtype == DNSKEY && zsk.name == z.origin
    requires ksk.Some? ==> ksk.value.rtype == DNSKEY && ksk.value.name == z.origin
    ensures var x := Prepared(z, zsk, ksk, owners, nsecTtl);
            && x.origin == z.origin
            && (Lower(z.origin), DNSKEY_CODE) in x.rrsets
            && x.rrsets[(Lower(z.origin), DNSKEY_CODE)] == [zsk] + Listed(ksk)
            && (k.1 == RRSIG_CODE ==> k !in x.rrsets)
  {
    hide Lower, WithNsecs, WithKeys;
    KeysAtApex(z, zsk, ksk);
    var y := WithKeys(z, zsk, ksk);
    ChainKeepsSets(y, owners, nsecTtl, |owners|, (Lower(z.origin), DNSKEY_CODE));
    if k.1 == RRSIG_CODE {
      ChainKeepsSets(y, owners, nsecTtl, |owners|, k);
    }
  }

  lemma PreparedKeyed(z: ZoneView, zsk: Record, ksk: Option<Record>, owners: seq<text>, nsecTtl: u32)
    requires Keyed(z)
    ensures Keyed(Prepared(z, zsk, ksk, owners, nsecTtl))
  {
    AddedAllKeyed(z, [zsk] + Listed(ksk));
    ChainKeyed(WithKeys(z, zsk, ksk), owners, nsecTtl, |owners|);
  }

  function KskRecord(c: Crypto, s: Signer, ttl: u32): Option<Record> {
    if s.ksk.Some? then KeyRecord(c, s.ksk.value, ttl) else None
  }

  /** A zone with the signer's keys at its apex, zone signing key first, and no signatures yet. */
  ghost predicate Ready(c: Crypto, s: Signer, x: ZoneView) {
    && Keyed(x) && ZoneName(x.origin) && CanSign(c, s.zsk) && s.zsk.algorithm == RSASHA256
    && (forall k: SetKey :: k.1 == RRSIG_CODE ==> k !in x.rrsets)
    && (x.origin, DNSKEY_CODE) in x.rrsets
    && FindsSigner(x.rrsets[(x.origin, DNSKEY_CODE)], PublicRdata(c, s.zsk).value, RSASHA256)
  }

  /** Adding keys and chain to an unsigned zone makes it ready. */
  lemma PreparedIsReady(c: Crypto, s: Signer, z: ZoneView, ttl: u32, owners: seq<text>, nsecTtl: u32)
    requires Keyed(z) && NotYetSigned(z) && ZoneName(z.origin)
    requires CanSign(c, s.zsk) && s.zsk.algorithm == RSASHA256 && s.zsk.name == z.origin
    requires s.ksk.Some? ==> s.ksk.value.name == z.origin
    ensures KeyRecord(c, s.zsk, ttl).Some?
            && Ready(c, s, Prepared(z, KeyRecord(c, s.zsk, ttl).value, KskRecord(c, s, ttl), owners, nsecTtl))
  {
    hide Keyed, NotYetSigned, FindsSigner, DnskeyWire, EncodeRsaKey, Prepared, Lower;
    var zsk, ksk := KeyRecord(c, s.zsk, ttl).value, KskRecord(c, s, ttl);
    var x := Prepared(z, zsk, ksk, owners, nsecTtl);
    OriginWritable(z.origin);
    PreparedKeyed(z, zsk, ksk, owners, nsecTtl);
    forall k: SetKey ensures k.1 == RRSIG_CODE ==> k !in x.rrsets {
      NoSignatureSets(z, zsk, ksk, owners, nsecTtl, k);
    }
    NoSignatureSets(z, zsk, ksk, owners, nsecTtl, (z.origin, DNSKEY_CODE));
    FirstKeyFound(c, s.zsk, ttl, Listed(ksk));
  }

  /** The zone with every set signed. */
  function SignedView(c: Crypto, s: Signer, x: ZoneView, order: seq<SetKey>): ZoneView {
    AddedAll(x, AllSignatures(c, s, x, order))
  }

  /**
   What the signed zone hands out validates: every set it holds, served in any order, with any
   TTLs and owner case, with the signatures the server sends along and against the keys at the
   apex, is Secure exactly during the signer's period, whatever order the sets were signed in.
   */
  lemma SignedZoneValidates(c: Crypto, s: Signer, x: ZoneView, order: seq<SetKey>, k: SetKey, served: seq<Record>,
      now: nat)
    requires Lawful(c) && Ready(c, s, x) && ListsSets(order, x)
    requires k in x.rrsets && SameRrset(x.rrsets[k], served)
    ensures var y := SignedView(c, s, x, order);
            && k in y.rrsets && y.rrsets[k] == x.rrsets[k] && (y.origin, DNSKEY_CODE) in y.rrsets
            && Validate(c, now, served, CoveringRrsigs(y, k.0, TypeOf(k.1)), y.rrsets[(y.origin, DNSKEY_CODE)])
               == if s.inception <= now <= s.expiry then Secure else Bogus
  {
    hide Lawful, SameRrset, FindsSigner, WritableSigner, Validate, CanSign, PublicRdata, Keyed, AllSigs, SetSignatures,
         AllSignatures, AddedAll, CoveringAmong, CoveringRrsigs, Lower;
    OriginWritable(x.origin);
    NamedLower(x, k);
    var sigs := AllSignatures(c, s, x, order);
    SignaturesFound(c, s, x, order, k);
    SignaturesAdded(x, sigs, k);
    SignaturesAdded(x, sigs, (x.origin, DNSKEY_CODE));
    NoSigsYet(x, k);
    assert k in order && RrsetOr(x, k) == x.rrsets[k];
    assert [] + SetSignatures(c, s, x.rrsets[k], x.origin) == SetSignatures(c, s, x.rrsets[k], x.origin);
    SetValidates(c, s, x.rrsets[k], served, x.origin, x.rrsets[(x.origin, DNSKEY_CODE)], now);
  }

  lemma NoSigsYet(x: ZoneView, k: SetKey)
    requires forall j: SetKey :: j.1 == RRSIG_CODE ==> j !in x.rrsets
    ensures CoveringRrsigs(x, k.0, TypeOf(k.1)) == []
  {
    hide Lower, TypeOf, SigsCovering;
    var at := (Lower(k.0), RRSIG_CODE);
    assert at !in x.rrsets;
  }

  // The denial proofs of the signed zone

  lemma AddKeepsTypes(z: ZoneView, r: Record)
    requires ProperTypes(z) && ProperType(r.rtype)
    ensures ProperTypes(Added(z, r))
  {
    hide ProperType, Lower;
    var y := Added(z, r);
    forall k, i | k in y.rrsets && 0 <= i < |y.rrsets[k]| ensures ProperType(y.rrsets[k][i].rtype) {
      if k == RrsetKey(r) && i < |RrsetOr(z, k)| {
        assert k in z.rrsets && y.rrsets[k][i] == z.rrsets[k][i];
      }
    }
  }

  predicate AllProperTypes(rs: seq<Record>) {
    forall i :: 0 <= i < |rs| ==> ProperType(rs[i].rtype)
  }

  lemma {:induction false} AddedAllTypes(z: ZoneView, rs: seq<Record>)
    requires ProperTypes(z) && AllProperTypes(rs)
    ensures ProperTypes(AddedAll(z, rs))
  {
    hide ProperTypes, Added, ProperType;
    if rs != [] {
      AddedAllTypes(z, rs[..|rs| - 1]);
      AddKeepsTypes(AddedAll(z, rs[..|rs| - 1]), rs[|rs| - 1]);
    }
  }

  lemma {:induction false} ChainTypes(z: ZoneView, owners: seq<text>, ttl: u32, n: nat)
    requires ProperTypes(z) && n <= |owners|
    ensures ProperTypes(WithNsecs(z, owners, ttl, n))
  {
    hide ProperTypes, Added, NsecData;
    if n > 0 {
      ChainTypes(z, owners, ttl, n - 1);
      var y := WithNsecs(z, owners, ttl, n - 1);
      AddKeepsTypes(y, NsecRecord(y, owners[n - 1], Next(owners, n - 1), ttl));
    }
  }

  predicate OwnedBy(rs: seq<Record>, names: set<text>) {
    forall i :: 0 <= i < |rs| ==> rs[i].rtype == RRSIG && Lower(rs[i].name) in names
  }

  lemma SetSignaturesOwned(c: Crypto, s: Signer, z: ZoneView, k: SetKey)
    requires Keyed(z) && WritableSigner(z.origin) && k in z.rrsets
    ensures OwnedBy(SetSignatures(c, s, z.rrsets[k], z.origin), z.names)
  {
    hide SignWith, WritableSigner, Lower, ReadRrsig;
    var rrset := z.rrsets[k];
    assert RrsetKey(rrset[0]) == k && k.0 in z.names;
    if SignWith(c, s, s.zsk, rrset, z.origin).Some? {
      SignatureNamesSet(c, s, s.zsk, rrset, z.origin, k);
    }
    if s.ksk.Some? && SignWith(c, s, s.ksk.value, rrset, z.origin).Some? {
      SignatureNamesSet(c, s, s.ksk.value, rrset, z.origin, k);
    }
  }

  lemma {:induction false} SignaturesOwned(c: Crypto, s: Signer, z: ZoneView, order: seq<SetKey>)
    requires Keyed(z) && WritableSigner(z.origin) && forall i :: 0 <= i < |order| ==> order[i] in z.rrsets
    ensures OwnedBy(AllSignatures(c, s, z, order), z.names)
  {
    hide SetSignatures, WritableSigner, Keyed, Lower;
    if order != [] {
      SignaturesOwned(c, s, z, order[..|order| - 1]);
      SetSignaturesOwned(c, s, z, order[|order| - 1]);
    }
  }

  lemma {:induction false} SignaturesKeepChain(x: ZoneView, rs: seq<Record>)
    requires SignedChain(x) && OwnedBy(rs, x.names)
    ensures var y := AddedAll(x, rs); SignedChain(y) && y.names == x.names && y.origin == x.origin
  {
    hide SignedChain, Lower;
    if rs != [] {
      var init, r := rs[..|rs| - 1], rs[|rs| - 1];
      SignaturesKeepChain(x, init);
      SignatureKeepsChain(AddedAll(x, init), r);
    }
  }

  lemma KeysKeepNames(z: ZoneView, zsk: Record, ksk: Option<Record>)
    requires zsk.rtype == DNSKEY && zsk.name == z.origin && ZoneName(z.origin)
    requires ksk.Some? ==> ksk.value.rtype == DNSKEY && ksk.value.name == z.origin
    ensures var y := WithKeys(z, zsk, ksk);
            y.names == z.names + {z.origin} && y.origin == z.origin && (NoNsec(z) ==> NoNsec(y))
  {
    OriginWritable(z.origin);
    hide Lower, ZoneName;
    if ksk.Some? {
      AddedTwo(z, zsk, ksk.value);
    } else {
      AddedOne(z, zsk);
      assert [zsk] + [] == [zsk];
    }
  }

  /** What `sign_zone` makes of well-formed data is a signed zone in the sense of the denial proofs. */
  lemma SigningMakesSignedZone(c: Crypto, s: Signer, z: ZoneView, zsk: Record, ksk: Option<Record>,
                               owners: seq<text>, nsecTtl: u32, order: seq<SetKey>)
    requires Keyed(z) && NoNsec(z) && ProperTypes(z) && ZoneNames(z.names) && ZoneName(z.origin)
    requires zsk.rtype == DNSKEY && zsk.name == z.origin
    requires ksk.Some? ==> ksk.value.rtype == DNSKEY && ksk.value.name == z.origin
    requires SortedListing(owners, WithKeys(z, zsk, ksk).names)
    requires ListsSets(order, Prepared(z, zsk, ksk, owners, nsecTtl))
    ensures SignedZone(SignedView(c, s, Prepared(z, zsk, ksk, owners, nsecTtl), order))
  {
    hide ZoneName, SortedListing, SignedChain, ProperTypes, Keyed, WithNsecs, WithKeys, AllSignatures, AddedAll;
    hide WritableSigner,
         OwnedBy, ProperType;
    var y, x := WithKeys(z, zsk, ksk), Prepared(z, zsk, ksk, owners, nsecTtl);
    OriginWritable(z.origin);
    KeysKeepNames(z, zsk, ksk);
    ChainIsSigned(y, owners, nsecTtl);
    PreparedKeyed(z, zsk, ksk, owners, nsecTtl);
    KeysProper(zsk, ksk);
    assert ProperTypes(y) by { TypesWithKeys(z, zsk, ksk); }
    ChainTypes(y, owners, nsecTtl, |owners|);
    assert x.rrsets == WithNsecs(y, owners, nsecTtl, |owners|).rrsets;
    assert ProperTypes(x) by { TypesOfSets(WithNsecs(y, owners, nsecTtl, |owners|), x); }
    NamesAfterChain(y, owners, nsecTtl, |owners|);
    var sigs := AllSignatures(c, s, x, order);
    SignaturesOwned(c, s, x, order);
    SignaturesKeepChain(x, sigs);
    AddedAllKeyed(x, sigs);
    SigsProper(sigs, x.names);
    AddedAllTypes(x, sigs);
  }

  lemma KeysProper(zsk: Record, ksk: Option<Record>)
    requires zsk.rtype == DNSKEY && (ksk.Some? ==> ksk.value.rtype == DNSKEY)
    ensures AllProperTypes([zsk] + Listed(ksk))
  {}

  lemma TypesWithKeys(z: ZoneView, zsk: Record, ksk: Option<Record>)
    requires ProperTypes(z) && AllProperTypes([zsk] + Listed(ksk))
    ensures ProperTypes(WithKeys(z, zsk, ksk))
  {
    AddedAllTypes(z, [zsk] + Listed(ksk));
  }

  lemma TypesOfSets(a: ZoneView, b: ZoneView)
    requires ProperTypes(a) && a.rrsets == b.rrsets
    ensures ProperTypes(b)
  {}

  lemma SigsProper(rs: seq<Record>, names: set<text>)
    requires OwnedBy(rs, names)
    ensures AllProperTypes(rs)
  {
    forall i | 0 <= i < |rs| ensures ProperType(rs[i].rtype) {
      assert rs[i].rtype == RRSIG;
    }
  }

  /** The chain is built over names the zone has. */
  lemma {:induction false} NamesAfterChain(z: ZoneView, owners: seq<text>, ttl: u32, n: nat)
    requires n <= |owners|
    ensures var y := WithNsecs(z, owners, ttl, n); y.origin == z.origin && z.names <= y.names
  {
    hide NsecData, Lower;
    if n > 0 {
      NamesAfterChain(z, owners, ttl, n - 1);
    }
  }

  // The procedure

  /** Left alone because it has keys already, stopped for want of a signature, or signed. */
  datatype Outcome = Skipped | Failed | Signed

  method ApexKey(c: Crypto, key: SigningKey, ttl: u32) returns (r: Record, tag: u16)
    requires PublicRdata(c, key).Some?
    ensures KeyRecord(c, key, ttl) == Some(r) && tag == KeyTag(r.rdata)
  {
    hide PublicRdata, KeyTag;
    var rdata := BuildDnskeyRdata(c, key);
    tag := ComputeKeyTag(rdata.value);
    r := Record(key.name, DNSKEY, 1, ttl, rdata.value);
  }

  /** The signatures of one set, or nothing when the key signing key fails on the keys. */
  method SignSet(c: Crypto, s: Signer, rrset: seq<Record>, zone: text, zskTag: u16, kskTag: u16)
    returns (sigs: Option<seq<Record>>)
    requires PublicRdata(c, s.zsk).Some? && zskTag == KeyTag(PublicRdata(c, s.zsk).value)
    requires s.ksk.Some? ==> PublicRdata(c, s.ksk.value).Some? && kskTag == KeyTag(PublicRdata(c, s.ksk.value).value)
    ensures sigs.Some? ==> sigs.value == SetSignatures(c, s, rrset, zone)
    ensures sigs.None? <==> rrset != [] && rrset[0].rtype == DNSKEY && s.ksk.Some?
                            && SignWith(c, s, s.ksk.value, rrset, zone).None?
  {
    hide PublicRdata, KeyTag, SignRrset;
    if rrset == [] { return Some([]); }
    var first := SignRrsetWithKey(c, s.zsk, rrset, zone, zskTag, s.inception, s.expiry);
    assert first == SignWith(c, s, s.zsk, rrset, zone);
    var made := if first.Some? then [first.value] else [];
    if rrset[0].rtype == DNSKEY && s.ksk.Some? {
      var second := SignRrsetWithKey(c, s.ksk.value, rrset, zone, kskTag, s.inception, s.expiry);
      assert second == SignWith(c, s, s.ksk.value, rrset, zone);
      if second.None? { return None; }
      made := made + [second.value];
    } else {
      assert made == made + [];
    }
    return Some(made);
  }

  /** The public keys join the apex; their tags go with the signatures. */
  method AddKeys(c: Crypto, zone: Zone, s: Signer, ttl: u32) returns (zskTag: u16, kskTag: u16)
    requires PublicRdata(c, s.zsk).Some?
    requires s.ksk.Some? ==> PublicRdata(c, s.ksk.value).Some?
    modifies zone
    ensures zone.View() == WithKeys(old(zone.View()), KeyRecord(c, s.zsk, ttl).value, KskRecord(c, s, ttl))
    ensures zskTag == KeyTag(PublicRdata(c, s.zsk).value)
    ensures s.ksk.Some? ==> kskTag == KeyTag(PublicRdata(c, s.ksk.value).value)
  {
    hide PublicRdata, KeyTag, Added, AddedAll;
    var zsk, tag := ApexKey(c, s.zsk, ttl);
    zskTag, kskTag := tag, 0;
    AddedOne(zone.View(), zsk);
    assert [zsk] + [] == [zsk];
    ghost var before := zone.View();
    zone.Add(zsk);
    if s.ksk.Some? {
      var ksk, other := ApexKey(c, s.ksk.value, ttl);
      AddedTwo(before, zsk, ksk);
      zone.Add(ksk);
      kskTag := other;
    }
  }

  /** Every set is signed before any signature is added. */
  method SignSets(c: Crypto, zone: Zone, s: Signer, zskTag: u16, kskTag: u16)
    returns (sigs: Option<seq<Record>>, ghost order: seq<SetKey>)
    requires PublicRdata(c, s.zsk).Some? && zskTag == KeyTag(PublicRdata(c, s.zsk).value)
    requires s.ksk.Some? ==> PublicRdata(c, s.ksk.value).Some? && kskTag == KeyTag(PublicRdata(c, s.ksk.value).value)
    ensures sigs.Some? ==> ListsSets(order, zone.View()) && sigs.value == AllSignatures(c, s, zone.View(), order)
    ensures sigs.None? ==> s.ksk.Some?
  {
    hide PublicRdata, KeyTag, SetSignatures, SignWith, Lower;
    order := [];
    var left := zone.rrsets.Keys;
    var made: seq<Record> := [];
    while left != {}
      invariant left <= zone.rrsets.Keys
      invariant ListsPart(order, zone.rrsets.Keys - left) && made == AllSignatures(c, s, zone.View(), order)
      decreases left
    {
      var k :| k in left;
      var some := SignSet(c, s, zone.rrsets[k], zone.origin, zskTag, kskTag);
      if some.None? { return None, order; }
      made := made + some.value;
      PartGrows(order, zone.rrsets.Keys - left, k);
      assert (order + [k])[..|order|] == order;
      order := order + [k];
      assert zone.rrsets.Keys - left + {k} == zone.rrsets.Keys - (left - {k});
      left := left - {k};
    }
    assert zone.rrsets.Keys - left == zone.rrsets.Keys;
    return Some(made), order;
  }

  method AddAll(zone: Zone, rs: seq<Record>)
    modifies zone
    ensures zone.View() == AddedAll(old(zone.View()), rs)
  {
    hide Added;
    for i := 0 to |rs|
      invariant zone.View() == AddedAll(old(zone.View()), rs[..i])
    {
      assert rs[..i + 1][..i] == rs[..i];
      zone.Add(rs[i]);
    }
    assert rs[..|rs|] == rs;
  }

  /** `sign_zone`, given the keys its files hold and the TTLs taken from the SOA. */
  method SignZone(c: Crypto, zone: Zone, s: Signer, keyTtl: u32, nsecTtl: u32)
    returns (outcome: Outcome, ghost owners: seq<text>, ghost order: seq<SetKey>)
    requires PublicRdata(c, s.zsk).Some?
    requires s.ksk.Some? ==> PublicRdata(c, s.ksk.value).Some?
    modifies zone
    ensures outcome == Skipped <==> Lookup(old(zone.View()), old(zone.origin), DNSKEY).Some?
    ensures outcome == Skipped ==> zone.View() == old(zone.View())
    ensures outcome != Skipped ==>
              var zsk, ksk := KeyRecord(c, s.zsk, keyTtl).value, KskRecord(c, s, keyTtl);
              var x := Prepared(old(zone.View()), zsk, ksk, owners, nsecTtl);
              && SortedListing(owners, WithKeys(old(zone.View()), zsk, ksk).names)
              && (outcome == Failed ==> s.ksk.Some? && zone.View() == x)
              && (outcome == Signed ==> ListsSets(order, x) && zone.View() == SignedView(c, s, x, order))
  {
    hide KeyRecord, KskRecord, PublicRdata, KeyTag, SortedListing, WithNsecs, WithKeys, AllSignatures, AddedAll;
    hide ListsSets, Lookup;
    owners, order := [], [];
    if Lookup(zone.View(), zone.origin, DNSKEY).Some? { return Skipped, owners, order; }
    var zskTag, kskTag := AddKeys(c, zone, s, keyTtl);
    zone.BuildNsecChain(nsecTtl);
    owners := zone.nsecOwners;
    var sigs;
    sigs, order := SignSets(c, zone, s, zskTag, kskTag);
    if sigs.None? { return Failed, owners, order; }
    AddAll(zone, sigs.value);
    return Signed, owners, order;
  }

  lemma AddedOne(z: ZoneView, r: Record)
    ensures AddedAll(z, [r]) == Added(z, r)
  {
    assert [r][..0] == [];
  }

  lemma AddedTwo(z: ZoneView, r: Record, q: Record)
    ensures AddedAll(z, [r] + [q]) == Added(Added(z, r), q)
  {
    hide Added;
    AddedOne(z, r);
    assert ([r] + [q])[..1] == [r];
  }

  lemma PartGrows(order: seq<SetKey>, part: set<SetKey>, k: SetKey)
    requires ListsPart(order, part) && k !in part
    ensures ListsPart(order + [k], part + {k})
  {
    var all := order + [k];
    forall q | q in part + {k} ensures exists i :: 0 <= i < |all| && all[i] == q {
      if q == k {
        assert all[|order|] == q;
      } else {
        var i :| 0 <= i < |order| && order[i] == q;
        assert all[i] == q;
      }
    }
  }
}
