/**
 What a running server hands out of the zones it signs: signatures that are fresh, and
 negative answers whose proofs validate with what the same answer carries.
 */
module SecureAnswers {
  import opened Bytes
  import opened Wire
  import opened Canonical
  import opened SignedData
  import opened Dnssec
  import opened Zones
  import opened Answers
  import opened ZoneSigning
  import Denial

  // Loads

  /**
   One successful load of a zone at time `at`: its data, the private keys from its key files,
   the TTLs taken from its SOA, and the orders its hash maps gave.
   */
  datatype SignedLoad = SignedLoad(data: ZoneView, zsk: bytes, ksk: Option<bytes>, keyTtl: u32, nsecTtl: u32, at: nat,
                                   owners: seq<text>, order: seq<SetKey>)

  function SignerOf(l: SignedLoad): Signer {
    SignerAt(KeyFor(l.data.origin, l.zsk, ZSK_FLAGS),
             if l.ksk.Some? then Some(KeyFor(l.data.origin, l.ksk.value, KSK_FLAGS)) else None, l.at)
  }

  /** The zone with keys and chain, before its sets are signed; as it was when the key file holds no key. */
  function Unsigned(c: Crypto, l: SignedLoad): ZoneView {
    var s := SignerOf(l);
    var zsk := KeyRecord(c, s.zsk, l.keyTtl);
    if zsk.None? then l.data
    else Prepared(l.data, zsk.value, KskRecord(c, s, l.keyTtl), l.owners, l.nsecTtl)
  }

  /** The data is well formed and unsigned, the keys sign, and the orders are orders of the zone. */
  ghost predicate Signable(c: Crypto, l: SignedLoad) {
    && Keyed(l.data) && NotYetSigned(l.data) && NoNsec(l.data) && ProperTypes(l.data)
    && ZoneNames(l.data.names) && ZoneName(l.data.origin)
    && CanSign(c, SignerOf(l).zsk) && (SignerOf(l).ksk.Some? ==> CanSign(c, SignerOf(l).ksk.value))
    && KeyRecord(c, SignerOf(l).zsk, l.keyTtl).Some?
    && var keyed := WithKeys(l.data, KeyRecord(c, SignerOf(l).zsk, l.keyTtl).value,
                             KskRecord(c, SignerOf(l), l.keyTtl));
       SortedListing(l.owners, keyed.names) && ListsSets(l.order, Unsigned(c, l))
  }

  /** The zone as it is published. */
  function Published(c: Crypto, l: SignedLoad): ZoneView {
    SignedView(c, SignerOf(l), Unsigned(c, l), l.order)
  }

  lemma LoadIsSigned(c: Crypto, l: SignedLoad)
    requires Signable(c, l)
    ensures Ready(c, SignerOf(l), Unsigned(c, l)) && SignedZone(Published(c, l))
  {
    hide Keyed, NotYetSigned, NoNsec, ProperTypes, ZoneNames, ZoneName, CanSign, SortedListing, ListsSets, Ready;
    hide Prepared, SignedView, SignedZone, WithKeys, PublicRdata, SignerAt;
    var s := SignerOf(l);
    SignerKeys(l);
    PreparedIsReady(c, s, l.data, l.keyTtl, l.owners, l.nsecTtl);
    var zsk, ksk := KeyRecord(c, s.zsk, l.keyTtl).value, KskRecord(c, s, l.keyTtl);
    SigningMakesSignedZone(c, s, l.data, zsk, ksk, l.owners, l.nsecTtl, l.order);
  }

  lemma SignerKeys(l: SignedLoad)
    ensures var s := SignerOf(l);
            && s.zsk == KeyFor(l.data.origin, l.zsk, ZSK_FLAGS)
            && (s.ksk.Some? ==> s.ksk.value.name == l.data.origin)
  {}

  // Freshness

  /** The signatures of a load are in force for thirty days from it, unless the clock is about to pass 32 bits. */
  predicate InForce(at: nat, now: nat) {
    at + VALIDITY < 0x1_0000_0000 && now <= at + VALIDITY
  }

  lemma PeriodExactly(l: SignedLoad, now: nat)
    requires l.at <= now
    ensures var s := SignerOf(l); s.inception <= now <= s.expiry <==> InForce(l.at, now)
  {}

  /** The last load not after `now`. */
  function Serving(loads: seq<SignedLoad>, now: nat): (i: nat)
    requires loads != [] && loads[0].at <= now
    ensures i < |loads| && loads[i].at <= now && forall j :: i < j < |loads| ==> loads[j].at > now
  {
    if loads[|loads| - 1].at <= now then |loads| - 1 else Serving(loads[..|loads| - 1], now)
  }

  /** The verdict on a set sent with some signatures, against the keys at the zone's apex. */
  function Verdict(c: Crypto, z: ZoneView, served: seq<Record>, sigs: seq<Record>, now: nat): Validation {
    Validate(c, now, served, sigs, RrsetOr(z, (z.origin, DNSKEY_CODE)))
  }

  /** Every set but the signatures was there to be signed. */
  lemma PublishedSets(c: Crypto, s: Signer, x: ZoneView, order: seq<SetKey>, k: SetKey)
    requires Ready(c, s, x) && ListsSets(order, x) && Keyed(SignedView(c, s, x, order))
    requires k in SignedView(c, s, x, order).rrsets && k.1 != RRSIG_CODE
    ensures k in x.rrsets
  {
    hide Keyed, Lower, AllSignatures, AddedAll, WritableSigner, ZoneName, CanSign, FindsSigner, AllSigs;
    OriginWritable(x.origin);
    NamedLower(SignedView(c, s, x, order), k);
    SignaturesFound(c, s, x, order, k);
    SignaturesAdded(x, AllSignatures(c, s, x, order), k);
  }

  /** What a signed zone sends of one set, with the signatures it sends along. */
  lemma PublishedValidates(c: Crypto, s: Signer, x: ZoneView, order: seq<SetKey>, k: SetKey, served: seq<Record>,
                           now: nat)
    requires Lawful(c) && Ready(c, s, x) && ListsSets(order, x)
    requires var z := SignedView(c, s, x, order);
             Keyed(z) && k in z.rrsets && k.1 != RRSIG_CODE && SameRrset(z.rrsets[k], served)
    ensures var z := SignedView(c, s, x, order);
            Verdict(c, z, served, CoveringRrsigs(z, k.0, TypeOf(k.1)), now)
            == if s.inception <= now <= s.expiry then Secure else Bogus
  {
    hide Keyed, Ready, Lawful, ListsSets, SignedView, Validate, CoveringRrsigs;
    PublishedSets(c, s, x, order, k);
    SameSet(c, s, x, order, k);
    SignedZoneValidates(c, s, x, order, k, served, now);
  }

  lemma SameSet(c: Crypto, s: Signer, x: ZoneView, order: seq<SetKey>, k: SetKey)
    requires Lawful(c) && Ready(c, s, x) && ListsSets(order, x) && k in x.rrsets
    ensures var z := SignedView(c, s, x, order); k in z.rrsets && z.rrsets[k] == x.rrsets[k]
  {
    hide Ready, Lawful, ListsSets, SignedView, Validate, CoveringRrsigs;
    assert SameRrset(x.rrsets[k], x.rrsets[k]);
    SignedZoneValidates(c, s, x, order, k, x.rrsets[k], 0);
  }

  /**
   Whatever loads a server has made, whatever it loaded each time and with whatever keys: at
   any later moment each set it serves is Secure exactly while the last successful load is no
   more than thirty days old.
   */
  lemma ServedIsFreshExactly(c: Crypto, loads: seq<SignedLoad>, k: SetKey, served: seq<Record>, now: nat)
    requires Lawful(c) && loads != [] && loads[0].at <= now
    requires forall i :: 0 <= i < |loads| ==> Signable(c, loads[i])
    requires var z := Published(c, loads[Serving(loads, now)]);
             k in z.rrsets && k.1 != RRSIG_CODE && SameRrset(z.rrsets[k], served)
    ensures var l := loads[Serving(loads, now)];
            var z := Published(c, l);
            Verdict(c, z, served, CoveringRrsigs(z, k.0, TypeOf(k.1)), now)
            == if InForce(l.at, now) then Secure else Bogus
  {
    hide Ready, Lawful, ListsSets, SignedView, Verdict, CoveringRrsigs, Unsigned, SignerAt, SameRrset, KeyRecord;
    hide InForce, SignedChain, Keyed;
    var l := loads[Serving(loads, now)];
    LoadIsSigned(c, l);
    assert ListsSets(l.order, Unsigned(c, l));
    var s := SignerOf(l);
    PeriodExactly(l, now);
    PublishedValidates(c, s, Unsigned(c, l), l.order, k, served, now);
  }

  /** How often the reload watcher loads every zone again, in seconds. */
  const RESIGN_INTERVAL: nat := 86_400

  /** Up to `now` no load was later than `gap` after the one before it. */
  predicate ReloadedEvery(loads: seq<SignedLoad>, gap: nat, now: nat) {
    && loads != [] && now <= loads[|loads| - 1].at + gap
    && forall i :: 0 <= i < |loads| - 1 ==> loads[i + 1].at <= loads[i].at + gap
  }

  /** A server that loads its zones daily never serves an expired signature, nor when loads fail 28 days in a row. */
  lemma DailyReloadsStayFresh(c: Crypto, loads: seq<SignedLoad>, missed: nat, k: SetKey, served: seq<Record>, now: nat)
    requires Lawful(c) && loads != [] && loads[0].at <= now && now < 0x1_0000_0000 - VALIDITY
    requires missed <= 28 && ReloadedEvery(loads, (missed + 2) * RESIGN_INTERVAL, now)
    requires forall i :: 0 <= i < |loads| ==> Signable(c, loads[i])
    requires var z := Published(c, loads[Serving(loads, now)]);
             k in z.rrsets && k.1 != RRSIG_CODE && SameRrset(z.rrsets[k], served)
    ensures var z := Published(c, loads[Serving(loads, now)]);
            Verdict(c, z, served, CoveringRrsigs(z, k.0, TypeOf(k.1)), now) == Secure
  {
    hide Published, Verdict, CoveringRrsigs, SameRrset, Signable, Lawful;
    ServedIsFreshExactly(c, loads, k, served, now);
  }

  // The sections of a negative answer

  /** The records of one set in a section. */
  function SetIn(section: seq<Record>, k: SetKey): seq<Record> {
    if section == [] then []
    else
      var r := section[|section| - 1];
      SetIn(section[..|section| - 1], k) + if r.rtype != RRSIG && RrsetKey(r) == k then [r] else []
  }

  /** The signatures a section carries for one set. */
  function SigsIn(section: seq<Record>, k: SetKey): seq<Record> {
    if section == [] then []
    else
      var r := section[|section| - 1];
      SigsIn(section[..|section| - 1], k) + if r.rtype == RRSIG && Covers(r, k) then [r] else []
  }

  lemma SectionSnoc(section: seq<Record>, r: Record, k: SetKey)
    ensures SetIn(section + [r], k)
            == SetIn(section, k) + if r.rtype != RRSIG && RrsetKey(r) == k then [r] else []
    ensures SigsIn(section + [r], k) == SigsIn(section, k) + if r.rtype == RRSIG && Covers(r, k) then [r] else []
  {
    hide RrsetKey, Covers;
    assert (section + [r])[..|section|] == section;
  }

  lemma NothingIn(k: SetKey)
    ensures SetIn([], k) == [] && SigsIn([], k) == []
  {}

  lemma {:induction false} SectionConcat(a: seq<Record>, b: seq<Record>, k: SetKey)
    ensures SetIn(a + b, k) == SetIn(a, k) + SetIn(b, k) && SigsIn(a + b, k) == SigsIn(a, k) + SigsIn(b, k)
  {
    hide SetIn, SigsIn, Covers, RrsetKey;
    if b == [] {
      assert a + b == a;
      NothingIn(k);
    } else {
      var init, r := b[..|b| - 1], b[|b| - 1];
      assert b == init + [r] && a + b == a + init + [r];
      SectionConcat(a, init, k);
      SectionSnoc(a + init, r, k);
      SectionSnoc(init, r, k);
    }
  }

  /** A set of the zone followed by the signatures that cover it. */
  function SignedSet(z: ZoneView, k: SetKey): seq<Record> {
    RrsetOr(z, k) + CoveringRrsigs(z, k.0, TypeOf(k.1))
  }

  function SignedSets(z: ZoneView, ks: seq<SetKey>): seq<Record> {
    if ks == [] then [] else SignedSets(z, ks[..|ks| - 1]) + SignedSet(z, ks[|ks| - 1])
  }

  /** Different sets of the zone, none of them signatures. */
  predicate ListsData(z: ZoneView, ks: seq<SetKey>) {
    && (forall i :: 0 <= i < |ks| ==> ks[i] in z.rrsets && ks[i].1 != RRSIG_CODE)
    && (forall i, j :: 0 <= i < j < |ks| ==> ks[i] != ks[j])
  }

  predicate AllOfKey(rs: seq<Record>, k: SetKey) {
    forall i :: 0 <= i < |rs| ==> rs[i].rtype != RRSIG && RrsetKey(rs[i]) == k
  }

  predicate AllCover(rs: seq<Record>, k: SetKey) {
    forall i :: 0 <= i < |rs| ==> rs[i].rtype == RRSIG && Covers(rs[i], k)
  }

  lemma {:induction false} DataOfOneSet(rs: seq<Record>, j: SetKey, k: SetKey)
    requires AllOfKey(rs, j)
    ensures SetIn(rs, k) == (if j == k then rs else []) && SigsIn(rs, k) == []
  {
    hide SetIn, SigsIn, RrsetKey, Covers;
    if rs == [] {
      NothingIn(k);
    } else {
      var init, r := rs[..|rs| - 1], rs[|rs| - 1];
      DataOfOneSet(init, j, k);
      assert rs == init + [r];
      SectionSnoc(init, r, k);
    }
  }

  lemma {:induction false} SigsOfOneSet(rs: seq<Record>, j: SetKey, k: SetKey)
    requires AllCover(rs, j)
    ensures SigsIn(rs, k) == (if j == k then rs else []) && SetIn(rs, k) == []
  {
    hide SetIn, SigsIn, RrsetKey, Covers;
    if rs == [] {
      NothingIn(k);
    } else {
      var init, r := rs[..|rs| - 1], rs[|rs| - 1];
      SigsOfOneSet(init, j, k);
      assert rs == init + [r];
      SectionSnoc(init, r, k);
      CoversOne(r, j, k);
    }
  }

  lemma CoversOne(r: Record, j: SetKey, k: SetKey)
    requires Covers(r, j)
    ensures Covers(r, k) <==> j == k
  {
    hide ReadRrsig, Lower;
  }

  lemma {:induction false} FoundSigsCover(sigs: seq<Record>, k: SetKey)
    requires forall i :: 0 <= i < |sigs| ==> sigs[i].rtype == RRSIG && Lower(sigs[i].name) == k.0
    ensures AllCover(SigsCovering(sigs, k.1), k)
  {
    hide ReadRrsig, Lower;
    if sigs != [] {
      FoundSigsCover(sigs[1..], k);
    }
  }

  lemma ZoneSigsCover(z: ZoneView, k: SetKey)
    requires Keyed(z) && ProperTypes(z) && Lower(k.0) == k.0
    ensures AllCover(CoveringRrsigs(z, k.0, TypeOf(k.1)), k)
  {
    hide SigsCovering, Lower, Covers;
    TypeOfCode(k.1);
    var sigs := (k.0, RRSIG_CODE);
    if sigs in z.rrsets {
      forall i | 0 <= i < |z.rrsets[sigs]|
        ensures z.rrsets[sigs][i].rtype == RRSIG && Lower(z.rrsets[sigs][i].name) == k.0
      {
        assert RrsetKey(z.rrsets[sigs][i]) == sigs;
        CodeIsType(z.rrsets[sigs][i].rtype);
      }
      FoundSigsCover(z.rrsets[sigs], k);
    }
  }

  lemma DataIsOfKey(z: ZoneView, k: SetKey)
    requires Keyed(z) && k in z.rrsets && k.1 != RRSIG_CODE
    ensures AllOfKey(z.rrsets[k], k)
  {}

  lemma SetFound(z: ZoneView, j: SetKey, k: SetKey)
    requires Keyed(z) && ProperTypes(z) && j in z.rrsets && j.1 != RRSIG_CODE
    ensures SetIn(SignedSet(z, j), k) == (if j == k then RrsetOr(z, k) else [])
    ensures SigsIn(SignedSet(z, j), k) == if j == k then CoveringRrsigs(z, k.0, TypeOf(k.1)) else []
  {
    hide Keyed, ProperTypes, AllOfKey, AllCover, CoveringRrsigs, Lower, SetIn, SigsIn;
    NamedLower(z, j);
    DataIsOfKey(z, j);
    ZoneSigsCover(z, j);
    var data, sigs := z.rrsets[j], CoveringRrsigs(z, j.0, TypeOf(j.1));
    DataOfOneSet(data, j, k);
    SigsOfOneSet(sigs, j, k);
    SectionConcat(data, sigs, k);
    assert data + [] == data;
  }

  lemma ListsLess(z: ZoneView, ks: seq<SetKey>, k: SetKey)
    requires ListsData(z, ks) && ks != []
    ensures var init, j := ks[..|ks| - 1], ks[|ks| - 1];
            && ListsData(z, init) && j in z.rrsets && j.1 != RRSIG_CODE
            && (k in ks <==> k in init || k == j) && j !in init
  {
    assert ks == ks[..|ks| - 1] + [ks[|ks| - 1]];
  }

  /** A set sent with its signatures is found in the section whole, with its signatures and no others. */
  lemma {:induction false} SetsFound(z: ZoneView, ks: seq<SetKey>, k: SetKey)
    requires Keyed(z) && ProperTypes(z) && ListsData(z, ks)
    ensures SetIn(SignedSets(z, ks), k) == (if k in ks then RrsetOr(z, k) else [])
    ensures SigsIn(SignedSets(z, ks), k) == if k in ks then CoveringRrsigs(z, k.0, TypeOf(k.1)) else []
  {
    hide Keyed, ProperTypes, ListsData, CoveringRrsigs, SetIn, SigsIn, SignedSet, RrsetOr;
    if ks == [] {
      NothingIn(k);
    } else {
      var init, j := ks[..|ks| - 1], ks[|ks| - 1];
      ListsLess(z, ks, k);
      SetsFound(z, init, k);
      SetFound(z, j, k);
      SectionConcat(SignedSets(z, init), SignedSet(z, j), k);
    }
  }

  const SOA_CODE: u16 := 6

  /** The owners whose NSECs a negative answer sends. */
  function SentOwners(z: ZoneView, current: text): seq<text>
    requires z.nsecOwners != []
  {
    var owner := Denial.CoveringOwner(z, current).value;
    if NameExists(z, current) then [if Lookup(z, current, NSEC).Some? then Lower(current) else owner]
    else
      var other := Denial.CoveringOwner(z, Wildcard(Denial.ClosestEncloser(z, current))).value;
      [owner] + if other == owner then [] else [other]
  }

  function NsecKeys(owners: seq<text>): (ks: seq<SetKey>)
    ensures |ks| == |owners| && forall i :: 0 <= i < |ks| ==> ks[i] == (owners[i], NSEC_CODE)
  {
    seq(|owners|, i requires 0 <= i < |owners| => (owners[i], NSEC_CODE))
  }

  /** The sets a negative answer sends, in order. */
  function SentSets(z: ZoneView, current: text): seq<SetKey>
    requires z.nsecOwners != []
  {
    (if (Lower(z.origin), SOA_CODE) in z.rrsets then [(Lower(z.origin), SOA_CODE)] else [])
    + NsecKeys(SentOwners(z, current))
  }

  lemma {:induction false} SignedSetsConcat(z: ZoneView, a: seq<SetKey>, b: seq<SetKey>)
    ensures SignedSets(z, a + b) == SignedSets(z, a) + SignedSets(z, b)
  {
    hide SignedSet;
    if b == [] {
      assert a + b == a;
    } else {
      var init := b[..|b| - 1];
      SignedSetsConcat(z, a, init);
      assert (a + b)[..|a + b| - 1] == a + init;
    }
  }

  lemma OneSignedSet(z: ZoneView, k: SetKey)
    ensures SignedSets(z, [k]) == SignedSet(z, k)
  {
    hide SignedSet;
    assert [k][..0] == [];
  }

  lemma SoaIsSet(z: ZoneView)
    ensures var k := (Lower(z.origin), SOA_CODE);
            SoaSection(z, true) == SignedSets(z, if k in z.rrsets then [k] else [])
  {
    hide Lower, SigsCovering;
    LowerTwice(z.origin);
    OneSignedSet(z, (Lower(z.origin), SOA_CODE));
    assert TypeOf(SOA_CODE) == SOA;
  }

  lemma NsecIsSet(z: ZoneView, owner: text)
    requires (Lower(owner), NSEC_CODE) in z.rrsets
    ensures SignedNsec(z, owner) == SignedSets(z, NsecKeys([Lower(owner)]))
  {
    hide Lower, SigsCovering;
    LowerTwice(owner);
    OneSignedSet(z, (Lower(owner), NSEC_CODE));
    assert NsecKeys([Lower(owner)]) == [(Lower(owner), NSEC_CODE)];
    assert TypeOf(NSEC_CODE) == NSEC;
  }

  lemma CoveringOwnerSigned(z: ZoneView, name: text)
    requires SignedChain(z)
    ensures var owner := Denial.CoveringOwner(z, name);
            owner.Some? && Lower(owner.value) == owner.value && (owner.value, NSEC_CODE) in z.rrsets
  {
    hide KeyOf, ZoneName, StrictlyAscending, NsecData, Lower, Denial.FirstNotBefore;
    var i := Denial.CoveringIndex(z.nsecOwners, KeyOf(name));
    OwnerListed(z.nsecOwners, i);
    ZoneNameKey(z.nsecOwners[i]);
    assert HasNsec(z, i);
  }

  /** The proof of a negative answer consists of whole NSEC sets with their signatures. */
  lemma ProofIsSets(z: ZoneView, current: text)
    requires SignedChain(z)
    ensures (if NameExists(z, current) then NoDataProof(z, current) else NxDomainProof(z, current, None))
            == SignedSets(z, NsecKeys(SentOwners(z, current)))
    ensures ListsData(z, NsecKeys(SentOwners(z, current)))
  {
    hide KeyOf, StrictlyAscending, Lower, NameExists, Denial.CoveringOwner, Denial.ClosestEncloser, Wildcard;
    hide SignedNsec, SignedSets, HasNsec, ZoneNames;
    CoveringOwnerSigned(z, current);
    var owner := Denial.CoveringOwner(z, current).value;
    NsecIsSet(z, owner);
    if NameExists(z, current) {
      if Lookup(z, current, NSEC).Some? { NsecIsSet(z, current); }
    } else {
      var wildcard := Wildcard(Denial.ClosestEncloser(z, current));
      CoveringOwnerSigned(z, wildcard);
      var other := Denial.CoveringOwner(z, wildcard).value;
      if other != owner {
        NsecIsSet(z, other);
        SignedSetsConcat(z, NsecKeys([owner]), NsecKeys([other]));
        assert NsecKeys(SentOwners(z, current)) == NsecKeys([owner]) + NsecKeys([other]);
      } else {
        assert SentOwners(z, current) == [owner];
      }
    }
  }

  lemma AuthorityIsSets(z: ZoneView, name: text, qtype: RType, nsec3: text -> Option<Record>)
    requires SignedChain(z) && forall n :: nsec3(n).None?
    requires !Chase(z, name, qtype, true, MAX_CNAME_CHAIN).answered
    ensures var ks := SentSets(z, Chase(z, name, qtype, true, MAX_CNAME_CHAIN).current);
            Answer(z, name, qtype, true, nsec3).authority == SignedSets(z, ks) && ListsData(z, ks)
  {
    hide Chase, NameExists, SoaSection, NoDataProof, NxDomainProof, SignedSets, Lower, SentOwners, SignedChain;
    var current := Chase(z, name, qtype, true, MAX_CNAME_CHAIN).current;
    assert nsec3(current).None?;
    assert z.nsecOwners != [] by { ChainNotEmpty(z); }
    SoaIsSet(z);
    ProofIsSets(z, current);
    var k := (Lower(z.origin), SOA_CODE);
    SignedSetsConcat(z, if k in z.rrsets then [k] else [], NsecKeys(SentOwners(z, current)));
  }

  lemma ChainNotEmpty(z: ZoneView)
    requires SignedChain(z)
    ensures z.nsecOwners != []
  {}

  lemma {:induction false} SetOfRecord(z: ZoneView, ks: seq<SetKey>, i: nat)
    requires Keyed(z) && ProperTypes(z) && ListsData(z, ks)
    requires i < |SignedSets(z, ks)| && SignedSets(z, ks)[i].rtype != RRSIG
    ensures RrsetKey(SignedSets(z, ks)[i]) in ks
  {
    hide Keyed, ProperTypes, ListsData, AllOfKey, AllCover, CoveringRrsigs, Lower, RrsetKey, SignedSet;
    var init, j := ks[..|ks| - 1], ks[|ks| - 1];
    ListsLess(z, ks, j);
    var before := SignedSets(z, init);
    if i < |before| {
      SetOfRecord(z, init, i);
      ListsLess(z, ks, RrsetKey(before[i]));
    } else {
      NamedLower(z, j);
      DataIsOfKey(z, j);
      ZoneSigsCover(z, j);
      InSignedSet(z, j, i - |before|);
    }
  }

  lemma InSignedSet(z: ZoneView, k: SetKey, i: nat)
    requires k in z.rrsets && AllOfKey(z.rrsets[k], k) && AllCover(CoveringRrsigs(z, k.0, TypeOf(k.1)), k)
    requires i < |SignedSet(z, k)| && SignedSet(z, k)[i].rtype != RRSIG
    ensures RrsetKey(SignedSet(z, k)[i]) == k
  {
    hide CoveringRrsigs, RrsetKey, Covers;
    var data, sigs := z.rrsets[k], CoveringRrsigs(z, k.0, TypeOf(k.1));
    assert forall j :: 0 <= j < |sigs| ==> sigs[j].rtype == RRSIG;
    assert forall j :: 0 <= j < |sigs| ==> (data + sigs)[|data| + j] == sigs[j];
  }

  /**
   Every record of a negative answer's authority section that is not a signature -- the SOA
   and each NSEC of the proof -- belongs to a set that stands whole in the section and is
   Secure against the zone's keys, with the signatures found in the same section, exactly
   while the load that signed them is no more than thirty days old.
   */
  lemma NegativeAnswerValidates(c: Crypto, l: SignedLoad, name: text, qtype: RType, nsec3: text -> Option<Record>,
                                i: nat, now: nat)
    requires Lawful(c) && Signable(c, l) && l.at <= now && forall n :: nsec3(n).None?
    requires !Chase(Published(c, l), name, qtype, true, MAX_CNAME_CHAIN).answered
    requires var section := Answer(Published(c, l), name, qtype, true, nsec3).authority;
             i < |section| && section[i].rtype != RRSIG
    ensures var z := Published(c, l);
            var section := Answer(z, name, qtype, true, nsec3).authority;
            var k := RrsetKey(section[i]);
            && k in z.rrsets && SetIn(section, k) == z.rrsets[k]
            && Verdict(c, z, SetIn(section, k), SigsIn(section, k), now) == if InForce(l.at, now) then Secure else Bogus
  {
    hide Lawful, Answer, Chase, Published, SignedChain, Keyed, ProperTypes, ListsData, SentSets, Verdict, InForce;
    hide RrsetKey, CoveringRrsigs, SetIn, SigsIn, SignedSets, SameRrset, Signable;
    var z := Published(c, l);
    var section := Answer(z, name, qtype, true, nsec3).authority;
    assert SignedZone(z) by { LoadIsSigned(c, l); }
    assert z.nsecOwners != [] by { ChainNotEmpty(z); }
    AuthorityIsSets(z, name, qtype, nsec3);
    var ks := SentSets(z, Chase(z, name, qtype, true, MAX_CNAME_CHAIN).current);
    SetOfRecord(z, ks, i);
    var k := RrsetKey(section[i]);
    SetsFound(z, ks, k);
    SentIsData(z, ks, k);
    assert SameRrset(z.rrsets[k], z.rrsets[k]) by { SameAsItself(z.rrsets[k]); }
    ServedIsFreshExactly(c, [l], k, z.rrsets[k], now);
  }

  lemma SentIsData(z: ZoneView, ks: seq<SetKey>, k: SetKey)
    requires ListsData(z, ks) && k in ks
    ensures k in z.rrsets && k.1 != RRSIG_CODE
  {}

  lemma SameAsItself(rs: seq<Record>)
    ensures SameRrset(rs, rs)
  {}
}
