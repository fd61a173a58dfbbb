/**
 Answers from an authoritative zone (`handle_query` in src/server.rs): the CNAME chase
 inside the zone, and the proofs that go with negative answers.
 */
module Answers {
  import opened Bytes
  import opened Names
  import opened Wire
  import opened RoundTrip
  import opened Canonical
  import opened Zones
  import opened Denial
  import Bitmap

  const MAX_CNAME_CHAIN: nat := 8
  const STAR: byte := 42

  // The sections of a negative answer

  function SigsCovering(sigs: seq<Record>, code: u16): seq<Record> {
    if sigs == [] then []
    else
      var sig := ReadRrsig(sigs[0].rdata);
      (if sig.Got? && sig.value.typeCovered == code then [sigs[0]] else []) + SigsCovering(sigs[1..], code)
  }

  /** `covering_rrsigs` */
  function CoveringRrsigs(z: ZoneView, name: text, t: RType): seq<Record> {
    var sigs := Lookup(z, name, RRSIG);
    if sigs.None? then [] else SigsCovering(sigs.value, Code(t))
  }

  /** `push_signed_nsec`: the stored NSEC at `owner` with its signatures. */
  function SignedNsec(z: ZoneView, owner: text): seq<Record> {
    var nsec := Lookup(z, owner, NSEC);
    if nsec.None? then [] else nsec.value + CoveringRrsigs(z, owner, NSEC)
  }

  function OptionalNsec(z: ZoneView, owner: Option<text>): seq<Record> {
    if owner.None? then [] else SignedNsec(z, owner.value)
  }

  function SoaSection(z: ZoneView, dnssecOk: bool): seq<Record> {
    var soa := Lookup(z, z.origin, SOA);
    if soa.None? then []
    else soa.value + if dnssecOk then CoveringRrsigs(z, z.origin, SOA) else []
  }

  /** The NSEC proving that an existing name lacks the type. */
  function NoDataProof(z: ZoneView, name: text): seq<Record> {
    if !IsSigned(z) then []
    else OptionalNsec(z, if Lookup(z, name, NSEC).Some? then Some(name) else CoveringOwner(z, name))
  }

  function Wildcard(encloser: text): text {
    [STAR, DOT] + encloser
  }

  /** The NSECs proving that a name and the wildcard at its closest encloser do not exist. */
  function NxDomainProof(z: ZoneView, name: text, nsec3: Option<Record>): seq<Record> {
    if nsec3.Some? then [nsec3.value]
    else if !IsSigned(z) then []
    else
      var nameOwner := CoveringOwner(z, name);
      var wildcardOwner := CoveringOwner(z, Wildcard(ClosestEncloser(z, name)));
      OptionalNsec(z, nameOwner) + if wildcardOwner == nameOwner then [] else OptionalNsec(z, wildcardOwner)
  }

  // The CNAME chase

  /** Answers so far, whether the question is answered, and the name reached. */
  datatype Chased = Chased(answers: seq<Record>, answered: bool, current: text)

  function Sigs(z: ZoneView, name: text, t: RType, dnssecOk: bool): seq<Record> {
    if dnssecOk then CoveringRrsigs(z, name, t) else []
  }

  /** The loop of `handle_query` with `steps` turns left. */
  function Chase(z: ZoneView, name: text, qtype: RType, dnssecOk: bool, steps: nat): Chased
    decreases steps
  {
    if steps == 0 then Chased([], false, name)
    else
      var found := Lookup(z, name, qtype);
      if found.Some? then Chased(found.value + Sigs(z, name, qtype, dnssecOk), true, name)
      else if qtype == CNAME then Chased([], false, name)
      else
        var cname := Lookup(z, name, CNAME);
        if cname.None? || cname.value == [] then Chased([], false, name)
        else
          var here := [cname.value[0]] + Sigs(z, name, CNAME, dnssecOk);
          var target := ReadName(cname.value[0].rdata, 0);
          if target.Fail? then Chased(here, false, name)
          else if !Authoritative(z, target.value) then Chased(here, true, name)
          else
            var rest := Chase(z, target.value, qtype, dnssecOk, steps - 1);
            rest.(answers := here + rest.answers)
  }

  /** Answer and authority sections, and whether the name does not exist. */
  datatype Reply = Reply(answers: seq<Record>, authority: seq<Record>, nxdomain: bool)

  /** The authoritative reply; `nsec3` is what `nsec3_covering` gives for a name. */
  function Answer(z: ZoneView, name: text, qtype: RType, dnssecOk: bool, nsec3: text -> Option<Record>): Reply {
    var chased := Chase(z, name, qtype, dnssecOk, MAX_CNAME_CHAIN);
    if chased.answered then Reply(chased.answers, [], false)
    else if NameExists(z, chased.current) then
      Reply(chased.answers, SoaSection(z, dnssecOk) + if dnssecOk then NoDataProof(z, chased.current) else [], false)
    else
      Reply(chased.answers,
            SoaSection(z, dnssecOk) + (if dnssecOk then NxDomainProof(z, chased.current,
                nsec3(chased.current)) else []),
            true)
  }

  // What a validator takes from a record

  /** The record is an NSEC whose interval covers the name. */
  predicate ProvesAbsent(r: Record, name: text) {
    r.rtype == NSEC && var next := ReadName(r.rdata, 0);
    next.Got? && Covers(KeyOf(r.name), KeyOf(next.value), KeyOf(name))
  }

  ghost predicate SomeProves(rs: seq<Record>, name: text) {
    exists i :: 0 <= i < |rs| && ProvesAbsent(rs[i], name)
  }

  /** The record is an NSEC whose bitmap lists the type. */
  ghost predicate ListsType(r: Record, t: u16) {
    r.rtype == NSEC && var next := ReadName(r.rdata, 0);
    next.Got? && next.next <= |r.rdata| && var ws := Bitmap.Decode(r.rdata[next.next..]);
    ws.Some? && Bitmap.Listed(ws.value, t)
  }

  lemma NsecReads(z: ZoneView, i: nat)
    requires SignedChain(z) && i < |z.nsecOwners| && HasNsec(z, i)
    ensures var rrset := z.rrsets[(z.nsecOwners[i], NSEC_CODE)];
            var next := Next(z.nsecOwners, i);
            ReadName(rrset[0].rdata, 0) == Got(next, |NameWire(next)|)
            && rrset[0].rdata[|NameWire(next)|..] == Bitmap.Encode(NsecTypes(z, z.nsecOwners[i]))
  {
    hide KeyOf, NameWire, ReadName, Bitmap.Encode, NsecTypes, StrictlyAscending;
    var next := Next(z.nsecOwners, i);
    OwnerListed(z.nsecOwners, (i + 1) % |z.nsecOwners|);
    var rdata := z.rrsets[(z.nsecOwners[i], NSEC_CODE)][0].rdata;
    assert At(rdata, 0, NameWire(next));
    ReadNameBack(rdata, 0, next);
  }

  lemma {:induction false} SigsAreSigs(sigs: seq<Record>, code: u16)
    requires forall i :: 0 <= i < |sigs| ==> sigs[i].rtype == RRSIG
    ensures forall i :: 0 <= i < |SigsCovering(sigs, code)| ==> SigsCovering(sigs, code)[i].rtype == RRSIG
  {
    hide ReadRrsig;
    if sigs != [] {
      SigsAreSigs(sigs[1..], code);
    }
  }

  lemma CodeIsType(t: RType)
    requires Code(t) == RRSIG_CODE && ProperType(t)
    ensures t == RRSIG
  {}

  /** Every record carries a type in its proper form. */
  ghost predicate ProperTypes(z: ZoneView) {
    forall k, i :: k in z.rrsets && 0 <= i < |z.rrsets[k]| ==> ProperType(z.rrsets[k][i].rtype)
  }

  lemma CoveringRrsigsAreSigs(z: ZoneView, name: text, t: RType)
    requires Keyed(z) && ProperTypes(z)
    ensures forall i :: 0 <= i < |CoveringRrsigs(z, name, t)| ==> CoveringRrsigs(z, name, t)[i].rtype == RRSIG
  {
    hide SigsCovering;
    var sigs := Lookup(z, name, RRSIG);
    if sigs.Some? {
      var k := (Lower(name), RRSIG_CODE);
      forall i | 0 <= i < |sigs.value| ensures sigs.value[i].rtype == RRSIG {
        assert RrsetKey(z.rrsets[k][i]) == k;
        CodeIsType(z.rrsets[k][i].rtype);
      }
      SigsAreSigs(sigs.value, Code(t));
    }
  }

  /** The records sent for one owner prove exactly what its interval covers. */
  lemma SignedNsecProves(z: ZoneView, i: nat, name: text)
    requires SignedChain(z) && Keyed(z) && ProperTypes(z) && i < |z.nsecOwners|
    ensures SomeProves(SignedNsec(z, z.nsecOwners[i]), name) <==> CoveredBy(z.nsecOwners, i, KeyOf(name))
  {
    hide KeyOf, NameWire, ReadName, Bitmap.Encode, CoveringRrsigs, Covers, StrictlyAscending;
    var owner := z.nsecOwners[i];
    OwnerListed(z.nsecOwners, i);
    ZoneNameKey(owner);
    assert HasNsec(z, i);
    NsecReads(z, i);
    CoveringRrsigsAreSigs(z, owner, NSEC);
    var nsec := z.rrsets[(owner, NSEC_CODE)];
    var rs := SignedNsec(z, owner);
    assert rs == nsec + CoveringRrsigs(z, owner, NSEC);
    assert rs[0] == nsec[0];
    if CoveredBy(z.nsecOwners, i, KeyOf(name)) {
      assert ProvesAbsent(rs[0], name);
    }
  }

  lemma SomeProvesConcat(a: seq<Record>, b: seq<Record>, name: text)
    ensures SomeProves(a + b, name) <==> SomeProves(a, name) || SomeProves(b, name)
  {
    hide ProvesAbsent;
    if SomeProves(a, name) {
      var i :| 0 <= i < |a| && ProvesAbsent(a[i], name);
      assert ProvesAbsent((a + b)[i], name);
    }
    if SomeProves(b, name) {
      var i :| 0 <= i < |b| && ProvesAbsent(b[i], name);
      assert ProvesAbsent((a + b)[|a| + i], name);
    }
  }

  lemma WildcardIsZoneName(encloser: text)
    requires ZoneName(encloser)
    ensures ZoneName(Wildcard(encloser))
  {
    SplitPlain([STAR]);
    SplitConcat([STAR], encloser);
    assert Wildcard(encloser) == [STAR] + [DOT] + encloser;
    assert ProperLabel([STAR]) by { assert ValidUtf8([STAR][1..]); }
    assert ProperLabels([[STAR]] + Split(encloser));
  }

  /**
   Any name answered NXDOMAIN by a signed zone comes with a stored NSEC covering it exactly
   when the name is not an owner's once its empty pieces are dropped; the wildcard at its
   closest encloser is covered exactly when it is not itself an owner.
   */
  lemma NxDomainProven(z: ZoneView, name: text)
    requires SignedChain(z) && Keyed(z) && ProperTypes(z) && ZoneName(z.origin)
    ensures SomeProves(NxDomainProof(z, name, None), name) <==> !IsOwnerKey(z.nsecOwners, KeyOf(name))
    ensures SomeProves(NxDomainProof(z, name, None), Wildcard(ClosestEncloser(z, name)))
            <==> Wildcard(ClosestEncloser(z, name)) !in z.names
  {
    hide KeyOf, ZoneName, SomeProves, SignedNsec, ClosestEncloser, Wildcard, StrictlyAscending, FirstNotBefore;
    hide CoveredBy, HasNsec, ZoneNames, IsOwnerKey;
    var owners := z.nsecOwners;
    var wildcard := Wildcard(ClosestEncloser(z, name));
    ClosestEncloserIsZoneName(z, name);
    WildcardIsZoneName(ClosestEncloser(z, name));
    var i, j := CoveringIndex(owners, KeyOf(name)), CoveringIndex(owners, KeyOf(wildcard));
    OwnerKeyIsName(z, wildcard);
    OwnerProves(z, i, name);
    OwnerProves(z, j, name);
    OwnerProves(z, i, wildcard);
    OwnerProves(z, j, wildcard);
    var first := SignedNsec(z, owners[i]);
    var second := if owners[j] == owners[i] then [] else SignedNsec(z, owners[j]);
    assert NxDomainProof(z, name, None) == first + second;
    SomeProvesConcat(first, second, name);
    SomeProvesConcat(first, second, wildcard);
    NothingProves(wildcard);
    NothingProves(name);
    if owners[i] == owners[j] { SameOwnerSameIndex(z, i, j); }
  }

  /** What the records of one owner prove, for any name. */
  lemma OwnerProves(z: ZoneView, i: nat, name: text)
    requires SignedChain(z) && Keyed(z) && ProperTypes(z) && i < |z.nsecOwners|
    ensures SomeProves(SignedNsec(z, z.nsecOwners[i]), name)
            <==> !IsOwnerKey(z.nsecOwners, KeyOf(name)) && i == CoveringIndex(z.nsecOwners, KeyOf(name))
  {
    hide SomeProves, SignedNsec, CoveredBy, IsOwnerKey, CoveringIndex, KeyOf;
    SignedNsecProves(z, i, name);
    UniqueCover(z.nsecOwners, KeyOf(name), i);
  }

  /** In particular every proper name that does not exist is covered. */
  lemma ProperNxDomainProven(z: ZoneView, name: text)
    requires SignedChain(z) && Keyed(z) && ProperTypes(z) && ZoneName(z.origin)
    requires ZoneName(name) && !NameExists(z, name)
    ensures SomeProves(NxDomainProof(z, name, None), name)
  {
    hide KeyOf, ZoneName, SomeProves, NxDomainProof, SignedChain;
    NxDomainProven(z, name);
    OwnerKeyIsName(z, name);
    NameListed(z, name);
  }

  lemma NothingProves(name: text)
    ensures !SomeProves([], name)
  {}

  lemma SameOwnerSameIndex(z: ZoneView, i: nat, j: nat)
    requires SignedChain(z) && i < |z.nsecOwners| && j < |z.nsecOwners| && z.nsecOwners[i] == z.nsecOwners[j]
    ensures i == j
  {
    BeforeStrict(KeyOf(z.nsecOwners[i]), KeyOf(z.nsecOwners[j]));
  }

  /**
   An empty non-terminal of a signed zone is answered with an NSEC that covers it and
   whose next name is below it, which is how a validator knows the name exists.
   */
  lemma EmptyNonTerminalProven(z: ZoneView, name: text)
    requires SignedChain(z) && Keyed(z) && ProperTypes(z)
    requires ZoneName(name) && name !in z.names && NameExists(z, name)
    ensures SomeProves(NoDataProof(z, name), name)
    ensures var rs := NoDataProof(z, name);
            rs != [] && ProvesAbsent(rs[0], name) && KeyOf(name) < KeyOf(ReadName(rs[0].rdata, 0).value)
  {
    hide KeyOf, ZoneName, ReadName, CoveringRrsigs, StrictlyAscending, FirstNotBefore, Covers, NameExists, NameWire,
         Bitmap.Encode;
    var owners := z.nsecOwners;
    var i := CoveringIndex(owners, KeyOf(name));
    ZoneNameKey(name);
    assert (name, NSEC_CODE) !in z.rrsets;
    NextBelowExactlyForEmptyNonTerminal(z, name);
    OwnerKeyIsName(z, name);
    UniqueCover(owners, KeyOf(name), i);
    assert HasNsec(z, i);
    NsecReads(z, i);
    OwnerListed(owners, i);
    ZoneNameKey(owners[i]);
    var rs := NoDataProof(z, name);
    assert rs == z.rrsets[(owners[i], NSEC_CODE)] + CoveringRrsigs(z, owners[i], NSEC);
    assert rs[0] == z.rrsets[(owners[i], NSEC_CODE)][0];
    assert ProvesAbsent(rs[0], name);
  }

  /**
   NODATA at a name with records comes with the name's own NSEC, which lists exactly the
   types present and the two that signing adds; so it denies the queried type exactly
   when the zone has no such record set.
   */
  lemma NoDataProven(z: ZoneView, name: text, qtype: RType)
    requires SignedChain(z) && name in z.names
    ensures var rs := NoDataProof(z, name);
            rs != [] && rs[0].rtype == NSEC && rs[0].name == name
            && (forall t: u16 :: ListsType(rs[0], t) <==> t in NsecTypes(z, name))
            && (Code(qtype) != RRSIG_CODE && Code(qtype) != NSEC_CODE
                ==> (ListsType(rs[0], Code(qtype)) <==> Lookup(z, name, qtype).Some?))
  {
    hide SignedChain, ListsType, NsecTypes, NoDataProof, Lookup;
    OwnNsecFirst(z, name);
    NsecListsTypes(z, name);
    QueriedTypeListed(z, name, qtype);
  }

  /** The name's own NSEC leads the proof. */
  lemma OwnNsecFirst(z: ZoneView, name: text)
    requires SignedChain(z) && name in z.names
    ensures (name, NSEC_CODE) in z.rrsets && |z.rrsets[(name, NSEC_CODE)]| == 1
    ensures var rs := NoDataProof(z, name);
            rs != [] && rs[0] == z.rrsets[(name, NSEC_CODE)][0] && rs[0].rtype == NSEC && rs[0].name == name
  {
    hide KeyOf, ZoneName, CoveringRrsigs, StrictlyAscending, NsecData;
    var i :| 0 <= i < |z.nsecOwners| && z.nsecOwners[i] == name;
    assert HasNsec(z, i);
    ZoneNameKey(name);
    assert NoDataProof(z, name) == z.rrsets[(name, NSEC_CODE)] + CoveringRrsigs(z, name, NSEC);
  }

  /** Its bitmap lists exactly the types at the name and the two that signing adds. */
  lemma NsecListsTypes(z: ZoneView, name: text)
    requires SignedChain(z) && name in z.names && (name, NSEC_CODE) in z.rrsets && z.rrsets[(name, NSEC_CODE)] != []
    ensures forall t: u16 :: ListsType(z.rrsets[(name, NSEC_CODE)][0], t) <==> t in NsecTypes(z, name)
  {
    hide KeyOf, ZoneName, ReadName, StrictlyAscending, NameWire, Bitmap.Encode, Bitmap.Decode, Bitmap.Listed;
    hide NsecTypes;
    var i :| 0 <= i < |z.nsecOwners| && z.nsecOwners[i] == name;
    assert HasNsec(z, i);
    NsecReads(z, i);
    DecodesTo(NsecTypes(z, name));
  }

  lemma QueriedTypeListed(z: ZoneView, name: text, qtype: RType)
    requires SignedChain(z) && name in z.names
    ensures Code(qtype) != RRSIG_CODE && Code(qtype) != NSEC_CODE ==>
              (Code(qtype) in NsecTypes(z, name) <==> Lookup(z, name, qtype).Some?)
  {
    hide ZoneName, SignedChain;
    assert ZoneName(name) by { NamesAreZoneNames(z, name); }
    ZoneNameKey(name);
    if Lookup(z, name, qtype).Some? {
      assert (name, Code(qtype)) in z.rrsets;
      assert Code(qtype) in TypesAt(z, name);
    }
  }

  lemma NamesAreZoneNames(z: ZoneView, name: text)
    requires SignedChain(z) && name in z.names
    ensures ZoneName(name)
  {}

  lemma DecodesTo(types: set<u16>)
    ensures Bitmap.Decode(Bitmap.Encode(types)).Some?
    ensures forall t: u16 :: Bitmap.Listed(Bitmap.Decode(Bitmap.Encode(types)).value, t) <==> t in types
  {
    hide Bitmap.Decode, Bitmap.Encode;
    Bitmap.DecodeEncode(types);
    assert forall t: u16 :: t / 0x100 >= 0;
  }

  // The chase against its specification

  /** Where one CNAME inside the zone leads from a name without the queried type. */
  function Hop(z: ZoneView, name: text, qtype: RType): Option<text> {
    if Lookup(z, name, qtype).Some? || qtype == CNAME then None
    else
      var cname := Lookup(z, name, CNAME);
      if cname.None? || cname.value == [] then None
      else
        var target := ReadName(cname.value[0].rdata, 0);
        if target.Got? && Authoritative(z, target.value) then Some(target.value) else None
  }

  /** The name has the queried type, or a CNAME that leaves the zone. */
  predicate Settled(z: ZoneView, name: text, qtype: RType) {
    Lookup(z, name, qtype).Some?
    || (qtype != CNAME && var cname := Lookup(z, name, CNAME);
        cname.Some? && cname.value != [] && var target := ReadName(cname.value[0].rdata, 0);
        target.Got? && !Authoritative(z, target.value))
  }

  /** The name `k` hops along. */
  function HopTo(z: ZoneView, name: text, qtype: RType, k: nat): Option<text>
    decreases k
  {
    if k == 0 then Some(name)
    else
      var next := Hop(z, name, qtype);
      if next.None? then None else HopTo(z, next.value, qtype, k - 1)
  }

  ghost predicate SettledWithin(z: ZoneView, name: text, qtype: RType, steps: nat) {
    exists k: nat :: k < steps && SettledAfter(z, name, qtype, k)
  }

  predicate SettledAfter(z: ZoneView, name: text, qtype: RType, k: nat) {
    var n := HopTo(z, name, qtype, k);
    n.Some? && Settled(z, n.value, qtype)
  }

  /** One turn of the chase: settled, one hop further, or stuck at a name without the type. */
  lemma ChaseTurn(z: ZoneView, name: text, qtype: RType, dnssecOk: bool, steps: nat)
    requires steps > 0
    ensures var c := Chase(z, name, qtype, dnssecOk, steps);
            var next := Hop(z, name, qtype);
            if Settled(z, name, qtype) then c.answered
            else if next.Some? then
              var rest := Chase(z, next.value, qtype, dnssecOk, steps - 1);
              c.answered == rest.answered && c.current == rest.current
            else !c.answered && c.current == name && Lookup(z, name, qtype).None?
  {
    hide ReadName, Authoritative, CoveringRrsigs;
  }

  /**
   The chase answers exactly when fewer than `steps` hops lead to a settled name. If it
   does not answer and had turns left, the name it stopped at lacks the type; if it used
   every turn, it stopped at a name it never looked up.
   */
  lemma {:induction false} ChaseMeaning(z: ZoneView, name: text, qtype: RType, dnssecOk: bool, steps: nat)
    ensures var c := Chase(z, name, qtype, dnssecOk, steps);
            (c.answered <==> SettledWithin(z, name, qtype, steps))
            && (!c.answered && HopTo(z, name, qtype, steps).None? ==> Lookup(z, c.current, qtype).None?)
            && (!c.answered && HopTo(z, name, qtype, steps).Some? ==> HopTo(z, name, qtype, steps) == Some(c.current))
    decreases steps
  {
    hide Hop, Settled, Lookup, Chase, SettledWithin, HopTo;
    if steps == 0 {
      NoTurns(z, name, qtype, dnssecOk);
    } else {
      ChaseTurn(z, name, qtype, dnssecOk, steps);
      SettledHasNoHop(z, name, qtype);
      HopToTurn(z, name, qtype, steps);
      SettledTurn(z, name, qtype, steps);
      var next := Hop(z, name, qtype);
      if !Settled(z, name, qtype) && next.Some? {
        ChaseMeaning(z, next.value, qtype, dnssecOk, steps - 1);
      }
    }
  }

  lemma NoTurns(z: ZoneView, name: text, qtype: RType, dnssecOk: bool)
    ensures Chase(z, name, qtype, dnssecOk, 0) == Chased([], false, name)
    ensures HopTo(z, name, qtype, 0) == Some(name) && !SettledWithin(z, name, qtype, 0)
  {}

  lemma HopToTurn(z: ZoneView, name: text, qtype: RType, k: nat)
    requires k > 0
    ensures var next := Hop(z, name, qtype);
            HopTo(z, name, qtype, k) == if next.None? then None else HopTo(z, next.value, qtype, k - 1)
  {
    hide Hop;
  }

  /** Where a settled name may lie: here, or after the next hop. */
  lemma SettledTurn(z: ZoneView, name: text, qtype: RType, steps: nat)
    requires steps > 0
    ensures var next := Hop(z, name, qtype);
            SettledWithin(z, name, qtype, steps)
            <==> Settled(z, name, qtype) || (next.Some? && SettledWithin(z, next.value, qtype, steps - 1))
  {
    hide Hop, Settled, HopTo;
    var next := Hop(z, name, qtype);
    HopToHere(z, name, qtype);
    if Settled(z, name, qtype) { assert SettledAfter(z, name, qtype, 0); }
    if next.Some? && SettledWithin(z, next.value, qtype, steps - 1) {
      var k: nat :| k < steps - 1 && SettledAfter(z, next.value, qtype, k);
      HopToTurn(z, name, qtype, k + 1);
      assert SettledAfter(z, name, qtype, k + 1);
    }
    if SettledWithin(z, name, qtype, steps) && !Settled(z, name, qtype) {
      var k: nat :| k < steps && SettledAfter(z, name, qtype, k);
      HopToTurn(z, name, qtype, k);
      assert SettledAfter(z, next.value, qtype, k - 1);
    }
  }

  lemma HopToHere(z: ZoneView, name: text, qtype: RType)
    ensures HopTo(z, name, qtype, 0) == Some(name)
  {}

  lemma SettledHasNoHop(z: ZoneView, name: text, qtype: RType)
    ensures Settled(z, name, qtype) ==> Hop(z, name, qtype).None?
  {
    hide ReadName, Authoritative;
  }

  // A chain of eight CNAMEs

  function ChainName(i: nat): (n: text)
    requires i < 26
  {
    [97 + i, DOT, 122]
  }

  function ChainKey(i: nat): (text, u16)
    requires i <= 8
  {
    (ChainName(i), if i < 8 then 5 else 1)
  }

  function ChainRecord(i: nat): Record
    requires i <= 8
  {
    if i < 8 then Record(ChainName(i), CNAME, 1, 0, NameWire(ChainName(i + 1)))
    else Record(ChainName(8), A, 1, 0, [192, 0, 2, 1])
  }

  /** Zone `z`: a.z is a CNAME for b.z and so on to i.z, which has an address. */
  function LongChain(): ZoneView {
    ZoneView([122], map k | k in ChainKeys() :: [RecordFor(k.0)], set i: nat | i <= 8 :: ChainName(i), [])
  }

  function ChainKeys(): set<(text, u16)> {
    set i: nat | i <= 8 :: ChainKey(i)
  }

  /** The chain's record at a name, told by its first letter. */
  function RecordFor(name: text): Record {
    ChainRecord(if name != [] && 97 <= name[0] < 105 then name[0] - 97 else 8)
  }

  lemma ChainNameProper(i: nat)
    requires i < 26
    ensures ProperName(ChainName(i)) && Lower(ChainName(i)) == ChainName(i)
    ensures EndsWith(ChainName(i), [DOT] + [122])
  {
    SplitPlain([97 + i]);
    SplitPlain([122]);
    SplitConcat([97 + i], [122]);
    assert ChainName(i) == [97 + i] + [DOT] + [122];
    assert ValidUtf8([97 + i][1..]) && ValidUtf8([122][1..]);
    assert ProperLabel([97 + i]) && ProperLabel([122]);
  }

  lemma ChainHop(i: nat)
    requires i < 8
    ensures Hop(LongChain(), ChainName(i), A) == Some(ChainName(i + 1))
  {
    hide NameWire, ReadName;
    ChainNameProper(i);
    ChainNameProper(i + 1);
    var z := LongChain();
    assert ChainKey(i) in z.rrsets && z.rrsets[ChainKey(i)] == [ChainRecord(i)];
    var wire := NameWire(ChainName(i + 1));
    assert At(wire, 0, wire);
    ReadNameBack(wire, 0, ChainName(i + 1));
    forall j: nat | j <= 8 ensures ChainKey(j) != (ChainName(i), 1) {
      assert ChainName(j)[0] == 97 + j;
    }
    assert (ChainName(i), 1) !in ChainKeys();
  }

  lemma {:induction false} ChainHops(i: nat, k: nat)
    requires i + k <= 8
    ensures HopTo(LongChain(), ChainName(i), A, k) == Some(ChainName(i + k))
    decreases k
  {
    hide LongChain, Hop, ChainName;
    if k > 0 {
      ChainHop(i);
      ChainHops(i + 1, k - 1);
    }
  }

  /**
   The chase gives up after eight CNAMEs without looking at the name it reached: a.z is
   answered NODATA although i.z, where the chain ends, has an address.
   */
  lemma LongChainDeniesExistingData(nsec3: text -> Option<Record>)
    ensures var reply := Answer(LongChain(), ChainName(0), A, false, nsec3);
            !reply.nxdomain && Lookup(LongChain(), Chase(LongChain(), ChainName(0), A, false, 8).current, A).Some?
            && !Chase(LongChain(), ChainName(0), A, false, 8).answered
  {
    hide Chase, Hop, HopTo, LongChain, ChainName, Settled;
    var z := LongChain();
    ChaseMeaning(z, ChainName(0), A, false, 8);
    ChainHops(0, 8);
    forall k: nat | k < 8 ensures !SettledAfter(z, ChainName(0), A, k) {
      ChainHops(0, k);
      ChainUnsettled(k);
    }
    ChainEnd();
  }

  lemma ChainUnsettled(i: nat)
    requires i < 8
    ensures !Settled(LongChain(), ChainName(i), A)
  {
    ChainHop(i);
  }

  lemma ChainEnd()
    ensures Lookup(LongChain(), ChainName(8), A).Some? && NameExists(LongChain(), ChainName(8))
  {
    ChainNameProper(8);
    assert ChainKey(8) in LongChain().rrsets;
    assert ChainName(8) in LongChain().names;
  }

  // The whole negative answer

  /** A zone signed at load: chain, apex and records in order. */
  ghost predicate SignedZone(z: ZoneView) {
    SignedChain(z) && Keyed(z) && ProperTypes(z) && ZoneName(z.origin) && z.origin in z.names
  }

  lemma SoaSectionProvesNothing(z: ZoneView, dnssecOk: bool, name: text)
    requires Keyed(z) && ProperTypes(z)
    ensures !SomeProves(SoaSection(z, dnssecOk), name)
  {
    hide KeyOf, CoveringRrsigs, Covers, ReadName;
    CoveringRrsigsAreSigs(z, z.origin, SOA);
    var k := (Lower(z.origin), Code(SOA));
    if k in z.rrsets {
      forall i | 0 <= i < |z.rrsets[k]| ensures z.rrsets[k][i].rtype != NSEC {
        assert RrsetKey(z.rrsets[k][i]) == k;
      }
    }
  }

  /** The authority section holds the NSEC of `name`, listing exactly the types present and those signing adds. */
  ghost predicate TypesProven(z: ZoneView, authority: seq<Record>, name: text) {
    exists i :: 0 <= i < |authority| && authority[i].name == name && authority[i].rtype == NSEC
                && forall t: u16 :: ListsType(authority[i], t) <==> t in NsecTypes(z, name)
  }

  /** The authority section holds an NSEC covering `name` whose next name is below it. */
  predicate NonTerminalProven(authority: seq<Record>, name: text) {
    exists i :: 0 <= i < |authority| && ProvesAbsent(authority[i], name)
                && KeyOf(name) < KeyOf(ReadName(authority[i].rdata, 0).value)
  }

  /** Case does not matter to the proof of a NODATA answer. */
  lemma NoDataLower(z: ZoneView, name: text)
    ensures NoDataProof(z, Lower(name)) == NoDataProof(z, name)
  {
    hide Lower, KeyOf, CoveringIndex, SigsCovering;
    LowerTwice(name);
    KeyOfLower(name);
    assert SignedNsec(z, Lower(name)) == SignedNsec(z, name);
  }

  lemma NonTerminalLower(authority: seq<Record>, name: text)
    ensures NonTerminalProven(authority, Lower(name)) <==> NonTerminalProven(authority, name)
  {
    hide Lower, KeyOf, Covers, ReadName;
    KeyOfLower(name);
  }

  /**
   Every negative answer of a signed zone to a DNSSEC query says NXDOMAIN exactly when the
   name it ended at does not exist. It then carries a covering NSEC exactly when that name is
   not an owner's once its empty pieces are dropped; otherwise it carries the NSEC with the
   types, or the NSEC that shows an empty non-terminal.
   */
  lemma NegativeAnswerProven(z: ZoneView, name: text, qtype: RType, nsec3: text -> Option<Record>)
    requires SignedZone(z) && forall n :: nsec3(n).None?
    requires !Chase(z, name, qtype, true, MAX_CNAME_CHAIN).answered
    ensures var current := Chase(z, name, qtype, true, MAX_CNAME_CHAIN).current;
            var reply := Answer(z, name, qtype, true, nsec3);
            var wildcard := Wildcard(ClosestEncloser(z, current));
            (reply.nxdomain <==> !NameExists(z, current))
            && (reply.nxdomain ==> (SomeProves(reply.authority, current) <==> !IsOwnerKey(z.nsecOwners, KeyOf(current)))
                                   && (SomeProves(reply.authority, wildcard) <==> wildcard !in z.names))
            && (Lower(current) in z.names ==> TypesProven(z, reply.authority, Lower(current)))
            && (!reply.nxdomain && Lower(current) !in z.names ==> NonTerminalProven(reply.authority, current))
  {
    hide KeyOf, ZoneName, Chase, NoDataProof, NxDomainProof, SoaSection, ListsType, ProvesAbsent, ClosestEncloser;
    hide Wildcard, SignedChain, ReadName, IsOwnerKey, Lower;
    var current := Chase(z, name, qtype, true, MAX_CNAME_CHAIN).current;
    var soa := SoaSection(z, true);
    if !NameExists(z, current) {
      var proof := NxDomainProof(z, current, None);
      var wildcard := Wildcard(ClosestEncloser(z, current));
      assert nsec3(current).None?;
      NxDomainProven(z, current);
      SomeProvesConcat(soa, proof, current);
      SomeProvesConcat(soa, proof, wildcard);
      SoaSectionProvesNothing(z, true, wildcard);
      SoaSectionProvesNothing(z, true, current);
    } else {
      var lower := Lower(current);
      LowerTwice(current);
      NoDataLower(z, current);
      var proof := NoDataProof(z, lower);
      var all := soa + proof;
      if lower in z.names {
        NoDataProven(z, lower, qtype);
        assert all[|soa|] == proof[0];
      } else {
        assert ZoneNames(z.names) by { ChainHasZoneNames(z); }
        ExistingIsZoneName(z, current);
        EmptyNonTerminalProven(z, lower);
        assert all[|soa|] == proof[0];
        NonTerminalLower(all, current);
      }
    }
  }

  lemma ChainHasZoneNames(z: ZoneView)
    requires SignedChain(z)
    ensures ZoneNames(z.names)
  {}

  lemma NameListed(z: ZoneView, name: text)
    requires ZoneName(name) && !NameExists(z, name)
    ensures name !in z.names
  {
    ZoneNameKey(name);
  }

  // The branch of `handle_query`, in three parts

  method FollowCnames(z: ZoneView, name: text, qtype: RType, dnssecOk: bool) returns (c: Chased)
    ensures c == Chase(z, name, qtype, dnssecOk, MAX_CNAME_CHAIN)
  {
    hide CoveringRrsigs, ReadName, Authoritative, Lookup, Chase;
    var answers: seq<Record> := [];
    var current := name;
    ghost var whole := Chase(z, name, qtype, dnssecOk, MAX_CNAME_CHAIN);
    var turn := 0;
    assert whole == ChasedAfter(answers, Chase(z, current, qtype, dnssecOk, MAX_CNAME_CHAIN - turn));
    while turn < MAX_CNAME_CHAIN
      invariant 0 <= turn <= MAX_CNAME_CHAIN
      invariant whole == ChasedAfter(answers, Chase(z, current, qtype, dnssecOk, MAX_CNAME_CHAIN - turn))
    {
      ChaseUnfolds(z, current, qtype, dnssecOk, MAX_CNAME_CHAIN - turn);
      var found := Lookup(z, current, qtype);
      if found.Some? {
        answers := answers + (found.value + if dnssecOk then CoveringRrsigs(z, current, qtype) else []);
        return Chased(answers, true, current);
      }
      assert answers + [] == answers;
      if qtype == CNAME { return Chased(answers, false, current); }
      var cname := Lookup(z, current, CNAME);
      if cname.None? || cname.value == [] { return Chased(answers, false, current); }
      var here := [cname.value[0]] + if dnssecOk then CoveringRrsigs(z, current, CNAME) else [];
      var target := ReadName(cname.value[0].rdata, 0);
      if target.Fail? {
        return Chased(answers + here, false, current);
      }
      if !Authoritative(z, target.value) {
        return Chased(answers + here, true, current);
      }
      ChasedTwice(answers, here, Chase(z, target.value, qtype, dnssecOk, MAX_CNAME_CHAIN - turn - 1));
      answers := answers + here;
      current := target.value;
      turn := turn + 1;
    }
    assert answers + [] == answers;
    ChaseEnds(z, current, qtype, dnssecOk);
    return Chased(answers, false, current);
  }

  /** One turn of the loop. */
  lemma ChaseUnfolds(z: ZoneView, name: text, qtype: RType, dnssecOk: bool, steps: nat)
    requires steps > 0
    ensures var c := Chase(z, name, qtype, dnssecOk, steps);
            var found, cname := Lookup(z, name, qtype), Lookup(z, name, CNAME);
            if found.Some? then c == Chased(found.value + Sigs(z, name, qtype, dnssecOk), true, name)
            else if qtype == CNAME || cname.None? || cname.value == [] then c == Chased([], false, name)
            else
              var here := [cname.value[0]] + Sigs(z, name, CNAME, dnssecOk);
              var target := ReadName(cname.value[0].rdata, 0);
              if target.Fail? then c == Chased(here, false, name)
              else if !Authoritative(z, target.value) then c == Chased(here, true, name)
              else c == ChasedAfter(here, Chase(z, target.value, qtype, dnssecOk, steps - 1))
  {
    hide ReadName, Authoritative, CoveringRrsigs, Lookup;
  }

  lemma ChaseEnds(z: ZoneView, name: text, qtype: RType, dnssecOk: bool)
    ensures Chase(z, name, qtype, dnssecOk, 0) == Chased([], false, name)
  {}

  /** Answers already collected put before those of the rest of the chase. */
  function ChasedAfter(answers: seq<Record>, rest: Chased): Chased {
    rest.(answers := answers + rest.answers)
  }

  lemma ChasedTwice(a: seq<Record>, b: seq<Record>, rest: Chased)
    ensures ChasedAfter(a, ChasedAfter(b, rest)) == ChasedAfter(a + b, rest)
  {
    assert a + (b + rest.answers) == a + b + rest.answers;
  }

  method CollectNoDataProof(z: ZoneView, name: text) returns (section: seq<Record>)
    requires Ascending(z.nsecOwners)
    ensures section == NoDataProof(z, name)
  {
    hide Lookup, SignedNsec, Ascending;
    section := [];
    if IsSigned(z) {
      var owner := Some(name);
      if Lookup(z, name, NSEC).None? { owner := NsecCoveringOwner(z, name); }
      if owner.Some? { section := SignedNsec(z, owner.value); }
    }
  }

  method CollectNxDomainProof(z: ZoneView, name: text, nsec3: Option<Record>) returns (section: seq<Record>)
    requires Ascending(z.nsecOwners)
    ensures section == NxDomainProof(z, name, nsec3)
  {
    hide SignedNsec, Ascending, ClosestEncloser, CoveringIndex;
    if nsec3.Some? {
      return [nsec3.value];
    }
    section := [];
    if IsSigned(z) {
      var encloser := FindClosestEncloser(z, name);
      var wildcard := [STAR, DOT] + encloser;
      var nameOwner := NsecCoveringOwner(z, name);
      var wildcardOwner := NsecCoveringOwner(z, wildcard);
      if nameOwner.Some? { section := section + SignedNsec(z, nameOwner.value); }
      if wildcardOwner.Some? && wildcardOwner != nameOwner {
        section := section + SignedNsec(z, wildcardOwner.value);
      }
    }
  }

  method AnswerAuthoritative(z: ZoneView, name: text, qtype: RType, dnssecOk: bool, nsec3: text -> Option<Record>)
    returns (reply: Reply)
    requires Ascending(z.nsecOwners)
    ensures reply == Answer(z, name, qtype, dnssecOk, nsec3)
  {
    hide Chase, CoveringRrsigs, NameExists, NoDataProof, NxDomainProof, Lookup, Ascending;
    var chased := FollowCnames(z, name, qtype, dnssecOk);
    if chased.answered { return Reply(chased.answers, [], false); }
    var authority: seq<Record> := [];
    var soa := Lookup(z, z.origin, SOA);
    if soa.Some? {
      authority := soa.value;
      if dnssecOk { authority := authority + CoveringRrsigs(z, z.origin, SOA); }
    }
    if NameExists(z, chased.current) {
      if dnssecOk {
        var proof := CollectNoDataProof(z, chased.current);
        authority := authority + proof;
      }
      return Reply(chased.answers, authority, false);
    }
    if dnssecOk {
      var proof := CollectNxDomainProof(z, chased.current, nsec3(chased.current));
      authority := authority + proof;
    }
    return Reply(chased.answers, authority, true);
  }

  // Which zone answers

  /** Zone `i` has the longest origin among the zones authoritative for the name. */
  ghost predicate LongestOrigin(zones: seq<ZoneView>, name: text, i: nat) {
    && i < |zones| && Authoritative(zones[i], name)
    && forall j :: 0 <= j < |zones| && Authoritative(zones[j], name) ==> |zones[j].origin| <= |zones[i].origin|
  }

  /** `filter(..).max_by_key(origin.len())`: the last of the longest. */
  method ChooseZone(zones: seq<ZoneView>, name: text) returns (i: Option<nat>)
    ensures i.None? ==> forall j :: 0 <= j < |zones| ==> !Authoritative(zones[j], name)
    ensures i.Some? ==> LongestOrigin(zones, name, i.value)
                        && forall j :: i.value < j < |zones| && Authoritative(zones[j], name)
                                       ==> |zones[j].origin| < |zones[i.value].origin|
  {
    hide Authoritative;
    i := None;
    for k := 0 to |zones|
      invariant i.None? ==> forall j :: 0 <= j < k ==> !Authoritative(zones[j], name)
      invariant i.Some? ==> i.value < k && Authoritative(zones[i.value], name)
      invariant i.Some? ==>
                  forall j :: 0 <= j < k && Authoritative(zones[j], name) ==>
                    |zones[j].origin| <= |zones[i.value].origin|
      invariant i.Some? ==>
                  forall j :: i.value < j < k && Authoritative(zones[j], name) ==>
                    |zones[j].origin| < |zones[i.value].origin|
    {
      if Authoritative(zones[k], name) && (i.None? || |zones[k].origin| >= |zones[i.value].origin|) {
        i := Some(k);
      }
    }
  }

  /** The longest origin is the deepest: every other zone that could answer lies above the chosen one. */
  lemma LongestIsMostSpecific(zones: seq<ZoneView>, name: text, i: nat, j: nat)
    requires LongestOrigin(zones, name, i) && j < |zones| && Authoritative(zones[j], name)
    requires ZoneName(name) && ZoneName(zones[i].origin) && ZoneName(zones[j].origin)
    ensures Within(KeyOf(zones[j].origin), KeyOf(zones[i].origin))
  {
    hide KeyOf, ZoneName, Authoritative;
    var x, y := zones[i].origin, zones[j].origin;
    AuthoritativeInTree(zones[i], name);
    AuthoritativeInTree(zones[j], name);
    if KeyOf(x) < KeyOf(y) {
      SuffixIsDescent(y, x);
    }
  }
}
