/**
 The in-memory zone (src/zone.rs): record sets, names, and the NSEC chain over them.
 */
module Zones {
  import opened Bytes
  import opened Names
  import opened Wire
  import opened Canonical
  import opened Codec
  import Bitmap

  const NSEC_CODE: u16 := 47
  const RRSIG_CODE: u16 := 46

  /** A finished zone as it is shared between threads. */
  datatype ZoneView = ZoneView(origin: text, rrsets: map<(text, u16), seq<Record>>, names: set<text>,
                               nsecOwners: seq<text>)

  function RrsetKey(r: Record): (text, u16) {
    (Lower(r.name), Code(r.rtype))
  }

  function RrsetOr(z: ZoneView, k: (text, u16)): seq<Record> {
    if k in z.rrsets then z.rrsets[k] else []
  }

  /** The zone with one more record. */
  function Added(z: ZoneView, r: Record): ZoneView {
    z.(names := z.names + {Lower(r.name)}, rrsets := z.rrsets[RrsetKey(r) := RrsetOr(z, RrsetKey(r)) + [r]])
  }

  function Lookup(z: ZoneView, name: text, qtype: RType): Option<seq<Record>> {
    if (Lower(name), Code(qtype)) in z.rrsets then Some(z.rrsets[(Lower(name), Code(qtype))]) else None
  }

  /** The name owns records or has a name below it. */
  predicate NameExists(z: ZoneView, name: text) {
    Lower(name) in z.names || exists n :: n in z.names && EndsWith(n, [DOT] + Lower(name))
  }

  predicate Authoritative(z: ZoneView, name: text) {
    Lower(name) == z.origin || EndsWith(Lower(name), [DOT] + z.origin)
  }

  predicate IsSigned(z: ZoneView) {
    z.nsecOwners != []
  }

  // What every zone keeps

  /** Every record stands in the set of its own name and type, and every set's name is known. */
  ghost predicate Keyed(z: ZoneView) {
    && (forall k, i :: k in z.rrsets && 0 <= i < |z.rrsets[k]| ==> RrsetKey(z.rrsets[k][i]) == k)
    && (forall k :: k in z.rrsets ==> k.0 in z.names && z.rrsets[k] != [])
  }

  lemma AddKeepsKeyed(z: ZoneView, r: Record)
    requires Keyed(z)
    ensures Keyed(Added(z, r))
  {
    var y := Added(z, r);
    forall k, i | k in y.rrsets && 0 <= i < |y.rrsets[k]| ensures RrsetKey(y.rrsets[k][i]) == k {
      if k == RrsetKey(r) && i < |RrsetOr(z, k)| {
        assert k in z.rrsets && y.rrsets[k][i] == z.rrsets[k][i];
      }
    }
  }

  // The NSEC chain

  function TypesAt(z: ZoneView, owner: text): set<u16> {
    set k | k in z.rrsets && k.0 == owner :: k.1
  }

  /** The types an NSEC lists: those at its owner and the two that signing adds. */
  function NsecTypes(z: ZoneView, owner: text): set<u16> {
    TypesAt(z, owner) + {RRSIG_CODE, NSEC_CODE}
  }

  function NsecData(z: ZoneView, owner: text, next: text): bytes {
    NameWire(next) + Bitmap.Encode(NsecTypes(z, owner))
  }

  function NsecRecord(z: ZoneView, owner: text, next: text, ttl: u32): Record {
    Record(owner, NSEC, 1, ttl, NsecData(z, owner, next))
  }

  function Next(owners: seq<text>, i: nat): text
    requires i < |owners|
  {
    owners[(i + 1) % |owners|]
  }

  /** The zone after the first `n` turns of the chain-building loop. */
  function WithNsecs(z: ZoneView, owners: seq<text>, ttl: u32, n: nat): ZoneView
    requires n <= |owners|
  {
    if n == 0 then z
    else
      var y := WithNsecs(z, owners, ttl, n - 1);
      Added(y, NsecRecord(y, owners[n - 1], Next(owners, n - 1), ttl))
  }

  predicate NoDuplicates(owners: seq<text>) {
    forall i, j :: 0 <= i < j < |owners| ==> owners[i] != owners[j]
  }

  predicate Ascending(owners: seq<text>) {
    forall i, j :: 0 <= i < j < |owners| ==> CanonicalOrder(owners[i], owners[j]) != Greater
  }

  function NameSet(owners: seq<text>): set<text> {
    set i | 0 <= i < |owners| :: owners[i]
  }

  /** `owners` lists `names` once each in canonical order. */
  ghost predicate SortedListing(owners: seq<text>, names: set<text>) {
    NameSet(owners) == names && NoDuplicates(owners) && Ascending(owners)
  }

  /** All owner names are proper and below no root zone. */
  ghost predicate ZoneNames(names: set<text>) {
    forall n :: n in names ==> ZoneName(n)
  }

  predicate StrictlyAscending(owners: seq<text>) {
    forall i, j :: 0 <= i < j < |owners| ==> Before(KeyOf(owners[i]), KeyOf(owners[j]))
  }

  /**
   A signed zone: the chain's owners are all the names in strictly ascending order, and
   the one NSEC of each names the next owner, the last the first, and the types present.
   */
  ghost predicate SignedChain(z: ZoneView) {
    && |z.nsecOwners| > 0
    && NameSet(z.nsecOwners) == z.names
    && ZoneNames(z.names)
    && StrictlyAscending(z.nsecOwners)
    && forall i :: 0 <= i < |z.nsecOwners| ==> HasNsec(z, i)
  }

  ghost predicate HasNsec(z: ZoneView, i: nat)
    requires i < |z.nsecOwners|
  {
    var owner := z.nsecOwners[i];
    (owner, NSEC_CODE) in z.rrsets &&
    var rrset := z.rrsets[(owner, NSEC_CODE)];
    |rrset| == 1 && rrset[0].name == owner && rrset[0].rtype == NSEC
    && rrset[0].rdata == NsecData(z, owner, Next(z.nsecOwners, i))
  }

  lemma StrictFromSorted(owners: seq<text>, names: set<text>)
    requires SortedListing(owners, names) && ZoneNames(names)
    ensures StrictlyAscending(owners)
  {
    forall i, j | 0 <= i < j < |owners| ensures Before(KeyOf(owners[i]), KeyOf(owners[j])) {
      assert owners[i] in NameSet(owners) && owners[j] in NameSet(owners);
      KeyInjective(owners[i], owners[j]);
      KeysTotal(KeyOf(owners[i]), KeyOf(owners[j]));
      assert CanonicalOrder(owners[i], owners[j]) != Greater;
    }
  }

  /** What `n` turns of the loop did: one NSEC for each of the first `n` owners, nothing else. */
  ghost predicate ChainState(z: ZoneView, y: ZoneView, owners: seq<text>, ttl: u32, n: nat)
    requires n <= |owners|
  {
    && y.origin == z.origin && y.names == z.names
    && (forall k :: k in y.rrsets <==> k in z.rrsets || (k.1 == NSEC_CODE && AmongFirst(owners, n, k.0)))
    && (forall k :: k in z.rrsets ==> y.rrsets[k] == z.rrsets[k])
    && (forall i :: 0 <= i < n ==> TurnDone(z, y, owners, ttl, i))
  }

  ghost predicate AmongFirst(owners: seq<text>, n: nat, name: text)
    requires n <= |owners|
  {
    exists i :: 0 <= i < n && owners[i] == name
  }

  ghost predicate TurnDone(z: ZoneView, y: ZoneView, owners: seq<text>, ttl: u32, i: nat)
    requires i < |owners|
  {
    (owners[i], NSEC_CODE) in y.rrsets
    && y.rrsets[(owners[i], NSEC_CODE)] == [NsecRecord(z, owners[i], Next(owners, i), ttl)]
  }

  ghost predicate NoNsec(z: ZoneView) {
    forall k :: k in z.rrsets ==> k.1 != NSEC_CODE
  }

  lemma SameTypes(z: ZoneView, y: ZoneView, owner: text)
    requires forall t: u16 :: (owner, t) in y.rrsets <==> (owner, t) in z.rrsets
    ensures TypesAt(y, owner) == TypesAt(z, owner)
  {
    forall t: u16 ensures t in TypesAt(y, owner) <==> t in TypesAt(z, owner) {
      if t in TypesAt(y, owner) { assert (owner, t) in z.rrsets; }
      if t in TypesAt(z, owner) { assert (owner, t) in y.rrsets; }
    }
  }

  lemma ChainTurn(z: ZoneView, y: ZoneView, owners: seq<text>, ttl: u32, n: nat)
    requires n < |owners| && NoDuplicates(owners) && NoNsec(z) && owners[n] in z.names && ZoneName(owners[n])
    requires ChainState(z, y, owners, ttl, n)
    ensures ChainState(z, Added(y, NsecRecord(y, owners[n], Next(owners, n), ttl)), owners, ttl, n + 1)
  {
    hide NsecData, ZoneName, TypesAt;
    var owner := owners[n];
    ZoneNameKey(owner);
    assert !AmongFirst(owners, n, owner);
    SameTypes(z, y, owner);
    SameData(z, y, owner, Next(owners, n));
    var r := NsecRecord(y, owner, Next(owners, n), ttl);
    assert r == NsecRecord(z, owner, Next(owners, n), ttl);
    assert RrsetKey(r) == (owner, NSEC_CODE);
    var after := Added(y, r);
    assert RrsetOr(y, RrsetKey(r)) == [];
    forall name ensures AmongFirst(owners, n + 1, name) <==> AmongFirst(owners, n, name) || name == owner {
      if AmongFirst(owners, n, name) {
        var i :| 0 <= i < n && owners[i] == name;
        assert owners[i] == name && i < n + 1;
      }
      if name == owner { assert owners[n] == name; }
    }
    forall i | 0 <= i < n + 1 ensures TurnDone(z, after, owners, ttl, i) {
      if i < n { assert TurnDone(z, y, owners, ttl, i); }
    }
    assert after.names == z.names;
  }

  lemma SameData(z: ZoneView, y: ZoneView, owner: text, next: text)
    requires TypesAt(y, owner) == TypesAt(z, owner)
    ensures NsecData(y, owner, next) == NsecData(z, owner, next)
  {}

  lemma {:induction false} ChainTurns(z: ZoneView, owners: seq<text>, ttl: u32, n: nat)
    requires n <= |owners| && SortedListing(owners, z.names) && ZoneNames(z.names) && NoNsec(z)
    ensures ChainState(z, WithNsecs(z, owners, ttl, n), owners, ttl, n)
  {
    hide NsecData, ZoneName, TypesAt, ChainState, Added, NameSet, NoNsec, Ascending;
    if n == 0 {
      ChainStart(z, owners, ttl);
    } else {
      ChainTurns(z, owners, ttl, n - 1);
      OwnerListed(owners, n - 1);
      ChainTurn(z, WithNsecs(z, owners, ttl, n - 1), owners, ttl, n - 1);
    }
  }

  lemma ChainStart(z: ZoneView, owners: seq<text>, ttl: u32)
    ensures ChainState(z, z, owners, ttl, 0)
  {}

  /** The bitmap written before the NSEC and RRSIG sets exist already counts them in. */
  lemma ListedTypesKept(z: ZoneView, y: ZoneView, owner: text)
    requires forall t: u16 :: (owner, t) in z.rrsets ==> (owner, t) in y.rrsets
    requires forall t: u16 :: (owner, t) in y.rrsets && t != NSEC_CODE && t != RRSIG_CODE ==> (owner, t) in z.rrsets
    ensures NsecTypes(y, owner) == NsecTypes(z, owner)
  {
    forall t: u16 ensures t in NsecTypes(y, owner) <==> t in NsecTypes(z, owner) {
      if t in TypesAt(z, owner) { assert (owner, t) in y.rrsets; }
      if t in TypesAt(y, owner) && t != NSEC_CODE && t != RRSIG_CODE { assert (owner, t) in z.rrsets; }
    }
  }

  /** Building the chain over well-formed names makes a signed zone. */
  lemma ChainIsSigned(z: ZoneView, owners: seq<text>, ttl: u32)
    requires SortedListing(owners, z.names) && ZoneNames(z.names) && NoNsec(z) && z.names != {}
    ensures SignedChain(WithNsecs(z, owners, ttl, |owners|).(nsecOwners := owners))
  {
    hide ZoneName, NsecTypes, WithNsecs, HasNsec, ChainState, StrictlyAscending;
    ChainTurns(z, owners, ttl, |owners|);
    StrictFromSorted(owners, z.names);
    var y := WithNsecs(z, owners, ttl, |owners|);
    assert y.names == z.names by { ChainStateNames(z, y, owners, ttl); }
    forall i | 0 <= i < |owners| ensures HasNsec(y.(nsecOwners := owners), i) {
      ChainHasNsec(z, y, owners, ttl, i);
    }
  }

  lemma ChainStateNames(z: ZoneView, y: ZoneView, owners: seq<text>, ttl: u32)
    requires ChainState(z, y, owners, ttl, |owners|)
    ensures y.names == z.names
  {}

  lemma ChainHasNsec(z: ZoneView, y: ZoneView, owners: seq<text>, ttl: u32, i: nat)
    requires i < |owners| && ChainState(z, y, owners, ttl, |owners|)
    ensures HasNsec(y.(nsecOwners := owners), i)
  {
    hide NsecTypes;
    assert TurnDone(z, y, owners, ttl, i);
    ListedTypesKept(z, y, owners[i]);
    SameListing(y, owners, owners[i]);
  }

  lemma SameListing(y: ZoneView, owners: seq<text>, owner: text)
    ensures NsecTypes(y.(nsecOwners := owners), owner) == NsecTypes(y, owner)
  {}

  /** Adding a signature at an existing owner, as signing does after the chain is built, keeps it. */
  lemma SignatureKeepsChain(z: ZoneView, r: Record)
    requires SignedChain(z) && r.rtype == RRSIG && Lower(r.name) in z.names
    ensures SignedChain(Added(z, r))
  {
    hide HasNsec, ZoneNames, StrictlyAscending, NameSet, Lower;
    var y := Added(z, r);
    forall i | 0 <= i < |y.nsecOwners| ensures HasNsec(y, i) {
      NsecKept(z, r, i);
    }
    assert y.names == z.names;
  }

  lemma NsecKept(z: ZoneView, r: Record, i: nat)
    requires i < |z.nsecOwners| && HasNsec(z, i) && r.rtype == RRSIG
    ensures HasNsec(Added(z, r), i)
  {
    hide NsecTypes, Lower, NameWire, Added;
    var owner := z.nsecOwners[i];
    SignatureLeavesNsec(z, r, owner);
    SignatureKeepsTypes(z, r, owner);
    SignatureKeepsOwners(z, r);
  }

  lemma SignatureKeepsOwners(z: ZoneView, r: Record)
    ensures Added(z, r).nsecOwners == z.nsecOwners
  {}

  lemma SignatureLeavesNsec(z: ZoneView, r: Record, owner: text)
    requires r.rtype == RRSIG && (owner, NSEC_CODE) in z.rrsets
    ensures (owner, NSEC_CODE) in Added(z, r).rrsets
            && Added(z, r).rrsets[(owner, NSEC_CODE)] == z.rrsets[(owner, NSEC_CODE)]
  {
    hide Lower;
  }

  lemma SignatureKeepsTypes(z: ZoneView, r: Record, owner: text)
    requires r.rtype == RRSIG
    ensures NsecTypes(Added(z, r), owner) == NsecTypes(z, owner)
  {
    hide NsecTypes, Lower;
    var y := Added(z, r);
    forall t: u16 ensures (owner, t) in z.rrsets ==> (owner, t) in y.rrsets {}
    forall t: u16 | t != RRSIG_CODE ensures (owner, t) in y.rrsets ==> (owner, t) in z.rrsets {}
    ListedTypesKept(z, y, owner);
  }

  // The zone object

  lemma NotAfterTransitive(a: text, b: text, c: text)
    requires CanonicalOrder(a, b) != Greater && CanonicalOrder(b, c) != Greater
    ensures CanonicalOrder(a, c) != Greater
  {
    var x, y, w := KeyOf(a), KeyOf(b), KeyOf(c);
    KeysTotal(x, y);
    KeysTotal(y, w);
    if Before(x, y) && Before(y, w) { BeforeTransitive(x, y, w); }
  }

  /** One insertion of `sort_by(canonical_order)`. */
  method InsertSorted(owners: seq<text>, name: text) returns (r: seq<text>)
    requires Ascending(owners) && NoDuplicates(owners) && name !in NameSet(owners)
    ensures Ascending(r) && NoDuplicates(r) && NameSet(r) == NameSet(owners) + {name}
  {
    hide KeyOf, CompareKeys, CanonicalOrder;
    var i := |owners|;
    while i > 0 && CanonicalOrder(owners[i - 1], name) == Greater
      invariant 0 <= i <= |owners|
      invariant forall j :: i <= j < |owners| ==> CanonicalOrder(owners[j], name) == Greater
    {
      i := i - 1;
    }
    r := owners[..i] + [name] + owners[i..];
    InsertedSorted(owners, name, i);
  }

  lemma InsertedSorted(owners: seq<text>, name: text, i: nat)
    requires i <= |owners| && Ascending(owners) && NoDuplicates(owners) && name !in NameSet(owners)
    requires i > 0 ==> CanonicalOrder(owners[i - 1], name) != Greater
    requires forall j :: i <= j < |owners| ==> CanonicalOrder(owners[j], name) == Greater
    ensures var r := owners[..i] + [name] + owners[i..];
            Ascending(r) && NoDuplicates(r) && NameSet(r) == NameSet(owners) + {name}
  {
    hide CanonicalOrder, NameSet;
    forall j | 0 <= j < i ensures CanonicalOrder(owners[j], name) != Greater {
      if j < i - 1 { NotAfterTransitive(owners[j], owners[i - 1], name); }
    }
    forall j | i <= j < |owners| ensures CanonicalOrder(name, owners[j]) != Greater {
      OrderTurns(owners[j], name);
    }
    InsertedNames(owners, name, i);
    forall j | 0 <= j < |owners| ensures owners[j] != name {
      OwnerListed(owners, j);
    }
    InsertedAt(owners, name, i);
  }

  lemma OrderTurns(a: text, b: text)
    requires CanonicalOrder(a, b) == Greater
    ensures CanonicalOrder(b, a) != Greater
  {
    KeysTotal(KeyOf(b), KeyOf(a));
  }

  lemma OwnerListed(owners: seq<text>, j: nat)
    requires j < |owners|
    ensures owners[j] in NameSet(owners)
  {}

  lemma InsertedAt(owners: seq<text>, name: text, i: nat)
    requires i <= |owners| && Ascending(owners) && NoDuplicates(owners)
    requires forall j :: 0 <= j < i ==> CanonicalOrder(owners[j], name) != Greater
    requires forall j :: i <= j < |owners| ==> CanonicalOrder(name, owners[j]) != Greater
    requires forall j :: 0 <= j < |owners| ==> owners[j] != name
    ensures var r := owners[..i] + [name] + owners[i..]; Ascending(r) && NoDuplicates(r)
  {
    hide CanonicalOrder;
    var r := owners[..i] + [name] + owners[i..];
    forall a, b | 0 <= a < b < |r| ensures CanonicalOrder(r[a], r[b]) != Greater && r[a] != r[b] {
      var x := if a < i then a else a - 1;
      var y := if b < i then b else b - 1;
      if a != i && b != i {
        assert r[a] == owners[x] && r[b] == owners[y];
      } else if a == i {
        assert r[b] == owners[y];
      } else {
        assert r[a] == owners[x];
      }
    }
  }

  lemma InsertedNames(owners: seq<text>, name: text, i: nat)
    requires i <= |owners|
    ensures NameSet(owners[..i] + [name] + owners[i..]) == NameSet(owners) + {name}
  {
    var r := owners[..i] + [name] + owners[i..];
    forall n ensures n in NameSet(r) <==> n in NameSet(owners) + {name} {
      if n in NameSet(owners) {
        var j :| 0 <= j < |owners| && owners[j] == n;
        assert r[if j < i then j else j + 1] == n;
      }
      if n == name { assert r[i] == n; }
      if n in NameSet(r) {
        var j :| 0 <= j < |r| && r[j] == n;
        if j != i { assert n == owners[if j < i then j else j - 1]; }
      }
    }
  }

  method SortOwners(names: set<text>) returns (owners: seq<text>)
    ensures SortedListing(owners, names)
  {
    owners := [];
    var left := names;
    while left != {}
      invariant left <= names && SortedListing(owners, names - left)
      decreases left
    {
      var name :| name in left;
      owners := InsertSorted(owners, name);
      left := left - {name};
      assert names - left == names - (left + {name}) + {name};
    }
  }

  class Zone {
    var origin: text
    var rrsets: map<(text, u16), seq<Record>>
    var names: set<text>
    var nsecOwners: seq<text>

    function View(): ZoneView
      reads this
    {
      ZoneView(origin, rrsets, names, nsecOwners)
    }

    constructor (origin: text)
      ensures View() == ZoneView(Lower(TrimDots(origin)), map[], {}, [])
    {
      this.origin := Lower(TrimDots(origin));
      rrsets := map[];
      names := {};
      nsecOwners := [];
    }

    method Add(r: Record)
      modifies this
      ensures View() == Added(old(View()), r)
    {
      var key := (Lower(r.name), Code(r.rtype));
      names := names + {Lower(r.name)};
      rrsets := rrsets[key := (if key in rrsets then rrsets[key] else []) + [r]];
    }

    method TypesOf(owner: text) returns (types: seq<u16>)
      ensures Bitmap.Elements(types) == TypesAt(View(), owner)
    {
      types := [];
      var left := rrsets.Keys;
      while left != {}
        invariant left <= rrsets.Keys
        invariant forall t: u16 :: t in Bitmap.Elements(types) <==> (owner, t) in rrsets.Keys - left
        decreases left
      {
        var k :| k in left;
        left := left - {k};
        if k.0 == owner {
          ghost var before := types;
          types := types + [k.1];
          assert types[..|before|] == before && types[..|before| + 1] == types;
          Bitmap.ElementsSnoc(types, |before|);
        }
      }
    }

    method MakeNsec(owner: text, next: text, ttl: u32) returns (r: Record)
      ensures r == NsecRecord(View(), owner, next, ttl)
    {
      hide Bitmap.Encode, NameWire, TypesAt, NsecTypes, Bitmap.Elements;
      var types := TypesOf(owner);
      ListedElements(View(), owner, types);
      var bits := Bitmap.EncodeNsecBitmap(types + [RRSIG_CODE, NSEC_CODE]);
      var rdata := new Builder();
      rdata.Name(next);
      rdata.Raw(bits);
      r := Record(owner, NSEC, 1, ttl, rdata.buf);
    }

    method BuildNsecChain(ttl: u32)
      modifies this
      ensures SortedListing(nsecOwners, old(names))
      ensures View() == WithNsecs(old(View()), nsecOwners, ttl, |nsecOwners|).(nsecOwners := nsecOwners)
    {
      hide SortedListing, NsecRecord;
      var owners := SortOwners(names);
      for index := 0 to |owners|
        invariant View() == WithNsecs(old(View()), owners, ttl, index)
      {
        hide Added;
        var owner := owners[index];
        var next := owners[(index + 1) % |owners|];
        var nsec := MakeNsec(owner, next, ttl);
        Add(nsec);
      }
      nsecOwners := owners;
    }
  }

  lemma ListedElements(z: ZoneView, owner: text, types: seq<u16>)
    requires Bitmap.Elements(types) == TypesAt(z, owner)
    ensures Bitmap.Elements(types + [RRSIG_CODE, NSEC_CODE]) == NsecTypes(z, owner)
  {
    var all := types + [RRSIG_CODE, NSEC_CODE];
    var n := |types|;
    assert all[..n] == types && all[..n + 2] == all;
    Bitmap.ElementsSnoc(all, n);
    Bitmap.ElementsSnoc(all, n + 1);
  }
}
