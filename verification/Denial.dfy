/**
 Authenticated denial of existence (src/zone.rs, negative answers of src/server.rs;
 sections 3.1.3.1 and 3.1.3.2 of RFC 4035): the NSEC found by the search covers the
 name, the closest encloser is the longest existing ancestor.
 */
module Denial {
  import opened Bytes
  import opened Names
  import opened RoundTrip
  import opened Canonical
  import opened Zones

  // The covering NSEC

  /** `k` lies strictly between an owner and the next one, going round after the last. */
  predicate Covers(owner: Key, next: Key, k: Key) {
    if Before(owner, next) then Before(owner, k) && Before(k, next) else Before(owner, k) || Before(k, next)
  }

  /** How many owners, from the front, sort before `k`. */
  function FirstNotBefore(owners: seq<text>, k: Key): (p: nat)
    ensures p <= |owners|
  {
    if owners == [] || !Before(KeyOf(owners[0]), k) then 0 else 1 + FirstNotBefore(owners[1..], k)
  }

  lemma {:induction false} FirstNotBeforeSplits(owners: seq<text>, k: Key)
    requires Ascending(owners)
    ensures forall i :: 0 <= i < |owners| ==> (Before(KeyOf(owners[i]), k) <==> i < FirstNotBefore(owners, k))
  {
    if owners != [] {
      AscendingTail(owners);
      FirstNotBeforeSplits(owners[1..], k);
      forall i | 0 <= i < |owners| ensures Before(KeyOf(owners[i]), k) <==> i < FirstNotBefore(owners, k) {
        if i > 0 {
          assert owners[i] == owners[1..][i - 1];
          if Before(KeyOf(owners[i]), k) {
            assert CanonicalOrder(owners[0], owners[i]) != Greater;
            KeysTotal(KeyOf(owners[0]), KeyOf(owners[i]));
            if KeyOf(owners[0]) != KeyOf(owners[i]) { BeforeTransitive(KeyOf(owners[0]), KeyOf(owners[i]), k); }
          }
        }
      }
    }
  }

  lemma AscendingTail(owners: seq<text>)
    requires Ascending(owners) && owners != []
    ensures Ascending(owners[1..])
  {
    hide CanonicalOrder;
    var rest := owners[1..];
    forall i, j | 0 <= i < j < |rest| ensures CanonicalOrder(rest[i], rest[j]) != Greater {
      assert rest[i] == owners[i + 1] && rest[j] == owners[j + 1];
    }
  }

  lemma StrictIsAscending(owners: seq<text>)
    requires StrictlyAscending(owners)
    ensures Ascending(owners)
  {}

  /** `slice::partition_point` on the sorted owners, as a binary search. */
  method PartitionPoint(owners: seq<text>, name: text) returns (p: nat)
    requires Ascending(owners)
    ensures p == FirstNotBefore(owners, KeyOf(name))
  {
    hide KeyOf, CompareKeys, FirstNotBefore;
    FirstNotBeforeSplits(owners, KeyOf(name));
    var lo, hi := 0, |owners|;
    while lo < hi
      invariant 0 <= lo <= FirstNotBefore(owners, KeyOf(name)) <= hi <= |owners|
    {
      var mid := (lo + hi) / 2;
      if CanonicalOrder(owners[mid], name) == Less {
        lo := mid + 1;
      } else {
        hi := mid;
      }
    }
    p := lo;
  }

  function CoveringIndex(owners: seq<text>, k: Key): (i: nat)
    requires owners != []
    ensures i < |owners|
  {
    var p := FirstNotBefore(owners, k);
    if p == 0 then |owners| - 1 else p - 1
  }

  /** `nsec_covering_owner` */
  function CoveringOwner(z: ZoneView, name: text): Option<text> {
    if z.nsecOwners == [] then None else Some(z.nsecOwners[CoveringIndex(z.nsecOwners, KeyOf(name))])
  }

  method NsecCoveringOwner(z: ZoneView, name: text) returns (r: Option<text>)
    requires Ascending(z.nsecOwners)
    ensures r == CoveringOwner(z, name)
  {
    hide KeyOf, FirstNotBefore, Ascending;
    var p := PartitionPoint(z.nsecOwners, name);
    if p == 0 && |z.nsecOwners| == 0 { return None; }
    var index := if p == 0 then |z.nsecOwners| - 1 else p - 1;
    return Some(z.nsecOwners[index]);
  }

  predicate IsOwnerKey(owners: seq<text>, k: Key) {
    exists i :: 0 <= i < |owners| && KeyOf(owners[i]) == k
  }

  predicate CoveredBy(owners: seq<text>, i: nat, k: Key)
    requires i < |owners|
  {
    Covers(KeyOf(owners[i]), KeyOf(Next(owners, i)), k)
  }

  /**
   The intervals between neighbouring owners cut the circle: a key that is no owner's is
   covered by the interval the search finds and by no other; an owner's key by none.
   */
  lemma UniqueCover(owners: seq<text>, k: Key, j: nat)
    requires StrictlyAscending(owners) && j < |owners|
    ensures CoveredBy(owners, j, k) <==> !IsOwnerKey(owners, k) && j == CoveringIndex(owners, k)
  {
    hide KeyOf, CompareKeys, FirstNotBefore, StrictlyAscending, IsOwnerKey;
    var n := |owners|;
    Positions(owners, k);
    OwnersTurn(owners, j);
    if j + 1 < n {
      assert Next(owners, j) == owners[j + 1];
    } else {
      assert Next(owners, j) == owners[0];
    }
  }

  /** Where `k` stands among the owners: which sort before it, which after, and whether one is it. */
  lemma Positions(owners: seq<text>, k: Key)
    requires StrictlyAscending(owners)
    ensures var p := FirstNotBefore(owners, k);
            && (forall i :: 0 <= i < |owners| ==> (Before(KeyOf(owners[i]), k) <==> i < p))
            && (forall i :: 0 <= i < |owners| ==>
                  (Before(k, KeyOf(owners[i])) <==> if IsOwnerKey(owners, k) then p < i else p <= i))
            && (IsOwnerKey(owners, k) ==> p < |owners|)
  {
    hide KeyOf, CompareKeys, FirstNotBefore;
    var p := FirstNotBefore(owners, k);
    StrictIsAscending(owners);
    FirstNotBeforeSplits(owners, k);
    if IsOwnerKey(owners, k) {
      var m :| 0 <= m < |owners| && KeyOf(owners[m]) == k;
      BeforeStrict(k, k);
      assert m >= p && (m > 0 ==> Before(KeyOf(owners[m - 1]), KeyOf(owners[m])));
      assert p == m;
    }
    forall i | 0 <= i < |owners|
      ensures Before(k, KeyOf(owners[i])) <==> if IsOwnerKey(owners, k) then p < i else p <= i
    {
      BeforeStrict(KeyOf(owners[i]), k);
    }
  }

  /** Each owner but the last sorts before its successor; the last does not sort before the first. */
  lemma OwnersTurn(owners: seq<text>, j: nat)
    requires StrictlyAscending(owners) && j < |owners|
    ensures j + 1 < |owners| ==> Before(KeyOf(owners[j]), KeyOf(owners[j + 1]))
    ensures !Before(KeyOf(owners[j]), KeyOf(owners[0]))
  {
    hide KeyOf, CompareKeys;
    BeforeStrict(KeyOf(owners[0]), KeyOf(owners[j]));
  }

  // Names, owners and the tree

  lemma OwnerKeyIsName(z: ZoneView, name: text)
    requires SignedChain(z) && ZoneName(name)
    ensures IsOwnerKey(z.nsecOwners, KeyOf(name)) <==> name in z.names
  {
    hide KeyOf, ZoneName, HasNsec;
    if IsOwnerKey(z.nsecOwners, KeyOf(name)) {
      var i :| 0 <= i < |z.nsecOwners| && KeyOf(z.nsecOwners[i]) == KeyOf(name);
      assert z.nsecOwners[i] in NameSet(z.nsecOwners);
      KeyInjective(z.nsecOwners[i], name);
    }
    if name in z.names {
      var i :| 0 <= i < |z.nsecOwners| && z.nsecOwners[i] == name;
      assert KeyOf(z.nsecOwners[i]) == KeyOf(name);
    }
  }

  /** In tree terms a name exists when some owner is the name or below it. */
  lemma ExistsInTree(z: ZoneView, name: text)
    requires ZoneNames(z.names) && ZoneName(name)
    ensures NameExists(z, name) <==> exists n :: n in z.names && Within(KeyOf(name), KeyOf(n))
  {
    hide KeyOf, ZoneName;
    ZoneNameKey(name);
    if NameExists(z, name) && name !in z.names {
      var n :| n in z.names && EndsWith(n, [DOT] + name);
      SuffixIsDescent(n, name);
    }
    if n :| n in z.names && Within(KeyOf(name), KeyOf(n)) {
      KeyInjective(n, name);
      SuffixIsDescent(n, name);
    }
  }

  /**
   The NSEC covering a name that owns nothing tells an empty non-terminal from a name
   that does not exist: its next name is below the name exactly when the name exists.
   */
  lemma NextBelowExactlyForEmptyNonTerminal(z: ZoneView, name: text)
    requires SignedChain(z) && ZoneName(name) && name !in z.names
    ensures var next := Next(z.nsecOwners, CoveringIndex(z.nsecOwners, KeyOf(name)));
            next in z.names && (KeyOf(name) < KeyOf(next) <==> NameExists(z, name))
  {
    hide KeyOf, ZoneName, HasNsec, FirstNotBefore, NameExists;
    var owners, k := z.nsecOwners, KeyOf(name);
    var c := CoveringIndex(owners, k);
    var next := Next(owners, c);
    ExistsInTree(z, name);
    OwnerKeyIsName(z, name);
    UniqueCover(owners, k, c);
    assert next in NameSet(owners);
    if n :| n in z.names && Within(k, KeyOf(n)) {
      var i :| 0 <= i < |owners| && owners[i] == n;
      assert KeyOf(owners[i]) != k;
      PrefixBefore(k, KeyOf(n));
      StrictIsAscending(owners);
      FirstNotBeforeSplits(owners, k);
      BeforeStrict(k, KeyOf(n));
      var p := FirstNotBefore(owners, k);
      assert p <= i;
      NextIsFirstAfter(owners, k, i);
      BeforeStrict(KeyOf(next), k);
      BeforeStrict(KeyOf(n), KeyOf(next));
      assert KeyOf(next) != k;
      SubtreeContiguous(k, KeyOf(next), KeyOf(n));
    }
  }

  /** When some owner sorts after `k`, the next name of the covering owner is the least such. */
  lemma NextIsFirstAfter(owners: seq<text>, k: Key, i: nat)
    requires StrictlyAscending(owners) && !IsOwnerKey(owners, k) && i < |owners| && Before(k, KeyOf(owners[i]))
    ensures var next := KeyOf(Next(owners, CoveringIndex(owners, k)));
            Before(k, next) && !Before(KeyOf(owners[i]), next)
  {
    hide KeyOf, CompareKeys, FirstNotBefore;
    StrictIsAscending(owners);
    FirstNotBeforeSplits(owners, k);
    var p := FirstNotBefore(owners, k);
    BeforeStrict(k, KeyOf(owners[i]));
    assert p <= i;
    assert Next(owners, CoveringIndex(owners, k)) == owners[p];
    assert KeyOf(owners[p]) != k;
    BeforeStrict(k, KeyOf(owners[p]));
    BeforeStrict(KeyOf(owners[i]), KeyOf(owners[i]));
    if p < i { BeforeStrict(KeyOf(owners[p]), KeyOf(owners[i])); }
  }

  // The closest encloser

  /** `split_once('.')`: what follows the first dot. */
  function Parent(name: text): (r: Option<text>)
    ensures r.Some? ==> |r.value| < |name|
  {
    if name == [] then None
    else if name[0] == DOT then Some(name[1..])
    else Parent(name[1..])
  }

  lemma {:induction false} ParentDropsLabel(name: text)
    ensures Parent(name).None? <==> |Split(name)| == 1
    ensures Parent(name).Some? ==> Split(name)[1..] == Split(Parent(name).value)
  {
    if name != [] {
      SplitFirst(name);
      if name[0] == DOT {
        assert ([[]] + Split(name[1..]))[1..] == Split(name[1..]);
      } else {
        ParentDropsLabel(name[1..]);
        var rest := Split(name[1..]);
        assert Glue(name[0], rest)[1..] == rest[1..];
      }
    }
  }

  lemma ParentKey(name: text)
    requires ZoneName(name)
    ensures |KeyOf(name)| > 0
    ensures Parent(name).None? <==> |KeyOf(name)| == 1
    ensures Parent(name).Some? ==>
              ZoneName(Parent(name).value) && KeyOf(Parent(name).value) == KeyOf(name)[..|KeyOf(name)| - 1]
  {
    ParentDropsLabel(name);
    ZoneNameKey(name);
    if Parent(name).Some? {
      var parent := Parent(name).value;
      assert ProperLabels(Split(parent)) by {
        forall i | 0 <= i < |Split(parent)| ensures ProperLabel(Split(parent)[i]) {
          assert Split(parent)[i] == Split(name)[i + 1];
        }
      }
      assert !ProperLabels(Split(ROOT)) by { assert Split(ROOT)[0] == []; }
      ZoneNameKey(parent);
      assert KeyOf(parent) == KeyOf(name)[..|KeyOf(name)| - 1];
    }
  }

  /** The loop of `closest_encloser` from a candidate on. */
  function EncloserFrom(z: ZoneView, candidate: text): text
    decreases |candidate|
  {
    if candidate == z.origin then candidate
    else
      match Parent(candidate)
      case None => z.origin
      case Some(parent) => if NameExists(z, parent) then parent else EncloserFrom(z, parent)
  }

  function ClosestEncloser(z: ZoneView, name: text): text {
    EncloserFrom(z, Lower(name))
  }

  method FindClosestEncloser(z: ZoneView, name: text) returns (r: text)
    ensures r == ClosestEncloser(z, name)
  {
    var candidate := Lower(name);
    while candidate != z.origin
      invariant EncloserFrom(z, candidate) == ClosestEncloser(z, name)
      decreases |candidate|
    {
      var parent := Parent(candidate);
      if parent.None? { return z.origin; }
      candidate := parent.value;
      if NameExists(z, candidate) { return candidate; }
    }
    return candidate;
  }

  /** `a` is the origin or exists. */
  predicate Anchor(z: ZoneView, a: text) {
    a == z.origin || NameExists(z, a)
  }

  lemma {:induction false} EncloserFromSpec(z: ZoneView, name: text)
    requires ZoneName(z.origin) && ZoneName(name) && Within(KeyOf(z.origin), KeyOf(name)) && name != z.origin
    ensures var ce := EncloserFrom(z, name);
            ZoneName(ce) && Within(KeyOf(z.origin), KeyOf(ce)) && KeyOf(ce) < KeyOf(name) && Anchor(z, ce)
            && forall x :: ZoneName(x) && KeyOf(ce) < KeyOf(x) && KeyOf(x) < KeyOf(name) ==> !NameExists(z, x)
    decreases |name|
  {
    hide KeyOf, ZoneName, NameExists;
    var o, k := KeyOf(z.origin), KeyOf(name);
    KeyInjective(z.origin, name);
    ParentKey(name);
    ZoneNameKey(z.origin);
    OriginHasLabels(z.origin);
    var parent := Parent(name).value;
    var pk := KeyOf(parent);
    assert o <= pk;
    if !NameExists(z, parent) && parent != z.origin {
      EncloserFromSpec(z, parent);
      var ce := EncloserFrom(z, parent);
      forall x | ZoneName(x) && KeyOf(ce) < KeyOf(x) && KeyOf(x) < k ensures !NameExists(z, x) {
        assert KeyOf(x) <= pk;
        if KeyOf(x) == pk { KeyInjective(x, parent); }
      }
    } else {
      forall x | ZoneName(x) && pk < KeyOf(x) ensures !(KeyOf(x) < k) {}
    }
  }

  /** Whatever exists in a zone of proper names is itself a proper name, up to case. */
  lemma ExistingIsZoneName(z: ZoneView, name: text)
    requires ZoneNames(z.names) && NameExists(z, name)
    ensures ZoneName(Lower(name))
  {
    hide Split, ProperLabel;
    var l := Lower(name);
    if l !in z.names {
      var n :| n in z.names && EndsWith(n, [DOT] + l);
      var above := n[..|n| - |l| - 1];
      assert n == above + [DOT] + l;
      SplitConcat(above, l);
      assert ZoneName(n);
      forall i | 0 <= i < |Split(l)| ensures ProperLabel(Split(l)[i]) {
        assert Split(l)[i] == Split(n)[|Split(above)| + i];
      }
      RootHasEmptyPieces();
    }
  }

  lemma RootHasEmptyPieces()
    ensures !ProperLabels(Split(ROOT))
  {
    assert Split(ROOT)[0] == [];
    assert !ProperLabel(Split(ROOT)[0]);
  }

  lemma {:induction false} EncloserIsZoneName(z: ZoneView, candidate: text)
    requires ZoneNames(z.names) && ZoneName(z.origin) && Lower(candidate) == candidate
    ensures ZoneName(EncloserFrom(z, candidate))
    decreases |candidate|
  {
    hide ZoneName, NameExists, ZoneNames;
    if candidate != z.origin && Parent(candidate).Some? {
      var parent := Parent(candidate).value;
      ParentLower(candidate);
      if NameExists(z, parent) {
        ExistingIsZoneName(z, parent);
      } else {
        EncloserIsZoneName(z, parent);
      }
    }
  }

  lemma {:induction false} ParentLower(name: text)
    requires Lower(name) == name && Parent(name).Some?
    ensures Lower(Parent(name).value) == Parent(name).value
  {
    assert Lower(name)[1..] == Lower(name[1..]);
    if name[0] != DOT { ParentLower(name[1..]); }
  }

  /** The closest encloser found for any text whatever is a proper name. */
  lemma ClosestEncloserIsZoneName(z: ZoneView, name: text)
    requires ZoneNames(z.names) && ZoneName(z.origin)
    ensures ZoneName(ClosestEncloser(z, name))
  {
    hide ZoneName, ZoneNames, EncloserFrom;
    LowerTwice(name);
    EncloserIsZoneName(z, Lower(name));
  }

  lemma OriginHasLabels(origin: text)
    requires ZoneName(origin)
    ensures |KeyOf(origin)| > 0
  {
    ZoneNameKey(origin);
  }

  /** `is_authoritative_for` is the tree test. */
  lemma AuthoritativeInTree(z: ZoneView, name: text)
    requires ZoneName(z.origin) && ZoneName(name)
    ensures Authoritative(z, name) <==> Within(KeyOf(z.origin), KeyOf(name))
  {
    hide KeyOf, ZoneName;
    ZoneNameKey(name);
    KeyInjective(z.origin, name);
    SuffixIsDescent(name, z.origin);
  }

  /**
   For a name of the zone the closest encloser is its longest proper ancestor that exists,
   or the origin when none below it does; for the origin it is the origin.
   */
  lemma ClosestEncloserIsLongest(z: ZoneView, name: text)
    requires ZoneName(z.origin) && ZoneName(name) && Authoritative(z, name)
    ensures name == z.origin ==> ClosestEncloser(z, name) == z.origin
    ensures name != z.origin ==>
              var ce := ClosestEncloser(z, name);
              ZoneName(ce) && Within(KeyOf(z.origin), KeyOf(ce)) && KeyOf(ce) < KeyOf(name) && Anchor(z, ce)
              && forall x :: ZoneName(x) && KeyOf(ce) < KeyOf(x) && KeyOf(x) < KeyOf(name) ==> !NameExists(z, x)
  {
    ZoneNameKey(name);
    AuthoritativeInTree(z, name);
    if name != z.origin {
      EncloserFromSpec(z, name);
    }
  }
}
