/**
 Hashed denial (src/zone.rs): choosing the NSEC3 record for a name. SHA-1 is any function to
 20 octets, and the order in which the zone's record sets are visited is arbitrary.
 */
module Nsec3 {
  import opened Bytes
  import opened Names
  import opened Wire
  import opened Canonical
  import opened Zones
  import opened Denial
  import opened Answers
  import opened Sorting
  import Base32hex

  type Digest = d: bytes | |d| == 20 witness seq(20, _ => 0)
  type Sha1 = bytes -> Digest

  // Parameters and hashing

  datatype Params = Params(algorithm: byte, flags: byte, iterations: u16, salt: bytes)

  /** `Nsec3Params::parse`; octets after the salt are ignored. */
  function ParseParams(rdata: bytes): Option<Params> {
    if |rdata| < 5 || |rdata| - 5 < rdata[4] then None
    else Some(Params(rdata[0], rdata[1], FromBe16(rdata[2], rdata[3]), rdata[5..5 + rdata[4]]))
  }

  /** `nsec3_params`: the first NSEC3PARAM at the apex. */
  function ZoneParams(z: ZoneView): Option<Params> {
    var rrset := Lookup(z, z.origin, NSEC3PARAM);
    if rrset.None? || rrset.value == [] then None else ParseParams(rrset.value[0].rdata)
  }

  /** Section 5 of RFC 5155: `IH(salt, x, k)`. */
  function Iterated(sha1: Sha1, salt: bytes, x: bytes, k: nat): Digest {
    if k == 0 then sha1(x + salt) else sha1(Iterated(sha1, salt, x, k - 1) + salt)
  }

  function HashedName(sha1: Sha1, p: Params, name: text): Digest {
    Iterated(sha1, p.salt, CanonicalName(name), p.iterations)
  }

  method HashName(sha1: Sha1, p: Params, name: text) returns (hash: Digest)
    ensures hash == HashedName(sha1, p, name)
  {
    hide CanonicalName;
    var wire := CanonicalName(name);
    hash := sha1(wire + p.salt);
    for i := 0 to p.iterations
      invariant hash == Iterated(sha1, p.salt, wire, i)
    {
      hash := sha1(hash + p.salt);
    }
  }

  // The choice

  function UpperByte(b: byte): byte {
    if 97 <= b <= 122 then b - 32 else b
  }

  function Upper(s: text): text {
    seq(|s|, i requires 0 <= i < |s| => UpperByte(s[i]))
  }

  /** First label of the owner, upper-cased. */
  function HashLabel(r: Record): text {
    Upper(Split(r.name)[0])
  }

  ghost predicate IsNsec3(z: ZoneView, r: Record) {
    r.rtype == NSEC3 && exists k, i :: k in z.rrsets && 0 <= i < |z.rrsets[k]| && z.rrsets[k][i] == r
  }

  predicate Le(a: bytes, b: bytes) {
    CompareBytes(a, b) != Greater
  }

  ghost predicate SomeBelow(z: ZoneView, of: Record -> bytes, target: bytes) {
    exists r :: IsNsec3(z, r) && Le(of(r), target)
  }

  /** Among the zone's NSEC3 records: the greatest not above the target, or the greatest of all. */
  ghost predicate Chosen(z: ZoneView, of: Record -> bytes, target: bytes, r: Record) {
    && IsNsec3(z, r)
    && (SomeBelow(z, of, target) ==> Le(of(r), target))
    && (forall s :: IsNsec3(z, s) && (SomeBelow(z, of, target) ==> Le(of(s), target)) ==> Le(of(s), of(r)))
  }

  /** What `nsec3_covering` may return; records with the same label are interchangeable. */
  ghost predicate CoveringResult(z: ZoneView, sha1: Sha1, name: text, result: Option<Record>) {
    if ZoneParams(z).None? || !(exists r :: IsNsec3(z, r)) then result.None?
    else
      result.Some?
      && Chosen(z, HashLabel, Base32hex.Encode(HashedName(sha1, ZoneParams(z).value, name)), result.value)
  }

  /** The owners of the zone's NSEC3 records encode these hashes, all of one length. */
  ghost predicate Hashes(z: ZoneView, hash: Record -> bytes, n: nat) {
    forall r :: IsNsec3(z, r) ==> HashLabel(r) == Base32hex.Encode(hash(r)) && |hash(r)| == n
  }

  lemma LabelOrder(z: ZoneView, hash: Record -> bytes, target: bytes, r: Record)
    requires Hashes(z, hash, |target|) && IsNsec3(z, r)
    ensures Le(HashLabel(r), Base32hex.Encode(target)) <==> Le(hash(r), target)
  {
    hide HashLabel, IsNsec3;
    Base32hex.EncodeKeepsOrder(hash(r), target);
  }

  lemma LabelsOrder(z: ZoneView, hash: Record -> bytes, n: nat, r: Record, s: Record)
    requires Hashes(z, hash, n) && IsNsec3(z, r) && IsNsec3(z, s)
    ensures Le(HashLabel(s), HashLabel(r)) <==> Le(hash(s), hash(r))
  {
    hide HashLabel, IsNsec3;
    Base32hex.EncodeKeepsOrder(hash(s), hash(r));
  }

  /** Choosing by label is choosing by hash: the greatest hash not above the query's, or the greatest of all. */
  lemma ChoiceIsByHash(z: ZoneView, hash: Record -> bytes, target: bytes, r: Record)
    requires Hashes(z, hash, |target|)
    ensures Chosen(z, HashLabel, Base32hex.Encode(target), r) <==> Chosen(z, hash, target, r)
  {
    hide HashLabel, IsNsec3, Hashes, Le;
    var encoded := Base32hex.Encode(target);
    forall s | IsNsec3(z, s) ensures Le(HashLabel(s), encoded) <==> Le(hash(s), target) {
      LabelOrder(z, hash, target, s);
    }
    if IsNsec3(z, r) {
      forall s | IsNsec3(z, s) ensures Le(HashLabel(s), HashLabel(r)) <==> Le(hash(s), hash(r)) {
        LabelsOrder(z, hash, |target|, r, s);
      }
    }
    assert SomeBelow(z, HashLabel, encoded) <==> SomeBelow(z, hash, target);
  }

  /** The record returned for a name carries the greatest hash not above the name's, or the greatest of all. */
  lemma CoveringIsByHash(z: ZoneView, sha1: Sha1, name: text, result: Option<Record>, hash: Record -> bytes)
    requires CoveringResult(z, sha1, name, result) && Hashes(z, hash, 20)
    requires ZoneParams(z).Some? && exists r :: IsNsec3(z, r)
    ensures result.Some? && Chosen(z, hash, HashedName(sha1, ZoneParams(z).value, name), result.value)
  {
    hide Chosen, IsNsec3, Hashes, HashedName;
    ChoiceIsByHash(z, hash, HashedName(sha1, ZoneParams(z).value, name), result.value);
  }

  /**
   Without an NSEC3PARAM at the apex the hashed branch never fires, so negative answers carry
   their NSEC proofs.
   */
  lemma PlainZoneAnswersWithNsec(z: ZoneView, sha1: Sha1, name: text, qtype: RType, nsec3: text -> Option<Record>)
    requires Lookup(z, z.origin, NSEC3PARAM).None? && forall n :: CoveringResult(z, sha1, n, nsec3(n))
    requires SignedZone(z) && !Chase(z, name, qtype, true, MAX_CNAME_CHAIN).answered
    ensures var current := Chase(z, name, qtype, true, MAX_CNAME_CHAIN).current;
            var reply := Answer(z, name, qtype, true, nsec3);
            var wildcard := Wildcard(ClosestEncloser(z, current));
            (reply.nxdomain <==> !NameExists(z, current))
            && (reply.nxdomain ==> (SomeProves(reply.authority, current) <==> !IsOwnerKey(z.nsecOwners, KeyOf(current)))
                                   && (SomeProves(reply.authority, wildcard) <==> wildcard !in z.names))
  {
    hide Chase, SignedZone, Answer, ZoneName, ClosestEncloser, SomeProves, NameExists, Authoritative, Chosen;
    hide IsNsec3, Lookup;
    assert ZoneParams(z).None?;
    forall n ensures nsec3(n).None? {
      assert CoveringResult(z, sha1, n, nsec3(n));
    }
    NegativeAnswerProven(z, name, qtype, nsec3);
  }

  // The search

  type Entry = (text, Record)

  predicate EntryLe(a: Entry, b: Entry) {
    Le(a.0, b.0)
  }

  lemma EntryLeTotal()
    ensures TotalPreorder(EntryLe)
  {
    hide CompareBytes;
    forall a, b ensures EntryLe(a, b) || EntryLe(b, a) {
      CompareBytesTotal(a.0, b.0);
    }
    forall a, b, c | EntryLe(a, b) && EntryLe(b, c) ensures EntryLe(a, c) {
      CompareBytesTransitive(a.0, b.0, c.0);
    }
  }

  ghost predicate Sound(z: ZoneView, entries: seq<Entry>) {
    forall j :: 0 <= j < |entries| ==> IsNsec3(z, entries[j].1) && entries[j].0 == HashLabel(entries[j].1)
  }

  predicate Has(entries: seq<Entry>, r: Record) {
    exists j :: 0 <= j < |entries| && entries[j].1 == r
  }

  ghost predicate HasAllOf(z: ZoneView, entries: seq<Entry>, k: (text, u16), upTo: nat) {
    && k in z.rrsets
    && forall i :: 0 <= i < upTo && i < |z.rrsets[k]| && z.rrsets[k][i].rtype == NSEC3 ==>
         Has(entries, z.rrsets[k][i])
  }

  ghost predicate Complete(z: ZoneView, entries: seq<Entry>) {
    forall r :: IsNsec3(z, r) ==> Has(entries, r)
  }

  method CollectSet(z: ZoneView, k: (text, u16), before: seq<Entry>) returns (entries: seq<Entry>)
    requires k in z.rrsets && Sound(z, before)
    ensures Sound(z, entries) && before <= entries && HasAllOf(z, entries, k, |z.rrsets[k]|)
  {
    hide HashLabel;
    entries := before;
    var rrset := z.rrsets[k];
    for i := 0 to |rrset|
      invariant Sound(z, entries) && before <= entries && HasAllOf(z, entries, k, i)
    {
      if rrset[i].rtype == NSEC3 {
        ghost var was := entries;
        assert IsNsec3(z, rrset[i]);
        entries := entries + [(HashLabel(rrset[i]), rrset[i])];
        assert entries[|was|].1 == rrset[i];
        HasMore(was, entries);
      }
    }
  }

  lemma HasMore(a: seq<Entry>, b: seq<Entry>)
    requires a <= b
    ensures forall r :: Has(a, r) ==> Has(b, r)
  {
    forall r | Has(a, r) ensures Has(b, r) {
      var j :| 0 <= j < |a| && a[j].1 == r;
      assert b[j].1 == r;
    }
  }

  method CollectEntries(z: ZoneView) returns (entries: seq<Entry>)
    ensures Sound(z, entries) && Complete(z, entries)
  {
    entries := [];
    var left := z.rrsets.Keys;
    while left != {}
      invariant left <= z.rrsets.Keys && Sound(z, entries)
      invariant forall k :: k in z.rrsets.Keys - left ==> HasAllOf(z, entries, k, |z.rrsets[k]|)
      decreases left
    {
      var k :| k in left;
      ghost var was := entries;
      hide Sound, IsNsec3, Has;
      entries := CollectSet(z, k, entries);
      HasMore(was, entries);
      left := left - {k};
    }
    AllSetsComplete(z, entries);
  }

  lemma AllSetsComplete(z: ZoneView, entries: seq<Entry>)
    requires forall k :: k in z.rrsets ==> HasAllOf(z, entries, k, |z.rrsets[k]|)
    ensures Complete(z, entries)
  {
    hide Has;
    forall r | IsNsec3(z, r) ensures Has(entries, r) {
      var k, i :| k in z.rrsets && 0 <= i < |z.rrsets[k]| && z.rrsets[k][i] == r;
      assert HasAllOf(z, entries, k, |z.rrsets[k]|);
    }
  }

  lemma SortKeepsEntries(z: ZoneView, entries: seq<Entry>)
    requires Sound(z, entries) && Complete(z, entries)
    ensures var sorted := SortBy(EntryLe, entries);
            Sound(z, sorted) && Complete(z, sorted) && Sorted(EntryLe, sorted) && |sorted| == |entries|
  {
    hide IsNsec3, HashLabel, SortBy, EntryLe, TotalPreorder, Sorted;
    EntryLeTotal();
    SortByCorrect(EntryLe, entries);
    var sorted := SortBy(EntryLe, entries);
    assert |sorted| == |multiset(sorted)| == |multiset(entries)|;
    forall j | 0 <= j < |sorted| ensures IsNsec3(z, sorted[j].1) && sorted[j].0 == HashLabel(sorted[j].1) {
      assert sorted[j] in multiset(entries);
      assert sorted[j] in entries;
    }
    forall r | IsNsec3(z, r) ensures Has(sorted, r) {
      assert Has(entries, r);
      var j :| 0 <= j < |entries| && entries[j].1 == r;
      assert entries[j] in multiset(sorted);
      assert entries[j] in sorted;
    }
  }

  /** The entry before the first one above the target, or the last, is the one to choose. */
  lemma ScanChooses(z: ZoneView, entries: seq<Entry>, target: text, i: nat, j: nat)
    requires Sound(z, entries) && Complete(z, entries) && Sorted(EntryLe, entries)
    requires i <= |entries| && j < |entries| && j == (if i == 0 then |entries| - 1 else i - 1)
    requires forall k :: 0 <= k < i ==> Le(entries[k].0, target)
    requires i < |entries| ==> !Le(entries[i].0, target)
    ensures Chosen(z, HashLabel, target, entries[j].1)
  {
    hide IsNsec3, HashLabel, CompareBytes;
    var r := entries[j].1;
    forall s | IsNsec3(z, s) ensures i == 0 ==> !Le(HashLabel(s), target) {
      var k := IndexOf(z, entries, s);
      if i == 0 && k > 0 { NotBelowLater(entries, target, k); }
    }
    forall s | IsNsec3(z, s) && (i == 0 || Le(HashLabel(s), target)) ensures Le(HashLabel(s), HashLabel(r)) {
      var k := IndexOf(z, entries, s);
      if k > j {
        if k > i { AboveLater(entries, target, i, k); }
      } else if k < j {
        assert EntryLe(entries[k], entries[j]);
      } else {
        CompareBytesTotal(entries[k].0, entries[k].0);
      }
    }
    if i == 0 {
      assert !SomeBelow(z, HashLabel, target);
    } else {
      assert SomeBelow(z, HashLabel, target) by { assert IsNsec3(z, r) && Le(HashLabel(r), target); }
    }
  }

  lemma IndexOf(z: ZoneView, entries: seq<Entry>, s: Record) returns (k: nat)
    requires Sound(z, entries) && Complete(z, entries) && IsNsec3(z, s)
    ensures k < |entries| && entries[k].1 == s && entries[k].0 == HashLabel(s)
  {
    hide IsNsec3, HashLabel;
    assert Has(entries, s);
    k :| 0 <= k < |entries| && entries[k].1 == s;
  }

  lemma AboveLater(entries: seq<Entry>, target: text, i: nat, k: nat)
    requires Sorted(EntryLe, entries) && i < k < |entries| && !Le(entries[i].0, target)
    ensures !Le(entries[k].0, target)
  {
    hide CompareBytes;
    assert EntryLe(entries[i], entries[k]);
    if Le(entries[k].0, target) {
      CompareBytesTransitive(entries[i].0, entries[k].0, target);
    }
  }

  lemma NotBelowLater(entries: seq<Entry>, target: text, k: nat)
    requires Sorted(EntryLe, entries) && 0 < k < |entries| && !Le(entries[0].0, target)
    ensures !Le(entries[k].0, target)
  {
    AboveLater(entries, target, 0, k);
  }

  /** `nsec3_covering` */
  method Nsec3Covering(z: ZoneView, sha1: Sha1, name: text) returns (result: Option<Record>)
    ensures CoveringResult(z, sha1, name, result)
  {
    hide IsNsec3, HashLabel, HashedName, SortBy, EntryLe, Sorted, Le, Chosen, ZoneParams;
    var params := ZoneParams(z);
    if params.None? { return None; }
    var hash := HashName(sha1, params.value, name);
    var entries := CollectEntries(z);
    if entries == [] {
      NothingListed(z);
      return None;
    }
    SortKeepsEntries(z, entries);
    entries := SortBy(EntryLe, entries);
    var target := Base32hex.EncodeBytes(hash);
    assert IsNsec3(z, entries[0].1);
    var prev := |entries| - 1;
    for i := 0 to |entries|
      invariant prev == if i == 0 then |entries| - 1 else i - 1
      invariant forall k :: 0 <= k < i ==> Le(entries[k].0, target)
    {
      if !Le(entries[i].0, target) {
        ScanChooses(z, entries, target, i, prev);
        return Some(entries[prev].1);
      }
      prev := i;
    }
    ScanChooses(z, entries, target, |entries|, prev);
    return Some(entries[prev].1);
  }

  lemma NothingListed(z: ZoneView)
    requires Complete(z, [])
    ensures !exists r :: IsNsec3(z, r)
  {
    hide IsNsec3;
    forall r ensures !IsNsec3(z, r) {
      assert !Has([], r);
    }
  }
}
