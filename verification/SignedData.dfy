/**
 The octets a DNSSEC signature covers (`build_signed_data` in src/dnssec.rs): which changes
 to an RRset leave them alone, and which do not.
 */
module SignedData {
  import opened Bytes
  import opened Wire
  import opened RoundTrip
  import opened PacketRoundTrip
  import opened Sorting
  import opened Codec

  // Maps over multisets

  function Map<T, U>(f: T -> U, s: seq<T>): (r: seq<U>)
    ensures |r| == |s| && forall i :: 0 <= i < |s| ==> r[i] == f(s[i])
  {
    seq(|s|, i requires 0 <= i < |s| => f(s[i]))
  }

  lemma MapSnoc<T, U>(f: T -> U, s: seq<T>, x: T)
    ensures Map(f, s + [x]) == Map(f, s) + [f(x)]
  {}

  /** `s` without its element at `i`. */
  function Without<T>(s: seq<T>, i: nat): seq<T>
    requires i < |s|
  {
    s[..i] + s[i + 1..]
  }

  lemma WithoutMultiset<T>(s: seq<T>, i: nat)
    requires i < |s|
    ensures multiset(Without(s, i)) == multiset(s) - multiset{s[i]} && s[i] in multiset(s)
    ensures |Without(s, i)| == |s| - 1
  {
    assert s == s[..i] + [s[i]] + s[i + 1..];
  }

  lemma PutBack<T>(s: multiset<T>, t: multiset<T>, x: T)
    requires x in s && x in t && s - multiset{x} == t - multiset{x}
    ensures s == t
  {
    assert s == s - multiset{x} + multiset{x} && t == t - multiset{x} + multiset{x};
  }

  lemma WithoutMap<T, U>(f: T -> U, s: seq<T>, i: nat)
    requires i < |s|
    ensures Map(f, Without(s, i)) == Without(Map(f, s), i)
  {}

  lemma {:induction false} MapMultiset<T, U>(f: T -> U, a: seq<T>, b: seq<T>)
    requires multiset(a) == multiset(b)
    ensures multiset(Map(f, a)) == multiset(Map(f, b))
    decreases |a|
  {
    hide Map, Without;
    assert |a| == |multiset(a)| == |multiset(b)| == |b|;
    if a != [] {
      WithoutMultiset(a, 0);
      assert a[0] in multiset(b);
      var i :| 0 <= i < |b| && b[i] == a[0];
      WithoutMultiset(b, i);
      MapMultiset(f, Without(a, 0), Without(b, i));
      WithoutMap(f, a, 0);
      WithoutMap(f, b, i);
      WithoutMultiset(Map(f, a), 0);
      WithoutMultiset(Map(f, b), i);
      PutBack(multiset(Map(f, a)), multiset(Map(f, b)), f(a[0]));
    } else {
      assert Map(f, a) == Map(f, b) == [];
    }
  }

  ghost predicate InjectiveOn<T(!new), U>(f: T -> U, ok: T -> bool) {
    forall x, y :: ok(x) && ok(y) && f(x) == f(y) ==> x == y
  }

  ghost predicate AllOk<T>(ok: T -> bool, s: seq<T>) {
    forall i :: 0 <= i < |s| ==> ok(s[i])
  }

  lemma {:induction false} MapMultisetBack<T(!new), U>(f: T -> U, ok: T -> bool, a: seq<T>, b: seq<T>)
    requires InjectiveOn(f, ok) && AllOk(ok, a) && AllOk(ok, b)
    requires multiset(Map(f, a)) == multiset(Map(f, b))
    ensures multiset(a) == multiset(b)
    decreases |a|
  {
    hide Map, Without;
    assert |a| == |multiset(Map(f, a))| == |multiset(Map(f, b))| == |b|;
    if a != [] {
      var fa, fb := Map(f, a), Map(f, b);
      assert fa[0] in multiset(fb);
      var i :| 0 <= i < |fb| && fb[i] == fa[0];
      assert f(b[i]) == f(a[0]);
      WithoutMultiset(fa, 0);
      WithoutMultiset(fb, i);
      WithoutMap(f, a, 0);
      WithoutMap(f, b, i);
      WithoutOk(ok, a, 0);
      WithoutOk(ok, b, i);
      MapMultisetBack(f, ok, Without(a, 0), Without(b, i));
      WithoutMultiset(a, 0);
      WithoutMultiset(b, i);
      PutBack(multiset(a), multiset(b), a[0]);
    }
  }

  lemma WithoutOk<T>(ok: T -> bool, s: seq<T>, i: nat)
    requires AllOk(ok, s) && i < |s|
    ensures AllOk(ok, Without(s, i))
  {}

  // Canonical form

  /** A record up to what signing ignores: the case of its owner and its TTL. */
  function Form(r: Record): Record {
    r.(name := Lower(r.name), ttl := 0)
  }

  /** `canonical_rr` of the record with the signature's original TTL. */
  function CanonicalRr(ttl: u32): Record -> bytes {
    (r: Record) => RecordWire(r.(name := Lower(r.name), ttl := ttl))
  }

  predicate BytesLe(a: bytes, b: bytes) {
    CompareBytes(a, b) != Greater
  }

  function Concat(ws: seq<bytes>): bytes {
    if ws == [] then [] else Concat(ws[..|ws| - 1]) + ws[|ws| - 1]
  }

  /** RRSIG data without the signature. */
  function RrsigHeader(s: Rrsig): bytes {
    Be16(s.typeCovered) + [s.algorithm] + [s.labels] + Be32(s.origTtl) + Be32(s.expiry) + Be32(s.inception)
    + Be16(s.keyTag) + NameWire(s.signer)
  }

  function SignedOctets(s: Rrsig, rrset: seq<Record>): bytes {
    RrsigHeader(s) + Concat(SortBy(BytesLe, Map(CanonicalRr(s.origTtl), rrset)))
  }

  /** The same records up to order, TTLs and owner case. */
  ghost predicate SameRrset(a: seq<Record>, b: seq<Record>) {
    multiset(Map(Form, a)) == multiset(Map(Form, b))
  }

  lemma BytesLeTotal()
    ensures TotalPreorder(BytesLe) && Antisymmetric(BytesLe)
  {
    hide CompareBytes;
    forall a, b ensures (BytesLe(a, b) || BytesLe(b, a)) && (BytesLe(a, b) && BytesLe(b, a) ==> a == b) {
      CompareBytesTotal(a, b);
    }
    forall a, b, c | BytesLe(a, b) && BytesLe(b, c) ensures BytesLe(a, c) {
      CompareBytesTransitive(a, b, c);
    }
  }

  lemma CanonicalOfForm(ttl: u32, rrset: seq<Record>)
    ensures Map(CanonicalRr(ttl), rrset) == Map(CanonicalRr(ttl), Map(Form, rrset))
  {
    hide Lower, RecordWire;
    forall i | 0 <= i < |rrset| ensures CanonicalRr(ttl)(rrset[i]) == CanonicalRr(ttl)(Form(rrset[i])) {
      LowerTwice(rrset[i].name);
    }
  }

  /** Permuting the RRset, changing TTLs or the case of owners leaves the signed octets alone. */
  lemma SameRrsetSameOctets(s: Rrsig, a: seq<Record>, b: seq<Record>)
    requires SameRrset(a, b)
    ensures SignedOctets(s, a) == SignedOctets(s, b)
  {
    hide Map, SortBy, BytesLe, Concat, CanonicalRr, Form, TotalPreorder, Antisymmetric, RrsigHeader;
    var f := CanonicalRr(s.origTtl);
    CanonicalOfForm(s.origTtl, a);
    CanonicalOfForm(s.origTtl, b);
    MapMultiset(f, Map(Form, a), Map(Form, b));
    BytesLeTotal();
    SortForgetsOrder(BytesLe, Map(f, a), Map(f, b));
  }

  // The other direction: nothing else leaves them alone

  /** Records that can be told apart from their octets: a proper owner, a named type, data that fits. */
  predicate Readable(r: Record) {
    ProperName(Lower(r.name)) && ProperType(r.rtype) && |r.rdata| < 0x1_0000
  }

  predicate AllReadable(rs: seq<Record>) {
    forall i :: 0 <= i < |rs| ==> Readable(rs[i])
  }

  lemma RecordFields(buf: bytes, r: Record)
    requires ProperName(r.name) && |r.rdata| < 0x1_0000 && At(buf, 0, RecordWire(r))
    ensures ReadName(buf, 0) == Got(r.name, |NameWire(r.name)|)
    ensures var n := |NameWire(r.name)|;
            && ReadU16(buf, n) == Got(Code(r.rtype), n + 2) && ReadU16(buf, n + 2) == Got(r.cls, n + 4)
            && ReadU32(buf, n + 4) == Got(r.ttl, n + 8) && ReadU16(buf, n + 8) == Got(|r.rdata|, n + 10)
            && ReadBytes(buf, n + 10, |r.rdata|) == Got(r.rdata, n + 10 + |r.rdata|)
            && |RecordWire(r)| == n + 10 + |r.rdata|
  {
    hide At, ReadName, ReadU16, ReadU32, ReadBytes, NameWire, ProperName, Be16, Be32;
    var a, b, c, d, e := NameWire(r.name), Be16(Code(r.rtype)), Be16(r.cls), Be32(r.ttl), Be16(|r.rdata|);
    AtSplit(buf, 0, a + b + c + d + e, r.rdata);
    AtSplit(buf, 0, a + b + c + d, e);
    AtSplit(buf, 0, a + b + c, d);
    AtSplit(buf, 0, a + b, c);
    AtSplit(buf, 0, a, b);
    ReadNameBack(buf, 0, r.name);
    var n := |a|;
    ReadU16Back(buf, n, Code(r.rtype));
    ReadU16Back(buf, n + 2, r.cls);
    ReadU32Back(buf, n + 4, r.ttl);
    ReadU16Back(buf, n + 8, |r.rdata|);
    AtBounds(buf, n + 10, r.rdata);
  }

  /** No record's octets start another's. */
  lemma RecordPrefixFree(r: Record, s: Record, x: bytes, y: bytes)
    requires RecordWire(r) + x == RecordWire(s) + y
    requires ProperName(r.name) && ProperType(r.rtype) && |r.rdata| < 0x1_0000
    requires ProperName(s.name) && ProperType(s.rtype) && |s.rdata| < 0x1_0000
    ensures r == s && x == y
  {
    hide ReadName, ReadU16, ReadU32, ReadBytes, NameWire, ProperName, RecordWire, Code, TypeOf;
    var buf := RecordWire(r) + x;
    assert At(buf, 0, RecordWire(r)) && At(buf, 0, RecordWire(s));
    RecordFields(buf, r);
    RecordFields(buf, s);
    assert x == buf[|RecordWire(r)|..] && y == buf[|RecordWire(s)|..];
  }

  ghost predicate RecordOctets(w: bytes) {
    exists r: Record :: ProperName(r.name) && ProperType(r.rtype) && |r.rdata| < 0x1_0000 && w == RecordWire(r)
  }

  ghost predicate AllRecordOctets(ws: seq<bytes>) {
    forall i :: 0 <= i < |ws| ==> RecordOctets(ws[i])
  }

  lemma {:induction false} ConcatCons(w: bytes, ws: seq<bytes>)
    ensures Concat([w] + ws) == w + Concat(ws)
  {
    var all := [w] + ws;
    if ws == [] {
      assert all[..0] == [] && all == [w];
      assert Concat(all) == [] + w;
    } else {
      var k := |ws| - 1;
      assert all[..k + 1] == [w] + ws[..k];
      ConcatCons(w, ws[..k]);
    }
  }

  lemma {:induction false} ConcatInjective(a: seq<bytes>, b: seq<bytes>)
    requires AllRecordOctets(a) && AllRecordOctets(b) && Concat(a) == Concat(b)
    ensures a == b
    decreases |a|
  {
    hide RecordOctets, Concat;
    if a == [] || b == [] {
      OnlyNothingIsEmpty(a);
      OnlyNothingIsEmpty(b);
    } else {
      assert a == [a[0]] + a[1..] && b == [b[0]] + b[1..];
      ConcatCons(a[0], a[1..]);
      ConcatCons(b[0], b[1..]);
      HeadOctets(a[0], b[0], Concat(a[1..]), Concat(b[1..]));
      ConcatInjective(a[1..], b[1..]);
    }
  }

  lemma HeadOctets(v: bytes, w: bytes, x: bytes, y: bytes)
    requires RecordOctets(v) && RecordOctets(w) && v + x == w + y
    ensures v == w && x == y
  {
    hide RecordWire, ProperName;
    var r: Record :| ProperName(r.name) && ProperType(r.rtype) && |r.rdata| < 0x1_0000 && v == RecordWire(r);
    var s: Record :| ProperName(s.name) && ProperType(s.rtype) && |s.rdata| < 0x1_0000 && w == RecordWire(s);
    RecordPrefixFree(r, s, x, y);
  }

  lemma OnlyNothingIsEmpty(ws: seq<bytes>)
    requires AllRecordOctets(ws)
    ensures Concat(ws) == [] <==> ws == []
  {
    hide RecordWire;
    if ws != [] {
      var last := ws[|ws| - 1];
      assert RecordOctets(last);
      var r: Record :| |r.rdata| < 0x1_0000 && last == RecordWire(r);
      RecordNotEmpty(r);
    }
  }

  lemma RecordNotEmpty(r: Record)
    ensures RecordWire(r) != []
  {}

  lemma FormOctets(ttl: u32, rs: seq<Record>)
    requires AllReadable(rs)
    ensures AllRecordOctets(Map(CanonicalRr(ttl), rs))
  {
    hide RecordWire, ProperName, Lower;
    var ws := Map(CanonicalRr(ttl), rs);
    forall i | 0 <= i < |rs| ensures RecordOctets(ws[i]) {
      assert Readable(rs[i]);
      assert ws[i] == RecordWire(rs[i].(name := Lower(rs[i].name), ttl := ttl));
    }
  }

  lemma SortKeepsOctets(ws: seq<bytes>)
    requires AllRecordOctets(ws)
    ensures AllRecordOctets(SortBy(BytesLe, ws)) && multiset(SortBy(BytesLe, ws)) == multiset(ws)
  {
    hide RecordOctets, SortBy, BytesLe, TotalPreorder, Antisymmetric;
    BytesLeTotal();
    SortByCorrect(BytesLe, ws);
    var sorted := SortBy(BytesLe, ws);
    forall i | 0 <= i < |sorted| ensures RecordOctets(sorted[i]) {
      assert sorted[i] in multiset(ws);
      assert sorted[i] in ws;
    }
  }

  predicate IsForm(r: Record) {
    Readable(r) && Lower(r.name) == r.name && r.ttl == 0
  }

  lemma CanonicalInjective(ttl: u32)
    ensures InjectiveOn(CanonicalRr(ttl), IsForm)
  {
    hide RecordWire, ProperName, Lower;
    forall x, y | IsForm(x) && IsForm(y) && CanonicalRr(ttl)(x) == CanonicalRr(ttl)(y) ensures x == y {
      var r, s := x.(ttl := ttl), y.(ttl := ttl);
      assert r == x.(name := Lower(x.name), ttl := ttl) && s == y.(name := Lower(y.name), ttl := ttl);
      assert RecordWire(r) == RecordWire(s);
      RecordPrefixFree(r, s, [], []);
    }
  }

  lemma FormsAreForms(rs: seq<Record>)
    requires AllReadable(rs)
    ensures AllOk(IsForm, Map(Form, rs))
  {
    hide Lower, ProperName;
    forall i | 0 <= i < |rs| ensures IsForm(Map(Form, rs)[i]) {
      assert Readable(rs[i]);
      LowerTwice(rs[i].name);
    }
  }

  /**
   The signed octets determine the RRset: on readable records they agree exactly when the
   RRsets are the same up to order, TTLs and owner case.
   */
  lemma OctetsDetermineRrset(s: Rrsig, a: seq<Record>, b: seq<Record>)
    requires AllReadable(a) && AllReadable(b)
    ensures SignedOctets(s, a) == SignedOctets(s, b) <==> SameRrset(a, b)
  {
    hide Map, SortBy, BytesLe, Concat, CanonicalRr, Form, AllRecordOctets, RrsigHeader, InjectiveOn, IsForm;
    hide AllReadable, AllOk;
    if SameRrset(a, b) {
      SameRrsetSameOctets(s, a, b);
    }
    if SignedOctets(s, a) == SignedOctets(s, b) {
      var f := CanonicalRr(s.origTtl);
      var wa, wb := Map(f, a), Map(f, b);
      SamePrefix(RrsigHeader(s), Concat(SortBy(BytesLe, wa)), Concat(SortBy(BytesLe, wb)));
      FormOctets(s.origTtl, a);
      FormOctets(s.origTtl, b);
      SortKeepsOctets(wa);
      SortKeepsOctets(wb);
      ConcatInjective(SortBy(BytesLe, wa), SortBy(BytesLe, wb));
      CanonicalOfForm(s.origTtl, a);
      CanonicalOfForm(s.origTtl, b);
      FormsAreForms(a);
      FormsAreForms(b);
      CanonicalInjective(s.origTtl);
      MapMultisetBack(f, IsForm, Map(Form, a), Map(Form, b));
    }
  }

  lemma SamePrefix(p: bytes, x: bytes, y: bytes)
    requires p + x == p + y
    ensures x == y
  {
    assert (p + x)[|p|..] == x && (p + y)[|p|..] == y;
  }

  method WriteHeader(s: Rrsig) returns (data: bytes)
    ensures data == RrsigHeader(s)
  {
    hide NameWire, Be16, Be32;
    var b := new Builder();
    b.U16(s.typeCovered);
    b.U8(s.algorithm);
    b.U8(s.labels);
    b.U32(s.origTtl);
    b.U32(s.expiry);
    b.U32(s.inception);
    b.U16(s.keyTag);
    b.Name(s.signer);
    data := b.buf;
  }

  method WriteCanonical(ttl: u32, rrset: seq<Record>) returns (rrs: seq<bytes>)
    ensures rrs == Map(CanonicalRr(ttl), rrset)
  {
    hide RecordWire, Lower, Map;
    rrs := [];
    assert rrset[..0] == [];
    for i := 0 to |rrset|
      invariant rrs == Map(CanonicalRr(ttl), rrset[..i])
    {
      var rec := rrset[i].(ttl := ttl);
      var c := new Builder();
      c.Record(rec.(name := Lower(rec.name)));
      assert c.buf == CanonicalRr(ttl)(rrset[i]);
      assert rrset[..i + 1] == rrset[..i] + [rrset[i]];
      MapSnoc(CanonicalRr(ttl), rrset[..i], rrset[i]);
      rrs := rrs + [c.buf];
    }
    assert rrset[..|rrset|] == rrset;
  }

  /** `build_signed_data` */
  method BuildSignedData(s: Rrsig, rrset: seq<Record>) returns (data: bytes)
    ensures data == SignedOctets(s, rrset)
  {
    hide RrsigHeader, SortBy, BytesLe, CanonicalRr, Map;
    data := WriteHeader(s);
    var rrs := WriteCanonical(s.origTtl, rrset);
    rrs := SortBy(BytesLe, rrs);
    for i := 0 to |rrs|
      invariant data == RrsigHeader(s) + Concat(rrs[..i])
    {
      assert rrs[..i + 1][..i] == rrs[..i];
      data := data + rrs[i];
    }
    assert rrs[..|rrs|] == rrs;
  }
}
