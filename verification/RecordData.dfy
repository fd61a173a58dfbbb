/**
 Names inside record data: `decompress_rdata` and what it keeps.
 */
module RecordData {
  import opened Bytes
  import opened Names
  import opened Wire
  import opened RoundTrip

  /** The integer octets before the names, the names, and the integers after the names. */
  datatype Content = Content(before: bytes, names: seq<text>, after: seq<u32>)

  predicate CarriesNames(t: RType) {
    t in {NS, CNAME, PTR, MX, SRV, SOA}
  }

  /** What the data `raw` at `pos` says, with its names read in the context of `buf`. */
  function ReadContent(buf: bytes, t: RType, raw: bytes, pos: nat): Option<Content> {
    match t
    case MX =>
      if |raw| < 2 then None
      else
        var name := ReadName(buf, pos + 2);
        if name.Got? then Some(Content(raw[..2], [name.value], [])) else None
    case SRV =>
      if |raw| < 6 then None
      else
        var name := ReadName(buf, pos + 6);
        if name.Got? then Some(Content(raw[..6], [name.value], [])) else None
    case SOA =>
      var soa := ReadSoa(buf, pos);
      if soa.Got? then
        Some(Content([], [soa.value.mname, soa.value.rname], soa.value.numbers))
      else None
    case NS | CNAME | PTR =>
      var name := ReadName(buf, pos);
      if name.Got? then Some(Content([], [name.value], [])) else None
    case _ => None
  }

  /** The name survives being written and read again. */
  predicate Restorable(name: text) {
    name == ROOT || NoEmptyLabel(name)
  }

  lemma {:induction false} JoinNoEmpty(ls: seq<text>)
    requires |ls| > 0 && PlainPieces(ls)
    ensures NoEmptyLabel(Join(ls))
  {
    SplitJoin(ls);
  }

  /** A name that was read is proper as soon as it is restorable. */
  lemma ReadIsProper(buf: bytes, pos: nat)
    requires ReadName(buf, pos).Got?
    ensures ProperName(ReadName(buf, pos).value) <==> Restorable(ReadName(buf, pos).value)
  {
    var name := ReadName(buf, pos).value;
    var raws := ReadLabels(buf, pos, 0).value;
    if name != ROOT && NoEmptyLabel(name) {
      NamePartsOfRead(buf, pos);
      JoinedProper(DecodeLabels(raws));
    }
  }

  predicate GoodPieces(ls: seq<text>) {
    forall i :: 0 <= i < |ls| ==> IsLower(ls[i]) && ValidUtf8(ls[i])
  }

  /** Cutting lower-case UTF-8 text at its dots leaves lower-case UTF-8 pieces. */
  lemma {:induction false} PiecesProper(s: text)
    requires IsLower(s) && ValidUtf8(s)
    ensures GoodPieces(Split(s))
  {
    if s != [] {
      var n := ScalarLength(s);
      PiecesProper(s[n..]);
      ScalarSplit(s, n);
      var rest := Split(s[n..]);
      assert IsLower(rest[0]) && ValidUtf8(rest[0]);
      ScalarPrefixed(s, n, rest[0]);
      PiecesCons(s, n);
    }
  }

  lemma ScalarPrefixed(s: text, n: nat, l: text)
    requires s != [] && n == ScalarLength(s) && n > 0 && IsLower(s) && IsLower(l) && ValidUtf8(l)
    ensures IsLower(s[..n] + l) && ValidUtf8(s[..n] + l)
  {
    var t := s[..n] + l;
    assert t[n..] == l;
    assert ScalarLength(t) == n;
  }

  lemma PiecesCons(s: text, n: nat)
    requires s != [] && n == ScalarLength(s) && n > 0 && GoodPieces(Split(s[n..]))
    requires IsLower(s[..n] + Split(s[n..])[0]) && ValidUtf8(s[..n] + Split(s[n..])[0])
    ensures GoodPieces(Split(s))
  {
    hide Split, IsLower, ValidUtf8;
    ScalarSplit(s, n);
    assert IsLower([]) && ValidUtf8([]) by { EmptyIsGood(); }
  }

  lemma EmptyIsGood()
    ensures IsLower([]) && ValidUtf8([])
  {}

  /** Dots never occur inside a multi-octet scalar. */
  lemma ScalarSplit(s: text, n: nat)
    requires s != [] && n == ScalarLength(s) && n > 0
    ensures s[0] == DOT ==> n == 1
    ensures Split(s) == if s[0] == DOT then [[]] + Split(s[1..])
                        else [s[..n] + Split(s[n..])[0]] + Split(s[n..])[1..]
  {
    if s[0] != DOT {
      PrefixSplit(s, n);
    }
  }

  lemma {:induction false} PrefixSplit(s: text, n: nat)
    requires n <= |s| && DOT !in s[..n]
    ensures Split(s) == [s[..n] + Split(s[n..])[0]] + Split(s[n..])[1..]
  {
    hide Split, Glue;
    var rest := Split(s[n..]);
    if n == 0 {
      assert s[0..] == s;
      assert s[..0] + rest[0] == rest[0];
    } else {
      var t := s[1..];
      assert t[..n - 1] == s[1..n] && t[n - 1..] == s[n..];
      assert s[..n] == [s[0]] + s[1..n] && s[0] in s[..n];
      PrefixSplit(t, n - 1);
      SplitFirst(s);
      GluePiece(s[0], s[1..n], rest);
    }
  }

  lemma GluePiece(c: byte, p: text, ls: seq<text>)
    requires |ls| > 0
    ensures Glue(c, [p + ls[0]] + ls[1..]) == [[c] + p + ls[0]] + ls[1..]
  {
    assert [c] + (p + ls[0]) == [c] + p + ls[0];
  }

  lemma {:induction false} JoinedProper(ls: seq<text>)
    requires |ls| > 0 && forall i :: 0 <= i < |ls| ==> ProperLabel(ls[i])
    requires NoEmptyLabel(Join(ls))
    ensures ProperLabels(Split(Join(ls)))
  {
    JoinedPiecesFit(ls, 0xC0);
    JoinedPiecesProper(ls);
  }

  lemma {:induction false} JoinedPiecesProper(ls: seq<text>)
    requires |ls| > 0 && forall i :: 0 <= i < |ls| ==> ProperLabel(ls[i])
    ensures GoodPieces(Split(Join(ls)))
  {
    PiecesProper(ls[0]);
    if |ls| > 1 {
      JoinedPiecesProper(ls[1..]);
      SplitConcat(ls[0], Join(ls[1..]));
    }
  }

  // `canonical_name` on names with empty labels

  function UpToEmpty(ls: seq<text>): seq<text> {
    if ls == [] || ls[0] == [] then [] else [ls[0]] + UpToEmpty(ls[1..])
  }

  lemma AtBounded(buf: bytes, pos: nat, chunk: bytes)
    requires At(buf, pos, chunk)
    ensures pos + |chunk| <= |buf|
  {}

  /** An empty label is written as a terminator, so reading stops there. */
  lemma {:induction false} ReadUpToEmpty(buf: bytes, pos: nat, ls: seq<text>, jumps: nat)
    requires jumps <= MAX_JUMPS && ShorterThan(ls, 0xC0) && At(buf, pos, LabelsWire(ls) + [0])
    ensures var r := ReadLabels(buf, pos, jumps); r.Got? && r.value == UpToEmpty(ls)
    decreases |ls|
  {
    hide At;
    if ls == [] {
      assert LabelsWire(ls) + [0] == [0];
      AtIndex(buf, pos, [0], 0);
      AtBounded(buf, pos, [0]);
    } else {
      var rest := LabelsWire(ls[1..]) + [0];
      assert LabelsWire(ls) + [0] == LabelWire(ls[0]) + rest;
      if ls[0] == [] {
        AtIndex(buf, pos, LabelWire(ls[0]) + rest, 0);
        AtSplit(buf, pos, LabelWire(ls[0]), rest);
        AtBounded(buf, pos, LabelWire(ls[0]));
      } else {
        LabelAt(buf, pos, ls[0], rest);
        ReadUpToEmpty(buf, pos + 1 + |ls[0]|, ls[1..], jumps);
      }
    }
  }

  lemma {:induction false} TrimmedPiecesFit(s: text, n: nat)
    requires ShorterThan(Split(s), n)
    ensures ShorterThan(Split(TrimDots(s)), n)
  {
    if s != [] && s[|s| - 1] == DOT {
      var t := s[..|s| - 1];
      assert s == t + [DOT] + [];
      SplitConcat(t, []);
      forall i | 0 <= i < |Split(t)| ensures |Split(t)[i]| < n {
        assert Split(s)[i] == Split(t)[i];
      }
      TrimmedPiecesFit(t, n);
    }
  }

  lemma ReadIsLower(buf: bytes, pos: nat)
    requires ReadName(buf, pos).Got?
    ensures Lower(ReadName(buf, pos).value) == ReadName(buf, pos).value
  {
    NamePartsOfRead(buf, pos);
    JoinLower(DecodeLabels(ReadLabels(buf, pos, 0).value));
    LowerIsLower(ReadName(buf, pos).value);
  }

  lemma WholeAt(buf: bytes)
    ensures At(buf, 0, buf)
  {}

  lemma ReadPiecesFit(buf: bytes, pos: nat)
    requires ReadName(buf, pos).Got?
    ensures ShorterThan(Split(ReadName(buf, pos).value), 0xC0)
  {
    NamePartsOfRead(buf, pos);
    if ReadLabels(buf, pos, 0).value == [] {
      PiecesFit(ROOT, 0xC0);
    }
  }

  /** Dot-free labels the reader can give back. */
  predicate ReadableLabels(ls: seq<text>) {
    forall i :: 0 <= i < |ls| ==> 0 < |ls[i]| < 0xC0 && DOT !in ls[i]
  }

  lemma {:induction false} UpToEmptyReadable(ls: seq<text>)
    requires ShorterThan(ls, 0xC0) && DotFree(ls)
    ensures ReadableLabels(UpToEmpty(ls))
  {
    if ls != [] && ls[0] != [] {
      UpToEmptyReadable(ls[1..]);
      assert UpToEmpty(ls) == [ls[0]] + UpToEmpty(ls[1..]);
    }
  }

  /** A name read from a packet survives `canonical_name` exactly when it is restorable. */
  lemma CanonicalExact(buf: bytes, pos: nat)
    requires ReadName(buf, pos).Got?
    ensures var name := ReadName(buf, pos).value;
            var again := ReadName(CanonicalName(name), 0);
            (again.Got? && again.value == name) <==> Restorable(name)
  {
    hide At, ReadLabels, ShorterThan, Restorable, ProperName, ReadableLabels;
    var name := ReadName(buf, pos).value;
    var wire := CanonicalName(name);
    ReadIsProper(buf, pos);
    assert At(wire, 0, wire) by { WholeAt(wire); }
    if Restorable(name) {
      CanonicalIsPlain(name);
      ReadNameBack(wire, 0, name);
    } else {
      ReadIsLower(buf, pos);
      ReadPiecesFit(buf, pos);
      var trimmed := TrimDots(name);
      if trimmed == [] {
        assert LabelsWire([]) + [0] == wire;
        ReadLabelsBack(wire, 0, [], 0);
        TextOfPieces([]);
      } else {
        TrimmedPiecesFit(name, 0xC0);
        ReadUpToEmpty(wire, 0, Split(trimmed), 0);
        SplitDotFree(trimmed);
        UpToEmptyReadable(Split(trimmed));
        TextOfPieces(UpToEmpty(Split(trimmed)));
      }
    }
  }

  lemma TextOfPieces(ls: seq<text>)
    requires ReadableLabels(ls)
    ensures Restorable(NameText(ls))
  {
    forall i | 0 <= i < |ls| ensures DecodeLabel(ls[i]) != [] && DOT !in DecodeLabel(ls[i]) {
      DecodeShape(ls[i]);
    }
    if ls != [] {
      JoinNoEmpty(DecodeLabels(ls));
    }
  }

  lemma ReadsAlone(prefix: bytes, name: text)
    ensures var again := ReadName(prefix + NameWire(name), |prefix|);
            (again.Got? && again.value == name) <==> ProperName(name)
  {
    NameRoundTripExact(prefix + NameWire(name), |prefix|, name);
  }

  lemma {:induction false} ReadU32sBack(buf: bytes, pos: nat, vs: seq<u32>)
    requires At(buf, pos, U32sWire(vs))
    ensures ReadU32s(buf, pos, |vs|) == Got(vs, pos + 4 * |vs|)
    decreases |vs|
  {
    hide At, ReadU32, Be32;
    if vs != [] {
      AtSplit(buf, pos, Be32(vs[0]), U32sWire(vs[1..]));
      ReadU32Back(buf, pos, vs[0]);
      ReadU32sBack(buf, pos + 4, vs[1..]);
      assert vs == [vs[0]] + vs[1..];
    }
  }

  lemma SoaReadsBack(buf: bytes, pos: nat, s: Soa)
    requires |s.numbers| == |SOA_NUMBERS| && At(buf, pos, SoaWire(s))
    requires ProperName(s.mname) && ProperName(s.rname)
    ensures ReadSoa(buf, pos) == Got(s, pos + |SoaWire(s)|)
  {
    hide At, ReadName, ReadU32s, NameWire, U32sWire, ProperName;
    var m, r, tail := NameWire(s.mname), NameWire(s.rname), U32sWire(s.numbers);
    AtSplit(buf, pos, m, r + tail);
    AtSplit(buf, pos + |m|, r, tail);
    ReadNameBack(buf, pos, s.mname);
    ReadNameBack(buf, pos + |m|, s.rname);
    ReadU32sBack(buf, pos + |m| + |r|, s.numbers);
    U32sWireLength(s.numbers);
  }

  lemma {:induction false} U32sWireLength(vs: seq<u32>)
    ensures |U32sWire(vs)| == 4 * |vs|
  {
    if vs != [] {
      U32sWireLength(vs[1..]);
    }
  }

  lemma SoaProperIfBack(buf: bytes, s: Soa)
    requires At(buf, 0, SoaWire(s))
    requires ReadSoa(buf, 0).Got? && ReadSoa(buf, 0).value == s
    ensures ProperName(s.mname) && ProperName(s.rname)
  {
    hide At, ReadName, ReadU32s, NameWire, U32sWire, ProperName;
    var m, r, tail := NameWire(s.mname), NameWire(s.rname), U32sWire(s.numbers);
    AtSplit(buf, 0, m, r + tail);
    AtSplit(buf, |m|, r, tail);
    NameRoundTripExact(buf, 0, s.mname);
    ReadNameBack(buf, 0, s.mname);
    NameRoundTripExact(buf, |m|, s.rname);
  }

  // Decompression keeps the meaning

  predicate AllRestorable(names: seq<text>) {
    forall i :: 0 <= i < |names| ==> Restorable(names[i])
  }

  /** The stored data, read on its own, says what it said inside the packet. */
  predicate SaysTheSame(packet: bytes, t: RType, raw: bytes, pos: nat) {
    var stored := Decompress(packet, t, raw, pos);
    ReadContent(stored, t, stored, 0) == ReadContent(packet, t, raw, pos)
  }

  lemma SingleSaysTheSame(packet: bytes, t: RType, raw: bytes, pos: nat)
    requires t in {NS, CNAME, PTR} && ReadContent(packet, t, raw, pos).Some?
    ensures SaysTheSame(packet, t, raw, pos) <==> AllRestorable(ReadContent(packet, t, raw, pos).value.names)
  {
    hide ReadName, CanonicalName, Restorable;
    var content := ReadContent(packet, t, raw, pos).value;
    var name := ReadName(packet, pos).value;
    CanonicalExact(packet, pos);
    assert content.names[0] == name;
    var again := ReadName(CanonicalName(name), 0);
    if again.Got? {
      assert [again.value][0] == again.value;
    }
  }

  lemma PrefixedSaysTheSame(packet: bytes, t: RType, k: nat, raw: bytes, pos: nat)
    requires (t == MX && k == 2) || (t == SRV && k == 6)
    requires ReadContent(packet, t, raw, pos).Some?
    ensures SaysTheSame(packet, t, raw, pos) <==> AllRestorable(ReadContent(packet, t, raw, pos).value.names)
  {
    hide ReadName, NameWire, Restorable, ProperName;
    var content := ReadContent(packet, t, raw, pos).value;
    var name := ReadName(packet, pos + k).value;
    var stored := raw[..k] + NameWire(name);
    assert Decompress(packet, t, raw, pos) == stored && stored[..k] == raw[..k];
    ReadIsProper(packet, pos + k);
    ReadsAlone(raw[..k], name);
    assert content.names[0] == name;
    var again := ReadName(stored, k);
    if again.Got? {
      assert [again.value][0] == again.value;
    }
  }

  lemma SoaSaysTheSame(packet: bytes, raw: bytes, pos: nat)
    requires ReadContent(packet, SOA, raw, pos).Some?
    ensures SaysTheSame(packet, SOA, raw, pos) <==> AllRestorable(ReadContent(packet, SOA, raw, pos).value.names)
  {
    hide ReadName, SoaWire, Restorable, ProperName, ReadU32s;
    var content := ReadContent(packet, SOA, raw, pos).value;
    var soa := ReadSoa(packet, pos).value;
    var stored := SoaWire(soa);
    ReadIsProper(packet, pos);
    ReadIsProper(packet, ReadName(packet, pos).next);
    assert content.names[0] == soa.mname && content.names[1] == soa.rname;
    if ProperName(soa.mname) && ProperName(soa.rname) {
      assert At(stored, 0, stored);
      SoaReadsBack(stored, 0, soa);
    } else if SaysTheSame(packet, SOA, raw, pos) {
      var s := ReadSoa(stored, 0).value;
      assert ReadContent(stored, SOA, stored, 0).value.names == [s.mname, s.rname];
      assert s.mname == [s.mname, s.rname][0] && s.rname == [s.mname, s.rname][1];
      assert At(stored, 0, stored);
      SoaProperIfBack(stored, soa);
    }
  }

  /**
   Whatever compression the packet uses, the stored data of a record whose names decode
   says the same on its own as inside the packet -- exactly when no label of an embedded
   name hides dots that leave an empty label.
   */
  lemma DecompressKeepsMeaning(packet: bytes, t: RType, raw: bytes, pos: nat)
    requires CarriesNames(t) && ReadContent(packet, t, raw, pos).Some?
    ensures SaysTheSame(packet, t, raw, pos) <==> AllRestorable(ReadContent(packet, t, raw, pos).value.names)
  {
    hide SaysTheSame, AllRestorable, ReadContent;
    match t
    case NS | CNAME | PTR => SingleSaysTheSame(packet, t, raw, pos);
    case MX => PrefixedSaysTheSame(packet, MX, 2, raw, pos);
    case SRV => PrefixedSaysTheSame(packet, SRV, 6, raw, pos);
    case SOA => SoaSaysTheSame(packet, raw, pos);
  }

  // Stored data holds no pointers

  /** The name at `pos` is read by a reader that may follow no pointer. */
  predicate PlainAt(buf: bytes, pos: nat) {
    ReadLabels(buf, pos, MAX_JUMPS).Got?
  }

  /** No name in the data needs a pointer. */
  predicate PointerFree(t: RType, stored: bytes) {
    match t
    case MX => PlainAt(stored, 2)
    case SRV => PlainAt(stored, 6)
    case SOA => PlainAt(stored, 0) && PlainAt(stored, ReadLabels(stored, 0, MAX_JUMPS).next)
    case _ => PlainAt(stored, 0)
  }

  /** A name read from a packet is written plainly, wherever it is put. */
  lemma WrittenPlainly(packet: bytes, pos: nat, buf: bytes, at: nat)
    requires ReadName(packet, pos).Got? && At(buf, at, NameWire(ReadName(packet, pos).value))
    ensures var wire := NameWire(ReadName(packet, pos).value);
            PlainAt(buf, at) && ReadLabels(buf, at, MAX_JUMPS).next == at + |wire|
  {
    hide At, ReadName, ReadLabels;
    var name := ReadName(packet, pos).value;
    ReadPiecesFit(packet, pos);
    LabelsUntrimmed(name);
    NonEmptyFits(Split(name), 0xC0);
    ReadLabelsBack(buf, at, Labels(name), MAX_JUMPS);
  }

  lemma CanonicalPlainly(packet: bytes, pos: nat)
    requires ReadName(packet, pos).Got?
    ensures PlainAt(CanonicalName(ReadName(packet, pos).value), 0)
  {
    hide At, ReadName, ReadLabels, ShorterThan;
    var name := ReadName(packet, pos).value;
    var wire := CanonicalName(name);
    ReadIsLower(packet, pos);
    ReadPiecesFit(packet, pos);
    TrimmedPiecesFit(name, 0xC0);
    WholeAt(wire);
    if TrimDots(name) == [] {
      assert LabelsWire([]) + [0] == wire;
      ReadLabelsBack(wire, 0, [], MAX_JUMPS);
    } else {
      ReadUpToEmpty(wire, 0, Split(TrimDots(name)), MAX_JUMPS);
    }
  }

  lemma SoaPlainly(packet: bytes, pos: nat)
    requires ReadSoa(packet, pos).Got?
    ensures PointerFree(SOA, SoaWire(ReadSoa(packet, pos).value))
  {
    hide At, ReadName, ReadLabels, NameWire, ReadU32s, U32sWire, PlainAt;
    var soa := ReadSoa(packet, pos).value;
    var m, r, tail := NameWire(soa.mname), NameWire(soa.rname), U32sWire(soa.numbers);
    var stored := SoaWire(soa);
    WholeAt(stored);
    AtSplit(stored, 0, m, r + tail);
    AtSplit(stored, |m|, r, tail);
    WrittenPlainly(packet, pos, stored, 0);
    WrittenPlainly(packet, ReadName(packet, pos).next, stored, |m|);
  }

  /** Whatever pointers the packet uses, the stored data of a record whose names decode holds none. */
  lemma StoredIsPointerFree(packet: bytes, t: RType, raw: bytes, pos: nat)
    requires CarriesNames(t) && ReadContent(packet, t, raw, pos).Some?
    ensures PointerFree(t, Decompress(packet, t, raw, pos))
  {
    hide ReadName, NameWire, CanonicalName, PlainAt, ReadSoa, SoaWire;
    var stored := Decompress(packet, t, raw, pos);
    match t
    case NS | CNAME | PTR => CanonicalPlainly(packet, pos);
    case MX =>
      AfterPrefix(raw[..2], NameWire(ReadName(packet, pos + 2).value));
      WrittenPlainly(packet, pos + 2, stored, 2);
    case SRV =>
      AfterPrefix(raw[..6], NameWire(ReadName(packet, pos + 6).value));
      WrittenPlainly(packet, pos + 6, stored, 6);
    case SOA =>
      SoaPlainly(packet, pos);
  }

  lemma AfterPrefix(a: bytes, b: bytes)
    ensures At(a + b, |a|, b)
  {}
}
