/**
 Reading undoes writing: names, record data, records and whole packets.
 */
module RoundTrip {
  import opened Bytes
  import opened Names
  import opened Wire

  /** A label the reader gives back unchanged. */
  predicate ProperLabel(l: text) {
    0 < |l| < 0xC0 && IsLower(l) && ValidUtf8(l)
  }

  predicate ProperLabels(ls: seq<text>) {
    forall i :: 0 <= i < |ls| ==> ProperLabel(ls[i])
  }

  /** The root, or dot-separated lower-case labels of 1..191 octets. */
  predicate ProperName(name: text) {
    name == ROOT || ProperLabels(Split(name))
  }

  predicate PlainLabels(ls: seq<text>) {
    forall i :: 0 <= i < |ls| ==> 0 < |ls[i]| < 0xC0
  }

  lemma LabelAt(buf: bytes, pos: nat, l: text, rest: bytes)
    requires 0 < |l| < 0xC0 && At(buf, pos, LabelWire(l) + rest)
    ensures pos + 1 + |l| <= |buf| && buf[pos] == |l| && buf[pos + 1..pos + 1 + |l|] == l
    ensures At(buf, pos + 1 + |l|, rest)
  {
    AtSplit(buf, pos, LabelWire(l), rest);
    AtSplit(buf, pos, [|l|], l);
    AtIndex(buf, pos, [|l|], 0);
  }

  lemma {:induction false} ReadLabelsBack(buf: bytes, pos: nat, ls: seq<text>, jumps: nat)
    requires jumps <= MAX_JUMPS && PlainLabels(ls)
    requires At(buf, pos, LabelsWire(ls) + [0])
    ensures ReadLabels(buf, pos, jumps) == Got(ls, pos + |LabelsWire(ls)| + 1)
    decreases |ls|
  {
    if ls == [] {
      AtIndex(buf, pos, [0], 0);
    } else {
      var l, more := ls[0], ls[1..];
      var rest := LabelsWire(more) + [0];
      assert LabelsWire(ls) + [0] == LabelWire(l) + rest;
      LabelAt(buf, pos, l, rest);
      ReadLabelsBack(buf, pos + 1 + |l|, more, jumps);
      assert ls == [l] + more;
    }
  }

  lemma {:induction false} ReadLabelsShape(buf: bytes, pos: nat, jumps: nat)
    requires jumps <= MAX_JUMPS && ReadLabels(buf, pos, jumps).Got?
    ensures PlainLabels(ReadLabels(buf, pos, jumps).value)
    decreases MAX_JUMPS - jumps, |buf| - pos
  {
    if buf[pos] != 0 {
      if IsPointer(buf[pos]) {
        ReadLabelsShape(buf, PointerTarget(buf[pos], buf[pos + 1]), jumps + 1);
      } else {
        ReadLabelsShape(buf, pos + 1 + buf[pos], jumps);
      }
    }
  }

  lemma DecodeShape(raw: bytes)
    requires 0 < |raw| < 0xC0
    ensures ProperLabel(DecodeLabel(raw))
    ensures DOT !in raw ==> DOT !in DecodeLabel(raw)
  {
    if ValidUtf8(raw) {
      LowerKeepsUtf8(raw);
      LowerIsLower(raw);
    }
  }

  lemma DecodeProper(ls: seq<text>)
    requires ProperLabels(ls)
    ensures DecodeLabels(ls) == ls
  {
    forall i | 0 <= i < |ls| ensures DecodeLabel(ls[i]) == ls[i] {
      LowerIsLower(ls[i]);
    }
  }

  lemma ReadNameBack(buf: bytes, pos: nat, name: text)
    requires ProperName(name) && At(buf, pos, NameWire(name))
    ensures ReadName(buf, pos) == Got(name, pos + |NameWire(name)|)
  {
    if name == ROOT {
      RootLabels();
      ReadLabelsBack(buf, pos, [], 0);
    } else {
      LabelsOfProper(name);
      ReadLabelsBack(buf, pos, Labels(name), 0);
      DecodeProper(Labels(name));
      JoinSplit(name);
    }
  }

  lemma NamePartsOfRead(buf: bytes, pos: nat)
    requires ReadLabels(buf, pos, 0).Got?
    ensures var raws := ReadLabels(buf, pos, 0).value;
            ProperLabels(DecodeLabels(raws)) &&
            (raws != [] ==> ShorterThan(Split(NameText(raws)), 0xC0))
  {
    ReadLabelsShape(buf, pos, 0);
    var raws := ReadLabels(buf, pos, 0).value;
    var parts := DecodeLabels(raws);
    forall i | 0 <= i < |raws| ensures ProperLabel(parts[i]) {
      DecodeShape(raws[i]);
    }
    JoinedPiecesFit(parts, 0xC0);
  }

  /**
   A written name reads back as itself exactly when it is proper: a label of 192 octets
   or more, an upper-case letter, an empty label or a trailing dot is never restored,
   not even by chance through a pointer.
   */
  lemma NameRoundTripExact(buf: bytes, pos: nat, name: text)
    requires At(buf, pos, NameWire(name))
    ensures (ReadName(buf, pos).Got? && ReadName(buf, pos).value == name) <==> ProperName(name)
  {
    if ProperName(name) {
      ReadNameBack(buf, pos, name);
    } else if ReadName(buf, pos).Got? && ReadName(buf, pos).value == name {
      hide At, ReadLabels, NameWire, DecodeLabels, ProperLabel;
      NamePartsOfRead(buf, pos);
      WrittenLabelsRead(buf, pos, name);
      DecodedDotFree(Labels(name));
      SplitJoin(DecodeLabels(Labels(name)));
      assert false;
    }
  }

  /** When no piece of the name is too long, what is read are its labels. */
  lemma WrittenLabelsRead(buf: bytes, pos: nat, name: text)
    requires At(buf, pos, NameWire(name))
    ensures ShorterThan(Split(name), 0xC0)
            ==> ReadLabels(buf, pos, 0) == Got(Labels(name), pos + |NameWire(name)|)
  {
    if ShorterThan(Split(name), 0xC0) {
      LabelsUntrimmed(name);
      NonEmptyFits(Split(name), 0xC0);
      ReadLabelsBack(buf, pos, Labels(name), 0);
    }
  }

  lemma {:induction false} NonEmptyFits(ls: seq<text>, n: nat)
    requires ShorterThan(ls, n)
    ensures ShorterThan(NonEmpty(ls), n)
  {
    if ls != [] {
      NonEmptyFits(ls[1..], n);
      var head: seq<text> := if ls[0] == [] then [] else [ls[0]];
      assert NonEmpty(ls) == head + NonEmpty(ls[1..]);
    }
  }

  lemma DecodedDotFree(ls: seq<text>)
    requires PlainPieces(ls)
    ensures DotFree(DecodeLabels(ls))
  {
    forall i | 0 <= i < |ls| ensures DOT !in DecodeLabels(ls)[i] {
      assert DecodeLabels(ls)[i] == DecodeLabel(ls[i]);
      assert DOT !in ls[i];
    }
  }

  // Integers

  lemma ReadU16Back(buf: bytes, pos: nat, v: u16)
    requires At(buf, pos, Be16(v))
    ensures ReadU16(buf, pos) == Got(v, pos + 2)
  {
    AtIndex(buf, pos, Be16(v), 0);
    AtIndex(buf, pos, Be16(v), 1);
  }

  lemma ReadU32Back(buf: bytes, pos: nat, v: u32)
    requires At(buf, pos, Be32(v))
    ensures ReadU32(buf, pos) == Got(v, pos + 4)
  {
    AtSplit(buf, pos, Be16(v / 0x1_0000), Be16(v % 0x1_0000));
    ReadU16Back(buf, pos, v / 0x1_0000);
    ReadU16Back(buf, pos + 2, v % 0x1_0000);
  }

  // Names inside record data

  lemma {:induction false} JoinLower(ls: seq<text>)
    requires forall i :: 0 <= i < |ls| ==> IsLower(ls[i])
    ensures IsLower(Join(ls))
  {
    if |ls| > 1 {
      JoinLower(ls[1..]);
    }
  }

  lemma ProperNameLower(name: text)
    requires ProperName(name)
    ensures Lower(name) == name
  {
    if name != ROOT {
      JoinLower(Split(name));
      JoinSplit(name);
    }
    LowerIsLower(name);
  }

  /** On proper names the two encoders of the source agree. */
  lemma CanonicalIsPlain(name: text)
    requires ProperName(name)
    ensures CanonicalName(name) == NameWire(name)
  {
    ProperNameLower(name);
    if name == ROOT {
      assert TrimDots(ROOT) == TrimDots([]);
      RootLabels();
    } else {
      LabelsOfProper(name);
    }
  }
}
