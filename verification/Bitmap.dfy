/**
 The NSEC type bitmap (section 4.1.2 of RFC 4034; `encode_nsec_bitmap` in src/zone.rs)
 and its decoding as a validator does it.
 */
module Bitmap {
  import opened Bytes

  // Bits of a number

  /** Bit `i`, counted from the least significant. */
  predicate BitAt(v: nat, i: nat) {
    if i == 0 then v % 2 == 1 else BitAt(v / 2, i - 1)
  }

  /** `a | b` */
  function Or(a: nat, b: nat): nat {
    if a == 0 && b == 0 then 0
    else Or(a / 2, b / 2) * 2 + if a % 2 == 1 || b % 2 == 1 then 1 else 0
  }

  /** `v >> k` */
  function Shr(v: nat, k: nat): nat {
    if k == 0 then v else Shr(v / 2, k - 1)
  }

  function Bound(n: nat): nat {
    if n == 0 then 1 else 2 * Bound(n - 1)
  }

  function FromBits(bits: seq<bool>): nat {
    if bits == [] then 0
    else FromBits(bits[..|bits| - 1]) * 2 + if bits[|bits| - 1] then 1 else 0
  }

  lemma {:induction false} OrBits(a: nat, b: nat, i: nat)
    ensures BitAt(Or(a, b), i) <==> BitAt(a, i) || BitAt(b, i)
  {
    OrHalves(a, b);
    hide Or;
    if i > 0 {
      OrBits(a / 2, b / 2, i - 1);
    }
  }

  lemma OrHalves(a: nat, b: nat)
    ensures Or(a, b) / 2 == Or(a / 2, b / 2)
    ensures Or(a, b) % 2 == 1 <==> a % 2 == 1 || b % 2 == 1
  {}

  lemma {:induction false} OrBound(a: nat, b: nat, n: nat)
    requires a < Bound(n) && b < Bound(n)
    ensures Or(a, b) < Bound(n)
  {
    if n > 0 {
      OrBound(a / 2, b / 2, n - 1);
    }
  }

  lemma {:induction false} ShrBits(v: nat, k: nat, i: nat)
    ensures BitAt(Shr(v, k), i) <==> BitAt(v, k + i)
  {
    if k > 0 {
      ShrBits(v / 2, k - 1, i);
    }
  }

  lemma {:induction false} ShrBound(v: nat, k: nat)
    ensures Shr(v, k) <= v
  {
    if k > 0 {
      ShrBound(v / 2, k - 1);
    }
  }

  lemma {:induction false} FromBitsBits(bits: seq<bool>, i: nat)
    requires i < |bits|
    ensures BitAt(FromBits(bits), i) <==> bits[|bits| - 1 - i]
  {
    var init := bits[..|bits| - 1];
    assert FromBits(bits) / 2 == FromBits(init);
    if i > 0 {
      FromBitsBits(init, i - 1);
    }
  }

  lemma {:induction false} FromBitsBound(bits: seq<bool>)
    ensures FromBits(bits) < Bound(|bits|)
  {
    if bits != [] {
      FromBitsBound(bits[..|bits| - 1]);
    }
  }

  /** Numbers below 2^n are equal when their n low bits are. */
  lemma {:induction false} SameBits(a: nat, b: nat, n: nat)
    requires a < Bound(n) && b < Bound(n)
    requires forall i: nat :: i < n ==> (BitAt(a, i) <==> BitAt(b, i))
    ensures a == b
  {
    if n > 0 {
      assert BitAt(a, 0) <==> BitAt(b, 0);
      forall i: nat | i < n - 1 ensures BitAt(a / 2, i) <==> BitAt(b / 2, i) {
        assert BitAt(a, i + 1) <==> BitAt(b, i + 1);
      }
      SameBits(a / 2, b / 2, n - 1);
    }
  }

  lemma ByteBound()
    ensures Bound(8) == 0x100
  {
    assert Bound(4) == 16;
  }

  // Octets of the bitmap

  /** Bit `k` of an octet, counted from the most significant as the RFC does. */
  predicate Bit(octet: byte, k: nat)
    requires k < 8
  {
    BitAt(octet, 7 - k)
  }

  /** `octet | 0x80 >> k` */
  function SetBit(octet: byte, k: nat): (r: byte)
    requires k < 8
    ensures forall j: nat :: j < 8 ==> (Bit(r, j) <==> j == k || Bit(octet, j))
  {
    SetBitBits(octet, k);
    Or(octet, Shr(0x80, k))
  }

  lemma SetBitBits(octet: byte, k: nat)
    requires k < 8
    ensures Or(octet, Shr(0x80, k)) < 0x100
    ensures forall j: nat :: j < 8 ==> (Bit(Or(octet, Shr(0x80, k)), j) <==> j == k || Bit(octet, j))
  {
    ByteBound();
    ShrBound(0x80, k);
    OrBound(octet, Shr(0x80, k), 8);
    forall j: nat | j < 8 ensures Bit(Or(octet, Shr(0x80, k)), j) <==> j == k || Bit(octet, j) {
      OrBits(octet, Shr(0x80, k), 7 - j);
      ShrBits(0x80, k, 7 - j);
      OnlyTopBit(k + 7 - j);
    }
  }

  lemma OnlyTopBit(i: nat)
    ensures BitAt(0x80, i) <==> i == 7
  {
    assert 0x80 == FromBits([true] + seq(7, _ => false)) by { TopBit(); }
    ByteBound();
    if i < 8 {
      FromBitsBits([true] + seq(7, _ => false), i);
    } else {
      HighBitsZero(0x80, 8, i);
    }
  }

  lemma TopBit()
    ensures FromBits([true] + seq(7, _ => false)) == 0x80
  {
    DoubleZeros(7);
    ByteBound();
  }

  lemma {:induction false} DoubleZeros(n: nat)
    ensures FromBits([true] + seq(n, _ => false)) == Bound(n)
  {
    var bits := [true] + seq(n, _ => false);
    if n > 0 {
      assert bits[..n] == [true] + seq(n - 1, _ => false);
      DoubleZeros(n - 1);
    } else {
      assert bits == [true] && bits[..0] == [];
    }
  }

  lemma {:induction false} HighBitsZero(v: nat, n: nat, i: nat)
    requires v < Bound(n) && i >= n
    ensures !BitAt(v, i)
  {
    if n == 0 {
      if i > 0 { HighBitsZero(0, 0, i - 1); }
    } else {
      HighBitsZero(v / 2, n - 1, i - 1);
    }
  }

  function Octet(types: set<u16>, base: nat): (r: byte)
    ensures forall k: nat :: k < 8 ==> (Bit(r, k) <==> base + k in types)
  {
    var bits := seq(8, k requires 0 <= k < 8 => base + k in types);
    EightBits(bits);
    FromBits(bits)
  }

  lemma EightBits(bits: seq<bool>)
    requires |bits| == 8
    ensures FromBits(bits) < 0x100
    ensures forall k: nat :: k < 8 ==> (Bit(FromBits(bits), k) <==> bits[k])
  {
    ByteBound();
    FromBitsBound(bits);
    forall k: nat | k < 8 ensures Bit(FromBits(bits), k) <==> bits[k] {
      FromBitsBits(bits, 7 - k);
    }
  }

  lemma SameOctet(a: byte, b: byte)
    requires forall k: nat :: k < 8 ==> (Bit(a, k) <==> Bit(b, k))
    ensures a == b
  {
    ByteBound();
    forall i: nat | i < 8 ensures BitAt(a, i) <==> BitAt(b, i) {
      assert Bit(a, 7 - i) <==> Bit(b, 7 - i);
    }
    SameBits(a, b, 8);
  }

  // The encoding as a function of the set of types

  /** The 32 octets of a window. */
  type row = r: bytes | |r| == 32 witness seq(32, _ => 0)

  function WindowBits(types: set<u16>, w: byte): (bits: row)
    ensures forall j :: 0 <= j < 32 ==> bits[j] == Octet(types, w * 0x100 + 8 * j)
  {
    seq(32, j requires 0 <= j < 32 => Octet(types, w * 0x100 + 8 * j))
  }

  /** One past the last octet that is not zero. */
  function Used(bits: bytes): (n: nat)
    ensures n <= |bits|
    ensures n > 0 ==> bits[n - 1] != 0
    ensures forall j :: n <= j < |bits| ==> bits[j] == 0
  {
    if bits == [] then 0
    else if bits[|bits| - 1] != 0 then |bits|
    else Used(bits[..|bits| - 1])
  }

  function WindowWire(w: byte, bits: row): bytes {
    if Used(bits) == 0 then [] else [w, Used(bits)] + bits[..Used(bits)]
  }

  /** Windows `from` to 255 in ascending order. */
  function BitmapFrom(types: set<u16>, from: nat): bytes
    requires from <= 0x100
    decreases 0x100 - from
  {
    if from == 0x100 then [] else WindowWire(from, WindowBits(types, from)) + BitmapFrom(types, from + 1)
  }

  function Encode(types: set<u16>): bytes {
    BitmapFrom(types, 0)
  }

  // Decoding

  datatype Window = Window(number: byte, octets: bytes)

  /** Section 4.1.2 of RFC 4034: window number, length 1..32, that many octets. */
  function Decode(data: bytes): Option<seq<Window>> {
    if data == [] then Some([])
    else if |data| < 2 || !(1 <= data[1] <= 32) || |data| < 2 + data[1] then None
    else
      var rest := Decode(data[2 + data[1]..]);
      if rest.None? then None else Some([Window(data[0], data[2..2 + data[1]])] + rest.value)
  }

  predicate Lists(w: Window, t: u16) {
    w.number == t / 0x100 && t % 0x100 / 8 < |w.octets| && Bit(w.octets[t % 0x100 / 8], t % 8)
  }

  ghost predicate Listed(ws: seq<Window>, t: u16) {
    exists i :: 0 <= i < |ws| && Lists(ws[i], t)
  }

  /** Windows ascend, and none is empty, longer than 32 octets or ends in a zero octet. */
  predicate WellFormedWindows(ws: seq<Window>, from: nat) {
    && (forall i :: 0 <= i < |ws| ==> from <= ws[i].number && 1 <= |ws[i].octets| <= 32
                                      && ws[i].octets[|ws[i].octets| - 1] != 0)
    && (forall i, j :: 0 <= i < j < |ws| ==> ws[i].number < ws[j].number)
  }

  /** Well-formed windows that list exactly the types from window `from` on. */
  ghost predicate Represents(ws: seq<Window>, types: set<u16>, from: nat) {
    WellFormedWindows(ws, from) && forall t: u16 :: Listed(ws, t) <==> t in types && t / 0x100 >= from
  }

  lemma {:induction false} DecodeFrom(types: set<u16>, from: nat) returns (ws: seq<Window>)
    requires from <= 0x100
    ensures Decode(BitmapFrom(types, from)) == Some(ws) && Represents(ws, types, from)
    decreases 0x100 - from
  {
    if from == 0x100 {
      return [];
    }
    var bits := WindowBits(types, from);
    var rest := DecodeFrom(types, from + 1);
    hide WindowBits, Represents;
    if Used(bits) == 0 {
      assert BitmapFrom(types, from) == [] + BitmapFrom(types, from + 1) == BitmapFrom(types, from + 1);
      ws := rest;
      SkipWindow(types, from, ws);
    } else {
      DecodeWindow(from, bits, BitmapFrom(types, from + 1));
      ws := [Window(from, bits[..Used(bits)])] + rest;
      AddWindow(types, from, rest);
    }
  }

  lemma SkipWindow(types: set<u16>, from: byte, ws: seq<Window>)
    requires Used(WindowBits(types, from)) == 0 && Represents(ws, types, from + 1)
    ensures Represents(ws, types, from)
  {
    forall t: u16 | t / 0x100 == from ensures t !in types {
      NotInWindow(types, from, t);
    }
  }

  lemma AddWindow(types: set<u16>, from: byte, ws: seq<Window>)
    requires Used(WindowBits(types, from)) > 0 && Represents(ws, types, from + 1)
    ensures var bits := WindowBits(types, from);
            Represents([Window(from, bits[..Used(bits)])] + ws, types, from)
  {
    hide Lists, WindowBits;
    var bits := WindowBits(types, from);
    var w := Window(from, bits[..Used(bits)]);
    ListedCons(w, ws);
    forall t: u16 ensures Lists(w, t) <==> t in types && t / 0x100 == from {
      if t / 0x100 == from { InWindow(types, from, t); } else { OtherWindow(w, t); }
    }
  }

  lemma OtherWindow(w: Window, t: u16)
    requires t / 0x100 != w.number
    ensures !Lists(w, t)
  {}

  lemma DecodeWindow(w: byte, bits: row, rest: bytes)
    requires Used(bits) > 0 && Decode(rest).Some?
    ensures Decode(WindowWire(w, bits) + rest) == Some([Window(w, bits[..Used(bits)])] + Decode(rest).value)
  {
    hide Used;
    var data := WindowWire(w, bits) + rest;
    assert data[2..2 + Used(bits)] == bits[..Used(bits)] && data[2 + Used(bits)..] == rest;
  }

  lemma ListedCons(w: Window, ws: seq<Window>)
    ensures forall t: u16 :: Listed([w] + ws, t) <==> Lists(w, t) || Listed(ws, t)
  {
    forall t: u16 ensures Listed([w] + ws, t) <==> Lists(w, t) || Listed(ws, t) {
      var all := [w] + ws;
      if Lists(w, t) { assert Lists(all[0], t); }
      if Listed(ws, t) {
        var i :| 0 <= i < |ws| && Lists(ws[i], t);
        assert Lists(all[i + 1], t);
      }
      if Listed(all, t) && !Lists(w, t) {
        var i :| 0 <= i < |all| && Lists(all[i], t);
        assert Lists(ws[i - 1], t);
      }
    }
  }

  lemma InWindow(types: set<u16>, w: byte, t: u16)
    requires t / 0x100 == w
    ensures var bits := WindowBits(types, w);
            Lists(Window(w, bits[..Used(bits)]), t) <==> t in types
  {
    var bits := WindowBits(types, w);
    var j, k := t % 0x100 / 8, t % 8;
    assert t == w * 0x100 + 8 * j + k;
    assert Bit(Octet(types, w * 0x100 + 8 * j), k) <==> t in types;
    if j >= Used(bits) {
      assert bits[j] == 0;
      ZeroBits(k);
    }
  }

  lemma NotInWindow(types: set<u16>, w: byte, t: u16)
    requires t / 0x100 == w && Used(WindowBits(types, w)) == 0
    ensures t !in types
  {
    InWindow(types, w, t);
  }

  lemma ZeroBits(k: nat)
    requires k < 8
    ensures !Bit(0, k)
  {
    HighBitsZero(0, 0, 7 - k);
  }

  /** A validator decodes exactly the set of types, from well-formed windows. */
  lemma DecodeEncode(types: set<u16>)
    ensures Decode(Encode(types)).Some? && Represents(Decode(Encode(types)).value, types, 0)
  {
    hide BitmapFrom, Decode, Represents;
    var ws := DecodeFrom(types, 0);
  }

  // The encoder of the source

  function Elements(types: seq<u16>): set<u16> {
    set i | 0 <= i < |types| :: types[i]
  }

  ghost predicate HasWindow(types: set<u16>, w: byte) {
    exists t :: t in types && t / 0x100 == w
  }

  /** The table holds the bits of the types seen, one row per window that has any. */
  ghost predicate TableOf(windows: map<byte, row>, types: set<u16>) {
    && (forall w: byte :: w in windows <==> HasWindow(types, w))
    && (forall w: byte :: w in windows ==> windows[w] == WindowBits(types, w))
  }

  /** The table with the bit of `t` set, in a new row if need be. */
  function WithType(windows: map<byte, row>, t: u16): map<byte, row> {
    var w, j := t / 0x100, t % 0x100 / 8;
    var bits: row := if w in windows then windows[w] else seq(32, _ => 0);
    var updated: row := bits[j := SetBit(bits[j], t % 8)];
    windows[w := updated]
  }

  lemma TypeSeen(windows: map<byte, row>, types: set<u16>, t: u16)
    requires TableOf(windows, types)
    ensures TableOf(WithType(windows, t), types + {t})
  {
    hide Octet, SetBit;
    var w, j := t / 0x100, t % 0x100 / 8;
    var more := types + {t};
    if w !in windows {
      EmptyWindow(types, w);
    }
    var updated := WithType(windows, t)[w];
    forall i | 0 <= i < 32 ensures updated[i] == Octet(more, w * 0x100 + 8 * i) {
      OctetWith(types, t, w, i);
    }
    assert updated == WindowBits(more, w);
    forall v: byte | v != w ensures WindowBits(more, v) == WindowBits(types, v) {
      OtherRow(types, t, v);
    }
    forall v: byte ensures HasWindow(more, v) <==> v == w || HasWindow(types, v) {
      if v == w { assert t in more; }
      if HasWindow(types, v) {
        var u :| u in types && u / 0x100 == v;
        assert u in more;
      }
    }
  }

  lemma EmptyWindow(types: set<u16>, w: byte)
    requires forall t :: t in types ==> t / 0x100 != w
    ensures WindowBits(types, w) == seq(32, _ => 0)
  {
    var bits := WindowBits(types, w);
    forall j | 0 <= j < 32 ensures bits[j] == 0 {
      forall k: nat | k < 8 ensures Bit(Octet(types, w * 0x100 + 8 * j), k) <==> Bit(0, k) {
        ZeroBits(k);
        assert (w * 0x100 + 8 * j + k) / 0x100 == w;
      }
      SameOctet(Octet(types, w * 0x100 + 8 * j), 0);
    }
  }

  lemma OctetWith(types: set<u16>, t: u16, w: byte, i: nat)
    requires t / 0x100 == w && i < 32
    ensures var base := w * 0x100 + 8 * i;
            Octet(types + {t}, base)
            == if i == t % 0x100 / 8 then SetBit(Octet(types, base), t % 8) else Octet(types, base)
  {
    var base := w * 0x100 + 8 * i;
    var after := if i == t % 0x100 / 8 then SetBit(Octet(types, base), t % 8) else Octet(types, base);
    forall k: nat | k < 8 ensures Bit(Octet(types + {t}, base), k) <==> Bit(after, k) {
      assert base + k == t <==> i == t % 0x100 / 8 && k == t % 8;
    }
    SameOctet(Octet(types + {t}, base), after);
  }

  lemma OtherRow(types: set<u16>, t: u16, v: byte)
    requires t / 0x100 != v
    ensures WindowBits(types + {t}, v) == WindowBits(types, v)
  {
    forall j | 0 <= j < 32 ensures Octet(types + {t}, v * 0x100 + 8 * j) == Octet(types, v * 0x100 + 8 * j) {
      var base := v * 0x100 + 8 * j;
      var a, b := Octet(types + {t}, base), Octet(types, base);
      forall k: nat | k < 8 ensures Bit(a, k) <==> Bit(b, k) {
        assert (base + k) / 0x100 == v;
      }
      SameOctet(a, b);
    }
  }

  lemma UnusedWindow(types: set<u16>, w: byte)
    requires forall t :: t in types ==> t / 0x100 != w
    ensures WindowWire(w, WindowBits(types, w)) == []
  {
    EmptyWindow(types, w);
  }

  lemma BitmapStep(types: set<u16>, w: byte, out: bytes)
    ensures out + BitmapFrom(types, w)
            == out + WindowWire(w, WindowBits(types, w)) + BitmapFrom(types, w + 1)
  {
    hide WindowWire, WindowBits;
    var wire := WindowWire(w, WindowBits(types, w));
    assert out + (wire + BitmapFrom(types, w + 1)) == out + wire + BitmapFrom(types, w + 1);
  }

  lemma BitmapEnd(types: set<u16>)
    ensures BitmapFrom(types, 0x100) == []
  {}

  /** The octets depend on the set of types alone: neither order nor repetition shows. */
  method EncodeNsecBitmap(types: seq<u16>) returns (out: bytes)
    ensures out == Encode(Elements(types))
  {
    hide TableOf, Encode, Elements, SetBit;
    var windows: map<byte, row> := map[];
    EmptyTable();
    assert types[..0] == [];
    for n := 0 to |types|
      invariant TableOf(windows, Elements(types[..n]))
    {
      var t := types[n];
      TypeSeen(windows, Elements(types[..n]), t);
      ElementsSnoc(types, n);
      var win, bit := t / 0x100, t % 0x100;
      var entry: row := if win in windows then windows[win] else seq(32, _ => 0);
      entry := entry[bit / 8 := SetBit(entry[bit / 8], bit % 8)];
      windows := windows[win := entry];
    }
    assert types[..|types|] == types;
    out := WriteWindows(windows, Elements(types));
  }

  lemma EmptyTable()
    ensures TableOf(map[], Elements([]))
  {}

  lemma ElementsSnoc(types: seq<u16>, n: nat)
    requires n < |types|
    ensures Elements(types[..n + 1]) == Elements(types[..n]) + {types[n]}
  {}

  method WriteWindows(windows: map<byte, row>, ghost types: set<u16>) returns (out: bytes)
    requires TableOf(windows, types)
    ensures out == Encode(types)
  {
    hide WindowBits, BitmapFrom, Used, Octet;
    out := [];
    assert [] + BitmapFrom(types, 0) == Encode(types);
    for w := 0 to 0x100
      invariant out + BitmapFrom(types, w) == Encode(types)
    {
      BitmapStep(types, w, out);
      if w !in windows {
        UnusedWindow(types, w);
        assert out + [] == out;
        continue;
      }
      var bits := windows[w];
      var used := Used(bits);
      if used == 0 {
        assert out + [] == out;
        continue;
      }
      UsedBound(bits);
      out := out + ([w, used] + bits[..used]);
    }
    BitmapEnd(types);
    assert out + [] == out;
  }

  lemma UsedBound(bits: bytes)
    ensures Used(bits) <= |bits|
  {}
}
