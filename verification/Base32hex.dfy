/**
 Base32 with the extended hex alphabet (`base32hex_encode` in src/zone.rs), specified by
 section 7 of RFC 4648 as a change of base and proved to keep order.
 */
module Base32hex {
  import opened Bytes

  function Pow2(k: nat): (r: nat)
    ensures r > 0
  {
    if k == 0 then 1 else 2 * Pow2(k - 1)
  }

  /** The number whose digits, most significant first, are `ds`. */
  function Value(base: nat, ds: bytes): nat {
    if ds == [] then 0
    else
      var last: int := ds[|ds| - 1];
      Value(base, ds[..|ds| - 1]) * base + last
  }

  /** The last `m` digits of `v` in base 32. */
  function Digits(v: nat, m: nat): (ds: bytes)
    ensures |ds| == m && Below(32, ds)
  {
    if m == 0 then [] else Digits(v / 32, m - 1) + [v % 32]
  }

  predicate Below(base: nat, ds: bytes) {
    forall i :: 0 <= i < |ds| ==> ds[i] < base
  }

  function Letter(d: byte): byte
    requires d < 32
  {
    if d < 10 then 48 + d else 55 + d
  }

  function Letters(ds: bytes): (r: text)
    requires Below(32, ds)
    ensures |r| == |ds|
  {
    seq(|ds|, i requires 0 <= i < |ds| => Letter(ds[i]))
  }

  /** Characters for `n` octets: five bits each, the last ones padded with zeros. */
  function Width(n: nat): nat {
    (8 * n + 4) / 5
  }

  function Padding(n: nat): nat {
    5 * Width(n) - 8 * n
  }

  /** The input's bits, padded with zeros to a multiple of five, written in base 32. */
  function Encode(input: bytes): text {
    Letters(Digits(Value(256, input) * Pow2(Padding(|input|)), Width(|input|)))
  }

  lemma {:induction false} Pow2Add(a: nat, b: nat)
    ensures Pow2(a + b) == Pow2(a) * Pow2(b)
  {
    if a > 0 {
      Pow2Add(a - 1, b);
      assert Pow2(a) * Pow2(b) == 2 * (Pow2(a - 1) * Pow2(b));
    }
  }

  lemma {:induction false} ValueBound(s: bytes)
    ensures Value(256, s) < Pow2(8 * |s|)
  {
    hide Pow2;
    if s == [] {
      Pow2Small();
    } else {
      ValueBound(s[..|s| - 1]);
      Pow2Add(8, 8 * (|s| - 1));
      Pow2Small();
    }
  }

  lemma Pow2Small()
    ensures Pow2(0) == 1 && Pow2(5) == 32 && Pow2(8) == 256 && Pow2(24) == 0x100_0000
  {
    hide Pow2;
    Pow2Values(5);
    Pow2Values(8);
    Pow2Values(12);
    Pow2Values(0);
    Pow2Add(12, 12);
  }

  lemma {:induction false} DigitsValue(v: nat, m: nat)
    requires v < Pow2(5 * m)
    ensures Value(32, Digits(v, m)) == v
  {
    hide Pow2;
    if m == 0 {
      Pow2Small();
    } else {
      Pow2Add(5, 5 * (m - 1));
      Pow2Small();
      DigitsValue(v / 32, m - 1);
      var ds := Digits(v, m);
      assert ds[..|ds| - 1] == Digits(v / 32, m - 1);
    }
  }

  lemma {:induction false} ValueDigits(ds: bytes)
    requires Below(32, ds)
    ensures Digits(Value(32, ds), |ds|) == ds
  {
    if ds != [] {
      var init, last := ds[..|ds| - 1], ds[|ds| - 1];
      ValueDigits(init);
      assert ds == init + [last];
    }
  }

  /** Padding makes the value fit the width. */
  lemma PaddedFits(input: bytes)
    ensures Value(256, input) * Pow2(Padding(|input|)) < Pow2(5 * Width(|input|))
  {
    hide Pow2, Value, Width;
    var n := |input|;
    ValueBound(input);
    PaddedWidth(n);
    Pow2Add(8 * n, Padding(n));
    ScaledLess(Value(256, input), Pow2(8 * n), Pow2(Padding(n)));
  }

  lemma PaddedWidth(n: nat)
    ensures 8 * n + Padding(n) == 5 * Width(n)
  {}

  lemma ScaledLess(a: nat, b: nat, k: nat)
    requires a < b && k > 0
    ensures a * k < b * k
  {
    assert b * k == a * k + (b - a) * k;
  }

  // Order

  function CompareNat(a: nat, b: nat): Ordering {
    if a < b then Less else if a == b then Equal else Greater
  }

  lemma {:induction false} CompareSnoc(s: bytes, t: bytes, x: byte, y: byte)
    requires |s| == |t|
    ensures CompareBytes(s + [x], t + [y])
            == if CompareBytes(s, t) == Equal then CompareByte(x, y) else CompareBytes(s, t)
  {
    if s == [] {
      assert s + [x] == [x] && t + [y] == [y];
      assert [x][1..] == [] && [y][1..] == [];
    } else {
      assert (s + [x])[1..] == s[1..] + [x] && (t + [y])[1..] == t[1..] + [y];
      CompareSnoc(s[1..], t[1..], x, y);
    }
  }

  /** On equally many digits, comparing from the front compares the numbers. */
  lemma {:induction false} CompareValues(base: nat, s: bytes, t: bytes)
    requires |s| == |t| && Below(base, s) && Below(base, t)
    ensures CompareBytes(s, t) == CompareNat(Value(base, s), Value(base, t))
  {
    if s != [] {
      var a, b, x, y := s[..|s| - 1], t[..|t| - 1], s[|s| - 1], t[|t| - 1];
      assert s == a + [x] && t == b + [y];
      CompareSnoc(a, b, x, y);
      CompareValues(base, a, b);
      LeadDecides(base, Value(base, a), Value(base, b), x, y);
    }
  }

  lemma LeadDecides(base: nat, a: nat, b: nat, x: nat, y: nat)
    requires x < base && y < base
    ensures a < b ==> a * base + x < b * base + y
    ensures a > b ==> a * base + x > b * base + y
  {
    if a < b { NextDigit(base, a, b); }
    if a > b { NextDigit(base, b, a); }
  }

  lemma NextDigit(base: nat, a: nat, b: nat)
    requires a < b
    ensures a * base + base <= b * base
  {
    Spread(base, a, b - a - 1);
    AtMost(0, b - a - 1, base);
  }

  lemma Spread(base: nat, a: nat, d: nat)
    ensures (a + 1 + d) * base == a * base + base + d * base
  {}

  lemma {:induction false} LettersCompare(s: bytes, t: bytes)
    requires Below(32, s) && Below(32, t)
    ensures CompareBytes(Letters(s), Letters(t)) == CompareBytes(s, t)
  {
    if s != [] && t != [] {
      assert Letters(s)[1..] == Letters(s[1..]) && Letters(t)[1..] == Letters(t[1..]);
      LettersCompare(s[1..], t[1..]);
    }
  }

  lemma BytesBelow(s: bytes)
    ensures Below(256, s)
  {}

  lemma ScaledCompare(a: nat, b: nat, k: nat)
    requires k > 0
    ensures CompareNat(a * k, b * k) == CompareNat(a, b)
  {
    if a < b { ScaledLess(a, b, k); }
    if a > b { ScaledLess(b, a, k); }
  }

  /** Equally long inputs compare as their encodings do. */
  lemma EncodeKeepsOrder(a: bytes, b: bytes)
    requires |a| == |b|
    ensures CompareBytes(Encode(a), Encode(b)) == CompareBytes(a, b)
  {
    hide CompareBytes, Value, Digits, Pow2, Below, Letters, Width;
    var k, m := Pow2(Padding(|a|)), Width(|a|);
    var x, y := Value(256, a) * k, Value(256, b) * k;
    PaddedFits(a);
    PaddedFits(b);
    DigitsValue(x, m);
    DigitsValue(y, m);
    LettersCompare(Digits(x, m), Digits(y, m));
    CompareValues(32, Digits(x, m), Digits(y, m));
    ScaledCompare(Value(256, a), Value(256, b), k);
    BytesBelow(a);
    BytesBelow(b);
    CompareValues(256, a, b);
  }

  lemma EncodeWidth(a: bytes)
    ensures |Encode(a)| == Width(|a|)
  {}

  /** Different inputs, of whatever lengths, have different encodings. */
  lemma EncodeInjective(a: bytes, b: bytes)
    ensures Encode(a) == Encode(b) <==> a == b
  {
    hide Encode, CompareBytes;
    if Encode(a) == Encode(b) {
      EncodeWidth(a);
      EncodeWidth(b);
      EncodeKeepsOrder(a, b);
      CompareBytesTotal(Encode(a), Encode(b));
      CompareBytesTotal(a, b);
    }
  }

  // The shifting loop

  const MASK: nat := 0x1_0000_0000

  /** `out` holds the high bits of what was read and the low `bits` bits of `buf` the rest. */
  ghost predicate Holds(read: bytes, ds: bytes, buf: nat, bits: nat) {
    && bits < 13 && Below(32, ds) && 5 * |ds| + bits == 8 * |read|
    && Value(256, read) == Value(32, ds) * Pow2(bits) + buf % Pow2(bits)
  }

  lemma Pow2Values(k: nat)
    requires k < 13
    ensures Pow2(k) == [1, 2, 4, 8, 16, 32, 64, 128, 256, 512, 1024, 2048, 4096][k]
  {
    if k > 0 { Pow2Values(k - 1); }
  }

  lemma ReadsOctet(read: bytes, ds: bytes, buf: nat, bits: nat, b: byte)
    requires Holds(read, ds, buf, bits) && bits < 5
    ensures Holds(read + [b], ds, buf * 256 % MASK + b, bits + 8)
  {
    hide Below;
    var x: int := b;
    var p, q := Pow2(bits), Pow2(bits + 8);
    Pow2Values(bits);
    Pow2Values(bits + 8);
    hide Pow2;
    var next := buf * 256 % MASK + x;
    assert q == 256 * p;
    ShiftedIn(buf, bits, x);
    BytesBelow(read);
    ValueSnoc(256, read, b);
    hide Value;
    ShiftSum(Value(32, ds), p, buf % p);
  }

  lemma ShiftSum(v: nat, p: nat, r: nat)
    ensures (v * p + r) * 256 == v * (256 * p) + r * 256
  {}

  lemma ShiftedIn(buf: nat, bits: nat, x: nat)
    requires bits < 5 && x < 256
    ensures (buf * 256 % MASK + x) % Pow2(bits + 8) == buf % Pow2(bits) * 256 + x
  {
    hide Pow2;
    Pow2Add(bits, 24 - bits);
    Pow2Add(bits, 8);
    Pow2Small();
    ShiftedBy(buf, Pow2(bits), Pow2(24 - bits), x);
  }

  lemma ShiftedBy(buf: nat, p: nat, k: nat, x: nat)
    requires p > 0 && p * k == 0x100_0000 && x < 256
    ensures (buf * 256 % MASK + x) % (p * 256) == buf % p * 256 + x
  {
    var high, low := buf / 0x100_0000, buf % 0x100_0000;
    Quotient(buf * 256, MASK, high, low * 256);
    var h, r := low / p, low % p;
    Division(low, p);
    assert buf == p * k * high + p * h + r;
    Factor(p, k, high, h);
    Quotient(buf, p, k * high + h, r);
    Factor(256, p, h, 0);
    assert p * 256 * h == 256 * p * h;
    Quotient(low * 256 + x, p * 256, h, r * 256 + x);
  }

  lemma Factor(p: nat, k: nat, a: nat, b: nat)
    ensures p * k * a + p * b == p * (k * a + b)
  {}

  lemma Division(v: nat, m: nat)
    requires m > 0
    ensures v == m * (v / m) + v % m && v % m < m
  {}

  /** Quotient and remainder are unique. */
  lemma Quotient(v: nat, m: nat, q: nat, r: nat)
    requires r < m && v == m * q + r
    ensures v / m == q && v % m == r
  {
    Division(v, m);
    Apart(m, q, v / m);
    Apart(m, v / m, q);
  }

  lemma Apart(m: nat, a: nat, b: nat)
    ensures a > b ==> m * a >= m * b + m
  {
    if a > b {
      assert m * a == m * b + m * (a - b);
      AtLeastOnce(m, a - b);
    }
  }

  lemma AtLeastOnce(m: nat, k: nat)
    requires k > 0
    ensures m * k >= m
  {}

  lemma EmitsDigit(read: bytes, ds: bytes, buf: nat, bits: nat)
    requires Holds(read, ds, buf, bits) && bits >= 5
    ensures Holds(read, ds + [buf / Pow2(bits - 5) % 32], buf, bits - 5)
  {
    var d: nat := buf / Pow2(bits - 5) % 32;
    var p, q := Pow2(bits), Pow2(bits - 5);
    Pow2Values(bits);
    Pow2Values(bits - 5);
    hide Pow2;
    assert p == 32 * q;
    DigitAndRest(buf, bits);
    ValueSnoc(32, ds, d);
    hide Value;
    DigitSum(Value(32, ds), q, d);
  }

  lemma DigitSum(v: nat, q: nat, d: nat)
    ensures (v * 32 + d) * q == v * (32 * q) + d * q
  {}

  lemma DigitAndRest(buf: nat, bits: nat)
    requires 5 <= bits < 13
    ensures buf % Pow2(bits) == buf / Pow2(bits - 5) % 32 * Pow2(bits - 5) + buf % Pow2(bits - 5)
  {
    hide Pow2;
    Pow2Add(5, bits - 5);
    Pow2Small();
    DigitOver(buf, Pow2(bits - 5));
  }

  lemma DigitOver(buf: nat, q: nat)
    requires q > 0
    ensures buf % (32 * q) == buf / q % 32 * q + buf % q
  {
    Division(buf, q);
    var a, r := buf / q, buf % q;
    Division(a, 32);
    DigitStep(buf, q, a / 32, a % 32, r);
  }

  lemma DigitStep(buf: nat, q: nat, c: nat, d: nat, r: nat)
    requires r < q && d < 32 && buf == q * (32 * c + d) + r
    ensures buf % (32 * q) == d * q + r
  {
    Factor(q, 32, c, d);
    AtMost(d, 31, q);
    assert q * d == d * q && q * 32 * c == 32 * q * c;
    Quotient(buf, 32 * q, c, d * q + r);
  }

  lemma AtMost(a: nat, b: nat, k: nat)
    requires a <= b
    ensures a * k <= b * k
  {}

  /** The last, partly filled digit: what remains, shifted up. */
  lemma EmitsLast(read: bytes, ds: bytes, buf: nat, bits: nat)
    requires Holds(read, ds, buf, bits) && bits < 5
    ensures var all := if bits == 0 then ds else ds + [buf * Pow2(5 - bits) % 32];
            Below(32, all) && Letters(all) == Encode(read)
  {
    hide Value, Digits, Below, Letters;
    LastWidth(|read|, |ds|, bits);
    if bits == 0 {
      assert Pow2(0) == 1;
      ValueDigits(ds);
    } else {
      var d: nat := buf * Pow2(5 - bits) % 32;
      LastDigit(buf, bits);
      PadSum(Value(32, ds), Pow2(bits), Pow2(5 - bits), buf % Pow2(bits));
      hide Pow2;
      ValueSnoc(32, ds, d);
      ValueDigits(ds + [d]);
    }
  }

  lemma LastWidth(octets: nat, digits: nat, bits: nat)
    requires bits < 5 && 5 * digits + bits == 8 * octets
    ensures Width(octets) == digits + (if bits == 0 then 0 else 1)
    ensures Padding(octets) == if bits == 0 then 0 else 5 - bits
  {}

  lemma ValueSnoc(base: nat, ds: bytes, d: byte)
    requires Below(base, ds) && d < base
    ensures Value(base, ds + [d]) == Value(base, ds) * base + d && Below(base, ds + [d])
  {
    assert (ds + [d])[..|ds|] == ds;
  }

  lemma PadSum(v: nat, p: nat, q: nat, r: nat)
    requires p * q == 32
    ensures (v * p + r) * q == v * 32 + r * q
  {
    assert (v * p + r) * q == v * (p * q) + r * q;
  }

  lemma LastDigit(buf: nat, bits: nat)
    requires 0 < bits < 5
    ensures Pow2(bits) * Pow2(5 - bits) == 32
    ensures buf * Pow2(5 - bits) % 32 == buf % Pow2(bits) * Pow2(5 - bits)
  {
    hide Pow2;
    var p, q := Pow2(bits), Pow2(5 - bits);
    Pow2Add(bits, 5 - bits);
    Pow2Small();
    Division(buf, p);
    var a, r := buf / p, buf % p;
    ScaledLess(r, p, q);
    PadSum(a, p, q, r);
    assert p * a == a * p;
    Quotient(buf * q, 32, a, r * q);
  }

  lemma LettersSnoc(ds: bytes, d: byte)
    requires Below(32, ds) && d < 32
    ensures Letters(ds + [d]) == Letters(ds) + [Letter(d)]
  {}

  /** `base32hex_encode`: octets are shifted into a 32-bit window and taken out five bits at a time. */
  method EncodeBytes(input: bytes) returns (out: text)
    ensures out == Encode(input)
  {
    hide Pow2, Value, Encode, Letters, Letter, Holds;
    out := [];
    var buf: u32, bits: nat := 0, 0;
    ghost var ds: bytes := [];
    StartsHolding();
    for i := 0 to |input|
      invariant bits < 5 && Holds(input[..i], ds, buf, bits) && Below(32, ds) && out == Letters(ds)
    {
      var b: int := input[i];
      ReadsOctet(input[..i], ds, buf, bits, b);
      assert input[..i] + [input[i]] == input[..i + 1];
      buf := Window(buf, b);
      bits := bits + 8;
      while bits >= 5
        invariant bits < 13 && Holds(input[..i + 1], ds, buf, bits) && Below(32, ds) && out == Letters(ds)
      {
        EmitsDigit(input[..i + 1], ds, buf, bits);
        bits := bits - 5;
        var d: nat := buf / Pow2(bits) % 32;
        LettersSnoc(ds, d);
        out := out + [Letter(d)];
        ds := ds + [d];
      }
    }
    assert input[..|input|] == input;
    EmitsLast(input, ds, buf, bits);
    if bits > 0 {
      var d: nat := buf * Pow2(5 - bits) % 32;
      LettersSnoc(ds, d);
      out := out + [Letter(d)];
    }
  }

  /** `(buf << 8) | b` on 32 bits. */
  function Window(buf: u32, b: byte): u32 {
    buf * 256 % MASK + b
  }

  lemma StartsHolding()
    ensures Holds([], [], 0, 0) && Letters([]) == []
  {}
}
