/**
 Octets, big-endian integers, ASCII case, UTF-8 validity and lexicographic order.

 A Rust `String` is its UTF-8 octets, so text is modelled as octets: `len`, `split('.')`,
 `ends_with` and `to_ascii_lowercase` all act octet by octet.
 */
module Bytes {

  type byte = x: int | 0 <= x < 0x100
  type u16 = x: int | 0 <= x < 0x1_0000
  type u32 = x: int | 0 <= x < 0x1_0000_0000
  type bytes = seq<byte>
  type text = bytes

  datatype Option<+T> = None | Some(value: T) {
    predicate IsFailure() { None? }
    function PropagateFailure<U>(): Option<U> requires None? { None }
    function Extract(): T requires Some? { value }
  }

  function Be16(v: u16): (r: bytes)
    ensures |r| == 2
  {
    [v / 0x100, v % 0x100]
  }

  function Be32(v: u32): (r: bytes)
    ensures |r| == 4
  {
    Be16(v / 0x1_0000) + Be16(v % 0x1_0000)
  }

  function FromBe16(hi: byte, lo: byte): u16 {
    hi * 0x100 + lo
  }

  /** Bytes `chunk` stand in `buf` at `pos`. */
  predicate At(buf: bytes, pos: nat, chunk: bytes) {
    pos + |chunk| <= |buf| && buf[pos..pos + |chunk|] == chunk
  }

  lemma AtSplit(buf: bytes, pos: nat, a: bytes, b: bytes)
    requires At(buf, pos, a + b)
    ensures At(buf, pos, a) && At(buf, pos + |a|, b)
  {
    assert a == (a + b)[..|a|] == buf[pos..pos + |a|];
    assert b == (a + b)[|a|..] == buf[pos + |a|..pos + |a| + |b|];
  }

  lemma AtIndex(buf: bytes, pos: nat, chunk: bytes, i: nat)
    requires At(buf, pos, chunk) && i < |chunk|
    ensures buf[pos + i] == chunk[i]
  {
    assert buf[pos..pos + |chunk|][i] == chunk[i];
  }

  // ASCII case

  function LowerByte(b: byte): byte {
    if 65 <= b <= 90 then b + 32 else b
  }

  function Lower(s: text): (r: text)
    ensures |r| == |s|
  {
    seq(|s|, i requires 0 <= i < |s| => LowerByte(s[i]))
  }

  predicate IsLower(s: text) {
    forall i :: 0 <= i < |s| ==> !(65 <= s[i] <= 90)
  }

  lemma LowerIsLower(s: text)
    ensures IsLower(Lower(s))
    ensures IsLower(s) <==> Lower(s) == s
  {
    if Lower(s) == s {
      forall i | 0 <= i < |s| ensures !(65 <= s[i] <= 90) {
        assert Lower(s)[i] == LowerByte(s[i]);
      }
    }
  }

  lemma LowerTwice(s: text)
    ensures Lower(Lower(s)) == Lower(s)
  {}

  // UTF-8 (table 3-7 of the Unicode standard), as `std::str::from_utf8` accepts it

  predicate Continuation(b: byte) {
    0x80 <= b <= 0xBF
  }

  /** Octets taken by the scalar value at the head of `s`; 0 when it is malformed. */
  function ScalarLength(s: bytes): (n: nat)
    requires s != []
    ensures n <= |s|
  {
    var b := s[0];
    if b < 0x80 then 1
    else if 0xC2 <= b <= 0xDF then
      if |s| >= 2 && Continuation(s[1]) then 2 else 0
    else if 0xE0 <= b <= 0xEF then
      if |s| >= 3 && (if b == 0xE0 then 0xA0 else 0x80) <= s[1] <= (if b == 0xED then 0x9F else 0xBF)
         && Continuation(s[2]) then 3 else 0
    else if 0xF0 <= b <= 0xF4 then
      if |s| >= 4 && (if b == 0xF0 then 0x90 else 0x80) <= s[1] <= (if b == 0xF4 then 0x8F else 0xBF)
         && Continuation(s[2]) && Continuation(s[3]) then 4 else 0
    else 0
  }

  predicate ValidUtf8(s: bytes) {
    s == [] || (ScalarLength(s) > 0 && ValidUtf8(s[ScalarLength(s)..]))
  }

  /** Lower-casing ASCII letters keeps text valid: it never touches an octet above 0x7F. */
  lemma {:induction false} LowerKeepsUtf8(s: bytes)
    requires ValidUtf8(s)
    ensures ValidUtf8(Lower(s))
  {
    if s != [] {
      var n := ScalarLength(s);
      LowerKeepsUtf8(s[n..]);
      assert Lower(s)[n..] == Lower(s[n..]);
      assert ScalarLength(Lower(s)) == n;
    }
  }

  /** And undoing it keeps text valid too. */
  lemma {:induction false} LowerOnlyFromUtf8(s: bytes)
    requires ValidUtf8(Lower(s))
    ensures ValidUtf8(s)
  {
    if s != [] {
      var n := ScalarLength(Lower(s));
      assert ScalarLength(s) == n;
      assert Lower(s)[n..] == Lower(s[n..]);
      LowerOnlyFromUtf8(s[n..]);
    }
  }

  // Lexicographic order: Rust's `Ord` on slices, for any element order

  datatype Ordering = Less | Equal | Greater

  function CompareByte(a: byte, b: byte): Ordering {
    if a < b then Less else if a == b then Equal else Greater
  }

  function CompareBytes(a: bytes, b: bytes): Ordering {
    if a == [] then (if b == [] then Equal else Less)
    else if b == [] then Greater
    else if a[0] == b[0] then CompareBytes(a[1..], b[1..])
    else CompareByte(a[0], b[0])
  }

  lemma {:induction false} CompareBytesTotal(a: bytes, b: bytes)
    ensures CompareBytes(a, b) == Equal <==> a == b
    ensures CompareBytes(a, b) == Less <==> CompareBytes(b, a) == Greater
  {
    if a != [] && b != [] && a[0] == b[0] {
      CompareBytesTotal(a[1..], b[1..]);
      assert a == [a[0]] + a[1..] && b == [b[0]] + b[1..];
    }
  }

  lemma {:induction false} CompareBytesTransitive(a: bytes, b: bytes, c: bytes)
    requires CompareBytes(a, b) != Greater && CompareBytes(b, c) != Greater
    ensures CompareBytes(a, c) != Greater
    ensures CompareBytes(a, b) == Less || CompareBytes(b, c) == Less ==> CompareBytes(a, c) == Less
  {
    if a != [] && b != [] && c != [] && a[0] == b[0] == c[0] {
      CompareBytesTransitive(a[1..], b[1..], c[1..]);
    }
  }
}
