/**
 The canonical order of names (section 6.1 of RFC 4034; `canonical_order` in src/zone.rs):
 a total order in which the names below a name form one interval right after it.
 */
module Canonical {
  import opened Bytes
  import opened Names
  import opened RoundTrip

  /** A name as the order sees it: its labels from the root down, lower-cased. */
  type Key = seq<text>

  function Reverse<T>(s: seq<T>): (r: seq<T>)
    ensures |r| == |s| && forall i :: 0 <= i < |s| ==> r[i] == s[|s| - 1 - i]
  {
    seq(|s|, i requires 0 <= i < |s| => s[|s| - 1 - i])
  }

  function KeyOf(name: text): Key {
    Reverse(LowerAll(Labels(name)))
  }

  function CompareKeys(a: Key, b: Key): Ordering {
    if a == [] then (if b == [] then Equal else Less)
    else if b == [] then Greater
    else if a[0] == b[0] then CompareKeys(a[1..], b[1..])
    else CompareBytes(a[0], b[0])
  }

  function CanonicalOrder(a: text, b: text): Ordering {
    CompareKeys(KeyOf(a), KeyOf(b))
  }

  predicate Before(a: Key, b: Key) {
    CompareKeys(a, b) == Less
  }

  // A total order

  lemma {:induction false} KeysTotal(a: Key, b: Key)
    ensures CompareKeys(a, b) == Equal <==> a == b
    ensures CompareKeys(a, b) == Less <==> CompareKeys(b, a) == Greater
  {
    if a != [] && b != [] {
      if a[0] == b[0] {
        KeysTotal(a[1..], b[1..]);
        assert a == [a[0]] + a[1..] && b == [b[0]] + b[1..];
      } else {
        CompareBytesTotal(a[0], b[0]);
      }
    }
  }

  lemma {:induction false} BeforeTransitive(a: Key, b: Key, c: Key)
    requires Before(a, b) && Before(b, c)
    ensures Before(a, c)
  {
    if a != [] {
      if a[0] == b[0] == c[0] {
        BeforeTransitive(a[1..], b[1..], c[1..]);
      } else {
        CompareBytesTotal(a[0], b[0]);
        CompareBytesTotal(b[0], c[0]);
        CompareBytesTotal(a[0], c[0]);
        CompareBytesTransitive(a[0], b[0], c[0]);
      }
    }
  }

  lemma BeforeStrict(a: Key, b: Key)
    ensures !(Before(a, b) && Before(b, a)) && !Before(a, a)
    ensures a != b ==> Before(a, b) || Before(b, a)
  {
    KeysTotal(a, b);
    KeysTotal(b, a);
    KeysTotal(a, a);
  }

  /** The order does not see case. */
  lemma KeyOfLower(name: text)
    ensures KeyOf(Lower(name)) == KeyOf(name)
  {
    hide Labels, Lower;
    LabelsLower(name);
    var ls := Labels(name);
    forall i | 0 <= i < |ls| ensures LowerAll(LowerAll(ls))[i] == LowerAll(ls)[i] {
      LowerTwice(ls[i]);
    }
    assert LowerAll(LowerAll(ls)) == LowerAll(ls);
  }

  // Subtrees

  /** `below` is `above` or a descendant of it. */
  predicate Within(above: Key, below: Key) {
    above <= below
  }

  lemma {:induction false} PrefixBefore(p: Key, a: Key)
    requires p < a
    ensures Before(p, a)
  {
    if p != [] {
      assert p[0] == a[0];
      assert p[1..] < a[1..];
      PrefixBefore(p[1..], a[1..]);
    }
  }

  /** A name's subtree is contiguous: whatever sorts between the name and a descendant is a descendant. */
  lemma {:induction false} SubtreeContiguous(p: Key, a: Key, c: Key)
    requires Within(p, c) && !Before(a, p) && !Before(c, a)
    ensures Within(p, a)
  {
    if p != [] {
      assert p[0] == c[0] && p[1..] <= c[1..];
      KeysTotal(a, p);
      KeysTotal(c, a);
      if a == [] {
      } else if a[0] == p[0] {
        SubtreeContiguous(p[1..], a[1..], c[1..]);
        assert a == [a[0]] + a[1..] && p == [p[0]] + p[1..];
      } else {
        CompareBytesTotal(a[0], p[0]);
      }
    }
  }

  // Names and keys

  /** A name as it stands in a zone: proper and not the root. */
  predicate ZoneName(name: text) {
    ProperName(name) && name != ROOT
  }

  lemma ZoneNameKey(name: text)
    requires ZoneName(name)
    ensures NoEmptyLabel(name) && Labels(name) == Split(name) && KeyOf(name) == Reverse(Split(name))
    ensures Lower(name) == name
  {
    LabelsOfProper(name);
    ProperNameLower(name);
    forall i | 0 <= i < |Split(name)| ensures Lower(Split(name)[i]) == Split(name)[i] {
      LowerIsLower(Split(name)[i]);
    }
    assert LowerAll(Split(name)) == Split(name);
  }

  /** Zone names are determined by their keys. */
  lemma KeyInjective(a: text, b: text)
    requires ZoneName(a) && ZoneName(b)
    ensures KeyOf(a) == KeyOf(b) <==> a == b
  {
    hide ZoneName, KeyOf, Split, Join;
    ZoneNameKey(a);
    ZoneNameKey(b);
    if KeyOf(a) == KeyOf(b) {
      forall i | 0 <= i < |Split(a)| ensures Split(a)[i] == Split(b)[i] {
        assert Reverse(Split(a))[|Split(a)| - 1 - i] == Reverse(Split(b))[|Split(a)| - 1 - i];
      }
      assert Split(a) == Split(b);
      JoinSplit(a);
      JoinSplit(b);
    }
  }

  /** `canonical_order` is a total order on zone names. */
  lemma CanonicalOrderTotal(a: text, b: text, c: text)
    requires ZoneName(a) && ZoneName(b) && ZoneName(c)
    ensures CanonicalOrder(a, b) == Equal <==> a == b
    ensures CanonicalOrder(a, b) == Less <==> CanonicalOrder(b, a) == Greater
    ensures CanonicalOrder(a, b) == Less && CanonicalOrder(b, c) == Less ==> CanonicalOrder(a, c) == Less
  {
    KeyInjective(a, b);
    KeysTotal(KeyOf(a), KeyOf(b));
    if CanonicalOrder(a, b) == Less && CanonicalOrder(b, c) == Less {
      BeforeTransitive(KeyOf(a), KeyOf(b), KeyOf(c));
    }
  }

  predicate EndsWith(s: text, suffix: text) {
    |suffix| <= |s| && s[|s| - |suffix|..] == suffix
  }

  lemma SuffixDescends(name: text, x: text)
    requires ZoneName(name) && ZoneName(x) && EndsWith(name, [DOT] + x)
    ensures KeyOf(x) < KeyOf(name)
  {
    hide Split, ZoneName;
    ZoneNameKey(name);
    ZoneNameKey(x);
    var a := name[..|name| - |x| - 1];
    assert name == a + [DOT] + x;
    SplitConcat(a, x);
    ReverseConcat(Split(a), Split(x));
  }

  lemma DescentSuffixes(name: text, x: text)
    requires ZoneName(name) && ZoneName(x) && KeyOf(x) < KeyOf(name)
    ensures EndsWith(name, [DOT] + x)
  {
    hide Split, Join, ZoneName;
    ZoneNameKey(name);
    ZoneNameKey(x);
    PrefixIsSuffix(Split(x), Split(name));
    var above := Split(name)[..|Split(name)| - |Split(x)|];
    JoinSplit(name);
    JoinSplit(x);
    JoinConcat(above, Split(x));
    assert name == Join(above) + ([DOT] + x);
  }

  /** The string test `ends_with(".x")` is the tree test: a proper descendant of `x`. */
  lemma SuffixIsDescent(name: text, x: text)
    requires ZoneName(name) && ZoneName(x)
    ensures EndsWith(name, [DOT] + x) <==> KeyOf(x) < KeyOf(name)
  {
    if EndsWith(name, [DOT] + x) {
      SuffixDescends(name, x);
    } else if KeyOf(x) < KeyOf(name) {
      DescentSuffixes(name, x);
      assert false;
    }
  }

  lemma ReverseConcat<T>(a: seq<T>, b: seq<T>)
    ensures Reverse(a + b) == Reverse(b) + Reverse(a)
  {}

  lemma PrefixIsSuffix(short: seq<text>, long: seq<text>)
    requires Reverse(short) < Reverse(long)
    ensures |short| < |long| && long == long[..|long| - |short|] + short
  {
    var k := |long| - |short|;
    forall i | 0 <= i < |short| ensures long[k + i] == short[i] {
      assert Reverse(long)[|short| - 1 - i] == Reverse(short)[|short| - 1 - i];
    }
  }

  lemma {:induction false} JoinConcat(a: seq<text>, b: seq<text>)
    requires |a| > 0 && |b| > 0
    ensures Join(a + b) == Join(a) + [DOT] + Join(b)
  {
    if |a| == 1 {
      assert (a + b)[1..] == b;
    } else {
      assert (a + b)[1..] == a[1..] + b;
      JoinConcat(a[1..], b);
    }
  }
}
