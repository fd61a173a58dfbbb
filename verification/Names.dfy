/**
 Domain names in their two forms: dotted text and label lists.
 */
module Names {
  import opened Bytes

  const DOT: byte := 46
  const ROOT: text := [DOT]

  /** `str::split('.')`: always at least one piece. */
  function Split(s: text): (ls: seq<text>)
    ensures |ls| > 0
  {
    if s == [] then [[]]
    else if s[0] == DOT then [[]] + Split(s[1..])
    else Glue(s[0], Split(s[1..]))
  }

  /** One more octet at the front of the first piece. */
  function Glue(c: byte, ls: seq<text>): (r: seq<text>)
    requires |ls| > 0
    ensures |r| == |ls| && r[0] == [c] + ls[0] && forall i :: 0 < i < |r| ==> r[i] == ls[i]
  {
    [[c] + ls[0]] + ls[1..]
  }

  /** `[String]::join(".")` */
  function Join(ls: seq<text>): text {
    if |ls| == 0 then []
    else if |ls| == 1 then ls[0]
    else ls[0] + [DOT] + Join(ls[1..])
  }

  /** `trim_end_matches('.')` */
  function TrimDots(s: text): text {
    if s != [] && s[|s| - 1] == DOT then TrimDots(s[..|s| - 1]) else s
  }

  predicate DotFree(ls: seq<text>) {
    forall i :: 0 <= i < |ls| ==> DOT !in ls[i]
  }

  lemma {:induction false} SplitDotFree(s: text)
    ensures DotFree(Split(s))
  {
    if s != [] {
      SplitDotFree(s[1..]);
    }
  }

  function NonEmpty(ls: seq<text>): seq<text> {
    if ls == [] then [] else (if ls[0] == [] then [] else [ls[0]]) + NonEmpty(ls[1..])
  }

  /** Labels proper: none empty, none with a dot inside. */
  predicate PlainPieces(ls: seq<text>) {
    forall i :: 0 <= i < |ls| ==> ls[i] != [] && DOT !in ls[i]
  }

  lemma {:induction false} NonEmptyShape(ls: seq<text>)
    requires DotFree(ls)
    ensures PlainPieces(NonEmpty(ls))
  {
    if ls != [] {
      NonEmptyShape(ls[1..]);
      var head: seq<text> := if ls[0] == [] then [] else [ls[0]];
      assert PlainPieces(head);
      assert NonEmpty(ls) == head + NonEmpty(ls[1..]);
    }
  }

  lemma {:induction false} NonEmptyNoOp(ls: seq<text>)
    requires forall i :: 0 <= i < |ls| ==> ls[i] != []
    ensures NonEmpty(ls) == ls
  {
    if ls != [] {
      NonEmptyNoOp(ls[1..]);
      assert ls == [ls[0]] + ls[1..];
    }
  }

  /** The labels of a dotted name as the builder and the canonical order see them. */
  function Labels(s: text): (ls: seq<text>)
    ensures PlainPieces(ls)
  {
    SplitDotFree(TrimDots(s));
    NonEmptyShape(Split(TrimDots(s)));
    NonEmpty(Split(TrimDots(s)))
  }

  lemma {:induction false} JoinSplit(s: text)
    ensures Join(Split(s)) == s
  {
    if s != [] {
      JoinSplit(s[1..]);
      var rest := Split(s[1..]);
      if s[0] == DOT {
        assert Split(s)[1..] == rest;
        assert s == [DOT] + s[1..];
      } else {
        assert Split(s)[1..] == rest[1..];
        assert s == [s[0]] + s[1..];
      }
    }
  }

  lemma {:induction false} SplitConcat(a: text, b: text)
    ensures Split(a + [DOT] + b) == Split(a) + Split(b)
  {
    hide Split, Glue;
    var t := a + [DOT] + b;
    SplitFirst(t);
    if a == [] {
      assert t[1..] == b;
      SplitNothing();
    } else {
      assert t[1..] == a[1..] + [DOT] + b && t[0] == a[0];
      SplitConcat(a[1..], b);
      SplitFirst(a);
      if a[0] == DOT {
        Reassociate([[]], Split(a[1..]), Split(b));
      } else {
        GlueConcat(a[0], Split(a[1..]), Split(b));
      }
    }
  }

  lemma Reassociate<T>(a: seq<T>, b: seq<T>, c: seq<T>)
    ensures a + (b + c) == a + b + c
  {}

  lemma SplitNothing()
    ensures Split([]) == [[]]
  {}

  lemma SplitFirst(s: text)
    requires s != []
    ensures Split(s) == if s[0] == DOT then [[]] + Split(s[1..]) else Glue(s[0], Split(s[1..]))
  {}

  lemma GlueConcat(c: byte, a: seq<text>, b: seq<text>)
    requires |a| > 0
    ensures Glue(c, a + b) == Glue(c, a) + b
  {}

  lemma {:induction false} SplitPlain(l: text)
    requires DOT !in l
    ensures Split(l) == [l]
  {
    if l != [] {
      SplitPlain(l[1..]);
      assert l == [l[0]] + l[1..];
    }
  }

  /** Splitting undoes joining exactly when no label hides a dot. */
  lemma {:induction false} SplitJoin(ls: seq<text>)
    requires |ls| > 0 && DotFree(ls)
    ensures Split(Join(ls)) == ls
  {
    if |ls| == 1 {
      SplitPlain(ls[0]);
    } else {
      hide Split;
      SplitJoin(ls[1..]);
      SplitPlain(ls[0]);
      SplitConcat(ls[0], Join(ls[1..]));
      assert ls == [ls[0]] + ls[1..];
    }
  }

  lemma TrimDotsNoOp(s: text)
    requires s == [] || s[|s| - 1] != DOT
    ensures TrimDots(s) == s
  {}

  /** A name whose last label is not empty does not end in a dot. */
  lemma {:induction false} LastLabel(s: text)
    ensures var ls := Split(s); (ls[|ls| - 1] == []) <==> (s == [] || s[|s| - 1] == DOT)
  {
    if s != [] {
      LastLabel(s[1..]);
      if s[0] == DOT {
        assert s[1..] != [] ==> s[1..][|s[1..]| - 1] == s[|s| - 1];
      } else if |s| > 1 {
        var rest := Split(s[1..]);
        assert s[1..][|s[1..]| - 1] == s[|s| - 1];
      }
    }
  }

  /** Every dot-separated piece of `s` holds at least one octet. */
  predicate NoEmptyLabel(s: text) {
    forall i :: 0 <= i < |Split(s)| ==> Split(s)[i] != []
  }

  lemma LabelsOfProper(s: text)
    requires NoEmptyLabel(s)
    ensures TrimDots(s) == s && Labels(s) == Split(s)
  {
    LastLabel(s);
    var ls := Split(s);
    TrimDotsNoOp(s);
    NonEmptyNoOp(ls);
  }

  lemma {:induction false} NonEmptyConcat(a: seq<text>, b: seq<text>)
    ensures NonEmpty(a + b) == NonEmpty(a) + NonEmpty(b)
  {
    hide NonEmpty;
    if a == [] {
      assert a + b == b;
      NonEmptyNothing();
    } else {
      assert (a + b)[1..] == a[1..] + b && (a + b)[0] == a[0];
      NonEmptyConcat(a[1..], b);
      NonEmptyFirst(a + b);
      NonEmptyFirst(a);
      Reassociate(if a[0] == [] then [] else [a[0]], NonEmpty(a[1..]), NonEmpty(b));
    }
  }

  lemma NonEmptyNothing()
    ensures NonEmpty([]) == []
  {}

  lemma NonEmptyFirst(ls: seq<text>)
    requires ls != []
    ensures NonEmpty(ls) == (if ls[0] == [] then [] else [ls[0]]) + NonEmpty(ls[1..])
  {}

  /** Trailing dots add no labels. */
  lemma {:induction false} LabelsUntrimmed(s: text)
    ensures Labels(s) == NonEmpty(Split(s))
  {
    if s != [] && s[|s| - 1] == DOT {
      var t := s[..|s| - 1];
      LabelsUntrimmed(t);
      assert s == t + [DOT] + [];
      SplitConcat(t, []);
      NonEmptyConcat(Split(t), Split([]));
    }
  }

  predicate ShorterThan(ls: seq<text>, n: nat) {
    forall i :: 0 <= i < |ls| ==> |ls[i]| < n
  }

  lemma {:induction false} PiecesFit(s: text, n: nat)
    requires |s| < n
    ensures ShorterThan(Split(s), n)
  {
    if s != [] {
      PiecesFit(s[1..], n - 1);
    }
  }

  /** Joining makes no dot-free piece longer than the longest label. */
  lemma {:induction false} JoinedPiecesFit(ls: seq<text>, n: nat)
    requires n > 0 && ShorterThan(ls, n)
    ensures ShorterThan(Split(Join(ls)), n)
  {
    if |ls| > 0 {
      PiecesFit(ls[0], n);
      if |ls| > 1 {
        JoinedPiecesFit(ls[1..], n);
        SplitConcat(ls[0], Join(ls[1..]));
      }
    }
  }

  lemma RootLabels()
    ensures Labels(ROOT) == [] && Labels([]) == []
  {
    assert TrimDots(ROOT) == TrimDots([]) == [];
    SplitNothing();
    assert NonEmpty([[]]) == NonEmpty([[]][1..]) == [];
  }

  // Names and case

  lemma {:induction false} TrimLower(s: text)
    ensures TrimDots(Lower(s)) == Lower(TrimDots(s))
  {
    if s != [] && s[|s| - 1] == DOT {
      TrimLower(s[..|s| - 1]);
      assert Lower(s)[..|s| - 1] == Lower(s[..|s| - 1]);
    }
  }

  function LowerAll(ls: seq<text>): (r: seq<text>)
    ensures |r| == |ls| && forall i :: 0 <= i < |ls| ==> r[i] == Lower(ls[i])
  {
    seq(|ls|, i requires 0 <= i < |ls| => Lower(ls[i]))
  }

  lemma LowerAllConcat(a: seq<text>, b: seq<text>)
    ensures LowerAll(a + b) == LowerAll(a) + LowerAll(b)
  {
    hide Lower;
  }

  lemma LowerAllCons(l: text, ls: seq<text>)
    ensures LowerAll([l] + ls) == [Lower(l)] + LowerAll(ls)
  {
    hide Lower;
  }

  lemma LowerFirst(s: text)
    requires s != []
    ensures Lower(s)[0] == LowerByte(s[0]) && Lower(s)[1..] == Lower(s[1..]) && (Lower(s)[0] == DOT <==> s[0] == DOT)
  {}

  lemma GlueLower(c: byte, ls: seq<text>)
    requires |ls| > 0
    ensures Glue(LowerByte(c), LowerAll(ls)) == LowerAll(Glue(c, ls))
  {
    assert Lower([c] + ls[0]) == [LowerByte(c)] + Lower(ls[0]);
    hide Lower;
    LowerAllCons([c] + ls[0], ls[1..]);
    assert LowerAll(ls)[1..] == LowerAll(ls[1..]);
  }

  lemma LowerNothing()
    ensures Lower([]) == [] && LowerAll([]) == [] && LowerAll([[]]) == [[]]
  {}

  lemma {:induction false} SplitLower(s: text)
    ensures Split(Lower(s)) == LowerAll(Split(s))
  {
    hide Split, Glue, Lower, LowerAll, LowerByte;
    LowerNothing();
    if s == [] {
      SplitNothing();
    } else {
      SplitLower(s[1..]);
      LowerFirst(s);
      SplitFirst(s);
      SplitFirst(Lower(s));
      if s[0] == DOT {
        LowerAllCons([], Split(s[1..]));
      } else {
        GlueLower(s[0], Split(s[1..]));
      }
    }
  }

  lemma {:induction false} NonEmptyLower(ls: seq<text>)
    ensures NonEmpty(LowerAll(ls)) == LowerAll(NonEmpty(ls))
  {
    hide NonEmpty, Lower, LowerAll;
    LowerNothing();
    NonEmptyNothing();
    if ls != [] {
      NonEmptyLower(ls[1..]);
      assert ls == [ls[0]] + ls[1..];
      LowerAllCons(ls[0], ls[1..]);
      NonEmptyFirst(ls);
      NonEmptyFirst(LowerAll(ls));
      LowerAllConcat(if ls[0] == [] then [] else [ls[0]], NonEmpty(ls[1..]));
      LowerAllCons(ls[0], []);
    }
  }

  /** Lower-casing a name lower-cases its labels. */
  lemma LabelsLower(s: text)
    ensures Labels(Lower(s)) == LowerAll(Labels(s))
  {
    TrimLower(s);
    SplitLower(TrimDots(s));
    NonEmptyLower(Split(TrimDots(s)));
  }
}
