/** The feerate diagram of a sequence of fee/size pairs, and the order on diagrams
    that linearization algorithms promise not to worsen. A diagram is given by the
    chunks of the sequence: straight segments of non-increasing slope. */
module Diagrams {
  import opened Collections
  import opened FeeFracs

  ghost predicate Positive(s: seq<FeeFrac>) {
    forall i :: 0 <= i < |s| ==> s[i].size > 0
  }

  ghost function Sum(s: seq<FeeFrac>): FeeFrac {
    if s == [] then EMPTY else s[0].Plus(Sum(s[1..]))
  }

  ghost function Flatten<T>(parts: seq<seq<T>>): seq<T> {
    if parts == [] then [] else parts[0] + Flatten(parts[1..])
  }

  ghost function Sums(parts: seq<seq<FeeFrac>>): seq<FeeFrac> {
    seq(|parts|, i requires 0 <= i < |parts| => Sum(parts[i]))
  }

  /** The largest excess over feerate p/q of any prefix of s: how far the diagram of
      s rises above the line of slope p/q through the origin. */
  ghost function Peak(s: seq<FeeFrac>, p: int, q: int): int {
    if s == [] then 0 else Max(0, s[0].Excess(p, q) + Peak(s[1..], p, q))
  }

  /** The diagram of a is nowhere below the diagram of b (see DominatesIffDiagram). */
  ghost predicate Dominates(a: seq<FeeFrac>, b: seq<FeeFrac>) {
    forall p: int, q: int | q > 0 :: Peak(a, p, q) >= Peak(b, p, q)
  }

  lemma SumStep(s: seq<FeeFrac>)
    ensures s == [] ==> Sum(s) == EMPTY
    ensures s != [] ==> Sum(s) == s[0].Plus(Sum(s[1..]))
    ensures |s| == 1 ==> Sum(s) == s[0]
  {
    assert |s| == 1 ==> s[1..] == [];
  }

  lemma PeakStep(s: seq<FeeFrac>, p: int, q: int)
    ensures s == [] ==> Peak(s, p, q) == 0
    ensures s != [] ==> Peak(s, p, q) == Max(0, s[0].Excess(p, q) + Peak(s[1..], p, q))
    ensures |s| == 1 ==> Peak(s, p, q) == Max(0, s[0].Excess(p, q))
  {
    assert |s| == 1 ==> s[1..] == [];
  }

  lemma {:induction false} SumConcat(a: seq<FeeFrac>, b: seq<FeeFrac>)
    ensures Sum(a + b) == Sum(a).Plus(Sum(b))
  {
    if a == [] {
      assert a + b == b;
    } else {
      var ab := a + b;
      assert ab[0] == a[0] && ab[1..] == a[1..] + b;
      SumConcat(a[1..], b);
      assert Sum(ab) == a[0].Plus(Sum(ab[1..]));
    }
  }

  lemma {:induction false} SumPositive(s: seq<FeeFrac>)
    requires Positive(s) && s != []
    ensures Sum(s).size > 0
  {
    if |s| > 1 {
      SumPositive(s[1..]);
    }
  }

  lemma {:induction false} PeakConcat(a: seq<FeeFrac>, b: seq<FeeFrac>, p: int, q: int)
    ensures Peak(a + b, p, q) == Max(Peak(a, p, q), Sum(a).Excess(p, q) + Peak(b, p, q))
  {
    if a == [] {
      assert a + b == b;
    } else {
      var ab := a + b;
      assert ab[0] == a[0] && ab[1..] == a[1..] + b;
      PeakConcat(a[1..], b, p, q);
      ExcessPlus(a[0], Sum(a[1..]), p, q);
    }
  }

  lemma PeakPrefix(s: seq<FeeFrac>, i: nat, p: int, q: int)
    requires i <= |s|
    ensures Sum(s[..i]).Excess(p, q) <= Peak(s, p, q)
  {
    assert s == s[..i] + s[i..];
    PeakConcat(s[..i], s[i..], p, q);
  }

  lemma {:induction false} PeakAttained(s: seq<FeeFrac>, p: int, q: int) returns (i: nat)
    ensures i <= |s| && Peak(s, p, q) == Sum(s[..i]).Excess(p, q)
  {
    if Peak(s, p, q) == 0 {
      i := 0;
    } else {
      var j := PeakAttained(s[1..], p, q);
      i := j + 1;
      assert s[..i][1..] == s[1..][..j];
      ExcessPlus(s[0], Sum(s[1..][..j]), p, q);
    }
  }

  lemma {:induction false} FlattenConcat<T>(a: seq<seq<T>>, b: seq<seq<T>>)
    ensures Flatten(a + b) == Flatten(a) + Flatten(b)
  {
    if a == [] {
      assert a + b == b;
    } else {
      var ab := a + b;
      assert ab[0] == a[0] && ab[1..] == a[1..] + b;
      FlattenConcat(a[1..], b);
      assert Flatten(ab) == a[0] + (Flatten(a[1..]) + Flatten(b));
    }
  }

  lemma {:induction false} SumFlatten(parts: seq<seq<FeeFrac>>)
    ensures Sum(Flatten(parts)) == Sum(Sums(parts))
  {
    hide Sum;
    if parts == [] {
      SumStep([]);
    } else {
      SumFlatten(parts[1..]);
      SumConcat(parts[0], Flatten(parts[1..]));
      var sums := Sums(parts);
      assert sums[1..] == Sums(parts[1..]);
      SumStep(sums);
    }
  }

  lemma DominatesItself(a: seq<FeeFrac>)
    ensures Dominates(a, a)
  {
    hide Peak;
  }

  /** Replacing a part of a sequence by one that dominates it keeps the diagram. */
  lemma DominatesInContext(pre: seq<FeeFrac>, a: seq<FeeFrac>, b: seq<FeeFrac>, post: seq<FeeFrac>)
    requires Dominates(a, b) && Sum(a) == Sum(b)
    ensures Dominates(pre + a + post, pre + b + post)
  {
    hide Sum, Peak, FeeFrac.Excess;
    var preA, preB := pre + a, pre + b;
    SumConcat(pre, a);
    SumConcat(pre, b);
    forall p: int, q: int | q > 0
      ensures Peak(preA + post, p, q) >= Peak(preB + post, p, q)
    {
      PeakConcat(preA, post, p, q);
      PeakConcat(preB, post, p, q);
      PeakConcat(pre, a, p, q);
      PeakConcat(pre, b, p, q);
    }
  }

  /** A sequence is tight when no proper prefix of it shows up in any diagram:
      its own endpoints already reach every peak. */
  ghost predicate Tight(s: seq<FeeFrac>) {
    forall p: int, q: int | q > 0 :: Peak(s, p, q) == Max(0, Sum(s).Excess(p, q))
  }

  lemma SingletonTight(f: FeeFrac)
    ensures Tight([f]) && Sum([f]) == f
  {
    assert Sum([f][1..]) == EMPTY;
    forall p: int, q: int | q > 0
      ensures Peak([f], p, q) == Max(0, Sum([f]).Excess(p, q))
    {
      SingletonPeak(f, p, q);
    }
  }

  /** Merging a group into a following one of higher feerate keeps it tight. */
  lemma MergeTight(a: seq<FeeFrac>, b: seq<FeeFrac>)
    requires Positive(a) && Positive(b) && a != [] && b != []
    requires Tight(a) && Tight(b) && Sum(b).Higher(Sum(a))
    ensures Tight(a + b)
  {
    SumPositive(a);
    SumPositive(b);
    SumConcat(a, b);
    forall p: int, q: int | q > 0
      ensures Peak(a + b, p, q) == Max(0, Sum(a + b).Excess(p, q))
    {
      PeakConcat(a, b, p, q);
      ExcessPlus(Sum(a), Sum(b), p, q);
      ExcessSign(Sum(a), Sum(b), p, q);
    }
  }

  /** Swapping two tight groups so that the higher feerate comes first does not
      lower the diagram anywhere. */
  lemma SwapDominates(a: seq<FeeFrac>, b: seq<FeeFrac>)
    requires Positive(a) && Positive(b) && a != [] && b != []
    requires Tight(a) && Tight(b) && Sum(b).Higher(Sum(a))
    ensures Dominates(b + a, a + b) && Sum(b + a) == Sum(a + b)
  {
    SumPositive(a);
    SumPositive(b);
    SumConcat(a, b);
    SumConcat(b, a);
    forall p: int, q: int | q > 0
      ensures Peak(b + a, p, q) >= Peak(a + b, p, q)
    {
      PeakConcat(a, b, p, q);
      PeakConcat(b, a, p, q);
      ExcessPlus(Sum(a), Sum(b), p, q);
      ExcessSign(Sum(a), Sum(b), p, q);
    }
  }

  // ----- reversal -----

  ghost function Reversed<T>(s: seq<T>): (r: seq<T>)
    ensures |r| == |s|
    ensures forall i :: 0 <= i < |s| ==> r[i] == s[|s| - 1 - i]
  {
    if s == [] then [] else Reversed(s[1..]) + [s[0]]
  }

  ghost function NegatedFees(s: seq<FeeFrac>): (r: seq<FeeFrac>)
    ensures |r| == |s|
    ensures forall i :: 0 <= i < |s| ==> r[i] == s[i].Negated()
  {
    seq(|s|, i requires 0 <= i < |s| => s[i].Negated())
  }

  lemma SingletonPeak(f: FeeFrac, p: int, q: int)
    ensures Sum([f]) == f && Peak([f], p, q) == Max(0, f.Excess(p, q))
  {
    SumStep([f]);
    PeakStep([f], p, q);
  }

  lemma EmptyExcess(p: int, q: int)
    ensures EMPTY.Excess(p, q) == 0
  {
  }

  lemma NegatedExcess(f: FeeFrac, p: int, q: int)
    ensures f.Negated().Excess(-p, q) == -f.Excess(p, q)
  {
  }

  lemma ReversedStep(s: seq<FeeFrac>)
    ensures s != [] ==> NegatedFees(Reversed(s)) == NegatedFees(Reversed(s[1..])) + [s[0].Negated()]
  {
  }

  lemma {:induction false} SumReversed(s: seq<FeeFrac>)
    ensures Sum(NegatedFees(Reversed(s))) == Sum(s).Negated()
  {
    hide Sum, Reversed, NegatedFees;
    SumStep(s);
    if s == [] {
      SumStep(NegatedFees(Reversed(s)));
    } else {
      SumReversed(s[1..]);
      ReversedStep(s);
      SumConcat(NegatedFees(Reversed(s[1..])), [s[0].Negated()]);
      SumStep([s[0].Negated()]);
    }
  }

  /** A diagram read from its far end: reversing the sequence and negating the fees
      turns peaks over p/q into peaks over -p/q. */
  lemma {:induction false} PeakReversed(s: seq<FeeFrac>, p: int, q: int)
    ensures Peak(s, p, q) == Sum(s).Excess(p, q) + Peak(NegatedFees(Reversed(s)), -p, q)
  {
    hide Sum, Peak, FeeFrac.Excess, Reversed, NegatedFees;
    SumStep(s);
    PeakStep(s, p, q);
    if s == [] {
      PeakStep(NegatedFees(Reversed(s)), -p, q);
      EmptyExcess(p, q);
    } else {
      var t := s[1..];
      var r, last := NegatedFees(Reversed(t)), s[0].Negated();
      var e0, et := s[0].Excess(p, q), Sum(t).Excess(p, q);
      assert Peak(t, p, q) >= 0 by {
        PeakStep(t, p, q);
      }
      PeakReversed(t, p, q);
      assert Peak(r + [last], -p, q) == Max(Peak(r, -p, q), -et + Max(0, -e0)) by {
        PeakConcat(r, [last], -p, q);
        PeakStep([last], -p, q);
        SumReversed(t);
        NegatedExcess(s[0], p, q);
        NegatedExcess(Sum(t), p, q);
      }
      ReversedStep(s);
      assert Sum(s).Excess(p, q) == e0 + et by {
        ExcessPlus(s[0], Sum(t), p, q);
      }
    }
  }

  lemma ReversedDominates(a: seq<FeeFrac>, b: seq<FeeFrac>)
    requires Sum(a) == Sum(b)
    requires Dominates(NegatedFees(Reversed(a)), NegatedFees(Reversed(b)))
    ensures Dominates(a, b)
  {
    forall p: int, q: int | q > 0
      ensures Peak(a, p, q) >= Peak(b, p, q)
    {
      PeakReversed(a, p, q);
      PeakReversed(b, p, q);
      assert Peak(NegatedFees(Reversed(a)), -p, q) >= Peak(NegatedFees(Reversed(b)), -p, q);
    }
  }

  // ----- chunks -----

  /** Every proper prefix of a chunk has a strictly lower feerate than the chunk. */
  ghost predicate IsChunk(s: seq<FeeFrac>) {
    && s != []
    && forall i :: 0 < i < |s| ==> Sum(s).Higher(Sum(s[..i]))
  }

  ghost predicate NonIncreasing(c: seq<FeeFrac>) {
    forall i {:trigger c[i]} :: 0 < i < |c| ==> !c[i].Higher(c[i - 1])
  }

  /** parts cuts s into chunks of non-increasing feerate. */
  ghost predicate IsChunking(parts: seq<seq<FeeFrac>>, s: seq<FeeFrac>) {
    && Flatten(parts) == s
    && (forall i :: 0 <= i < |parts| ==> IsChunk(parts[i]))
    && NonIncreasing(Sums(parts))
  }

  lemma ChunkTight(s: seq<FeeFrac>)
    requires Positive(s) && IsChunk(s)
    ensures Tight(s)
  {
    SumPositive(s);
    forall p: int, q: int | q > 0
      ensures Peak(s, p, q) == Max(0, Sum(s).Excess(p, q))
    {
      var i := PeakAttained(s, p, q);
      PeakPrefix(s, 0, p, q);
      PeakPrefix(s, |s|, p, q);
      assert s[..|s|] == s;
      if 0 < i < |s| {
        PrefixSmaller(s, i);
        ExcessSign(Sum(s[..i]), Sum(s), p, q);
      }
    }
  }

  lemma PrefixSmaller(s: seq<FeeFrac>, i: nat)
    requires Positive(s) && 0 < i < |s|
    ensures 0 < Sum(s[..i]).size < Sum(s).size
  {
    assert s == s[..i] + s[i..];
    SumConcat(s[..i], s[i..]);
    SumPositive(s[..i]);
    SumPositive(s[i..]);
  }

  lemma PositiveSplit(a: seq<FeeFrac>, b: seq<FeeFrac>)
    ensures Positive(a + b) <==> Positive(a) && Positive(b)
  {
    var ab := a + b;
    assert forall i :: 0 <= i < |a| ==> ab[i] == a[i];
    assert forall i :: 0 <= i < |b| ==> ab[|a| + i] == b[i];
  }

  /** Absorbing the previous chunk when the new one has a strictly higher feerate
      gives a chunk again. */
  lemma MergeChunk(a: seq<FeeFrac>, b: seq<FeeFrac>)
    requires Positive(a + b) && IsChunk(a) && IsChunk(b) && Sum(b).Higher(Sum(a))
    ensures IsChunk(a + b)
  {
    PositiveSplit(a, b);
    hide Sum, FeeFrac.Higher;
    var sa, sb := Sum(a), Sum(b);
    SumPositive(a);
    SumPositive(b);
    SumConcat(a, b);
    var ab := a + b;
    forall i | 0 < i < |ab|
      ensures Sum(ab).Higher(Sum(ab[..i]))
    {
      if i <= |a| {
        assert ab[..i] == a[..i];
        assert a[..|a|] == a;
        if i < |a| {
          PrefixSmaller(a, i);
        }
        LowerThanBoth(Sum(a[..i]), sa, sb);
      } else {
        var rest := b[..i - |a|];
        assert ab[..i] == a + rest;
        SumConcat(a, rest);
        PrefixSmaller(b, i - |a|);
        PartialSum(sa, sb, Sum(rest));
      }
    }
  }

  /** x is lower than a, and a is lower than b: x is lower than a and b together. */
  lemma LowerThanBoth(x: FeeFrac, a: FeeFrac, b: FeeFrac)
    requires x.size > 0 && a.size > 0 && b.size > 0
    requires (x == a || a.Higher(x)) && b.Higher(a)
    ensures a.Plus(b).Higher(x)
  {
    FeerateTransitive(b, a, x);
  }

  /** a plus a lower, smaller part y of b stays below a and b together. */
  lemma PartialSum(a: FeeFrac, b: FeeFrac, y: FeeFrac)
    requires a.size > 0 && b.size > y.size > 0
    requires b.Higher(a) && b.Higher(y)
    ensures a.Plus(b).Higher(a.Plus(y))
  {
    // Measured at the feerate of b, everything but b itself has negative excess.
    var t := a.Plus(b);
    var p, q := t.fee, t.size;
    ExcessCross(a, t, p, q);
    ExcessCross(t, b, p, q);
    assert t.Excess(p, q) == 0;
    assert a.fee * t.size < t.fee * a.size;
    assert t.fee * b.size < b.fee * t.size;
    ExcessPlus(a, b, p, q);
    ExcessPlus(a, y, p, q);
    ExcessCross(y, b, p, q);
    assert b.Excess(p, q) > 0 by {
      assert a.Excess(p, q) * t.size < 0;
      assert a.Excess(p, q) >= 0 ==> a.Excess(p, q) * t.size >= 0;
    }
    StrictlySmallerShare(y.Excess(p, q), b.size, b.Excess(p, q), y.size);
    assert a.Plus(y).Excess(p, q) < 0;
  }

  lemma StrictlySmallerShare(x: int, n: int, y: int, m: int)
    requires x * n < y * m && 0 < m < n && y > 0
    ensures x < y
  {
    assert y * m < y * n;
    assert x >= y ==> x * n >= y * n;
  }

  /** Chunks hide their inner points: the peaks of a chunked sequence are the peaks
      of its chunk sums. */
  lemma {:induction false} PeakOfParts(parts: seq<seq<FeeFrac>>, p: int, q: int)
    requires q > 0
    requires forall i :: 0 <= i < |parts| ==> Tight(parts[i])
    ensures Peak(Flatten(parts), p, q) == Peak(Sums(parts), p, q)
  {
    if parts != [] {
      PeakOfParts(parts[1..], p, q);
      PeakConcat(parts[0], Flatten(parts[1..]), p, q);
      assert Sums(parts)[1..] == Sums(parts[1..]);
      assert Tight(parts[0]);
      PeakPrefix(Sums(parts[1..]), 0, p, q);
    }
  }

  /** In a chunked sequence, once a chunk has no excess neither has any later one. */
  lemma {:induction false} NonIncreasingPeak(c: seq<FeeFrac>, p: int, q: int)
    requires q > 0 && Positive(c) && NonIncreasing(c) && c != []
    ensures c[0].Excess(p, q) <= 0 ==> Peak(c, p, q) == 0
    ensures c[0].Excess(p, q) >= 0 ==> Peak(c, p, q) == c[0].Excess(p, q) + Peak(c[1..], p, q)
  {
    PeakPrefix(c[1..], 0, p, q);
    if |c| > 1 {
      NonIncreasingPeak(c[1..], p, q);
      assert !c[1].Higher(c[0]);
      ExcessSign(c[1], c[0], p, q);
    }
  }

  lemma {:induction false} PositiveParts(parts: seq<seq<FeeFrac>>)
    requires Positive(Flatten(parts))
    requires forall i :: 0 <= i < |parts| ==> IsChunk(parts[i])
    ensures forall i :: 0 <= i < |parts| ==> Positive(parts[i]) && Tight(parts[i])
    ensures Positive(Sums(parts))
  {
    if parts != [] {
      var s, r := Flatten(parts), Flatten(parts[1..]);
      assert forall i :: 0 <= i < |r| ==> r[i] == s[|parts[0]| + i];
      assert forall i :: 0 <= i < |parts[0]| ==> parts[0][i] == s[i];
      PositiveParts(parts[1..]);
      ChunkTight(parts[0]);
      SumPositive(parts[0]);
      assert Sums(parts)[1..] == Sums(parts[1..]);
      assert forall i :: 0 < i < |parts| ==> parts[i] == parts[1..][i - 1];
      assert forall i :: 0 < i < |parts| ==> Sums(parts)[i] == Sums(parts[1..])[i - 1];
    }
  }

  lemma NonIncreasingTail(c: seq<FeeFrac>, k: nat)
    requires NonIncreasing(c) && k <= |c|
    ensures NonIncreasing(c[k..])
  {
    forall i | 0 < i < |c[k..]|
      ensures !c[k..][i].Higher(c[k..][i - 1])
    {
      assert c[k..][i] == c[k + i] && c[k..][i - 1] == c[k + i - 1];
    }
  }

  lemma ChunkingTail(parts: seq<seq<FeeFrac>>, s: seq<FeeFrac>)
    requires IsChunking(parts, s) && parts != []
    ensures |parts[0]| <= |s| && s[..|parts[0]|] == parts[0]
    ensures IsChunking(parts[1..], s[|parts[0]|..])
  {
    NonIncreasingTail(Sums(parts), 1);
    assert Sums(parts[1..]) == Sums(parts)[1..];
  }

  /** A sequence has one chunking only. */
  lemma {:induction false} ChunkingUnique(a: seq<seq<FeeFrac>>, b: seq<seq<FeeFrac>>, s: seq<FeeFrac>)
    requires Positive(s) && IsChunking(a, s) && IsChunking(b, s)
    ensures a == b
  {
    assert a != [] ==> IsChunk(a[0]);
    assert b != [] ==> IsChunk(b[0]);
    if a != [] && b != [] {
      FirstChunkNotShorter(a, b, s);
      FirstChunkNotShorter(b, a, s);
      ChunkingTail(a, s);
      ChunkingTail(b, s);
      ChunkingUnique(a[1..], b[1..], s[|a[0]|..]);
      assert a == [a[0]] + a[1..];
      assert b == [b[0]] + b[1..];
    }
  }

  lemma HigherThanPrefix(s: seq<FeeFrac>, pre: seq<FeeFrac>)
    requires IsChunk(s) && pre < s && pre != []
    ensures Sum(s).Higher(Sum(pre))
  {
    assert s[..|pre|] == pre;
  }

  lemma FirstChunkNotShorter(a: seq<seq<FeeFrac>>, b: seq<seq<FeeFrac>>, s: seq<FeeFrac>)
    requires Positive(s) && IsChunking(a, s) && IsChunking(b, s) && a != [] && b != []
    ensures |a[0]| >= |b[0]|
  {
    ChunkingTail(a, s);
    ChunkingTail(b, s);
    PositiveParts(a);
    if |a[0]| < |b[0]| {
      hide Sum, Peak, FeeFrac.Excess, FeeFrac.Higher;
      var f := Sum(a[0]);
      SumPositive(a[0]);
      PeakOfParts(a, f.fee, f.size);
      assert Sums(a)[0] == f;
      OwnSlope(f);
      NonIncreasingPeak(Sums(a), f.fee, f.size);
      PeakPrefix(s, |b[0]|, f.fee, f.size);
      HigherThanPrefix(b[0], a[0]);
      assert false;
    }
  }

  // ----- the diagram as a function of size -----

  /** The fee of the diagram with the given segments at size x. */
  ghost function DiagramAt(chunks: seq<FeeFrac>, x: real): real
    requires Positive(chunks)
  {
    if chunks == [] || x <= 0.0 then 0.0
    else if x <= chunks[0].size as real then chunks[0].fee as real * x / chunks[0].size as real
    else chunks[0].fee as real + DiagramAt(chunks[1..], x - chunks[0].size as real)
  }

  /** Where x falls within the first segment, the diagram interpolates. */
  ghost function Within(f: FeeFrac, x: real): real
    requires f.size > 0
  {
    f.fee as real * x / f.size as real
  }

  lemma DiagramStep(c: seq<FeeFrac>, x: real)
    requires Positive(c)
    ensures c == [] || x <= 0.0 ==> DiagramAt(c, x) == 0.0
    ensures c != [] && 0.0 < x <= c[0].size as real ==> DiagramAt(c, x) == Within(c[0], x)
    ensures c != [] && x > c[0].size as real ==>
              DiagramAt(c, x) == c[0].fee as real + DiagramAt(c[1..], x - c[0].size as real)
  {
  }

  lemma WithinEnd(f: FeeFrac)
    requires f.size > 0
    ensures Within(f, f.size as real) == f.fee as real
  {
  }

  /** The real-valued excess over feerate p/q of a point of a diagram. */
  ghost function Rise(y: real, x: real, p: int, q: int): real {
    q as real * y - p as real * x
  }

  lemma RiseVertex(f: FeeFrac, p: int, q: int)
    ensures Rise(f.fee as real, f.size as real, p, q) == f.Excess(p, q) as real
  {
    assert (q * f.fee) as real == q as real * f.fee as real;
    assert (p * f.size) as real == p as real * f.size as real;
  }

  lemma RisePlus(f: FeeFrac, y: real, x: real, p: int, q: int)
    ensures Rise(f.fee as real + y, f.size as real + x, p, q) == f.Excess(p, q) as real + Rise(y, x, p, q)
  {
    RiseVertex(f, p, q);
  }

  lemma RiseWithin(f: FeeFrac, x: real, p: int, q: int)
    requires f.size > 0 && 0.0 <= x <= f.size as real
    ensures Rise(Within(f, x), x, p, q) <= Max(0, f.Excess(p, q)) as real
    ensures p == f.fee && q == f.size ==> Rise(Within(f, x), x, p, q) == 0.0
  {
    RiseVertex(f, p, q);
    var n, t := f.size as real, x / f.size as real;
    assert x == t * n;
    assert Within(f, x) == f.fee as real * t;
    var e := f.Excess(p, q) as real;
    assert Rise(Within(f, x), x, p, q) == t * e;
    Share(t, e);
    assert p == f.fee && q == f.size ==> f.Excess(p, q) == 0;
  }

  lemma Share(t: real, e: real)
    requires 0.0 <= t <= 1.0
    ensures t * e <= 0.0 || t * e <= e
  {
  }

  lemma RiseOrder(a: real, b: real, x: real, p: int, q: int)
    requires q > 0
    ensures Rise(a, x, p, q) >= Rise(b, x, p, q) <==> a >= b
  {
    var r := q as real;
    assert a < b ==> r * a < r * b;
    assert a >= b ==> r * a >= r * b;
  }

  lemma {:induction false} TotalSize(c: seq<FeeFrac>)
    requires Positive(c)
    ensures Sum(c).size >= 0 && (Sum(c).size == 0 ==> c == [])
    ensures forall x: real :: x >= Sum(c).size as real ==> DiagramAt(c, x) == Sum(c).fee as real
  {
    hide DiagramAt, Within, Sum;
    SumStep(c);
    if c != [] {
      TotalSize(c[1..]);
    }
    forall x: real | x >= Sum(c).size as real
      ensures DiagramAt(c, x) == Sum(c).fee as real
    {
      DiagramStep(c, x);
      if c != [] && x == c[0].size as real {
        WithinEnd(c[0]);
        SumStep(c[1..]);
      }
    }
  }

  /** No point of a diagram rises above a line of slope p/q by more than the peak. */
  lemma {:induction false} DiagramBelowPeak(c: seq<FeeFrac>, x: real, p: int, q: int)
    requires Positive(c) && q > 0 && 0.0 <= x <= Sum(c).size as real
    ensures Rise(DiagramAt(c, x), x, p, q) <= Peak(c, p, q) as real
  {
    hide DiagramAt, Within, Sum, Peak, FeeFrac.Excess;
    hide Rise;
    SumStep(c);
    PeakStep(c, p, q);
    DiagramStep(c, x);
    if c == [] || x <= 0.0 {
      RiseVertex(EMPTY, p, q);
      EmptyExcess(p, q);
      assert EMPTY.size as real == 0.0 && EMPTY.fee as real == 0.0;
    } else {
      PeakStep(c[1..], p, q);
      var n := c[0].size as real;
      if x <= n {
        RiseWithin(c[0], x, p, q);
      } else {
        DiagramBelowPeak(c[1..], x - n, p, q);
        RisePlus(c[0], DiagramAt(c[1..], x - n), x - n, p, q);
      }
    }
  }

  /** Each point of a diagram of non-increasing slopes touches the line of some
      segment's slope that the diagram never crosses. */
  lemma {:induction false} DiagramTouchesPeak(c: seq<FeeFrac>, x: real) returns (k: nat)
    requires Positive(c) && NonIncreasing(c) && c != [] && 0.0 <= x <= Sum(c).size as real
    ensures k < |c|
    ensures Rise(DiagramAt(c, x), x, c[k].fee, c[k].size) == Peak(c, c[k].fee, c[k].size) as real
    ensures c[0].Excess(c[k].fee, c[k].size) >= 0
  {
    hide DiagramAt, Within, Sum, Peak, FeeFrac.Higher, Rise;
    var n := c[0].size as real;
    SumStep(c);
    SumStep(c[1..]);
    DiagramStep(c, x);
    if x <= n {
      k := 0;
      OwnSlope(c[0]);
      NonIncreasingPeak(c, c[0].fee, c[0].size);
      RiseWithin(c[0], x, c[0].fee, c[0].size);
      RiseVertex(EMPTY, c[0].fee, c[0].size);
    } else {
      NonIncreasingTail(c, 1);
      var j := DiagramTouchesPeak(c[1..], x - n);
      k := j + 1;
      var p, q := c[k].fee, c[k].size;
      assert !c[1].Higher(c[0]);
      ExcessSign(c[1], c[0], p, q);
      NonIncreasingPeak(c, p, q);
      RisePlus(c[0], DiagramAt(c[1..], x - n), x - n, p, q);
    }
  }

  lemma OwnSlope(f: FeeFrac)
    ensures f.Excess(f.fee, f.size) == 0
    ensures forall g: FeeFrac :: g.Higher(f) <==> g.Excess(f.fee, f.size) > 0
  {
  }

  ghost predicate DiagramNowhereBelow(a: seq<FeeFrac>, b: seq<FeeFrac>)
    requires Positive(a) && Positive(b)
  {
    forall x: real :: DiagramAt(a, x) >= DiagramAt(b, x)
  }

  lemma ChunkPeaks(parts: seq<seq<FeeFrac>>, s: seq<FeeFrac>)
    requires Positive(s) && IsChunking(parts, s)
    ensures Positive(Sums(parts)) && Sum(Sums(parts)) == Sum(s)
    ensures forall p: int, q: int | q > 0 :: Peak(s, p, q) == Peak(Sums(parts), p, q)
  {
    PositiveParts(parts);
    SumFlatten(parts);
    forall p: int, q: int | q > 0
      ensures Peak(s, p, q) == Peak(Sums(parts), p, q)
    {
      PeakOfParts(parts, p, q);
    }
  }

  /** Dominance of peaks is exactly pointwise dominance of the chunked diagrams. */
  lemma DominatesIffDiagram(a: seq<FeeFrac>, ca: seq<seq<FeeFrac>>, b: seq<FeeFrac>, cb: seq<seq<FeeFrac>>)
    requires Positive(a) && Positive(b) && Sum(a) == Sum(b)
    requires IsChunking(ca, a) && IsChunking(cb, b)
    ensures Positive(Sums(ca)) && Positive(Sums(cb))
    ensures Dominates(a, b) <==> DiagramNowhereBelow(Sums(ca), Sums(cb))
  {
    ChunkPeaks(ca, a);
    ChunkPeaks(cb, b);
    var da, db := Sums(ca), Sums(cb);
    if Dominates(a, b) {
      forall p: int, q: int | q > 0
        ensures Peak(da, p, q) >= Peak(db, p, q)
      {
        assert Peak(a, p, q) >= Peak(b, p, q);
      }
      forall x: real
        ensures DiagramAt(da, x) >= DiagramAt(db, x)
      {
        DominatesPointwise(da, db, x);
      }
    }
    if DiagramNowhereBelow(da, db) {
      forall p: int, q: int | q > 0
        ensures Peak(a, p, q) >= Peak(b, p, q)
      {
        DiagramGivesPeak(da, db, p, q);
      }
    }
  }

  lemma DominatesPointwise(da: seq<FeeFrac>, db: seq<FeeFrac>, x: real)
    requires Positive(da) && Positive(db) && NonIncreasing(da) && Sum(da) == Sum(db)
    requires Dominates(da, db)
    ensures DiagramAt(da, x) >= DiagramAt(db, x)
  {
    hide DiagramAt, Sum, Peak, Rise;
    DiagramStep(da, x);
    DiagramStep(db, x);
    TotalSize(da);
    TotalSize(db);
    SumStep(da);
    if 0.0 < x <= Sum(da).size as real && da != [] {
      var k := DiagramTouchesPeak(da, x);
      var p, q := da[k].fee, da[k].size;
      DiagramBelowPeak(db, x, p, q);
      assert Peak(da, p, q) >= Peak(db, p, q);
      RiseOrder(DiagramAt(da, x), DiagramAt(db, x), x, p, q);
    }
  }

  lemma DiagramGivesPeak(da: seq<FeeFrac>, db: seq<FeeFrac>, p: int, q: int)
    requires Positive(da) && Positive(db) && Sum(da) == Sum(db) && q > 0
    requires DiagramNowhereBelow(da, db)
    ensures Peak(da, p, q) >= Peak(db, p, q)
  {
    hide DiagramAt, Sum, Peak, Rise, FeeFrac.Excess;
    var i := PeakAttained(db, p, q);
    var v := Sum(db[..i]);
    DiagramAtVertex(db, i);
    var x := v.size as real;
    DiagramBelowPeak(da, x, p, q);
    assert DiagramAt(da, x) >= DiagramAt(db, x);
    RiseOrder(DiagramAt(da, x), DiagramAt(db, x), x, p, q);
    RiseVertex(v, p, q);
  }

  /** The diagram passes through the end of every segment. */
  lemma {:induction false} DiagramAtVertex(c: seq<FeeFrac>, i: nat)
    requires Positive(c) && i <= |c|
    ensures 0 <= Sum(c[..i]).size <= Sum(c).size
    ensures DiagramAt(c, Sum(c[..i]).size as real) == Sum(c[..i]).fee as real
  {
    hide DiagramAt, Sum, Within;
    SumStep(c);
    SumStep(c[..i]);
    TotalSize(c);
    DiagramStep(c, Sum(c[..i]).size as real);
    if i > 0 {
      var t := c[1..];
      assert c[..i][1..] == t[..i - 1];
      DiagramAtVertex(t, i - 1);
      TotalSize(t[..i - 1]);
      SumStep(t[..i - 1]);
      WithinEnd(c[0]);
    }
  }

  /** The diagram lies on or above every prefix point of the sequence. */
  lemma DiagramMajorizes(parts: seq<seq<FeeFrac>>, s: seq<FeeFrac>, i: nat)
    requires Positive(s) && IsChunking(parts, s) && i <= |s|
    ensures Positive(Sums(parts))
    ensures DiagramAt(Sums(parts), Sum(s[..i]).size as real) >= Sum(s[..i]).fee as real
  {
    hide DiagramAt, Sum, Peak, Rise, FeeFrac.Excess;
    ChunkPeaks(parts, s);
    var c, pt := Sums(parts), Sum(s[..i]);
    DiagramAtVertex(s, i);
    DiagramStep(c, pt.size as real);
    SumStep(c);
    if c == [] {
      assert Flatten(parts) == [];
      SumStep(s[..i]);
    } else {
      var k := DiagramTouchesPeak(c, pt.size as real);
      var p, q := c[k].fee, c[k].size;
      PeakPrefix(s, i, p, q);
      RiseVertex(pt, p, q);
      RiseOrder(DiagramAt(c, pt.size as real), pt.fee as real, pt.size as real, p, q);
    }
  }

  /** The point a share t of the way from y to x. */
  ghost function Mix(t: real, x: real, y: real): real {
    t * x + (1.0 - t) * y
  }

  ghost predicate ConcaveUpTo(f: real -> real, limit: real) {
    forall x: real, y: real, t: real |
      0.0 <= x <= limit && 0.0 <= y <= limit && 0.0 <= t <= 1.0 ::
      f(Mix(t, x, y)) >= Mix(t, f(x), f(y))
  }

  ghost predicate AbovePrefixPoints(f: real -> real, s: seq<FeeFrac>) {
    forall i {:trigger s[..i]} | 0 <= i <= |s| ::
      f(Sum(s[..i]).size as real) >= Sum(s[..i]).fee as real
  }

  /** The diagram of the chunks is the least concave function on or above all prefix
      points: with DiagramMajorizes, exactly the least concave majorant. */
  lemma DiagramIsLeast(parts: seq<seq<FeeFrac>>, s: seq<FeeFrac>, f: real -> real, x: real)
    requires Positive(s) && IsChunking(parts, s)
    requires ConcaveUpTo(f, Sum(s).size as real) && AbovePrefixPoints(f, s)
    requires 0.0 <= x <= Sum(s).size as real
    ensures Positive(Sums(parts))
    ensures DiagramAt(Sums(parts), x) <= f(x)
  {
    hide ConcaveUpTo, AboveFrom, AbovePrefixPoints, Sum, DiagramAt;
    ChunkPeaks(parts, s);
    ChunksAbove(parts, s, f);
    var c := Sums(parts);
    FromEmpty(f, c);
    SumFlatten(parts);
    assert EMPTY.Plus(Sum(c)) == Sum(s);
    ConcaveAbove(c, f, EMPTY, x);
  }

  lemma FromEmpty(f: real -> real, c: seq<FeeFrac>)
    requires AbovePrefixPoints(f, c)
    ensures AboveFrom(f, EMPTY, c)
  {
    hide Sum;
    forall i {:trigger c[..i]} | 0 <= i <= |c|
      ensures f(EMPTY.Plus(Sum(c[..i])).size as real) >= EMPTY.Plus(Sum(c[..i])).fee as real
    {
      assert EMPTY.Plus(Sum(c[..i])) == Sum(c[..i]);
    }
  }

  lemma ChunksAbove(parts: seq<seq<FeeFrac>>, s: seq<FeeFrac>, f: real -> real)
    requires Flatten(parts) == s && AbovePrefixPoints(f, s)
    ensures AbovePrefixPoints(f, Sums(parts))
  {
    hide Sum, Flatten;
    forall i {:trigger Sums(parts)[..i]} | 0 <= i <= |Sums(parts)|
      ensures f(Sum(Sums(parts)[..i]).size as real) >= Sum(Sums(parts)[..i]).fee as real
    {
      ChunkPointAbove(parts, s, f, i);
    }
  }

  /** The end of a chunk is a prefix point. */
  lemma ChunkPointAbove(parts: seq<seq<FeeFrac>>, s: seq<FeeFrac>, f: real -> real, i: nat)
    requires Flatten(parts) == s && i <= |parts| && AbovePrefixPoints(f, s)
    ensures f(Sum(Sums(parts)[..i]).size as real) >= Sum(Sums(parts)[..i]).fee as real
  {
    hide Sum, Flatten;
    assert Sums(parts)[..i] == Sums(parts[..i]);
    SumFlatten(parts[..i]);
    FlattenConcat(parts[..i], parts[i..]);
    assert parts == parts[..i] + parts[i..];
    var n := |Flatten(parts[..i])|;
    assert s[..n] == Flatten(parts[..i]);
  }

  ghost predicate AboveFrom(f: real -> real, base: FeeFrac, c: seq<FeeFrac>) {
    forall i {:trigger c[..i]} | 0 <= i <= |c| ::
      f(base.Plus(Sum(c[..i])).size as real) >= base.Plus(Sum(c[..i])).fee as real
  }

  lemma {:induction false} ConcaveAbove(c: seq<FeeFrac>, f: real -> real, base: FeeFrac, x: real)
    requires Positive(c) && base.size >= 0 && 0.0 <= x <= Sum(c).size as real
    requires ConcaveUpTo(f, base.Plus(Sum(c)).size as real)
    requires AboveFrom(f, base, c)
    ensures f(base.size as real + x) >= base.fee as real + DiagramAt(c, x)
  {
    hide DiagramAt, Sum, Within, Mix;
    DiagramStep(c, x);
    SumStep(c);
    SumStep(c[..0]);
    if c != [] && x > 0.0 {
      var next := base.Plus(c[0]);
      SumStep(c[..1]);
      TotalSize(c[1..]);
      if x <= c[0].size as real {
        var u, v := base.size as real, next.size as real;
        assert f(u) >= base.fee as real;
        assert f(v) >= next.fee as real;
        MixSegment(base, c[0], x);
        var t := x / c[0].size as real;
        assert f(Mix(t, v, u)) >= Mix(t, f(v), f(u));
        MixMonotone(t, f(v), f(u), next.fee as real, base.fee as real);
      } else {
        assert AboveFrom(f, next, c[1..]) by {
          forall i | 0 <= i <= |c[1..]|
            ensures f(next.Plus(Sum(c[1..][..i])).size as real) >= next.Plus(Sum(c[1..][..i])).fee as real
          {
            SumStep(c[..i + 1]);
            assert c[..i + 1][1..] == c[1..][..i];
            assert base.Plus(Sum(c[..i + 1])) == next.Plus(Sum(c[1..][..i]));
          }
        }
        ConcaveAbove(c[1..], f, next, x - c[0].size as real);
      }
    }
  }

  lemma MixSegment(base: FeeFrac, step: FeeFrac, x: real)
    requires step.size > 0 && 0.0 <= x <= step.size as real
    ensures var t := x / step.size as real;
            var next := base.Plus(step);
            && 0.0 <= t <= 1.0
            && Mix(t, next.size as real, base.size as real) == base.size as real + x
            && Mix(t, next.fee as real, base.fee as real) == base.fee as real + Within(step, x)
  {
    var n, d := step.size as real, step.fee as real;
    var t := x / n;
    assert x == t * n;
    assert Within(step, x) == d * t;
    MixFrom(t, base.size as real, n);
    MixFrom(t, base.fee as real, d);
  }

  lemma MixFrom(t: real, u: real, d: real)
    ensures Mix(t, u + d, u) == u + t * d
  {
    assert t * (u + d) == t * u + t * d;
    assert (1.0 - t) * u == u - t * u;
  }

  lemma MixMonotone(t: real, x: real, y: real, a: real, b: real)
    requires 0.0 <= t <= 1.0 && x >= a && y >= b
    ensures Mix(t, x, y) >= Mix(t, a, b)
  {
    var u := 1.0 - t;
    NonNegativeSum(t, x - a, u, y - b);
    assert Mix(t, x, y) - Mix(t, a, b) == t * (x - a) + u * (y - b);
  }

  lemma NonNegativeSum(t: real, x: real, u: real, y: real)
    requires t >= 0.0 && x >= 0.0 && u >= 0.0 && y >= 0.0
    ensures t * x + u * y >= 0.0
  {
    assert t * x >= 0.0 && u * y >= 0.0;
  }
}
