/** Chunks of linearizations (src/cluster_linearize.h): the stack algorithm that forms
    them, and the structure that keeps them while transactions are taken out. */
module Chunkings {
  import opened Collections
  import opened FeeFracs
  import opened Diagrams
  import opened NatSets
  import opened DepGraphs

  /** A set of transactions with its aggregate fee and size. */
  datatype SetInfo = SetInfo(transactions: set<nat>, feerate: FeeFrac)

  ghost predicate InfoOk(g: Graph, info: SetInfo) {
    info.feerate == g.SetFee(info.transactions)
  }

  // ----- the stack algorithm -----

  /** parts are finished chunks and cur is the chunk still growing; together they cover s. */
  ghost predicate Stack(parts: seq<seq<FeeFrac>>, cur: seq<FeeFrac>, s: seq<FeeFrac>) {
    IsChunking(parts, Flatten(parts)) && IsChunk(cur) && Flatten(parts) + cur == s
  }

  lemma FlattenSnoc<T>(parts: seq<seq<T>>)
    requires parts != []
    ensures var n := |parts| - 1; Flatten(parts) == Flatten(parts[..n]) + parts[n]
  {
    var n := |parts| - 1;
    assert parts == parts[..n] + [parts[n]];
    FlattenConcat(parts[..n], [parts[n]]);
    FlattenOne(parts[n]);
  }

  lemma FlattenOne<T>(part: seq<T>)
    ensures Flatten([part]) == part
  {
    assert [part][1..] == [];
  }

  lemma SumsAt(parts: seq<seq<FeeFrac>>, k: nat)
    requires k <= |parts|
    ensures Sums(parts[..k]) == Sums(parts)[..k]
  {
  }

  lemma NonIncreasingPrefix(c: seq<FeeFrac>, k: nat)
    requires NonIncreasing(c) && k <= |c|
    ensures NonIncreasing(c[..k])
  {
    forall i | 0 < i < k
      ensures !c[..k][i].Higher(c[..k][i - 1])
    {
      assert !c[i].Higher(c[i - 1]);
    }
  }

  lemma StackStart(parts: seq<seq<FeeFrac>>, s: seq<FeeFrac>, f: FeeFrac)
    requires IsChunking(parts, s)
    ensures Stack(parts, [f], s + [f]) && Sum([f]) == f
  {
    SumStep([f]);
  }

  lemma StackAbsorb(parts: seq<seq<FeeFrac>>, cur: seq<FeeFrac>, s: seq<FeeFrac>)
    requires Positive(s) && Stack(parts, cur, s) && parts != []
    requires Sum(cur).Higher(Sum(parts[|parts| - 1]))
    ensures var n := |parts| - 1;
            && Stack(parts[..n], parts[n] + cur, s)
            && Sum(parts[n] + cur) == Sum(parts[n]).Plus(Sum(cur))
  {
    hide Sum, IsChunk, FeeFrac.Higher, FeeFrac.Plus;
    var n := |parts| - 1;
    FlattenSnoc(parts);
    var pre := Flatten(parts[..n]);
    assert s == pre + (parts[n] + cur);
    PositiveSplit(pre, parts[n] + cur);
    MergeChunk(parts[n], cur);
    SumConcat(parts[n], cur);
    SumsAt(parts, n);
    NonIncreasingPrefix(Sums(parts), n);
  }

  lemma StackPush(parts: seq<seq<FeeFrac>>, cur: seq<FeeFrac>, s: seq<FeeFrac>)
    requires Stack(parts, cur, s)
    requires parts != [] ==> !Sum(cur).Higher(Sum(parts[|parts| - 1]))
    ensures IsChunking(parts + [cur], s)
    ensures Sums(parts + [cur]) == Sums(parts) + [Sum(cur)]
  {
    hide Sum, IsChunk, FeeFrac.Higher;
    var all := parts + [cur];
    FlattenConcat(parts, [cur]);
    FlattenOne(cur);
    var sums := Sums(all);
    assert sums == Sums(parts) + [Sum(cur)];
    forall i | 0 < i < |sums|
      ensures !sums[i].Higher(sums[i - 1])
    {
      if i < |parts| {
        assert !Sums(parts)[i].Higher(Sums(parts)[i - 1]);
      }
    }
  }

  /** The chunk feerates of a linearization. The result is the only sequence of chunk
      sums of non-increasing feerate (ChunkingUnique) and traces the least concave
      majorant of the prefix points (DiagramMajorizes, DiagramIsLeast). */
  method ChunkLinearization(g: Graph, linearization: seq<nat>) returns (ret: seq<FeeFrac>)
    requires g.PositiveSizes() && Elements(linearization) <= g.used
    ensures exists parts :: IsChunking(parts, g.Fees(linearization)) && ret == Sums(parts)
    ensures forall parts | IsChunking(parts, g.Fees(linearization)) :: ret == Sums(parts)
    ensures Sum(ret) == Sum(g.Fees(linearization))
  {
    hide IsChunk, NonIncreasing, Sum, Graph.PositiveSizes, Flatten;
    ret := [];
    ghost var parts: seq<seq<FeeFrac>> := [];
    ghost var fees := g.Fees(linearization);
    g.FeesPositive(linearization);
    EmptyChunking();
    assert fees[..0] == [];
    var k := 0;
    while k < |linearization|
      invariant k <= |linearization|
      invariant IsChunking(parts, fees[..k]) && ret == Sums(parts)
    {
      var newChunk := g.FeeRate(linearization[k]);
      ghost var cur := [newChunk];
      assert fees[..k + 1] == fees[..k] + [newChunk];
      StackStart(parts, fees[..k], newChunk);
      while ret != [] && newChunk.Higher(ret[|ret| - 1])
        invariant Stack(parts, cur, fees[..k + 1])
        invariant ret == Sums(parts) && newChunk == Sum(cur)
        decreases |ret|
      {
        StackAbsorb(parts, cur, fees[..k + 1]);
        ghost var n := |parts| - 1;
        SumsAt(parts, n);
        cur, parts := parts[n] + cur, parts[..n];
        newChunk := ret[|ret| - 1].Plus(newChunk);
        ret := ret[..|ret| - 1];
      }
      StackPush(parts, cur, fees[..k + 1]);
      parts := parts + [cur];
      ret := ret + [newChunk];
      k := k + 1;
    }
    assert fees[..k] == fees;
    SumFlatten(parts);
    forall other | IsChunking(other, fees)
      ensures ret == Sums(other)
    {
      ChunkingUnique(parts, other, fees);
    }
  }

  lemma EmptyChunking()
    ensures IsChunking([], []) && Sums([]) == []
  {
  }

  // ----- sublists -----

  /** The members of lin that are in s, in order. */
  ghost function Keep(lin: seq<nat>, s: set<nat>): seq<nat> {
    if lin == [] then []
    else if lin[0] in s then [lin[0]] + Keep(lin[1..], s)
    else Keep(lin[1..], s)
  }

  lemma {:induction false} KeepConcat(a: seq<nat>, b: seq<nat>, s: set<nat>)
    ensures Keep(a + b, s) == Keep(a, s) + Keep(b, s)
  {
    if a == [] {
      assert a + b == b;
    } else {
      var ab := a + b;
      assert ab[0] == a[0] && ab[1..] == a[1..] + b;
      KeepConcat(a[1..], b, s);
    }
  }

  lemma {:induction false} KeepElements(lin: seq<nat>, s: set<nat>)
    ensures Elements(Keep(lin, s)) == Elements(lin) * s
    ensures |Keep(lin, s)| <= |lin|
    ensures Distinct(lin) ==> Distinct(Keep(lin, s))
  {
    if lin != [] {
      var rest := lin[1..];
      KeepElements(rest, s);
      assert lin == [lin[0]] + rest;
      DistinctConcat([lin[0]], rest);
      DistinctConcat([lin[0]], Keep(rest, s));
    }
  }

  lemma {:induction false} KeepAll(lin: seq<nat>, s: set<nat>)
    requires Elements(lin) <= s
    ensures Keep(lin, s) == lin
  {
    if lin != [] {
      assert lin[0] in Elements(lin);
      assert Elements(lin[1..]) <= Elements(lin);
      KeepAll(lin[1..], s);
    }
  }

  lemma {:induction false} KeepNone(lin: seq<nat>, s: set<nat>)
    requires Elements(lin) !! s
    ensures Keep(lin, s) == []
  {
    if lin != [] {
      assert lin[0] in Elements(lin);
      assert Elements(lin[1..]) <= Elements(lin);
      KeepNone(lin[1..], s);
    }
  }

  lemma {:induction false} KeepKeep(lin: seq<nat>, s: set<nat>, t: set<nat>)
    ensures Keep(Keep(lin, s), t) == Keep(lin, s * t)
  {
    if lin != [] {
      KeepKeep(lin[1..], s, t);
    }
  }

  lemma {:induction false} KeepTopo(g: Graph, lin: seq<nat>, s: set<nat>)
    requires g.TopoOrdered(lin)
    ensures g.TopoOrdered(Keep(lin, s))
  {
    if lin != [] {
      var rest := lin[1..];
      KeepTopo(g, rest, s);
      KeepElements(rest, s);
      var kept := Keep(rest, s);
      if lin[0] in s {
        forall j | 0 <= j < |kept|
          ensures kept[j] !in g.Ancestors(lin[0])
        {
          assert kept[j] in Elements(kept);
          assert kept[j] in Elements(rest);
        }
      }
    }
  }

  // ----- chunks of transactions -----

  ghost function FeeParts(g: Graph, parts: seq<seq<nat>>): seq<seq<FeeFrac>> {
    seq(|parts|, i requires 0 <= i < |parts| => g.Fees(parts[i]))
  }

  /** parts cuts lin into its chunks. */
  ghost predicate TxChunks(g: Graph, parts: seq<seq<nat>>, lin: seq<nat>) {
    Flatten(parts) == lin && IsChunking(FeeParts(g, parts), g.Fees(lin))
  }

  /** infos are the sets and fees of parts. */
  ghost predicate Holds(g: Graph, infos: seq<SetInfo>, parts: seq<seq<nat>>) {
    && |infos| == |parts|
    && forall i | 0 <= i < |parts| :: infos[i] == SetInfo(Elements(parts[i]), Sum(g.Fees(parts[i])))
  }

  /** infos are the chunks of lin. */
  ghost predicate AreChunks(g: Graph, lin: seq<nat>, infos: seq<SetInfo>) {
    exists parts :: TxChunks(g, parts, lin) && Holds(g, infos, parts)
  }

  lemma {:induction false} FeesFlatten(g: Graph, parts: seq<seq<nat>>)
    ensures g.Fees(Flatten(parts)) == Flatten(FeeParts(g, parts))
  {
    if parts != [] {
      FeesFlatten(g, parts[1..]);
      g.FeesConcat(parts[0], Flatten(parts[1..]));
      assert FeeParts(g, parts)[1..] == FeeParts(g, parts[1..]);
    }
  }

  lemma {:induction false} SameCuts(g: Graph, a: seq<seq<nat>>, b: seq<seq<nat>>)
    requires Flatten(a) == Flatten(b) && FeeParts(g, a) == FeeParts(g, b)
    ensures a == b
  {
    assert |a| == |FeeParts(g, a)| == |b|;
    if a != [] {
      assert |a[0]| == |FeeParts(g, a)[0]| == |FeeParts(g, b)[0]| == |b[0]|;
      assert a[0] == Flatten(a)[..|a[0]|] == b[0];
      assert Flatten(a)[|a[0]|..] == Flatten(a[1..]);
      assert Flatten(b)[|b[0]|..] == Flatten(b[1..]);
      assert FeeParts(g, a[1..]) == FeeParts(g, a)[1..];
      assert FeeParts(g, b[1..]) == FeeParts(g, b)[1..];
      SameCuts(g, a[1..], b[1..]);
      assert a == [a[0]] + a[1..] && b == [b[0]] + b[1..];
    }
  }

  /** A linearization has one chunking only, so a structure that holds its chunks holds
      what chunking it from scratch would give. */
  lemma ChunksUnique(g: Graph, lin: seq<nat>, a: seq<SetInfo>, b: seq<SetInfo>)
    requires g.PositiveSizes() && Elements(lin) <= g.used
    requires AreChunks(g, lin, a) && AreChunks(g, lin, b)
    ensures a == b
  {
    var pa :| TxChunks(g, pa, lin) && Holds(g, a, pa);
    var pb :| TxChunks(g, pb, lin) && Holds(g, b, pb);
    g.FeesPositive(lin);
    ChunkingUnique(FeeParts(g, pa), FeeParts(g, pb), g.Fees(lin));
    SameCuts(g, pa, pb);
  }

  lemma TxChunksTail(g: Graph, parts: seq<seq<nat>>, lin: seq<nat>)
    requires TxChunks(g, parts, lin) && parts != []
    ensures |parts[0]| <= |lin| && lin == parts[0] + lin[|parts[0]|..]
    ensures TxChunks(g, parts[1..], lin[|parts[0]|..])
  {
    var fp := FeeParts(g, parts);
    ChunkingTail(fp, g.Fees(lin));
    assert fp[0] == g.Fees(parts[0]);
    assert FeeParts(g, parts[1..]) == fp[1..];
    assert g.Fees(lin)[|parts[0]|..] == g.Fees(lin[|parts[0]|..]);
  }

  // ----- moving a set to the front -----

  /** No intersection of r with a prefix of the chunks has a higher feerate than r. */
  ghost predicate NoBetterPart(g: Graph, r: set<nat>, parts: seq<seq<nat>>) {
    forall k | 0 <= k <= |parts| :: PartNotBetter(g, r, Elements(Flatten(parts[..k])))
  }

  ghost predicate PartNotBetter(g: Graph, r: set<nat>, s: set<nat>) {
    r * s == {} || !g.SetFee(r * s).Higher(g.SetFee(r))
  }

  /** r can be moved to the front of lin without lowering its diagram anywhere. */
  ghost predicate MayLead(g: Graph, r: set<nat>, parts: seq<seq<nat>>) {
    && r != {}
    && (parts != [] ==> !g.SetFee(r).Lower(Sum(g.Fees(parts[0]))))
    && NoBetterPart(g, r, parts)
  }

  /** For any feerate, the chunks above it form the highest-rising prefix. */
  lemma BestCut(c: seq<FeeFrac>, p: int, q: int) returns (k: nat)
    requires q > 0 && Positive(c) && NonIncreasing(c)
    ensures k <= |c| && Peak(c, p, q) == Sum(c[..k]).Excess(p, q)
    ensures k > 0 ==> c[0].Excess(p, q) >= 0
  {
    hide Sum, Peak, FeeFrac.Excess, FeeFrac.Higher;
    k := PeakAttained(c, p, q);
    if k > 0 && c[0].Excess(p, q) < 0 {
      NonIncreasingPeak(c, p, q);
      k := 0;
      SumStep(c[..0]);
      EmptyExcess(p, q);
    }
  }

  lemma FrontExcess(g: Graph, r: set<nat>, s: set<nat>, first: FeeFrac, p: int, q: int)
    requires g.PositiveSizes() && r <= g.used && s <= g.used && r != {} && q > 0
    requires first.size > 0 && first.Excess(p, q) >= 0 && !g.SetFee(r).Lower(first)
    requires PartNotBetter(g, r, s)
    ensures g.SetFee(r + s).Excess(p, q) >= g.SetFee(s).Excess(p, q)
  {
    hide Graph.SetFee, FeeFrac.Excess;
    g.SetFeePositive(r);
    assert !first.Higher(g.SetFee(r));
    ExcessSign(first, g.SetFee(r), p, q);
    var common := r * s;
    g.SetFeePositive(common);
    g.SetFeeSplit(r, s);
    g.SetFeePositive(r - s);
    if common == {} {
      EmptyExcess(p, q);
    } else {
      ExcessSign(g.SetFee(common), g.SetFee(r), p, q);
    }
    assert g.SetFee(r).Excess(p, q) >= g.SetFee(common).Excess(p, q);
    UnionExcess(g, r, s, p, q);
  }

  lemma UnionExcess(g: Graph, r: set<nat>, s: set<nat>, p: int, q: int)
    ensures g.SetFee(r + s).Excess(p, q) + g.SetFee(r * s).Excess(p, q)
         == g.SetFee(r).Excess(p, q) + g.SetFee(s).Excess(p, q)
  {
    hide Graph.SetFee, FeeFrac.Excess;
    g.SetFeeUnion(r - s, s);
    assert r - s + s == r + s;
    g.SetFeeSplit(r, s);
    ExcessPlus(g.SetFee(r - s), g.SetFee(s), p, q);
    ExcessPlus(g.SetFee(r * s), g.SetFee(r - s), p, q);
  }

  lemma PartsPrefix(g: Graph, parts: seq<seq<nat>>, k: nat)
    requires k <= |parts|
    ensures Sum(g.Fees(Flatten(parts[..k]))) == Sum(Sums(FeeParts(g, parts))[..k])
    ensures Flatten(parts) == Flatten(parts[..k]) + Flatten(parts[k..])
  {
    hide Flatten, Sum;
    FlattenConcat(parts[..k], parts[k..]);
    assert parts == parts[..k] + parts[k..];
    FeesFlatten(g, parts[..k]);
    assert FeeParts(g, parts[..k]) == FeeParts(g, parts)[..k];
    SumFlatten(FeeParts(g, parts[..k]));
    SumsAt(FeeParts(g, parts), k);
  }

  /** Moving a set that may lead to the front keeps the diagram nowhere below. */
  lemma MoveToFront(g: Graph, parts: seq<seq<nat>>, lin: seq<nat>, r: set<nat>, order: seq<nat>)
    requires g.PositiveSizes() && Elements(lin) <= g.used && Distinct(lin) && TxChunks(g, parts, lin)
    requires r <= Elements(lin) && MayLead(g, r, parts)
    requires Elements(order) == r && Distinct(order)
    ensures Dominates(g.Fees(order + Keep(lin, Elements(lin) - r)), g.Fees(lin))
  {
    hide Peak, MayLead, TxChunks;
    forall p: int, q: int | q > 0
      ensures Peak(g.Fees(order + Keep(lin, Elements(lin) - r)), p, q) >= Peak(g.Fees(lin), p, q)
    {
      MoveToFrontAt(g, parts, lin, r, order, p, q);
    }
  }

  lemma MoveToFrontAt(g: Graph, parts: seq<seq<nat>>, lin: seq<nat>, r: set<nat>, order: seq<nat>, p: int, q: int)
    requires g.PositiveSizes() && Elements(lin) <= g.used && Distinct(lin) && TxChunks(g, parts, lin)
    requires r <= Elements(lin) && MayLead(g, r, parts) && q > 0
    requires Elements(order) == r && Distinct(order)
    ensures Peak(g.Fees(order + Keep(lin, Elements(lin) - r)), p, q) >= Peak(g.Fees(lin), p, q)
  {
    hide Sum, Peak, Graph.SetFee, Graph.PositiveSizes, FeeFrac.Excess, FeeFrac.Higher, FeeFrac.Lower, Keep, IsChunk,
         Flatten, PartNotBetter;
    var rest := Elements(lin) - r;
    var moved := order + Keep(lin, rest);
    g.FeesPositive(lin);
    ChunkPeaks(FeeParts(g, parts), g.Fees(lin));
    var c := Sums(FeeParts(g, parts));
    var k := BestCut(c, p, q);
    PartsPrefix(g, parts, k);
    var pre := Flatten(parts[..k]);
    var s := Elements(pre);
    DistinctConcat(pre, Flatten(parts[k..]));
    g.SumIsSetFee(pre);
    assert Peak(g.Fees(lin), p, q) == g.SetFee(s).Excess(p, q);
    if k == 0 {
      SumStep(c[..0]);
      EmptyExcess(p, q);
      PeakStep(g.Fees(moved), p, q);
    } else {
      assert PartNotBetter(g, r, s);
      FrontExcess(g, r, s, c[0], p, q);
      FrontPrefix(g, pre, Flatten(parts[k..]), r, order, p, q);
    }
  }

  /** The moved list has a prefix made of r and everything in pre. */
  lemma FrontPrefix(g: Graph, pre: seq<nat>, post: seq<nat>, r: set<nat>, order: seq<nat>, p: int, q: int)
    requires Distinct(pre + post) && r <= Elements(pre + post)
    requires Elements(order) == r && Distinct(order)
    ensures Peak(g.Fees(order + Keep(pre + post, Elements(pre + post) - r)), p, q)
         >= g.SetFee(r + Elements(pre)).Excess(p, q)
  {
    hide Sum, Peak, Graph.SetFee, FeeFrac.Excess, Keep;
    var rest := Elements(pre + post) - r;
    DistinctConcat(pre, post);
    KeepConcat(pre, post, rest);
    KeepElements(pre, rest);
    var front := order + Keep(pre, rest);
    var moved := order + Keep(pre + post, rest);
    assert moved[..|front|] == front;
    DistinctConcat(order, Keep(pre, rest));
    assert Elements(front) == r + Elements(pre);
    g.SumIsSetFee(front);
    PeakPrefix(g.Fees(moved), |front|, p, q);
    assert g.Fees(moved)[..|front|] == g.Fees(front);
  }
}
