/** Merging two linearizations of one cluster (src/cluster_linearize.h), and what every
    round of such an algorithm keeps. */
module Merging {
  import opened Collections
  import opened FeeFracs
  import opened Diagrams
  import opened NatSets
  import opened DepGraphs
  import opened Chunkings
  import opened LinearizationChunkings

  /** Emitting out and then the rest rem linearizes the whole cluster, with a diagram
      nowhere below that of lin. */
  ghost predicate Progress(g: Graph, out: seq<nat>, rem: seq<nat>, lin: seq<nat>) {
    g.IsLinearization(out + rem, g.used) && Dominates(g.Fees(out + rem), g.Fees(lin))
  }

  lemma TopoConcat(g: Graph, a: seq<nat>, b: seq<nat>)
    ensures g.TopoOrdered(a + b) <==>
            g.TopoOrdered(a) && g.TopoOrdered(b) && forall x, y | x in a && y in b :: y !in g.Ancestors(x)
  {
    var ab := a + b;
    assert forall i | 0 <= i < |a| :: ab[i] == a[i];
    assert forall i | 0 <= i < |b| :: ab[|a| + i] == b[i];
    if g.TopoOrdered(ab) {
      forall x, y | x in a && y in b
        ensures y !in g.Ancestors(x)
      {
        var i :| 0 <= i < |a| && a[i] == x;
        var j :| 0 <= j < |b| && b[j] == y;
        assert ab[|a| + j] !in g.Ancestors(ab[i]);
      }
    }
    if g.TopoOrdered(a) && g.TopoOrdered(b) && forall x, y | x in a && y in b :: y !in g.Ancestors(x) {
      forall i, j | 0 <= i < j < |ab|
        ensures ab[j] !in g.Ancestors(ab[i])
      {
        if j < |a| {
          assert a[j] !in g.Ancestors(a[i]);
        } else if i >= |a| {
          assert b[j - |a|] !in g.Ancestors(b[i - |a|]);
        } else {
          assert ab[i] in a && ab[j] in b;
        }
      }
    }
  }

  /** Moving a topological part of the rest to its front keeps the order valid. */
  lemma StepTopo(g: Graph, out: seq<nat>, rem: seq<nat>, r: set<nat>, order: seq<nat>)
    requires g.IsLinearization(out + rem, g.used)
    requires g.Topological(r, Elements(rem)) && g.IsLinearization(order, r)
    ensures g.IsLinearization(out + order + Keep(rem, Elements(rem) - r), g.used)
  {
    hide Keep;
    var rest := Keep(rem, Elements(rem) - r);
    DistinctConcat(out, rem);
    TopoConcat(g, out, rem);
    KeepElements(rem, Elements(rem) - r);
    KeepTopo(g, rem, Elements(rem) - r);
    DistinctConcat(out, order);
    TopoConcat(g, out, order);
    DistinctConcat(out + order, rest);
    forall x, y | x in out + order && y in rest
      ensures y !in g.Ancestors(x)
    {
      assert y in Elements(rest);
      if x in order {
        assert x in Elements(order);
      }
    }
    forall x, y | x in out && y in order
      ensures y !in g.Ancestors(x)
    {
      assert y in Elements(order);
    }
    TopoConcat(g, out + order, rest);
  }

  lemma SameSum(g: Graph, a: seq<nat>, b: seq<nat>)
    requires Distinct(a) && Distinct(b) && Elements(a) == Elements(b)
    ensures Sum(g.Fees(a)) == Sum(g.Fees(b))
  {
    g.SumIsSetFee(a);
    g.SumIsSetFee(b);
  }

  lemma DominatesTransitive(a: seq<FeeFrac>, b: seq<FeeFrac>, c: seq<FeeFrac>)
    requires Dominates(a, b) && Dominates(b, c)
    ensures Dominates(a, c)
  {
    hide Peak;
    forall p: int, q: int | q > 0
      ensures Peak(a, p, q) >= Peak(c, p, q)
    {
      assert Peak(a, p, q) >= Peak(b, p, q) >= Peak(c, p, q);
    }
  }

  /** Changing only what follows out, for the better, is for the better overall. */
  lemma DominatesAfter(g: Graph, out: seq<nat>, a: seq<nat>, b: seq<nat>, lin: seq<nat>)
    requires Distinct(a) && Distinct(b) && Elements(a) == Elements(b)
    requires Dominates(g.Fees(a), g.Fees(b)) && Dominates(g.Fees(out + b), g.Fees(lin))
    ensures Dominates(g.Fees(out + a), g.Fees(lin))
  {
    hide Sum, Peak, Distinct, Elements, Graph.Fees;
    SameSum(g, a, b);
    DominatesInContext(g.Fees(out), g.Fees(a), g.Fees(b), []);
    g.FeesConcat(out, a);
    g.FeesConcat(out, b);
    assert g.Fees(out) + g.Fees(a) + [] == g.Fees(out + a);
    assert g.Fees(out) + g.Fees(b) + [] == g.Fees(out + b);
    DominatesTransitive(g.Fees(out + a), g.Fees(out + b), g.Fees(lin));
  }

  /** One round: emit next a set that may lead what remains. */
  lemma StepProgress(g: Graph, out: seq<nat>, rem: seq<nat>, lin: seq<nat>, parts: seq<seq<nat>>, r: set<nat>,
                     order: seq<nat>)
    requires g.Cluster() && Progress(g, out, rem, lin) && TxChunks(g, parts, rem)
    requires MayLead(g, r, parts) && g.Topological(r, Elements(rem)) && g.IsLinearization(order, r)
    ensures Progress(g, out + order, Keep(rem, Elements(rem) - r), lin)
  {
    hide Keep, Dominates, MayLead, TxChunks, Sum, Graph.Fees, Graph.StoresClosure, Graph.Acyclic, Graph.PositiveSizes,
         Graph.TopoOrdered, Distinct, Elements;
    var rest := Keep(rem, Elements(rem) - r);
    DistinctConcat(out, rem);
    StepTopo(g, out, rem, r, order);
    MoveToFront(g, parts, rem, r, order);
    KeepElements(rem, Elements(rem) - r);
    DistinctConcat(order, rest);
    DominatesAfter(g, out, order + rest, rem, lin);
    assert out + (order + rest) == out + order + rest;
  }

  lemma StartProgress(g: Graph, lin: seq<nat>)
    requires g.IsLinearization(lin, g.used)
    ensures Progress(g, [], lin, lin)
  {
    assert [] + lin == lin;
  }

  lemma EndProgress(g: Graph, out: seq<nat>, lin: seq<nat>)
    requires Progress(g, out, [], lin)
    ensures g.IsLinearization(out, g.used) && Dominates(g.Fees(out), g.Fees(lin))
  {
    assert out + [] == out;
  }

  lemma RestOf(g: Graph, out: seq<nat>, rem: seq<nat>)
    requires g.IsLinearization(out + rem, g.used)
    ensures g.IsLinearization(rem, Elements(rem)) && Elements(rem) <= g.used && Distinct(out)
    ensures Elements(rem) == g.used - Elements(out)
  {
    DistinctConcat(out, rem);
    TopoConcat(g, out, rem);
  }

  /** The first chunk of what remains: non-empty, topological, and what its entry says. */
  lemma FirstChunk(g: Graph, rem: seq<nat>, parts: seq<seq<nat>>, infos: seq<SetInfo>)
    requires TxChunks(g, parts, rem) && Holds(g, infos, parts) && rem != []
    requires g.IsLinearization(rem, Elements(rem))
    ensures parts != [] && infos[0] == SetInfo(Elements(parts[0]), Sum(g.Fees(parts[0])))
    ensures InfoOk(g, infos[0]) && infos[0].transactions != {}
    ensures g.Topological(infos[0].transactions, Elements(rem))
  {
    hide Sum;
    assert parts != [];
    assert IsChunk(FeeParts(g, parts)[0]);
    assert parts[0] != [];
    assert parts[0][0] in Elements(parts[0]);
    TxChunksTail(g, parts, rem);
    DistinctConcat(parts[0], rem[|parts[0]|..]);
    g.SumIsSetFee(parts[0]);
    assert rem[..|parts[0]|] == parts[0];
    g.PrefixTopological(rem, |parts[0]|, Elements(rem));
  }

  lemma NoneLeft(g: Graph, rem: seq<nat>, parts: seq<seq<nat>>)
    requires TxChunks(g, parts, rem)
    ensures parts == [] <==> rem == []
  {
    if parts != [] {
      assert IsChunk(FeeParts(g, parts)[0]);
      assert parts[0] != [];
    }
  }

  /** A part of the first chunk with no lower feerate may lead. */
  lemma PartOfFirstMayLead(g: Graph, rem: seq<nat>, parts: seq<seq<nat>>, r: set<nat>)
    requires TxChunks(g, parts, rem) && parts != []
    requires r != {} && r <= Elements(parts[0]) && !g.SetFee(r).Lower(Sum(g.Fees(parts[0])))
    ensures MayLead(g, r, parts)
  {
    hide Sum, Graph.SetFee, FeeFrac.Higher, FeeFrac.Lower, Flatten;
    NotHigherThanItself(g.SetFee(r));
    forall k | 0 <= k <= |parts|
      ensures PartNotBetter(g, r, PrefixSet(parts, k))
    {
      if k == 0 {
        PrefixStart(g, r, parts);
      } else {
        PrefixNext(g, r, parts, 0);
        PrefixMonotone(g, parts, 1, k);
        assert r * PrefixSet(parts, k) == r;
      }
    }
    NoBetterFromParts(g, r, parts);
  }

  /** A set intersected against the chunks and no lower than the first one may lead. */
  lemma IntersectedMayLead(g: Graph, parts: seq<seq<nat>>, r: set<nat>, best: FeeFrac)
    requires g.PositiveSizes() && r != {} && r <= g.used && NoBetterPart(g, r, parts)
    requires best.size > 0 && !g.SetFee(r).Lower(best)
    requires parts != [] ==> Sum(g.Fees(parts[0])).size > 0 && !best.Lower(Sum(g.Fees(parts[0])))
    ensures MayLead(g, r, parts)
  {
    hide Sum, Graph.SetFee, NoBetterPart;
    g.SetFeePositive(r);
    if parts != [] {
      FeerateTransitive(g.SetFee(r), best, Sum(g.Fees(parts[0])));
    }
  }

  lemma HigherOrLower(a: FeeFrac, b: FeeFrac)
    ensures b.Higher(a) ==> !b.Lower(a)
    ensures !b.Higher(a) ==> !a.Lower(b)
  {
  }

  lemma NothingKept(lin: seq<nat>)
    ensures Keep(lin, {}) == []
  {
    KeepNone(lin, {});
  }

  lemma ChunkInfoPositive(g: Graph, info: SetInfo)
    requires g.PositiveSizes() && InfoOk(g, info) && info.transactions != {} && info.transactions <= g.used
    ensures info.feerate.size > 0
  {
    g.SetFeePositive(info.transactions);
  }

  /** While anything remains there is a first chunk to take. */
  lemma Unfinished(g: Graph, c: LinearizationChunking, out: seq<nat>)
    requires c.Valid() && c.g == g && c.todo != {}
    requires g.IsLinearization(out + c.Remaining(), g.used)
    ensures c.NumChunksLeft() > 0 && c.parts != []
    ensures Elements(c.Remaining()) == c.todo && c.todo <= g.used
    ensures g.IsLinearization(c.Remaining(), c.todo)
    ensures var first := c.GetChunk(0);
            && first == SetInfo(Elements(c.parts[0]), Sum(g.Fees(c.parts[0])))
            && InfoOk(g, first) && first.transactions != {} && first.feerate.size > 0
            && g.Topological(first.transactions, c.todo)
  {
    hide Sum, Keep, Graph.SetFee, IsChunking;
    KeepElements(c.linearization, c.todo);
    RestOf(g, out, c.Remaining());
    var x :| x in c.todo;
    assert x in Elements(c.Remaining());
    FirstChunk(g, c.Remaining(), c.parts, c.chunks[c.chunksSkip..]);
    ChunkInfoPositive(g, c.GetChunk(0));
  }

  lemma Finished(g: Graph, c: LinearizationChunking)
    requires c.Valid() && c.g == g
    ensures c.NumChunksLeft() == 0 <==> c.todo == {}
  {
    hide Sum, Keep, Graph.SetFee, IsChunking;
    KeepElements(c.linearization, c.todo);
    NoneLeft(g, c.Remaining(), c.parts);
    EmptyList(c.Remaining());
  }

  /** The first chunk of one linearization, when not below that of the other and
      intersected with the other's chunks, may lead both. */
  lemma LeadsBoth(g: Graph, rem: seq<nat>, parts: seq<seq<nat>>, others: seq<seq<nat>>, r: SetInfo, first: SetInfo,
                  other: SetInfo)
    requires g.PositiveSizes() && TxChunks(g, parts, rem) && parts != [] && others != []
    requires first == SetInfo(Elements(parts[0]), Sum(g.Fees(parts[0]))) && first.feerate.size > 0
    requires other.feerate == Sum(g.Fees(others[0])) && other.feerate.size > 0
    requires InfoOk(g, r) && r.transactions != {} && r.transactions <= first.transactions <= g.used
    requires !r.feerate.Lower(first.feerate) && !first.feerate.Lower(other.feerate)
    requires NoBetterPart(g, r.transactions, others)
    ensures MayLead(g, r.transactions, parts) && MayLead(g, r.transactions, others)
  {
    hide Sum, Graph.SetFee, NoBetterPart, TxChunks, MayLead;
    PartOfFirstMayLead(g, rem, parts, r.transactions);
    IntersectedMayLead(g, others, r.transactions, first.feerate);
  }

  /** Merges two linearizations into one whose diagram is nowhere below either. */
  method MergeLinearizations(g: Graph, lin1: seq<nat>, lin2: seq<nat>) returns (ret: seq<nat>)
    requires g.Cluster()
    requires g.IsLinearization(lin1, g.used) && g.IsLinearization(lin2, g.used)
    ensures g.IsLinearization(ret, g.used)
    ensures Dominates(g.Fees(ret), g.Fees(lin1)) && Dominates(g.Fees(ret), g.Fees(lin2))
  {
    hide Graph.StoresClosure, Graph.PositiveSizes, Dominates, TxChunks, Keep, Sum, Graph.SetFee, Graph.TopoOrdered,
         MayLead, NoBetterPart, FeeFrac.Higher, FeeFrac.Lower, Distinct, Elements, Graph.Fees, Graph.Acyclic;
    var chunking1 := new LinearizationChunking(g, lin1);
    var chunking2 := new LinearizationChunking(g, lin2);
    ret := [];
    StartProgress(g, lin1);
    StartProgress(g, lin2);
    if g.used == {} {
      EmptyList(lin1);
      EmptyList(lin2);
      EndProgress(g, ret, lin1);
      EndProgress(g, ret, lin2);
      return;
    }
    while true
      invariant fresh(chunking1) && fresh(chunking2) && chunking1 != chunking2
      invariant chunking1.Valid() && chunking2.Valid() && chunking1.g == chunking2.g == g
      invariant chunking1.todo == chunking2.todo != {}
      invariant Progress(g, ret, chunking1.Remaining(), lin1)
      invariant Progress(g, ret, chunking2.Remaining(), lin2)
      decreases |chunking1.todo|
    {
      ghost var rem1, rem2 := chunking1.Remaining(), chunking2.Remaining();
      ghost var parts1, parts2 := chunking1.parts, chunking2.parts;
      ghost var todo := chunking1.todo;
      Unfinished(g, chunking1, ret);
      Unfinished(g, chunking2, ret);
      var best: SetInfo;
      var first1, first2 := chunking1.GetChunk(0), chunking2.GetChunk(0);
      HigherOrLower(first1.feerate, first2.feerate);
      if first2.feerate.Higher(first1.feerate) {
        best := chunking1.IntersectPrefixes(first2);
        LeadsBoth(g, rem2, parts2, parts1, best, first2, first1);
      } else {
        best := chunking2.IntersectPrefixes(first1);
        LeadsBoth(g, rem1, parts1, parts2, best, first1, first2);
      }
      var next := AppendTopo(g, ret, best.transactions);
      ghost var order := next[|ret|..];
      assert next == ret + order;
      StepProgress(g, ret, rem1, lin1, parts1, best.transactions, order);
      StepProgress(g, ret, rem2, lin2, parts2, best.transactions, order);
      ret := next;
      chunking1.MarkDone(best.transactions);
      Finished(g, chunking1);
      if chunking1.NumChunksLeft() == 0 {
        NothingKept(rem1);
        NothingKept(rem2);
        EndProgress(g, ret, lin1);
        EndProgress(g, ret, lin2);
        break;
      }
      chunking2.MarkDone(best.transactions);
    }
  }
}
