/** The chunking of what remains of a linearization while sets of transactions are
    marked done (src/cluster_linearize.h). */
module LinearizationChunkings {
  import opened Collections
  import opened FeeFracs
  import opened Diagrams
  import opened NatSets
  import opened DepGraphs
  import opened Chunkings

  /** parts are the finished chunks of a prefix of a list, cur the chunk still growing. */
  ghost predicate TxStack(g: Graph, parts: seq<seq<nat>>, cur: seq<nat>, lin: seq<nat>) {
    Stack(FeeParts(g, parts), g.Fees(cur), g.Fees(lin)) && Flatten(parts) + cur == lin
  }

  lemma TxStart(g: Graph, parts: seq<seq<nat>>, lin: seq<nat>, idx: nat)
    requires TxChunks(g, parts, lin)
    ensures TxStack(g, parts, [idx], lin + [idx])
    ensures Elements([idx]) == {idx} && Sum(g.Fees([idx])) == g.FeeRate(idx)
  {
    hide IsChunk, Sum, NonIncreasing;
    StackStart(FeeParts(g, parts), g.Fees(lin), g.FeeRate(idx));
    assert g.Fees([idx]) == [g.FeeRate(idx)];
    assert g.Fees(lin + [idx]) == g.Fees(lin) + [g.FeeRate(idx)];
  }

  lemma TxAbsorb(g: Graph, parts: seq<seq<nat>>, cur: seq<nat>, lin: seq<nat>)
    requires Positive(g.Fees(lin)) && TxStack(g, parts, cur, lin) && parts != []
    requires var n := |parts| - 1; Sum(g.Fees(cur)).Higher(Sum(g.Fees(parts[n])))
    ensures var n := |parts| - 1;
            && TxStack(g, parts[..n], parts[n] + cur, lin)
            && Sum(g.Fees(parts[n] + cur)) == Sum(g.Fees(parts[n])).Plus(Sum(g.Fees(cur)))
            && Elements(parts[n] + cur) == Elements(parts[n]) + Elements(cur)
  {
    hide IsChunk, Sum, NonIncreasing, FeeFrac.Higher, FeeFrac.Plus;
    var n := |parts| - 1;
    var fp := FeeParts(g, parts);
    StackAbsorb(fp, g.Fees(cur), g.Fees(lin));
    assert fp[n] == g.Fees(parts[n]);
    assert fp[..n] == FeeParts(g, parts[..n]);
    g.FeesConcat(parts[n], cur);
    FlattenSnoc(parts);
    assert Flatten(parts[..n]) + (parts[n] + cur) == lin;
  }

  lemma TxPush(g: Graph, parts: seq<seq<nat>>, cur: seq<nat>, lin: seq<nat>)
    requires TxStack(g, parts, cur, lin)
    requires parts != [] ==> !Sum(g.Fees(cur)).Higher(Sum(g.Fees(parts[|parts| - 1])))
    ensures TxChunks(g, parts + [cur], lin)
  {
    hide IsChunk, Sum, NonIncreasing, FeeFrac.Higher;
    var fp := FeeParts(g, parts);
    assert parts != [] ==> fp[|fp| - 1] == g.Fees(parts[|parts| - 1]);
    StackPush(fp, g.Fees(cur), g.Fees(lin));
    assert FeeParts(g, parts + [cur]) == fp + [g.Fees(cur)];
    FlattenConcat(parts, [cur]);
    FlattenOne(cur);
  }

  lemma NoChunks(g: Graph)
    ensures TxChunks(g, [], []) && Holds(g, [], [])
  {
    EmptyChunking();
    assert FeeParts(g, []) == [] && g.Fees([]) == [];
  }

  lemma DropFinished(lin: seq<nat>, todo: set<nat>)
    requires lin != [] && lin[0] !in todo && todo <= Elements(lin) && Distinct(lin)
    ensures Keep(lin[1..], todo) == Keep(lin, todo)
    ensures todo <= Elements(lin[1..]) <= Elements(lin) && Distinct(lin[1..])
  {
    assert lin == [lin[0]] + lin[1..];
    DistinctConcat([lin[0]], lin[1..]);
  }

  lemma KeepNext(lin: seq<nat>, k: nat, todo: set<nat>)
    requires k < |lin|
    ensures lin[k] in todo ==> Keep(lin[..k + 1], todo) == Keep(lin[..k], todo) + [lin[k]]
    ensures lin[k] !in todo ==> Keep(lin[..k + 1], todo) == Keep(lin[..k], todo)
  {
    assert lin[..k + 1] == lin[..k] + [lin[k]];
    KeepConcat(lin[..k], [lin[k]], todo);
    assert [lin[k]][1..] == [];
  }

  lemma KeptPositive(g: Graph, lin: seq<nat>, k: nat, todo: set<nat>)
    requires g.PositiveSizes() && Elements(lin) <= g.used && k <= |lin|
    ensures Positive(g.Fees(Keep(lin[..k], todo)))
  {
    KeepElements(lin[..k], todo);
    assert Elements(lin[..k]) <= Elements(lin);
    g.FeesPositive(Keep(lin[..k], todo));
  }

  lemma HasChunks(g: Graph, lin: seq<nat>, todo: set<nat>, parts: seq<seq<nat>>)
    requires TxChunks(g, parts, Keep(lin, todo)) && todo <= Elements(lin) && todo != {}
    ensures parts != []
  {
    KeepElements(lin, todo);
    var x :| x in todo;
    assert x in Elements(Keep(lin, todo));
  }

  /** Skipping the first chunk leaves the chunks of what remains; the list may lose as
      many leading entries as the chunk has transactions. */
  lemma SkipFirst(g: Graph, lin: seq<nat>, todo: set<nat>, parts: seq<seq<nat>>, subset: set<nat>)
    requires TxChunks(g, parts, Keep(lin, todo)) && parts != []
    requires Distinct(lin) && todo <= Elements(lin) && Elements(parts[0]) == subset
    ensures |subset| <= |lin|
    ensures Keep(lin[|subset|..], todo - subset) == Keep(lin, todo - subset)
    ensures TxChunks(g, parts[1..], Keep(lin, todo - subset))
    ensures todo - subset <= Elements(lin[|subset|..])
  {
    hide IsChunking, Keep, Flatten;
    var kept, first := Keep(lin, todo), parts[0];
    TxChunksTail(g, parts, kept);
    KeepElements(lin, todo);
    var tail := kept[|first|..];
    assert kept == first + tail;
    DistinctConcat(first, tail);
    DistinctLength(first);
    KeepConcat(first, tail, todo - subset);
    KeepNone(first, todo - subset);
    KeepAll(tail, todo - subset);
    KeepKeep(lin, todo, todo - subset);
    assert todo * (todo - subset) == todo - subset;
    assert Keep(lin, todo - subset) == tail;
    DropDone(lin, todo, first, tail);
  }

  /** A list may lose as many leading entries as its first kept ones number, once those
      are no longer kept. */
  lemma DropDone(lin: seq<nat>, todo: set<nat>, first: seq<nat>, tail: seq<nat>)
    requires Keep(lin, todo) == first + tail && todo <= Elements(lin)
    ensures |first| <= |lin|
    ensures var rest := todo - Elements(first);
            Keep(lin[|first|..], rest) == Keep(lin, rest) && rest <= Elements(lin[|first|..])
  {
    hide Keep;
    KeepElements(lin, todo);
    var n, rest := |first|, todo - Elements(first);
    var head, after := lin[..n], lin[n..];
    assert lin == head + after;
    DistinctConcat(head, after);
    KeepConcat(head, after, todo);
    KeepElements(head, todo);
    KeptIsFirst(Keep(head, todo), Keep(after, todo), first, tail);
    KeepConcat(head, after, rest);
    KeepNone(head, rest);
  }

  lemma KeptIsFirst(a: seq<nat>, b: seq<nat>, first: seq<nat>, tail: seq<nat>)
    requires a + b == first + tail && |a| <= |first|
    ensures Elements(a) <= Elements(first)
  {
    assert a == (a + b)[..|a|] == first[..|a|];
  }

  // ----- intersections with prefixes of the chunks -----

  ghost function PrefixSet(parts: seq<seq<nat>>, k: nat): set<nat>
    requires k <= |parts|
  {
    Elements(Flatten(parts[..k]))
  }

  /** Up to the first i chunks, every non-empty intersection of s with a prefix of the
      chunks has a lower feerate than s. */
  ghost predicate LowerPart(g: Graph, s: set<nat>, parts: seq<seq<nat>>, i: nat) {
    i <= |parts| && forall k | 0 <= k <= i ::
      s * PrefixSet(parts, k) == {} || g.SetFee(s * PrefixSet(parts, k)).Lower(g.SetFee(s))
  }

  /** r is the intersection of s with the shortest prefix of the chunks whose intersection
      with it is not empty and not lower than s. */
  ghost predicate ShortestPart(g: Graph, s: set<nat>, parts: seq<seq<nat>>, r: set<nat>) {
    exists k :: 0 < k <= |parts| && r == s * PrefixSet(parts, k) && r != {}
                && !g.SetFee(r).Lower(g.SetFee(s)) && LowerPart(g, s, parts, k - 1)
  }

  lemma PrefixStart(g: Graph, s: set<nat>, parts: seq<seq<nat>>)
    ensures s * PrefixSet(parts, 0) == {} && g.SetFee({}) == EMPTY
    ensures LowerPart(g, s, parts, 0)
  {
    g.SetFeeEmpty();
    assert PrefixSet(parts, 0) == {};
  }

  lemma PrefixNext(g: Graph, s: set<nat>, parts: seq<seq<nat>>, i: nat)
    requires i < |parts|
    ensures PrefixSet(parts, i + 1) == PrefixSet(parts, i) + Elements(parts[i])
  {
    var pre := parts[..i + 1];
    FlattenSnoc(pre);
    assert pre[..i] == parts[..i] && pre[i] == parts[i];
    DistinctConcat(Flatten(parts[..i]), parts[i]);
  }

  lemma ChunkDisjoint(g: Graph, lin: seq<nat>, todo: set<nat>, parts: seq<seq<nat>>, i: nat)
    requires i < |parts| && TxChunks(g, parts, Keep(lin, todo)) && Distinct(lin)
    ensures PrefixSet(parts, i) !! Elements(parts[i])
  {
    KeepElements(lin, todo);
    PartsPrefix(g, parts, i + 1);
    FlattenSnoc(parts[..i + 1]);
    assert parts[..i + 1][..i] == parts[..i];
    DistinctConcat(Flatten(parts[..i + 1]), Flatten(parts[i + 1..]));
    DistinctConcat(Flatten(parts[..i]), parts[i]);
  }

  lemma {:induction false} PrefixMonotone(g: Graph, parts: seq<seq<nat>>, i: nat, k: nat)
    requires i <= k <= |parts|
    ensures PrefixSet(parts, i) <= PrefixSet(parts, k)
    decreases k - i
  {
    if i < k {
      PrefixNext(g, {}, parts, i);
      PrefixMonotone(g, parts, i + 1, k);
    }
  }

  lemma ShorterIsGood(g: Graph, s: set<nat>, parts: seq<seq<nat>>, i: nat)
    requires g.PositiveSizes() && s <= g.used && 0 < i <= |parts| && LowerPart(g, s, parts, i - 1)
    requires s * PrefixSet(parts, i) != {}
    requires !g.SetFee(s * PrefixSet(parts, i)).Lower(g.SetFee(s))
    ensures NoBetterPart(g, s * PrefixSet(parts, i), parts)
  {
    hide Graph.SetFee, Graph.PositiveSizes, FeeFrac.Higher, FeeFrac.Lower, PrefixSet, Flatten;
    var r := s * PrefixSet(parts, i);
    forall k | 0 <= k <= |parts|
      ensures PartNotBetter(g, r, PrefixSet(parts, k))
    {
      if k < i {
        PrefixMonotone(g, parts, k, i);
        assert r * PrefixSet(parts, k) == s * PrefixSet(parts, k);
        BelowIsNotBetter(g, r * PrefixSet(parts, k), s, r);
      } else {
        PrefixMonotone(g, parts, i, k);
        assert r * PrefixSet(parts, k) == r;
        NotHigherThanItself(g.SetFee(r));
      }
    }
    NoBetterFromParts(g, r, parts);
  }

  lemma NoBetterFromParts(g: Graph, r: set<nat>, parts: seq<seq<nat>>)
    requires forall k | 0 <= k <= |parts| :: PartNotBetter(g, r, PrefixSet(parts, k))
    ensures NoBetterPart(g, r, parts)
  {
    forall k | 0 <= k <= |parts|
      ensures PartNotBetter(g, r, Elements(Flatten(parts[..k])))
    {
      assert PartNotBetter(g, r, PrefixSet(parts, k));
    }
  }

  lemma NotHigherThanItself(f: FeeFrac)
    ensures !f.Higher(f) && !f.Lower(f)
  {
  }

  /** A part lower than s is not higher than anything not lower than s. */
  lemma BelowIsNotBetter(g: Graph, part: set<nat>, s: set<nat>, r: set<nat>)
    requires g.PositiveSizes() && part <= g.used && s <= g.used && r <= g.used
    requires r != {} && s != {}
    requires part == {} || g.SetFee(part).Lower(g.SetFee(s))
    requires !g.SetFee(r).Lower(g.SetFee(s))
    ensures part == {} || !g.SetFee(part).Higher(g.SetFee(r))
  {
    hide Graph.SetFee;
    if part != {} {
      g.SetFeePositive(part);
      g.SetFeePositive(s);
      g.SetFeePositive(r);
      FeerateTransitive(g.SetFee(r), g.SetFee(s), g.SetFee(part));
    }
  }

  lemma WholeIsGood(g: Graph, s: set<nat>, parts: seq<seq<nat>>, i: nat)
    requires g.PositiveSizes() && s <= g.used && 0 < i <= |parts|
    requires s != {} ==> LowerPart(g, s, parts, i - 1)
    requires s == s * PrefixSet(parts, i)
    ensures NoBetterPart(g, s, parts)
  {
    hide Graph.SetFee, Graph.PositiveSizes, FeeFrac.Higher, FeeFrac.Lower, PrefixSet, Flatten;
    NotHigherThanItself(g.SetFee(s));
    if s == {} {
      NoBetterFromParts(g, s, parts);
    } else {
      ShorterIsGood(g, s, parts, i);
    }
  }

  lemma PrefixLower(g: Graph, s: set<nat>, parts: seq<seq<nat>>, i: nat)
    requires 0 < i <= |parts| && (s != {} ==> LowerPart(g, s, parts, i - 1))
    requires g.SetFee(s * PrefixSet(parts, i)).Lower(g.SetFee(s))
    ensures s != {} ==> LowerPart(g, s, parts, i)
  {
    hide Graph.SetFee, FeeFrac.Lower, PrefixSet;
  }

  lemma PrefixSame(g: Graph, s: set<nat>, parts: seq<seq<nat>>, i: nat)
    requires 0 < i <= |parts| && (s != {} ==> LowerPart(g, s, parts, i - 1))
    requires Elements(parts[i - 1]) * s == {}
    ensures s * PrefixSet(parts, i) == s * PrefixSet(parts, i - 1)
    ensures s != {} ==> LowerPart(g, s, parts, i)
  {
    hide Graph.SetFee, FeeFrac.Lower, PrefixSet;
    PrefixNext(g, s, parts, i - 1);
    assert s * PrefixSet(parts, i) == s * PrefixSet(parts, i - 1);
  }

  /** Once all chunks are passed with lower intersections only, s is empty. */
  lemma NothingLeft(g: Graph, lin: seq<nat>, todo: set<nat>, parts: seq<seq<nat>>, s: set<nat>)
    requires todo <= Elements(lin) && TxChunks(g, parts, Keep(lin, todo)) && s <= todo
    requires s != {} ==> LowerPart(g, s, parts, |parts|)
    ensures s == {} && NoBetterPart(g, s, parts)
    ensures g.SetFee(s) == EMPTY
  {
    hide Graph.SetFee, IsChunking;
    KeepElements(lin, todo);
    assert parts[..|parts|] == parts;
    assert PrefixSet(parts, |parts|) == todo;
    assert s * todo == s;
    NotHigherThanItself(g.SetFee(s));
    g.SetFeeEmpty();
    NoBetterFromParts(g, {}, parts);
  }

  lemma ShorterTopological(g: Graph, lin: seq<nat>, todo: set<nat>, parts: seq<seq<nat>>, s: set<nat>, i: nat)
    requires TxChunks(g, parts, Keep(lin, todo)) && todo <= Elements(lin) && Distinct(lin) && i <= |parts|
    ensures g.TopoOrdered(Keep(lin, todo)) && g.Topological(s, todo) ==> g.Topological(s * PrefixSet(parts, i), todo)
  {
    hide IsChunking;
    if g.TopoOrdered(Keep(lin, todo)) && g.Topological(s, todo) {
      KeepElements(lin, todo);
      var pre := Flatten(parts[..i]);
      PartsPrefix(g, parts, i);
      assert Keep(lin, todo)[..|pre|] == pre;
      g.PrefixTopological(Keep(lin, todo), |pre|, todo);
      g.TopologicalMeet(s, PrefixSet(parts, i), todo);
    }
  }

  class LinearizationChunking {
    const g: Graph
    /** The linearization started from, possibly without a finished prefix. */
    var linearization: seq<nat>
    /** Chunks of what remains, after chunksSkip finished ones. */
    var chunks: seq<SetInfo>
    var chunksSkip: nat
    /** Which transactions remain. */
    var todo: set<nat>
    ghost var parts: seq<seq<nat>>

    /** What remains of the linearization. */
    ghost function Remaining(): seq<nat>
      reads this
    {
      Keep(linearization, todo)
    }

    ghost predicate Base()
      reads this
    {
      && g.PositiveSizes()
      && Elements(linearization) <= g.used && Distinct(linearization)
      && todo <= Elements(linearization)
    }

    ghost predicate Chunked()
      reads this
    {
      && chunksSkip <= |chunks|
      && Holds(g, chunks[chunksSkip..], parts)
      && TxChunks(g, parts, Remaining())
    }

    ghost predicate Valid()
      reads this
    {
      Base() && Chunked()
    }

    constructor (g: Graph, lin: seq<nat>)
      requires g.PositiveSizes() && Elements(lin) <= g.used && Distinct(lin)
      ensures Valid() && this.g == g
      ensures todo == Elements(lin) && Remaining() == lin
    {
      hide Graph.PositiveSizes, Chunked, Keep;
      this.g := g;
      linearization := lin;
      chunks, chunksSkip := [], 0;
      todo := {};
      parts := [];
      new;
      var i := 0;
      while i < |lin|
        invariant i <= |lin| && todo == Elements(lin[..i])
        invariant linearization == lin && chunks == [] && chunksSkip == 0
      {
        assert lin[..i + 1] == lin[..i] + [lin[i]];
        todo := todo + {lin[i]};
        i := i + 1;
      }
      assert lin[..i] == lin;
      KeepAll(lin, todo);
      BuildChunks();
    }

    /** Fills chunks from what remains, dropping the finished prefix of the list. */
    method BuildChunks()
      requires Base() && chunks == [] && chunksSkip == 0
      modifies this
      ensures Valid() && todo == old(todo) && Remaining() == old(Remaining())
      ensures chunksSkip == 0
    {
      hide Graph.PositiveSizes, TxChunks, TxStack, Sum, FeeFrac.Higher, FeeFrac.Plus;
      while linearization != [] && linearization[0] !in todo
        invariant Base() && chunks == [] && chunksSkip == 0
        invariant todo == old(todo) && Remaining() == old(Remaining())
        decreases |linearization|
      {
        DropFinished(linearization, todo);
        linearization := linearization[1..];
      }
      parts := [];
      NoChunks(g);
      assert linearization[..0] == [];
      ghost var lin := linearization;
      var k := 0;
      while k < |linearization|
        invariant Base() && linearization == lin && todo == old(todo) && chunksSkip == 0 && k <= |lin|
        invariant Holds(g, chunks, parts)
        invariant TxChunks(g, parts, Keep(lin[..k], todo))
      {
        var idx := linearization[k];
        KeepNext(lin, k, todo);
        k := k + 1;
        if idx !in todo {
          continue;
        }
        var add := SetInfo({idx}, g.FeeRate(idx));
        ghost var cur := [idx];
        ghost var kept := Keep(lin[..k], todo);
        KeptPositive(g, lin, k, todo);
        TxStart(g, parts, Keep(lin[..k - 1], todo), idx);
        while chunks != [] && add.feerate.Higher(chunks[|chunks| - 1].feerate)
          invariant Base() && linearization == lin && todo == old(todo) && chunksSkip == 0
          invariant Holds(g, chunks, parts)
          invariant TxStack(g, parts, cur, kept)
          invariant add == SetInfo(Elements(cur), Sum(g.Fees(cur)))
          decreases |chunks|
        {
          TxAbsorb(g, parts, cur, kept);
          var n := |chunks| - 1;
          add := SetInfo(chunks[n].transactions + add.transactions, chunks[n].feerate.Plus(add.feerate));
          cur, parts := parts[n] + cur, parts[..n];
          chunks := chunks[..n];
        }
        TxPush(g, parts, cur, kept);
        parts := parts + [cur];
        chunks := chunks + [add];
      }
      assert lin[..k] == lin;
      assert chunks[0..] == chunks;
    }

    function NumChunksLeft(): nat
      requires chunksSkip <= |chunks|
      reads this
    {
      |chunks| - chunksSkip
    }

    function GetChunk(n: nat): SetInfo
      requires n + chunksSkip < |chunks|
      reads this
    {
      chunks[n + chunksSkip]
    }

    /** Takes subset out. What remains keeps its order, and the chunks are again those of
        a fresh chunking of what remains. */
    method MarkDone(subset: set<nat>)
      requires Valid() && subset != {} && subset <= todo
      modifies this
      ensures Valid()
      ensures todo == old(todo) - subset
      ensures Remaining() == Keep(old(Remaining()), old(todo) - subset)
      ensures AreChunks(g, Remaining(), chunks[chunksSkip..])
    {
      hide Graph.PositiveSizes, TxChunks, Sum, Keep;
      ghost var was := Remaining();
      ghost var before := todo;
      HasChunks(g, linearization, todo, parts);
      todo := todo - subset;
      KeepKeep(linearization, before, todo);
      assert before * todo == todo;
      assert Remaining() == Keep(was, todo);
      if GetChunk(0).transactions == subset {
        chunksSkip := chunksSkip + 1;
        SkipFirst(g, linearization, before, parts, subset);
        parts := parts[1..];
        linearization := linearization[|subset|..];
      } else {
        chunks := [];
        chunksSkip := 0;
        BuildChunks();
      }
      assert TxChunks(g, parts, Remaining()) && Holds(g, chunks[chunksSkip..], parts);
    }

    /** The shortest intersection of subset with a prefix of the remaining chunks whose
        feerate is not below subset's. */
    method IntersectPrefixes(subset: SetInfo) returns (r: SetInfo)
      requires Valid() && InfoOk(g, subset) && subset.transactions <= todo
      ensures InfoOk(g, r) && r.transactions <= subset.transactions
      ensures subset.transactions != {} ==> r.transactions != {}
      ensures !r.feerate.Lower(subset.feerate)
      ensures if subset.transactions == {} then r == subset
              else ShortestPart(g, subset.transactions, parts, r.transactions)
      ensures NoBetterPart(g, r.transactions, parts)
      ensures g.TopoOrdered(Remaining()) && g.Topological(subset.transactions, todo) ==>
                g.Topological(r.transactions, todo)
    {
      hide Graph.PositiveSizes, TxChunks, Sum, Keep, Flatten, FeeFrac.Lower, FeeFrac.Plus, Graph.SetFee, NoBetterPart,
           LowerPart, PrefixSet, Graph.TopoOrdered, Graph.Topological;
      var acc := SetInfo({}, EMPTY);
      ghost var all := chunks[chunksSkip..];
      PrefixStart(g, subset.transactions, parts);
      NotHigherThanItself(subset.feerate);
      var i := 0;
      while i < NumChunksLeft()
        invariant 0 <= i <= NumChunksLeft()
        invariant acc.transactions == subset.transactions * PrefixSet(parts, i) && InfoOk(g, acc)
        invariant subset.transactions != {} ==> LowerPart(g, subset.transactions, parts, i)
      {
        assert GetChunk(i) == all[i];
        var toAdd := GetChunk(i).transactions * subset.transactions;
        PrefixNext(g, subset.transactions, parts, i);
        i := i + 1;
        if toAdd != {} {
          ChunkDisjoint(g, linearization, todo, parts, i - 1);
          var was := acc.transactions;
          acc := acc.(transactions := acc.transactions + toAdd);
          assert acc.transactions == subset.transactions * PrefixSet(parts, i);
          if acc.transactions == subset.transactions {
            WholeIsGood(g, subset.transactions, parts, i);
            return subset;
          }
          var addRate := SumFeeRates(g, toAdd);
          g.SetFeeUnion(was, toAdd);
          acc := acc.(feerate := acc.feerate.Plus(addRate));
          if !acc.feerate.Lower(subset.feerate) {
            ShorterIsGood(g, subset.transactions, parts, i);
            ShorterTopological(g, linearization, todo, parts, subset.transactions, i);
            return acc;
          }
          PrefixLower(g, subset.transactions, parts, i);
        } else {
          PrefixSame(g, subset.transactions, parts, i);
        }
      }
      NothingLeft(g, linearization, todo, parts, subset.transactions);
      r := subset;
    }
  }
}
