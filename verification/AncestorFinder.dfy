/** The best remaining ancestor set (src/cluster_linearize.h). */
module AncestorFinders {
  import opened Collections
  import opened FeeFracs
  import opened NatSets
  import opened DepGraphs
  import opened Chunkings
  import opened CandidateSearch

  /** The remaining ancestors of each of s have the stored fees. */
  ghost predicate Stored(g: Graph, todo: set<nat>, s: set<nat>, feerates: seq<FeeFrac>) {
    |feerates| == |g.entries| && forall i | i in s :: i < |feerates| && feerates[i] == g.SetFee(g.Ancestors(i) * todo)
  }

  /** The remaining ancestors of the first of those transactions no other one's beat. */
  ghost predicate BestAncestors(g: Graph, todo: set<nat>, s: set<nat>) {
    exists b :: b in todo && s == g.Ancestors(b) * todo && FirstBest(g, todo, b)
  }

  ghost predicate FirstBest(g: Graph, todo: set<nat>, b: nat) {
    && (forall i | i in todo :: !g.SetFee(g.Ancestors(i) * todo).Better(g.SetFee(g.Ancestors(b) * todo)))
    && (forall i | i in todo && i < b :: g.SetFee(g.Ancestors(b) * todo).Better(g.SetFee(g.Ancestors(i) * todo)))
  }

  lemma MinusPlus(a: FeeFrac, b: FeeFrac)
    ensures a.Plus(b).Minus(a) == b
    ensures a.Plus(b) == b.Plus(a)
  {
  }

  lemma WithoutOne(g: Graph, j: nat, todo: set<nat>, rest: set<nat>, i: nat)
    requires i in rest && todo !! rest
    ensures i in g.Ancestors(j) ==>
              g.SetFee(g.Ancestors(j) * (todo + rest)).Minus(g.FeeRate(i)) ==
                  g.SetFee(g.Ancestors(j) * (todo + (rest - {i})))
    ensures i !in g.Ancestors(j) ==> g.Ancestors(j) * (todo + rest) == g.Ancestors(j) * (todo + (rest - {i}))
  {
    hide Graph.SetFee;
    var all, fewer := g.Ancestors(j) * (todo + rest), g.Ancestors(j) * (todo + (rest - {i}));
    if i in g.Ancestors(j) {
      assert all - {i} == fewer;
      g.SetFeeRemove(all, i);
      MinusPlus(g.FeeRate(i), g.SetFee(fewer));
    } else {
      assert all == fewer;
    }
  }

  /** Takes f off the entries of targets. */
  method Subtract(feerates: seq<FeeFrac>, targets: set<nat>, f: FeeFrac) returns (r: seq<FeeFrac>)
    requires forall j | j in targets :: j < |feerates|
    ensures |r| == |feerates|
    ensures forall j | 0 <= j < |r| :: r[j] == if j in targets then feerates[j].Minus(f) else feerates[j]
  {
    r := feerates;
    var rest := targets;
    while rest != {}
      invariant rest <= targets && |r| == |feerates|
      invariant forall j | 0 <= j < |r| ::
                  r[j] == if j in targets && j !in rest then feerates[j].Minus(f) else feerates[j]
      decreases |rest|
    {
      var j := First(rest);
      r := r[j := r[j].Minus(f)];
      rest := rest - {j};
    }
  }

  class AncestorCandidateFinder {
    const g: Graph
    /** Which transactions are left. */
    var todo: set<nat>
    /** For each of them, the fee of its remaining ancestors. */
    var ancestorSetFeerates: seq<FeeFrac>

    ghost predicate Valid()
      reads this
    {
      g.Valid() && g.PositiveSizes() && todo <= g.used && Stored(g, todo, todo, ancestorSetFeerates)
    }

    constructor (g: Graph)
      requires g.Cluster()
      ensures Valid() && this.g == g && todo == g.used
    {
      hide Graph.StoresClosure, Graph.Acyclic, Graph.SetFee, Graph.PositiveSizes;
      this.g := g;
      todo := g.used;
      ancestorSetFeerates := seq(|g.entries|, _ => EMPTY);
      new;
      var rest := g.used;
      while rest != {}
        invariant todo == g.used && rest <= todo
        invariant forall i, j | i in g.used && i !in rest && j in rest :: i < j
        invariant Stored(g, todo, g.used - rest, ancestorSetFeerates)
        decreases |rest|
      {
        var i := First(rest);
        var ancToAdd := g.Ancestors(i);
        ValidPosition(g, i);
        var ancFeerate := EMPTY;
        var first := First(ancToAdd);
        FirstAncestor(g, i, first);
        if first < i {
          ancFeerate := ancestorSetFeerates[first];
          ancToAdd := ancToAdd - g.Ancestors(first);
        }
        assert i in ancToAdd;
        var rate := SumFeeRates(g, ancToAdd);
        ReusesFirst(g, i, first);
        ancestorSetFeerates := ancestorSetFeerates[i := ancFeerate.Plus(rate)];
        rest := rest - {i};
      }
    }

    method MarkDone(select: set<nat>)
      requires Valid() && select != {} && select <= todo
      modifies this
      ensures Valid() && todo == old(todo) - select
    {
      hide Graph.StoresClosure, Graph.Acyclic, Graph.SetFee, Graph.PositiveSizes, FeeFrac.Minus;
      todo := todo - select;
      var rest := select;
      assert todo + rest == old(todo);
      while rest != {}
        invariant todo == old(todo) - select && rest <= select
        invariant Stored(g, todo + rest, todo, ancestorSetFeerates)
        decreases |rest|
      {
        var i := First(rest);
        forall j | j in todo
          ensures j in g.Descendants(i) <==> i in g.Ancestors(j)
        {
          Mutual(g, i, j);
          WithoutOne(g, j, todo, rest, i);
        }
        ancestorSetFeerates := Subtract(ancestorSetFeerates, g.Descendants(i) * todo, g.FeeRate(i));
        forall j | j in todo
          ensures ancestorSetFeerates[j] == g.SetFee(g.Ancestors(j) * (todo + (rest - {i})))
        {
          WithoutOne(g, j, todo, rest, i);
        }
        rest := rest - {i};
      }
      assert todo + rest == todo;
    }

    predicate AllDone()
      reads this
    {
      todo == {}
    }

    /** The remaining ancestor set of the highest feerate, the smallest one of those, and
        the first of those of one size. */
    method FindCandidateSet() returns (r: SetInfo)
      requires Valid() && !AllDone()
      ensures Candidate(g, todo, r)
      ensures BestAncestors(g, todo, r.transactions)
      ensures forall i | i in todo :: !g.SetFee(g.Ancestors(i) * todo).Better(r.feerate)
    {
      hide Graph.StoresClosure, Graph.Acyclic, Graph.SetFee, FeeFrac.Better;
      var best := First(todo);
      var rest := todo - {best};
      SetsHaveSize(g, todo);
      NotBetterItself(ancestorSetFeerates[best]);
      while rest != {}
        invariant rest <= todo && best in todo
        invariant forall i, j | i in todo && i !in rest && j in rest :: i < j
        invariant best !in rest
        invariant forall i | i in todo && i !in rest :: !ancestorSetFeerates[i].Better(ancestorSetFeerates[best])
        invariant forall i | i in todo && i < best :: ancestorSetFeerates[best].Better(ancestorSetFeerates[i])
        decreases |rest|
      {
        var i := First(rest);
        NotBetterItself(ancestorSetFeerates[i]);
        if ancestorSetFeerates[i].Better(ancestorSetFeerates[best]) {
          forall j | j in todo && j !in rest
            ensures !ancestorSetFeerates[j].Better(ancestorSetFeerates[i])
            ensures ancestorSetFeerates[i].Better(ancestorSetFeerates[j])
          {
            BetterTransitive(ancestorSetFeerates[i], ancestorSetFeerates[best], ancestorSetFeerates[j]);
            BetterTransitive(ancestorSetFeerates[i], ancestorSetFeerates[j], ancestorSetFeerates[best]);
          }
          best := i;
        }
        rest := rest - {i};
      }
      AncestorsTopological(g, todo, best);
      assert FirstBest(g, todo, best);
      r := SetInfo(g.Ancestors(best) * todo, ancestorSetFeerates[best]);
    }
  }

  lemma NotBetterItself(f: FeeFrac)
    ensures !f.Better(f)
  {
  }

  lemma SetsHaveSize(g: Graph, todo: set<nat>)
    requires g.Valid() && g.PositiveSizes() && todo <= g.used
    ensures forall i | i in todo :: g.SetFee(g.Ancestors(i) * todo).size > 0
  {
    hide Graph.StoresClosure, Graph.SetFee, Graph.PositiveSizes;
    forall i | i in todo
      ensures g.SetFee(g.Ancestors(i) * todo).size > 0
    {
      AncestorsTopological(g, todo, i);
      SizeOf(g, g.Ancestors(i) * todo);
    }
  }

  lemma Mutual(g: Graph, i: nat, j: nat)
    requires g.Valid() && i in g.used && j in g.used
    ensures j in g.Descendants(i) <==> i in g.Ancestors(j)
  {
  }

  /** The first ancestor of i brings all of its own along, and not i. */
  lemma FirstAncestor(g: Graph, i: nat, first: nat)
    requires g.Valid() && g.Acyclic() && i in g.used && first in g.Ancestors(i)
    ensures first in g.used && g.Ancestors(first) <= g.Ancestors(i) <= g.used
    ensures first != i ==> i !in g.Ancestors(first)
    ensures i < |g.entries|
  {
  }

  lemma ReusesFirst(g: Graph, i: nat, first: nat)
    requires g.Ancestors(first) <= g.Ancestors(i) <= g.used
    ensures g.Ancestors(i) * g.used == g.Ancestors(i) && g.Ancestors(first) * g.used == g.Ancestors(first)
    ensures g.SetFee(g.Ancestors(first)).Plus(g.SetFee(g.Ancestors(i) - g.Ancestors(first))) == g.SetFee(g.Ancestors(i))
    ensures EMPTY.Plus(g.SetFee(g.Ancestors(i))) == g.SetFee(g.Ancestors(i))
  {
    hide Graph.SetFee;
    var rest := g.Ancestors(i) - g.Ancestors(first);
    g.SetFeeUnion(g.Ancestors(first), rest);
    assert g.Ancestors(first) + rest == g.Ancestors(i);
    assert g.Ancestors(i) * g.used == g.Ancestors(i);
  }
}
