/** The search for the best set of remaining transactions (src/cluster_linearize.h): it
    renumbers the graph by decreasing feerate once and searches that copy. */
module SearchFinders {
  import opened Collections
  import opened FeeFracs
  import opened NatSets
  import opened DepGraphs
  import opened Chunkings
  import opened CandidateSearch
  import Limbs

  // ----- renumbering -----

  /** h is g renumbered by to, and back leads back. */
  ghost predicate Renumbered(g: Graph, to: seq<nat>, back: seq<nat>, h: Graph) {
    IsRemapped(g, to, h) && Undoes(g.used, to, back)
  }

  ghost predicate Undoes(s: set<nat>, to: seq<nat>, back: seq<nat>) {
    forall i | i in s :: Move(back, Move(to, i)) == i
  }

  lemma ImageAdd(mapping: seq<nat>, s: set<nat>, x: nat)
    requires x in s
    ensures Image(mapping, s) == Image(mapping, s - {x}) + {Move(mapping, x)}
  {
    assert s == s - {x} + {x};
  }

  lemma {:induction false} ImageSize(mapping: seq<nat>, s: set<nat>)
    ensures |Image(mapping, s)| <= |s|
    decreases |s|
  {
    if s != {} {
      var x :| x in s;
      ImageAdd(mapping, s, x);
      ImageSize(mapping, s - {x});
    } else {
      assert Image(mapping, s) == {};
    }
  }

  lemma BackAndForth(s: set<nat>, used: set<nat>, to: seq<nat>, back: seq<nat>)
    requires Undoes(used, to, back)
    ensures s <= used ==> Image(back, Image(to, s)) == s
    ensures s <= Image(to, used) ==> Image(to, Image(back, s)) == s && Image(back, s) <= used
  {
    if s <= used {
      forall i | i in s
        ensures i in Image(back, Image(to, s))
      {
        InImage(to, s, i);
        InImage(back, Image(to, s), Move(to, i));
      }
    }
    if s <= Image(to, used) {
      forall k | k in s
        ensures Move(to, Move(back, k)) == k && Move(back, k) in used && k in Image(to, Image(back, s))
      {
        var i :| i in used && Move(to, i) == k;
        InImage(back, s, k);
        InImage(to, Image(back, s), Move(back, k));
      }
    }
  }

  lemma {:induction false} RenumberedFee(g: Graph, to: seq<nat>, back: seq<nat>, h: Graph, s: set<nat>)
    requires Renumbered(g, to, back, h) && s <= g.used
    ensures h.SetFee(Image(to, s)) == g.SetFee(s)
    decreases |s|
  {
    hide Graph.SetFee, Graph.StoresClosure;
    if s == {} {
      g.SetFeeEmpty();
      h.SetFeeEmpty();
      assert Image(to, s) == {};
    } else {
      var x :| x in s;
      RenumberedFee(g, to, back, h, s - {x});
      ImageAdd(to, s, x);
      OutsideImage(to, back, s, x);
      g.SetFeeRemove(s, x);
      h.SetFeeAdd(Image(to, s - {x}), Move(to, x));
    }
  }

  lemma OutsideImage(to: seq<nat>, back: seq<nat>, s: set<nat>, x: nat)
    requires Undoes(s, to, back) && x in s
    ensures Move(to, x) !in Image(to, s - {x})
  {
    forall y | y in s - {x}
      ensures Move(to, y) != Move(to, x)
    {
      assert Move(back, Move(to, y)) == y;
    }
  }

  lemma RenumberedTopological(g: Graph, to: seq<nat>, back: seq<nat>, h: Graph, s: set<nat>, todo: set<nat>)
    requires g.Valid() && Renumbered(g, to, back, h) && s <= g.used && todo <= g.used
    ensures g.Topological(s, todo) <==> h.Topological(Image(to, s), Image(to, todo))
  {
    hide Graph.StoresClosure;
    if g.Topological(s, todo) {
      forall x, y | x in Image(to, s) && y in h.Ancestors(x) * Image(to, todo)
        ensures y in Image(to, s)
      {
        var i :| i in s && Move(to, i) == x;
        var t :| t in todo && Move(to, t) == y;
        ValidPosition(g, i);
        assert y in Image(to, g.Ancestors(i));
        var a :| a in g.Ancestors(i) && Move(to, a) == y;
        SameOrigin(g, to, back, i, a, t);
        InImage(to, s, a);
      }
    }
    if h.Topological(Image(to, s), Image(to, todo)) {
      BackAndForth(s, g.used, to, back);
      BackAndForth(todo, g.used, to, back);
      forall i, a | i in s && a in g.Ancestors(i) * todo
        ensures a in s
      {
        InImage(to, s, i);
        InImage(to, todo, a);
        InImage(to, g.Ancestors(i), a);
        assert Move(to, a) in Image(to, s);
        InImage(back, Image(to, s), Move(to, a));
      }
      forall i | i in s
        ensures i in todo
      {
        InImage(to, s, i);
        InImage(back, Image(to, todo), Move(to, i));
      }
    }
  }

  lemma SameOrigin(g: Graph, to: seq<nat>, back: seq<nat>, i: nat, a: nat, t: nat)
    requires Undoes(g.used, to, back) && t in g.used && Move(to, a) == Move(to, t)
    ensures a in g.used ==> a == t
  {
  }

  // ----- sorting -----

  /** Higher feerate first, smaller size among equals, then the lower position. */
  predicate BeforeByFeerate(g: Graph, a: nat, b: nat) {
    g.FeeRate(a).Better(g.FeeRate(b)) || (!g.FeeRate(b).Better(g.FeeRate(a)) && a < b)
  }

  lemma SizesAt(g: Graph, a: nat, b: nat)
    requires g.PositiveSizes() && a in g.used && b in g.used
    ensures g.FeeRate(a).size > 0 && g.FeeRate(b).size > 0
  {
  }

  lemma FeerateOrder(g: Graph, before: (nat, nat) -> bool)
    requires g.PositiveSizes() && forall a, b :: before(a, b) == BeforeByFeerate(g, a, b)
    ensures StrictTotal(before, g.used)
  {
    hide FeeFrac.Better, FeeFrac.Higher;
    forall x, y | x in g.used && y in g.used && x != y
      ensures before(x, y) != before(y, x)
    {
      BetterTransitive(g.FeeRate(x), g.FeeRate(y), g.FeeRate(x));
    }
    forall x, y, z | x in g.used && y in g.used && z in g.used && before(x, y) && before(y, z)
      ensures before(x, z)
    {
      OrderTransitive(g, x, y, z);
    }
  }

  lemma OrderTransitive(g: Graph, x: nat, y: nat, z: nat)
    requires g.FeeRate(x).size > 0 && g.FeeRate(y).size > 0 && g.FeeRate(z).size > 0
    requires BeforeByFeerate(g, x, y) && BeforeByFeerate(g, y, z)
    ensures BeforeByFeerate(g, x, z)
  {
    hide FeeFrac.Better, FeeFrac.Higher;
    BetterTransitive(g.FeeRate(x), g.FeeRate(y), g.FeeRate(z));
    BetterTransitive(g.FeeRate(z), g.FeeRate(y), g.FeeRate(x));
    BetterTransitive(g.FeeRate(x), g.FeeRate(z), g.FeeRate(y));
    BetterTransitive(g.FeeRate(y), g.FeeRate(x), g.FeeRate(z));
  }

  /** list names the used positions, highest feerate and then smallest size first, the lower
      position of two with the same fee and size, and to is its inverse. */
  ghost predicate Ordering(g: Graph, to: seq<nat>, list: seq<nat>) {
    && Elements(list) == g.used && Distinct(list) && |to| == |g.entries|
    && (forall k | 0 <= k < |list| :: list[k] < |to| && to[list[k]] == k)
    && (forall j, k | 0 <= j < k < |list| :: NotAfter(g, list[j], list[k]))
  }

  ghost predicate NotAfter(g: Graph, a: nat, b: nat) {
    !g.FeeRate(b).Better(g.FeeRate(a)) && (g.FeeRate(a) == g.FeeRate(b) ==> a < b)
  }

  lemma BeforeNotAfter(g: Graph, a: nat, b: nat)
    requires BeforeByFeerate(g, a, b) && g.FeeRate(a).size > 0 && g.FeeRate(b).size > 0
    ensures NotAfter(g, a, b)
  {
    hide FeeFrac.Better, FeeFrac.Higher;
    NotAboveItself(g.FeeRate(a));
    BetterTransitive(g.FeeRate(a), g.FeeRate(b), g.FeeRate(a));
  }

  lemma OrderingMaps(g: Graph, to: seq<nat>, list: seq<nat>)
    requires g.Valid() && Ordering(g, to, list)
    ensures IsMapping(g, to, |list|) && Undoes(g.used, to, list)
    ensures forall i | i in g.used :: Move(to, i) < |list| && list[Move(to, i)] == i
  {
    hide Graph.StoresClosure, NotAfter;
    forall i | i in g.used
      ensures Move(to, i) < |list| && list[Move(to, i)] == i
    {
      assert i in Elements(list);
      var k :| 0 <= k < |list| && list[k] == i;
    }
  }

  lemma OrderingSorted(g: Graph, to: seq<nat>, list: seq<nat>, h: Graph)
    requires g.Cluster() && Ordering(g, to, list) && IsRemapped(g, to, h)
    ensures Renumbered(g, to, list, h) && Setting(h, h.used)
  {
    hide Graph.StoresClosure, Graph.Acyclic, NotAfter, FeeFrac.Higher;
    OrderingMaps(g, to, list);
    forall x | x in h.used
      ensures h.FeeRate(x).size > 0
    {
      var i :| i in g.used && Move(to, i) == x;
    }
    forall x, y | x in h.used && y in h.used && x < y
      ensures !h.FeeRate(y).Higher(h.FeeRate(x))
    {
      var i :| i in g.used && Move(to, i) == x;
      var j :| j in g.used && Move(to, j) == y;
      assert NotAfter(g, list[x], list[y]);
      NotAfterNotLower(g, i, j);
    }
  }

  lemma NotAfterNotLower(g: Graph, a: nat, b: nat)
    requires NotAfter(g, a, b)
    ensures !g.FeeRate(b).Higher(g.FeeRate(a))
  {
    hide FeeFrac.Better, FeeFrac.Higher;
    BetterHigher(g.FeeRate(b), g.FeeRate(a));
  }

  /** The inverse of a list of positions. */
  method Inverted(g: Graph, list: seq<nat>) returns (to: seq<nat>)
    requires g.Valid() && Elements(list) == g.used && Distinct(list)
    ensures |to| == |g.entries|
    ensures forall k | 0 <= k < |list| :: list[k] < |to| && to[list[k]] == k
  {
    hide Graph.Reflexive, Graph.Inverse, Graph.Transitive;
    forall k | 0 <= k < |list|
      ensures list[k] < |g.entries|
    {
      assert list[k] in Elements(list);
    }
    to := seq(|g.entries|, _ => 0);
    var i := 0;
    while i < |list|
      invariant 0 <= i <= |list| && |to| == |g.entries|
      invariant forall k | 0 <= k < i :: to[list[k]] == k
    {
      to := to[list[i] := i];
      i := i + 1;
    }
  }

  // ----- carrying results over -----

  lemma CandidateOver(g: Graph, to: seq<nat>, back: seq<nat>, h: Graph, todo: set<nat>, info: SetInfo)
    requires g.Valid() && Renumbered(g, to, back, h) && todo <= g.used && Candidate(g, todo, info)
    ensures Candidate(h, Image(to, todo), SetInfo(Image(to, info.transactions), info.feerate))
    ensures Image(to, info.transactions) != {}
  {
    hide Graph.SetFee, Graph.StoresClosure;
    RenumberedFee(g, to, back, h, info.transactions);
    RenumberedTopological(g, to, back, h, info.transactions, todo);
    var x :| x in info.transactions;
    InImage(to, info.transactions, x);
  }

  lemma CandidateBack(g: Graph, to: seq<nat>, back: seq<nat>, h: Graph, todo: set<nat>, info: SetInfo)
    requires g.Valid() && Renumbered(g, to, back, h) && todo <= h.used && Candidate(h, todo, info)
    ensures Candidate(g, Image(back, todo), SetInfo(Image(back, info.transactions), info.feerate))
  {
    hide Graph.SetFee, Graph.StoresClosure, Graph.Topological;
    assert info.transactions <= todo by {
      CandidateInTodo(h, todo, info);
    }
    BackAndForth(todo, g.used, to, back);
    BackAndForth(info.transactions, g.used, to, back);
    RenumberedFee(g, to, back, h, Image(back, info.transactions));
    RenumberedTopological(g, to, back, h, Image(back, info.transactions), Image(back, todo));
    var x :| x in info.transactions;
    InImage(back, info.transactions, x);
  }

  lemma CandidateInTodo(g: Graph, todo: set<nat>, info: SetInfo)
    requires Candidate(g, todo, info)
    ensures info.transactions <= todo
  {
  }

  lemma OptimalBack(g: Graph, to: seq<nat>, back: seq<nat>, h: Graph, todo: set<nat>, best: FeeFrac)
    requires g.Valid() && Renumbered(g, to, back, h) && todo <= h.used && Optimal(h, todo, best)
    ensures Optimal(g, Image(back, todo), best)
  {
    hide Graph.SetFee, Graph.StoresClosure, FeeFrac.Higher;
    BackAndForth(todo, g.used, to, back);
    forall s: set<nat> | s != {} && g.Topological(s, Image(back, todo))
      ensures !g.SetFee(s).Higher(best)
    {
      RenumberedFee(g, to, back, h, s);
      RenumberedTopological(g, to, back, h, s, Image(back, todo));
      var x :| x in s;
      InImage(to, s, x);
    }
  }

  lemma ImageMinus(s: set<nat>, t: set<nat>, used: set<nat>, to: seq<nat>, back: seq<nat>)
    requires Undoes(used, to, back) && s <= Image(to, used) && t <= Image(back, s)
    ensures Image(to, t) <= s && Image(back, s - Image(to, t)) == Image(back, s) - t
    ensures t != {} ==> Image(to, t) != {}
  {
    BackAndForth(s, used, to, back);
    BackAndForth(t, used, to, back);
    forall x | x in t
      ensures Move(to, x) in s && Move(to, x) in Image(to, t)
    {
      InImage(to, Image(back, s), x);
      InImage(to, t, x);
    }
    forall x | x in Image(back, s) - t
      ensures x in Image(back, s - Image(to, t))
    {
      var k :| k in s && Move(back, k) == x;
      if k in Image(to, t) {
        InImage(back, Image(to, t), k);
      }
      InImage(back, s - Image(to, t), k);
    }
    forall k | k in s - Image(to, t)
      ensures Move(back, k) !in t
    {
      InImage(back, s, k);
      var i :| i in used && Move(to, i) == k;
      if Move(back, k) in t {
        InImage(to, t, i);
      }
    }
  }

  /** best is what a search of todo makes of best0: with the transactions renumbered by
      feerate, a run of it from best0 ends with best. */
  ghost predicate Finds(g: Graph, todo: set<nat>, maxIterations: nat, best0: SetInfo, best: SetInfo, iterations: nat) {
    exists to, list, h, turns, run :: FindsBy(g, todo, maxIterations, best0, best, iterations, to, list, h, turns, run)
  }

  ghost predicate FindsBy(g: Graph, todo: set<nat>, maxIterations: nat, best0: SetInfo, best: SetInfo, iterations: nat,
                          to: seq<nat>, list: seq<nat>, h: Graph, turns: seq<Turn>, run: seq<Standing>)
  {
    && Ordering(g, to, list) && IsRemapped(g, to, h)
    && best.transactions <= g.used && best0.transactions <= g.used && todo <= g.used
    && Searched(h, Image(to, todo), maxIterations, SetInfo(Image(to, best0.transactions), best0.feerate), turns, run,
                SetInfo(Image(to, best.transactions), best.feerate), iterations)
  }

  class SearchCandidateFinder {
    ghost const g: Graph
    /** The original position of each transaction of the sorted graph, and back. */
    const sortedToOriginal: seq<nat>
    const originalToSorted: seq<nat>
    const sortedDepgraph: Graph
    /** Which transactions are left, as positions of the sorted graph. */
    var todo: set<nat>

    /** What is left, as positions of the original graph. */
    ghost function Remaining(): set<nat>
      reads this
    {
      Image(sortedToOriginal, todo)
    }

    ghost predicate Consistent() {
      && g.Valid() && Renumbered(g, originalToSorted, sortedToOriginal, sortedDepgraph)
      && Ordering(g, originalToSorted, sortedToOriginal)
    }

    ghost predicate Valid()
      reads this
    {
      Consistent() && Setting(sortedDepgraph, todo)
    }

    constructor (g: Graph)
      requires g.Cluster()
      ensures Valid() && this.g == g && Remaining() == g.used
    {
      hide Graph.StoresClosure, Graph.Acyclic, Graph.PositiveSizes, BeforeByFeerate, Renumbered, SortedByFeerate,
           IsRemapped, NotAfter;
      var before := (a: nat, b: nat) => BeforeByFeerate(g, a, b);
      FeerateOrder(g, before);
      var list := SortSet(g.used, before);
      var to := Inverted(g, list);
      forall j, k | 0 <= j < k < |list|
        ensures NotAfter(g, list[j], list[k])
      {
        assert before(list[j], list[k]) && list[j] in Elements(list) && list[k] in Elements(list);
        SizesAt(g, list[j], list[k]);
        BeforeNotAfter(g, list[j], list[k]);
      }
      assert Ordering(g, to, list);
      OrderingMaps(g, to, list);
      var depgraph := new DepGraph.Remapped(g, to, |list|);
      OrderingSorted(g, to, list, depgraph.View());
      WholeImage(g, to, list, depgraph.View());
      this.g := g;
      sortedToOriginal, originalToSorted := list, to;
      sortedDepgraph := depgraph.View();
      todo := depgraph.View().used;
    }

    /** The best topological subset of what is left that the search meets within its
        iterations; if it needs fewer, there is none of a higher feerate. It needs fewer
        than there are subsets. */
    method FindCandidateSet(maxIterations: nat, best: SetInfo) returns (r: SetInfo, iterations: nat)
      requires Valid() && todo != {}
      requires best == SetInfo({}, EMPTY) || Candidate(g, Remaining(), best)
      ensures Candidate(g, Remaining(), r)
      ensures best != SetInfo({}, EMPTY) ==> NotWorse(r.feerate, best.feerate)
      ensures iterations <= maxIterations && iterations < Limbs.Pow2(|Remaining()|)
      ensures iterations < maxIterations ==> Optimal(g, Remaining(), r.feerate)
      ensures Finds(g, Remaining(), maxIterations, best, r, iterations)
    {
      hide Graph.StoresClosure, Graph.PositiveSizes, Renumbered, Setting, Candidate, Optimal, NotWorse, Searched,
           Ordering;
      TodoIsImage();
      BestUsed(best);
      var sortedBest := MapSet(originalToSorted, best.transactions);
      if best != SetInfo({}, EMPTY) {
        CandidateOver(g, originalToSorted, sortedToOriginal, sortedDepgraph, Remaining(), best);
      } else {
        assert sortedBest == {};
      }
      ImageSize(originalToSorted, Remaining());
      Limbs.Pow2Monotone(|todo|, |Remaining()|);
      var found, done, turns, run := Search(sortedDepgraph, todo, maxIterations, SetInfo(sortedBest, best.feerate));
      var transactions := MapSet(sortedToOriginal, found.transactions);
      r, iterations := SetInfo(transactions, found.feerate), done;
      CandidateBack(g, originalToSorted, sortedToOriginal, sortedDepgraph, todo, found);
      CandidateInTodo(sortedDepgraph, todo, found);
      FoundIsImage(best, found, maxIterations, iterations, turns, run);
      if iterations < maxIterations {
        OptimalBack(g, originalToSorted, sortedToOriginal, sortedDepgraph, todo, found.feerate);
      }
    }

    lemma FoundIsImage(best: SetInfo, found: SetInfo, maxIterations: nat, iterations: nat, turns: seq<Turn>,
                       run: seq<Standing>)
      requires Valid() && found.transactions <= todo && best.transactions <= g.used
      requires Searched(sortedDepgraph, todo, maxIterations,
                        SetInfo(Image(originalToSorted, best.transactions), best.feerate), turns, run, found,
                        iterations)
      ensures Finds(g, Remaining(), maxIterations, best,
                    SetInfo(Image(sortedToOriginal, found.transactions), found.feerate), iterations)
    {
      hide Graph.StoresClosure, Graph.PositiveSizes, SortedByFeerate, Searched, Ordering, Image, IsRemapped;
      TodoIsImage();
      FoundUsed(found.transactions);
      var r := SetInfo(Image(sortedToOriginal, found.transactions), found.feerate);
      assert SetInfo(Image(originalToSorted, r.transactions), r.feerate) == found;
      assert FindsBy(g, Remaining(), maxIterations, best, r, iterations, originalToSorted, sortedToOriginal,
                     sortedDepgraph, turns, run);
    }

    lemma BestUsed(best: SetInfo)
      requires Valid() && (best == SetInfo({}, EMPTY) || Candidate(g, Remaining(), best))
      ensures best.transactions <= g.used
    {
      hide Graph.StoresClosure, Graph.PositiveSizes, SortedByFeerate, Ordering, Image;
      TodoIsImage();
      if best != SetInfo({}, EMPTY) {
        CandidateInTodo(g, Remaining(), best);
      }
    }

    lemma FoundUsed(s: set<nat>)
      requires Valid() && s <= todo
      ensures Image(sortedToOriginal, s) <= g.used && Image(originalToSorted, Image(sortedToOriginal, s)) == s
    {
      hide Graph.StoresClosure, Graph.PositiveSizes, SortedByFeerate, Ordering;
      BackAndForth(s, g.used, originalToSorted, sortedToOriginal);
    }

    lemma TodoIsImage()
      requires Valid()
      ensures Image(originalToSorted, Remaining()) == todo && Remaining() <= g.used && todo <= sortedDepgraph.used
    {
      hide Graph.StoresClosure, Graph.PositiveSizes, SortedByFeerate;
      BackAndForth(todo, g.used, originalToSorted, sortedToOriginal);
    }

    method MarkDone(done: set<nat>)
      requires Valid() && done != {} && done <= Remaining()
      modifies this`todo
      ensures Valid() && Remaining() == old(Remaining()) - done
    {
      hide Graph.StoresClosure, Graph.PositiveSizes, SortedByFeerate, Image;
      var doneSorted := MapSet(originalToSorted, done);
      ImageMinus(todo, done, g.used, originalToSorted, sortedToOriginal);
      assert doneSorted <= todo && doneSorted != {};
      todo := todo - doneSorted;
    }
  }

  lemma WholeImage(g: Graph, to: seq<nat>, back: seq<nat>, h: Graph)
    requires Renumbered(g, to, back, h)
    ensures Image(back, h.used) == g.used
  {
    BackAndForth(g.used, g.used, to, back);
  }
}
