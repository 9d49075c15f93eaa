/** Improving a linearization in place makes it optimal where every transaction has at most
    one child, or every one at most one parent (src/cluster_linearize.h). */
module PostLinearizationTrees {
  import opened Collections
  import opened FeeFracs
  import opened Diagrams
  import opened NatSets
  import opened DepGraphs
  import opened Chunkings
  import opened Merging
  import opened PostLinearization

  // ----- shapes -----

  /** c spends p directly: nothing lies between them. */
  ghost predicate IsChild(g: Graph, p: nat, c: nat) {
    && p in g.Ancestors(c) && p != c
    && forall y | y in g.Ancestors(c) && p in g.Ancestors(y) :: y == p || y == c
  }

  ghost predicate OneChildEach(g: Graph) {
    forall p, c, d | c in g.used && d in g.used && IsChild(g, p, c) && IsChild(g, p, d) :: c == d
  }

  ghost predicate OneParentEach(g: Graph) {
    forall p, q, c | c in g.used && IsChild(g, p, c) && IsChild(g, q, c) :: p == q
  }

  /** As the pass sees it, of two transactions that need the same one, one needs the other. */
  ghost predicate Chainlike(g: Graph, rev: bool) {
    forall x, a, b | a in g.used && b in g.used && x in Deps(g, rev, a) && x in Deps(g, rev, b) ::
      a in Deps(g, rev, b) || b in Deps(g, rev, a)
  }

  lemma {:induction false} ChildTowards(g: Graph, x: nat, a: nat) returns (c: nat)
    requires g.Valid() && g.Acyclic() && a in g.used && x in g.Ancestors(a) && x != a
    ensures c in g.used && IsChild(g, x, c) && c in g.Ancestors(a)
    decreases |g.Ancestors(a)|
  {
    if IsChild(g, x, a) {
      c := a;
    } else {
      var y :| y in g.Ancestors(a) && x in g.Ancestors(y) && y != x && y != a;
      FewerAncestors(g, y, a);
      c := ChildTowards(g, x, y);
    }
  }

  lemma {:induction false} ParentTowards(g: Graph, x: nat, a: nat) returns (p: nat)
    requires g.Valid() && g.Acyclic() && x in g.used && a in g.Ancestors(x) && x != a
    ensures p in g.used && IsChild(g, p, x) && a in g.Ancestors(p)
    decreases |g.Descendants(a)|
  {
    if IsChild(g, a, x) {
      p := a;
    } else {
      var y :| y in g.Ancestors(x) && a in g.Ancestors(y) && y != a && y != x;
      FewerDescendants(g, a, y);
      p := ParentTowards(g, x, y);
    }
  }

  lemma FewerDescendants(g: Graph, x: nat, c: nat)
    requires g.Valid() && g.Acyclic() && c in g.used && x in g.Ancestors(c) && x != c
    ensures x in g.used && |g.Descendants(c)| < |g.Descendants(x)|
  {
    assert g.Descendants(c) < g.Descendants(x);
    SmallerSet(g.Descendants(c), g.Descendants(x));
  }

  lemma {:induction false} ChildChain(g: Graph, x: nat, a: nat, b: nat)
    requires g.Valid() && g.Acyclic() && OneChildEach(g) && a in g.used && b in g.used
    requires x in g.Ancestors(a) && x in g.Ancestors(b)
    ensures a in g.Ancestors(b) || b in g.Ancestors(a)
    decreases |g.Descendants(x)|
  {
    if x != a && x != b {
      var c := ChildTowards(g, x, a);
      var d := ChildTowards(g, x, b);
      FewerDescendants(g, x, c);
      ChildChain(g, c, a, b);
    }
  }

  lemma {:induction false} ParentChain(g: Graph, x: nat, a: nat, b: nat)
    requires g.Valid() && g.Acyclic() && OneParentEach(g) && x in g.used
    requires a in g.Ancestors(x) && b in g.Ancestors(x)
    ensures a in g.Ancestors(b) || b in g.Ancestors(a)
    decreases |g.Ancestors(x)|
  {
    if x != a && x != b {
      var p := ParentTowards(g, x, a);
      var q := ParentTowards(g, x, b);
      FewerAncestors(g, p, x);
      ParentChain(g, p, a, b);
    }
  }

  lemma TreesAreChainlike(g: Graph)
    requires g.Cluster()
    ensures OneChildEach(g) ==> Chainlike(g, false)
    ensures OneParentEach(g) ==> Chainlike(g, true)
  {
    hide Graph.StoresClosure, Graph.Acyclic, Graph.PositiveSizes, IsChild;
    forall x, a, b | OneChildEach(g) && a in g.used && b in g.used && x in g.Ancestors(a) && x in g.Ancestors(b)
      ensures a in g.Ancestors(b) || b in g.Ancestors(a)
    {
      ChildChain(g, x, a, b);
    }
    forall x, a, b | OneParentEach(g) && a in g.used && b in g.used && x in g.Descendants(a) && x in g.Descendants(b)
      ensures a in g.Descendants(b) || b in g.Descendants(a)
    {
      DescentIsInverse(g, a, x);
      DescentIsInverse(g, b, x);
      ParentChain(g, x, a, b);
      DescentIsInverse(g, a, b);
      DescentIsInverse(g, b, a);
    }
  }

  lemma DescentIsInverse(g: Graph, a: nat, x: nat)
    requires g.Valid() && a in g.used
    ensures x in g.Descendants(a) ==> x in g.used
    ensures x in g.used ==> (x in g.Descendants(a) <==> a in g.Ancestors(x))
  {
  }

  lemma DepsTransitive(g: Graph, rev: bool, a: nat, b: nat, c: nat)
    requires g.Valid() && a in Deps(g, rev, b) && b in Deps(g, rev, c) && c in g.used
    ensures a in Deps(g, rev, c)
  {
  }

  lemma DepsItself(g: Graph, rev: bool, a: nat)
    requires g.Valid() && a in g.used
    ensures a in Deps(g, rev, a)
  {
  }

  // ----- the rates of sets -----

  ghost function RateOf(g: Graph, rev: bool, s: set<nat>): FeeFrac {
    if rev then g.SetFee(s).Negated() else g.SetFee(s)
  }

  lemma RateOfEmpty(g: Graph, rev: bool)
    ensures RateOf(g, rev, {}) == EMPTY
  {
    g.SetFeeEmpty();
  }

  lemma RateOfUnion(g: Graph, rev: bool, a: set<nat>, b: set<nat>)
    requires a !! b
    ensures RateOf(g, rev, a + b) == RateOf(g, rev, a).Plus(RateOf(g, rev, b))
  {
    hide Graph.SetFee;
    g.SetFeeUnion(a, b);
  }

  lemma RateOfList(g: Graph, rev: bool, s: seq<nat>)
    requires Distinct(s)
    ensures Sum(Rates(g, rev, s)) == RateOf(g, rev, Elements(s))
  {
    hide Sum, Rates, Graph.SetFee, Distinct;
    SumOfRates(g, rev, s);
    g.SumIsSetFee(s);
  }

  lemma RateOfSize(g: Graph, rev: bool, s: set<nat>)
    requires g.PositiveSizes() && s <= g.used
    ensures RateOf(g, rev, s).size >= 0 && (s != {} ==> RateOf(g, rev, s).size > 0)
  {
    g.SetFeePositive(s);
  }

  lemma RateOfPart(g: Graph, rev: bool, t: set<nat>, s: set<nat>)
    requires g.PositiveSizes() && t <= s <= g.used
    ensures RateOf(g, rev, t).size <= RateOf(g, rev, s).size
  {
    hide Graph.SetFee;
    RateOfUnion(g, rev, t, s - t);
    RateOfSize(g, rev, s - t);
    assert t + (s - t) == s;
  }

  /** Two disjoint sets not above f are not above it together. */
  lemma UnionNotAbove(g: Graph, rev: bool, a: set<nat>, b: set<nat>, f: FeeFrac)
    requires a !! b
    requires a == {} || !RateOf(g, rev, a).Higher(f)
    requires b == {} || !RateOf(g, rev, b).Higher(f)
    ensures !RateOf(g, rev, a + b).Higher(f)
  {
    hide RateOf, FeeFrac.Higher, FeeFrac.Excess;
    RateOfUnion(g, rev, a, b);
    RateOfEmpty(g, rev);
    EmptyExcess(f.fee, f.size);
    HigherIsExcess(f, RateOf(g, rev, a));
    HigherIsExcess(f, RateOf(g, rev, b));
    HigherIsExcess(f, RateOf(g, rev, a + b));
    ExcessPlus(RateOf(g, rev, a), RateOf(g, rev, b), f.fee, f.size);
  }

  // ----- groups that cannot be split -----

  /** Nothing of s that t needs is missing from t. */
  ghost predicate ClosedIn(g: Graph, rev: bool, t: set<nat>, s: set<nat>) {
    forall x, d | x in t && d in s && d in Deps(g, rev, x) :: d in t
  }

  /** No part of s that could go first is above the whole. */
  ghost predicate Whole(g: Graph, rev: bool, s: set<nat>) {
    forall t: set<nat> | t <= s && t != {} && ClosedIn(g, rev, t, s) :: !RateOf(g, rev, t).Higher(RateOf(g, rev, s))
  }

  /** r needs all of s. */
  ghost predicate RootOf(g: Graph, rev: bool, s: set<nat>, r: nat) {
    r in s && forall x | x in s :: x in Deps(g, rev, r)
  }

  /** No part of s that could go first without r is above f. */
  ghost predicate RestBelow(g: Graph, rev: bool, s: set<nat>, r: nat, f: FeeFrac) {
    forall t: set<nat> | t <= s && t != {} && r !in t && ClosedIn(g, rev, t, s) :: !RateOf(g, rev, t).Higher(f)
  }

  lemma JoinedPart(g: Graph, rev: bool, p: set<nat>, c: set<nat>, r: nat, t: set<nat>)
    requires p !! c && Whole(g, rev, p) && RestBelow(g, rev, c, r, RateOf(g, rev, p))
    requires t <= p + c && r !in t && ClosedIn(g, rev, t, p + c)
    ensures !RateOf(g, rev, t).Higher(RateOf(g, rev, p))
  {
    hide RateOf, Deps, FeeFrac.Higher;
    var a, b := t * p, t * c;
    assert ClosedIn(g, rev, a, p) && ClosedIn(g, rev, b, c);
    assert a + b == t;
    UnionNotAbove(g, rev, a, b, RateOf(g, rev, p));
  }

  /** A group that takes in one it depends on is whole again, and all of it but its root is
      no higher than what it took in. */
  lemma JoinedWhole(g: Graph, rev: bool, p: set<nat>, c: set<nat>, r: nat)
    requires g.PositiveSizes() && p + c <= g.used && p !! c && p != {} && r in c
    requires Whole(g, rev, p) && RestBelow(g, rev, c, r, RateOf(g, rev, p)) && RootOf(g, rev, p + c, r)
    requires RateOf(g, rev, c).Higher(RateOf(g, rev, p))
    ensures Whole(g, rev, p + c) && RestBelow(g, rev, p + c, r, RateOf(g, rev, p))
  {
    hide RateOf, Deps, FeeFrac.Higher, Graph.PositiveSizes;
    var all, f, f2 := p + c, RateOf(g, rev, p), RateOf(g, rev, p + c);
    RateOfUnion(g, rev, p, c);
    PlusHigher(f, RateOf(g, rev, c));
    RateOfSize(g, rev, p);
    RateOfSize(g, rev, all);
    forall t: set<nat> | t <= all && t != {} && r !in t && ClosedIn(g, rev, t, all)
      ensures !RateOf(g, rev, t).Higher(f) && !RateOf(g, rev, t).Higher(f2)
    {
      JoinedPart(g, rev, p, c, r, t);
      RateOfSize(g, rev, t);
      FeerateTransitive(f2, f, RateOf(g, rev, t));
      NotBothHigher(RateOf(g, rev, t), f2);
    }
    forall t: set<nat> | t <= all && r in t && ClosedIn(g, rev, t, all)
      ensures !RateOf(g, rev, t).Higher(f2)
    {
      assert t == all;
      NotAbove(f2);
    }
  }

  lemma NotAbove(f: FeeFrac)
    ensures !f.Higher(f)
  {
  }

  lemma JoinedRoot(g: Graph, rev: bool, p: set<nat>, c: set<nat>, s: nat, r: nat)
    requires g.Valid() && Chainlike(g, rev) && p + c <= g.used && RootOf(g, rev, p, s) && RootOf(g, rev, c, r)
    requires r !in Deps(g, rev, s) && AllDeps(g, rev, c) * p != {}
    ensures RootOf(g, rev, p + c, r)
  {
    hide Deps, Graph.StoresClosure;
    var d :| d in AllDeps(g, rev, c) * p;
    var x :| x in c && d in Deps(g, rev, x);
    DepsTransitive(g, rev, d, x, r);
    assert d in Deps(g, rev, s);
    forall y | y in p
      ensures y in Deps(g, rev, r)
    {
      DepsTransitive(g, rev, y, s, r);
    }
  }

  // ----- what a pass makes of such groups -----

  ghost predicate TreeGroup(g: Graph, rev: bool, grp: seq<nat>) {
    && grp != [] && Distinct(grp) && Elements(grp) <= g.used
    && Whole(g, rev, Elements(grp)) && RootOf(g, rev, Elements(grp), grp[|grp| - 1])
  }

  ghost predicate TreeGroups(g: Graph, rev: bool, groups: seq<seq<nat>>) {
    forall k | 0 <= k < |groups| :: TreeGroup(g, rev, groups[k])
  }

  lemma OneIsTreeGroup(g: Graph, rev: bool, idx: nat, f: FeeFrac)
    requires g.Valid() && idx in g.used
    ensures TreeGroup(g, rev, [idx]) && RestBelow(g, rev, Elements([idx]), idx, f)
  {
    hide RateOf, Deps, FeeFrac.Higher, Graph.StoresClosure;
    assert Elements([idx]) == {idx};
    DepsItself(g, rev, idx);
    forall t: set<nat> | t <= {idx} && t != {}
      ensures t == {idx} && !RateOf(g, rev, t).Higher(RateOf(g, rev, {idx}))
    {
      var x :| x in t;
      NotAbove(RateOf(g, rev, {idx}));
    }
  }

  /** What stands later is not needed by what stands before it. */
  lemma LaterNotNeeded(g: Graph, rev: bool, groups: seq<seq<nat>>, seen: seq<nat>, c: nat)
    requires Improves(g, rev, groups, seen) && 0 < c < |groups|
    ensures AllDeps(g, rev, Elements(groups[c - 1])) !! Elements(groups[c])
  {
    hide Flatten, Rates, Distinct, Elements, OrderedFor, Dominates, AllDeps;
    FlattenAt(groups, c);
    var pre, p, q, post := Flatten(groups[..c - 1]), groups[c - 1], groups[c], Flatten(groups[c + 1..]);
    OrderedConcat(g, rev, pre + (p + q), post);
    OrderedConcat(g, rev, pre, p + q);
    OrderedConcat(g, rev, p, q);
  }

  lemma TreeGroupsJoin(g: Graph, rev: bool, p: seq<nat>, c: seq<nat>)
    requires g.Valid() && g.PositiveSizes() && Chainlike(g, rev) && TreeGroup(g, rev, p) && TreeGroup(g, rev, c)
    requires Elements(p) !! Elements(c) && Passes(g, rev, p, c) && DependsOn(g, rev, c, p)
    requires AllDeps(g, rev, Elements(p)) !! Elements(c)
    requires RestBelow(g, rev, Elements(c), c[|c| - 1], RateOf(g, rev, Elements(p)))
    ensures TreeGroup(g, rev, p + c)
    ensures RestBelow(g, rev, Elements(p + c), (p + c)[|p + c| - 1], RateOf(g, rev, Elements(p)))
  {
    hide RateOf, Deps, FeeFrac.Higher, Graph.PositiveSizes, Graph.StoresClosure, Sum, Rates, Chainlike, Whole,
         RestBelow;
    var r, s := c[|c| - 1], p[|p| - 1];
    DistinctConcat(p, c);
    RateOfList(g, rev, p);
    RateOfList(g, rev, c);
    assert s in Elements(p) && r in Elements(c);
    assert r !in Deps(g, rev, s) by {
      assert r in Deps(g, rev, s) ==> r in AllDeps(g, rev, Elements(p));
    }
    JoinedRoot(g, rev, Elements(p), Elements(c), s, r);
    JoinedWhole(g, rev, Elements(p), Elements(c), r);
    assert (p + c)[|p + c| - 1] == r;
  }

  /** Of the moving group all but its root is no higher than the group before it. */
  ghost predicate RestBelowPrevious(g: Graph, rev: bool, groups: seq<seq<nat>>, c: nat)
    requires c < |groups| && groups[c] != []
  {
    c > 0 ==>
      RestBelow(g, rev, Elements(groups[c]), groups[c][|groups[c]| - 1], RateOf(g, rev, Elements(groups[c - 1])))
  }

  lemma RestBelowHigher(g: Graph, rev: bool, s: set<nat>, r: nat, f: FeeFrac, f2: FeeFrac)
    requires g.PositiveSizes() && s <= g.used && RestBelow(g, rev, s, r, f) && f.size > 0 && f2.size > 0
    requires !f.Higher(f2)
    ensures RestBelow(g, rev, s, r, f2)
  {
    hide RateOf, FeeFrac.Higher, ClosedIn, Graph.PositiveSizes;
    forall t: set<nat> | t <= s && t != {} && r !in t && ClosedIn(g, rev, t, s)
      ensures !RateOf(g, rev, t).Higher(f2)
    {
      RateOfSize(g, rev, t);
      FeerateTransitive(f2, f, RateOf(g, rev, t));
    }
  }

  lemma TreeGroupFacts(g: Graph, rev: bool, grp: seq<nat>)
    requires g.PositiveSizes() && TreeGroup(g, rev, grp)
    ensures grp != [] && Elements(grp) != {} && Elements(grp) <= g.used
    ensures Sum(Rates(g, rev, grp)) == RateOf(g, rev, Elements(grp)) && RateOf(g, rev, Elements(grp)).size > 0
  {
    hide RateOf, Sum, Rates, Graph.PositiveSizes, Distinct, Whole, RootOf;
    assert grp[0] in Elements(grp);
    RateOfList(g, rev, grp);
    RateOfSize(g, rev, Elements(grp));
  }

  /** The step in which the moving group takes in the one before it. */
  lemma JoinStep(g: Graph, rev: bool, groups: seq<seq<nat>>, seen: seq<nat>, c: nat)
    requires g.Valid() && g.PositiveSizes() && Chainlike(g, rev) && Elements(seen) <= g.used && 0 < c < |groups|
    requires Improves(g, rev, groups, seen) && AllTight(g, rev, groups) && TreeGroups(g, rev, groups)
    requires FallingBut(g, rev, groups, c) && groups[c] != [] && RestBelowPrevious(g, rev, groups, c)
    requires Passes(g, rev, groups[c - 1], groups[c]) && DependsOn(g, rev, groups[c], groups[c - 1])
    ensures var to := Joined(groups, c, groups[c - 1] + groups[c]);
            TreeGroups(g, rev, to) && to[c - 1] != [] && RestBelowPrevious(g, rev, to, c - 1)
  {
    hide Improves, AllTight, TreeGroup, RestBelow, RateOf, Sum, Rates, FeeFrac.Higher, Graph.PositiveSizes,
         Graph.StoresClosure, Chainlike, DependsOn, AllDeps, Elements, Distinct;
    var p, q, to := groups[c - 1], groups[c], Joined(groups, c, groups[c - 1] + groups[c]);
    RatesOfGroups(g, rev, groups, seen, c);
    LaterNotNeeded(g, rev, groups, seen, c);
    TreeGroupFacts(g, rev, p);
    TreeGroupsJoin(g, rev, p, q);
    assert forall k | 0 <= k < |to| ::
             to[k] == if k < c - 1 then groups[k] else if k == c - 1 then p + q else groups[k + 1];
    if c > 1 {
      TreeGroupFacts(g, rev, groups[c - 2]);
      TreeGroupFacts(g, rev, p + q);
      assert !Passes(g, rev, groups[c - 2], groups[c - 1]);
      RestBelowHigher(g, rev, Elements(p + q), (p + q)[|p + q| - 1], RateOf(g, rev, Elements(p)),
                      RateOf(g, rev, Elements(groups[c - 2])));
    }
  }

  /** The step in which it passes the one before it. */
  lemma SwapStep(g: Graph, rev: bool, groups: seq<seq<nat>>, c: nat)
    requires g.PositiveSizes() && 0 < c < |groups| && TreeGroups(g, rev, groups)
    requires FallingBut(g, rev, groups, c) && groups[c] != [] && RestBelowPrevious(g, rev, groups, c)
    ensures var to := Swapped(groups, c);
            TreeGroups(g, rev, to) && to[c - 1] != [] && RestBelowPrevious(g, rev, to, c - 1)
  {
    hide TreeGroup, RestBelow, RateOf, Sum, Rates, FeeFrac.Higher, Graph.PositiveSizes, Elements;
    var p, q := groups[c - 1], groups[c];
    TreeGroupFacts(g, rev, p);
    TreeGroupFacts(g, rev, q);
    if c > 1 {
      TreeGroupFacts(g, rev, groups[c - 2]);
      assert !Passes(g, rev, groups[c - 2], groups[c - 1]);
      RestBelowHigher(g, rev, Elements(q), q[|q| - 1], RateOf(g, rev, Elements(p)),
                      RateOf(g, rev, Elements(groups[c - 2])));
    }
  }

  lemma NoDependence(g: Graph, rev: bool, q: seq<nat>, p: seq<nat>)
    requires !DependsOn(g, rev, q, p)
    ensures AllDeps(g, rev, Elements(q)) !! Elements(p)
  {
    hide AllDeps;
    var both := AllDeps(g, rev, Elements(q)) * Elements(p);
    assert both == {};
    forall x | x in AllDeps(g, rev, Elements(q))
      ensures x !in Elements(p)
    {
      assert x !in both;
    }
  }

  /** What a moving group does is valid and no point of the diagram suffers. */
  lemma {:induction false} MovedImproves(g: Graph, rev: bool, groups: seq<seq<nat>>, seen: seq<nat>, c: nat)
    requires g.PositiveSizes() && Elements(seen) <= g.used && c < |groups|
    requires Improves(g, rev, groups, seen) && AllTight(g, rev, groups)
    ensures Improves(g, rev, Moved(g, rev, groups, c), seen) && AllTight(g, rev, Moved(g, rev, groups, c))
    decreases c
  {
    hide Improves, AllTight, Moved, Graph.PositiveSizes, AllDeps, Elements, Sum, Rates, FeeFrac.Higher;
    MovedStep(g, rev, groups, c);
    if c > 0 && Passes(g, rev, groups[c - 1], groups[c]) {
      if DependsOn(g, rev, groups[c], groups[c - 1]) {
        ImproveJoin(g, rev, groups, seen, c);
        MovedImproves(g, rev, Joined(groups, c, groups[c - 1] + groups[c]), seen, c - 1);
      } else {
        NoDependence(g, rev, groups[c], groups[c - 1]);
        ImproveSwap(g, rev, groups, seen, c);
        MovedImproves(g, rev, Swapped(groups, c), seen, c - 1);
      }
    }
  }

  lemma {:induction false} MovedTree(g: Graph, rev: bool, groups: seq<seq<nat>>, seen: seq<nat>, c: nat)
    requires g.Valid() && g.PositiveSizes() && Chainlike(g, rev) && Elements(seen) <= g.used && c < |groups|
    requires Improves(g, rev, groups, seen) && AllTight(g, rev, groups) && TreeGroups(g, rev, groups)
    requires ChunkGroups(g, rev, groups) && FallingBut(g, rev, groups, c)
    requires groups[c] != [] && RestBelowPrevious(g, rev, groups, c)
    ensures TreeGroups(g, rev, Moved(g, rev, groups, c))
    decreases c
  {
    hide Improves, AllTight, Moved, Graph.PositiveSizes, Graph.StoresClosure, Chainlike, ChunkGroup, TreeGroup, Passes,
         DependsOn, FallingBut, RestBelowPrevious;
    MovedStep(g, rev, groups, c);
    if c > 0 && Passes(g, rev, groups[c - 1], groups[c]) {
      if DependsOn(g, rev, groups[c], groups[c - 1]) {
        JoinStep(g, rev, groups, seen, c);
        JoinKeeps(g, rev, groups, seen, c);
        MovedTree(g, rev, Joined(groups, c, groups[c - 1] + groups[c]), seen, c - 1);
      } else {
        SwapStep(g, rev, groups, c);
        SwapKeeps(g, rev, groups, seen, c);
        MovedTree(g, rev, Swapped(groups, c), seen, c - 1);
      }
    }
  }

  lemma JoinKeeps(g: Graph, rev: bool, groups: seq<seq<nat>>, seen: seq<nat>, c: nat)
    requires g.Valid() && g.PositiveSizes() && Elements(seen) <= g.used && 0 < c < |groups|
    requires Improves(g, rev, groups, seen) && AllTight(g, rev, groups)
    requires ChunkGroups(g, rev, groups) && FallingBut(g, rev, groups, c)
    requires Passes(g, rev, groups[c - 1], groups[c]) && DependsOn(g, rev, groups[c], groups[c - 1])
    ensures var to := Joined(groups, c, groups[c - 1] + groups[c]);
            && Improves(g, rev, to, seen) && AllTight(g, rev, to)
            && ChunkGroups(g, rev, to) && FallingBut(g, rev, to, c - 1)
  {
    hide Improves, AllTight, Graph.PositiveSizes, Graph.StoresClosure, ChunkGroup, DependsOn, FallingBut, Sum, Rates,
         FeeFrac.Higher;
    ImproveJoin(g, rev, groups, seen, c);
    FallingJoin(g, rev, groups, c);
    JoinedIsChunk(g, rev, groups[c - 1], groups[c]);
    JoinedGroups(g, rev, groups, c);
  }

  lemma SwapKeeps(g: Graph, rev: bool, groups: seq<seq<nat>>, seen: seq<nat>, c: nat)
    requires g.PositiveSizes() && Elements(seen) <= g.used && 0 < c < |groups|
    requires Improves(g, rev, groups, seen) && AllTight(g, rev, groups)
    requires ChunkGroups(g, rev, groups) && FallingBut(g, rev, groups, c)
    requires Passes(g, rev, groups[c - 1], groups[c]) && !DependsOn(g, rev, groups[c], groups[c - 1])
    ensures var to := Swapped(groups, c);
            && Improves(g, rev, to, seen) && AllTight(g, rev, to)
            && ChunkGroups(g, rev, to) && FallingBut(g, rev, to, c - 1)
  {
    hide Improves, AllTight, Graph.PositiveSizes, ChunkGroup, FallingBut, Sum, Rates, FeeFrac.Higher, AllDeps, Elements;
    NoDependence(g, rev, groups[c], groups[c - 1]);
    ImproveSwap(g, rev, groups, seen, c);
    FallingSwap(g, rev, groups, c);
    SwappedGroups(g, rev, groups, c);
  }

  lemma {:induction false} GroupedImproves(g: Graph, rev: bool, seen: seq<nat>)
    requires g.PositiveSizes() && Elements(seen) <= g.used && Distinct(seen) && OrderedFor(g, rev, seen)
    ensures Improves(g, rev, Grouped(g, rev, seen), seen) && AllTight(g, rev, Grouped(g, rev, seen))
    decreases |seen|
  {
    hide Graph.PositiveSizes, AllTight, Moved, Elements, Distinct, OrderedFor;
    if seen != [] {
      hide Improves;
      var before, idx := Unsnoc(g, rev, seen);
      GroupedImproves(g, rev, before);
      GroupedSnoc(g, rev, before, idx);
      ImproveAppend(g, rev, Grouped(g, rev, before), before, idx);
      var groups := Grouped(g, rev, before) + [[idx]];
      MovedImproves(g, rev, groups, seen, |groups| - 1);
    } else {
      StartImproves(g, rev);
    }
  }

  lemma StartImproves(g: Graph, rev: bool)
    ensures Grouped(g, rev, []) == [] && Improves(g, rev, [], []) && AllTight(g, rev, [])
  {
    assert Flatten<nat>([]) == [];
  }

  lemma Unsnoc(g: Graph, rev: bool, seen: seq<nat>) returns (before: seq<nat>, idx: nat)
    requires seen != [] && Distinct(seen) && OrderedFor(g, rev, seen)
    ensures seen == before + [idx] && |before| == |seen| - 1 && idx !in Elements(before)
    ensures Distinct(before) && OrderedFor(g, rev, before) && OrderedFor(g, rev, before + [idx])
    ensures Elements(before) <= Elements(seen) && idx in Elements(seen)
  {
    hide Deps;
    before, idx := seen[..|seen| - 1], seen[|seen| - 1];
    assert seen == before + [idx];
  }

  /** After a pass in the direction in which the cluster is chainlike, no group can be
      split. */
  lemma {:induction false} GroupedTree(g: Graph, rev: bool, seen: seq<nat>)
    requires g.Valid() && g.PositiveSizes() && Chainlike(g, rev)
    requires Elements(seen) <= g.used && Distinct(seen) && OrderedFor(g, rev, seen)
    ensures TreeGroups(g, rev, Grouped(g, rev, seen))
    decreases |seen|
  {
    hide Graph.PositiveSizes, Graph.StoresClosure, Improves, AllTight, Moved, Elements, Distinct, OrderedFor, TreeGroup,
         ChunkGroup, Chainlike, Passes, RestBelow, RateOf;
    if seen != [] {
      var before, idx := Unsnoc(g, rev, seen);
      GroupedTree(g, rev, before);
      GroupedSnoc(g, rev, before, idx);
      GroupedImproves(g, rev, before);
      GroupedFalls(g, rev, before);
      var done := Grouped(g, rev, before);
      ImproveAppend(g, rev, done, before, idx);
      SingletonGroupIsChunk(g, rev, idx);
      var groups := done + [[idx]];
      OneIsTreeGroup(g, rev, idx, if done == [] then EMPTY else RateOf(g, rev, Elements(done[|done| - 1])));
      assert forall k | 0 <= k < |done| :: groups[k] == done[k];
      assert groups[|done|] == [idx];
      MovedTree(g, rev, groups, seen, |done|);
    }
  }

  // ----- such groups in falling order are optimal -----

  /** What of a group can go first exceeds no feerate by more than the whole group, or not
      at all. */
  lemma PartExcess(g: Graph, rev: bool, s: set<nat>, t: set<nat>, p: int, q: int)
    requires g.PositiveSizes() && s <= g.used && s != {} && Whole(g, rev, s)
    requires t <= s && ClosedIn(g, rev, t, s) && q > 0
    ensures RateOf(g, rev, t).Excess(p, q) <= Max(0, RateOf(g, rev, s).Excess(p, q))
  {
    hide RateOf, FeeFrac.Higher, FeeFrac.Excess, Graph.PositiveSizes;
    RateOfSize(g, rev, s);
    RateOfSize(g, rev, t);
    RateOfPart(g, rev, t, s);
    if t == {} {
      RateOfEmpty(g, rev);
      EmptyExcess(p, q);
    } else {
      ExcessSign(RateOf(g, rev, t), RateOf(g, rev, s), p, q);
    }
  }

  lemma {:induction false} SetBelowPeak(g: Graph, rev: bool, groups: seq<seq<nat>>, s: set<nat>, p: int, q: int)
    requires g.PositiveSizes() && TreeGroups(g, rev, groups) && Falling(g, rev, groups) && Distinct(Flatten(groups))
    requires s <= Elements(Flatten(groups)) && ClosedIn(g, rev, s, Elements(Flatten(groups))) && q > 0
    ensures RateOf(g, rev, s).Excess(p, q) <= Peak(Rates(g, rev, Flatten(groups)), p, q)
    ensures groups == [] || RateOf(g, rev, Elements(groups[0])).Excess(p, q) <= 0 ==>
              RateOf(g, rev, s).Excess(p, q) <= 0
    decreases |groups|
  {
    hide RateOf, Sum, Rates, FeeFrac.Higher, FeeFrac.Excess, Graph.PositiveSizes, TreeGroup, Peak, Deps;
    if groups == [] {
      assert s == {};
      RateOfEmpty(g, rev);
      EmptyExcess(p, q);
      PeakPrefix(Rates(g, rev, []), 0, p, q);
      SumStep(Rates(g, rev, [])[..0]);
    } else {
      var first, rest := groups[0], Flatten(groups[1..]);
      DistinctConcat(first, rest);
      var a, b := s * Elements(first), s * Elements(rest);
      assert a + b == s;
      RestFalls(g, rev, groups);
      SetBelowPeak(g, rev, groups[1..], b, p, q);
      FirstExcess(g, rev, groups, a, p, q);
      RateOfUnion(g, rev, a, b);
      ExcessPlus(RateOf(g, rev, a), RateOf(g, rev, b), p, q);
      RatesConcat(g, rev, first, rest);
      PeakConcat(Rates(g, rev, first), Rates(g, rev, rest), p, q);
      PeakPrefix(Rates(g, rev, first), 0, p, q);
      SumStep(Rates(g, rev, first)[..0]);
      EmptyExcess(p, q);
      TreeGroupFacts(g, rev, first);
    }
  }

  lemma RestFalls(g: Graph, rev: bool, groups: seq<seq<nat>>)
    requires groups != [] && TreeGroups(g, rev, groups) && Falling(g, rev, groups)
    ensures TreeGroups(g, rev, groups[1..]) && Falling(g, rev, groups[1..])
  {
    hide TreeGroup, Passes;
    var rest := groups[1..];
    forall k | 0 < k < |rest|
      ensures !Passes(g, rev, rest[k - 1], rest[k])
    {
      assert !Passes(g, rev, groups[k], groups[k + 1]);
    }
  }

  lemma FirstExcess(g: Graph, rev: bool, groups: seq<seq<nat>>, a: set<nat>, p: int, q: int)
    requires g.PositiveSizes() && groups != [] && TreeGroups(g, rev, groups) && Falling(g, rev, groups) && q > 0
    requires a <= Elements(groups[0]) && ClosedIn(g, rev, a, Elements(groups[0]))
    ensures RateOf(g, rev, a).Excess(p, q) <= Max(0, RateOf(g, rev, Elements(groups[0])).Excess(p, q))
    ensures RateOf(g, rev, Elements(groups[0])).Excess(p, q) <= 0 && |groups| > 1 ==>
              RateOf(g, rev, Elements(groups[1])).Excess(p, q) <= 0
  {
    hide RateOf, Sum, Rates, FeeFrac.Higher, FeeFrac.Excess, Graph.PositiveSizes, Distinct, Elements, ClosedIn, Deps;
    TreeGroupFacts(g, rev, groups[0]);
    assert TreeGroup(g, rev, groups[0]);
    PartExcess(g, rev, Elements(groups[0]), a, p, q);
    if |groups| > 1 {
      TreeGroupFacts(g, rev, groups[1]);
      assert !Passes(g, rev, groups[0], groups[1]);
      ExcessSign(RateOf(g, rev, Elements(groups[1])), RateOf(g, rev, Elements(groups[0])), p, q);
    }
  }

  lemma GroupsOptimal(g: Graph, rev: bool, groups: seq<seq<nat>>, lin: seq<nat>)
    requires g.PositiveSizes() && TreeGroups(g, rev, groups) && Falling(g, rev, groups) && Distinct(Flatten(groups))
    requires Distinct(lin) && Elements(lin) == Elements(Flatten(groups)) && OrderedFor(g, rev, lin)
    ensures Dominates(Rates(g, rev, Flatten(groups)), Rates(g, rev, lin))
  {
    hide RateOf, Sum, Graph.PositiveSizes, TreeGroup, Passes, Peak, Flatten;
    forall p: int, q: int | q > 0
      ensures Peak(Rates(g, rev, Flatten(groups)), p, q) >= Peak(Rates(g, rev, lin), p, q)
    {
      var i := PeakAttained(Rates(g, rev, lin), p, q);
      assert Rates(g, rev, lin)[..i] == Rates(g, rev, lin[..i]);
      RateOfList(g, rev, lin[..i]);
      PrefixClosed(g, rev, lin, i);
      SetBelowPeak(g, rev, groups, Elements(lin[..i]), p, q);
    }
  }

  lemma PrefixClosed(g: Graph, rev: bool, lin: seq<nat>, i: nat)
    requires OrderedFor(g, rev, lin) && i <= |lin|
    ensures Elements(lin[..i]) <= Elements(lin) && ClosedIn(g, rev, Elements(lin[..i]), Elements(lin))
  {
    hide Deps;
    forall x, d | x in Elements(lin[..i]) && d in Elements(lin) && d in Deps(g, rev, x)
      ensures d in Elements(lin[..i])
    {
      var j :| 0 <= j < i && lin[j] == x;
      var k :| 0 <= k < |lin| && lin[k] == d;
      assert k <= j;
      assert lin[..i][k] == d;
    }
  }

  // ----- whole passes -----

  /** A pass keeps a linearization valid and lowers no point of its diagram. */
  lemma PassedFacts(g: Graph, rev: bool, lin: seq<nat>)
    requires g.Valid() && g.PositiveSizes() && Elements(lin) <= g.used && Distinct(lin) && g.TopoOrdered(lin)
    ensures var out := Passed(g, rev, lin);
            && Distinct(out) && Elements(out) == Elements(lin) && g.TopoOrdered(out)
            && Dominates(g.Fees(out), g.Fees(lin))
  {
    hide Graph.StoresClosure, Graph.PositiveSizes, Elements, Distinct, OrderedFor, Dominates, Graph.TopoOrdered,
         Graph.Fees, Grouped, AllTight, Flatten, Rates, Reversed;
    ReadOrderFacts(g, rev, lin);
    GroupedImproves(g, rev, ReadOrder(rev, lin));
    ReadBack(g, rev, lin, Flatten(Grouped(g, rev, ReadOrder(rev, lin))));
  }

  /** A pass in the direction in which the cluster is chainlike is optimal. */
  lemma PassOptimal(g: Graph, rev: bool, lin: seq<nat>, other: seq<nat>)
    requires g.Valid() && g.PositiveSizes() && Chainlike(g, rev)
    requires Elements(lin) <= g.used && Distinct(lin) && g.TopoOrdered(lin)
    requires Elements(other) == Elements(lin) && Distinct(other) && g.TopoOrdered(other)
    ensures Dominates(g.Fees(Passed(g, rev, lin)), g.Fees(other))
  {
    hide Graph.StoresClosure, Graph.PositiveSizes, Elements, Distinct, OrderedFor, Dominates, Graph.TopoOrdered,
         Graph.Fees, Grouped, AllTight, Flatten, Rates, Reversed, Chainlike, TreeGroup, ChunkGroup, Passes;
    var input := ReadOrder(rev, lin);
    var groups := Grouped(g, rev, input);
    ReadOrderFacts(g, rev, lin);
    ReadOrderFacts(g, rev, other);
    GroupedImproves(g, rev, input);
    GroupedFalls(g, rev, input);
    GroupedTree(g, rev, input);
    GroupsOptimal(g, rev, groups, ReadOrder(rev, other));
    ReadBack(g, rev, other, Flatten(groups));
  }

  /** Where every transaction has at most one child, or every one at most one parent, the
      result is nowhere below any linearization. */
  lemma TreesOptimal(g: Graph, lin: seq<nat>, other: seq<nat>)
    requires g.Cluster() && (OneChildEach(g) || OneParentEach(g))
    requires Elements(lin) <= g.used && Distinct(lin) && g.TopoOrdered(lin)
    requires Elements(other) == Elements(lin) && Distinct(other) && g.TopoOrdered(other)
    ensures Dominates(g.Fees(PostLinearized(g, lin)), g.Fees(other))
  {
    hide Graph.StoresClosure, Graph.Acyclic, Graph.PositiveSizes, Elements, Distinct, Dominates, Graph.TopoOrdered,
         Graph.Fees, Passed, Chainlike, OneChildEach, OneParentEach;
    var mid := Passed(g, true, lin);
    TreesAreChainlike(g);
    PassedFacts(g, true, lin);
    PassedFacts(g, false, mid);
    if OneChildEach(g) {
      PassOptimal(g, false, mid, other);
    } else {
      PassOptimal(g, true, lin, other);
      DominatesTransitive(g.Fees(Passed(g, false, mid)), g.Fees(mid), g.Fees(other));
    }
  }
}
