/** Improving a linearization in place makes up for moving a transaction without descendants
    to its end (src/cluster_linearize.h). */
module PostLinearizationLeaf {
  import opened Collections
  import opened FeeFracs
  import opened Diagrams
  import opened NatSets
  import opened DepGraphs
  import opened Chunkings
  import opened Merging
  import opened PostLinearization
  import opened PostLinearizationTrees

  // ----- lists with one group more -----

  /** The groups with t alone inserted at position k. */
  ghost function With(groups: seq<seq<nat>>, k: nat, t: nat): seq<seq<nat>>
    requires k <= |groups|
  {
    groups[..k] + [[t]] + groups[k..]
  }

  lemma WithAt(groups: seq<seq<nat>>, k: nat, t: nat, j: nat)
    requires k <= |groups| && j < |groups|
    ensures |With(groups, k, t)| == |groups| + 1 && With(groups, k, t)[k] == [t]
    ensures j < k ==> With(groups, k, t)[j] == groups[j]
    ensures j >= k ==> With(groups, k, t)[j + 1] == groups[j]
  {
  }

  /** Groups at c - 1 and c beyond t are joined or swapped as without t. */
  lemma WithBehind(groups: seq<seq<nat>>, k: nat, t: nat, c: nat, x: seq<nat>)
    requires k < c < |groups|
    ensures Joined(With(groups, k, t), c + 1, x) == With(Joined(groups, c, x), k, t)
    ensures Swapped(With(groups, k, t), c + 1) == With(Swapped(groups, c), k, t)
  {
  }

  lemma WithBefore(groups: seq<seq<nat>>, k: nat, t: nat, c: nat, x: seq<nat>)
    requires 0 < c < k <= |groups|
    ensures Joined(With(groups, k, t), c, x) == With(Joined(groups, c, x), k - 1, t)
    ensures Swapped(With(groups, k, t), c) == With(Swapped(groups, c), k, t)
  {
  }

  lemma WithPassed(groups: seq<seq<nat>>, k: nat, t: nat)
    requires k < |groups|
    ensures Swapped(With(groups, k, t), k + 1) == With(groups, k + 1, t)
  {
  }

  // ----- a transaction nothing needs -----

  ghost predicate IsHigher(g: Graph, rev: bool, grp: seq<nat>, t: nat) {
    Sum(Rates(g, rev, grp)).Higher(Rate(g, rev, t))
  }

  /** Exactly the first k groups are higher than t; that at position c may be either way. */
  ghost predicate SplitBut(g: Graph, rev: bool, groups: seq<seq<nat>>, k: nat, t: nat, c: nat) {
    && k <= |groups|
    && (forall j | 0 <= j < k && j != c :: IsHigher(g, rev, groups[j], t))
    && (forall j | k <= j < |groups| && j != c :: !IsHigher(g, rev, groups[j], t))
  }

  /** wide is narrow with t after the groups higher than it. */
  ghost predicate Inserted(g: Graph, rev: bool, narrow: seq<seq<nat>>, wide: seq<seq<nat>>, k: nat, t: nat) {
    SplitBut(g, rev, narrow, k, t, |narrow|) && wide == With(narrow, k, t)
  }

  /** The groups hold transactions in use that do not need t. */
  ghost predicate Apart(g: Graph, rev: bool, groups: seq<seq<nat>>, t: nat) {
    forall j | 0 <= j < |groups| :: GroupApart(g, rev, groups[j], t)
  }

  ghost predicate GroupApart(g: Graph, rev: bool, grp: seq<nat>, t: nat) {
    grp != [] && Elements(grp) <= g.used && t !in AllDeps(g, rev, Elements(grp))
  }

  lemma ApartFacts(g: Graph, rev: bool, grp: seq<nat>, t: nat)
    requires g.PositiveSizes() && t in g.used && GroupApart(g, rev, grp, t)
    ensures Sum(Rates(g, rev, grp)).size > 0 && Rate(g, rev, t).size > 0 && Sum(Rates(g, rev, [t])) == Rate(g, rev, t)
    ensures !DependsOn(g, rev, grp, [t])
  {
    hide AllDeps, Sum;
    RatesPositive(g, rev, grp);
    SumPositive(Rates(g, rev, grp));
    SumStep(Rates(g, rev, [t]));
    assert Rates(g, rev, [t]) == [Rate(g, rev, t)];
  }

  lemma JoinedApart(g: Graph, rev: bool, groups: seq<seq<nat>>, t: nat, c: nat)
    requires Apart(g, rev, groups, t) && 0 < c < |groups|
    ensures Apart(g, rev, Joined(groups, c, groups[c - 1] + groups[c]), t)
    ensures Apart(g, rev, Swapped(groups, c), t)
  {
    hide Deps;
    var p, q := groups[c - 1], groups[c];
    DistinctConcat(p, q);
    assert GroupApart(g, rev, p, t) && GroupApart(g, rev, q, t);
    assert GroupApart(g, rev, p + q, t);
    hide GroupApart;
  }

  /** Two groups higher than t are so together. */
  lemma BothHigher(g: Graph, rev: bool, p: seq<nat>, q: seq<nat>, t: nat)
    ensures IsHigher(g, rev, p, t) && IsHigher(g, rev, q, t) ==> IsHigher(g, rev, p + q, t)
  {
    hide Sum, Rates, Rate;
    RatesConcat(g, rev, p, q);
    SumConcat(Rates(g, rev, p), Rates(g, rev, q));
    if IsHigher(g, rev, p, t) && IsHigher(g, rev, q, t) {
      SumHigher(Sum(Rates(g, rev, p)), Sum(Rates(g, rev, q)), Rate(g, rev, t));
    }
  }

  /** Joining or swapping groups before position k keeps the split. */
  lemma SplitBefore(g: Graph, rev: bool, groups: seq<seq<nat>>, k: nat, t: nat, c: nat)
    requires SplitBut(g, rev, groups, k, t, |groups|) && 0 < c < k
    ensures SplitBut(g, rev, Joined(groups, c, groups[c - 1] + groups[c]), k - 1, t, |groups| - 1)
    ensures |Joined(groups, c, groups[c - 1] + groups[c])| == |groups| - 1
    ensures SplitBut(g, rev, Swapped(groups, c), k, t, |groups|)
  {
    hide IsHigher;
    BothHigher(g, rev, groups[c - 1], groups[c], t);
  }

  /** So does joining or swapping from position k on, except at the moving group. */
  lemma SplitBehind(g: Graph, rev: bool, groups: seq<seq<nat>>, k: nat, t: nat, c: nat)
    requires SplitBut(g, rev, groups, k, t, c) && k < c < |groups|
    ensures SplitBut(g, rev, Joined(groups, c, groups[c - 1] + groups[c]), k, t, c - 1)
    ensures SplitBut(g, rev, Swapped(groups, c), k, t, c - 1)
  {
    hide IsHigher;
  }

  lemma SumHigher(a: FeeFrac, b: FeeFrac, f: FeeFrac)
    requires a.Higher(f) && b.Higher(f)
    ensures a.Plus(b).Higher(f)
  {
    assert (a.fee + b.fee) * f.size == a.fee * f.size + b.fee * f.size;
    assert f.fee * (a.size + b.size) == f.fee * a.size + f.fee * b.size;
  }

  /** A group moving before t moves as if t were not there. */
  lemma {:induction false} MovedBefore(g: Graph, rev: bool, groups: seq<seq<nat>>, k: nat, t: nat, c: nat)
    returns (k2: nat)
    requires g.PositiveSizes() && t in g.used && Apart(g, rev, groups, t) && c < k <= |groups|
    requires SplitBut(g, rev, groups, k, t, |groups|)
    ensures Inserted(g, rev, Moved(g, rev, groups, c), Moved(g, rev, With(groups, k, t), c), k2, t)
    decreases c
  {
    hide Graph.PositiveSizes, Apart, SplitBut, Passes, DependsOn, Moved, With, Joined, Swapped;
    var wide := With(groups, k, t);
    WithAt(groups, k, t, c);
    MovedStep(g, rev, groups, c);
    MovedStep(g, rev, wide, c);
    k2 := k;
    if c > 0 {
      WithAt(groups, k, t, c - 1);
      if Passes(g, rev, groups[c - 1], groups[c]) {
        var pq := groups[c - 1] + groups[c];
        WithBefore(groups, k, t, c, pq);
        JoinedApart(g, rev, groups, t, c);
        JoinedLength(groups, c, pq);
        SplitBefore(g, rev, groups, k, t, c);
        if DependsOn(g, rev, groups[c], groups[c - 1]) {
          k2 := MovedBefore(g, rev, Joined(groups, c, pq), k - 1, t, c - 1);
        } else {
          k2 := MovedBefore(g, rev, Swapped(groups, c), k, t, c - 1);
        }
      }
    }
  }

  /** A group moving up from behind t stops there exactly if it is not higher, and then
      would have stopped anyway. */
  lemma {:induction false} MovedBehind(g: Graph, rev: bool, groups: seq<seq<nat>>, k: nat, t: nat, c: nat)
    returns (k2: nat)
    requires g.PositiveSizes() && t in g.used && Apart(g, rev, groups, t) && k <= c < |groups|
    requires SplitBut(g, rev, groups, k, t, c)
    ensures Inserted(g, rev, Moved(g, rev, groups, c), Moved(g, rev, With(groups, k, t), c + 1), k2, t)
    decreases c
  {
    hide Graph.PositiveSizes, Apart, SplitBut, IsHigher, Passes, DependsOn, Moved, With, Joined, Swapped;
    var wide := With(groups, k, t);
    WithAt(groups, k, t, c);
    MovedStep(g, rev, groups, c);
    MovedStep(g, rev, wide, c + 1);
    k2 := k;
    if c > k {
      WithAt(groups, k, t, c - 1);
      if Passes(g, rev, groups[c - 1], groups[c]) {
        var pq := groups[c - 1] + groups[c];
        WithBehind(groups, k, t, c, pq);
        JoinedApart(g, rev, groups, t, c);
        JoinedLength(groups, c, pq);
        SplitBehind(g, rev, groups, k, t, c);
        if DependsOn(g, rev, groups[c], groups[c - 1]) {
          k2 := MovedBehind(g, rev, Joined(groups, c, pq), k, t, c - 1);
        } else {
          k2 := MovedBehind(g, rev, Swapped(groups, c), k, t, c - 1);
        }
      } else {
        StopsThere(g, rev, groups, k, t, c);
      }
    } else {
      MeetsLeaf(g, rev, groups, k, t);
      SplitDecided(g, rev, groups, k, t);
      if IsHigher(g, rev, groups[c], t) {
        WithPassed(groups, k, t);
        k2 := MovedBefore(g, rev, groups, k + 1, t, c);
      }
    }
  }

  lemma JoinedLength(groups: seq<seq<nat>>, c: nat, x: seq<nat>)
    requires 0 < c < |groups|
    ensures |Joined(groups, c, x)| == |groups| - 1 && |Swapped(groups, c)| == |groups|
  {
  }

  /** Where the moving group stops behind t it is not higher. */
  lemma StopsThere(g: Graph, rev: bool, groups: seq<seq<nat>>, k: nat, t: nat, c: nat)
    requires g.PositiveSizes() && t in g.used && Apart(g, rev, groups, t) && k < c < |groups|
    requires SplitBut(g, rev, groups, k, t, c) && !Passes(g, rev, groups[c - 1], groups[c])
    ensures SplitBut(g, rev, groups, k, t, |groups|)
  {
    hide Graph.PositiveSizes, GroupApart, IsHigher, Passes;
    StopsBehind(g, rev, groups[c - 1], groups[c], t);
  }

  /** The moving group next to t falls to one side of the split. */
  lemma SplitDecided(g: Graph, rev: bool, groups: seq<seq<nat>>, k: nat, t: nat)
    requires SplitBut(g, rev, groups, k, t, k) && k < |groups|
    ensures SplitBut(g, rev, groups, if IsHigher(g, rev, groups[k], t) then k + 1 else k, t, |groups|)
  {
    hide IsHigher;
  }

  lemma StopsBehind(g: Graph, rev: bool, p: seq<nat>, q: seq<nat>, t: nat)
    requires g.PositiveSizes() && t in g.used && GroupApart(g, rev, p, t) && GroupApart(g, rev, q, t)
    requires !Passes(g, rev, p, q) && !IsHigher(g, rev, p, t)
    ensures !IsHigher(g, rev, q, t)
  {
    hide Sum, Rates, Rate, FeeFrac.Higher, Graph.PositiveSizes, GroupApart;
    ApartFacts(g, rev, p, t);
    ApartFacts(g, rev, q, t);
    FeerateTransitive(Rate(g, rev, t), Sum(Rates(g, rev, p)), Sum(Rates(g, rev, q)));
  }

  /** The moving group has come to t, which it passes exactly if it is higher; if it is not,
      it does not pass the group before t either. */
  lemma MeetsLeaf(g: Graph, rev: bool, groups: seq<seq<nat>>, k: nat, t: nat)
    requires g.PositiveSizes() && t in g.used && Apart(g, rev, groups, t) && k < |groups|
    requires SplitBut(g, rev, groups, k, t, k)
    ensures Passes(g, rev, [t], groups[k]) <==> IsHigher(g, rev, groups[k], t)
    ensures !DependsOn(g, rev, groups[k], [t])
    ensures k > 0 && !IsHigher(g, rev, groups[k], t) ==> !Passes(g, rev, groups[k - 1], groups[k])
  {
    hide Sum, Rates, Rate, FeeFrac.Higher, Graph.PositiveSizes, GroupApart, DependsOn;
    ApartFacts(g, rev, groups[k], t);
    if k > 0 {
      ApartFacts(g, rev, groups[k - 1], t);
      var a, f, b := Sum(Rates(g, rev, groups[k - 1])), Rate(g, rev, t), Sum(Rates(g, rev, groups[k]));
      assert IsHigher(g, rev, groups[k - 1], t);
      FeerateTransitive(a, f, b);
      NotBothHigher(b, a);
    }
  }

  // ----- a pass that reads t first -----

  /** Nothing of s needs t. */
  ghost predicate Unneeded(g: Graph, rev: bool, s: seq<nat>, t: nat) {
    forall x | x in Elements(s) :: t !in Deps(g, rev, x)
  }

  /** Reading t first only inserts it. */
  lemma {:induction false} GroupedInserted(g: Graph, rev: bool, t: nat, s: seq<nat>) returns (k: nat)
    requires g.PositiveSizes() && t in g.used && Elements(s) <= g.used && Distinct(s) && OrderedFor(g, rev, s)
    requires Unneeded(g, rev, s, t)
    ensures Inserted(g, rev, Grouped(g, rev, s), Grouped(g, rev, [t] + s), k, t)
    decreases |s|
  {
    hide Graph.PositiveSizes, Elements, Distinct, OrderedFor, Grouped, Inserted, Unneeded;
    if s == [] {
      k := InsertedAlone(g, rev, t);
      assert [t] + s == [t];
    } else {
      var before, x := Unsnoc(g, rev, s);
      UnneededSnoc(g, rev, before, x, t);
      k := GroupedInserted(g, rev, t, before);
      k := InsertedSnoc(g, rev, t, before, x, k);
      assert [t] + s == [t] + before + [x];
    }
  }

  lemma UnneededSnoc(g: Graph, rev: bool, s: seq<nat>, x: nat, t: nat)
    requires Unneeded(g, rev, s + [x], t)
    ensures Unneeded(g, rev, s, t)
  {
    hide Deps;
    assert forall y | y in Elements(s) :: y in Elements(s + [x]);
  }

  lemma InsertedAlone(g: Graph, rev: bool, t: nat) returns (k: nat)
    ensures Inserted(g, rev, Grouped(g, rev, []), Grouped(g, rev, [t]), k, t)
  {
    hide IsHigher, Moved;
    assert [] + [t] == [t];
    GroupedSnoc(g, rev, [], t);
    StartImproves(g, rev);
    assert [] + [[t]] == [[t]];
    MovedStep(g, rev, [[t]], 0);
    k := 0;
  }

  lemma InsertedSnoc(g: Graph, rev: bool, t: nat, s: seq<nat>, x: nat, k: nat) returns (k2: nat)
    requires g.PositiveSizes() && t in g.used && Elements(s) <= g.used && Distinct(s) && OrderedFor(g, rev, s)
    requires x in g.used && Unneeded(g, rev, s + [x], t)
    requires Inserted(g, rev, Grouped(g, rev, s), Grouped(g, rev, [t] + s), k, t)
    ensures Inserted(g, rev, Grouped(g, rev, s + [x]), Grouped(g, rev, [t] + s + [x]), k2, t)
  {
    hide Graph.PositiveSizes, Elements, Distinct, OrderedFor, Grouped, Moved, IsHigher, Unneeded, Apart;
    var narrow := Grouped(g, rev, s);
    var groups := narrow + [[x]];
    GroupedSnoc(g, rev, s, x);
    GroupedSnoc(g, rev, [t] + s, x);
    assert With(groups, k, t) == With(narrow, k, t) + [[x]];
    GroupedApart(g, rev, t, s, x);
    assert forall j | 0 <= j < |narrow| :: groups[j] == narrow[j];
    k2 := MovedBehind(g, rev, groups, k, t, |narrow|);
  }

  lemma GroupedApart(g: Graph, rev: bool, t: nat, s: seq<nat>, x: nat)
    requires g.PositiveSizes() && Elements(s) <= g.used && Distinct(s) && OrderedFor(g, rev, s)
    requires Unneeded(g, rev, s + [x], t) && x in g.used
    ensures Apart(g, rev, Grouped(g, rev, s) + [[x]], t)
  {
    hide Graph.PositiveSizes, Distinct, OrderedFor, Grouped, Deps, Rates, Dominates, Flatten;
    GroupedImproves(g, rev, s);
    var groups := Grouped(g, rev, s);
    InFlatten(g, rev, groups, s);
    forall j | 0 <= j < |groups| + 1
      ensures GroupApart(g, rev, (groups + [[x]])[j], t)
    {
      var grp := (groups + [[x]])[j];
      assert Elements(grp) <= Elements(s + [x]) by {
        DistinctConcat(s, [x]);
        assert j < |groups| ==> grp == groups[j];
      }
      assert grp != [];
    }
  }

  // ----- the diagram of the inserted leaf -----

  /** Groups without excess show no peak. */
  lemma {:induction false} NoPeak(g: Graph, rev: bool, groups: seq<seq<nat>>, p: int, q: int)
    requires AllTight(g, rev, groups) && q > 0
    requires forall j | 0 <= j < |groups| :: Sum(Rates(g, rev, groups[j])).Excess(p, q) <= 0
    ensures Peak(Rates(g, rev, Flatten(groups)), p, q) == 0
    decreases |groups|
  {
    hide Sum, FeeFrac.Excess, Rate;
    if groups == [] {
      PeakStep(Rates(g, rev, []), p, q);
    } else {
      hide Rates, Peak;
      NoPeak(g, rev, groups[1..], p, q);
      RatesConcat(g, rev, groups[0], Flatten(groups[1..]));
      PeakConcat(Rates(g, rev, groups[0]), Rates(g, rev, Flatten(groups[1..])), p, q);
      assert Tight(Rates(g, rev, groups[0]));
    }
  }

  /** Moving t up before groups that are not higher lowers no point of the diagram. */
  lemma LeafUp(g: Graph, rev: bool, groups: seq<seq<nat>>, t: nat)
    requires g.PositiveSizes() && t in g.used && AllTight(g, rev, groups) && Apart(g, rev, groups, t)
    requires forall j | 0 <= j < |groups| :: !IsHigher(g, rev, groups[j], t)
    ensures Dominates(Rates(g, rev, [t] + Flatten(groups)), Rates(g, rev, Flatten(groups) + [t]))
  {
    hide Graph.PositiveSizes, AllTight, Sum, Rates, Rate, FeeFrac.Higher, FeeFrac.Excess, GroupApart, Peak, Flatten;
    var one, rest := Rates(g, rev, [t]), Rates(g, rev, Flatten(groups));
    RatesConcat(g, rev, [t], Flatten(groups));
    RatesConcat(g, rev, Flatten(groups), [t]);
    forall p: int, q: int | q > 0
      ensures Peak(Rates(g, rev, [t] + Flatten(groups)), p, q) >= Peak(Rates(g, rev, Flatten(groups) + [t]), p, q)
    {
      PeakConcat(one, rest, p, q);
      PeakConcat(rest, one, p, q);
      PeakPrefix(rest, |rest|, p, q);
      assert rest[..|rest|] == rest;
      PeakPrefix(rest, 0, p, q);
      SumStep(rest[..0]);
      EmptyExcess(p, q);
      LeafPeak(g, rev, t, p, q);
      if Rate(g, rev, t).Excess(p, q) < 0 {
        forall j | 0 <= j < |groups|
          ensures Sum(Rates(g, rev, groups[j])).Excess(p, q) <= 0
        {
          ApartFacts(g, rev, groups[j], t);
          assert !IsHigher(g, rev, groups[j], t);
          ExcessSign(Sum(Rates(g, rev, groups[j])), Rate(g, rev, t), p, q);
        }
        NoPeak(g, rev, groups, p, q);
      }
    }
  }

  lemma LeafPeak(g: Graph, rev: bool, t: nat, p: int, q: int)
    ensures Sum(Rates(g, rev, [t])) == Rate(g, rev, t)
    ensures Peak(Rates(g, rev, [t]), p, q) == Max(0, Rate(g, rev, t).Excess(p, q))
  {
    assert Rates(g, rev, [t]) == [Rate(g, rev, t)];
    SumStep(Rates(g, rev, [t]));
    PeakStep(Rates(g, rev, [t]), p, q);
  }

  /** Read first, t ends up no worse than read last. */
  lemma FirstAsLast(g: Graph, rev: bool, t: nat, s: seq<nat>)
    requires g.PositiveSizes() && t in g.used && Elements(s) <= g.used
    requires Distinct([t] + s) && OrderedFor(g, rev, [t] + s) && Unneeded(g, rev, s, t)
    ensures Improves(g, rev, Grouped(g, rev, [t] + s), s + [t]) && AllTight(g, rev, Grouped(g, rev, [t] + s))
  {
    hide Graph.PositiveSizes, Elements, Distinct, OrderedFor, Deps, Grouped, Dominates, Flatten, Rates, Unneeded;
    DistinctConcat([t], s);
    DistinctConcat(s, [t]);
    SingletonDistinct(t);
    OrderedConcat(g, rev, [t], s);
    GroupedImproves(g, rev, [t] + s);
    GroupedImproves(g, rev, s);
    var k := GroupedInserted(g, rev, t, s);
    InsertedDominates(g, rev, t, s, k);
    assert Elements(s + [t]) == Elements([t] + s);
  }

  lemma InsertedDominates(g: Graph, rev: bool, t: nat, s: seq<nat>, k: nat)
    requires g.PositiveSizes() && t in g.used && Elements(s) <= g.used && Distinct(s) && OrderedFor(g, rev, s)
    requires Unneeded(g, rev, s, t) && Improves(g, rev, Grouped(g, rev, s), s) && AllTight(g, rev, Grouped(g, rev, s))
    requires Inserted(g, rev, Grouped(g, rev, s), Grouped(g, rev, [t] + s), k, t)
    ensures Dominates(Rates(g, rev, Flatten(Grouped(g, rev, [t] + s))), Rates(g, rev, s + [t]))
  {
    hide Graph.PositiveSizes, Elements, Distinct, OrderedFor, Deps, Grouped, Dominates, Flatten, Rates, IsHigher,
         GroupApart, Unneeded;
    var groups := Grouped(g, rev, s);
    var pre, post := groups[..k], groups[k..];
    assert groups == pre + post;
    FlattenConcat(pre, post);
    FlattenConcat(pre + [[t]], post);
    FlattenConcat(pre, [[t]]);
    FlattenOne([t]);
    var a, b := Flatten(pre), Flatten(post);
    SomeApart(g, rev, t, s);
    LeafUp(g, rev, post, t);
    var none: seq<FeeFrac> := [];
    SameTotal(g, rev, [t], b);
    SameRates(g, rev, a + b, s);
    DominatesInContext(Rates(g, rev, a), Rates(g, rev, [t] + b), Rates(g, rev, b + [t]), none);
    DominatesInContext(none, Rates(g, rev, a + b), Rates(g, rev, s), Rates(g, rev, [t]));
    RatesConcat(g, rev, a, [t] + b);
    RatesConcat(g, rev, a, b + [t]);
    RatesConcat(g, rev, a + b, [t]);
    RatesConcat(g, rev, s, [t]);
    assert a + [t] + b == a + ([t] + b) && a + b + [t] == a + (b + [t]);
    assert none + Rates(g, rev, a + b) == Rates(g, rev, a + b) && none + Rates(g, rev, s) == Rates(g, rev, s);
    assert Rates(g, rev, a) + Rates(g, rev, [t] + b) + none == Rates(g, rev, a + ([t] + b));
    assert Rates(g, rev, a) + Rates(g, rev, b + [t]) + none == Rates(g, rev, a + (b + [t]));
    DominatesTransitive(Rates(g, rev, a + [t] + b), Rates(g, rev, a + b + [t]), Rates(g, rev, s + [t]));
  }

  lemma SameTotal(g: Graph, rev: bool, a: seq<nat>, b: seq<nat>)
    ensures Sum(Rates(g, rev, a + b)) == Sum(Rates(g, rev, b + a))
  {
    hide Sum, Rates;
    RatesConcat(g, rev, a, b);
    RatesConcat(g, rev, b, a);
    SumConcat(Rates(g, rev, a), Rates(g, rev, b));
    SumConcat(Rates(g, rev, b), Rates(g, rev, a));
  }

  lemma SomeApart(g: Graph, rev: bool, t: nat, s: seq<nat>)
    requires g.PositiveSizes() && t in g.used && Elements(s) <= g.used && Distinct(s) && OrderedFor(g, rev, s)
    requires Unneeded(g, rev, s, t)
    ensures Apart(g, rev, Grouped(g, rev, s), t)
  {
    hide Graph.PositiveSizes, Distinct, OrderedFor, Grouped, Deps, Rates, Dominates, Flatten;
    GroupedImproves(g, rev, s);
    var groups := Grouped(g, rev, s);
    InFlatten(g, rev, groups, s);
    forall j | 0 <= j < |groups|
      ensures GroupApart(g, rev, groups[j], t)
    {
      assert groups[j] != [];
    }
  }

  /** What has been read may stand for another order of it when the pass goes on. */
  lemma {:induction false} GoesOn(g: Graph, rev: bool, first: seq<nat>, alt: seq<nat>, rest: seq<nat>)
    requires g.PositiveSizes() && Elements(alt + rest) <= g.used && Distinct(alt + rest)
             && OrderedFor(g, rev, alt + rest)
    requires Improves(g, rev, Grouped(g, rev, first), alt) && AllTight(g, rev, Grouped(g, rev, first))
    ensures Improves(g, rev, Grouped(g, rev, first + rest), alt + rest)
    ensures AllTight(g, rev, Grouped(g, rev, first + rest))
    decreases |rest|
  {
    hide Graph.PositiveSizes, Elements, Distinct, OrderedFor, Grouped, Improves, AllTight, Moved;
    if rest == [] {
      assert first + rest == first && alt + rest == alt;
    } else {
      var n := |rest| - 1;
      var before, idx := Unsnoc(g, rev, alt + rest);
      LastOf(alt, rest, before, idx);
      assert first + rest == first + rest[..n] + [idx];
      GoesOn(g, rev, first, alt, rest[..n]);
      GroupedSnoc(g, rev, first + rest[..n], idx);
      var groups := Grouped(g, rev, first + rest[..n]);
      ImproveAppend(g, rev, groups, before, idx);
      MovedImproves(g, rev, groups + [[idx]], alt + rest, |groups|);
    }
  }

  lemma LastOf(a: seq<nat>, b: seq<nat>, before: seq<nat>, x: nat)
    requires b != [] && a + b == before + [x] && |before| == |a + b| - 1
    ensures before == a + b[..|b| - 1] && x == b[|b| - 1]
  {
    var all := a + b;
    assert before == all[..|all| - 1] && x == all[|all| - 1];
  }

  // ----- the guarantee -----

  lemma ReversedConcat<T>(a: seq<T>, b: seq<T>)
    ensures Reversed(a + b) == Reversed(b) + Reversed(a)
  {
  }

  lemma ReversedElements<T>(s: seq<T>)
    ensures Elements(Reversed(s)) == Elements(s)
  {
    forall x | x in Elements(s)
      ensures x in Elements(Reversed(s))
    {
      var i :| 0 <= i < |s| && s[i] == x;
      assert Reversed(s)[|s| - 1 - i] == x;
    }
  }

  /** t has no descendants but itself. */
  ghost predicate IsLeaf(g: Graph, t: nat) {
    t in g.used && g.Descendants(t) == {t}
  }

  /** A leaf may stand last. */
  lemma LeafLast(g: Graph, a: seq<nat>, t: nat, b: seq<nat>)
    requires g.Valid() && IsLeaf(g, t) && Elements(a + [t] + b) <= g.used
    requires Distinct(a + [t] + b) && g.TopoOrdered(a + [t] + b)
    ensures Elements(a + b + [t]) == Elements(a + [t] + b) && Distinct(a + b + [t]) && g.TopoOrdered(a + b + [t])
    ensures Unneeded(g, true, Reversed(b), t) && Elements(Reversed(b)) <= g.used
  {
    hide Distinct, Graph.TopoOrdered, Elements, Graph.StoresClosure;
    SingletonDistinct(t);
    DistinctConcat(a, [t]);
    DistinctConcat(a + [t], b);
    DistinctConcat(a, b);
    DistinctConcat(a + b, [t]);
    TopoConcat(g, a, [t]);
    TopoConcat(g, a + [t], b);
    TopoConcat(g, a, b);
    TopoConcat(g, a + b, [t]);
    ReversedElements(b);
    assert Elements(a + b + [t]) == Elements(a + [t] + b);
    LeafBehind(g, a, t, b);
  }

  lemma LeafBehind(g: Graph, a: seq<nat>, t: nat, b: seq<nat>)
    requires g.Valid() && IsLeaf(g, t) && Elements(a + [t] + b) <= g.used
    requires Distinct(a + [t] + b) && g.TopoOrdered(a + [t] + b)
    ensures forall x | x in a + b :: t !in g.Ancestors(x)
    ensures forall x | x in Elements(b) :: t !in g.Descendants(x)
    ensures g.TopoOrdered(a + b) && g.TopoOrdered([t])
  {
    hide Distinct, Graph.TopoOrdered;
    var lin := a + [t] + b;
    assert forall i | 0 <= i < |a| :: lin[i] == a[i];
    assert forall i | 0 <= i < |b| :: lin[|a| + 1 + i] == b[i];
    SingletonDistinct(t);
    DistinctConcat(a, [t]);
    DistinctConcat(a + [t], b);
    forall x | x in a + b
      ensures t !in g.Ancestors(x)
    {
      assert x in lin && x in Elements(lin) && (x in Elements(a) || x in Elements(b));
      assert t in g.Ancestors(x) ==> x in g.Descendants(t);
    }
    TopoConcat(g, a, [t]);
    TopoConcat(g, a + [t], b);
    TopoConcat(g, a, b);
    forall x | x in Elements(b)
      ensures t !in g.Descendants(x)
    {
      assert x in Elements(lin);
      assert t in a + [t] && x in b;
      assert t in g.Descendants(x) ==> x in g.Ancestors(t);
    }
  }

  /** A backward pass takes a leaf at the end at least to where it was. */
  lemma LeafComesBack(g: Graph, a: seq<nat>, t: nat, b: seq<nat>)
    requires g.Valid() && g.PositiveSizes() && IsLeaf(g, t) && Elements(a + [t] + b) <= g.used
    requires Distinct(a + [t] + b) && g.TopoOrdered(a + [t] + b)
    ensures Dominates(g.Fees(Passed(g, true, a + b + [t])), g.Fees(a + [t] + b))
  {
    hide Distinct, Graph.TopoOrdered, Elements, Graph.StoresClosure, Graph.PositiveSizes, Reversed, OrderedFor, Grouped,
         Graph.Fees, Dominates, Flatten, Rates, IsLeaf, Unneeded, AllTight;
    LeafLast(g, a, t, b);
    var lin, was := a + b + [t], a + [t] + b;
    var ra, rb := Reversed(a), Reversed(b);
    ReadOrderFacts(g, true, lin);
    ReadOrderFacts(g, true, was);
    ReversedOrders(a, t, b);
    assert ReadOrder(true, lin) == ([t] + rb) + ra && ReadOrder(true, was) == (rb + [t]) + ra;
    DistinctConcat([t] + rb, ra);
    OrderedConcat(g, true, [t] + rb, ra);
    IsLeafUsed(g, t);
    FirstAsLast(g, true, t, rb);
    GoesOn(g, true, [t] + rb, rb + [t], ra);
    ReadBack(g, true, was, Flatten(Grouped(g, true, ([t] + rb) + ra)));
  }

  lemma IsLeafUsed(g: Graph, t: nat)
    requires IsLeaf(g, t)
    ensures t in g.used
  {
  }

  lemma ReversedOrders(a: seq<nat>, t: nat, b: seq<nat>)
    ensures Reversed(a + b + [t]) == ([t] + Reversed(b)) + Reversed(a)
    ensures Reversed(a + [t] + b) == (Reversed(b) + [t]) + Reversed(a)
  {
    hide Reversed;
    ReversedConcat(a + b, [t]);
    ReversedConcat(a, b);
    ReversedConcat(a + [t], b);
    ReversedConcat(a, [t]);
    assert Reversed([t]) == [t] by { ReversedOne(t); }
    assert Reversed(b) + ([t] + Reversed(a)) == (Reversed(b) + [t]) + Reversed(a);
    assert [t] + (Reversed(b) + Reversed(a)) == ([t] + Reversed(b)) + Reversed(a);
  }

  lemma ReversedOne(t: nat)
    ensures Reversed([t]) == [t]
  {
  }

  /** h is g with the fee of t possibly raised. */
  ghost predicate Raised(g: Graph, h: Graph, t: nat) {
    && h.Valid() && h.PositiveSizes() && h.used == g.used
    && (forall i | i in g.used :: h.Ancestors(i) == g.Ancestors(i) && h.Descendants(i) == g.Descendants(i))
    && (forall i | i in g.used && i != t :: h.FeeRate(i) == g.FeeRate(i))
    && h.FeeRate(t).size == g.FeeRate(t).size && h.FeeRate(t).fee >= g.FeeRate(t).fee
  }

  lemma {:induction false} RaisedPeak(g: Graph, h: Graph, t: nat, lin: seq<nat>, p: int, q: int)
    requires Raised(g, h, t) && Elements(lin) <= g.used && q > 0
    ensures Peak(h.Fees(lin), p, q) >= Peak(g.Fees(lin), p, q)
  {
    hide Peak, FeeFrac.Excess;
    PeakStep(h.Fees(lin), p, q);
    PeakStep(g.Fees(lin), p, q);
    if lin != [] {
      assert h.Fees(lin)[1..] == h.Fees(lin[1..]) && g.Fees(lin)[1..] == g.Fees(lin[1..]);
      assert lin[0] in Elements(lin) && Elements(lin[1..]) <= Elements(lin);
      RaisedPeak(g, h, t, lin[1..], p, q);
      RaisedExcess(g.FeeRate(lin[0]), h.FeeRate(lin[0]), p, q);
    }
  }

  lemma RaisedExcess(f: FeeFrac, f2: FeeFrac, p: int, q: int)
    requires f2.size == f.size && f2.fee >= f.fee && q > 0
    ensures f2.Excess(p, q) >= f.Excess(p, q)
  {
    assert q * f2.fee >= q * f.fee;
  }

  /** Moving a leaf to the end, raising its fee or not, and improving the result in place
      gives a linearization nowhere below the one before. */
  lemma MovedLeaf(g: Graph, h: Graph, a: seq<nat>, t: nat, b: seq<nat>)
    requires g.Valid() && g.PositiveSizes() && IsLeaf(g, t) && Raised(g, h, t)
    requires Elements(a + [t] + b) <= g.used && Distinct(a + [t] + b) && g.TopoOrdered(a + [t] + b)
    ensures Distinct(a + b + [t]) && Elements(a + b + [t]) <= h.used && h.TopoOrdered(a + b + [t])
    ensures Dominates(h.Fees(PostLinearized(h, a + b + [t])), g.Fees(a + [t] + b))
  {
    hide Distinct, Elements, Graph.StoresClosure, Graph.PositiveSizes, Graph.Fees, Dominates, Passed, Peak;
    var lin, was := a + b + [t], a + [t] + b;
    RaisedOrder(g, h, t, was);
    LeafLast(h, a, t, b);
    LeafComesBack(h, a, t, b);
    PassedFacts(h, true, lin);
    PassedFacts(h, false, Passed(h, true, lin));
    RaisedDominates(g, h, t, was);
    DominatesTransitive(h.Fees(PostLinearized(h, lin)), h.Fees(Passed(h, true, lin)), h.Fees(was));
    DominatesTransitive(h.Fees(PostLinearized(h, lin)), h.Fees(was), g.Fees(was));
  }

  lemma RaisedOrder(g: Graph, h: Graph, t: nat, lin: seq<nat>)
    requires Raised(g, h, t) && Elements(lin) <= g.used && g.TopoOrdered(lin)
    ensures h.TopoOrdered(lin) && (IsLeaf(g, t) ==> IsLeaf(h, t))
  {
    hide Graph.StoresClosure, Graph.PositiveSizes;
    forall i, j | 0 <= i < j < |lin|
      ensures lin[j] !in h.Ancestors(lin[i])
    {
      assert lin[i] in Elements(lin);
    }
  }

  lemma RaisedDominates(g: Graph, h: Graph, t: nat, lin: seq<nat>)
    requires Raised(g, h, t) && Elements(lin) <= g.used
    ensures Dominates(h.Fees(lin), g.Fees(lin))
  {
    hide Peak, Raised, Graph.Fees;
    forall p: int, q: int | q > 0
      ensures Peak(h.Fees(lin), p, q) >= Peak(g.Fees(lin), p, q)
    {
      RaisedPeak(g, h, t, lin, p, q);
    }
  }
}
