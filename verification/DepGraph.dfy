/** The dependency graph of a cluster (src/cluster_linearize.h), kept as transitive
    closures: every transaction stores all its ancestors and all its descendants. */
module DepGraphs {
  import opened Collections
  import opened FeeFracs
  import opened Diagrams
  import opened NatSets

  /** Fee and size of a transaction, and its ancestors and descendants, itself included. */
  datatype Entry = Entry(feerate: FeeFrac, ancestors: set<nat>, descendants: set<nat>)

  /** The contents of a dependency graph. Positions outside used are holes. */
  datatype Graph = Graph(entries: seq<Entry>, used: set<nat>) {

    function FeeRate(i: nat): FeeFrac {
      if i < |entries| then entries[i].feerate else EMPTY
    }

    function Ancestors(i: nat): set<nat> {
      if i < |entries| then entries[i].ancestors else {}
    }

    function Descendants(i: nat): set<nat> {
      if i < |entries| then entries[i].descendants else {}
    }

    ghost predicate InRange() {
      forall i | i in used :: i < |entries|
    }

    ghost predicate Reflexive() {
      && (forall i | i in used :: i in Ancestors(i))
      && (forall i, a {:trigger a in Ancestors(i)} | i in used && a in Ancestors(i) :: a in used)
      && (forall i, d {:trigger d in Descendants(i)} | i in used && d in Descendants(i) :: d in used)
    }

    ghost predicate Inverse() {
      && (forall i, j {:trigger j in Ancestors(i)} | i in used && j in Ancestors(i) :: i in Descendants(j))
      && (forall i, j {:trigger j in Descendants(i)} | i in used && j in Descendants(i) :: i in Ancestors(j))
    }

    ghost predicate Transitive() {
      forall i, j, a {:trigger j in Ancestors(i), a in Ancestors(j)} |
        i in used && j in Ancestors(i) && a in Ancestors(j) :: a in Ancestors(i)
    }

    ghost predicate StoresClosure() {
      InRange() && Reflexive() && Inverse() && Transitive()
    }

    /** Ancestry is reflexive and transitive, and descent is its inverse. */
    ghost predicate Valid() {
      StoresClosure()
    }

    ghost predicate Acyclic() {
      forall i, j | i in used && j in Ancestors(i) && i != j :: i !in Ancestors(j)
    }

    /** Wherever two transactions are each other's ancestors, they have no further ones. */
    ghost predicate PairsOnly() {
      forall i, j {:trigger i in Ancestors(j), j in Ancestors(i)} |
        i in used && j in Ancestors(i) && i != j && i in Ancestors(j) :: Ancestors(i) == {i, j}
    }

    ghost predicate PositiveSizes() {
      forall i | i in used :: FeeRate(i).size > 0
    }

    /** A cluster as linearization algorithms take it. */
    ghost predicate Cluster() {
      Valid() && Acyclic() && PositiveSizes()
    }

    /** The total fee and size of a set of transactions. */
    ghost function SetFee(s: set<nat>): FeeFrac
      decreases |s|
    {
      if s == {} then EMPTY
      else FeeRate(First(s)).Plus(SetFee(s - {First(s)}))
    }

    /** The fee/size pairs of a list of transactions. */
    ghost function Fees(lin: seq<nat>): seq<FeeFrac> {
      seq(|lin|, i requires 0 <= i < |lin| => FeeRate(lin[i]))
    }

    /** s contains, with each of its transactions, that transaction's ancestors in todo. */
    ghost predicate Topological(s: set<nat>, todo: set<nat>) {
      s <= todo && forall i | i in s :: Ancestors(i) * todo <= s
    }

    /** No transaction comes before one of its ancestors. */
    ghost predicate TopoOrdered(lin: seq<nat>) {
      forall i, j | 0 <= i < j < |lin| :: lin[j] !in Ancestors(lin[i])
    }

    /** lin lists exactly the transactions of todo, each once, ancestors first. */
    ghost predicate IsLinearization(lin: seq<nat>, todo: set<nat>) {
      Elements(lin) == todo && Distinct(lin) && TopoOrdered(lin)
    }

    // ----- fees of sets and lists -----

    lemma {:induction false} SetFeeRemove(s: set<nat>, x: nat)
      requires x in s
      ensures SetFee(s) == FeeRate(x).Plus(SetFee(s - {x}))
      decreases |s|
    {
      var m := First(s);
      if x != m {
        SetFeeRemove(s - {m}, x);
        assert s - {m} - {x} == s - {x} - {m};
        assert m in s - {x};
        assert First(s - {x}) == m;
      }
    }

    lemma SetFeeAdd(s: set<nat>, x: nat)
      requires x !in s
      ensures SetFee(s + {x}) == FeeRate(x).Plus(SetFee(s))
    {
      SetFeeRemove(s + {x}, x);
      assert s + {x} - {x} == s;
    }

    lemma {:induction false} SetFeeUnion(a: set<nat>, b: set<nat>)
      requires a !! b
      ensures SetFee(a + b) == SetFee(a).Plus(SetFee(b))
      decreases |a|
    {
      hide SetFee;
      if a == {} {
        assert a + b == b;
        SetFeeEmpty();
      } else {
        var x :| x in a;
        SetFeeUnion(a - {x}, b);
        SetFeeMove(a, b, x);
      }
    }

    lemma SetFeeEmpty()
      ensures SetFee({}) == EMPTY
    {
    }

    lemma SetFeeMove(a: set<nat>, b: set<nat>, x: nat)
      requires x in a && a !! b
      ensures SetFee(a + b) == FeeRate(x).Plus(SetFee(a - {x} + b))
      ensures SetFee(a) == FeeRate(x).Plus(SetFee(a - {x}))
    {
      hide SetFee;
      SetFeeRemove(a, x);
      SetFeeRemove(a + b, x);
      assert a + b - {x} == a - {x} + b;
    }

    lemma SetFeeSplit(s: set<nat>, t: set<nat>)
      ensures SetFee(s) == SetFee(s * t).Plus(SetFee(s - t))
    {
      SetFeeUnion(s * t, s - t);
      assert s == s * t + (s - t);
    }

    lemma {:induction false} SetFeePositive(s: set<nat>)
      requires PositiveSizes() && s <= used
      ensures SetFee(s).size >= 0 && (SetFee(s).size == 0 <==> s == {})
      ensures s == {} ==> SetFee(s) == EMPTY
      decreases |s|
    {
      if s != {} {
        SetFeePositive(s - {First(s)});
      }
    }

    lemma FeesConcat(a: seq<nat>, b: seq<nat>)
      ensures Fees(a + b) == Fees(a) + Fees(b)
    {
    }

    lemma {:induction false} SumIsSetFee(lin: seq<nat>)
      requires Distinct(lin)
      ensures Sum(Fees(lin)) == SetFee(Elements(lin))
    {
      SumStep(Fees(lin));
      if lin != [] {
        SumIsSetFee(lin[1..]);
        assert Fees(lin)[1..] == Fees(lin[1..]);
        SetFeeRemove(Elements(lin), lin[0]);
        assert Elements(lin) - {lin[0]} == Elements(lin[1..]);
      }
    }

    lemma FeesPositive(lin: seq<nat>)
      requires PositiveSizes() && Elements(lin) <= used
      ensures Positive(Fees(lin))
    {
      forall i | 0 <= i < |lin|
        ensures Fees(lin)[i].size > 0
      {
        assert lin[i] in Elements(lin);
      }
    }

    // ----- topological sets -----

    lemma TopologicalMeet(a: set<nat>, b: set<nat>, todo: set<nat>)
      requires Topological(a, todo) && Topological(b, todo)
      ensures Topological(a * b, todo) && Topological(a + b, todo)
    {
    }

    /** The set of a prefix of a linearization of todo is topological in todo. */
    lemma PrefixTopological(lin: seq<nat>, k: nat, todo: set<nat>)
      requires IsLinearization(lin, todo) && k <= |lin|
      ensures Topological(Elements(lin[..k]), todo)
    {
      forall x, y | x in Elements(lin[..k]) && y in Ancestors(x) * todo
        ensures y in Elements(lin[..k])
      {
        var i :| 0 <= i < k && lin[i] == x;
        var j :| 0 <= j < |lin| && lin[j] == y;
        assert forall m | i < m < |lin| :: lin[m] !in Ancestors(lin[i]);
        assert j < k;
        assert lin[..k][j] == y;
      }
    }
  }

  /** The fee-weighted sum a loop computes is that of the set. */
  method SumFeeRates(g: Graph, elems: set<nat>) returns (r: FeeFrac)
    ensures r == g.SetFee(elems)
  {
    r := EMPTY;
    var rest := elems;
    assert elems - rest == {};
    while rest != {}
      invariant rest <= elems
      invariant r == g.SetFee(elems - rest)
    {
      var pos := First(rest);
      r := r.Plus(g.FeeRate(pos));
      assert elems - (rest - {pos}) - {pos} == elems - rest;
      g.SetFeeRemove(elems - (rest - {pos}), pos);
      rest := rest - {pos};
    }
    assert elems - rest == elems;
  }

  /** Every member of all is an ancestor of a member of parents. */
  ghost predicate Covers(g: Graph, parents: set<nat>, all: set<nat>) {
    forall a | a in all :: exists p :: p in parents && a in g.Ancestors(p)
  }

  /** No member of s is an ancestor of another one in s that is also in t. */
  ghost predicate NoneBelow(g: Graph, s: set<nat>, t: set<nat>) {
    forall p, q {:trigger p in g.Ancestors(q)} | p in s && q in s && q in t && p != q :: p !in g.Ancestors(q)
  }

  /** Midway through reducing all: todo is still to be considered. */
  ghost predicate Reducing(g: Graph, all: set<nat>, parents: set<nat>, todo: set<nat>) {
    && parents <= all && todo <= all
    && Covers(g, parents, all)
    && NoneBelow(g, parents, all - todo)
  }

  /** What is kept of all: the positions that no other one of all is above, and of those that
      are each other's ancestors the first. */
  ghost function Reduced(g: Graph, all: set<nat>): set<nat> {
    set p | p in all && forall q | q in all && p in g.Ancestors(q) :: q in g.Ancestors(p) && p <= q
  }

  /** Midway through reducing all in the order of positions: what was dropped is below what is
      kept for good, and no earlier position is in a cycle with one kept. */
  ghost predicate FirstKept(g: Graph, all: set<nat>, parents: set<nat>, todo: set<nat>) {
    && Covers(g, parents - todo, all - parents)
    && FirstOfCycles(g, parents, all - todo)
    && (forall x, y | x in todo && y in all - todo :: y < x)
  }

  /** No member of parents comes after one of seen that it is in a cycle with. */
  ghost predicate FirstOfCycles(g: Graph, parents: set<nat>, seen: set<nat>) {
    forall p, q {:trigger p in g.Ancestors(q)} |
      p in parents && q in seen && p in g.Ancestors(q) && q in g.Ancestors(p) :: p <= q
  }

  lemma StillCovered(g: Graph, all: set<nat>, parents: set<nat>, todo: set<nat>, x: nat)
    requires g.Valid() && all <= g.used && parents <= all && Covers(g, parents - todo, all - parents)
    requires x in parents && x in todo
    ensures var kept := parents - g.Ancestors(x) + {x}; Covers(g, kept - (todo - {x}), all - kept)
  {
    var kept := parents - g.Ancestors(x) + {x};
    assert x in kept - (todo - {x});
    forall a | a in all - kept && a !in g.Ancestors(x)
      ensures exists r :: r in kept - (todo - {x}) && a in g.Ancestors(r)
    {
      assert a in all - parents;
      var r :| r in parents - todo && a in g.Ancestors(r);
      assert r !in g.Ancestors(x);
    }
  }

  lemma NotBelowSeen(g: Graph, all: set<nat>, parents: set<nat>, todo: set<nat>, p: nat, q: nat)
    requires g.Valid() && all <= g.used && parents <= all && Covers(g, parents - todo, all - parents)
    requires NoneBelow(g, parents, all - todo) && q in all && (q in parents ==> q !in todo)
    requires p in parents && p in todo
    ensures p !in g.Ancestors(q)
  {
    hide NoneBelow;
    if p in g.Ancestors(q) {
      if q in parents {
        OnlyItself(g, parents, all - todo, p, q);
      } else {
        assert q in all - parents;
        var r :| r in parents - todo && q in g.Ancestors(r);
        OnlyItself(g, parents, all - todo, p, r);
      }
    }
  }

  lemma OnlyItself(g: Graph, s: set<nat>, t: set<nat>, p: nat, q: nat)
    requires NoneBelow(g, s, t) && p in s && q in s && q in t && p in g.Ancestors(q)
    ensures p == q
  {
  }

  lemma FirstKeptStep(g: Graph, all: set<nat>, parents: set<nat>, todo: set<nat>, x: nat)
    requires g.Valid() && all <= g.used && Reducing(g, all, parents, todo) && FirstKept(g, all, parents, todo)
    requires x in todo && forall y | y in todo :: x <= y
    ensures x !in parents ==> FirstKept(g, all, parents, todo - {x})
    ensures x in parents ==> FirstKept(g, all, parents - g.Ancestors(x) + {x}, todo - {x})
  {
    hide Covers, NoneBelow, Graph.Valid, FirstOfCycles;
    EarlierSeen(all, todo, x);
    if x in parents {
      StillCovered(g, all, parents, todo, x);
      forall q | q in all - todo
        ensures x !in g.Ancestors(q)
      {
        NotBelowSeen(g, all, parents, todo, x, q);
      }
      FirstWithKept(g, parents, all - todo, x);
    } else {
      assert parents - (todo - {x}) == parents - todo;
      forall p | p in parents && p in todo
        ensures p !in g.Ancestors(x)
      {
        NotBelowSeen(g, all, parents, todo, p, x);
      }
      assert forall p | p in parents && p !in todo :: p in all - todo;
      FirstWithSeen(g, parents, all - todo, x);
    }
  }

  lemma EarlierSeen(all: set<nat>, todo: set<nat>, x: nat)
    requires x in todo && todo <= all && (forall y | y in todo :: x <= y)
    requires forall t, y | t in todo && y in all - todo :: y < t
    ensures all - (todo - {x}) == all - todo + {x}
    ensures forall t, y | t in todo - {x} && y in all - (todo - {x}) :: y < t
  {
  }

  lemma FirstWithKept(g: Graph, parents: set<nat>, seen: set<nat>, x: nat)
    requires FirstOfCycles(g, parents, seen) && forall q | q in seen :: x !in g.Ancestors(q)
    ensures FirstOfCycles(g, parents - g.Ancestors(x) + {x}, seen + {x})
  {
  }

  lemma FirstWithSeen(g: Graph, parents: set<nat>, seen: set<nat>, x: nat)
    requires FirstOfCycles(g, parents, seen)
    requires forall p | p in parents && p in g.Ancestors(x) :: p <= x
    ensures FirstOfCycles(g, parents, seen + {x})
  {
  }

  lemma FirstKeptIsReduced(g: Graph, all: set<nat>, parents: set<nat>)
    requires g.Valid() && all <= g.used && Reducing(g, all, parents, {}) && FirstKept(g, all, parents, {})
    ensures parents <= all && Covers(g, parents, all) && NoneBelow(g, parents, parents)
    ensures parents == Reduced(g, all)
  {
    NoneBelowKept(g, all, parents);
    hide NoneBelow, Reduced, Covers, Graph.Valid;
    assert parents - {} == parents && all - {} == all;
    forall p | p in parents
      ensures p in Reduced(g, all)
    {
      KeptIsReduced(g, all, parents, p);
    }
    forall p | p in Reduced(g, all)
      ensures p in parents
    {
      ReducedIsKept(g, all, parents, p);
    }
  }

  lemma NoneBelowKept(g: Graph, all: set<nat>, parents: set<nat>)
    requires NoneBelow(g, parents, all - {}) && parents <= all
    ensures NoneBelow(g, parents, parents)
  {
  }

  lemma KeptIsReduced(g: Graph, all: set<nat>, parents: set<nat>, p: nat)
    requires g.Valid() && all <= g.used && parents <= all && Covers(g, parents, all - parents)
    requires NoneBelow(g, parents, all) && FirstOfCycles(g, parents, all) && p in parents
    ensures p in Reduced(g, all)
  {
    hide NoneBelow;
    forall q | q in all && p in g.Ancestors(q)
      ensures q in g.Ancestors(p) && p <= q
    {
      if q in parents {
        OnlyItself(g, parents, all, p, q);
      } else {
        assert q in all - parents;
        var r :| r in parents && q in g.Ancestors(r);
        OnlyItself(g, parents, all, p, r);
      }
    }
  }

  lemma ReducedIsKept(g: Graph, all: set<nat>, parents: set<nat>, p: nat)
    requires parents <= all && Covers(g, parents, all) && FirstOfCycles(g, parents, all) && p in Reduced(g, all)
    ensures p in parents
  {
    hide FirstOfCycles;
    var r := CoveredBy(g, parents, all, p);
    InOrder(g, parents, all, r, p);
  }

  lemma CoveredBy(g: Graph, parents: set<nat>, all: set<nat>, a: nat) returns (r: nat)
    requires Covers(g, parents, all) && a in all
    ensures r in parents && a in g.Ancestors(r)
  {
    r :| r in parents && a in g.Ancestors(r);
  }

  lemma InOrder(g: Graph, parents: set<nat>, seen: set<nat>, p: nat, q: nat)
    requires FirstOfCycles(g, parents, seen) && p in parents && q in seen
    requires p in g.Ancestors(q) && q in g.Ancestors(p)
    ensures p <= q
  {
  }

  lemma ReduceStep(g: Graph, all: set<nat>, parents: set<nat>, todo: set<nat>, x: nat)
    requires g.Valid() && all <= g.used && Reducing(g, all, parents, todo) && x in todo
    ensures x !in parents ==> Reducing(g, all, parents, todo - {x})
    ensures x in parents ==> Reducing(g, all, parents - g.Ancestors(x) + {x}, todo - {x})
  {
    hide Graph.StoresClosure, Covers;
    if x in parents {
      KeepsCovering(g, all, parents, x);
    }
  }

  /** Drops from all every position that is an ancestor of another one kept. */
  method Reduce(g: Graph, all: set<nat>) returns (parents: set<nat>)
    requires g.Valid() && all <= g.used
    ensures parents <= all
    ensures Covers(g, parents, all)
    ensures NoneBelow(g, parents, parents)
    ensures parents == Reduced(g, all)
  {
    hide Graph.StoresClosure, Covers, FirstKept, Reduced, Reducing, NoneBelow;
    parents := all;
    var todo := all;
    AllKept(g, all);
    while todo != {}
      invariant Reducing(g, all, parents, todo)
      invariant FirstKept(g, all, parents, todo)
      decreases |todo|
    {
      var parent := First(todo);
      ReduceStep(g, all, parents, todo, parent);
      FirstKeptStep(g, all, parents, todo, parent);
      if parent in parents {
        parents := parents - g.Ancestors(parent) + {parent};
      }
      todo := todo - {parent};
    }
    FirstKeptIsReduced(g, all, parents);
  }

  lemma AllKept(g: Graph, all: set<nat>)
    requires g.Valid() && all <= g.used
    ensures Reducing(g, all, all, all) && FirstKept(g, all, all, all)
  {
    CoversItself(g, all);
  }

  /** parents is a minimal set of positions whose ancestors, with i, are all of i's. */
  ghost predicate AreReducedParents(g: Graph, i: nat, parents: set<nat>) {
    && parents <= g.Ancestors(i) - {i}
    && Covers(g, parents, g.Ancestors(i) - {i})
    && NoneBelow(g, parents, parents)
  }

  method GetReducedParents(g: Graph, i: nat) returns (parents: set<nat>)
    requires g.Valid() && i in g.used
    ensures AreReducedParents(g, i, parents)
    ensures parents == Reduced(g, g.Ancestors(i) - {i})
  {
    ValidPosition(g, i);
    parents := Reduce(g, g.Ancestors(i) - {i});
  }

  lemma CoversItself(g: Graph, all: set<nat>)
    requires g.Valid() && all <= g.used
    ensures Covers(g, all, all)
  {
    forall a | a in all
      ensures exists p :: p in all && a in g.Ancestors(p)
    {
      assert a in g.Ancestors(a);
    }
  }

  lemma KeepsCovering(g: Graph, all: set<nat>, parents: set<nat>, parent: nat)
    requires g.Valid() && parent in parents && parents <= g.used && Covers(g, parents, all)
    ensures Covers(g, parents - g.Ancestors(parent) + {parent}, all)
  {
    var kept := parents - g.Ancestors(parent) + {parent};
    forall a | a in all
      ensures exists p :: p in kept && a in g.Ancestors(p)
    {
      var p :| p in parents && a in g.Ancestors(p);
      if p in kept {
      } else {
        assert p in g.Ancestors(parent);
        assert parent in kept && a in g.Ancestors(parent);
      }
    }
  }

  // ----- connected components -----

  ghost predicate Related(g: Graph, a: nat, b: nat) {
    a in g.Ancestors(b) || b in g.Ancestors(a)
  }

  lemma SymmetricRelation(g: Graph)
    ensures forall a, b :: Related(g, a, b) == Related(g, b, a)
  {
  }

  /** No relation leads from s to the rest of todo. */
  ghost predicate ClosedUnderRelated(g: Graph, s: set<nat>, todo: set<nat>) {
    s <= todo && forall a, b {:trigger Related(g, a, b)} | a in s && b in todo && Related(g, a, b) :: b in s
  }

  /** s does not fall into two parts without relations between them. */
  ghost predicate Connected(g: Graph, s: set<nat>) {
    forall c: set<nat> | c != {} && ClosedUnderRelated(g, c, s) :: c == s
  }

  /** All positions related to a member of s. */
  method Neighbours(g: Graph, s: set<nat>) returns (r: set<nat>)
    requires g.Valid() && s <= g.used
    ensures r <= g.used && s <= r
    ensures forall b | b in r :: exists a :: a in s && Related(g, a, b)
    ensures ReachesInto(g, s, g.used, r)
  {
    r := {};
    var rest := s;
    while rest != {}
      invariant rest <= s && r <= g.used && s - rest <= r
      invariant forall b | b in r :: exists a :: a in s && Related(g, a, b)
      invariant forall a, b | a in s - rest && b in g.used && Related(g, a, b) :: b in r
    {
      var x := First(rest);
      assert forall b | b in g.Descendants(x) + g.Ancestors(x) :: Related(g, x, b);
      r := r + g.Descendants(x) + g.Ancestors(x);
      rest := rest - {x};
    }
    assert s - rest == s;
  }

  /** Every position of todo related to a member of s is in t. */
  ghost predicate ReachesInto(g: Graph, s: set<nat>, todo: set<nat>, t: set<nat>) {
    forall a, b {:trigger Related(g, a, b)} | a in s && b in todo && Related(g, a, b) :: b in t
  }

  /** s contains x and is contained in every closed set that does. */
  ghost predicate Necessary(g: Graph, s: set<nat>, x: nat, todo: set<nat>) {
    x in s && forall c | ClosedUnderRelated(g, c, todo) && x in c :: s <= c
  }

  /** Only relations of toAdd may still lead out of ret. */
  ghost predicate Frontier(g: Graph, ret: set<nat>, toAdd: set<nat>, todo: set<nat>) {
    && ret <= todo
    && (toAdd <= ret || ret == {})
    && ReachesInto(g, ret - toAdd, todo, ret)
  }

  /** Midway through growing a component from x: relations of toAdd are not yet followed. */
  ghost predicate Growing(g: Graph, ret: set<nat>, toAdd: set<nat>, x: nat, todo: set<nat>) {
    && toAdd <= todo
    && Frontier(g, ret, toAdd, todo)
    && Necessary(g, ret + toAdd, x, todo)
  }

  lemma GrowStep(g: Graph, ret: set<nat>, toAdd: set<nat>, reached: set<nat>, x: nat, todo: set<nat>)
    requires Growing(g, ret, toAdd, x, todo) && toAdd != {}
    requires todo <= g.used && toAdd <= reached && ReachesInto(g, toAdd, g.used, reached)
    requires forall b | b in reached :: exists a :: a in toAdd && Related(g, a, b)
    ensures var next := ret + reached * todo;
            && Growing(g, next, next - ret, x, todo)
            && Left(todo, next, next - ret) < Left(todo, ret, toAdd)
  {
    hide Related;
    var next := ret + reached * todo;
    assert Necessary(g, next + (next - ret), x, todo) by {
      assert next + (next - ret) == next;
      forall c | ClosedUnderRelated(g, c, todo) && x in c
        ensures next <= c
      {
        assert ret + toAdd <= c;
      }
    }
    assert Frontier(g, next, next - ret, todo);
    hide Necessary, Frontier;
    LeavesLess(todo, ret, toAdd, next);
  }

  lemma GrownIsComponent(g: Graph, ret: set<nat>, x: nat, todo: set<nat>)
    requires Growing(g, ret, {}, x, todo)
    ensures ClosedUnderRelated(g, ret, todo) && Necessary(g, ret, x, todo)
  {
    hide Related;
    assert ret + {} == ret;
  }

  lemma BothClosed(g: Graph, d: set<nat>, c: set<nat>, todo: set<nat>)
    requires ClosedUnderRelated(g, c, todo) && ClosedUnderRelated(g, d, c)
    ensures ClosedUnderRelated(g, d, todo) && ClosedUnderRelated(g, c - d, todo)
  {
    hide Related;
    SymmetricRelation(g);
  }

  /** What is closed and contained in every closed set around x falls into no parts. */
  lemma NecessaryConnected(g: Graph, c: set<nat>, x: nat, todo: set<nat>)
    requires ClosedUnderRelated(g, c, todo) && Necessary(g, c, x, todo)
    ensures Connected(g, c)
  {
    hide Related;
    forall d: set<nat> | d != {} && ClosedUnderRelated(g, d, c)
      ensures d == c
    {
      BothClosed(g, d, c, todo);
    }
  }

  /** The smallest set that contains the first position of todo and is closed under
      relations within todo. */
  method FindConnectedComponent(g: Graph, todo: set<nat>) returns (ret: set<nat>)
    requires g.Valid() && todo <= g.used
    ensures ClosedUnderRelated(g, ret, todo)
    ensures todo != {} ==> Necessary(g, ret, First(todo), todo) && Connected(g, ret)
  {
    hide Graph.StoresClosure, Related, ReachesInto, Frontier, Necessary, Left, Connected;
    if todo == {} {
      return todo;
    }
    var x := First(todo);
    var toAdd := {x};
    ret := {};
    GrowStart(g, x, todo);
    while toAdd != {}
      invariant Growing(g, ret, toAdd, x, todo)
      decreases Left(todo, ret, toAdd)
    {
      var reached := Neighbours(g, toAdd);
      GrowStep(g, ret, toAdd, reached, x, todo);
      var next := ret + reached * todo;
      toAdd := next - ret;
      ret := next;
    }
    GrownIsComponent(g, ret, x, todo);
    NecessaryConnected(g, ret, x, todo);
  }

  ghost function Left(todo: set<nat>, ret: set<nat>, toAdd: set<nat>): nat {
    |todo - ret| + if toAdd == {} then 0 else 1
  }

  lemma LeavesLess(todo: set<nat>, ret: set<nat>, toAdd: set<nat>, next: set<nat>)
    requires ret <= next && next <= todo
    ensures toAdd != {} ==> Left(todo, next, next - ret) < Left(todo, ret, toAdd)
  {
    if next == ret {
      assert next - ret == {};
    } else {
      var x :| x in next && x !in ret;
      assert x in todo - ret && x !in todo - next;
      SmallerSet(todo - next, todo - ret);
    }
  }

  lemma GrowStart(g: Graph, x: nat, todo: set<nat>)
    requires x in todo
    ensures Growing(g, {}, {x}, x, todo)
  {
    hide Related;
    assert {} + {x} == {x};
    assert {} - {x} == {};
  }

  // ----- topological order -----

  /** Fewer ancestors first; ties by position. */
  predicate BeforeByAncestors(g: Graph, a: nat, b: nat) {
    var na, nb := |g.Ancestors(a)|, |g.Ancestors(b)|;
    na < nb || (na == nb && a < b)
  }

  /** Those with fewer ancestors come first, and the lower position of two with as many. */
  ghost predicate ByAncestors(g: Graph, s: seq<nat>) {
    forall i, j | 0 <= i < j < |s| ::
      |g.Ancestors(s[i])| <= |g.Ancestors(s[j])| && (|g.Ancestors(s[i])| == |g.Ancestors(s[j])| ==> s[i] < s[j])
  }

  /** Appends the positions of select to list, by number of ancestors. */
  method AppendTopo(g: Graph, list: seq<nat>, select: set<nat>) returns (r: seq<nat>)
    requires g.Valid() && g.Acyclic() && select <= g.used
    ensures list <= r && g.IsLinearization(r[|list|..], select) && ByAncestors(g, r[|list|..])
  {
    var sorted := SortSet(select, (a: nat, b: nat) => BeforeByAncestors(g, a, b));
    forall i, j | 0 <= i < j < |sorted|
      ensures sorted[j] !in g.Ancestors(sorted[i])
    {
      assert sorted[i] in Elements(sorted) && sorted[j] in Elements(sorted);
      assert BeforeByAncestors(g, sorted[i], sorted[j]);
      NotBeforeAncestor(g, sorted[i], sorted[j]);
    }
    r := list + sorted;
    assert r[|list|..] == sorted;
    assert ByAncestors(g, sorted) by {
      forall i, j | 0 <= i < j < |sorted|
        ensures BeforeByAncestors(g, sorted[i], sorted[j])
      {
      }
    }
  }

  lemma NotBeforeAncestor(g: Graph, a: nat, b: nat)
    requires g.Valid() && g.Acyclic() && a in g.used && b in g.used && a != b && BeforeByAncestors(g, a, b)
    ensures b !in g.Ancestors(a)
  {
    if b in g.Ancestors(a) {
      FewerAncestors(g, b, a);
    }
  }

  lemma FewerAncestors(g: Graph, a: nat, d: nat)
    requires g.Valid() && d in g.used && a in g.Ancestors(d) && d !in g.Ancestors(a)
    ensures |g.Ancestors(a)| < |g.Ancestors(d)|
  {
    assert g.Ancestors(a) < g.Ancestors(d);
    SmallerSet(g.Ancestors(a), g.Ancestors(d));
  }

  // ----- dependencies -----

  /** The ancestors of d once every member of parents is made a parent of child. */
  ghost function LinkedAncestors(g: Graph, parents: set<nat>, child: nat, d: nat): set<nat> {
    if d in g.Descendants(child) then g.Ancestors(d) + (set p, a | p in parents && a in g.Ancestors(p) :: a)
    else g.Ancestors(d)
  }

  /** ancs are the ancestors of parents that child does not have yet. */
  ghost predicate AreNewAncestors(g: Graph, parents: set<nat>, child: nat, ancs: set<nat>) {
    forall a :: a in ancs <==> a !in g.Ancestors(child) && exists p | p in parents :: a in g.Ancestors(p)
  }

  /** R is reflexive and transitive on the given positions. */
  ghost predicate Preorder(R: nat -> set<nat>, positions: set<nat>) {
    && (forall i | i in positions :: i in R(i))
    && (forall i, j | i in positions && j in R(i) :: j in positions ==> R(j) <= R(i))
  }

  /** h has the ancestor relation of g closed under the edges from parents to child: it
      contains both, and any reflexive transitive relation containing both contains it. */
  ghost predicate IsClosure(g: Graph, parents: set<nat>, child: nat, h: Graph) {
    && h.Valid() && h.used == g.used
    && (forall i | i in g.used :: h.FeeRate(i) == g.FeeRate(i))
    && (forall i | i in g.used :: g.Ancestors(i) <= h.Ancestors(i))
    && parents <= h.Ancestors(child)
    && (forall R: nat -> set<nat> ::
          Preorder(R, g.used) && (forall i | i in g.used :: g.Ancestors(i) <= R(i)) && parents <= R(child)
          ==> forall i | i in g.used :: h.Ancestors(i) <= R(i))
  }

  lemma LinkedIsClosure(g: Graph, parents: set<nat>, child: nat, h: Graph)
    requires g.Valid() && child in g.used && parents <= g.used
    requires h.used == g.used && |h.entries| == |g.entries|
    requires forall i | i in g.used ::
               && h.FeeRate(i) == g.FeeRate(i)
               && h.Ancestors(i) == LinkedAncestors(g, parents, child, i)
               && h.Descendants(i) <= g.used
    requires forall i, j | i in g.used && j in g.used :: j in h.Ancestors(i) <==> i in h.Descendants(j)
    ensures IsClosure(g, parents, child, h)
  {
    hide LinkedAncestors, Graph.Valid, Preorder;
    LinkedValid(g, parents, child, h);
    forall R: nat -> set<nat> |
      Preorder(R, g.used) && (forall i | i in g.used :: g.Ancestors(i) <= R(i)) && parents <= R(child)
      ensures forall i | i in g.used :: h.Ancestors(i) <= R(i)
    {
      LinkedIsLeast(g, parents, child, h, R);
    }
  }

  lemma LinkedValid(g: Graph, parents: set<nat>, child: nat, h: Graph)
    requires g.Valid() && child in g.used && parents <= g.used
    requires h.used == g.used && |h.entries| == |g.entries|
    requires forall i | i in g.used ::
               h.Ancestors(i) == LinkedAncestors(g, parents, child, i) && h.Descendants(i) <= g.used
    requires forall i, j | i in g.used && j in g.used :: j in h.Ancestors(i) <==> i in h.Descendants(j)
    ensures h.Valid() && parents <= h.Ancestors(child) && forall i | i in g.used :: g.Ancestors(i) <= h.Ancestors(i)
  {
    LinkedTransitive(g, parents, child, h);
  }

  lemma LinkedTransitive(g: Graph, parents: set<nat>, child: nat, h: Graph)
    requires g.Valid() && child in g.used && parents <= g.used
    requires forall i | i in g.used :: h.Ancestors(i) == LinkedAncestors(g, parents, child, i)
    ensures forall i, j | i in g.used && j in h.Ancestors(i) :: h.Ancestors(j) <= h.Ancestors(i)
  {
    forall i, j | i in g.used && j in h.Ancestors(i)
      ensures h.Ancestors(j) <= h.Ancestors(i)
    {
      forall a | a in h.Ancestors(j)
        ensures a in h.Ancestors(i)
      {
        if j in g.Ancestors(i) && a !in g.Ancestors(j) {
          assert j in g.Descendants(child);
          assert child in g.Ancestors(j);
          assert child in g.Ancestors(i);
          assert i in g.Descendants(child);
        }
      }
    }
  }

  lemma LinkedIsLeast(g: Graph, parents: set<nat>, child: nat, h: Graph, R: nat -> set<nat>)
    requires g.Valid() && child in g.used && parents <= g.used
    requires forall i | i in g.used :: h.Ancestors(i) == LinkedAncestors(g, parents, child, i)
    requires Preorder(R, g.used) && (forall i | i in g.used :: g.Ancestors(i) <= R(i)) && parents <= R(child)
    ensures forall i | i in g.used :: h.Ancestors(i) <= R(i)
  {
    forall i, a | i in g.used && a in h.Ancestors(i)
      ensures a in R(i)
    {
      if a !in g.Ancestors(i) {
        var p :| p in parents && a in g.Ancestors(p);
        assert child in g.Ancestors(i);
        assert R(child) <= R(i);
        assert R(p) <= R(child);
        assert a in R(p);
      }
    }
  }

  /** mapping gives every used position a place of its own below posRange. */
  ghost predicate IsMapping(g: Graph, mapping: seq<nat>, posRange: nat) {
    && |mapping| == |g.entries|
    && (forall i | i in g.used :: Move(mapping, i) < posRange)
    && (forall i, j | i in g.used && j in g.used && i != j :: Move(mapping, i) != Move(mapping, j))
  }

  /** The new place of position i. */
  function Move(mapping: seq<nat>, i: nat): nat {
    if i < |mapping| then mapping[i] else 0
  }

  ghost function Image(mapping: seq<nat>, s: set<nat>): set<nat> {
    set i | i in s :: Move(mapping, i)
  }

  method MapSet(mapping: seq<nat>, s: set<nat>) returns (r: set<nat>)
    ensures r == Image(mapping, s)
  {
    r := {};
    var todo := s;
    ghost var done: set<nat> := {};
    while todo != {}
      invariant todo + done == s && r == Image(mapping, done)
      decreases |todo|
    {
      var i := First(todo);
      r := r + {Move(mapping, i)};
      todo := todo - {i};
      done := done + {i};
    }
    assert done == s;
  }

  /** h is g with every used position i moved to Move(mapping, i). */
  ghost predicate IsRemapped(g: Graph, mapping: seq<nat>, h: Graph)
  {
    && h.Valid() && h.used == Image(mapping, g.used)
    && forall i | i in g.used ::
         && h.FeeRate(Move(mapping, i)) == g.FeeRate(i)
         && h.Ancestors(Move(mapping, i)) == Image(mapping, g.Ancestors(i))
  }

  /** x and y come first of the positions that are in a cycle with them. */
  ghost predicate FirstTwo(g: Graph, x: nat, y: nat) {
    && x != y && y in g.Ancestors(x) && x in g.Ancestors(y)
    && forall z | z in g.Ancestors(x) && x in g.Ancestors(z) :: z == x || z == y || (x < z && y < z)
  }

  /** What reduced parents can tell of the ancestors of x: all of them, but for the first two
      of a cycle only these two. */
  ghost function Retained(g: Graph, x: nat): set<nat> {
    set a | a in g.Ancestors(x) && forall y | FirstTwo(g, x, y) :: a == x || a == y
  }

  lemma RetainedIsPreorder(g: Graph, x: nat, y: nat)
    requires g.Valid() && x in g.used && y in Retained(g, x)
    ensures x in Retained(g, x) && Retained(g, y) <= Retained(g, x) && y in g.used
  {
    forall a, z | a in Retained(g, y) && FirstTwo(g, x, z)
      ensures a == x || a == z
    {
      if y == z {
        FirstTwoSymmetric(g, x, z);
      }
    }
  }

  lemma RetainedAt(g: Graph, mapping: seq<nat>, posRange: nat, i: nat, j: nat)
    requires g.Valid() && IsMapping(g, mapping, posRange) && i in g.used && j in g.used
    requires Move(mapping, i) in Image(mapping, Retained(g, j))
    ensures i in Retained(g, j)
  {
    ValidPosition(g, j);
  }

  lemma FirstTwoSymmetric(g: Graph, x: nat, y: nat)
    requires g.Valid() && x in g.used && FirstTwo(g, x, y)
    ensures FirstTwo(g, y, x) && g.Ancestors(x) == g.Ancestors(y)
  {
    SameAncestors(g, x, y);
  }

  lemma SameAncestors(g: Graph, x: nat, y: nat)
    requires g.Valid() && x in g.used && y in g.Ancestors(x) && x in g.Ancestors(y)
    ensures g.Ancestors(x) == g.Ancestors(y)
    ensures forall z | z in g.Ancestors(x) :: x in g.Ancestors(z) <==> y in g.Ancestors(z)
  {
  }

  /** In a cycle a reduced parent is in the cycle: the first position of it but i. */
  lemma ReducedIsRetained(g: Graph, i: nat)
    requires g.Valid() && i in g.used
    ensures Reduced(g, g.Ancestors(i) - {i}) <= Retained(g, i)
  {
    forall p, y | p in Reduced(g, g.Ancestors(i) - {i}) && FirstTwo(g, i, y)
      ensures p == i || p == y
    {
      SameAncestors(g, i, y);
      assert y in g.Ancestors(i) - {i} && p in g.Ancestors(y);
    }
  }

  /** Where a cycle is more than a pair with no other ancestors, its first two are too. */
  lemma CycleHasFirstTwo(g: Graph, i: nat, j: nat) returns (x: nat, y: nat)
    requires g.Valid() && i in g.used && i != j && j in g.Ancestors(i) && i in g.Ancestors(j)
    requires g.Ancestors(i) != {i, j}
    ensures x in g.used && FirstTwo(g, x, y) && g.Ancestors(x) != {x, y}
  {
    var cycle := set z | z in g.Ancestors(i) && i in g.Ancestors(z);
    assert i in cycle && j in cycle;
    x := First(cycle);
    assert (if i == x then j else i) in cycle - {x};
    y := First(cycle - {x});
    SameAncestors(g, i, x);
    SameAncestors(g, i, y);
    forall z | z in g.Ancestors(x) && x in g.Ancestors(z)
      ensures z == x || z == y || (x < z && y < z)
    {
      assert z in cycle && (z != x ==> z in cycle - {x});
    }
    var a := Third(g.Ancestors(i), i, j);
    assert {i, j, a} <= g.Ancestors(x);
    ThreeAreNotTwo(i, j, a, x, y);
  }

  lemma ThreeAreNotTwo(i: nat, j: nat, a: nat, x: nat, y: nat)
    requires i != j && a != i && a != j
    ensures !({i, j, a} <= {x, y})
  {
    assert i in {i, j, a} && j in {i, j, a} && a in {i, j, a};
  }

  lemma Third(s: set<nat>, i: nat, j: nat) returns (a: nat)
    requires i in s && j in s && s != {i, j}
    ensures a in s && a != i && a != j
  {
    assert s - {i, j} != {};
    a :| a in s - {i, j};
  }

  /** The positions of done are in place, not yet connected. */
  ghost predicate RemapStarted(g: Graph, mapping: seq<nat>, done: set<nat>, h: Graph) {
    h.used == Image(mapping, done) && forall i | i in done ::
      Move(mapping, i) < |h.entries|
          && h.entries[Move(mapping, i)] == Entry(g.FeeRate(i), {Move(mapping, i)}, {Move(mapping, i)})
  }

  /** All positions are in place, and the parents of those of done are connected. */
  ghost predicate Remapping(g: Graph, mapping: seq<nat>, done: set<nat>, h: Graph) {
    h.Valid() && AllPlaced(g, mapping, h) && AllConnected(g, mapping, done, h)
  }

  ghost predicate AllPlaced(g: Graph, mapping: seq<nat>, h: Graph) {
    && h.used == Image(mapping, g.used)
    && (forall i | i in g.used ::
          h.FeeRate(Move(mapping, i)) == g.FeeRate(i)
              && h.Ancestors(Move(mapping, i)) <= Image(mapping, Retained(g, i)))
  }

  ghost predicate AllConnected(g: Graph, mapping: seq<nat>, done: set<nat>, h: Graph) {
    forall i | i in done :: ParentsConnected(g, mapping, i, h)
  }

  ghost predicate ParentsConnected(g: Graph, mapping: seq<nat>, i: nat, h: Graph)
  {
    exists r :: AreReducedParents(g, i, r) && Image(mapping, r) <= h.Ancestors(Move(mapping, i))
  }

  lemma PlaceNone(g: Graph, mapping: seq<nat>, h: Graph)
    requires h.used == {}
    ensures RemapStarted(g, mapping, {}, h)
  {
  }

  lemma MoveInRange(g: Graph, mapping: seq<nat>, posRange: nat, i: nat)
    requires g.Valid() && IsMapping(g, mapping, posRange) && i in g.used
    ensures i < |mapping| == |g.entries| && mapping[i] == Move(mapping, i) < posRange
  {
  }

  lemma PlaceStep(g: Graph, mapping: seq<nat>, posRange: nat, done: set<nat>, h: Graph, i: nat)
    requires g.Valid() && IsMapping(g, mapping, posRange) && |h.entries| == posRange
    requires i in g.used && done <= g.used && RemapStarted(g, mapping, done, h)
    ensures i < |g.entries| && Move(mapping, i) < posRange
    ensures var idx := Move(mapping, i);
            RemapStarted(g, mapping, done + {i},
                         Graph(h.entries[idx := Entry(g.entries[i].feerate, {idx}, {idx})], h.used + {idx}))
  {
    assert Image(mapping, done + {i}) == Image(mapping, done) + {Move(mapping, i)};
  }

  lemma StartedIsValid(g: Graph, mapping: seq<nat>, h: Graph)
    requires g.Valid() && IsMapping(g, mapping, |h.entries|)
    requires RemapStarted(g, mapping, g.used, h)
    ensures Remapping(g, mapping, {}, h)
  {
    forall x | x in h.used
      ensures x < |h.entries| && h.Ancestors(x) == {x} && h.Descendants(x) == {x}
    {
      var i :| i in g.used && Move(mapping, i) == x;
    }
    forall i | i in g.used
      ensures h.FeeRate(Move(mapping, i)) == g.FeeRate(i)
              && h.Ancestors(Move(mapping, i)) <= Image(mapping, Retained(g, i))
    {
      assert i in Retained(g, i);
    }
  }

  lemma RemapPre(g: Graph, mapping: seq<nat>, done: set<nat>, h: Graph, i: nat, reduced: set<nat>)
    requires g.Valid() && IsMapping(g, mapping, |h.entries|) && Remapping(g, mapping, done, h)
    requires i in g.used && AreReducedParents(g, i, reduced)
    ensures Move(mapping, i) in h.used && Image(mapping, reduced) <= h.used
  {
    hide Covers, NoneBelow;
    ValidPosition(g, i);
  }

  lemma RemapStep(g: Graph, mapping: seq<nat>, done: set<nat>, i: nat, reduced: set<nat>, h: Graph, k: Graph)
    requires g.Valid() && IsMapping(g, mapping, |h.entries|) && Remapping(g, mapping, done, h)
    requires i in g.used && AreReducedParents(g, i, reduced) && done <= g.used
    requires reduced == Reduced(g, g.Ancestors(i) - {i})
    requires k.used == h.used && |k.entries| == |h.entries|
    requires IsClosure(h, Image(mapping, reduced), Move(mapping, i), k)
    requires forall d | d in k.used ::
               k.Ancestors(d) == LinkedAncestors(h, Image(mapping, reduced), Move(mapping, i), d)
    ensures Remapping(g, mapping, done + {i}, k)
  {
    hide Covers, NoneBelow, Graph.StoresClosure, Image, LinkedAncestors, ParentsConnected, Retained, Reduced;
    ReducedIsRetained(g, i);
    forall j | j in g.used
      ensures Move(mapping, j) in h.used
      ensures k.FeeRate(Move(mapping, j)) == g.FeeRate(j)
      ensures h.Ancestors(Move(mapping, j)) <= k.Ancestors(Move(mapping, j)) <= Image(mapping, Retained(g, j))
    {
      InImage(mapping, g.used, j);
      RemapUpper(g, mapping, h, i, reduced, j);
    }
    forall j | j in done + {i}
      ensures ParentsConnected(g, mapping, j, k)
    {
      if j in done {
        KeepsConnected(g, mapping, j, h, k);
      } else {
        NowConnected(g, mapping, j, reduced, k);
      }
    }
  }

  lemma InImage(mapping: seq<nat>, s: set<nat>, i: nat)
    requires i in s
    ensures Move(mapping, i) in Image(mapping, s)
  {
  }

  lemma KeepsConnected(g: Graph, mapping: seq<nat>, i: nat, h: Graph, k: Graph)
    requires ParentsConnected(g, mapping, i, h)
    requires h.Ancestors(Move(mapping, i)) <= k.Ancestors(Move(mapping, i))
    ensures ParentsConnected(g, mapping, i, k)
  {
    hide AreReducedParents, Image;
  }

  lemma NowConnected(g: Graph, mapping: seq<nat>, i: nat, reduced: set<nat>, k: Graph)
    requires AreReducedParents(g, i, reduced)
    requires Image(mapping, reduced) <= k.Ancestors(Move(mapping, i))
    ensures ParentsConnected(g, mapping, i, k)
  {
    hide AreReducedParents, Image;
  }

  /** Connecting mapped parents adds no relation that reduced parents do not tell. */
  lemma RemapUpper(g: Graph, mapping: seq<nat>, h: Graph, i: nat, reduced: set<nat>, j: nat)
    requires g.Valid() && IsMapping(g, mapping, |h.entries|) && Remapping(g, mapping, {}, h)
    requires i in g.used && j in g.used && reduced <= Retained(g, i)
    ensures LinkedAncestors(h, Image(mapping, reduced), Move(mapping, i), Move(mapping, j))
            <= Image(mapping, Retained(g, j))
  {
    hide Retained;
    var mi, mj := Move(mapping, i), Move(mapping, j);
    if mj in h.Descendants(mi) {
      InImage(mapping, g.used, i);
      assert mi in h.Ancestors(mj);
      RetainedAt(g, mapping, |h.entries|, i, j);
      RetainedIsPreorder(g, j, i);
      forall p, a | p in Image(mapping, reduced) && a in h.Ancestors(p)
        ensures a in Image(mapping, Retained(g, j))
      {
        var r :| r in reduced && Move(mapping, r) == p;
        RetainedIsPreorder(g, i, r);
        RetainedIsPreorder(g, j, r);
      }
    }
  }

  /** Of any graph the copy is the mapped graph exactly if all cycles are pairs without
      further ancestors. */
  lemma RemapExact(g: Graph, mapping: seq<nat>, h: Graph)
    requires g.Valid() && IsMapping(g, mapping, |h.entries|)
    requires Remapping(g, mapping, g.used, h)
    ensures IsRemapped(g, mapping, h) <==> g.PairsOnly()
  {
    hide Graph.Valid, IsMapping, Remapping, IsRemapped;
    if g.PairsOnly() {
      RemapComplete(g, mapping, h);
    } else {
      var i, j :| i in g.used && j in g.Ancestors(i) && i != j && i in g.Ancestors(j) && g.Ancestors(i) != {i, j};
      var x, y := CycleHasFirstTwo(g, i, j);
      RemapLoses(g, mapping, h, x, y);
    }
  }

  /** The first two of a cycle keep only each other: any other ancestor is lost. */
  lemma RemapLoses(g: Graph, mapping: seq<nat>, h: Graph, x: nat, y: nat)
    requires g.Valid() && IsMapping(g, mapping, |h.entries|) && Remapping(g, mapping, g.used, h)
    requires x in g.used && FirstTwo(g, x, y)
    ensures h.Ancestors(Move(mapping, x)) <= {Move(mapping, x), Move(mapping, y)}
    ensures forall a | a in g.Ancestors(x) - {x, y} :: Move(mapping, a) !in h.Ancestors(Move(mapping, x))
    ensures g.Ancestors(x) != {x, y} ==> !IsRemapped(g, mapping, h)
  {
    hide Graph.StoresClosure, AllConnected;
    assert Retained(g, x) <= {x, y};
    forall a | a in g.Ancestors(x) - {x, y}
      ensures Move(mapping, a) !in h.Ancestors(Move(mapping, x))
    {
      ValidPosition(g, x);
    }
    if g.Ancestors(x) != {x, y} {
      ValidPosition(g, x);
      var a := Third(g.Ancestors(x), x, y);
      InImage(mapping, g.Ancestors(x), a);
    }
  }

  lemma RemapComplete(g: Graph, mapping: seq<nat>, h: Graph)
    requires g.Valid() && g.PairsOnly() && IsMapping(g, mapping, |h.entries|)
    requires Remapping(g, mapping, g.used, h)
    ensures IsRemapped(g, mapping, h)
  {
    hide Graph.StoresClosure, ParentsConnected, Image, Retained;
    forall i | i in g.used
      ensures h.Ancestors(Move(mapping, i)) == Image(mapping, g.Ancestors(i))
    {
      RemapLower(g, mapping, h, i);
      RetainedWithin(g, mapping, i);
    }
  }

  lemma RetainedWithin(g: Graph, mapping: seq<nat>, i: nat)
    ensures Image(mapping, Retained(g, i)) <= Image(mapping, g.Ancestors(i))
  {
  }

  lemma {:induction false} RemapLower(g: Graph, mapping: seq<nat>, h: Graph, i: nat)
    requires g.Valid() && g.PairsOnly() && IsMapping(g, mapping, |h.entries|)
    requires Remapping(g, mapping, g.used, h) && i in g.used
    ensures Image(mapping, g.Ancestors(i)) <= h.Ancestors(Move(mapping, i))
    decreases |g.Ancestors(i)|
  {
    hide Graph.Valid, Graph.PairsOnly, IsMapping, Remapping, Covers, Image;
    var r := ConnectedParents(g, mapping, h, i);
    PlacedAt(g, mapping, h, i);
    forall p | p in r
      ensures Image(mapping, g.Ancestors(p)) <= h.Ancestors(Move(mapping, i))
    {
      if i in g.Ancestors(p) {
        PairBelow(g, mapping, h, i, r, p);
      } else {
        FewerAncestors(g, p, i);
        RemapLower(g, mapping, h, p);
        Below(g, mapping, h, i, r, p);
      }
    }
    CoveredImage(g, mapping, h, i, r);
  }

  lemma CoveredImage(g: Graph, mapping: seq<nat>, h: Graph, i: nat, r: set<nat>)
    requires Covers(g, r, g.Ancestors(i) - {i}) && Move(mapping, i) in h.Ancestors(Move(mapping, i))
    requires forall p | p in r :: Image(mapping, g.Ancestors(p)) <= h.Ancestors(Move(mapping, i))
    ensures Image(mapping, g.Ancestors(i)) <= h.Ancestors(Move(mapping, i))
  {
    hide Image;
    forall a | a in g.Ancestors(i)
      ensures Move(mapping, a) in h.Ancestors(Move(mapping, i))
    {
      if a != i {
        assert a in g.Ancestors(i) - {i};
        var p :| p in r && a in g.Ancestors(p);
        InImage(mapping, g.Ancestors(p), a);
      }
    }
    ImageWithin(mapping, g.Ancestors(i), h.Ancestors(Move(mapping, i)));
  }

  lemma ImageWithin(mapping: seq<nat>, s: set<nat>, t: set<nat>)
    requires forall a | a in s :: Move(mapping, a) in t
    ensures Image(mapping, s) <= t
  {
  }

  lemma ConnectedParents(g: Graph, mapping: seq<nat>, h: Graph, i: nat) returns (r: set<nat>)
    requires Remapping(g, mapping, g.used, h) && i in g.used && g.Valid()
    ensures r <= g.Ancestors(i) - {i} && Covers(g, r, g.Ancestors(i) - {i}) && r <= g.used
    ensures Image(mapping, r) <= h.Ancestors(Move(mapping, i))
  {
    assert ParentsConnected(g, mapping, i, h);
    r :| AreReducedParents(g, i, r) && Image(mapping, r) <= h.Ancestors(Move(mapping, i));
  }

  /** The mapped ancestors of a mapped parent are ancestors. */
  lemma Below(g: Graph, mapping: seq<nat>, h: Graph, i: nat, r: set<nat>, p: nat)
    requires h.Valid() && Image(mapping, r) <= h.Ancestors(Move(mapping, i)) && p in r && Move(mapping, i) in h.used
    requires Image(mapping, g.Ancestors(p)) <= h.Ancestors(Move(mapping, p))
    ensures Image(mapping, g.Ancestors(p)) <= h.Ancestors(Move(mapping, i))
  {
    InImage(mapping, r, p);
  }

  lemma PairBelow(g: Graph, mapping: seq<nat>, h: Graph, i: nat, r: set<nat>, p: nat)
    requires g.Valid() && g.PairsOnly() && i in g.used && p in g.Ancestors(i) && i in g.Ancestors(p) && i != p
    requires p in r && Image(mapping, r) <= h.Ancestors(Move(mapping, i))
    requires Move(mapping, i) in h.Ancestors(Move(mapping, i))
    ensures Image(mapping, g.Ancestors(p)) <= h.Ancestors(Move(mapping, i))
  {
    InImage(mapping, r, p);
    SameAncestors(g, i, p);
    assert g.Ancestors(p) == {i, p};
  }

  lemma PlacedAt(g: Graph, mapping: seq<nat>, h: Graph, i: nat)
    requires Remapping(g, mapping, g.used, h) && i in g.used
    ensures h.Valid() && Move(mapping, i) in h.used && Move(mapping, i) in h.Ancestors(Move(mapping, i))
  {
    InImage(mapping, g.used, i);
  }

  lemma AcyclicHasPairsOnly(g: Graph)
    ensures g.Acyclic() ==> g.PairsOnly()
  {
  }

  class DepGraph {
    /** Data for each position. */
    var entries: seq<Entry>
    /** Which positions are used. */
    var used: set<nat>

    function View(): Graph
      reads this
    {
      Graph(entries, used)
    }

    constructor ()
      ensures View() == Graph([], {})
    {
      entries, used := [], {};
    }

    /** Copies a graph, moving position i to mapping[i]; dependencies are rebuilt from
        the reduced parents alone, which tell all of them on acyclic graphs and, beyond
        those, exactly on the graphs whose cycles are pairs without further ancestors. */
    constructor Remapped(g: Graph, mapping: seq<nat>, posRange: nat)
      requires g.Valid() && IsMapping(g, mapping, posRange)
      ensures g.Acyclic() ==> IsRemapped(g, mapping, View())
      ensures IsRemapped(g, mapping, View()) <==> g.PairsOnly()
      ensures |entries| == posRange && Remapping(g, mapping, g.used, View())
    {
      hide Graph.StoresClosure, Graph.Acyclic, Graph.PairsOnly, RemapStarted, AllPlaced, AllConnected, Image, IsMapping,
           AreReducedParents, Reduced, IsClosure, LinkedAncestors, IsRemapped;
      entries := seq(posRange, _ => Entry(EMPTY, {}, {}));
      used := {};
      new;
      PlaceNone(g, mapping, View());
      var todo := g.used;
      ghost var done: set<nat> := {};
      while todo != {}
        invariant todo + done == g.used && |entries| == posRange
        invariant RemapStarted(g, mapping, done, View())
        decreases |todo|
      {
        var i := First(todo);
        MoveInRange(g, mapping, posRange, i);
        var idx := mapping[i];
        PlaceStep(g, mapping, posRange, done, View(), i);
        entries := entries[idx := Entry(g.entries[i].feerate, {idx}, {idx})];
        used := used + {idx};
        todo := todo - {i};
        done := done + {i};
      }
      StartedIsValid(g, mapping, View());
      todo := g.used;
      done := {};
      while todo != {}
        invariant todo + done == g.used && |entries| == posRange
        invariant Remapping(g, mapping, done, View())
        decreases |todo|
      {
        var i := First(todo);
        MoveInRange(g, mapping, posRange, i);
        var reduced := GetReducedParents(g, i);
        var parents := MapSet(mapping, reduced);
        ghost var h := View();
        RemapPre(g, mapping, done, h, i, reduced);
        AddDependencies(parents, mapping[i]);
        RemapStep(g, mapping, done, i, reduced, h, View());
        todo := todo - {i};
        done := done + {i};
      }
      RemapExact(g, mapping, View());
      AcyclicHasPairsOnly(g);
    }

    /** Adds an unconnected transaction in the first free position. */
    method AddTransaction(feerate: FeeFrac) returns (idx: nat)
      requires View().Valid()
      modifies this
      ensures View().Valid()
      ensures idx !in old(used) && (forall i: nat :: i < idx ==> i in old(used))
      ensures used == old(used) + {idx}
      ensures View().FeeRate(idx) == feerate
      ensures View().Ancestors(idx) == {idx} && View().Descendants(idx) == {idx}
      ensures forall i | i in old(used) ::
                && View().FeeRate(i) == old(View().FeeRate(i))
                && View().Ancestors(i) == old(View().Ancestors(i))
                && View().Descendants(i) == old(View().Descendants(i))
    {
      idx := 0;
      while idx in used
        invariant idx <= |entries|
        invariant forall i: nat :: i < idx ==> i in used
        decreases |entries| - idx
      {
        idx := idx + 1;
      }
      if idx == |entries| {
        entries := entries + [Entry(feerate, {idx}, {idx})];
      } else {
        entries := entries[idx := Entry(feerate, {idx}, {idx})];
      }
      used := used + {idx};
    }

    /** Drops positions; what remains keeps its indirect dependencies. */
    method RemoveTransactions(del: set<nat>)
      requires View().Valid()
      modifies this
      ensures View().Valid()
      ensures used == old(used) - del
      ensures entries == [] || |entries| - 1 in used
      ensures forall i | i in used ::
                && View().FeeRate(i) == old(View().FeeRate(i))
                && View().Ancestors(i) == old(View().Ancestors(i)) - del
                && View().Descendants(i) == old(View().Descendants(i)) - del
    {
      ghost var g := View();
      used := used - del;
      while entries != [] && |entries| - 1 !in used
        invariant used == g.used - del && entries <= g.entries
        invariant forall i | i in used :: i < |entries|
        decreases |entries|
      {
        entries := entries[..|entries| - 1];
      }
      var n := 0;
      while n < |entries|
        invariant n <= |entries| <= |g.entries| && used == g.used - del
        invariant entries == [] || |entries| - 1 in used
        invariant forall i | i in used :: i < |entries|
        invariant forall i | n <= i < |entries| :: entries[i] == g.entries[i]
        invariant forall i | 0 <= i < n ::
                    entries[i] == Entry(g.entries[i].feerate, g.entries[i].ancestors * used,
                                        g.entries[i].descendants * used)
      {
        var e := entries[n];
        entries := entries[n := Entry(e.feerate, e.ancestors * used, e.descendants * used)];
        n := n + 1;
      }
      assert forall i | i in used :: g.Ancestors(i) * used == g.Ancestors(i) - del;
      assert forall i | i in used :: g.Descendants(i) * used == g.Descendants(i) - del;
    }

    /** The ancestors of parents that are not yet ancestors of child. */
    method NewAncestors(parents: set<nat>, child: nat) returns (parAnc: set<nat>)
      requires View().Valid() && child in used && parents <= used
      ensures AreNewAncestors(View(), parents, child, parAnc)
      ensures parAnc <= used && child !in parAnc
    {
      parAnc := {};
      var todo := parents - entries[child].ancestors;
      ghost var added := todo;
      while todo != {}
        invariant todo <= added
        invariant parAnc == set p, a | p in added - todo && a in View().Ancestors(p) :: a
      {
        var par := First(todo);
        parAnc := parAnc + entries[par].ancestors;
        todo := todo - {par};
      }
      parAnc := parAnc - entries[child].ancestors;
      forall p, a | p in parents && a in View().Ancestors(p) && a !in View().Ancestors(child)
        ensures a in parAnc
      {
        assert p in added - todo;
      }
    }

    /** Adds the descendants of child to those of each of ancs. */
    method SpreadDescendants(ancs: set<nat>, child: nat)
      requires View().Valid() && ancs <= used && child in used && child !in ancs
      modifies this`entries
      ensures |entries| == old(|entries|)
      ensures forall i | i in used ::
                && View().FeeRate(i) == old(View().FeeRate(i))
                && View().Ancestors(i) == old(View().Ancestors(i))
                && View().Descendants(i) ==
                   old(View().Descendants(i)) + if i in ancs then old(View().Descendants(child)) else {}
    {
      ghost var g := View();
      var todo := ancs;
      while todo != {}
        invariant todo <= ancs && |entries| == |g.entries|
        invariant forall i | i in used :: entries[i].feerate == g.entries[i].feerate
        invariant forall i | i in used :: entries[i].ancestors == g.entries[i].ancestors
        invariant forall i | i in used ::
                    entries[i].descendants ==
                        g.entries[i].descendants + if i in ancs - todo then g.entries[child].descendants else {}
      {
        var a := First(todo);
        entries := entries[a := entries[a].(descendants := entries[a].descendants + entries[child].descendants)];
        todo := todo - {a};
      }
    }

    /** Adds ancs to the ancestors of each of decs. */
    method SpreadAncestors(ancs: set<nat>, decs: set<nat>)
      requires (forall i | i in used :: i < |entries|) && decs <= used
      modifies this`entries
      ensures |entries| == old(|entries|)
      ensures forall i | i in used ::
                && View().FeeRate(i) == old(View().FeeRate(i))
                && View().Ancestors(i) == old(View().Ancestors(i)) + (if i in decs then ancs else {})
                && View().Descendants(i) == old(View().Descendants(i))
    {
      ghost var g := View();
      var todo := decs;
      while todo != {}
        invariant todo <= decs && |entries| == |g.entries|
        invariant forall i | i in used :: entries[i].feerate == g.entries[i].feerate
        invariant forall i | i in used :: entries[i].descendants == g.entries[i].descendants
        invariant forall i | i in used ::
                    entries[i].ancestors == g.entries[i].ancestors + if i in decs - todo then ancs else {}
      {
        var d := First(todo);
        entries := entries[d := entries[d].(ancestors := entries[d].ancestors + ancs)];
        todo := todo - {d};
      }
    }

    /** Makes each of parents a parent of child: afterwards the stored relation is the
        closure of the old one and the new edges, even where those close a cycle. */
    method AddDependencies(parents: set<nat>, child: nat)
      requires View().Valid() && child in used && parents <= used
      modifies this
      ensures used == old(used) && |entries| == old(|entries|)
      ensures IsClosure(old(View()), parents, child, View())
      ensures forall d | d in used :: View().Ancestors(d) == LinkedAncestors(old(View()), parents, child, d)
    {
      hide Graph.StoresClosure, AreNewAncestors, IsClosure, LinkedAncestors;
      ghost var g := View();
      ValidPosition(g, child);
      var parAnc := NewAncestors(parents, child);
      if parAnc == {} {
        Unchanged(g, parents, child);
        return;
      }
      SpreadDescendants(parAnc, child);
      assert entries[child].descendants == g.Descendants(child);
      SpreadAncestors(parAnc, entries[child].descendants);
      Linked(g, parents, child, parAnc, View());
    }
  }

  lemma ValidPosition(g: Graph, i: nat)
    requires g.Valid() && i in g.used
    ensures forall j | j in g.used :: j < |g.entries|
    ensures g.Ancestors(i) <= g.used && g.Descendants(i) <= g.used
    ensures i in g.Ancestors(i) && i in g.Descendants(i)
  {
  }

  lemma Unchanged(g: Graph, parents: set<nat>, child: nat)
    requires g.Valid() && child in g.used && parents <= g.used
    requires AreNewAncestors(g, parents, child, {})
    ensures forall d | d in g.used :: g.Ancestors(d) == LinkedAncestors(g, parents, child, d)
    ensures IsClosure(g, parents, child, g)
  {
    forall d | d in g.used
      ensures g.Ancestors(d) == LinkedAncestors(g, parents, child, d)
    {
      if d in g.Descendants(child) {
        assert g.Ancestors(child) <= g.Ancestors(d);
      }
    }
    LinkedIsClosure(g, parents, child, g);
  }

  lemma Linked(g: Graph, parents: set<nat>, child: nat, parAnc: set<nat>, h: Graph)
    requires g.Valid() && child in g.used && parents <= g.used
    requires AreNewAncestors(g, parents, child, parAnc)
    requires h.used == g.used && |h.entries| == |g.entries|
    requires forall i | i in g.used ::
               && h.FeeRate(i) == g.FeeRate(i)
               && h.Ancestors(i) == g.Ancestors(i) + (if i in g.Descendants(child) then parAnc else {})
               && h.Descendants(i) == g.Descendants(i) + (if i in parAnc then g.Descendants(child) else {})
    ensures forall d | d in g.used :: h.Ancestors(d) == LinkedAncestors(g, parents, child, d)
    ensures IsClosure(g, parents, child, h)
  {
    forall d | d in g.used
      ensures h.Ancestors(d) == LinkedAncestors(g, parents, child, d)
    {
      LinkedAt(g, parents, child, parAnc, d);
    }
    forall i | i in g.used
      ensures h.Descendants(i) <= g.used
      ensures forall j | j in g.used :: j in h.Ancestors(i) <==> i in h.Descendants(j)
    {
    }
    hide IsClosure, LinkedAncestors, AreNewAncestors;
    LinkedIsClosure(g, parents, child, h);
  }

  lemma LinkedAt(g: Graph, parents: set<nat>, child: nat, parAnc: set<nat>, d: nat)
    requires g.Valid() && child in g.used && parents <= g.used && d in g.used
    requires AreNewAncestors(g, parents, child, parAnc)
    ensures LinkedAncestors(g, parents, child, d) == g.Ancestors(d) + (if d in g.Descendants(child) then parAnc else {})
  {
    if d in g.Descendants(child) {
      forall a | a in g.Ancestors(child)
        ensures a in g.Ancestors(d)
      {
      }
    }
  }

  // ----- copies of cyclic graphs -----

  /** A graph in which 1 and 2 are ancestors of each other, and 0 is one of both. */
  function Cyclic(): Graph {
    var f := FeeFrac(0, 1);
    Graph([Entry(f, {0}, {0, 1, 2}), Entry(f, {0, 1, 2}, {1, 2}), Entry(f, {0, 1, 2}, {1, 2})], {0, 1, 2})
  }

  lemma CyclicIsGraph()
    ensures Cyclic().Valid() && Cyclic().used == {0, 1, 2} && |Cyclic().entries| == 3
    ensures Cyclic().Ancestors(0) == {0} && Cyclic().Ancestors(1) == Cyclic().Ancestors(2) == {0, 1, 2}
  {
    var g := Cyclic();
    assert g.Ancestors(0) == {0} && g.Ancestors(1) == {0, 1, 2} && g.Ancestors(2) == {0, 1, 2};
    assert g.Descendants(0) == {0, 1, 2} && g.Descendants(1) == {1, 2} && g.Descendants(2) == {1, 2};
  }

  /** In whatever order a copy of that graph is laid out, 1 and 2 stay each other's ancestors
      but 0 is an ancestor of 1 no more. */
  lemma CycleLosesAncestor(mapping: seq<nat>, h: Graph)
    requires IsMapping(Cyclic(), mapping, |h.entries|) && Remapping(Cyclic(), mapping, Cyclic().used, h)
    ensures 0 in Cyclic().Ancestors(1) && Move(mapping, 0) !in h.Ancestors(Move(mapping, 1))
    ensures !IsRemapped(Cyclic(), mapping, h)
  {
    hide Graph.Valid, Cyclic, IsMapping, Remapping, IsRemapped;
    CyclicIsGraph();
    assert FirstTwo(Cyclic(), 1, 2);
    assert 0 in Cyclic().Ancestors(1) - {1, 2};
    RemapLoses(Cyclic(), mapping, h, 1, 2);
  }

  /** The copy in the same order. */
  method CopyCyclic() returns (d: DepGraph)
    ensures fresh(d) && d.View().used == Cyclic().used
    ensures 0 in Cyclic().Ancestors(1) && 0 !in d.View().Ancestors(1)
  {
    CyclicIsGraph();
    hide Graph.Valid, Cyclic, AllConnected, IsRemapped;
    var mapping := [0, 1, 2];
    d := new DepGraph.Remapped(Cyclic(), mapping, 3);
    CycleLosesAncestor(mapping, d.View());
    assert Image(mapping, {0, 1, 2}) == {0, 1, 2};
  }
}
