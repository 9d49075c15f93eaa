/** Improving a linearization in place by merging and swapping groups that are kept on
    linked lists inside one table of entries (src/cluster_linearize.h). */
module PostLinearization {
  import opened Collections
  import opened FeeFracs
  import opened Diagrams
  import opened NatSets
  import opened DepGraphs
  import opened Chunkings
  import opened Merging

  const SENTINEL: nat := 0
  const NO_PREV_TX: nat := 0

  /** Entry t + 1 belongs to transaction t; entry 0 is the sentinel. Only the entry of a
      group's last transaction has meaningful fields beyond prevTx. */
  datatype TxEntry = TxEntry(prevTx: nat, firstTx: nat, prevGroup: nat, group: set<nat>, deps: set<nat>,
                             feerate: FeeFrac)

  // ----- directions -----

  /** The fee and size of t as a pass sees it: fees are negated in the backward pass. */
  function Rate(g: Graph, rev: bool, t: nat): FeeFrac {
    if rev then g.FeeRate(t).Negated() else g.FeeRate(t)
  }

  /** What must not follow t: its ancestors, or its descendants in the backward pass. */
  function Deps(g: Graph, rev: bool, t: nat): set<nat> {
    if rev then g.Descendants(t) else g.Ancestors(t)
  }

  ghost function Rates(g: Graph, rev: bool, s: seq<nat>): seq<FeeFrac> {
    seq(|s|, i requires 0 <= i < |s| => Rate(g, rev, s[i]))
  }

  ghost function AllDeps(g: Graph, rev: bool, s: set<nat>): set<nat> {
    set t, d | t in s && d in Deps(g, rev, t) :: d
  }

  ghost predicate OrderedFor(g: Graph, rev: bool, s: seq<nat>) {
    forall i, j | 0 <= i < j < |s| :: s[j] !in Deps(g, rev, s[i])
  }

  lemma RatesConcat(g: Graph, rev: bool, a: seq<nat>, b: seq<nat>)
    ensures Rates(g, rev, a + b) == Rates(g, rev, a) + Rates(g, rev, b)
  {
    hide Rate;
  }

  lemma RatesPositive(g: Graph, rev: bool, s: seq<nat>)
    requires g.PositiveSizes() && Elements(s) <= g.used
    ensures Positive(Rates(g, rev, s))
  {
    forall i | 0 <= i < |s|
      ensures Rates(g, rev, s)[i].size > 0
    {
      assert s[i] in Elements(s);
    }
  }

  lemma OrderedConcat(g: Graph, rev: bool, a: seq<nat>, b: seq<nat>)
    ensures OrderedFor(g, rev, a + b) <==>
            && OrderedFor(g, rev, a) && OrderedFor(g, rev, b)
            && AllDeps(g, rev, Elements(a)) !! Elements(b)
  {
    var ab := a + b;
    assert forall i | 0 <= i < |a| :: ab[i] == a[i];
    assert forall i | 0 <= i < |b| :: ab[|a| + i] == b[i];
    if OrderedFor(g, rev, ab) {
      forall x, y | x in Elements(a) && y in Elements(b)
        ensures y !in Deps(g, rev, x)
      {
        var i :| 0 <= i < |a| && a[i] == x;
        var j :| 0 <= j < |b| && b[j] == y;
        assert ab[|a| + j] !in Deps(g, rev, ab[i]);
      }
    }
    if OrderedFor(g, rev, a) && OrderedFor(g, rev, b) && AllDeps(g, rev, Elements(a)) !! Elements(b) {
      forall i, j | 0 <= i < j < |ab|
        ensures ab[j] !in Deps(g, rev, ab[i])
      {
        if j < |a| {
          assert a[j] !in Deps(g, rev, a[i]);
        } else if i >= |a| {
          assert b[j - |a|] !in Deps(g, rev, b[i - |a|]);
        } else {
          assert ab[i] in Elements(a) && ab[j] in Elements(b);
        }
      }
    }
  }

  // ----- the linked lists -----

  /** The entry of the last transaction of a group. */
  ghost function Tail(grp: seq<nat>): nat {
    if grp == [] then SENTINEL else grp[|grp| - 1] + 1
  }

  /** The group's transactions are chained backwards from its tail. */
  ghost predicate Chained(es: seq<TxEntry>, grp: seq<nat>) {
    && grp != []
    && (forall m | 0 <= m < |grp| :: grp[m] + 1 < |es|)
    && (forall m | 0 < m < |grp| :: es[grp[m] + 1].prevTx == grp[m - 1] + 1)
    && es[grp[0] + 1].prevTx == NO_PREV_TX
  }

  /** The tail entry describes the group. */
  ghost predicate Described(es: seq<TxEntry>, g: Graph, rev: bool, grp: seq<nat>)
    requires Chained(es, grp)
  {
    && es[Tail(grp)].firstTx == grp[0] + 1
    && es[Tail(grp)].group == Elements(grp)
    && es[Tail(grp)].deps == AllDeps(g, rev, Elements(grp))
    && es[Tail(grp)].feerate == Sum(Rates(g, rev, grp))
  }

  ghost predicate GroupOk(es: seq<TxEntry>, g: Graph, rev: bool, grp: seq<nat>) {
    Chained(es, grp) && Described(es, g, rev, grp)
  }

  /** Groups are not empty and share no transaction, not even within a group. */
  ghost predicate Separate(groups: seq<seq<nat>>) {
    && (forall k | 0 <= k < |groups| :: groups[k] != [] && Distinct(groups[k]))
    && (forall j, k | 0 <= j < k < |groups| :: Elements(groups[j]) !! Elements(groups[k]))
  }

  ghost function Tails(groups: seq<seq<nat>>): (tails: seq<nat>)
    ensures |tails| == |groups|
  {
    seq(|groups|, k requires 0 <= k < |groups| => Tail(groups[k]))
  }

  /** The group links of the table. */
  ghost function Links(es: seq<TxEntry>): seq<nat> {
    seq(|es|, i requires 0 <= i < |es| => es[i].prevGroup)
  }

  /** The tail before position k; the sentinel before the first. */
  ghost function PrevTail(tails: seq<nat>, k: nat): nat
    requires k <= |tails|
  {
    if k == 0 then SENTINEL else tails[k - 1]
  }

  /** The tail after position k; the sentinel after the last. */
  ghost function NextTail(tails: seq<nat>, k: nat): nat
    requires k < |tails|
  {
    if k + 1 < |tails| then tails[k + 1] else SENTINEL
  }

  /** The tail at position k points to the one before it. */
  ghost predicate CircleAt(links: seq<nat>, tails: seq<nat>, k: nat)
    requires k < |tails|
  {
    0 < tails[k] < |links| && links[tails[k]] == PrevTail(tails, k)
  }

  /** The links form one circle: from the sentinel to the last tail and on to the first. */
  ghost predicate Circle(links: seq<nat>, tails: seq<nat>) {
    && |links| > 0 && Distinct(tails)
    && (forall k | 0 <= k < |tails| :: CircleAt(links, tails, k))
    && links[SENTINEL] == PrevTail(tails, |tails|)
  }

  ghost predicate AllGroupsOk(es: seq<TxEntry>, g: Graph, rev: bool, groups: seq<seq<nat>>) {
    forall k | 0 <= k < |groups| :: GroupOk(es, g, rev, groups[k])
  }

  /** The table represents the list of groups. */
  ghost predicate Rep(es: seq<TxEntry>, g: Graph, rev: bool, groups: seq<seq<nat>>) {
    && Separate(groups) && AllGroupsOk(es, g, rev, groups)
    && Circle(Links(es), Tails(groups))
    && es[SENTINEL].feerate == EMPTY
  }

  /** Entries that agree up to prevGroup describe the same group. */
  lemma FrameGroup(es: seq<TxEntry>, fs: seq<TxEntry>, g: Graph, rev: bool, grp: seq<nat>)
    requires GroupOk(es, g, rev, grp) && |fs| == |es|
    requires forall t | t in Elements(grp) && t + 1 < |es| :: fs[t + 1] == es[t + 1].(prevGroup := fs[t + 1].prevGroup)
    ensures GroupOk(fs, g, rev, grp)
  {
    hide AllDeps, Sum, Rates;
    assert forall m | 0 <= m < |grp| :: grp[m] in Elements(grp);
  }

  // ----- appending a group -----

  lemma CircleAppend(links: seq<nat>, tails: seq<nat>, t: nat)
    requires Circle(links, tails) && t !in tails && 0 < t < |links|
    ensures Circle(links[t := links[SENTINEL]][SENTINEL := t], tails + [t])
  {
    var all, to := tails + [t], links[t := links[SENTINEL]][SENTINEL := t];
    forall k | 0 <= k < |all|
      ensures CircleAt(to, all, k)
    {
      assert k < |tails| ==> all[k] == tails[k] && tails[k] in tails && CircleAt(links, tails, k);
    }
  }

  lemma SingletonGroup(fs: seq<TxEntry>, g: Graph, rev: bool, idx: nat, prev: nat)
    requires idx + 1 < |fs|
    requires fs[idx + 1] == TxEntry(NO_PREV_TX, idx + 1, prev, {idx}, Deps(g, rev, idx), Rate(g, rev, idx))
    ensures GroupOk(fs, g, rev, [idx])
  {
    hide Rate, Deps, Sum;
    assert Elements([idx]) == {idx};
    SumStep(Rates(g, rev, [idx]));
    assert AllDeps(g, rev, {idx}) == Deps(g, rev, idx);
  }

  lemma SeparateSnoc(groups: seq<seq<nat>>, idx: nat)
    requires Separate(groups) && forall k | 0 <= k < |groups| :: idx !in Elements(groups[k])
    ensures Separate(groups + [[idx]])
    ensures Tails(groups + [[idx]]) == Tails(groups) + [idx + 1]
    ensures idx + 1 !in Tails(groups)
  {
    assert Elements([idx]) == {idx};
    forall k | 0 <= k < |groups|
      ensures Tail(groups[k]) != idx + 1
    {
      assert groups[k][|groups[k]| - 1] in Elements(groups[k]);
    }
  }

  ghost function Appended(es: seq<TxEntry>, g: Graph, rev: bool, idx: nat): seq<TxEntry>
    requires idx + 1 < |es|
  {
    es[idx + 1 := TxEntry(NO_PREV_TX, idx + 1, es[SENTINEL].prevGroup, {idx}, Deps(g, rev, idx), Rate(g, rev, idx))]
      [SENTINEL := es[SENTINEL].(prevGroup := idx + 1)]
  }

  /** Inserting a new singleton group at the back. */
  lemma AppendRep(es: seq<TxEntry>, g: Graph, rev: bool, groups: seq<seq<nat>>, idx: nat)
    requires Rep(es, g, rev, groups) && idx + 1 < |es|
    requires forall k | 0 <= k < |groups| :: idx !in Elements(groups[k])
    ensures Rep(Appended(es, g, rev, idx), g, rev, groups + [[idx]])
  {
    hide AllDeps, Sum, Rates, Deps, Rate, GroupOk, Distinct, Separate, Elements, Circle, Tails;
    var fs, all := Appended(es, g, rev, idx), groups + [[idx]];
    SeparateSnoc(groups, idx);
    forall k | 0 <= k < |all|
      ensures GroupOk(fs, g, rev, all[k])
    {
      if k < |groups| {
        FrameGroup(es, fs, g, rev, groups[k]);
      } else {
        SingletonGroup(fs, g, rev, idx, es[SENTINEL].prevGroup);
      }
    }
    CircleAppend(Links(es), Tails(groups), idx + 1);
    assert Links(fs) == Links(es)[idx + 1 := es[SENTINEL].prevGroup][SENTINEL := idx + 1];
  }

  // ----- swapping -----

  ghost function Swapped<T>(s: seq<T>, c: nat): seq<T>
    requires 0 < c < |s|
  {
    s[c - 1 := s[c]][c := s[c - 1]]
  }

  lemma TailsDiffer(tails: seq<nat>, j: nat, k: nat)
    requires Distinct(tails) && j < |tails| && k < |tails|
    ensures tails[j] == tails[k] <==> j == k
  {
  }

  ghost function SwappedLinks(links: seq<nat>, tails: seq<nat>, c: nat): seq<nat>
    requires 0 < c < |tails| && NextTail(tails, c) < |links| && tails[c - 1] < |links| && tails[c] < |links|
  {
    links[NextTail(tails, c) := tails[c - 1]][tails[c - 1] := tails[c]][tails[c] := PrevTail(tails, c - 1)]
  }

  lemma CircleSwap(links: seq<nat>, tails: seq<nat>, c: nat)
    requires Circle(links, tails) && 0 < c < |tails|
    ensures CircleAt(links, tails, c) && CircleAt(links, tails, c - 1) && NextTail(tails, c) < |links|
    ensures Circle(SwappedLinks(links, tails, c), Swapped(tails, c))
  {
    hide Distinct;
    assert CircleAt(links, tails, c) && CircleAt(links, tails, c - 1);
    assert c + 1 < |tails| ==> CircleAt(links, tails, c + 1);
    var to, all := SwappedLinks(links, tails, c), Swapped(tails, c);
    SwappedDistinct(tails, c);
    forall k | 0 <= k < |all|
      ensures CircleAt(to, all, k)
    {
      assert CircleAt(links, tails, k);
      TailsDiffer(tails, k, c);
      TailsDiffer(tails, k, c - 1);
      TailsDiffer(tails, c, c - 1);
      if c + 1 < |tails| {
        TailsDiffer(tails, k, c + 1);
        TailsDiffer(tails, c, c + 1);
      }
    }
  }

  lemma SwappedDistinct<T>(s: seq<T>, c: nat)
    requires Distinct(s) && 0 < c < |s|
    ensures Distinct(Swapped(s, c))
  {
    var to := Swapped(s, c);
    forall i, j | 0 <= i < j < |to|
      ensures to[i] != to[j]
    {
      var a := if i == c - 1 then c else if i == c then c - 1 else i;
      var b := if j == c - 1 then c else if j == c then c - 1 else j;
      assert to[i] == s[a] && to[j] == s[b] && a != b;
    }
  }

  lemma SeparateSwap(groups: seq<seq<nat>>, c: nat)
    requires Separate(groups) && 0 < c < |groups|
    ensures Separate(Swapped(groups, c)) && Tails(Swapped(groups, c)) == Swapped(Tails(groups), c)
  {
    hide Elements, Distinct;
    var to := Swapped(groups, c);
    forall j, k | 0 <= j < k < |to|
      ensures Elements(to[j]) !! Elements(to[k])
    {
      var a := if j == c - 1 then c else if j == c then c - 1 else j;
      var b := if k == c - 1 then c else if k == c then c - 1 else k;
      assert to[j] == groups[a] && to[k] == groups[b] && a != b;
    }
  }

  /** Relinking three prevGroup fields swaps a group with the one before it. */
  lemma SwapRep(es: seq<TxEntry>, fs: seq<TxEntry>, g: Graph, rev: bool, groups: seq<seq<nat>>, c: nat)
    requires Rep(es, g, rev, groups) && 0 < c < |groups| && |fs| == |es|
    requires forall i | 0 <= i < |es| :: fs[i] == es[i].(prevGroup := fs[i].prevGroup)
    requires var tails := Tails(groups);
             && NextTail(tails, c) < |es| && tails[c - 1] < |es| && tails[c] < |es|
             && Links(fs) == SwappedLinks(Links(es), tails, c)
    ensures Rep(fs, g, rev, Swapped(groups, c))
  {
    hide AllDeps, Sum, Rates, Deps, Rate, GroupOk, Distinct, Separate, Elements, Tails, SwappedLinks;
    var to := Swapped(groups, c);
    SeparateSwap(groups, c);
    forall k | 0 <= k < |to|
      ensures GroupOk(fs, g, rev, to[k])
    {
      var a := if k == c - 1 then c else if k == c then c - 1 else k;
      assert to[k] == groups[a];
      FrameGroup(es, fs, g, rev, groups[a]);
    }
    CircleSwap(Links(es), Tails(groups), c);
  }

  // ----- merging -----

  /** s with position c - 1 dropped and position c replaced. */
  ghost function Joined<T>(s: seq<T>, c: nat, x: T): seq<T>
    requires 0 < c < |s|
  {
    s[..c - 1] + [x] + s[c + 1..]
  }

  lemma CircleJoin(links: seq<nat>, tails: seq<nat>, c: nat)
    requires Circle(links, tails) && 0 < c < |tails|
    ensures CircleAt(links, tails, c)
    ensures Circle(links[tails[c] := PrevTail(tails, c - 1)], Joined(tails, c, tails[c]))
  {
    hide Distinct;
    assert CircleAt(links, tails, c);
    var to, all := links[tails[c] := PrevTail(tails, c - 1)], Joined(tails, c, tails[c]);
    JoinedDistinct(tails, c);
    forall k | 0 <= k < |all|
      ensures CircleAt(to, all, k)
    {
      var j := if k < c - 1 then k else k + 1;
      assert all[k] == tails[j] && CircleAt(links, tails, j);
      TailsDiffer(tails, j, c);
    }
  }

  lemma JoinedDistinct<T>(s: seq<T>, c: nat)
    requires Distinct(s) && 0 < c < |s|
    ensures Distinct(Joined(s, c, s[c]))
  {
    var to := Joined(s, c, s[c]);
    forall i, j | 0 <= i < j < |to|
      ensures to[i] != to[j]
    {
      var a := if i < c - 1 then i else i + 1;
      var b := if j < c - 1 then j else j + 1;
      assert to[i] == s[a] && to[j] == s[b];
    }
  }

  lemma SeparateJoin(groups: seq<seq<nat>>, c: nat)
    requires Separate(groups) && 0 < c < |groups|
    ensures var to := Joined(groups, c, groups[c - 1] + groups[c]);
            Separate(to) && Tails(to) == Joined(Tails(groups), c, Tail(groups[c]))
  {
    var pc := groups[c - 1] + groups[c];
    DistinctConcat(groups[c - 1], groups[c]);
    hide Elements, Distinct;
    var to := Joined(groups, c, pc);
    forall j, k | 0 <= j < k < |to|
      ensures Elements(to[j]) !! Elements(to[k])
    {
      assert j < c - 1 ==> to[j] == groups[j];
      assert k > c - 1 ==> to[k] == groups[k + 1];
      assert j > c - 1 ==> to[j] == groups[j + 1];
      assert k < c - 1 ==> to[k] == groups[k];
    }
  }

  ghost function JoinedEntries(es: seq<TxEntry>, p: nat, c: nat): seq<TxEntry>
    requires p < |es| && c < |es| && es[c].firstTx < |es|
  {
    var e, f := es[c], es[p];
    var fs := es[c := TxEntry(e.prevTx, e.firstTx, e.prevGroup, e.group + f.group, e.deps + f.deps,
                              e.feerate.Plus(f.feerate))];
    var hs := fs[e.firstTx := fs[e.firstTx].(prevTx := p)];
    hs[c := hs[c].(firstTx := f.firstTx, prevGroup := f.prevGroup)]
  }

  /** Chaining the first transaction of a group to the tail of the one before it, and
      adding up the tail fields, joins the two groups. */
  lemma JoinGroup(es: seq<TxEntry>, g: Graph, rev: bool, a: seq<nat>, b: seq<nat>)
    requires GroupOk(es, g, rev, a) && GroupOk(es, g, rev, b)
    requires Distinct(a + b)
    ensures GroupOk(JoinedEntries(es, Tail(a), Tail(b)), g, rev, a + b)
  {
    hide Deps, Rate, Sum, Elements;
    var fs, ab := JoinedEntries(es, Tail(a), Tail(b)), a + b;
    JoinDescription(g, rev, a, b);
    assert Tail(ab) == Tail(b);
    assert forall m | 0 <= m < |a| :: ab[m] == a[m];
    assert forall m | 0 <= m < |b| :: ab[|a| + m] == b[m];
    forall m | 0 <= m < |ab|
      ensures ab[m] + 1 < |fs|
      ensures fs[ab[m] + 1].prevTx == if m == 0 then NO_PREV_TX else ab[m - 1] + 1
    {
      if m < |a| {
        assert ab[m] != ab[|a|];
        assert ab[m] != ab[|ab| - 1];
      } else if m > |a| {
        assert ab[m] != ab[|a|];
      }
    }
  }

  lemma JoinDescription(g: Graph, rev: bool, a: seq<nat>, b: seq<nat>)
    ensures Elements(a + b) == Elements(b) + Elements(a)
    ensures AllDeps(g, rev, Elements(a + b)) == AllDeps(g, rev, Elements(b)) + AllDeps(g, rev, Elements(a))
    ensures Sum(Rates(g, rev, a + b)) == Sum(Rates(g, rev, b)).Plus(Sum(Rates(g, rev, a)))
  {
    DistinctConcat(a, b);
    RatesConcat(g, rev, a, b);
    SumConcat(Rates(g, rev, a), Rates(g, rev, b));
  }

  lemma SeparateParts(groups: seq<seq<nat>>, c: nat)
    requires Separate(groups) && 0 < c < |groups|
    ensures groups[c] != [] && groups[c - 1] != [] && Distinct(groups[c - 1] + groups[c])
    ensures forall j | 0 <= j < |groups| && j != c :: Elements(groups[j]) !! Elements(groups[c])
  {
    DistinctConcat(groups[c - 1], groups[c]);
  }

  lemma TailsAt(es: seq<TxEntry>, groups: seq<seq<nat>>, k: nat)
    requires Separate(groups) && Circle(Links(es), Tails(groups)) && k < |groups|
    ensures Tails(groups)[k] == Tail(groups[k])
    ensures 0 < Tail(groups[k]) < |es| && es[Tail(groups[k])].prevGroup == PrevTail(Tails(groups), k)
  {
    hide Elements, Distinct;
    assert CircleAt(Links(es), Tails(groups), k);
  }

  /** Joining two groups leaves the entries of any other group as they were. */
  lemma JoinFrame(es: seq<TxEntry>, g: Graph, rev: bool, groups: seq<seq<nat>>, c: nat, j: nat)
    requires 0 < c < |groups| && j < |groups| && j != c
    requires GroupOk(es, g, rev, groups[c - 1]) && GroupOk(es, g, rev, groups[c]) && GroupOk(es, g, rev, groups[j])
    requires Elements(groups[j]) !! Elements(groups[c])
    ensures GroupOk(JoinedEntries(es, Tail(groups[c - 1]), Tail(groups[c])), g, rev, groups[j])
  {
    hide AllDeps, Sum, Rates;
    var q := groups[c];
    assert q[0] in Elements(q) && q[|q| - 1] in Elements(q);
    FrameGroup(es, JoinedEntries(es, Tail(groups[c - 1]), Tail(q)), g, rev, groups[j]);
  }

  /** Joining a group with the one before it. */
  lemma JoinRep(es: seq<TxEntry>, g: Graph, rev: bool, groups: seq<seq<nat>>, c: nat)
    requires Rep(es, g, rev, groups) && 0 < c < |groups|
    ensures GroupOk(es, g, rev, groups[c]) && GroupOk(es, g, rev, groups[c - 1])
    ensures Rep(JoinedEntries(es, Tail(groups[c - 1]), Tail(groups[c])), g, rev,
                Joined(groups, c, groups[c - 1] + groups[c]))
  {
    hide AllDeps, Sum, Rates, Deps, Rate, Distinct, Separate, Elements, Circle, Tails;
    var p, q := groups[c - 1], groups[c];
    var fs, to := JoinedEntries(es, Tail(p), Tail(q)), Joined(groups, c, p + q);
    SeparateJoin(groups, c);
    SeparateParts(groups, c);
    JoinGroup(es, g, rev, p, q);
    forall k | 0 <= k < |to|
      ensures GroupOk(fs, g, rev, to[k])
    {
      if k != c - 1 {
        var j := if k < c - 1 then k else k + 1;
        assert to[k] == groups[j];
        JoinFrame(es, g, rev, groups, c, j);
      } else {
        assert to[k] == p + q;
      }
    }
    CircleJoin(Links(es), Tails(groups), c);
    TailsAt(es, groups, c - 1);
    TailsAt(es, groups, c);
    assert Links(fs) == Links(es)[Tail(q) := Links(es)[Tail(p)]];
  }

  // ----- what a pass keeps -----

  /** Every group is tight: only its end shows in the diagram. */
  ghost predicate AllTight(g: Graph, rev: bool, groups: seq<seq<nat>>) {
    forall k | 0 <= k < |groups| :: groups[k] != [] && Tight(Rates(g, rev, groups[k]))
  }

  /** The groups, laid end to end, are a valid rearrangement of seen that is nowhere
      below it. */
  ghost predicate Improves(g: Graph, rev: bool, groups: seq<seq<nat>>, seen: seq<nat>) {
    var flat := Flatten(groups);
    && Distinct(flat) && Distinct(seen) && Elements(flat) == Elements(seen)
    && OrderedFor(g, rev, flat)
    && Dominates(Rates(g, rev, flat), Rates(g, rev, seen))
  }

  lemma {:induction false} SumOfRates(g: Graph, rev: bool, s: seq<nat>)
    ensures Sum(Rates(g, rev, s)) == if rev then Sum(g.Fees(s)).Negated() else Sum(g.Fees(s))
  {
    SumStep(Rates(g, rev, s));
    SumStep(g.Fees(s));
    if s != [] {
      SumOfRates(g, rev, s[1..]);
      assert Rates(g, rev, s)[1..] == Rates(g, rev, s[1..]);
      assert g.Fees(s)[1..] == g.Fees(s[1..]);
    }
  }

  lemma SameRates(g: Graph, rev: bool, a: seq<nat>, b: seq<nat>)
    requires Distinct(a) && Distinct(b) && Elements(a) == Elements(b)
    ensures Sum(Rates(g, rev, a)) == Sum(Rates(g, rev, b))
  {
    hide Sum, Rates, Distinct, Elements;
    SameSum(g, a, b);
    SumOfRates(g, rev, a);
    SumOfRates(g, rev, b);
  }

  lemma FlattenFrom(groups: seq<seq<nat>>, k: nat)
    requires k < |groups|
    ensures Flatten(groups[k..]) == groups[k] + Flatten(groups[k + 1..])
  {
    assert groups[k..][1..] == groups[k + 1..];
  }

  lemma FlattenCut(groups: seq<seq<nat>>, k: nat)
    requires k <= |groups|
    ensures Flatten(groups) == Flatten(groups[..k]) + Flatten(groups[k..])
  {
    hide Flatten;
    FlattenConcat(groups[..k], groups[k..]);
    assert groups == groups[..k] + groups[k..];
  }

  lemma FlattenAt(groups: seq<seq<nat>>, c: nat)
    requires 0 < c < |groups|
    ensures Flatten(groups) == Flatten(groups[..c - 1]) + (groups[c - 1] + groups[c]) + Flatten(groups[c + 1..])
  {
    hide Flatten;
    FlattenCut(groups, c - 1);
    FlattenFrom(groups, c - 1);
    FlattenFrom(groups, c);
    var a, b := Flatten(groups[..c - 1]), Flatten(groups[c + 1..]);
    assert a + (groups[c - 1] + (groups[c] + b)) == a + (groups[c - 1] + groups[c]) + b;
  }

  lemma FlattenJoined(groups: seq<seq<nat>>, c: nat)
    requires 0 < c < |groups|
    ensures Flatten(Joined(groups, c, groups[c - 1] + groups[c])) == Flatten(groups)
  {
    var pre, pc, post := groups[..c - 1], groups[c - 1] + groups[c], groups[c + 1..];
    FlattenAt(groups, c);
    FlattenConcat(pre + [pc], post);
    FlattenConcat(pre, [pc]);
    FlattenOne(pc);
  }

  lemma FlattenSwapped(groups: seq<seq<nat>>, c: nat)
    requires 0 < c < |groups|
    ensures Flatten(Swapped(groups, c)) ==
            Flatten(groups[..c - 1]) + (groups[c] + groups[c - 1]) + Flatten(groups[c + 1..])
  {
    var to := Swapped(groups, c);
    FlattenAt(to, c);
    assert to[..c - 1] == groups[..c - 1] && to[c + 1..] == groups[c + 1..];
  }

  /** A new singleton group at the back. */
  lemma ImproveAppend(g: Graph, rev: bool, groups: seq<seq<nat>>, seen: seq<nat>, idx: nat)
    requires Improves(g, rev, groups, seen) && AllTight(g, rev, groups)
    requires idx !in Elements(seen) && OrderedFor(g, rev, seen + [idx])
    ensures Improves(g, rev, groups + [[idx]], seen + [idx]) && AllTight(g, rev, groups + [[idx]])
  {
    hide Dominates, Sum, Flatten, Tight, Rates, Distinct, Elements, OrderedFor;
    var flat := Flatten(groups);
    FlattenConcat(groups, [[idx]]);
    FlattenOne([idx]);
    DistinctConcat(flat, [idx]);
    DistinctConcat(seen, [idx]);
    SingletonDistinct(idx);
    OrderedConcat(g, rev, flat, [idx]);
    OrderedConcat(g, rev, seen, [idx]);
    SameRates(g, rev, flat, seen);
    DominatesInContext([], Rates(g, rev, flat), Rates(g, rev, seen), Rates(g, rev, [idx]));
    RatesConcat(g, rev, flat, [idx]);
    RatesConcat(g, rev, seen, [idx]);
    assert [] + Rates(g, rev, flat) == Rates(g, rev, flat);
    assert [] + Rates(g, rev, seen) == Rates(g, rev, seen);
    SingletonRates(g, rev, idx);
  }

  lemma SingletonDistinct(idx: nat)
    ensures Distinct([idx]) && Elements([idx]) == {idx}
  {
  }

  lemma SingletonRates(g: Graph, rev: bool, idx: nat)
    ensures Tight(Rates(g, rev, [idx]))
  {
    hide Tight;
    assert Rates(g, rev, [idx]) == [Rate(g, rev, idx)];
    SingletonTight(Rate(g, rev, idx));
  }

  lemma RatesOfGroups(g: Graph, rev: bool, groups: seq<seq<nat>>, seen: seq<nat>, c: nat)
    requires g.PositiveSizes() && Elements(seen) <= g.used && Improves(g, rev, groups, seen) && AllTight(g, rev, groups)
    requires 0 < c < |groups|
    ensures Positive(Rates(g, rev, groups[c])) && Positive(Rates(g, rev, groups[c - 1]))
    ensures Distinct(groups[c - 1]) && Distinct(groups[c]) && Elements(groups[c - 1]) !! Elements(groups[c])
    ensures Elements(groups[c]) <= g.used && Elements(groups[c - 1]) <= g.used
  {
    hide Flatten, Tight, Rates, Distinct, Elements, OrderedFor, Dominates;
    FlattenAt(groups, c);
    var pre, p, q, post := Flatten(groups[..c - 1]), groups[c - 1], groups[c], Flatten(groups[c + 1..]);
    DistinctConcat(pre + (p + q), post);
    DistinctConcat(pre, p + q);
    DistinctConcat(p, q);
    RatesPositive(g, rev, p);
    RatesPositive(g, rev, q);
  }

  /** Joining changes the grouping only. */
  lemma ImproveJoin(g: Graph, rev: bool, groups: seq<seq<nat>>, seen: seq<nat>, c: nat)
    requires g.PositiveSizes() && Elements(seen) <= g.used && Improves(g, rev, groups, seen) && AllTight(g, rev, groups)
    requires 0 < c < |groups| && Sum(Rates(g, rev, groups[c])).Higher(Sum(Rates(g, rev, groups[c - 1])))
    ensures var to := Joined(groups, c, groups[c - 1] + groups[c]);
            Improves(g, rev, to, seen) && AllTight(g, rev, to)
  {
    hide Flatten, Tight, Rates, Distinct, Elements, OrderedFor, Dominates, Sum, FeeFrac.Higher;
    RatesOfGroups(g, rev, groups, seen, c);
    FlattenJoined(groups, c);
    RatesConcat(g, rev, groups[c - 1], groups[c]);
    RatesLength(g, rev, groups[c - 1]);
    RatesLength(g, rev, groups[c]);
    MergeTight(Rates(g, rev, groups[c - 1]), Rates(g, rev, groups[c]));
  }

  lemma RatesLength(g: Graph, rev: bool, s: seq<nat>)
    ensures |Rates(g, rev, s)| == |s|
  {
  }

  /** A group of higher feerate that depends on nothing in the one before may pass it. */
  lemma ImproveSwap(g: Graph, rev: bool, groups: seq<seq<nat>>, seen: seq<nat>, c: nat)
    requires g.PositiveSizes() && Elements(seen) <= g.used && Improves(g, rev, groups, seen) && AllTight(g, rev, groups)
    requires 0 < c < |groups| && Sum(Rates(g, rev, groups[c])).Higher(Sum(Rates(g, rev, groups[c - 1])))
    requires AllDeps(g, rev, Elements(groups[c])) !! Elements(groups[c - 1])
    ensures Improves(g, rev, Swapped(groups, c), seen) && AllTight(g, rev, Swapped(groups, c))
  {
    hide Flatten, Tight, Rates, Distinct, Elements, OrderedFor, Dominates, Sum, FeeFrac.Higher, AllDeps;
    RatesOfGroups(g, rev, groups, seen, c);
    var pre, p, q, post := Flatten(groups[..c - 1]), groups[c - 1], groups[c], Flatten(groups[c + 1..]);
    FlattenAt(groups, c);
    FlattenSwapped(groups, c);
    SwapMiddle(g, rev, pre, p, q, post);
    RatesLength(g, rev, p);
    RatesLength(g, rev, q);
    SwapDominates(Rates(g, rev, p), Rates(g, rev, q));
    DominatesInContext(Rates(g, rev, pre), Rates(g, rev, q) + Rates(g, rev, p), Rates(g, rev, p) + Rates(g, rev, q),
                       Rates(g, rev, post));
    RatesMiddle(g, rev, pre, p, q, post);
    RatesMiddle(g, rev, pre, q, p, post);
    DominatesTransitive(Rates(g, rev, pre + (q + p) + post), Rates(g, rev, pre + (p + q) + post), Rates(g, rev, seen));
  }

  lemma RatesMiddle(g: Graph, rev: bool, pre: seq<nat>, p: seq<nat>, q: seq<nat>, post: seq<nat>)
    ensures Rates(g, rev, pre + (p + q) + post)
         == Rates(g, rev, pre) + (Rates(g, rev, p) + Rates(g, rev, q)) + Rates(g, rev, post)
  {
    hide Rates;
    RatesConcat(g, rev, pre + (p + q), post);
    RatesConcat(g, rev, pre, p + q);
    RatesConcat(g, rev, p, q);
  }

  lemma SwapMiddle(g: Graph, rev: bool, pre: seq<nat>, p: seq<nat>, q: seq<nat>, post: seq<nat>)
    requires Distinct(pre + (p + q) + post) && OrderedFor(g, rev, pre + (p + q) + post)
    requires AllDeps(g, rev, Elements(q)) !! Elements(p)
    ensures Distinct(pre + (q + p) + post) && OrderedFor(g, rev, pre + (q + p) + post)
    ensures Elements(pre + (q + p) + post) == Elements(pre + (p + q) + post)
  {
    hide Distinct, Elements, OrderedFor, AllDeps;
    DistinctConcat(pre + (p + q), post);
    DistinctConcat(pre, p + q);
    DistinctConcat(p, q);
    DistinctConcat(q, p);
    DistinctConcat(pre, q + p);
    DistinctConcat(pre + (q + p), post);
    assert Elements(q + p) == Elements(p + q);
    assert Elements(pre + (q + p)) == Elements(pre + (p + q));
    OrderedConcat(g, rev, pre + (p + q), post);
    OrderedConcat(g, rev, pre, p + q);
    OrderedConcat(g, rev, p, q);
    OrderedConcat(g, rev, q, p);
    OrderedConcat(g, rev, pre, q + p);
    OrderedConcat(g, rev, pre + (q + p), post);
  }

  // ----- the algorithm on lists of groups -----

  ghost predicate Passes(g: Graph, rev: bool, p: seq<nat>, q: seq<nat>) {
    Sum(Rates(g, rev, q)).Higher(Sum(Rates(g, rev, p)))
  }

  ghost predicate DependsOn(g: Graph, rev: bool, q: seq<nat>, p: seq<nat>) {
    AllDeps(g, rev, Elements(q)) * Elements(p) != {}
  }

  /** The groups after the one at position c has moved forward as far as it gets: past those
      of lower feerate it does not depend on, taking in those it does. */
  ghost function Moved(g: Graph, rev: bool, groups: seq<seq<nat>>, c: nat): (r: seq<seq<nat>>)
    requires c < |groups|
    decreases c
  {
    if c == 0 || !Passes(g, rev, groups[c - 1], groups[c]) then groups
    else if DependsOn(g, rev, groups[c], groups[c - 1])
    then Moved(g, rev, Joined(groups, c, groups[c - 1] + groups[c]), c - 1)
    else Moved(g, rev, Swapped(groups, c), c - 1)
  }

  /** The groups of a pass that has read seen. */
  ghost function Grouped(g: Graph, rev: bool, seen: seq<nat>): seq<seq<nat>>
    decreases |seen|
  {
    if seen == [] then []
    else
      var groups := Grouped(g, rev, seen[..|seen| - 1]) + [[seen[|seen| - 1]]];
      Moved(g, rev, groups, |groups| - 1)
  }

  /** What a pass makes of a linearization, and what both passes do. */
  ghost function Passed(g: Graph, rev: bool, lin: seq<nat>): seq<nat> {
    ReadOrder(rev, Flatten(Grouped(g, rev, ReadOrder(rev, lin))))
  }

  ghost function PostLinearized(g: Graph, lin: seq<nat>): seq<nat> {
    Passed(g, false, Passed(g, true, lin))
  }

  lemma GroupedSnoc(g: Graph, rev: bool, seen: seq<nat>, idx: nat)
    ensures var groups := Grouped(g, rev, seen) + [[idx]];
            Grouped(g, rev, seen + [idx]) == Moved(g, rev, groups, |groups| - 1)
  {
    hide Moved;
    var more := seen + [idx];
    assert more[..|more| - 1] == seen;
  }

  // ----- the algorithm in the table -----

  /** The table and the order it stands for, after seen has been taken in. */
  ghost predicate PassInv(es: seq<TxEntry>, g: Graph, rev: bool, groups: seq<seq<nat>>, seen: seq<nat>) {
    Rep(es, g, rev, groups) && Improves(g, rev, groups, seen) && AllTight(g, rev, groups)
  }

  /** The input of a pass in the order in which the pass reads it. */
  ghost function ReadOrder(rev: bool, lin: seq<nat>): (s: seq<nat>)
    ensures |s| == |lin|
  {
    if rev then Reversed(lin) else lin
  }

  lemma StartPass(es: seq<TxEntry>, g: Graph, rev: bool)
    requires |es| > 0 && es[SENTINEL].feerate == EMPTY && es[SENTINEL].prevGroup == SENTINEL
    ensures PassInv(es, g, rev, [], [])
  {
    assert Tails([]) == [];
    assert Flatten<nat>([]) == [];
  }

  lemma AppendPass(es: seq<TxEntry>, g: Graph, rev: bool, groups: seq<seq<nat>>, seen: seq<nat>, idx: nat)
    requires PassInv(es, g, rev, groups, seen) && idx + 1 < |es|
    requires idx !in Elements(seen) && OrderedFor(g, rev, seen + [idx])
    ensures PassInv(Appended(es, g, rev, idx), g, rev, groups + [[idx]], seen + [idx])
  {
    hide Improves, AllTight, Rep, OrderedFor, Elements;
    InFlatten(g, rev, groups, seen);
    AppendRep(es, g, rev, groups, idx);
    ImproveAppend(g, rev, groups, seen, idx);
  }

  lemma InFlatten(g: Graph, rev: bool, groups: seq<seq<nat>>, seen: seq<nat>)
    requires Improves(g, rev, groups, seen)
    ensures forall k | 0 <= k < |groups| :: Elements(groups[k]) <= Elements(seen)
  {
    hide Distinct, OrderedFor, Dominates;
    forall k | 0 <= k < |groups|
      ensures Elements(groups[k]) <= Elements(Flatten(groups))
    {
      GroupInFlatten(groups, k);
    }
  }

  lemma GroupInFlatten(groups: seq<seq<nat>>, k: nat)
    requires k < |groups|
    ensures Elements(groups[k]) <= Elements(Flatten(groups))
    ensures Flatten(groups[k..]) == groups[k] + Flatten(groups[k + 1..])
  {
    assert groups == groups[..k] + groups[k..];
    FlattenConcat(groups[..k], groups[k..]);
    assert groups[k..][1..] == groups[k + 1..];
    DistinctConcat(Flatten(groups[..k]), Flatten(groups[k..]));
    DistinctConcat(groups[k], Flatten(groups[k + 1..]));
  }

  /** What the fields of the table say about the group at position c. */
  lemma GroupFields(es: seq<TxEntry>, g: Graph, rev: bool, groups: seq<seq<nat>>, c: nat)
    requires Rep(es, g, rev, groups) && c < |groups|
    ensures var t := Tail(groups[c]);
            && 0 < t < |es| && Tails(groups)[c] == t
            && es[t].prevGroup == PrevTail(Tails(groups), c)
            && es[t].group == Elements(groups[c])
            && es[t].deps == AllDeps(g, rev, Elements(groups[c]))
            && es[t].feerate == Sum(Rates(g, rev, groups[c]))
            && es[t].firstTx < |es|
    ensures es[SENTINEL].prevGroup == PrevTail(Tails(groups), |groups|)
  {
    hide AllDeps, Sum, Rates, Separate, Elements, Distinct;
    TailsAt(es, groups, c);
    assert GroupOk(es, g, rev, groups[c]);
  }

  /** The table with the two groups at c - 1 and c swapped. */
  lemma SwapPass(es: seq<TxEntry>, fs: seq<TxEntry>, g: Graph, rev: bool, groups: seq<seq<nat>>, seen: seq<nat>, c: nat)
    requires g.PositiveSizes() && Elements(seen) <= g.used && PassInv(es, g, rev, groups, seen) && 0 < c < |groups|
    requires var p, q, n := Tails(groups)[c - 1], Tails(groups)[c], NextTail(Tails(groups), c);
             && p < |es| && q < |es| && n < |es|
             && es[q].feerate.Higher(es[p].feerate) && es[q].deps !! es[p].group
             && fs == es[n := es[n].(prevGroup := p)]
                        [p := es[p].(prevGroup := q)]
                        [q := es[q].(prevGroup := PrevTail(Tails(groups), c - 1))]
    ensures PassInv(fs, g, rev, Swapped(groups, c), seen)
  {
    hide AllDeps, Sum, Rates, Separate, Elements, Distinct, AllGroupsOk, Improves, AllTight, Tails, FeeFrac.Higher;
    GroupFields(es, g, rev, groups, c);
    GroupFields(es, g, rev, groups, c - 1);
    var tails := Tails(groups);
    CircleSwap(Links(es), tails, c);
    NextTailDiffers(Links(es), tails, c);
    assert Links(fs) == SwappedLinks(Links(es), tails, c);
    SwapRep(es, fs, g, rev, groups, c);
    ImproveSwap(g, rev, groups, seen, c);
  }

  lemma NextTailDiffers(links: seq<nat>, tails: seq<nat>, c: nat)
    requires Circle(links, tails) && 0 < c < |tails|
    ensures NextTail(tails, c) != tails[c] && NextTail(tails, c) != tails[c - 1] && tails[c] != tails[c - 1]
    ensures tails[c] > 0 && tails[c - 1] > 0
  {
    assert CircleAt(links, tails, c) && CircleAt(links, tails, c - 1);
  }

  lemma JoinPass(es: seq<TxEntry>, g: Graph, rev: bool, groups: seq<seq<nat>>, seen: seq<nat>, c: nat)
    requires g.PositiveSizes() && Elements(seen) <= g.used && PassInv(es, g, rev, groups, seen) && 0 < c < |groups|
    requires var p, q := Tail(groups[c - 1]), Tail(groups[c]);
             p < |es| && q < |es| && es[q].firstTx < |es| && es[q].feerate.Higher(es[p].feerate)
    ensures PassInv(JoinedEntries(es, Tail(groups[c - 1]), Tail(groups[c])), g, rev,
                    Joined(groups, c, groups[c - 1] + groups[c]), seen)
    ensures Tails(Joined(groups, c, groups[c - 1] + groups[c])) == Joined(Tails(groups), c, Tails(groups)[c])
  {
    hide AllDeps, Sum, Rates, Elements, Distinct, AllGroupsOk, Improves, AllTight, FeeFrac.Higher;
    GroupFields(es, g, rev, groups, c);
    GroupFields(es, g, rev, groups, c - 1);
    JoinRep(es, g, rev, groups, c);
    SeparateJoin(groups, c);
    ImproveJoin(g, rev, groups, seen, c);
  }

  /** Where the tails around position c are in the table. */
  lemma Positions(es: seq<TxEntry>, g: Graph, rev: bool, groups: seq<seq<nat>>, seen: seq<nat>, c: nat)
    requires PassInv(es, g, rev, groups, seen) && c < |groups|
    ensures var tails := Tails(groups);
            && tails[c] == Tail(groups[c]) && 0 < tails[c] < |es|
            && es[tails[c]].prevGroup == PrevTail(tails, c) < |es|
            && es[tails[c]].firstTx < |es|
            && NextTail(tails, c) < |es|
            && es[SENTINEL].prevGroup == PrevTail(tails, |groups|)
    ensures c > 0 ==> groups[c] != [] && groups[c - 1] != [] && Tail(groups[c]) != Tail(groups[c - 1])
  {
    hide AllDeps, Sum, Rates, Elements, Distinct, AllGroupsOk, Improves, AllTight;
    GroupFields(es, g, rev, groups, c);
    if c > 0 {
      GroupFields(es, g, rev, groups, c - 1);
      NextTailDiffers(Links(es), Tails(groups), c);
    }
    if c + 1 < |groups| {
      GroupFields(es, g, rev, groups, c + 1);
    }
  }

  /** The sentinel has no feerate, so nothing passes it. */
  lemma NotSentinel(es: seq<TxEntry>, g: Graph, rev: bool, groups: seq<seq<nat>>, seen: seq<nat>, c: nat)
    requires PassInv(es, g, rev, groups, seen) && c < |groups|
    requires var tails := Tails(groups);
             tails[c] < |es| && PrevTail(tails, c) < |es| && es[tails[c]].feerate.Higher(es[PrevTail(tails, c)].feerate)
    ensures c > 0
  {
  }

  lemma UsedSnoc(g: Graph, seen: seq<nat>, idx: nat)
    requires Elements(seen) <= g.used && idx in g.used
    ensures Elements(seen + [idx]) <= g.used
  {
  }

  lemma SwappedTails(groups: seq<seq<nat>>, c: nat)
    requires 0 < c < |groups|
    ensures Tails(Swapped(groups, c)) == Swapped(Tails(groups), c)
  {
  }

  /** cur, prev and next are the tails of the group at position c and its neighbours. */
  ghost predicate At(groups: seq<seq<nat>>, c: nat, cur: nat, prev: nat, next: nat) {
    && c < |groups|
    && cur == Tails(groups)[c] && prev == PrevTail(Tails(groups), c) && next == NextTail(Tails(groups), c)
  }

  lemma AtJoined(groups: seq<seq<nat>>, c: nat, cur: nat, prev: nat, next: nat)
    requires At(groups, c, cur, prev, next) && 0 < c
    requires Tails(Joined(groups, c, groups[c - 1] + groups[c])) == Joined(Tails(groups), c, Tails(groups)[c])
    ensures At(Joined(groups, c, groups[c - 1] + groups[c]), c - 1, cur, PrevTail(Tails(groups), c - 1), next)
  {
  }

  lemma AtSwapped(groups: seq<seq<nat>>, c: nat, cur: nat, prev: nat, next: nat)
    requires At(groups, c, cur, prev, next) && 0 < c
    ensures At(Swapped(groups, c), c - 1, cur, PrevTail(Tails(groups), c - 1), prev)
  {
    SwappedTails(groups, c);
  }

  /** Absorbs the previous group into the current one. */
  method JoinPrevious(g: Graph, entries: array<TxEntry>, rev: bool, cur: nat, prev: nat, ghost next: nat,
                      ghost groups: seq<seq<nat>>, ghost seen: seq<nat>, ghost c: nat)
    returns (newPrev: nat, ghost after: seq<seq<nat>>)
    requires g.PositiveSizes() && Elements(seen) <= g.used
    requires PassInv(entries[..], g, rev, groups, seen) && 0 < c && At(groups, c, cur, prev, next)
    requires cur < entries.Length && prev < entries.Length && entries[cur].feerate.Higher(entries[prev].feerate)
    modifies entries
    ensures PassInv(entries[..], g, rev, after, seen) && At(after, c - 1, cur, newPrev, next)
    ensures after == Joined(groups, c, groups[c - 1] + groups[c])
  {
    hide Graph.PositiveSizes, Rep, Improves, AllTight, Elements, FeeFrac.Higher, FeeFrac.Plus, Tails;
    ghost var es := entries[..];
    Positions(es, g, rev, groups, seen, c);
    Positions(es, g, rev, groups, seen, c - 1);
    JoinPass(es, g, rev, groups, seen, c);
    AtJoined(groups, c, cur, prev, next);
    var e, f := entries[cur], entries[prev];
    entries[cur] := TxEntry(e.prevTx, e.firstTx, e.prevGroup, e.group + f.group, e.deps + f.deps,
                            e.feerate.Plus(f.feerate));
    entries[e.firstTx] := entries[e.firstTx].(prevTx := prev);
    entries[cur] := entries[cur].(firstTx := f.firstTx);
    newPrev := entries[prev].prevGroup;
    entries[cur] := entries[cur].(prevGroup := newPrev);
    assert entries[..] == JoinedEntries(es, Tail(groups[c - 1]), Tail(groups[c]));
    after := Joined(groups, c, groups[c - 1] + groups[c]);
  }

  /** Moves the current group before the previous one. */
  method SwapPrevious(g: Graph, entries: array<TxEntry>, rev: bool, cur: nat, prev: nat, next: nat,
                      ghost groups: seq<seq<nat>>, ghost seen: seq<nat>, ghost c: nat)
    returns (preprev: nat, ghost after: seq<seq<nat>>)
    requires g.PositiveSizes() && Elements(seen) <= g.used
    requires PassInv(entries[..], g, rev, groups, seen) && 0 < c && At(groups, c, cur, prev, next)
    requires cur < entries.Length && prev < entries.Length && entries[cur].feerate.Higher(entries[prev].feerate)
    requires entries[cur].deps * entries[prev].group == {}
    modifies entries
    ensures PassInv(entries[..], g, rev, after, seen) && At(after, c - 1, cur, preprev, prev)
    ensures after == Swapped(groups, c)
  {
    hide Graph.PositiveSizes, Rep, Improves, AllTight, Elements, FeeFrac.Higher, FeeFrac.Plus, Tails;
    ghost var es := entries[..];
    Positions(es, g, rev, groups, seen, c);
    Positions(es, g, rev, groups, seen, c - 1);
    AtSwapped(groups, c, cur, prev, next);
    NextApart(es, g, rev, groups, seen, c);
    NothingShared(entries[cur].deps, entries[prev].group);
    preprev := entries[prev].prevGroup;
    entries[next] := entries[next].(prevGroup := prev);
    entries[prev] := entries[prev].(prevGroup := cur);
    entries[cur] := entries[cur].(prevGroup := preprev);
    SwapPass(es, entries[..], g, rev, groups, seen, c);
    after := Swapped(groups, c);
  }

  lemma NothingShared(a: set<nat>, b: set<nat>)
    requires a * b == {}
    ensures a !! b
  {
    assert forall x | x in a :: x in b ==> x in a * b;
  }

  lemma NextApart(es: seq<TxEntry>, g: Graph, rev: bool, groups: seq<seq<nat>>, seen: seq<nat>, c: nat)
    requires PassInv(es, g, rev, groups, seen) && 0 < c < |groups|
    ensures var tails := Tails(groups); NextTail(tails, c) != tails[c] && NextTail(tails, c) != tails[c - 1]
  {
    hide Separate, AllGroupsOk, Improves, AllTight, Tails;
    NextTailDiffers(Links(es), Tails(groups), c);
  }

  /** Takes in one more transaction: a new group is put at the back and moves forward,
      past groups of lower feerate it does not depend on, absorbing those it does. */
  method TakeIn(g: Graph, entries: array<TxEntry>, rev: bool, idx: nat, ghost groups: seq<seq<nat>>,
                ghost seen: seq<nat>)
    returns (ghost after: seq<seq<nat>>)
    requires g.PositiveSizes() && Elements(seen) <= g.used && idx in g.used && idx + 1 < entries.Length
    requires PassInv(entries[..], g, rev, groups, seen)
    requires idx !in Elements(seen) && OrderedFor(g, rev, seen + [idx])
    modifies entries
    ensures PassInv(entries[..], g, rev, after, seen + [idx])
    ensures after == Moved(g, rev, groups + [[idx]], |groups|)
  {
    hide Moved, Passes, DependsOn, Graph.PositiveSizes, Rep, Improves, AllTight, OrderedFor, Elements, FeeFrac.Higher,
         FeeFrac.Plus, Deps, Rate, Tails;
    ghost var es := entries[..];
    UsedSnoc(g, seen, idx);
    AppendPass(es, g, rev, groups, seen, idx);
    var cur := idx + 1;
    entries[cur] := TxEntry(NO_PREV_TX, cur, entries[SENTINEL].prevGroup, {idx}, Deps(g, rev, idx), Rate(g, rev, idx));
    entries[SENTINEL] := entries[SENTINEL].(prevGroup := cur);
    assert entries[..] == Appended(es, g, rev, idx);
    ghost var now := seen + [idx];
    after := groups + [[idx]];
    ghost var c: nat := |groups|;
    Positions(entries[..], g, rev, after, now, c);
    assert Tail([idx]) == cur;
    var next: nat := SENTINEL;
    var prev: nat := entries[cur].prevGroup;
    while entries[cur].feerate.Higher(entries[prev].feerate)
      invariant PassInv(entries[..], g, rev, after, now) && At(after, c, cur, prev, next)
      invariant Moved(g, rev, after, c) == Moved(g, rev, groups + [[idx]], |groups|)
      invariant cur < entries.Length && prev < entries.Length
      decreases c
    {
      NotSentinel(entries[..], g, rev, after, now, c);
      FieldsDecide(entries[..], g, rev, after, now, c, cur, prev, next);
      MovedStep(g, rev, after, c);
      if entries[cur].deps * entries[prev].group != {} {
        prev, after := JoinPrevious(g, entries, rev, cur, prev, next, after, now, c);
      } else {
        var preprev: nat;
        preprev, after := SwapPrevious(g, entries, rev, cur, prev, next, after, now, c);
        next := prev;
        prev := preprev;
      }
      c := c - 1;
      Positions(entries[..], g, rev, after, now, c);
    }
    FieldsDecide(entries[..], g, rev, after, now, c, cur, prev, next);
    MovedStep(g, rev, after, c);
  }

  /** The fields of the table tell whether the current group passes the one before it, and
      whether it depends on that. */
  lemma FieldsDecide(es: seq<TxEntry>, g: Graph, rev: bool, groups: seq<seq<nat>>, seen: seq<nat>, c: nat, cur: nat,
                     prev: nat, next: nat)
    requires PassInv(es, g, rev, groups, seen) && At(groups, c, cur, prev, next) && cur < |es| && prev < |es|
    ensures es[cur].feerate.Higher(es[prev].feerate) <==> c > 0 && Passes(g, rev, groups[c - 1], groups[c])
    ensures c > 0 ==> (es[cur].deps * es[prev].group != {} <==> DependsOn(g, rev, groups[c], groups[c - 1]))
  {
    hide AllDeps, Sum, Rates, Elements, Distinct, Separate, AllGroupsOk, Improves, AllTight;
    GroupFields(es, g, rev, groups, c);
    if c > 0 {
      GroupFields(es, g, rev, groups, c - 1);
    }
  }

  lemma MovedStep(g: Graph, rev: bool, groups: seq<seq<nat>>, c: nat)
    requires c < |groups|
    ensures c == 0 || !Passes(g, rev, groups[c - 1], groups[c]) ==> Moved(g, rev, groups, c) == groups
    ensures c > 0 && Passes(g, rev, groups[c - 1], groups[c]) ==>
              Moved(g, rev, groups, c) ==
              if DependsOn(g, rev, groups[c], groups[c - 1])
              then Moved(g, rev, Joined(groups, c, groups[c - 1] + groups[c]), c - 1)
              else Moved(g, rev, Swapped(groups, c), c - 1)
  {
  }

  // ----- passes over the linearization -----

  lemma ReadOrderFacts(g: Graph, rev: bool, lin: seq<nat>)
    requires g.Valid() && Elements(lin) <= g.used && Distinct(lin) && g.TopoOrdered(lin)
    ensures var s := ReadOrder(rev, lin);
            Distinct(s) && Elements(s) == Elements(lin) && OrderedFor(g, rev, s)
  {
    var s, n := ReadOrder(rev, lin), |lin|;
    assert forall i | 0 <= i < n :: lin[i] in Elements(lin);
    if rev {
      forall x | x in Elements(lin)
        ensures x in Elements(s)
      {
        var i :| 0 <= i < n && lin[i] == x;
        assert s[n - 1 - i] == x;
      }
      forall i, j | 0 <= i < j < n
        ensures s[j] !in Deps(g, rev, s[i])
      {
        assert lin[n - 1 - i] !in g.Ancestors(lin[n - 1 - j]);
      }
    }
  }

  lemma ReadOrderPrefix(g: Graph, rev: bool, s: seq<nat>, i: nat)
    requires Distinct(s) && OrderedFor(g, rev, s) && i < |s|
    ensures s[..i + 1] == s[..i] + [s[i]]
    ensures s[i] !in Elements(s[..i]) && OrderedFor(g, rev, s[..i + 1])
    ensures Elements(s[..i]) <= Elements(s) && s[i] in Elements(s)
  {
  }

  /** Reading a better order back gives a better linearization. */
  lemma ReadBack(g: Graph, rev: bool, lin: seq<nat>, flat: seq<nat>)
    requires g.Valid() && Elements(lin) <= g.used && Distinct(lin)
    requires Distinct(flat) && Elements(flat) == Elements(lin) && OrderedFor(g, rev, flat)
    requires Dominates(Rates(g, rev, flat), Rates(g, rev, ReadOrder(rev, lin)))
    ensures var out := ReadOrder(rev, flat);
            && Distinct(out) && Elements(out) == Elements(lin) && g.TopoOrdered(out)
            && Dominates(g.Fees(out), g.Fees(lin))
  {
    hide Elements, Distinct, OrderedFor, Reversed, Dominates, Graph.TopoOrdered;
    var out := ReadOrder(rev, flat);
    ReadBackOrder(g, rev, flat);
    RatesReadBack(g, rev, flat);
    RatesReadBack(g, rev, ReadOrder(rev, lin));
    ReadTwice(rev, lin);
    SameSum(g, out, lin);
    if rev {
      ReversedDominates(g.Fees(out), g.Fees(lin));
    }
  }

  lemma ReadTwice(rev: bool, lin: seq<nat>)
    ensures ReadOrder(rev, ReadOrder(rev, lin)) == lin
  {
  }

  lemma RatesReadBack(g: Graph, rev: bool, s: seq<nat>)
    ensures Rates(g, rev, s) == if rev then NegatedFees(Reversed(g.Fees(ReadOrder(rev, s)))) else g.Fees(s)
  {
  }

  lemma ReadBackOrder(g: Graph, rev: bool, flat: seq<nat>)
    requires g.Valid() && Elements(flat) <= g.used && Distinct(flat) && OrderedFor(g, rev, flat)
    ensures var out := ReadOrder(rev, flat);
            Distinct(out) && Elements(out) == Elements(flat) && g.TopoOrdered(out)
  {
    var out, n := ReadOrder(rev, flat), |flat|;
    if rev {
      forall x | x in Elements(flat)
        ensures x in Elements(out)
      {
        var i :| 0 <= i < n && flat[i] == x;
        assert out[n - 1 - i] == x;
      }
      forall i, j | 0 <= i < j < n
        ensures out[j] !in g.Ancestors(out[i])
      {
        assert flat[n - 1 - i] !in Deps(g, rev, flat[n - 1 - j]);
        assert out[i] in Elements(flat);
      }
    }
  }

  /** How a group is read from its entries, back to front. */
  lemma ChainStep(es: seq<TxEntry>, g: Graph, rev: bool, groups: seq<seq<nat>>, seen: seq<nat>, k: nat, m: nat)
    requires PassInv(es, g, rev, groups, seen) && k < |groups| && 0 < m <= |groups[k]|
    ensures groups[k][m - 1] + 1 < |es|
    ensures es[groups[k][m - 1] + 1].prevTx == (if m == 1 then NO_PREV_TX else groups[k][m - 2] + 1) < |es|
    ensures groups[k][m - 1..] == [groups[k][m - 1]] + groups[k][m..]
  {
    hide Separate, Circle, Improves, AllTight, Described;
    assert Chained(es, groups[k]) by {
      assert GroupOk(es, g, rev, groups[k]);
    }
  }

  lemma Lengths(g: Graph, rev: bool, groups: seq<seq<nat>>, seen: seq<nat>, k: nat)
    requires Improves(g, rev, groups, seen) && k < |groups|
    ensures |Flatten(groups)| == |seen|
    ensures Flatten(groups[k..]) == groups[k] + Flatten(groups[k + 1..])
    ensures |Flatten(groups[k..])| <= |Flatten(groups)|
  {
    hide OrderedFor, Dominates;
    DistinctLength(Flatten(groups));
    DistinctLength(seen);
    GroupInFlatten(groups, k);
    assert groups == groups[..k] + groups[k..];
    FlattenConcat(groups[..k], groups[k..]);
  }

  /** The part of the output written so far, when rest is what has been written. */
  ghost predicate Written(rev: bool, out: seq<nat>, rest: seq<nat>) {
    && |rest| <= |out|
    && if rev then out[..|rest|] == Reversed(rest) else out[|out| - |rest|..] == rest
  }

  lemma WriteOne(rev: bool, out: seq<nat>, rest: seq<nat>, x: nat)
    requires Written(rev, out, rest) && |rest| < |out|
    ensures var at := if rev then |rest| else |out| - |rest| - 1;
            Written(rev, out[at := x], [x] + rest)
  {
    assert ([x] + rest)[1..] == rest;
    if rev {
      var to := out[|rest| := x];
      assert to[..|rest| + 1] == out[..|rest|] + [x];
    }
  }

  lemma AllWritten(rev: bool, out: seq<nat>, rest: seq<nat>)
    requires Written(rev, out, rest) && |rest| == |out|
    ensures out == ReadOrder(rev, rest)
  {
    assert out[..|out|] == out && out[0..] == out;
  }

  lemma ReadAt(rev: bool, lin: seq<nat>, i: nat)
    requires i < |lin|
    ensures ReadOrder(rev, lin)[i] == lin[if rev then |lin| - 1 - i else i]
  {
  }

  lemma InRangeOf(g: Graph, input: seq<nat>, i: nat)
    requires g.Valid() && Elements(input) <= g.used && i < |input|
    ensures input[i] in g.used && input[i] < |g.entries|
    ensures Elements(input[..i]) <= g.used
  {
  }

  lemma SentinelLink(es: seq<TxEntry>, g: Graph, rev: bool, groups: seq<seq<nat>>, seen: seq<nat>)
    requires PassInv(es, g, rev, groups, seen)
    ensures es[SENTINEL].prevGroup == PrevTail(Tails(groups), |groups|) < |es|
  {
    if groups != [] {
      Positions(es, g, rev, groups, seen, |groups| - 1);
    }
  }

  lemma NothingWritten(rev: bool, out: seq<nat>, groups: seq<seq<nat>>)
    ensures Flatten(groups[|groups|..]) == [] && Written(rev, out, [])
  {
  }

  lemma SentinelFirst(es: seq<TxEntry>, g: Graph, rev: bool, groups: seq<seq<nat>>, seen: seq<nat>, k: nat)
    requires PassInv(es, g, rev, groups, seen) && k <= |groups|
    ensures PrevTail(Tails(groups), k) == SENTINEL <==> k == 0
  {
    if k > 0 {
      Positions(es, g, rev, groups, seen, k - 1);
    }
  }

  lemma FinishPass(es: seq<TxEntry>, g: Graph, rev: bool, groups: seq<seq<nat>>, lin: seq<nat>, out: seq<nat>, k: nat)
    requires g.Valid() && Elements(lin) <= g.used && Distinct(lin) && |out| == |lin| && k <= |groups|
    requires PassInv(es, g, rev, groups, ReadOrder(rev, lin)) && Elements(ReadOrder(rev, lin)) == Elements(lin)
    requires PrevTail(Tails(groups), k) == SENTINEL && Written(rev, out, Flatten(groups[k..]))
    ensures es[SENTINEL].feerate == EMPTY
    ensures out == ReadOrder(rev, Flatten(groups))
    ensures Distinct(out) && Elements(out) == Elements(lin) && g.TopoOrdered(out)
    ensures Dominates(g.Fees(out), g.Fees(lin))
  {
    hide Graph.StoresClosure, OrderedFor, Elements, Distinct, Tails, Reversed, Dominates, Flatten, Graph.TopoOrdered,
         Graph.Fees, Written, Separate, AllGroupsOk, Circle, AllTight;
    SentinelFirst(es, g, rev, groups, ReadOrder(rev, lin), k);
    assert groups[0..] == groups;
    DistinctLength(Flatten(groups));
    DistinctLength(ReadOrder(rev, lin));
    AllWritten(rev, out, Flatten(groups));
    ReadBack(g, rev, lin, Flatten(groups));
  }

  /** Writes the groups back over the linearization, last group first and each group from
      its tail: back to front after a forward pass, front to back after a backward one. */
  method WriteBack(g: Graph, entries: array<TxEntry>, rev: bool, linearization: array<nat>, ghost groups: seq<seq<nat>>)
    requires g.Valid() && Elements(linearization[..]) <= g.used && Distinct(linearization[..])
    requires PassInv(entries[..], g, rev, groups, ReadOrder(rev, linearization[..]))
    requires Elements(ReadOrder(rev, linearization[..])) == Elements(linearization[..])
    modifies linearization
    ensures entries.Length > 0 && entries[SENTINEL].feerate == EMPTY
    ensures linearization[..] == ReadOrder(rev, Flatten(groups))
    ensures Distinct(linearization[..]) && Elements(linearization[..]) == Elements(old(linearization[..]))
    ensures g.TopoOrdered(linearization[..])
    ensures Dominates(g.Fees(linearization[..]), g.Fees(old(linearization[..])))
  {
    hide Graph.StoresClosure, Rep, Improves, AllTight, Elements, Distinct, Tails, Reversed, Dominates, Flatten,
         Graph.TopoOrdered, Graph.Fees, Written;
    ghost var lin := linearization[..];
    ghost var input := ReadOrder(rev, lin);
    ghost var es := entries[..];
    var n := linearization.Length;
    SentinelLink(es, g, rev, groups, input);
    var cur := entries[SENTINEL].prevGroup;
    var done := 0;
    ghost var k: nat := |groups|;
    NothingWritten(rev, linearization[..], groups);
    while cur != SENTINEL
      invariant entries[..] == es && linearization.Length == n
      invariant k <= |groups| && cur == PrevTail(Tails(groups), k) && cur < entries.Length
      invariant done == |Flatten(groups[k..])| && Written(rev, linearization[..], Flatten(groups[k..]))
      decreases k
    {
      SentinelFirst(es, g, rev, groups, input, k);
      k := k - 1;
      Lengths(g, rev, groups, input, k);
      Positions(es, g, rev, groups, input, k);
      var tx := cur;
      ghost var m: nat := |groups[k]|;
      ghost var rest := Flatten(groups[k + 1..]);
      assert groups[k][m..] + rest == rest;
      while tx != NO_PREV_TX
        invariant entries[..] == es && linearization.Length == n
        invariant m <= |groups[k]| && tx == (if m == 0 then NO_PREV_TX else groups[k][m - 1] + 1) && tx < entries.Length
        invariant done == |groups[k][m..] + rest| && Written(rev, linearization[..], groups[k][m..] + rest)
        decreases m
      {
        ChainStep(es, g, rev, groups, input, k, m);
        WriteOne(rev, linearization[..], groups[k][m..] + rest, tx - 1);
        assert groups[k][m - 1..] + rest == [tx - 1] + (groups[k][m..] + rest);
        if rev {
          linearization[done] := tx - 1;
        } else {
          linearization[n - 1 - done] := tx - 1;
        }
        done := done + 1;
        tx := entries[tx].prevTx;
        m := m - 1;
      }
      assert groups[k][0..] == groups[k];
      cur := entries[cur].prevGroup;
    }
    FinishPass(es, g, rev, groups, lin, linearization[..], k);
  }

  /** One pass, backward or forward: the linearization is replaced by what moving its
      transactions forward in groups makes of it, which is valid and nowhere below it. */
  method Pass(g: Graph, entries: array<TxEntry>, rev: bool, linearization: array<nat>)
    requires g.Valid() && g.PositiveSizes() && entries.Length == |g.entries| + 1
    requires entries[SENTINEL].feerate == EMPTY
    requires Elements(linearization[..]) <= g.used && Distinct(linearization[..]) && g.TopoOrdered(linearization[..])
    modifies entries, linearization
    ensures entries[SENTINEL].feerate == EMPTY
    ensures linearization[..] == Passed(g, rev, old(linearization[..]))
    ensures Distinct(linearization[..]) && Elements(linearization[..]) == Elements(old(linearization[..]))
    ensures g.TopoOrdered(linearization[..])
    ensures Dominates(g.Fees(linearization[..]), g.Fees(old(linearization[..])))
  {
    hide Graph.StoresClosure, Graph.PositiveSizes, Rep, Improves, AllTight, OrderedFor, Elements, Distinct, Reversed,
         Dominates, Graph.TopoOrdered, Graph.Fees, Moved, Flatten;
    ghost var lin := linearization[..];
    ghost var input := ReadOrder(rev, lin);
    ReadOrderFacts(g, rev, lin);
    entries[SENTINEL] := entries[SENTINEL].(prevGroup := SENTINEL);
    ghost var groups: seq<seq<nat>> := [];
    StartPass(entries[..], g, rev);
    assert input[..0] == [];
    assert Grouped(g, rev, []) == [];
    var n := linearization.Length;
    var i := 0;
    while i < n
      invariant i <= n && linearization[..] == lin
      invariant PassInv(entries[..], g, rev, groups, input[..i])
      invariant groups == Grouped(g, rev, input[..i])
    {
      var idx := linearization[if rev then n - 1 - i else i];
      ReadAt(rev, lin, i);
      ReadOrderPrefix(g, rev, input, i);
      InRangeOf(g, input, i);
      GroupedSnoc(g, rev, input[..i], idx);
      groups := TakeIn(g, entries, rev, idx, groups, input[..i]);
      i := i + 1;
    }
    assert input[..n] == input;
    WriteBack(g, entries, rev, linearization, groups);
  }

  // ----- what a pass reaches -----

  /** No group has a higher feerate than the one before it. */
  ghost predicate Falling(g: Graph, rev: bool, groups: seq<seq<nat>>) {
    forall k | 0 < k < |groups| :: !Passes(g, rev, groups[k - 1], groups[k])
  }

  /** Leaving out the group at position c, none has a higher feerate than the one before it;
      nor has the one after c than that at c. */
  ghost predicate FallingBut(g: Graph, rev: bool, groups: seq<seq<nat>>, c: nat) {
    && (forall k | 0 < k < |groups| && k != c && k != c + 1 :: !Passes(g, rev, groups[k - 1], groups[k]))
    && (0 < c && c + 1 < |groups| ==> !Passes(g, rev, groups[c - 1], groups[c + 1]))
    && (c + 1 < |groups| ==> !Passes(g, rev, groups[c], groups[c + 1]))
  }

  /** The group is a chunk by itself, and connected. */
  ghost predicate ChunkGroup(g: Graph, rev: bool, grp: seq<nat>) {
    IsChunk(Rates(g, rev, grp)) && Connected(g, Elements(grp)) && Elements(grp) <= g.used
  }

  ghost predicate ChunkGroups(g: Graph, rev: bool, groups: seq<seq<nat>>) {
    forall k | 0 <= k < |groups| :: ChunkGroup(g, rev, groups[k])
  }

  lemma GroupSize(g: Graph, rev: bool, grp: seq<nat>)
    requires g.PositiveSizes() && ChunkGroup(g, rev, grp)
    ensures Sum(Rates(g, rev, grp)).size > 0
  {
    RatesPositive(g, rev, grp);
    SumPositive(Rates(g, rev, grp));
  }

  lemma SingletonGroupIsChunk(g: Graph, rev: bool, idx: nat)
    requires idx in g.used
    ensures ChunkGroup(g, rev, [idx])
  {
    hide Related;
    assert Elements([idx]) == {idx};
  }

  lemma JoinedConnected(g: Graph, s: set<nat>, t: set<nat>, a: nat, b: nat)
    requires Connected(g, s) && Connected(g, t) && a in s && b in t && Related(g, a, b)
    ensures Connected(g, s + t)
  {
    hide Related;
    forall c: set<nat> | c != {} && ClosedUnderRelated(g, c, s + t)
      ensures c == s + t
    {
      ClosedPart(g, c, s, t);
      ClosedPart(g, c, t, s);
      SymmetricRelation(g);
      assert c == c * s + c * t;
      assert a in c <==> b in c;
    }
  }

  lemma ClosedPart(g: Graph, c: set<nat>, s: set<nat>, t: set<nat>)
    requires ClosedUnderRelated(g, c, s + t)
    ensures ClosedUnderRelated(g, c * s, s)
  {
    hide Related;
  }

  lemma DependenceRelates(g: Graph, rev: bool, q: seq<nat>, p: seq<nat>)
    requires g.Valid() && Elements(q) <= g.used && DependsOn(g, rev, q, p)
    ensures exists a, b :: a in Elements(p) && b in Elements(q) && Related(g, a, b)
  {
    var d :| d in AllDeps(g, rev, Elements(q)) * Elements(p);
    var t :| t in Elements(q) && d in Deps(g, rev, t);
    assert Related(g, d, t);
  }

  lemma JoinedIsChunk(g: Graph, rev: bool, p: seq<nat>, q: seq<nat>)
    requires g.Valid() && g.PositiveSizes() && ChunkGroup(g, rev, p) && ChunkGroup(g, rev, q)
    requires Passes(g, rev, p, q) && DependsOn(g, rev, q, p)
    ensures ChunkGroup(g, rev, p + q)
  {
    hide IsChunk, Sum, Rates, AllDeps, Related, Elements, Connected, FeeFrac.Higher, Graph.StoresClosure,
         Graph.PositiveSizes, DependsOn;
    DependenceRelates(g, rev, q, p);
    var a, b :| a in Elements(p) && b in Elements(q) && Related(g, a, b);
    JoinedConnected(g, Elements(p), Elements(q), a, b);
    JoinDescription(g, rev, p, q);
    assert Elements(p) + Elements(q) == Elements(q) + Elements(p);
    RatesConcat(g, rev, p, q);
    RatesPositive(g, rev, p + q);
    MergeChunk(Rates(g, rev, p), Rates(g, rev, q));
  }

  /** Where the joined group stands: between the two it is made of. */
  lemma JoinedBetween(g: Graph, rev: bool, p: seq<nat>, q: seq<nat>)
    requires Sum(Rates(g, rev, p)).size > 0 && Sum(Rates(g, rev, q)).size > 0 && Passes(g, rev, p, q)
    ensures Sum(Rates(g, rev, p + q)).size > 0
    ensures Sum(Rates(g, rev, p + q)).Higher(Sum(Rates(g, rev, p)))
  {
    hide Sum, Rates;
    RatesConcat(g, rev, p, q);
    SumConcat(Rates(g, rev, p), Rates(g, rev, q));
    var a, b := Sum(Rates(g, rev, p)), Sum(Rates(g, rev, q));
    PlusHigher(a, b);
  }

  lemma PlusHigher(a: FeeFrac, b: FeeFrac)
    requires b.Higher(a)
    ensures a.Plus(b).Higher(a)
  {
    assert (a.fee + b.fee) * a.size == a.fee * a.size + b.fee * a.size;
    assert a.fee * (a.size + b.size) == a.fee * a.size + a.fee * b.size;
  }

  /** The groups stay falling but for the moving one when that takes in the one before it. */
  lemma FallingJoin(g: Graph, rev: bool, groups: seq<seq<nat>>, c: nat)
    requires g.PositiveSizes() && ChunkGroups(g, rev, groups) && FallingBut(g, rev, groups, c)
    requires 0 < c < |groups| && Passes(g, rev, groups[c - 1], groups[c])
    ensures FallingBut(g, rev, Joined(groups, c, groups[c - 1] + groups[c]), c - 1)
  {
    hide Sum, Rates, ChunkGroup, FeeFrac.Higher, Graph.PositiveSizes;
    var to := Joined(groups, c, groups[c - 1] + groups[c]);
    GroupSize(g, rev, groups[c - 1]);
    GroupSize(g, rev, groups[c]);
    JoinedBetween(g, rev, groups[c - 1], groups[c]);
    if c + 1 < |groups| {
      GroupSize(g, rev, groups[c + 1]);
      var p, n, pq := Sum(Rates(g, rev, groups[c - 1])), Sum(Rates(g, rev, groups[c + 1])),
          Sum(Rates(g, rev, to[c - 1]));
      FeerateTransitive(pq, p, n);
      NotBothHigher(n, pq);
      assert to[c] == groups[c + 1];
      if c > 1 {
        GroupSize(g, rev, groups[c - 2]);
        FeerateTransitive(Sum(Rates(g, rev, groups[c - 2])), p, n);
        assert to[c - 2] == groups[c - 2];
      }
    }
    forall k | 0 < k < |to| && k != c - 1 && k != c
      ensures !Passes(g, rev, to[k - 1], to[k])
    {
      if k < c - 1 {
        assert to[k] == groups[k] && to[k - 1] == groups[k - 1];
      } else {
        assert to[k] == groups[k + 1] && to[k - 1] == groups[k];
      }
    }
  }

  lemma NotBothHigher(a: FeeFrac, b: FeeFrac)
    ensures b.Higher(a) ==> !a.Higher(b)
  {
  }

  lemma FallingSwap(g: Graph, rev: bool, groups: seq<seq<nat>>, c: nat)
    requires FallingBut(g, rev, groups, c) && 0 < c < |groups| && Passes(g, rev, groups[c - 1], groups[c])
    ensures FallingBut(g, rev, Swapped(groups, c), c - 1)
  {
    hide Sum, Rates, FeeFrac.Higher;
    var to := Swapped(groups, c);
    NotBothHigher(Sum(Rates(g, rev, groups[c - 1])), Sum(Rates(g, rev, groups[c])));
    forall k | 0 < k < |to| && k != c - 1 && k != c
      ensures !Passes(g, rev, to[k - 1], to[k])
    {
      if k == c + 1 {
        assert to[k] == groups[c + 1] && to[k - 1] == groups[c - 1];
      } else {
        assert to[k] == groups[k] && to[k - 1] == groups[k - 1];
      }
    }
  }

  lemma JoinedGroups(g: Graph, rev: bool, groups: seq<seq<nat>>, c: nat)
    requires ChunkGroups(g, rev, groups) && 0 < c < |groups| && ChunkGroup(g, rev, groups[c - 1] + groups[c])
    ensures ChunkGroups(g, rev, Joined(groups, c, groups[c - 1] + groups[c]))
  {
    hide ChunkGroup;
  }

  lemma SwappedGroups(g: Graph, rev: bool, groups: seq<seq<nat>>, c: nat)
    requires ChunkGroups(g, rev, groups) && 0 < c < |groups|
    ensures ChunkGroups(g, rev, Swapped(groups, c))
  {
    hide ChunkGroup;
  }

  /** Once a group has moved as far as it gets, feerates fall along all groups again. */
  lemma {:induction false} MovedFalls(g: Graph, rev: bool, groups: seq<seq<nat>>, c: nat)
    requires g.Valid() && g.PositiveSizes() && c < |groups|
    requires ChunkGroups(g, rev, groups) && FallingBut(g, rev, groups, c)
    ensures ChunkGroups(g, rev, Moved(g, rev, groups, c)) && Falling(g, rev, Moved(g, rev, groups, c))
    decreases c
  {
    hide ChunkGroup, Graph.StoresClosure, Graph.PositiveSizes, Passes, DependsOn, Moved;
    MovedStep(g, rev, groups, c);
    if c > 0 && Passes(g, rev, groups[c - 1], groups[c]) {
      if DependsOn(g, rev, groups[c], groups[c - 1]) {
        FallingJoin(g, rev, groups, c);
        JoinedIsChunk(g, rev, groups[c - 1], groups[c]);
        JoinedGroups(g, rev, groups, c);
        MovedFalls(g, rev, Joined(groups, c, groups[c - 1] + groups[c]), c - 1);
      } else {
        FallingSwap(g, rev, groups, c);
        SwappedGroups(g, rev, groups, c);
        MovedFalls(g, rev, Swapped(groups, c), c - 1);
      }
    }
  }

  /** The groups of a pass are connected chunks of falling feerate. */
  lemma {:induction false} GroupedFalls(g: Graph, rev: bool, seen: seq<nat>)
    requires g.Valid() && g.PositiveSizes() && Elements(seen) <= g.used
    ensures ChunkGroups(g, rev, Grouped(g, rev, seen)) && Falling(g, rev, Grouped(g, rev, seen))
    decreases |seen|
  {
    hide ChunkGroup, Graph.StoresClosure, Graph.PositiveSizes, Passes, Moved;
    if seen != [] {
      var n := |seen| - 1;
      assert Elements(seen[..n]) <= Elements(seen) && seen[n] in Elements(seen);
      GroupedFalls(g, rev, seen[..n]);
      SingletonGroupIsChunk(g, rev, seen[n]);
      var groups := Grouped(g, rev, seen[..n]) + [[seen[n]]];
      MovedFalls(g, rev, groups, |groups| - 1);
    }
  }

  /** After a forward pass the groups are the chunks of the result. */
  lemma GroupsAreChunks(g: Graph, seen: seq<nat>)
    requires g.Valid() && g.PositiveSizes() && Elements(seen) <= g.used
    ensures TxChunks(g, Grouped(g, false, seen), Passed(g, false, seen))
    ensures forall k | 0 <= k < |Grouped(g, false, seen)| :: Connected(g, Elements(Grouped(g, false, seen)[k]))
  {
    hide IsChunk, Sum, Graph.StoresClosure, Graph.PositiveSizes, Grouped, Connected, FeeFrac.Higher;
    GroupedFalls(g, false, seen);
    var groups := Grouped(g, false, seen);
    forall k | 0 <= k < |groups|
      ensures Rates(g, false, groups[k]) == g.Fees(groups[k]) && ChunkGroup(g, false, groups[k])
      ensures k > 0 ==> !Sum(g.Fees(groups[k])).Higher(Sum(g.Fees(groups[k - 1])))
    {
      SameFees(g, groups[k]);
      if k > 0 {
        SameFees(g, groups[k - 1]);
        assert !Passes(g, false, groups[k - 1], groups[k]);
      }
    }
    FeesFlatten(g, groups);
  }

  lemma SameFees(g: Graph, s: seq<nat>)
    ensures Rates(g, false, s) == g.Fees(s)
  {
  }

  /** Improves a linearization in place: a backward pass, then a forward one. */
  method PostLinearize(g: Graph, linearization: array<nat>)
    requires g.Valid() && g.PositiveSizes()
    requires Elements(linearization[..]) <= g.used && Distinct(linearization[..]) && g.TopoOrdered(linearization[..])
    modifies linearization
    ensures Distinct(linearization[..]) && Elements(linearization[..]) == Elements(old(linearization[..]))
    ensures g.TopoOrdered(linearization[..])
    ensures Dominates(g.Fees(linearization[..]), g.Fees(old(linearization[..])))
    ensures linearization[..] == PostLinearized(g, old(linearization[..]))
    ensures var parts := Grouped(g, false, Passed(g, true, old(linearization[..])));
            && TxChunks(g, parts, linearization[..])
            && forall k | 0 <= k < |parts| :: Connected(g, Elements(parts[k]))
  {
    hide Graph.StoresClosure, Graph.PositiveSizes, Elements, Distinct, Dominates, Graph.TopoOrdered, Graph.Fees, Passed,
         TxChunks, Connected;
    ghost var lin := linearization[..];
    var entries := new TxEntry[|g.entries| + 1](_ => TxEntry(0, 0, 0, {}, {}, EMPTY));
    DominatesItself(g.Fees(lin));
    for pass := 0 to 2
      invariant fresh(entries) && entries.Length == |g.entries| + 1 && entries[SENTINEL].feerate == EMPTY
      invariant Distinct(linearization[..]) && Elements(linearization[..]) == Elements(lin)
      invariant g.TopoOrdered(linearization[..])
      invariant Dominates(g.Fees(linearization[..]), g.Fees(lin))
      invariant pass == 0 ==> linearization[..] == lin
      invariant pass == 1 ==> linearization[..] == Passed(g, true, lin)
      invariant pass == 2 ==>
                  Elements(Passed(g, true, lin)) == Elements(lin) && linearization[..] == PostLinearized(g, lin)
    {
      ghost var before := linearization[..];
      Pass(g, entries, pass == 0, linearization);
      DominatesTransitive(g.Fees(linearization[..]), g.Fees(before), g.Fees(lin));
    }
    GroupsAreChunks(g, Passed(g, true, lin));
  }
}
