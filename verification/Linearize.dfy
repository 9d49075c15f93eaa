/** Linearizing a cluster within an iteration budget (src/cluster_linearize.h). */
module Linearizing {
  import opened Collections
  import opened FeeFracs
  import opened Diagrams
  import opened NatSets
  import opened DepGraphs
  import opened Chunkings
  import opened LinearizationChunkings
  import opened Merging
  import opened CandidateSearch
  import opened SearchFinders
  import opened AncestorFinders
  import Limbs

  // ----- every list has a chunking -----

  lemma {:induction false} Absorbing(parts: seq<seq<FeeFrac>>, cur: seq<FeeFrac>, s: seq<FeeFrac>)
    returns (r: seq<seq<FeeFrac>>)
    requires Positive(s) && Stack(parts, cur, s)
    ensures IsChunking(r, s)
    decreases |parts|
  {
    hide IsChunk, Sum, NonIncreasing, FeeFrac.Higher, Flatten;
    if parts != [] && Sum(cur).Higher(Sum(parts[|parts| - 1])) {
      StackAbsorb(parts, cur, s);
      r := Absorbing(parts[..|parts| - 1], parts[|parts| - 1] + cur, s);
    } else {
      StackPush(parts, cur, s);
      r := parts + [cur];
    }
  }

  lemma {:induction false} ChunkingExists(s: seq<FeeFrac>) returns (r: seq<seq<FeeFrac>>)
    requires Positive(s)
    ensures IsChunking(r, s)
    decreases |s|
  {
    hide IsChunk, Sum, NonIncreasing, FeeFrac.Higher, Flatten;
    if s == [] {
      EmptyChunking();
      r := [];
    } else {
      var n := |s| - 1;
      var parts := ChunkingExists(s[..n]);
      assert s == s[..n] + [s[n]];
      StackStart(parts, s[..n], s[n]);
      r := Absorbing(parts, [s[n]], s);
    }
  }

  /** The pieces of a list that parts of given lengths cut. */
  lemma {:induction false} CutLike(g: Graph, lin: seq<nat>, fp: seq<seq<FeeFrac>>) returns (parts: seq<seq<nat>>)
    requires Flatten(fp) == g.Fees(lin)
    ensures Flatten(parts) == lin && FeeParts(g, parts) == fp
  {
    if fp == [] {
      parts := [];
    } else {
      var n := |fp[0]|;
      var fees := g.Fees(lin);
      assert fees[..n] == fp[0] && fees[n..] == Flatten(fp[1..]);
      assert g.Fees(lin[n..]) == fees[n..];
      assert g.Fees(lin[..n]) == fees[..n];
      var rest := CutLike(g, lin[n..], fp[1..]);
      parts := [lin[..n]] + rest;
      assert parts[1..] == rest;
      assert lin == lin[..n] + lin[n..];
      assert FeeParts(g, parts) == [fp[0]] + FeeParts(g, rest);
    }
  }

  lemma TxChunksExist(g: Graph, lin: seq<nat>) returns (parts: seq<seq<nat>>)
    requires g.PositiveSizes() && Elements(lin) <= g.used
    ensures TxChunks(g, parts, lin)
  {
    hide IsChunk, Sum, NonIncreasing, Flatten;
    g.FeesPositive(lin);
    var fp := ChunkingExists(g.Fees(lin));
    parts := CutLike(g, lin, fp);
  }

  // ----- a set no other topological set beats may lead any linearization -----

  lemma OptimalMayLead(g: Graph, rem: seq<nat>, parts: seq<seq<nat>>, r: set<nat>)
    requires g.IsLinearization(rem, Elements(rem)) && TxChunks(g, parts, rem)
    requires r != {} && g.Topological(r, Elements(rem)) && Optimal(g, Elements(rem), g.SetFee(r))
    ensures MayLead(g, r, parts)
  {
    hide Graph.SetFee, FeeFrac.Higher, FeeFrac.Lower, Sum, Flatten, Graph.TopoOrdered, Distinct;
    if parts != [] {
      FirstIsTopological(g, rem, parts);
      HigherOrLower(g.SetFee(r), Sum(g.Fees(parts[0])));
    }
    forall k | 0 <= k <= |parts|
      ensures PartNotBetter(g, r, Elements(Flatten(parts[..k])))
    {
      PartsPrefix(g, parts, k);
      var pre := Flatten(parts[..k]);
      assert rem[..|pre|] == pre;
      g.PrefixTopological(rem, |pre|, Elements(rem));
      g.TopologicalMeet(r, Elements(pre), Elements(rem));
    }
  }

  lemma FirstIsTopological(g: Graph, rem: seq<nat>, parts: seq<seq<nat>>)
    requires g.IsLinearization(rem, Elements(rem)) && TxChunks(g, parts, rem) && parts != []
    ensures Elements(parts[0]) != {} && g.Topological(Elements(parts[0]), Elements(rem))
    ensures Sum(g.Fees(parts[0])) == g.SetFee(Elements(parts[0]))
  {
    hide Sum, Graph.SetFee;
    assert IsChunk(FeeParts(g, parts)[0]);
    assert parts[0] != [] && parts[0][0] in Elements(parts[0]);
    TxChunksTail(g, parts, rem);
    DistinctConcat(parts[0], rem[|parts[0]|..]);
    g.SumIsSetFee(parts[0]);
    assert rem[..|parts[0]|] == parts[0];
    g.PrefixTopological(rem, |parts[0]|, Elements(rem));
  }

  /** What is emitted so far, continued by any linearization's order of the rest, is
      nowhere below that linearization. */
  ghost predicate OptimalSoFar(g: Graph, out: seq<nat>, todo: set<nat>) {
    forall lin: seq<nat> | g.IsLinearization(lin, g.used) :: Progress(g, out, Keep(lin, todo), lin)
  }

  lemma OptimalStart(g: Graph)
    ensures OptimalSoFar(g, [], g.used)
  {
    hide Dominates, Graph.Fees;
    forall lin: seq<nat> | g.IsLinearization(lin, g.used)
      ensures Progress(g, [], Keep(lin, g.used), lin)
    {
      KeepAll(lin, g.used);
      StartProgress(g, lin);
    }
  }

  lemma OptimalStep(g: Graph, out: seq<nat>, todo: set<nat>, r: set<nat>, order: seq<nat>)
    requires g.Cluster() && todo <= g.used && OptimalSoFar(g, out, todo)
    requires r != {} && g.Topological(r, todo) && Optimal(g, todo, g.SetFee(r)) && g.IsLinearization(order, r)
    ensures OptimalSoFar(g, out + order, todo - r)
  {
    hide Graph.StoresClosure, Graph.Acyclic, Graph.PositiveSizes, Progress, Optimal, Graph.SetFee, Graph.Topological,
         Keep;
    forall lin: seq<nat> | g.IsLinearization(lin, g.used)
      ensures Progress(g, out + order, Keep(lin, todo - r), lin)
    {
      OptimalStepFor(g, out, todo, r, order, lin);
    }
  }

  lemma OptimalStepFor(g: Graph, out: seq<nat>, todo: set<nat>, r: set<nat>, order: seq<nat>, lin: seq<nat>)
    requires g.Cluster() && todo <= g.used && g.IsLinearization(lin, g.used) && Progress(g, out, Keep(lin, todo), lin)
    requires r != {} && g.Topological(r, todo) && Optimal(g, todo, g.SetFee(r)) && g.IsLinearization(order, r)
    ensures Progress(g, out + order, Keep(lin, todo - r), lin)
  {
    hide Graph.StoresClosure, Graph.Acyclic, Graph.PositiveSizes, Dominates, Optimal, Graph.SetFee, Graph.Topological,
         Keep, TxChunks, MayLead, Graph.Fees, Graph.TopoOrdered;
    var rem := Keep(lin, todo);
    KeepElements(lin, todo);
    assert Elements(rem) == todo;
    KeepTopo(g, lin, todo);
    var parts := TxChunksExist(g, rem);
    OptimalMayLead(g, rem, parts, r);
    StepProgress(g, out, rem, lin, parts, r, order);
    KeepKeep(lin, todo, todo - r);
    assert todo * (todo - r) == todo - r;
  }

  lemma OptimalEnd(g: Graph, out: seq<nat>, lin: seq<nat>)
    requires OptimalSoFar(g, out, {}) && g.IsLinearization(lin, g.used)
    ensures Dominates(g.Fees(out), g.Fees(lin))
  {
    hide Dominates, Graph.Fees, Keep;
    assert Progress(g, out, Keep(lin, {}), lin);
    NothingKept(lin);
    EndProgress(g, out, lin);
  }

  // ----- what the rounds do -----

  /** A round: the transactions and iterations left, the set its search starts from, how many
      iterations that may and does take, what it finds, and what is emitted in which order. */
  datatype Round = Round(todo: set<nat>, left: nat, first: SetInfo, allowed: nat, done: nat, found: SetInfo,
                         picked: SetInfo, order: seq<nat>)

  /** The first chunk of what is left of the old linearization, unless some ancestor set
      beats it; then the best of those. */
  ghost predicate FirstChoice(g: Graph, todo: set<nat>, parts: seq<seq<nat>>, first: SetInfo) {
    if parts != [] && NoneBeats(g, todo, Sum(g.Fees(parts[0]))) then
      first == SetInfo(Elements(parts[0]), Sum(g.Fees(parts[0])))
    else
      InfoOk(g, first) && BestAncestors(g, todo, first.transactions)
  }

  /** No transaction with its remaining ancestors is better than f. */
  ghost predicate NoneBeats(g: Graph, todo: set<nat>, f: FeeFrac) {
    forall i | i in todo :: !g.SetFee(g.Ancestors(i) * todo).Better(f)
  }

  /** A quarter of what is left is charged for setting up a search, which may take half of
      the iterations left after that; without a search nothing is spent. */
  ghost predicate SearchesRound(g: Graph, searching: bool, r: Round) {
    if searching && r.left > (|r.todo| + 3) / 4 then
      r.allowed == (r.left - (|r.todo| + 3) / 4 + 1) / 2 && Finds(g, r.todo, r.allowed, r.first, r.found, r.done)
    else
      r.allowed == 0 && r.done == 0 && r.found == r.first
  }

  /** What is found is emitted if the search ended early, and otherwise its shortest part
      that spoils no point of the old diagram. */
  ghost predicate PicksRound(g: Graph, parts: seq<seq<nat>>, r: Round) {
    if r.done < r.allowed || parts == [] then r.picked == r.found
    else InfoOk(g, r.picked) && ShortestPart(g, r.found.transactions, parts, r.picked.transactions)
  }

  ghost predicate RoundWith(g: Graph, parts: seq<seq<nat>>, searching: bool, r: Round) {
    && FirstChoice(g, r.todo, parts, r.first) && SearchesRound(g, searching, r) && PicksRound(g, parts, r)
    && g.IsLinearization(r.order, r.picked.transactions) && ByAncestors(g, r.order)
  }

  /** A round that goes by the chunks of what is left of the old linearization. */
  ghost predicate RoundOk(g: Graph, lin0: seq<nat>, searching: bool, r: Round) {
    exists parts :: TxChunks(g, parts, Keep(lin0, r.todo)) && RoundWith(g, parts, searching, r)
  }

  ghost function LeftAfter(searching: bool, r: Round): int {
    if searching && r.left > (|r.todo| + 3) / 4 then r.left - (|r.todo| + 3) / 4 - r.done else r.left
  }

  /** Each round goes on with what the one before has left over. */
  ghost predicate Rounds(g: Graph, lin0: seq<nat>, searching: bool, left: nat, rounds: seq<Round>) {
    && (forall k | 0 <= k < |rounds| :: RoundOk(g, lin0, searching, rounds[k]))
    && (rounds != [] ==> rounds[0].todo == g.used && rounds[0].left == left)
    && (forall k | 0 < k < |rounds| :: Follows(searching, rounds[k - 1], rounds[k]))
  }

  ghost predicate Follows(searching: bool, r: Round, next: Round) {
    next.todo == r.todo - r.picked.transactions && next.left == LeftAfter(searching, r)
  }

  ghost function Output(rounds: seq<Round>): seq<nat> {
    if rounds == [] then [] else Output(rounds[..|rounds| - 1]) + rounds[|rounds| - 1].order
  }

  /** The rounds of a whole run, until nothing is left: searches are made if there are
      iterations to set them up, and the result is optimal if every search ended early. */
  ghost predicate RunOf(g: Graph, maxIterations: nat, lin0: seq<nat>, rounds: seq<Round>, out: seq<nat>, optimal: bool)
  {
    var setup := (|g.used| * |g.used| + 63) / 64;
    && Rounds(g, lin0, maxIterations > setup, if maxIterations > setup then maxIterations - setup else maxIterations,
              rounds)
    && (if rounds == [] then g.used == {}
        else rounds[|rounds| - 1].todo <= rounds[|rounds| - 1].picked.transactions)
    && out == Output(rounds)
    && (optimal <==> forall k | 0 <= k < |rounds| :: rounds[k].done < rounds[k].allowed)
  }

  /** Of what was left before each round, no transaction with its ancestors has a higher
      feerate than what was emitted. */
  ghost predicate NoneHigher(g: Graph, rounds: seq<Round>) {
    forall k | 0 <= k < |rounds| :: NoneAbove(g, rounds[k].todo, rounds[k].picked.feerate)
  }

  ghost predicate NoneAbove(g: Graph, todo: set<nat>, f: FeeFrac) {
    forall i | i in todo :: !g.SetFee(g.Ancestors(i) * todo).Higher(f)
  }

  /** So far the rounds have emitted out and left todo, left and whether all is optimal. */
  ghost predicate Ran(g: Graph, lin0: seq<nat>, searching: bool, start: nat, rounds: seq<Round>, out: seq<nat>,
                      todo: set<nat>, left: int, optimal: bool)
  {
    && Rounds(g, lin0, searching, start, rounds) && NoneHigher(g, rounds) && out == Output(rounds)
    && (rounds == [] ==> todo == g.used && left == start)
    && (rounds != [] ==>
          var r := rounds[|rounds| - 1];
          todo == r.todo - r.picked.transactions && left == LeftAfter(searching, r))
    && (optimal <==> forall k | 0 <= k < |rounds| :: rounds[k].done < rounds[k].allowed)
  }

  lemma RanStart(g: Graph, lin0: seq<nat>, searching: bool, start: nat)
    ensures Ran(g, lin0, searching, start, [], [], g.used, start, true)
  {
  }

  lemma RanStep(g: Graph, lin0: seq<nat>, searching: bool, start: nat, rounds: seq<Round>, out: seq<nat>,
                todo: set<nat>, left: int, optimal: bool, r: Round)
    requires Ran(g, lin0, searching, start, rounds, out, todo, left, optimal)
    requires r.todo == todo && r.left == left
    requires RoundOk(g, lin0, searching, r) && NoneAbove(g, todo, r.picked.feerate)
    ensures Ran(g, lin0, searching, start, rounds + [r], out + r.order, todo - r.picked.transactions,
                LeftAfter(searching, r), optimal && r.done < r.allowed)
  {
    hide Rounds, NoneHigher, Output, RoundOk, NoneAbove;
    OutputSnoc(rounds, r);
    RoundsSnoc(g, lin0, searching, start, rounds, r);
    NoneHigherSnoc(g, rounds, r);
    var n, next := |rounds|, rounds + [r];
    assert next[n] == r;
    assert forall k | 0 <= k < n :: next[k] == rounds[k];
  }

  lemma OutputSnoc(rounds: seq<Round>, r: Round)
    ensures Output(rounds + [r]) == Output(rounds) + r.order
  {
    var next := rounds + [r];
    assert next[..|next| - 1] == rounds;
  }

  lemma RoundsSnoc(g: Graph, lin0: seq<nat>, searching: bool, start: nat, rounds: seq<Round>, r: Round)
    requires Rounds(g, lin0, searching, start, rounds) && RoundOk(g, lin0, searching, r)
    requires if rounds == [] then r.todo == g.used && r.left == start else Follows(searching, rounds[|rounds| - 1], r)
    ensures Rounds(g, lin0, searching, start, rounds + [r])
  {
    hide RoundOk, Follows;
    var n, next := |rounds|, rounds + [r];
    assert next[n] == r;
    assert forall k | 0 <= k < n :: next[k] == rounds[k];
  }

  lemma NoneHigherSnoc(g: Graph, rounds: seq<Round>, r: Round)
    requires NoneHigher(g, rounds) && NoneAbove(g, r.todo, r.picked.feerate)
    ensures NoneHigher(g, rounds + [r])
  {
    hide NoneAbove;
    var n, next := |rounds|, rounds + [r];
    assert next[n] == r;
    assert forall k | 0 <= k < n :: next[k] == rounds[k];
  }

  lemma RanEnd(g: Graph, maxIterations: nat, lin0: seq<nat>, searching: bool, start: nat, rounds: seq<Round>,
               out: seq<nat>, left: int, optimal: bool)
    requires Ran(g, lin0, searching, start, rounds, out, {}, left, optimal)
    requires rounds == [] ==> g.used == {}
    requires searching == (maxIterations > (|g.used| * |g.used| + 63) / 64)
    requires start == if searching then maxIterations - (|g.used| * |g.used| + 63) / 64 else maxIterations
    ensures RunOf(g, maxIterations, lin0, rounds, out, optimal) && NoneHigher(g, rounds)
  {
    hide RoundOk, NoneAbove;
    if rounds != [] {
      var r := rounds[|rounds| - 1];
      assert r.todo - r.picked.transactions == {};
      assert forall x | x in r.todo :: x in r.picked.transactions || x in r.todo - r.picked.transactions;
    }
  }

  lemma NoRounds(g: Graph, maxIterations: nat, lin0: seq<nat>)
    requires g.used == {}
    ensures RunOf(g, maxIterations, lin0, [], [], true) && NoneHigher(g, [])
  {
  }

  // ----- one round -----

  /** The chunking follows what remains of old, if there is an old linearization. */
  ghost predicate FollowsOld(g: Graph, c: LinearizationChunking, out: seq<nat>, todo: set<nat>, lin0: seq<nat>)
    reads c
  {
    && c.Valid() && c.g == g
    && (lin0 == [] ==> c.todo == {})
    && (lin0 != [] ==>
          c.todo == todo && c.Remaining() == Keep(lin0, todo) && Progress(g, out, c.Remaining(), lin0))
  }

  ghost predicate FollowsSearch(g: Graph, s: SearchCandidateFinder?, todo: set<nat>)
    reads s
  {
    s != null ==> s.Valid() && s.g == g && s.Remaining() == todo
  }

  ghost predicate FollowsAncestors(g: Graph, a: AncestorCandidateFinder, todo: set<nat>)
    reads a
  {
    a.Valid() && a.g == g && a.todo == todo
  }

  /** info is not lower than the first remaining chunk, if there is one. */
  ghost predicate NotBelowFirst(g: Graph, info: SetInfo, parts: seq<seq<nat>>) {
    parts != [] ==> Sum(g.Fees(parts[0])).size > 0 && !info.feerate.Lower(Sum(g.Fees(parts[0])))
  }

  lemma OldFirst(g: Graph, c: LinearizationChunking, out: seq<nat>, todo: set<nat>, lin0: seq<nat>)
    requires g.Cluster() && FollowsOld(g, c, out, todo, lin0) && todo != {}
    ensures c.NumChunksLeft() > 0 <==> lin0 != []
    ensures c.parts != [] <==> lin0 != []
    ensures lin0 != [] ==> Candidate(g, todo, c.GetChunk(0))
    ensures lin0 != [] ==> c.GetChunk(0) == SetInfo(Elements(c.parts[0]), Sum(g.Fees(c.parts[0])))
    ensures lin0 != [] ==> c.GetChunk(0).feerate.size > 0
    ensures lin0 != [] ==> g.IsLinearization(c.Remaining(), todo)
  {
    hide Sum, Graph.SetFee, Keep, Graph.StoresClosure, Graph.Acyclic, Graph.PositiveSizes, Dominates, TxChunks,
         Graph.TopoOrdered, Graph.Topological;
    Finished(g, c);
    if lin0 != [] {
      Unfinished(g, c, out);
    }
  }

  lemma BetterNotLower(a: FeeFrac, b: FeeFrac)
    ensures !b.Better(a) ==> !a.Lower(b)
    ensures a.Better(b) ==> !a.Lower(b)
    ensures !a.Lower(a)
  {
  }

  /** If any ancestor set beats f, the best one does. */
  lemma BestBeats(g: Graph, todo: set<nat>, best: SetInfo, f: FeeFrac)
    requires g.Valid() && g.PositiveSizes() && todo <= g.used && Candidate(g, todo, best)
    requires BestAncestors(g, todo, best.transactions) && NoneBeats(g, todo, best.feerate)
    ensures f.size > 0 ==> (NoneBeats(g, todo, f) <==> !best.feerate.Better(f))
  {
    hide Graph.SetFee, FeeFrac.Better, Graph.StoresClosure, Graph.PositiveSizes, Graph.Topological;
    if f.size > 0 {
      SetsHaveSize(g, todo);
      var b :| b in todo && best.transactions == g.Ancestors(b) * todo && FirstBest(g, todo, b);
      forall i | i in todo && !best.feerate.Better(f)
        ensures !g.SetFee(g.Ancestors(i) * todo).Better(f)
      {
        var x := g.SetFee(g.Ancestors(i) * todo);
        BetterTransitive(x, f, best.feerate);
        BetterTransitive(x, best.feerate, f);
      }
    }
  }

  /** The better of the best remaining ancestor set and the first remaining chunk. */
  method InitialBest(g: Graph, a: AncestorCandidateFinder, c: LinearizationChunking, ghost out: seq<nat>,
                     ghost lin0: seq<nat>)
    returns (best: SetInfo)
    requires g.Cluster() && FollowsAncestors(g, a, a.todo) && a.todo != {} && FollowsOld(g, c, out, a.todo, lin0)
    ensures Candidate(g, a.todo, best) && NotBelowFirst(g, best, c.parts)
    ensures FirstChoice(g, a.todo, c.parts, best)
    ensures forall i | i in a.todo :: !g.SetFee(g.Ancestors(i) * a.todo).Better(best.feerate)
  {
    hide Sum, Graph.SetFee, Keep, Graph.StoresClosure, Graph.Acyclic, Graph.PositiveSizes, Progress, TxChunks,
         Candidate, FeeFrac.Better, FeeFrac.Lower, Holds, BestAncestors;
    OldFirst(g, c, out, a.todo, lin0);
    var bestPrefix := SetInfo({}, EMPTY);
    if c.NumChunksLeft() > 0 {
      bestPrefix := c.GetChunk(0);
    }
    best := a.FindCandidateSet();
    BetterNotLower(best.feerate, bestPrefix.feerate);
    BetterNotLower(bestPrefix.feerate, bestPrefix.feerate);
    BestBeats(g, a.todo, best, bestPrefix.feerate);
    InTodo(g, a.todo, best);
    if !bestPrefix.feerate.IsEmpty() && !best.feerate.Better(bestPrefix.feerate) {
      best := bestPrefix;
    }
  }

  lemma StillNotBelow(g: Graph, todo: set<nat>, a: SetInfo, b: SetInfo, parts: seq<seq<nat>>)
    requires g.PositiveSizes() && todo <= g.used && Candidate(g, todo, a) && Candidate(g, todo, b)
    requires NotWorse(b.feerate, a.feerate) && NotBelowFirst(g, a, parts)
    ensures NotBelowFirst(g, b, parts)
  {
    hide Sum, Graph.SetFee, Graph.PositiveSizes, FeeFrac.Better, FeeFrac.Lower, FeeFrac.Higher;
    if parts != [] {
      SizeOf(g, a.transactions);
      SizeOf(g, b.transactions);
      var f := Sum(g.Fees(parts[0]));
      BetterHigher(b.feerate, a.feerate);
      NotAboveItself(a.feerate);
      LowerIsHigher(a.feerate, f);
      LowerIsHigher(b.feerate, f);
      FeerateTransitive(b.feerate, a.feerate, f);
    }
  }

  lemma LowerIsHigher(a: FeeFrac, b: FeeFrac)
    ensures a.Lower(b) <==> b.Higher(a)
  {
  }

  /** So many iterations let each search of a cluster of n transactions, of which todo is
      left, run to its end: half of what is left after each stays above 2^n. */
  ghost function Ample(n: nat, todo: nat): nat {
    todo * (n + Limbs.Pow2(n)) + 2 * Limbs.Pow2(n)
  }

  /** And so many with what setting up the search counts for. */
  ghost function AmpleInAll(n: nat): nat {
    n * n + Ample(n, n)
  }

  ghost predicate OnCourse(g: Graph, s: SearchCandidateFinder?, iterationsLeft: nat, todo: int) {
    s != null && todo >= 0 && iterationsLeft >= Ample(|g.used|, todo)
  }

  lemma AmpleStep(n: nat, todo: nat, next: nat)
    requires next < todo
    ensures Ample(n, next) + n + Limbs.Pow2(n) <= Ample(n, todo)
  {
    Limbs.MulMonotone(next + 1, todo, n + Limbs.Pow2(n));
    Limbs.Distribute(n + Limbs.Pow2(n), next, 1);
  }

  /** What one round takes off leaves enough for the next. */
  lemma AmpleRound(n: nat, todo: nat, iterationsLeft: nat, done: nat)
    requires 0 < todo <= n && iterationsLeft >= Ample(n, todo) && done < Limbs.Pow2(n)
    ensures iterationsLeft > (todo + 3) / 4
    ensures var left := iterationsLeft - (todo + 3) / 4;
            && (left + 1) / 2 >= Limbs.Pow2(n)
            && left - done >= Ample(n, todo - 1)
  {
    AmpleStep(n, todo, todo - 1);
    Limbs.MulNonNegative(todo - 1, n + Limbs.Pow2(n));
  }

  /** Searches for something better than best, within half of the iterations left. */
  method Improved(g: Graph, s: SearchCandidateFinder?, todo: set<nat>, iterationsLeft: nat, best: SetInfo)
    returns (r: SetInfo, left: nat, doneNow: nat, maxNow: nat)
    requires g.Cluster() && FollowsSearch(g, s, todo) && todo != {} && Candidate(g, todo, best)
    ensures Candidate(g, todo, r) && NotWorse(r.feerate, best.feerate)
    ensures left <= iterationsLeft && doneNow <= maxNow
    ensures if s != null && iterationsLeft > (|todo| + 3) / 4 then
              && maxNow == (iterationsLeft - (|todo| + 3) / 4 + 1) / 2 && Finds(g, todo, maxNow, best, r, doneNow)
              && left == iterationsLeft - (|todo| + 3) / 4 - doneNow
            else
              maxNow == 0 && doneNow == 0 && r == best && left == iterationsLeft
    ensures doneNow != maxNow ==> Optimal(g, todo, r.feerate)
    ensures todo <= g.used && OnCourse(g, s, iterationsLeft, |todo|) ==>
              doneNow != maxNow && OnCourse(g, s, left, |todo| - 1)
  {
    hide Graph.StoresClosure, Graph.Acyclic, Graph.PositiveSizes, Optimal, SearchCandidateFinder.Consistent, Setting,
         Graph.SetFee, Ample, Finds;
    r, left, doneNow, maxNow := best, iterationsLeft, 0, 0;
    NotWorseItself(best.feerate);
    if s != null {
      var baseIterations := (|todo| + 3) / 4;
      if todo <= g.used && iterationsLeft >= Ample(|g.used|, |todo|) {
        NotLarger(todo, g.used);
        AmpleRound(|g.used|, |todo|, iterationsLeft, 0);
        Limbs.Pow2Monotone(|todo|, |g.used|);
      }
      if left > baseIterations {
        left := left - baseIterations;
        maxNow := (left + 1) / 2;
        r, doneNow := s.FindCandidateSet(maxNow, best);
        if todo <= g.used && iterationsLeft >= Ample(|g.used|, |todo|) {
          AmpleRound(|g.used|, |todo|, iterationsLeft, doneNow);
        }
        left := left - doneNow;
      }
    }
  }

  lemma InTodo(g: Graph, todo: set<nat>, info: SetInfo)
    requires Candidate(g, todo, info)
    ensures info.transactions <= todo && info.transactions != {} && InfoOk(g, info)
            && g.Topological(info.transactions, todo)
  {
  }

  lemma SafeToTake(g: Graph, parts: seq<seq<nat>>, todo: set<nat>, best: SetInfo, r: SetInfo)
    requires g.PositiveSizes() && todo <= g.used && Candidate(g, todo, best) && NotBelowFirst(g, best, parts)
    requires InfoOk(g, r) && r.transactions != {} && r.transactions <= todo && !r.feerate.Lower(best.feerate)
    requires NoBetterPart(g, r.transactions, parts)
    ensures MayLead(g, r.transactions, parts)
  {
    hide Sum, Graph.SetFee, NoBetterPart, MayLead, Graph.PositiveSizes;
    SizeOf(g, best.transactions);
    IntersectedMayLead(g, parts, r.transactions, best.feerate);
  }

  /** Picks the next set to emit: one proven optimal, or one that cannot spoil any point
      of the old linearization's diagram. */
  method NextSet(g: Graph, a: AncestorCandidateFinder, s: SearchCandidateFinder?, c: LinearizationChunking,
                 iterationsLeft: nat, ghost out: seq<nat>, ghost lin0: seq<nat>)
    returns (best: SetInfo, left: nat, proven: bool, ghost round: Round)
    requires g.Cluster() && FollowsAncestors(g, a, a.todo) && a.todo != {} && a.todo <= g.used
    requires FollowsSearch(g, s, a.todo) && FollowsOld(g, c, out, a.todo, lin0)
    ensures Candidate(g, a.todo, best) && left <= iterationsLeft
    ensures proven ==> Optimal(g, a.todo, best.feerate)
    ensures lin0 != [] ==> MayLead(g, best.transactions, c.parts)
    ensures OnCourse(g, s, iterationsLeft, |a.todo|) ==> proven && OnCourse(g, s, left, |a.todo| - 1)
    ensures round.todo == a.todo && round.left == iterationsLeft && round.picked == best
    ensures FirstChoice(g, a.todo, c.parts, round.first) && SearchesRound(g, s != null, round)
    ensures PicksRound(g, c.parts, round)
    ensures left == LeftAfter(s != null, round) && (proven <==> round.done < round.allowed)
    ensures NoneAbove(g, a.todo, best.feerate)
  {
    hide Finds, FirstChoice, ShortestPart, NoneAbove, NoneBeats, Ample, Sum, Graph.SetFee, Keep, Graph.StoresClosure,
         Graph.Acyclic, Graph.PositiveSizes, TxChunks, Candidate, FeeFrac.Better, FeeFrac.Lower, FeeFrac.Higher, Holds,
         Optimal, NotBelowFirst, MayLead, NoBetterPart, FollowsSearch, NotWorse, Graph.TopoOrdered, Graph.Topological,
         Stored, Dominates, Distinct, Progress;
    var first := InitialBest(g, a, c, out, lin0);
    var doneNow, maxNow;
    best, left, doneNow, maxNow := Improved(g, s, a.todo, iterationsLeft, first);
    StillNotBelow(g, a.todo, first, best, c.parts);
    InTodo(g, a.todo, best);
    OldFirst(g, c, out, a.todo, lin0);
    ghost var found := best;
    StaysNoneAbove(g, a.todo, first, found, found);
    proven := doneNow != maxNow;
    if !proven {
      if c.NumChunksLeft() > 0 {
        best := c.IntersectPrefixes(best);
        SafeToTake(g, c.parts, a.todo, found, best);
        IsCandidate(g, a.todo, best);
        StaysNoneAbove(g, a.todo, first, found, best);
      }
    } else if lin0 != [] {
      OptimalMayLead(g, c.Remaining(), c.parts, best.transactions);
    }
    round := Round(a.todo, iterationsLeft, first, maxNow, doneNow, found, best, []);
  }

  /** What no ancestor set beats may be replaced by what is not worse, and then by what has
      no lower feerate. */
  lemma StaysNoneAbove(g: Graph, todo: set<nat>, first: SetInfo, found: SetInfo, best: SetInfo)
    requires g.Valid() && g.PositiveSizes() && todo <= g.used
    requires Candidate(g, todo, first) && Candidate(g, todo, found) && Candidate(g, todo, best)
    requires forall i | i in todo :: !g.SetFee(g.Ancestors(i) * todo).Better(first.feerate)
    requires NotWorse(found.feerate, first.feerate) && (best == found || !best.feerate.Lower(found.feerate))
    ensures NoneAbove(g, todo, best.feerate)
  {
    hide Graph.SetFee, FeeFrac.Better, FeeFrac.Higher, FeeFrac.Lower, Graph.StoresClosure, Graph.PositiveSizes,
         NotWorse, Graph.Topological;
    CandidateSizeOf(g, todo, first);
    CandidateSizeOf(g, todo, found);
    CandidateSizeOf(g, todo, best);
    SetsHaveSize(g, todo);
    LowerIsHigher(best.feerate, found.feerate);
    forall i | i in todo
      ensures !g.SetFee(g.Ancestors(i) * todo).Higher(best.feerate)
    {
      var x := g.SetFee(g.Ancestors(i) * todo);
      BetterHigher(x, first.feerate);
      NotWorseFeerate(found.feerate, first.feerate, x);
      FeerateTransitive(best.feerate, found.feerate, x);
    }
  }

  lemma CandidateSizeOf(g: Graph, todo: set<nat>, info: SetInfo)
    requires g.PositiveSizes() && todo <= g.used && Candidate(g, todo, info)
    ensures info.feerate.size > 0
  {
    SizeOf(g, info.transactions);
  }

  lemma IsCandidate(g: Graph, todo: set<nat>, info: SetInfo)
    requires InfoOk(g, info) && info.transactions != {} && g.Topological(info.transactions, todo)
    ensures Candidate(g, todo, info)
  {
  }

  // ----- the whole run -----

  /** out is emitted and todo is not, in an order nothing of todo has to precede. */
  ghost predicate Emitted(g: Graph, out: seq<nat>, todo: set<nat>) {
    && todo <= g.used && g.TopoOrdered(out) && Distinct(out) && Elements(out) == g.used - todo
    && forall x, y | x in out && y in todo :: y !in g.Ancestors(x)
  }

  lemma EmitStep(g: Graph, out: seq<nat>, todo: set<nat>, r: set<nat>, order: seq<nat>)
    requires Emitted(g, out, todo) && g.Topological(r, todo) && g.IsLinearization(order, r)
    ensures Emitted(g, out + order, todo - r)
  {
    TopoConcat(g, out, order);
    DistinctConcat(out, order);
    forall x, y | x in out && y in order
      ensures y !in g.Ancestors(x)
    {
      assert y in Elements(order);
    }
    forall x, y | x in out + order && y in todo - r
      ensures y !in g.Ancestors(x)
    {
      if x in order {
        assert x in Elements(order);
      }
    }
  }

  lemma EmitStart(g: Graph)
    ensures Emitted(g, [], g.used)
  {
  }

  lemma EmitEnd(g: Graph, out: seq<nat>)
    requires Emitted(g, out, {})
    ensures g.IsLinearization(out, g.used)
  {
  }

  /** What a round keeps, as far as it concerns only values. */
  ghost predicate Run(g: Graph, out: seq<nat>, todo: set<nat>, optimal: bool) {
    Emitted(g, out, todo) && (optimal ==> OptimalSoFar(g, out, todo))
  }

  lemma RunStep(g: Graph, out: seq<nat>, todo: set<nat>, best: SetInfo, order: seq<nat>, optimal: bool, proven: bool)
    requires g.Cluster() && Run(g, out, todo, optimal)
    requires Candidate(g, todo, best) && g.IsLinearization(order, best.transactions)
    requires proven ==> Optimal(g, todo, best.feerate)
    ensures Run(g, out + order, todo - best.transactions, optimal && proven)
  {
    hide Graph.StoresClosure, Graph.Acyclic, Graph.PositiveSizes, Optimal, OptimalSoFar, Graph.SetFee,
         Graph.TopoOrdered, Emitted;
    EmittedTodo(g, out, todo);
    EmitStep(g, out, todo, best.transactions, order);
    if optimal && proven {
      OptimalStep(g, out, todo, best.transactions, order);
    }
  }

  lemma RunStart(g: Graph)
    ensures Run(g, [], g.used, true)
  {
    EmitStart(g);
    OptimalStart(g);
  }

  lemma RunTodo(g: Graph, out: seq<nat>, todo: set<nat>, optimal: bool)
    requires Run(g, out, todo, optimal)
    ensures todo <= g.used
  {
  }

  lemma EmittedTodo(g: Graph, out: seq<nat>, todo: set<nat>)
    requires Emitted(g, out, todo)
    ensures todo <= g.used
  {
  }

  lemma OldStep(g: Graph, out: seq<nat>, rem: seq<nat>, todo: set<nat>, lin0: seq<nat>, parts: seq<seq<nat>>,
                best: SetInfo, order: seq<nat>)
    requires g.Cluster() && Progress(g, out, rem, lin0) && TxChunks(g, parts, rem) && Elements(rem) == todo
    requires Candidate(g, todo, best) && MayLead(g, best.transactions, parts)
             && g.IsLinearization(order, best.transactions)
    ensures Progress(g, out + order, Keep(rem, todo - best.transactions), lin0)
  {
    hide Graph.StoresClosure, Graph.Acyclic, Graph.PositiveSizes, Graph.SetFee, MayLead, TxChunks, Keep, Dominates,
         Graph.Fees, Graph.TopoOrdered, Distinct;
    StepProgress(g, out, rem, lin0, parts, best.transactions, order);
  }

  /** Takes best out of the chunking of the old linearization, if there is one. */
  method TakeFromOld(g: Graph, c: LinearizationChunking, ghost out: seq<nat>, ghost todo: set<nat>,
                     ghost lin0: seq<nat>, best: SetInfo, ghost order: seq<nat>)
    requires g.Cluster() && FollowsOld(g, c, out, todo, lin0) && Candidate(g, todo, best) && todo != {}
    requires lin0 != [] ==> MayLead(g, best.transactions, c.parts)
    requires g.IsLinearization(order, best.transactions)
    modifies c
    ensures FollowsOld(g, c, out + order, todo - best.transactions, lin0)
  {
    hide Graph.StoresClosure, Graph.Acyclic, Graph.PositiveSizes, Graph.SetFee, MayLead, TxChunks, Keep, Progress,
         Holds, Sum, Graph.TopoOrdered, Distinct;
    OldFirst(g, c, out, todo, lin0);
    InTodo(g, todo, best);
    if c.NumChunksLeft() > 0 {
      OldStep(g, out, c.Remaining(), todo, lin0, c.parts, best, order);
      KeepKeep(lin0, todo, todo - best.transactions);
      assert todo * (todo - best.transactions) == todo - best.transactions;
      c.MarkDone(best.transactions);
    }
  }

  lemma StartOld(g: Graph, c: LinearizationChunking, lin0: seq<nat>)
    requires c.Valid() && c.g == g && c.todo == Elements(lin0) && c.Remaining() == lin0
    requires lin0 == [] || g.IsLinearization(lin0, g.used)
    ensures FollowsOld(g, c, [], g.used, lin0)
  {
    hide Keep, Dominates, Graph.Fees;
    if lin0 != [] {
      StartProgress(g, lin0);
      KeepAll(lin0, g.used);
    }
  }

  /** The chunking holds the chunks of what is left of the old linearization. */
  lemma OldParts(g: Graph, c: LinearizationChunking, out: seq<nat>, todo: set<nat>, lin0: seq<nat>)
    requires g.Cluster() && FollowsOld(g, c, out, todo, lin0) && todo != {}
    ensures TxChunks(g, c.parts, Keep(lin0, todo))
  {
    hide Sum, Graph.SetFee, Graph.StoresClosure, Graph.Acyclic, Graph.PositiveSizes, Progress, TxChunks, Holds;
    if lin0 == [] {
      hide Keep;
      OldFirst(g, c, out, todo, lin0);
      NoChunks(g);
      KeepAll(lin0, todo);
    }
  }

  lemma EndOld(g: Graph, c: LinearizationChunking, out: seq<nat>, todo: set<nat>, lin0: seq<nat>, best: SetInfo,
               order: seq<nat>)
    requires g.Cluster() && FollowsOld(g, c, out, todo, lin0) && Candidate(g, todo, best) && todo == best.transactions
    requires lin0 != [] ==> MayLead(g, best.transactions, c.parts)
    requires g.IsLinearization(order, best.transactions)
    ensures lin0 != [] ==> Dominates(g.Fees(out + order), g.Fees(lin0))
  {
    hide Graph.StoresClosure, Graph.Acyclic, Graph.PositiveSizes, Graph.SetFee, MayLead, TxChunks, Keep, Dominates,
         Graph.Fees, Holds, Sum, Graph.TopoOrdered, Distinct;
    OldFirst(g, c, out, todo, lin0);
    if lin0 != [] {
      OldStep(g, out, c.Remaining(), todo, lin0, c.parts, best, order);
      assert todo - best.transactions == {};
      NothingKept(c.Remaining());
      EndProgress(g, out + order, lin0);
    }
  }

  lemma NoTransactions(g: Graph, lin: seq<nat>)
    requires g.used == {}
    ensures g.IsLinearization([], g.used)
    ensures g.IsLinearization(lin, g.used) ==> lin == []
  {
    EmptyList(lin);
  }

  /** out is a linearization nowhere below lin0, if given, and nowhere below any other one
      if claimed optimal. */
  ghost predicate Linearized(g: Graph, lin0: seq<nat>, out: seq<nat>, optimal: bool) {
    && g.IsLinearization(out, g.used)
    && (lin0 != [] ==> Dominates(g.Fees(out), g.Fees(lin0)))
    && (optimal ==> forall lin: seq<nat> | g.IsLinearization(lin, g.used) :: Dominates(g.Fees(out), g.Fees(lin)))
  }

  lemma LinearizedEmpty(g: Graph, lin0: seq<nat>)
    requires g.used == {} && (lin0 == [] || g.IsLinearization(lin0, g.used))
    ensures Linearized(g, lin0, [], true)
  {
    hide Dominates, Graph.IsLinearization;
    NoTransactions(g, lin0);
    forall lin: seq<nat> | g.IsLinearization(lin, g.used)
      ensures Dominates(g.Fees([]), g.Fees(lin))
    {
      NoTransactions(g, lin);
      DominatesItself(g.Fees([]));
    }
  }

  lemma LinearizedEnd(g: Graph, c: LinearizationChunking, out: seq<nat>, todo: set<nat>, best: SetInfo, order: seq<nat>,
                      lin0: seq<nat>, optimal: bool)
    requires g.Cluster() && FollowsOld(g, c, out, todo, lin0) && Candidate(g, todo, best)
             && todo - best.transactions == {}
    requires lin0 != [] ==> MayLead(g, best.transactions, c.parts)
    requires g.IsLinearization(order, best.transactions)
    requires Run(g, out + order, todo - best.transactions, optimal)
    ensures Linearized(g, lin0, out + order, optimal)
  {
    hide Dominates, Graph.Fees, Emitted, OptimalSoFar, Graph.IsLinearization, Graph.StoresClosure, Graph.Acyclic,
         Graph.PositiveSizes, FollowsOld, MayLead, Graph.SetFee, Graph.Topological;
    InTodo(g, todo, best);
    assert forall x | x in todo :: x in best.transactions || x in todo - best.transactions;
    assert todo == best.transactions;
    EmitEnd(g, out + order);
    EndOld(g, c, out, todo, lin0, best, order);
    if optimal {
      forall lin: seq<nat> | g.IsLinearization(lin, g.used)
        ensures Dominates(g.Fees(out + order), g.Fees(lin))
      {
        OptimalEnd(g, out + order, lin);
      }
    }
  }

  /** A round whose order of emission is known. */
  lemma Ordered(g: Graph, lin0: seq<nat>, parts: seq<seq<nat>>, searching: bool, r: Round, order: seq<nat>)
    returns (r2: Round)
    requires TxChunks(g, parts, Keep(lin0, r.todo))
    requires FirstChoice(g, r.todo, parts, r.first) && SearchesRound(g, searching, r) && PicksRound(g, parts, r)
    requires g.IsLinearization(order, r.picked.transactions) && ByAncestors(g, order)
    ensures r2 == r.(order := order) && RoundOk(g, lin0, searching, r2)
    ensures LeftAfter(searching, r2) == LeftAfter(searching, r)
  {
    hide FirstChoice, ByAncestors, Graph.IsLinearization, TxChunks, Keep, Finds, ShortestPart;
    r2 := r.(order := order);
    assert RoundWith(g, parts, searching, r2);
  }

  /** One more round, with the order its set is emitted in, continues the run. */
  lemma RoundDone(g: Graph, c: LinearizationChunking, lin0: seq<nat>, searching: bool, start: nat, rounds: seq<Round>,
                  out: seq<nat>, todo: set<nat>, left: nat, optimal: bool, r: Round, order: seq<nat>)
    returns (rounds2: seq<Round>)
    requires g.Cluster() && FollowsOld(g, c, out, todo, lin0) && todo != {}
    requires Ran(g, lin0, searching, start, rounds, out, todo, left, optimal) && Run(g, out, todo, optimal)
    requires r.todo == todo && r.left == left && Candidate(g, todo, r.picked)
    requires FirstChoice(g, todo, c.parts, r.first) && SearchesRound(g, searching, r) && PicksRound(g, c.parts, r)
    requires NoneAbove(g, todo, r.picked.feerate)
    requires r.done < r.allowed ==> Optimal(g, todo, r.picked.feerate)
    requires g.IsLinearization(order, r.picked.transactions) && ByAncestors(g, order)
    ensures var rest, optimal2 := todo - r.picked.transactions, optimal && r.done < r.allowed;
            && Ran(g, lin0, searching, start, rounds2, out + order, rest, LeftAfter(searching, r), optimal2)
            && Run(g, out + order, rest, optimal2) && |rest| < |todo|
    ensures rounds2 != []
  {
    hide Ran, Run, FollowsOld, FirstChoice, SearchesRound, PicksRound, NoneAbove, ByAncestors, Graph.IsLinearization,
         Graph.StoresClosure, Graph.Acyclic, Graph.PositiveSizes, RoundOk, LeftAfter, TxChunks, Keep, Optimal,
         Graph.SetFee, Graph.Topological;
    OldParts(g, c, out, todo, lin0);
    var round := Ordered(g, lin0, c.parts, searching, r, order);
    RanStep(g, lin0, searching, start, rounds, out, todo, left, optimal, round);
    rounds2 := rounds + [round];
    RunStep(g, out, todo, r.picked, order, optimal, r.done < r.allowed);
    InTodo(g, todo, r.picked);
    SmallerSet(todo - r.picked.transactions, todo);
  }

  /** Linearizes the cluster, spending at most about maxIterations on searching. */
  method Linearize(g: Graph, maxIterations: nat, oldLinearization: seq<nat>)
    returns (linearization: seq<nat>, optimal: bool, ghost rounds: seq<Round>)
    requires g.Cluster()
    requires oldLinearization == [] || g.IsLinearization(oldLinearization, g.used)
    ensures RunOf(g, maxIterations, oldLinearization, rounds, linearization, optimal)
    ensures NoneHigher(g, rounds)
    ensures g.IsLinearization(linearization, g.used)
    ensures oldLinearization != [] ==> Dominates(g.Fees(linearization), g.Fees(oldLinearization))
    ensures optimal ==>
              forall lin: seq<nat> | g.IsLinearization(lin, g.used) :: Dominates(g.Fees(linearization), g.Fees(lin))
    ensures maxIterations >= AmpleInAll(|g.used|) ==> optimal
  {
    hide AmpleInAll, OnCourse, Run, FollowsOld, Graph.IsLinearization, Graph.StoresClosure, Graph.Acyclic,
         Graph.PositiveSizes, Graph.SetFee, Graph.TopoOrdered, Distinct, Dominates, Graph.Fees,
         LinearizationChunking.Valid, SearchCandidateFinder.Valid, AncestorCandidateFinder.Valid, Emitted, OptimalSoFar,
         Optimal, Candidate, Progress, MayLead, Keep, Image, Ran, FirstChoice, SearchesRound, PicksRound, NoneAbove,
         ByAncestors, RunOf, NoneHigher, RoundOk, LeftAfter, TxChunks;
    linearization, optimal, rounds := [], true, [];
    if |g.used| == 0 {
      LinearizedEmpty(g, oldLinearization);
      NoRounds(g, maxIterations, oldLinearization);
      return;
    }
    ghost var ample := maxIterations >= AmpleInAll(|g.used|);
    var ancFinder := new AncestorCandidateFinder(g);
    var srcFinder, iterationsLeft := StartSearch(g, maxIterations);
    ghost var searching, start := srcFinder != null, iterationsLeft;
    RanStart(g, oldLinearization, searching, start);
    OldInUse(g, oldLinearization);
    var oldChunking := new LinearizationChunking(g, oldLinearization);
    StartOld(g, oldChunking, oldLinearization);
    RunStart(g);
    while true
      invariant ancFinder.todo != {}
      invariant ancFinder.Valid() && ancFinder.g == g
      invariant FollowsSearch(g, srcFinder, ancFinder.todo)
      invariant FollowsOld(g, oldChunking, linearization, ancFinder.todo, oldLinearization)
      invariant Run(g, linearization, ancFinder.todo, optimal)
      invariant (srcFinder != null) == searching
      invariant Ran(g, oldLinearization, searching, start, rounds, linearization, ancFinder.todo, iterationsLeft,
                    optimal)
      invariant ample ==> optimal && OnCourse(g, srcFinder, iterationsLeft, |ancFinder.todo|)
      invariant fresh(ancFinder) && fresh(oldChunking) && (srcFinder != null ==> fresh(srcFinder))
      decreases |ancFinder.todo|
    {
      ghost var todo := ancFinder.todo;
      RunTodo(g, linearization, todo, optimal);
      var best, left, proven, chosen := NextSet(g, ancFinder, srcFinder, oldChunking, iterationsLeft, linearization,
                                                oldLinearization);
      ghost var leftBefore := iterationsLeft;
      iterationsLeft := left;
      InTodo(g, todo, best);
      ghost var wasOptimal := optimal;
      if !proven {
        optimal := false;
      }
      var next := AppendTopo(g, linearization, best.transactions);
      ghost var order := next[|linearization|..];
      assert next == linearization + order;
      rounds := RoundDone(g, oldChunking, oldLinearization, searching, start, rounds, linearization, todo, leftBefore,
                          wasOptimal, chosen, order);
      StaysOnCourse(g, srcFinder, left, |todo| - 1, |todo - best.transactions|);
      ancFinder.MarkDone(best.transactions);
      if ancFinder.AllDone() {
        LinearizedEnd(g, oldChunking, linearization, todo, best, order, oldLinearization, optimal);
        RanEnd(g, maxIterations, oldLinearization, searching, start, rounds, next, iterationsLeft, optimal);
        linearization := next;
        break;
      }
      if srcFinder != null {
        srcFinder.MarkDone(best.transactions);
      }
      TakeFromOld(g, oldChunking, linearization, todo, oldLinearization, best, order);
      linearization := next;
    }
  }

  lemma AmpleStart(n: nat)
    ensures n > 0 ==> (n * n + 63) / 64 <= n * n
    ensures Ample(n, n) > 0
  {
    if n > 0 {
      Limbs.MulMonotone(1, n, n);
      Square(n * n);
    }
    Limbs.MulNonNegative(n, n + Limbs.Pow2(n));
  }

  lemma Square(m: nat)
    requires m >= 1
    ensures (m + 63) / 64 <= m
  {
  }

  lemma StaysOnCourse(g: Graph, s: SearchCandidateFinder?, left: nat, most: nat, todo: nat)
    requires todo <= most
    ensures OnCourse(g, s, left, most) ==> OnCourse(g, s, left, todo)
  {
    Limbs.MulMonotone(todo, most, |g.used| + Limbs.Pow2(|g.used|));
  }

  /** Sets up the search, if there are iterations for it. */
  method StartSearch(g: Graph, maxIterations: nat) returns (s: SearchCandidateFinder?, iterationsLeft: nat)
    requires g.Cluster() && g.used != {}
    ensures FollowsSearch(g, s, g.used) && (s != null ==> fresh(s)) && iterationsLeft <= maxIterations
    ensures s != null <==> maxIterations > (|g.used| * |g.used| + 63) / 64
    ensures iterationsLeft == if s != null then maxIterations - (|g.used| * |g.used| + 63) / 64 else maxIterations
    ensures maxIterations >= AmpleInAll(|g.used|) ==> OnCourse(g, s, iterationsLeft, |g.used|)
  {
    hide Ample, Graph.StoresClosure, Graph.Acyclic, Graph.PositiveSizes, SearchCandidateFinder.Consistent, Setting;
    s, iterationsLeft := null, maxIterations;
    AmpleStart(|g.used|);
    var startIterations := (|g.used| * |g.used| + 63) / 64;
    if iterationsLeft > startIterations {
      iterationsLeft := iterationsLeft - startIterations;
      s := new SearchCandidateFinder(g);
    }
  }

  lemma OldInUse(g: Graph, lin0: seq<nat>)
    requires lin0 == [] || g.IsLinearization(lin0, g.used)
    ensures Elements(lin0) <= g.used && Distinct(lin0)
  {
  }
}
