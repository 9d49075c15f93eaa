/** The bounded search for the highest-feerate topological set (src/cluster_linearize.h),
    with transactions numbered by decreasing feerate. */
module CandidateSearch {
  import opened Collections
  import opened FeeFracs
  import opened NatSets
  import opened DepGraphs
  import opened Chunkings
  import Limbs

  /** inc is decided, und undecided; pot bounds the feerate of what can come of them. */
  datatype WorkItem = WorkItem(inc: SetInfo, und: set<nat>, potFeerate: FeeFrac)

  // ----- feerates of sets -----

  lemma {:induction false} NonNegativeSet(g: Graph, s: set<nat>, p: int, q: int)
    requires forall t | t in s :: g.FeeRate(t).Excess(p, q) >= 0
    ensures g.SetFee(s).Excess(p, q) >= 0
    decreases |s|
  {
    hide FeeFrac.Excess;
    if s == {} {
      g.SetFeeEmpty();
      ZeroExcess(p, q);
    } else {
      var x :| x in s;
      NonNegativeSet(g, s - {x}, p, q);
      g.SetFeeRemove(s, x);
      ExcessPlus(g.FeeRate(x), g.SetFee(s - {x}), p, q);
    }
  }

  lemma {:induction false} NonPositiveSet(g: Graph, s: set<nat>, p: int, q: int)
    requires forall t | t in s :: g.FeeRate(t).Excess(p, q) <= 0
    ensures g.SetFee(s).Excess(p, q) <= 0
    decreases |s|
  {
    hide FeeFrac.Excess;
    if s == {} {
      g.SetFeeEmpty();
      ZeroExcess(p, q);
    } else {
      var x :| x in s;
      NonPositiveSet(g, s - {x}, p, q);
      g.SetFeeRemove(s, x);
      ExcessPlus(g.FeeRate(x), g.SetFee(s - {x}), p, q);
    }
  }

  lemma ZeroExcess(p: int, q: int)
    ensures EMPTY.Excess(p, q) == 0
  {
  }

  lemma ExchangeExcess(g: Graph, s: set<nat>, t: set<nat>, p: int, q: int)
    ensures g.SetFee(s).Excess(p, q) + g.SetFee(t - s).Excess(p, q)
         == g.SetFee(t).Excess(p, q) + g.SetFee(s - t).Excess(p, q)
  {
    hide FeeFrac.Excess, Graph.SetFee;
    g.SetFeeSplit(s, t);
    g.SetFeeSplit(t, s);
    assert s * t == t * s;
    ExcessPlus(g.SetFee(s * t), g.SetFee(s - t), p, q);
    ExcessPlus(g.SetFee(s * t), g.SetFee(t - s), p, q);
  }

  /** If nothing t has beyond s is below f, and nothing s has beyond t is above it, then
      t reaching f or less bounds s. */
  lemma ExchangeBound(g: Graph, s: set<nat>, t: set<nat>, f: FeeFrac)
    requires forall x | x in t - s :: !f.Higher(g.FeeRate(x))
    requires forall x | x in s - t :: !g.FeeRate(x).Higher(f)
    ensures !g.SetFee(t).Higher(f) ==> !g.SetFee(s).Higher(f)
  {
    hide FeeFrac.Excess, FeeFrac.Higher, Graph.SetFee;
    forall x | x in t - s
      ensures g.FeeRate(x).Excess(f.fee, f.size) >= 0
    {
      HigherIsExcess(f, g.FeeRate(x));
    }
    forall x | x in s - t
      ensures g.FeeRate(x).Excess(f.fee, f.size) <= 0
    {
      HigherIsExcess(f, g.FeeRate(x));
    }
    NonNegativeSet(g, t - s, f.fee, f.size);
    NonPositiveSet(g, s - t, f.fee, f.size);
    ExchangeExcess(g, s, t, f.fee, f.size);
    HigherIsExcess(f, g.SetFee(s));
    HigherIsExcess(f, g.SetFee(t));
  }

  /** Adding transactions that are each not below s gives a set not below s. */
  lemma AddingHigher(g: Graph, s: set<nat>, t: set<nat>)
    requires forall x | x in t - s :: !g.SetFee(s).Higher(g.FeeRate(x))
    ensures !g.SetFee(s).Higher(g.SetFee(s + t))
  {
    hide FeeFrac.Excess, FeeFrac.Higher, Graph.SetFee;
    var f := g.SetFee(s);
    forall x | x in t - s
      ensures g.FeeRate(x).Excess(f.fee, f.size) >= 0
    {
      HigherIsExcess(f, g.FeeRate(x));
    }
    NonNegativeSet(g, t - s, f.fee, f.size);
    g.SetFeeUnion(s, t - s);
    assert s + (t - s) == s + t;
    ExcessPlus(f, g.SetFee(t - s), f.fee, f.size);
    HigherIsExcess(f, f);
    HigherIsExcess(f, g.SetFee(s + t));
  }

  /** A set whose base is not above f, extended by transactions not above f. */
  lemma AddingLower(g: Graph, s: set<nat>, base: set<nat>, f: FeeFrac)
    requires base <= s && !g.SetFee(base).Higher(f)
    requires forall x | x in s - base :: !g.FeeRate(x).Higher(f)
    ensures !g.SetFee(s).Higher(f)
  {
    hide FeeFrac.Higher, Graph.SetFee;
    ExchangeBound(g, s, base, f);
  }

  // ----- the setting of a search -----

  /** Transactions are numbered by decreasing feerate. */
  ghost predicate SortedByFeerate(g: Graph) {
    forall i, j | i in g.used && j in g.used && i < j :: !g.FeeRate(j).Higher(g.FeeRate(i))
  }

  ghost predicate Setting(g: Graph, todo: set<nat>) {
    g.Valid() && g.PositiveSizes() && SortedByFeerate(g) && todo <= g.used
  }

  /** A candidate: a non-empty topological subset of todo, with its feerate. */
  ghost predicate Candidate(g: Graph, todo: set<nat>, info: SetInfo) {
    InfoOk(g, info) && info.transactions != {} && g.Topological(info.transactions, todo)
  }

  /** imp holds exactly the transactions of todo above best. */
  ghost predicate ImpOk(g: Graph, todo: set<nat>, best: FeeFrac, imp: set<nat>) {
    imp <= todo && forall t | t in todo :: t in imp <==> g.FeeRate(t).Higher(best)
  }

  /** s can come of the decisions inc and the choices und. */
  ghost predicate Compatible(g: Graph, todo: set<nat>, inc: set<nat>, und: set<nat>, s: set<nat>) {
    inc <= s && s <= inc + und && s != {} && g.Topological(s, todo)
  }

  /** Whatever can come of the item and beats best does not beat the item's bound. */
  ghost predicate BoundOk(g: Graph, inc: set<nat>, und: set<nat>, pot: FeeFrac, best: FeeFrac) {
    forall s: set<nat> | inc <= s && s <= inc + und && g.SetFee(s).Higher(best) :: !g.SetFee(s).Higher(pot)
  }

  ghost predicate ItemShape(g: Graph, todo: set<nat>, inc: SetInfo, und: set<nat>) {
    && InfoOk(g, inc) && g.Topological(inc.transactions, todo)
    && und <= todo && inc.transactions !! und && g.Topological(inc.transactions + und, todo)
  }

  ghost predicate ItemOk(g: Graph, todo: set<nat>, best: FeeFrac, item: WorkItem) {
    && ItemShape(g, todo, item.inc, item.und) && item.und != {}
    && (item.inc.transactions == {} ==> item.potFeerate == EMPTY)
    && (item.inc.transactions != {} ==>
          && item.potFeerate.size > 0
          && !item.inc.feerate.Higher(best)
          && BoundOk(g, item.inc.transactions, item.und, item.potFeerate, best))
  }

  /** Some queued item can still lead to a set at least as good as s. */
  ghost predicate Reaches(g: Graph, todo: set<nat>, queue: seq<WorkItem>, s: set<nat>) {
    exists k, t :: 0 <= k < |queue| && CompatibleItem(g, todo, queue[k], t) && !g.SetFee(s).Higher(g.SetFee(t))
  }

  ghost predicate CompatibleItem(g: Graph, todo: set<nat>, item: WorkItem, s: set<nat>) {
    Compatible(g, todo, item.inc.transactions, item.und, s)
  }

  /** Everything that can come of inc and und and beats best is still reachable. */
  ghost predicate Covers(g: Graph, todo: set<nat>, queue: seq<WorkItem>, best: FeeFrac, inc: set<nat>, und: set<nat>) {
    forall s: set<nat> | Compatible(g, todo, inc, und, s) && g.SetFee(s).Higher(best) :: Reaches(g, todo, queue, s)
  }

  // ----- growing the potential of an item -----

  lemma RaisesTotal(f: FeeFrac, x: FeeFrac)
    requires x.Higher(f)
    ensures x.Higher(f.Plus(x))
  {
    assert (f.fee + x.fee) * x.size == f.fee * x.size + x.fee * x.size;
    assert x.fee * (f.size + x.size) == x.fee * f.size + x.fee * x.size;
  }

  lemma SizeOf(g: Graph, s: set<nat>)
    requires g.PositiveSizes() && s <= g.used && s != {}
    ensures g.SetFee(s).size > 0
  {
    g.SetFeePositive(s);
  }

  /** Of two transactions the later one is not higher, so what is not above it is no
      threat, and what the later one is above, the earlier one is above too. */
  lemma LaterIsLower(g: Graph, i: nat, j: nat, f: FeeFrac)
    requires g.PositiveSizes() && SortedByFeerate(g) && i in g.used && j in g.used && i < j && f.size > 0
    ensures g.FeeRate(j).Higher(f) ==> g.FeeRate(i).Higher(f)
  {
    hide FeeFrac.Higher;
    FeerateTransitive(g.FeeRate(i), g.FeeRate(j), f);
  }

  /** pot is inc together with those of cand that are above the result. */
  ghost predicate PotOk(g: Graph, inc: set<nat>, cand: set<nat>, pot: SetInfo) {
    && InfoOk(g, pot) && inc <= pot.transactions <= inc + cand
    && (forall a | a in pot.transactions && a !in inc :: g.FeeRate(a).Higher(pot.feerate))
    && (forall x | x in cand && x !in pot.transactions :: !g.FeeRate(x).Higher(pot.feerate))
  }

  ghost predicate PotGrows(g: Graph, inc: set<nat>, cand: set<nat>, rest: set<nat>, pot: SetInfo) {
    && InfoOk(g, pot) && rest <= cand && pot.transactions == inc + (cand - rest)
    && (forall a | a in cand && a !in rest :: g.FeeRate(a).Higher(pot.feerate))
    && (forall a, x | a in cand && a !in rest && x in rest :: a < x)
  }

  lemma PotStep(g: Graph, inc: set<nat>, cand: set<nat>, rest: set<nat>, pot: SetInfo, x: nat)
    requires g.PositiveSizes() && SortedByFeerate(g) && inc != {} && inc !! cand && inc + cand <= g.used
    requires PotGrows(g, inc, cand, rest, pot) && rest != {} && x == First(rest)
    requires g.FeeRate(x).Higher(pot.feerate)
    ensures PotGrows(g, inc, cand, rest - {x}, SetInfo(pot.transactions + {x}, pot.feerate.Plus(g.FeeRate(x))))
  {
    hide FeeFrac.Higher, Graph.SetFee, SortedByFeerate, Graph.PositiveSizes;
    var grown := SetInfo(pot.transactions + {x}, pot.feerate.Plus(g.FeeRate(x)));
    g.SetFeeAdd(pot.transactions, x);
    assert InfoOk(g, grown);
    RaisesTotal(pot.feerate, g.FeeRate(x));
    SizeOf(g, grown.transactions);
    forall a | a in cand && a !in rest - {x}
      ensures g.FeeRate(a).Higher(grown.feerate)
    {
      if a != x {
        LaterIsLower(g, a, x, grown.feerate);
      }
    }
  }

  lemma PotDone(g: Graph, inc: set<nat>, cand: set<nat>, rest: set<nat>, pot: SetInfo)
    requires g.PositiveSizes() && SortedByFeerate(g) && inc != {} && inc !! cand && inc + cand <= g.used
    requires PotGrows(g, inc, cand, rest, pot)
    requires rest != {} ==> !g.FeeRate(First(rest)).Higher(pot.feerate)
    ensures PotOk(g, inc, cand, pot)
  {
    hide FeeFrac.Higher, Graph.SetFee, SortedByFeerate, Graph.PositiveSizes;
    SizeOf(g, pot.transactions);
    forall x | x in cand && x !in pot.transactions
      ensures !g.FeeRate(x).Higher(pot.feerate)
    {
      if x != First(rest) {
        LaterIsLower(g, First(rest), x, pot.feerate);
      }
    }
  }

  lemma PotStart(g: Graph, inc: SetInfo, cand: set<nat>)
    requires InfoOk(g, inc)
    ensures PotGrows(g, inc.transactions, cand, cand, inc)
  {
    assert inc.transactions + (cand - cand) == inc.transactions;
  }

  /** Adds candidates to inc, highest feerate first, as long as that raises its feerate. */
  method GrowPot(g: Graph, inc: SetInfo, cand: set<nat>) returns (pot: SetInfo)
    requires g.PositiveSizes() && SortedByFeerate(g) && InfoOk(g, inc)
    requires inc.transactions != {} && inc.transactions !! cand && inc.transactions + cand <= g.used
    ensures PotOk(g, inc.transactions, cand, pot)
  {
    hide FeeFrac.Higher, Graph.SetFee, SortedByFeerate, Graph.PositiveSizes, PotGrows, PotOk;
    pot := inc;
    var rest := cand;
    PotStart(g, inc, cand);
    while rest != {}
      invariant PotGrows(g, inc.transactions, cand, rest, pot)
      decreases |rest|
    {
      var pos := First(rest);
      if !g.FeeRate(pos).Higher(pot.feerate) {
        break;
      }
      PotStep(g, inc.transactions, cand, rest, pot, pos);
      pot := SetInfo(pot.transactions + {pos}, pot.feerate.Plus(g.FeeRate(pos)));
      rest := rest - {pos};
    }
    PotDone(g, inc.transactions, cand, rest, pot);
  }

  /** The potential bounds every set between inc and inc + und that beats best, whether
      or not that set is topological. */
  lemma PotBound(g: Graph, todo: set<nat>, best: FeeFrac, imp: set<nat>, inc: set<nat>, und: set<nat>, pot: SetInfo)
    requires g.PositiveSizes() && todo <= g.used && inc != {} && inc + und <= todo && inc !! und
    requires best.size > 0 && ImpOk(g, todo, best, imp) && PotOk(g, inc, imp * und, pot)
    ensures BoundOk(g, inc, und, pot.feerate, best)
  {
    hide FeeFrac.Higher, Graph.SetFee, Graph.PositiveSizes;
    SizeOf(g, pot.transactions);
    forall s: set<nat> | inc <= s && s <= inc + und && g.SetFee(s).Higher(best)
      ensures !g.SetFee(s).Higher(pot.feerate)
    {
      PotBoundAt(g, todo, best, imp, inc, und, pot, s);
    }
  }

  lemma PotBoundAt(g: Graph, todo: set<nat>, best: FeeFrac, imp: set<nat>, inc: set<nat>, und: set<nat>, pot: SetInfo,
                   s: set<nat>)
    requires g.PositiveSizes() && todo <= g.used && inc != {} && inc + und <= todo && inc !! und
    requires best.size > 0 && ImpOk(g, todo, best, imp) && PotOk(g, inc, imp * und, pot)
    requires inc <= s <= inc + und
    ensures g.SetFee(s).Higher(best) ==> !g.SetFee(s).Higher(pot.feerate)
  {
    hide FeeFrac.Higher, Graph.SetFee;
    var f := if best.Higher(pot.feerate) then best else pot.feerate;
    SizeOf(g, pot.transactions);
    NotAboveItself(pot.feerate);
    NotBoth(best, pot.feerate);
    forall x | x in pot.transactions - s
      ensures !f.Higher(g.FeeRate(x))
    {
      NotBoth(g.FeeRate(x), f);
    }
    forall x | x in s - pot.transactions
      ensures !g.FeeRate(x).Higher(f)
    {
      FeerateTransitive(g.FeeRate(x), best, pot.feerate);
      FeerateTransitive(g.FeeRate(x), pot.feerate, best);
    }
    ExchangeBound(g, s, pot.transactions, f);
  }

  lemma NotAboveItself(f: FeeFrac)
    ensures !f.Higher(f)
  {
  }

  lemma NotBoth(a: FeeFrac, b: FeeFrac)
    ensures !(a.Higher(b) && b.Higher(a))
  {
  }

  // ----- jumping ahead -----

  /** ext is inc and, with each of from whose remaining ancestors all lie in pot, those
      ancestors. */
  ghost predicate Jumps(g: Graph, todo: set<nat>, inc: set<nat>, pot: set<nat>, from: set<nat>, ext: set<nat>) {
    && inc <= ext <= pot && g.Topological(ext, todo)
    && forall x | x in from && g.Ancestors(x) * todo <= pot :: x in ext
  }

  lemma AncestorsTopological(g: Graph, todo: set<nat>, x: nat)
    requires g.Valid() && todo <= g.used && x in todo
    ensures g.Topological(g.Ancestors(x) * todo, todo) && x in g.Ancestors(x) * todo
  {
  }

  lemma JumpStep(g: Graph, todo: set<nat>, inc: set<nat>, pot: set<nat>, from: set<nat>, ext: set<nat>, x: nat)
    requires g.Valid() && todo <= g.used && x in todo
    requires Jumps(g, todo, inc, pot, from, ext)
    ensures g.Ancestors(x) * todo <= pot ==> Jumps(g, todo, inc, pot, from + {x}, ext + g.Ancestors(x) * todo)
    ensures !(g.Ancestors(x) * todo <= pot) ==> Jumps(g, todo, inc, pot, from + {x}, ext)
  {
    hide Graph.StoresClosure, Graph.Topological;
    AncestorsTopological(g, todo, x);
    g.TopologicalMeet(ext, g.Ancestors(x) * todo, todo);
  }

  method JumpAhead(g: Graph, todo: set<nat>, inc: set<nat>, pot: set<nat>) returns (ext: set<nat>)
    requires g.Valid() && todo <= g.used && inc <= pot <= todo && g.Topological(inc, todo)
    ensures Jumps(g, todo, inc, pot, pot - inc, ext)
  {
    hide Graph.StoresClosure, Graph.Topological;
    ext := inc;
    var rest := pot - inc;
    while rest != {}
      invariant rest <= pot - inc
      invariant Jumps(g, todo, inc, pot, pot - inc - rest, ext)
    {
      var pos := First(rest);
      JumpStep(g, todo, inc, pot, pot - inc - rest, ext, pos);
      assert pot - inc - rest + {pos} == pot - inc - (rest - {pos});
      var ancTodo := g.Ancestors(pos) * todo;
      if ancTodo <= pot {
        ext := ext + ancTodo;
      }
      rest := rest - {pos};
    }
    assert pot - inc - rest == pot - inc;
  }

  /** A set between inc and inc + und that beats best can take all of ext in without
      getting worse: nothing it lacks of the potential is below it. */
  lemma JumpKeeps(g: Graph, todo: set<nat>, best: FeeFrac, inc: set<nat>, und: set<nat>, pot: SetInfo, ext: set<nat>,
                  s: set<nat>)
    requires g.PositiveSizes() && todo <= g.used && inc != {} && inc + und <= todo
    requires InfoOk(g, pot) && pot.transactions <= todo && BoundOk(g, inc, und, pot.feerate, best)
    requires forall a | a in pot.transactions && a !in inc :: g.FeeRate(a).Higher(pot.feerate)
    requires inc <= ext <= pot.transactions && ext <= inc + und && g.Topological(ext, todo)
    requires Compatible(g, todo, inc, und, s) && g.SetFee(s).Higher(best)
    ensures Compatible(g, todo, ext, und - ext, s + ext)
    ensures !g.SetFee(s).Higher(g.SetFee(s + ext))
  {
    hide FeeFrac.Higher, Graph.SetFee, Graph.Topological;
    SizeOf(g, s);
    SizeOf(g, pot.transactions);
    forall x | x in ext - s
      ensures !g.SetFee(s).Higher(g.FeeRate(x))
    {
      FeerateTransitive(g.FeeRate(x), pot.feerate, g.SetFee(s));
      NotBoth(g.FeeRate(x), g.SetFee(s));
    }
    AddingHigher(g, s, ext);
    g.TopologicalMeet(s, ext, todo);
  }

  // ----- the incumbent -----

  /** imp may still hold transactions not above best, but only as its last ones. */
  ghost predicate ImpAtLeast(g: Graph, todo: set<nat>, best: FeeFrac, imp: set<nat>) {
    imp <= todo && forall t | t in todo && g.FeeRate(t).Higher(best) :: t in imp
  }

  /** Drops from the end of imp what is not above best. */
  method ShrinkImp(g: Graph, todo: set<nat>, best: FeeFrac, imp: set<nat>) returns (r: set<nat>)
    requires g.PositiveSizes() && SortedByFeerate(g) && todo <= g.used && best.size > 0
    requires ImpAtLeast(g, todo, best, imp)
    ensures ImpOk(g, todo, best, r)
  {
    hide FeeFrac.Higher, SortedByFeerate;
    r := imp;
    while r != {}
      invariant ImpAtLeast(g, todo, best, r)
      decreases |r|
    {
      var check := Last(r);
      if g.FeeRate(check).Higher(best) {
        forall t | t in r
          ensures g.FeeRate(t).Higher(best)
        {
          if t != check {
            LaterIsLower(g, t, check, best);
          }
        }
        break;
      }
      r := r - {check};
    }
  }

  /** b is at least as good an incumbent as a. */
  ghost predicate NotWorse(b: FeeFrac, a: FeeFrac) {
    b == a || b.Better(a)
  }

  lemma NotWorseFeerate(b: FeeFrac, a: FeeFrac, f: FeeFrac)
    requires a.size > 0 && b.size > 0 && f.size > 0 && NotWorse(b, a)
    ensures f.Higher(b) ==> f.Higher(a)
    ensures !f.Higher(a) ==> !f.Higher(b)
  {
    hide FeeFrac.Higher, FeeFrac.Better;
    BetterHigher(b, a);
    NotAboveItself(a);
    FeerateTransitive(f, b, a);
  }

  lemma BetterHigher(a: FeeFrac, b: FeeFrac)
    ensures a.Better(b) ==> !b.Higher(a)
    ensures !a.Better(b) ==> !a.Higher(b)
  {
  }

  lemma NotWorseTransitive(c: FeeFrac, b: FeeFrac, a: FeeFrac)
    requires a.size > 0 && b.size > 0 && c.size > 0 && NotWorse(c, b) && NotWorse(b, a)
    ensures NotWorse(c, a)
  {
    hide FeeFrac.Better;
    BetterTransitive(c, b, a);
  }

  // ----- what a search does, step by step -----

  /** The transactions above best. */
  ghost function Above(g: Graph, todo: set<nat>, best: FeeFrac): set<nat> {
    set t | t in todo && g.FeeRate(t).Higher(best)
  }

  lemma ImpIsAbove(g: Graph, todo: set<nat>, best: FeeFrac, imp: set<nat>)
    requires ImpOk(g, todo, best, imp)
    ensures imp == Above(g, todo, best)
  {
    hide FeeFrac.Higher;
  }

  /** pot is the potential of inc while und is undecided, and ext what of it can be taken
      at once. */
  ghost predicate Extension(g: Graph, todo: set<nat>, best: FeeFrac, inc: set<nat>, und: set<nat>, pot: SetInfo,
                            ext: SetInfo)
  {
    && PotOk(g, inc, Above(g, todo, best) * und, pot)
    && InfoOk(g, ext) && Jumps(g, todo, inc, pot.transactions, pot.transactions - inc, ext.transactions)
  }

  /** Decisions inc, extended to ext, become the incumbent if they are better, and an item
      of the queue if the potential holds more. */
  ghost predicate AddsExtended(g: Graph, queue: seq<WorkItem>, best: SetInfo, und: set<nat>, pot: SetInfo, ext: SetInfo,
                               queue2: seq<WorkItem>, best2: SetInfo)
  {
    && best2 == (if ext.feerate.Better(best.feerate) then ext else best)
    && queue2 == if ext.transactions == pot.transactions then queue
                 else queue + [WorkItem(ext, und - ext.transactions, pot.feerate)]
  }

  /** What becomes of queue and incumbent when inc is decided and und is not. */
  ghost predicate Adds(g: Graph, todo: set<nat>, queue: seq<WorkItem>, best: SetInfo, inc: set<nat>, und: set<nat>,
                       queue2: seq<WorkItem>, best2: SetInfo)
  {
    if inc == {} then
      best2 == best && queue2 == if und == {} then queue else queue + [WorkItem(SetInfo({}, EMPTY), und, EMPTY)]
    else
      exists pot, ext :: Extension(g, todo, best.feerate, inc, und, pot, ext)
                         && AddsExtended(g, queue, best, und, pot, ext, queue2, best2)
  }

  /** The item cannot lead to anything that beats best: nothing undecided is above best, or
      the potential is not better; without decisions, the first transaction is not. */
  ghost predicate Hopeless(g: Graph, todo: set<nat>, best: FeeFrac, item: WorkItem)
    requires item.und != {}
  {
    if item.inc.transactions == {} then !g.FeeRate(First(item.und)).Better(best)
    else item.und * Above(g, todo, best) == {} || !item.potFeerate.Better(best)
  }

  /** In how many ways the undecided transactions can be chosen from once t is included,
      and once it is excluded. */
  ghost function SplitCost(g: Graph, und: set<nat>, t: nat): nat {
    Limbs.Pow2(|und - g.Ancestors(t)|) + Limbs.Pow2(|und - g.Descendants(t)|)
  }

  /** Of the undecided ancestors of the first undecided transaction t is the one that leaves
      the least to search, and the first such one. */
  ghost predicate SplitsBest(g: Graph, und: set<nat>, select: set<nat>, t: nat) {
    && t in select
    && (forall u | u in select :: SplitCost(g, und, t) <= SplitCost(g, und, u))
    && (forall u | u in select && u < t :: SplitCost(g, und, t) < SplitCost(g, und, u))
  }

  /** Decides on t, first without it and its descendants, then with it and its ancestors. */
  ghost predicate Decides(g: Graph, todo: set<nat>, queue: seq<WorkItem>, best: SetInfo, item: WorkItem, t: nat,
                          queue1: seq<WorkItem>, best1: SetInfo, queue2: seq<WorkItem>, best2: SetInfo)
    requires item.und != {}
  {
    && SplitsBest(g, item.und, item.und * g.Ancestors(First(item.und)), t)
    && Adds(g, todo, queue, best, item.inc.transactions, item.und - g.Descendants(t), queue1, best1)
    && Adds(g, todo, queue1, best1, item.inc.transactions + g.Ancestors(t) * todo,
            item.und - g.Ancestors(t) * todo, queue2, best2)
  }

  /** Drops the item if it is hopeless, and otherwise splits it. */
  ghost predicate Handles(g: Graph, todo: set<nat>, queue: seq<WorkItem>, best: SetInfo, item: WorkItem,
                          queue2: seq<WorkItem>, best2: SetInfo, wasSplit: bool)
    requires item.und != {}
  {
    if Hopeless(g, todo, best.feerate, item) then
      !wasSplit && queue2 == queue && best2 == best
    else
      wasSplit && exists t, queue1, best1 :: Decides(g, todo, queue, best, item, t, queue1, best1, queue2, best2)
  }

  /** queue without its item k. */
  ghost function Without(queue: seq<WorkItem>, k: nat): seq<WorkItem>
    requires k < |queue|
  {
    queue[..k] + queue[k + 1..]
  }

  function Swapped(queue: seq<WorkItem>): seq<WorkItem>
    requires |queue| > 1
  {
    queue[0 := queue[1]][1 := queue[0]]
  }

  /** Where a search stands: its queue, its incumbent and its iterations left. */
  datatype Standing = Standing(queue: seq<WorkItem>, best: SetInfo, left: nat)

  /** The first two items change places, or the last or the first item is dealt with. */
  datatype Turn = Swap | Back | Front

  ghost predicate TakesOff(g: Graph, todo: set<nat>, a: Standing, k: nat, b: Standing) {
    && k < |a.queue| && a.queue[k].und != {} && b.left <= a.left <= b.left + 1
    && Handles(g, todo, Without(a.queue, k), a.best, a.queue[k], b.queue, b.best, b.left < a.left)
  }

  /** Processing the first item depth first might grow the queue beyond its capacity. */
  predicate Crowded(queue: seq<WorkItem>, capacity: nat)
    requires queue != []
  {
    |queue| - 1 + |queue[0].und| > capacity
  }

  /** While the queue is crowded its last item is dealt with, and its first one otherwise. */
  ghost predicate Takes(g: Graph, todo: set<nat>, capacity: nat, a: Standing, turn: Turn, b: Standing) {
    match turn
    case Swap => |a.queue| > 1 && b == a.(queue := [a.queue[1], a.queue[0]] + a.queue[2..])
    case Back => a.left > 0 && a.queue != [] && Crowded(a.queue, capacity) && TakesOff(g, todo, a, |a.queue| - 1, b)
    case Front => a.left > 0 && a.queue != [] && !Crowded(a.queue, capacity) && TakesOff(g, todo, a, 0, b)
  }

  /** The standings a search goes through. A swap comes only before a first item, or those
      crowding it out, and only once. */
  ghost predicate Exploration(g: Graph, todo: set<nat>, capacity: nat, turns: seq<Turn>, run: seq<Standing>) {
    && |run| == |turns| + 1
    && (forall k | 0 <= k < |turns| :: Takes(g, todo, capacity, run[k], turns[k], run[k + 1]))
    && (forall k | 0 < k < |turns| && turns[k].Swap? :: turns[k - 1].Front?)
  }

  /** The queue holds the connected components of todo, by their first transactions. */
  ghost predicate Components(g: Graph, todo: set<nat>, queue: seq<WorkItem>) {
    && (forall k | 0 <= k < |queue| :: Component(g, todo, queue[k]))
    && (forall j, k | 0 <= j < k < |queue| :: First(queue[j].und) < First(queue[k].und))
    && (forall x | x in todo :: exists k :: 0 <= k < |queue| && x in queue[k].und)
  }

  ghost predicate Component(g: Graph, todo: set<nat>, item: WorkItem) {
    && item.inc == SetInfo({}, EMPTY) && item.potFeerate == EMPTY
    && item.und != {} && ClosedUnderRelated(g, item.und, todo) && Connected(g, item.und)
  }

  /** A search starts from the components and the best set known, or the first component. */
  ghost predicate Started(g: Graph, todo: set<nat>, best: SetInfo, queue: seq<WorkItem>, best2: SetInfo) {
    && Components(g, todo, queue) && queue != []
    && best2 == if best == SetInfo({}, EMPTY) then SetInfo(queue[0].und, g.SetFee(queue[0].und)) else best
  }

  /** The whole search: it ends when the queue is empty or the iterations are used up. */
  ghost predicate Searched(g: Graph, todo: set<nat>, maxIterations: nat, best: SetInfo, turns: seq<Turn>,
                           run: seq<Standing>, r: SetInfo, iterations: nat)
  {
    && Exploration(g, todo, Max(256, 2 * |todo|), turns, run)
    && Started(g, todo, best, run[0].queue, run[0].best) && run[0].left == maxIterations
    && (run[|turns|].queue == [] || run[|turns|].left == 0)
    && r == run[|turns|].best && iterations == maxIterations - run[|turns|].left
  }

  // ----- the queue -----

  ghost predicate ItemsOk(g: Graph, todo: set<nat>, best: FeeFrac, queue: seq<WorkItem>) {
    forall k | 0 <= k < |queue| :: ItemOk(g, todo, best, queue[k])
  }

  /** What holds of the search between any two of its steps. */
  ghost predicate State(g: Graph, todo: set<nat>, queue: seq<WorkItem>, best: SetInfo, imp: set<nat>) {
    Candidate(g, todo, best) && ImpOk(g, todo, best.feerate, imp) && ItemsOk(g, todo, best.feerate, queue)
  }

  /** No item can grow the queue beyond its capacity when processed depth first. */
  ghost predicate Room(queue: seq<WorkItem>, capacity: nat) {
    forall k | 0 <= k < |queue| :: k + |queue[k].und| <= capacity
  }

  lemma CandidateSize(g: Graph, todo: set<nat>, best: SetInfo)
    requires Setting(g, todo) && Candidate(g, todo, best)
    ensures best.feerate.size > 0
  {
    SizeOf(g, best.transactions);
  }

  lemma IncSize(g: Graph, todo: set<nat>, inc: SetInfo, und: set<nat>)
    requires Setting(g, todo) && ItemShape(g, todo, inc, und)
    ensures inc.feerate.IsEmpty() <==> inc.transactions == {}
    ensures inc.feerate.IsEmpty() ==> inc.feerate == EMPTY
    ensures inc.feerate.size >= 0 && inc.transactions + und <= g.used
  {
    g.SetFeePositive(inc.transactions);
  }

  lemma BoundKept(g: Graph, todo: set<nat>, inc: set<nat>, und: set<nat>, pot: FeeFrac, best: FeeFrac, inc2: set<nat>,
                  und2: set<nat>, best2: FeeFrac)
    requires g.PositiveSizes() && todo <= g.used && inc + und <= todo && best.size > 0 && best2.size > 0
    requires BoundOk(g, inc, und, pot, best) && NotWorse(best2, best) && inc != {}
    requires inc <= inc2 && inc2 + und2 <= inc + und
    ensures BoundOk(g, inc2, und2, pot, best2)
  {
    hide FeeFrac.Higher, Graph.SetFee, NotWorse;
    forall s: set<nat> | inc2 <= s && s <= inc2 + und2 && g.SetFee(s).Higher(best2)
      ensures !g.SetFee(s).Higher(pot)
    {
      SizeOf(g, s);
      NotWorseFeerate(best2, best, g.SetFee(s));
    }
  }

  lemma ItemKept(g: Graph, todo: set<nat>, item: WorkItem, best: FeeFrac, best2: FeeFrac)
    requires Setting(g, todo) && best.size > 0 && best2.size > 0
    requires ItemOk(g, todo, best, item) && NotWorse(best2, best)
    ensures ItemOk(g, todo, best2, item)
  {
    hide FeeFrac.Higher, Graph.SetFee, NotWorse, BoundOk;
    var inc := item.inc.transactions;
    if inc != {} {
      SizeOf(g, inc);
      NotWorseFeerate(best2, best, item.inc.feerate);
      BoundKept(g, todo, inc, item.und, item.potFeerate, best, inc, item.und, best2);
    }
  }

  lemma ItemsKept(g: Graph, todo: set<nat>, queue: seq<WorkItem>, best: FeeFrac, best2: FeeFrac)
    requires Setting(g, todo) && best.size > 0 && best2.size > 0
    requires ItemsOk(g, todo, best, queue) && NotWorse(best2, best)
    ensures ItemsOk(g, todo, best2, queue)
  {
    hide ItemOk, NotWorse;
    forall k | 0 <= k < |queue|
      ensures ItemOk(g, todo, best2, queue[k])
    {
      ItemKept(g, todo, queue[k], best, best2);
    }
  }

  /** The outcome of adding an item: queue is extended or left as it is, best gets no
      worse, and nothing that beats best is lost. */
  ghost predicate Added(g: Graph, todo: set<nat>, queue: seq<WorkItem>, best: SetInfo, inc: set<nat>, und: set<nat>,
                        queue2: seq<WorkItem>, best2: SetInfo, imp2: set<nat>)
  {
    && State(g, todo, queue2, best2, imp2) && NotWorse(best2.feerate, best.feerate)
    && Extends(queue, queue2, und)
    && Covers(g, todo, queue2, best2.feerate, inc, und)
  }

  /** At most one item is added, which leaves no more undecided than und. */
  ghost predicate Extends(queue: seq<WorkItem>, queue2: seq<WorkItem>, und: set<nat>) {
    queue2 == queue || (|queue2| == |queue| + 1 && queue <= queue2 && queue2[|queue|].und <= und)
  }

  lemma AddEmptyInc(g: Graph, todo: set<nat>, queue: seq<WorkItem>, best: SetInfo, imp: set<nat>, inc: SetInfo,
                    und: set<nat>)
    requires Setting(g, todo) && State(g, todo, queue, best, imp) && ItemShape(g, todo, inc, und)
    requires inc.transactions == {} && inc.feerate == EMPTY
    ensures und == {} ==> Added(g, todo, queue, best, inc.transactions, und, queue, best, imp)
    ensures und != {} ==>
              Added(g, todo, queue, best, inc.transactions, und, queue + [WorkItem(inc, und, inc.feerate)], best, imp)
  {
    hide FeeFrac.Higher, Graph.SetFee, Graph.Topological, BoundOk;
    var item := WorkItem(inc, und, inc.feerate);
    var queue2 := queue + [item];
    if und != {} {
      assert ItemOk(g, todo, best.feerate, item);
      forall s: set<nat> | Compatible(g, todo, inc.transactions, und, s)
        ensures Reaches(g, todo, queue2, s)
      {
        NotAboveItself(g.SetFee(s));
        assert CompatibleItem(g, todo, queue2[|queue|], s);
      }
    }
  }

  /** If all of the potential can be taken, nothing beats it. */
  lemma AddTaken(g: Graph, todo: set<nat>, best: FeeFrac, best2: FeeFrac, inc: set<nat>, und: set<nat>, pot: SetInfo,
                 queue: seq<WorkItem>)
    requires g.PositiveSizes() && todo <= g.used && inc != {} && inc + und <= todo
    requires best.size > 0 && best2.size > 0 && pot.feerate.size > 0
    requires BoundOk(g, inc, und, pot.feerate, best)
    requires NotWorse(best2, best) && !pot.feerate.Higher(best2)
    ensures Covers(g, todo, queue, best2, inc, und)
  {
    hide FeeFrac.Higher, Graph.SetFee, Graph.Topological, NotWorse;
    forall s: set<nat> | Compatible(g, todo, inc, und, s)
      ensures !g.SetFee(s).Higher(best2)
    {
      SizeOf(g, s);
      NotWorseFeerate(best2, best, g.SetFee(s));
      FeerateTransitive(g.SetFee(s), best2, pot.feerate);
    }
  }

  lemma AddQueued(g: Graph, todo: set<nat>, best: FeeFrac, best2: FeeFrac, inc: set<nat>, und: set<nat>, pot: SetInfo,
                  ext: SetInfo, queue: seq<WorkItem>)
    requires g.PositiveSizes() && todo <= g.used && inc != {} && inc + und <= todo
    requires best.size > 0 && best2.size > 0 && NotWorse(best2, best)
    requires InfoOk(g, pot) && pot.transactions <= todo && BoundOk(g, inc, und, pot.feerate, best)
    requires forall a | a in pot.transactions && a !in inc :: g.FeeRate(a).Higher(pot.feerate)
    requires inc <= ext.transactions <= pot.transactions && ext.transactions <= inc + und
    requires g.Topological(ext.transactions, todo)
    ensures Covers(g, todo, queue + [WorkItem(ext, und - ext.transactions, pot.feerate)], best2, inc, und)
  {
    hide FeeFrac.Higher, Graph.SetFee, Graph.Topological, NotWorse, Compatible, BoundOk;
    var queue2 := queue + [WorkItem(ext, und - ext.transactions, pot.feerate)];
    forall s: set<nat> | Compatible(g, todo, inc, und, s) && g.SetFee(s).Higher(best2)
      ensures Reaches(g, todo, queue2, s)
    {
      CompatibleSize(g, todo, inc, und, s);
      NotWorseFeerate(best2, best, g.SetFee(s));
      JumpKeeps(g, todo, best, inc, und, pot, ext.transactions, s);
      assert CompatibleItem(g, todo, queue2[|queue|], s + ext.transactions);
    }
  }

  lemma CompatibleSize(g: Graph, todo: set<nat>, inc: set<nat>, und: set<nat>, s: set<nat>)
    requires g.PositiveSizes() && todo <= g.used && Compatible(g, todo, inc, und, s)
    ensures g.SetFee(s).size > 0
  {
    SizeOf(g, s);
  }

  /** Remembers inc as the new incumbent if it is better than best. */
  method Improve(g: Graph, todo: set<nat>, best: SetInfo, imp: set<nat>, inc: SetInfo)
    returns (best2: SetInfo, imp2: set<nat>)
    requires Setting(g, todo) && Candidate(g, todo, best) && ImpOk(g, todo, best.feerate, imp)
    requires Candidate(g, todo, inc)
    ensures Candidate(g, todo, best2) && ImpOk(g, todo, best2.feerate, imp2)
    ensures best2 == if inc.feerate.Better(best.feerate) then inc else best
  {
    hide FeeFrac.Higher, FeeFrac.Better, Graph.SetFee, Graph.Topological, Graph.StoresClosure, SortedByFeerate;
    best2, imp2 := best, imp;
    if inc.feerate.Better(best.feerate) {
      best2 := inc;
      CandidateSize(g, todo, best);
      CandidateSize(g, todo, best2);
      forall t | t in todo && g.FeeRate(t).Higher(best2.feerate)
        ensures t in imp
      {
        NotWorseFeerate(best2.feerate, best.feerate, g.FeeRate(t));
      }
      imp2 := ShrinkImp(g, todo, best2.feerate, imp);
    }
  }

  /** The potential exceeds what was taken of it exactly when some of it is left. */
  lemma PotentialLeft(g: Graph, ext: SetInfo, pot: SetInfo)
    requires g.PositiveSizes() && InfoOk(g, ext) && InfoOk(g, pot)
    requires ext.transactions <= pot.transactions <= g.used
    ensures pot.feerate.size == ext.feerate.size <==> pot.transactions == ext.transactions
  {
    hide Graph.SetFee;
    var rest := pot.transactions - ext.transactions;
    g.SetFeeUnion(ext.transactions, rest);
    assert ext.transactions + rest == pot.transactions;
    g.SetFeePositive(rest);
  }

  ghost predicate Better2(best: SetInfo, ext: SetInfo, best2: SetInfo) {
    best2 == if ext.feerate.Better(best.feerate) then ext else best
  }

  lemma BetterOutcome(g: Graph, todo: set<nat>, best: SetInfo, ext: SetInfo, best2: SetInfo)
    requires Better2(best, ext, best2)
    ensures NotWorse(best2.feerate, best.feerate) && !ext.feerate.Higher(best2.feerate)
  {
    hide FeeFrac.Higher, FeeFrac.Better;
    NotAboveItself(ext.feerate);
    BetterHigher(ext.feerate, best.feerate);
  }

  /** What add_fn has computed before it decides whether to queue an item. */
  ghost predicate Prepared(g: Graph, todo: set<nat>, imp: set<nat>, inc: SetInfo, und: set<nat>, pot: SetInfo,
                           ext: SetInfo)
  {
    && PotOk(g, inc.transactions, imp * und, pot)
    && InfoOk(g, ext) && inc.transactions <= ext.transactions <= pot.transactions
    && g.Topological(ext.transactions, todo)
  }

  lemma PreparedFits(g: Graph, todo: set<nat>, best: FeeFrac, imp: set<nat>, inc: SetInfo, und: set<nat>, pot: SetInfo,
                     ext: SetInfo)
    requires Setting(g, todo) && best.size > 0 && ImpOk(g, todo, best, imp) && ItemShape(g, todo, inc, und)
    requires inc.transactions != {} && Prepared(g, todo, imp, inc, und, pot, ext)
    ensures BoundOk(g, inc.transactions, und, pot.feerate, best)
    ensures pot.transactions <= inc.transactions + und && pot.transactions <= todo && pot.feerate.size > 0
    ensures ext.transactions + (und - ext.transactions) == inc.transactions + und
    ensures forall a | a in pot.transactions && a !in inc.transactions :: g.FeeRate(a).Higher(pot.feerate)
    ensures ItemShape(g, todo, ext, und - ext.transactions)
  {
    hide FeeFrac.Higher, Graph.SetFee, BoundOk, Graph.StoresClosure, SortedByFeerate;
    PotBound(g, todo, best, imp, inc.transactions, und, pot);
    SizeOf(g, pot.transactions);
    assert ext.transactions + (und - ext.transactions) == inc.transactions + und;
  }

  lemma PreparedExtension(g: Graph, todo: set<nat>, best: FeeFrac, imp: set<nat>, inc: SetInfo, und: set<nat>,
                          pot: SetInfo, ext: SetInfo)
    requires Setting(g, todo) && ImpOk(g, todo, best, imp) && ItemShape(g, todo, inc, und)
    requires inc.transactions != {} && Prepared(g, todo, imp, inc, und, pot, ext)
    requires Jumps(g, todo, inc.transactions, pot.transactions, pot.transactions - inc.transactions, ext.transactions)
    ensures Extension(g, todo, best, inc.transactions, und, pot, ext)
    ensures pot.feerate.size == ext.feerate.size <==> ext.transactions == pot.transactions
  {
    hide FeeFrac.Higher, Graph.SetFee, Graph.StoresClosure, SortedByFeerate, Graph.PositiveSizes, Jumps, Above;
    ImpIsAbove(g, todo, best, imp);
    assert pot.transactions <= g.used;
    PotentialLeft(g, ext, pot);
  }

  lemma AddNothing(g: Graph, todo: set<nat>, queue: seq<WorkItem>, best: SetInfo, imp: set<nat>, inc: SetInfo,
                   und: set<nat>, pot: SetInfo, ext: SetInfo, best2: SetInfo, imp2: set<nat>)
    requires Setting(g, todo) && State(g, todo, queue, best, imp) && ItemShape(g, todo, inc, und)
    requires inc.transactions != {} && Prepared(g, todo, imp, inc, und, pot, ext)
    requires Better2(best, ext, best2) && Candidate(g, todo, best2) && ImpOk(g, todo, best2.feerate, imp2)
    requires pot.feerate.size == ext.feerate.size
    ensures Added(g, todo, queue, best, inc.transactions, und, queue, best2, imp2)
  {
    hide FeeFrac.Higher, Graph.SetFee, BoundOk, Graph.StoresClosure, SortedByFeerate, Better2, Graph.Topological,
         ItemOk, Covers, NotWorse;
    CandidateSize(g, todo, best);
    CandidateSize(g, todo, best2);
    PreparedFits(g, todo, best.feerate, imp, inc, und, pot, ext);
    BetterOutcome(g, todo, best, ext, best2);
    ItemsKept(g, todo, queue, best.feerate, best2.feerate);
    PotentialLeft(g, ext, pot);
    AddTaken(g, todo, best.feerate, best2.feerate, inc.transactions, und, pot, queue);
  }

  lemma AddOne(g: Graph, todo: set<nat>, queue: seq<WorkItem>, best: SetInfo, imp: set<nat>, inc: SetInfo,
               und: set<nat>, pot: SetInfo, ext: SetInfo, best2: SetInfo, imp2: set<nat>)
    requires Setting(g, todo) && State(g, todo, queue, best, imp) && ItemShape(g, todo, inc, und)
    requires inc.transactions != {} && Prepared(g, todo, imp, inc, und, pot, ext)
    requires Better2(best, ext, best2) && Candidate(g, todo, best2) && ImpOk(g, todo, best2.feerate, imp2)
    requires pot.feerate.size != ext.feerate.size
    ensures und - ext.transactions != {}
    ensures Added(g, todo, queue, best, inc.transactions, und,
                  queue + [WorkItem(ext, und - ext.transactions, pot.feerate)], best2, imp2)
  {
    hide FeeFrac.Higher, Graph.SetFee, BoundOk, Graph.StoresClosure, SortedByFeerate, Better2, Graph.Topological,
         Covers, NotWorse;
    var item := WorkItem(ext, und - ext.transactions, pot.feerate);
    CandidateSize(g, todo, best);
    CandidateSize(g, todo, best2);
    PreparedFits(g, todo, best.feerate, imp, inc, und, pot, ext);
    BetterOutcome(g, todo, best, ext, best2);
    ItemsKept(g, todo, queue, best.feerate, best2.feerate);
    PotentialLeft(g, ext, pot);
    var x :| x in pot.transactions && x !in ext.transactions;
    assert x in item.und;
    BoundKept(g, todo, inc.transactions, und, pot.feerate, best.feerate, ext.transactions, item.und, best2.feerate);
    assert ItemOk(g, todo, best2.feerate, item);
    AddQueued(g, todo, best.feerate, best2.feerate, inc.transactions, und, pot, ext, queue);
  }

  lemma RoomForOne(queue: seq<WorkItem>, queue2: seq<WorkItem>, und: set<nat>, capacity: nat)
    requires Room(queue, capacity) && |queue| + |und| <= capacity && Extends(queue, queue2, und)
    requires |queue2| == |queue| + 1 ==> queue2[|queue|].und != {}
    ensures Room(queue2, capacity)
    ensures queue2 != queue ==> |queue| < capacity
  {
    if |queue2| == |queue| + 1 {
      NotLarger(queue2[|queue|].und, und);
      forall k | 0 <= k < |queue2|
        ensures k + |queue2[k].und| <= capacity
      {
        assert k < |queue| ==> queue2[k] == queue[k];
      }
    }
  }

  /** Queues what is left to decide between inc and inc + und, after taking in what must
      be part of the best set there; the queue never outgrows its capacity. */
  method AddItem(g: Graph, todo: set<nat>, capacity: nat, queue: seq<WorkItem>, best: SetInfo, imp: set<nat>,
                 inc: SetInfo, und: set<nat>)
    returns (queue2: seq<WorkItem>, best2: SetInfo, imp2: set<nat>)
    requires Setting(g, todo) && State(g, todo, queue, best, imp) && ItemShape(g, todo, inc, und)
    requires Room(queue, capacity) && |queue| + |und| <= capacity
    ensures Added(g, todo, queue, best, inc.transactions, und, queue2, best2, imp2)
    ensures Adds(g, todo, queue, best, inc.transactions, und, queue2, best2)
    ensures Room(queue2, capacity)
  {
    hide FeeFrac.Higher, FeeFrac.Better, Graph.SetFee, Graph.StoresClosure, SortedByFeerate, Graph.Topological, PotOk,
         Room, Added, ItemsOk, Graph.PositiveSizes, Jumps, ImpOk, Extension;
    IncSize(g, todo, inc, und);
    queue2, best2, imp2 := queue, best, imp;
    if !inc.feerate.IsEmpty() {
      var pot := GrowPot(g, inc, imp * und);
      var ext := JumpedAhead(g, todo, inc, und, pot, imp);
      PreparedExtension(g, todo, best.feerate, imp, inc, und, pot, ext);
      best2, imp2 := Improve(g, todo, best, imp, ext);
      if pot.feerate.size == ext.feerate.size {
        AddNothing(g, todo, queue, best, imp, inc, und, pot, ext, best2, imp2);
        return;
      }
      AddOne(g, todo, queue, best, imp, inc, und, pot, ext, best2, imp2);
      queue2 := queue + [WorkItem(ext, und - ext.transactions, pot.feerate)];
    } else {
      AddEmptyInc(g, todo, queue, best, imp, inc, und);
      if und == {} {
        return;
      }
      queue2 := queue + [WorkItem(inc, und, inc.feerate)];
    }
    AddedExtends(g, todo, queue, best, inc.transactions, und, queue2, best2, imp2);
    RoomForOne(queue, queue2, und, capacity);
    assert |queue| < capacity;
  }

  lemma AddedExtends(g: Graph, todo: set<nat>, queue: seq<WorkItem>, best: SetInfo, inc: set<nat>, und: set<nat>,
                     queue2: seq<WorkItem>, best2: SetInfo, imp2: set<nat>)
    requires Added(g, todo, queue, best, inc, und, queue2, best2, imp2)
    ensures Extends(queue, queue2, und)
  {
  }

  /** Takes into inc whatever of its potential is topological, with the feerate of it all. */
  method JumpedAhead(g: Graph, todo: set<nat>, inc: SetInfo, und: set<nat>, pot: SetInfo, imp: set<nat>)
    returns (ext: SetInfo)
    requires Setting(g, todo) && ItemShape(g, todo, inc, und) && inc.transactions != {}
    requires PotOk(g, inc.transactions, imp * und, pot)
    ensures Prepared(g, todo, imp, inc, und, pot, ext) && Candidate(g, todo, ext)
    ensures Jumps(g, todo, inc.transactions, pot.transactions, pot.transactions - inc.transactions, ext.transactions)
  {
    hide FeeFrac.Higher, Graph.SetFee, Graph.StoresClosure, SortedByFeerate, Graph.PositiveSizes;
    var s := JumpAhead(g, todo, inc.transactions, pot.transactions);
    var rate := SumFeeRates(g, s - inc.transactions);
    g.SetFeeUnion(inc.transactions, s - inc.transactions);
    assert inc.transactions + (s - inc.transactions) == s;
    ext := SetInfo(s, inc.feerate.Plus(rate));
  }

  // ----- splitting an item -----

  /** Nothing undecided is above best, and neither is what is decided. */
  lemma NoImprovement(g: Graph, todo: set<nat>, best: FeeFrac, imp: set<nat>, item: WorkItem, queue: seq<WorkItem>)
    requires Setting(g, todo) && best.size > 0 && ImpOk(g, todo, best, imp) && ItemOk(g, todo, best, item)
    requires item.inc.transactions != {} && item.und * imp == {}
    ensures Covers(g, todo, queue, best, item.inc.transactions, item.und)
  {
    hide FeeFrac.Higher, Graph.SetFee, Graph.Topological, BoundOk, Graph.StoresClosure, SortedByFeerate,
         Graph.PositiveSizes;
    forall s: set<nat> | Compatible(g, todo, item.inc.transactions, item.und, s)
      ensures !g.SetFee(s).Higher(best)
    {
      forall x | x in s - item.inc.transactions
        ensures !g.FeeRate(x).Higher(best)
      {
        assert x in item.und && x !in item.und * imp;
      }
      AddingLower(g, s, item.inc.transactions, best);
    }
  }

  lemma NoPotential(g: Graph, todo: set<nat>, best: FeeFrac, item: WorkItem, queue: seq<WorkItem>)
    requires Setting(g, todo) && best.size > 0 && ItemOk(g, todo, best, item)
    requires item.inc.transactions != {} && !item.potFeerate.Better(best)
    ensures Covers(g, todo, queue, best, item.inc.transactions, item.und)
  {
    hide FeeFrac.Higher, FeeFrac.Better, Graph.SetFee, Graph.Topological, Graph.StoresClosure, SortedByFeerate,
         Graph.PositiveSizes;
    BetterHigher(item.potFeerate, best);
    forall s: set<nat> | Compatible(g, todo, item.inc.transactions, item.und, s)
      ensures !g.SetFee(s).Higher(best)
    {
      CompatibleSize(g, todo, item.inc.transactions, item.und, s);
      FeerateTransitive(g.SetFee(s), best, item.potFeerate);
    }
  }

  lemma FirstTooLow(g: Graph, todo: set<nat>, best: FeeFrac, item: WorkItem, queue: seq<WorkItem>)
    requires Setting(g, todo) && best.size > 0 && ItemOk(g, todo, best, item)
    requires item.inc.transactions == {} && !g.FeeRate(First(item.und)).Better(best)
    ensures Covers(g, todo, queue, best, item.inc.transactions, item.und)
  {
    hide FeeFrac.Higher, FeeFrac.Better, Graph.SetFee, Graph.Topological, BoundOk, Graph.StoresClosure, SortedByFeerate,
         Graph.PositiveSizes;
    var first := First(item.und);
    BetterHigher(g.FeeRate(first), best);
    NothingAbove(best);
    g.SetFeeEmpty();
    forall s: set<nat> | Compatible(g, todo, {}, item.und, s)
      ensures !g.SetFee(s).Higher(best)
    {
      forall x | x in s - {}
        ensures !g.FeeRate(x).Higher(best)
      {
        assert x in item.und;
        if x != first {
          LaterIsLower(g, first, x, best);
        }
      }
      AddingLower(g, s, {}, best);
    }
  }

  lemma NothingAbove(f: FeeFrac)
    ensures !EMPTY.Higher(f)
  {
  }

  lemma ExcludeShape(g: Graph, todo: set<nat>, inc: SetInfo, und: set<nat>, t: nat)
    requires g.Valid() && todo <= g.used && ItemShape(g, todo, inc, und) && t in und
    ensures ItemShape(g, todo, inc, und - g.Descendants(t))
    ensures |und - g.Descendants(t)| < |und|
  {
    hide Graph.SetFee, Graph.StoresClosure;
    var rest := und - g.Descendants(t);
    ValidPosition(g, t);
    SmallerSet(rest, und);
    WithoutDescendants(g, todo, inc.transactions + und, t);
    forall x | x in inc.transactions
      ensures x !in g.Descendants(t)
    {
      DescendantHas(g, todo, t, x);
    }
    assert inc.transactions + und - g.Descendants(t) == inc.transactions + rest;
  }

  lemma DescendantHas(g: Graph, todo: set<nat>, t: nat, x: nat)
    requires g.Valid() && t in g.used
    ensures x in g.Descendants(t) ==> t in g.Ancestors(x)
  {
  }

  lemma WithoutDescendants(g: Graph, todo: set<nat>, s: set<nat>, t: nat)
    requires g.Valid() && todo <= g.used && g.Topological(s, todo) && t in todo
    ensures g.Topological(s - g.Descendants(t), todo)
  {
    forall x, y | x in s - g.Descendants(t) && y in g.Ancestors(x) * todo
      ensures y !in g.Descendants(t)
    {
      DescendantThrough(g, t, y, x);
    }
  }

  lemma DescendantThrough(g: Graph, t: nat, y: nat, x: nat)
    requires g.Valid() && t in g.used && x in g.used && y in g.Ancestors(x)
    ensures y in g.Descendants(t) ==> x in g.Descendants(t)
  {
    if y in g.Descendants(t) {
      assert t in g.Ancestors(y);
      assert t in g.Ancestors(x);
    }
  }

  lemma IncludeShape(g: Graph, todo: set<nat>, inc: SetInfo, und: set<nat>, t: nat, inc2: SetInfo)
    requires g.Valid() && todo <= g.used && ItemShape(g, todo, inc, und) && t in und
    requires inc2.transactions == inc.transactions + g.Ancestors(t) * todo && InfoOk(g, inc2)
    ensures ItemShape(g, todo, inc2, und - g.Ancestors(t) * todo)
    ensures |und - g.Ancestors(t) * todo| < |und|
  {
    hide Graph.SetFee, Graph.StoresClosure;
    var anc := g.Ancestors(t) * todo;
    AncestorsTopological(g, todo, t);
    SmallerSet(und - anc, und);
    assert anc <= inc.transactions + und;
    g.TopologicalMeet(inc.transactions, anc, todo);
    assert inc2.transactions + (und - anc) == inc.transactions + und;
  }

  /** Whatever can come of an item contains t with its ancestors, or no descendant of t. */
  lemma InOrOut(g: Graph, todo: set<nat>, inc: set<nat>, und: set<nat>, t: nat, s: set<nat>)
    requires g.Valid() && todo <= g.used && t in und && und <= todo && Compatible(g, todo, inc, und, s)
    ensures t in s ==> Compatible(g, todo, inc + g.Ancestors(t) * todo, und - g.Ancestors(t) * todo, s)
    ensures t !in s ==> Compatible(g, todo, inc, und - g.Descendants(t), s)
  {
    if t !in s {
      forall x | x in s
        ensures x !in g.Descendants(t)
      {
        assert x in g.Descendants(t) ==> t in g.Ancestors(x);
      }
    }
  }

  lemma ReachesMore(g: Graph, todo: set<nat>, queue: seq<WorkItem>, queue2: seq<WorkItem>, s: set<nat>)
    requires Reaches(g, todo, queue, s) && queue <= queue2
    ensures Reaches(g, todo, queue2, s)
  {
    hide CompatibleItem, FeeFrac.Higher, Graph.SetFee;
    var k, t :| 0 <= k < |queue| && CompatibleItem(g, todo, queue[k], t) && !g.SetFee(s).Higher(g.SetFee(t));
    assert queue2[k] == queue[k];
  }

  lemma CoversBoth(g: Graph, todo: set<nat>, inc: set<nat>, und: set<nat>, t: nat, queue1: seq<WorkItem>,
                   best1: FeeFrac, queue2: seq<WorkItem>, best2: FeeFrac)
    requires g.Valid() && g.PositiveSizes() && todo <= g.used && t in und && und <= todo
    requires best1.size > 0 && best2.size > 0 && NotWorse(best2, best1) && queue1 <= queue2
    requires Covers(g, todo, queue1, best1, inc, und - g.Descendants(t))
    requires Covers(g, todo, queue2, best2, inc + g.Ancestors(t) * todo, und - g.Ancestors(t) * todo)
    ensures Covers(g, todo, queue2, best2, inc, und)
  {
    hide FeeFrac.Higher, Graph.SetFee, Compatible, Reaches, NotWorse, Graph.StoresClosure, Graph.PositiveSizes;
    forall s: set<nat> | Compatible(g, todo, inc, und, s) && g.SetFee(s).Higher(best2)
      ensures Reaches(g, todo, queue2, s)
    {
      CompatibleSize(g, todo, inc, und, s);
      InOrOut(g, todo, inc, und, t, s);
      NotWorseFeerate(best2, best1, g.SetFee(s));
      if t !in s {
        ReachesMore(g, todo, queue1, queue2, s);
      }
    }
  }

  /** How many transactions stay undecided when t is included and when it is excluded,
      the larger number first. */
  function SplitCounts(g: Graph, und: set<nat>, t: nat): (nat, nat) {
    var a, b := |und - g.Ancestors(t)|, |und - g.Descendants(t)|;
    if a < b then (b, a) else (a, b)
  }

  predicate FewerCounts(a: (nat, nat), b: (nat, nat)) {
    a.0 < b.0 || (a.0 == b.0 && a.1 < b.1)
  }

  /** Comparing the larger counts first, then the smaller ones, compares how many ways of
      choosing remain. */
  lemma FewerIsCheaper(g: Graph, und: set<nat>, t: nat, u: nat)
    ensures FewerCounts(SplitCounts(g, und, t), SplitCounts(g, und, u)) <==> SplitCost(g, und, t) < SplitCost(g, und, u)
  {
    var a, b := SplitCounts(g, und, t), SplitCounts(g, und, u);
    SmallerSum(a.0, a.1, b.0, b.1);
    SmallerSum(b.0, b.1, a.0, a.1);
  }

  lemma SmallerSum(a: nat, b: nat, c: nat, d: nat)
    requires a >= b && c >= d
    ensures a < c || (a == c && b < d) ==> Limbs.Pow2(a) + Limbs.Pow2(b) < Limbs.Pow2(c) + Limbs.Pow2(d)
  {
    Limbs.Pow2Monotone(b, a);
    if a < c {
      Limbs.Pow2Monotone(a + 1, c);
    } else if a == c && b < d {
      Limbs.Pow2Monotone(b + 1, d);
    }
  }

  /** Picks the transaction of select that leaves the least to search. */
  method ChooseSplit(g: Graph, und: set<nat>, select: set<nat>) returns (split: nat)
    requires select != {}
    ensures split in select && SplitsBest(g, und, select, split)
  {
    hide SplitCounts, SplitCost;
    split := First(select);
    var splitCounts := SplitCounts(g, und, split);
    var rest := select - {split};
    while rest != {}
      invariant rest <= select && split in select && split !in rest && splitCounts == SplitCounts(g, und, split)
      invariant forall t, u | t in select && t !in rest && u in rest :: t < u
      invariant forall t | t in select && t !in rest :: !FewerCounts(SplitCounts(g, und, t), splitCounts)
      invariant forall t | t in select && t !in rest && t < split :: SplitCounts(g, und, t) != splitCounts
    {
      var t := First(rest);
      var counts := SplitCounts(g, und, t);
      if FewerCounts(counts, splitCounts) {
        split, splitCounts := t, counts;
      }
      rest := rest - {t};
    }
    forall t | t in select
      ensures SplitCost(g, und, split) <= SplitCost(g, und, t)
      ensures t < split ==> SplitCost(g, und, split) < SplitCost(g, und, t)
    {
      FewerIsCheaper(g, und, t, split);
      FewerIsCheaper(g, und, split, t);
    }
  }

  // ----- how much is left to search -----

  /** The number of ways to decide so many transactions, but one. */
  ghost function Ways(n: nat): nat {
    Limbs.Pow2(n) - 1
  }

  /** An item is split at most as often as there are ways to decide it, but one; the queue
      at most as often as its items together. */
  ghost function Splits(queue: seq<WorkItem>): nat {
    if queue == [] then 0 else Ways(|queue[0].und|) + Splits(queue[1..])
  }

  lemma {:induction false} SplitsConcat(a: seq<WorkItem>, b: seq<WorkItem>)
    ensures Splits(a + b) == Splits(a) + Splits(b)
  {
    hide Ways;
    var ab := a + b;
    if a == [] {
      assert ab == b;
    } else {
      assert ab[0] == a[0] && ab[1..] == a[1..] + b;
      SplitsConcat(a[1..], b);
    }
  }

  lemma SplitsOne(item: WorkItem)
    ensures Splits([item]) == Ways(|item.und|)
  {
    assert [item][1..] == [];
  }

  lemma SplitsAdded(queue: seq<WorkItem>, queue2: seq<WorkItem>, und: set<nat>)
    requires Extends(queue, queue2, und)
    ensures Splits(queue2) <= Splits(queue) + Ways(|und|)
  {
    hide Splits;
    if queue2 != queue {
      var item := queue2[|queue|];
      assert queue2 == queue + [item];
      SplitsConcat(queue, [item]);
      SplitsOne(item);
      NotLarger(item.und, und);
      Limbs.Pow2Monotone(|item.und|, |und|);
    }
  }

  lemma SplitsWithout(queue: seq<WorkItem>, k: nat)
    requires k < |queue|
    ensures Splits(queue) == Splits(queue[..k] + queue[k + 1..]) + Ways(|queue[k].und|)
  {
    hide Splits;
    assert queue == queue[..k] + ([queue[k]] + queue[k + 1..]);
    SplitsConcat(queue[..k], [queue[k]] + queue[k + 1..]);
    SplitsConcat([queue[k]], queue[k + 1..]);
    SplitsConcat(queue[..k], queue[k + 1..]);
    SplitsOne(queue[k]);
  }

  /** Two items with fewer undecided transactions take at least one split less. */
  lemma FewerSplits(queue: seq<WorkItem>, queue1: seq<WorkItem>, queue2: seq<WorkItem>, und: set<nat>, und1: set<nat>,
                    und2: set<nat>)
    requires Extends(queue, queue1, und1) && Extends(queue1, queue2, und2) && |und1| < |und| && |und2| < |und|
    ensures Splits(queue2) < Splits(queue) + Ways(|und|)
  {
    hide Splits, Extends;
    SplitsAdded(queue, queue1, und1);
    SplitsAdded(queue1, queue2, und2);
    Limbs.Pow2Monotone(|und1|, |und| - 1);
    Limbs.Pow2Monotone(|und2|, |und| - 1);
  }

  /** A component takes no more splits than it makes room for. */
  lemma ComponentSplits(queue: seq<WorkItem>, item: WorkItem, toCover: set<nat>, c: set<nat>)
    requires c <= toCover && item.und == c
    ensures Splits(queue + [item]) + Limbs.Pow2(|toCover - c|) <= Splits(queue) + Limbs.Pow2(|toCover|)
  {
    hide Splits;
    SplitsConcat(queue, [item]);
    SplitsOne(item);
    SizeOfParts(toCover, c);
    Limbs.Pow2Add(|c|, |toCover - c|);
    AtLeastSum(Limbs.Pow2(|c|), Limbs.Pow2(|toCover - c|));
  }

  lemma SizeOfParts(s: set<nat>, c: set<nat>)
    requires c <= s
    ensures |c| + |s - c| == |s|
  {
    assert c + (s - c) == s;
  }

  lemma AtLeastSum(a: nat, b: nat)
    requires a >= 1 && b >= 1
    ensures a - 1 + b <= a * b
  {
    Limbs.MulNonNegative(a - 1, b - 1);
    assert (a - 1) * (b - 1) == a * b - a - b + 1;
  }

  /** The outcome of processing an item taken off the queue. */
  ghost predicate Processed(g: Graph, todo: set<nat>, queue: seq<WorkItem>, best: SetInfo, elem: WorkItem,
                            queue2: seq<WorkItem>, best2: SetInfo, imp2: set<nat>)
  {
    && State(g, todo, queue2, best2, imp2) && NotWorse(best2.feerate, best.feerate)
    && queue <= queue2
    && Covers(g, todo, queue2, best2.feerate, elem.inc.transactions, elem.und)
  }

  lemma Discarded(g: Graph, todo: set<nat>, queue: seq<WorkItem>, best: SetInfo, imp: set<nat>, elem: WorkItem)
    requires State(g, todo, queue, best, imp)
    requires Covers(g, todo, queue, best.feerate, elem.inc.transactions, elem.und)
    ensures Processed(g, todo, queue, best, elem, queue, best, imp)
  {
    hide State, Covers;
  }

  lemma SplitProcessed(g: Graph, todo: set<nat>, elem: WorkItem, t: nat, inc2: set<nat>, queue: seq<WorkItem>,
                       best: SetInfo, queue1: seq<WorkItem>, best1: SetInfo, imp1: set<nat>, queue2: seq<WorkItem>,
                       best2: SetInfo, imp2: set<nat>)
    requires Setting(g, todo) && t in elem.und && elem.und <= todo && Candidate(g, todo, best)
    requires inc2 == elem.inc.transactions + g.Ancestors(t) * todo
    requires Added(g, todo, queue, best, elem.inc.transactions, elem.und - g.Descendants(t), queue1, best1, imp1)
    requires Added(g, todo, queue1, best1, inc2, elem.und - g.Ancestors(t) * todo, queue2, best2, imp2)
    ensures Processed(g, todo, queue, best, elem, queue2, best2, imp2)
  {
    hide Covers, Candidate, ItemsOk, NotWorse, ImpOk, Graph.StoresClosure, SortedByFeerate, Graph.PositiveSizes;
    CandidateSize(g, todo, best);
    CandidateSize(g, todo, best1);
    CandidateSize(g, todo, best2);
    NotWorseTransitive(best2.feerate, best1.feerate, best.feerate);
    CoversBoth(g, todo, elem.inc.transactions, elem.und, t, queue1, best1.feerate, queue2, best2.feerate);
  }

  lemma RoomForSplit(queue: seq<WorkItem>, queue1: seq<WorkItem>, und: set<nat>, und1: set<nat>, und2: set<nat>,
                     capacity: nat)
    requires |queue| + |und| <= capacity && |und1| < |und| && |und2| < |und| && Extends(queue, queue1, und1)
    ensures |queue| + |und1| <= capacity && |queue1| + |und2| <= capacity
  {
  }

  /** Processes an item taken off the queue: drops it if it cannot beat best, and otherwise
      decides one more transaction both ways. */
  method SplitItem(g: Graph, todo: set<nat>, capacity: nat, queue: seq<WorkItem>, best: SetInfo, imp: set<nat>,
                   elem: WorkItem)
    returns (queue2: seq<WorkItem>, best2: SetInfo, imp2: set<nat>, wasSplit: bool)
    requires Setting(g, todo) && State(g, todo, queue, best, imp) && ItemOk(g, todo, best.feerate, elem)
    requires Room(queue, capacity) && |queue| + |elem.und| <= capacity
    ensures Processed(g, todo, queue, best, elem, queue2, best2, imp2)
    ensures Handles(g, todo, queue, best, elem, queue2, best2, wasSplit)
    ensures Room(queue2, capacity)
    ensures !wasSplit ==> queue2 == queue
    ensures wasSplit ==> Splits(queue2) < Splits(queue) + Ways(|elem.und|)
  {
    hide FeeFrac.Higher, FeeFrac.Better, Graph.SetFee, Graph.StoresClosure, SortedByFeerate, Graph.Topological, Room,
         Added, ItemsOk, Graph.PositiveSizes, ImpOk, BoundOk, Covers, Processed, Extends, Splits, Ways, Adds,
         SplitsBest, Above;
    ImpIsAbove(g, todo, best.feerate, imp);
    queue2, best2, imp2, wasSplit := queue, best, imp, false;
    CandidateSize(g, todo, best);
    IncSize(g, todo, elem.inc, elem.und);
    var first := First(elem.und);
    if !elem.inc.feerate.IsEmpty() {
      if elem.und * imp == {} {
        NoImprovement(g, todo, best.feerate, imp, elem, queue);
        Discarded(g, todo, queue, best, imp, elem);
        return;
      }
      if !elem.potFeerate.Better(best.feerate) {
        NoPotential(g, todo, best.feerate, elem, queue);
        Discarded(g, todo, queue, best, imp, elem);
        return;
      }
    } else {
      if !g.FeeRate(first).Better(best.feerate) {
        FirstTooLow(g, todo, best.feerate, elem, queue);
        Discarded(g, todo, queue, best, imp, elem);
        return;
      }
    }
    var select := elem.und * g.Ancestors(first);
    ValidPosition(g, first);
    assert first in select;
    var split := ChooseSplit(g, elem.und, select);
    ExcludeShape(g, todo, elem.inc, elem.und, split);
    var queue1, best1, imp1 := AddItem(g, todo, capacity, queue, best, imp, elem.inc, elem.und - g.Descendants(split));
    AddedExtends(g, todo, queue, best, elem.inc.transactions, elem.und - g.Descendants(split), queue1, best1, imp1);
    var anc := g.Ancestors(split) * todo;
    var inc := WithAdded(g, elem.inc, anc);
    IncludeShape(g, todo, elem.inc, elem.und, split, inc);
    RoomForSplit(queue, queue1, elem.und, elem.und - g.Descendants(split), elem.und - anc, capacity);
    AddedState(g, todo, queue, best, elem.inc.transactions, elem.und - g.Descendants(split), queue1, best1, imp1);
    queue2, best2, imp2 := AddItem(g, todo, capacity, queue1, best1, imp1, inc, elem.und - anc);
    AddedExtends(g, todo, queue1, best1, inc.transactions, elem.und - anc, queue2, best2, imp2);
    FewerSplits(queue, queue1, queue2, elem.und, elem.und - g.Descendants(split), elem.und - anc);
    SplitProcessed(g, todo, elem, split, inc.transactions, queue, best, queue1, best1, imp1, queue2, best2, imp2);
    assert Decides(g, todo, queue, best, elem, split, queue1, best1, queue2, best2);
    wasSplit := true;
  }

  lemma AddedState(g: Graph, todo: set<nat>, queue: seq<WorkItem>, best: SetInfo, inc: set<nat>, und: set<nat>,
                   queue2: seq<WorkItem>, best2: SetInfo, imp2: set<nat>)
    requires Added(g, todo, queue, best, inc, und, queue2, best2, imp2)
    ensures State(g, todo, queue2, best2, imp2)
  {
  }

  /** info with more transactions, some of which it may already have. */
  method WithAdded(g: Graph, info: SetInfo, txn: set<nat>) returns (r: SetInfo)
    requires InfoOk(g, info)
    ensures InfoOk(g, r) && r.transactions == info.transactions + txn
  {
    hide Graph.SetFee;
    var rate := SumFeeRates(g, txn - info.transactions);
    g.SetFeeUnion(info.transactions, txn - info.transactions);
    assert info.transactions + (txn - info.transactions) == info.transactions + txn;
    r := SetInfo(info.transactions + txn, info.feerate.Plus(rate));
  }

  // ----- one entry per connected component -----

  /** Of two parts of a set at least one is not lower than a bound the whole reaches. */
  lemma OnePartReaches(g: Graph, a: set<nat>, b: set<nat>, f: FeeFrac)
    requires a !! b && !f.Higher(g.SetFee(a + b))
    ensures !f.Higher(g.SetFee(a)) || !f.Higher(g.SetFee(b))
  {
    hide Graph.SetFee, FeeFrac.Higher, FeeFrac.Excess;
    g.SetFeeUnion(a, b);
    ExcessPlus(g.SetFee(a), g.SetFee(b), f.fee, f.size);
    HigherIsExcess(f, g.SetFee(a));
    HigherIsExcess(f, g.SetFee(b));
    HigherIsExcess(f, g.SetFee(a + b));
  }

  /** The part of s in t, not empty, has no lower feerate than s. */
  ghost predicate PartReaches(g: Graph, s: set<nat>, t: set<nat>) {
    s * t != {} && !g.SetFee(s).Higher(g.SetFee(s * t))
  }

  /** Every topological set has something at least as good queued, or in what is still to
      be covered. */
  ghost predicate Covering(g: Graph, todo: set<nat>, queue: seq<WorkItem>, toCover: set<nat>) {
    forall s: set<nat> | s != {} && g.Topological(s, todo) :: Reaches(g, todo, queue, s) || PartReaches(g, s, toCover)
  }

  ghost predicate StartItem(g: Graph, todo: set<nat>, item: WorkItem) {
    item.inc == SetInfo({}, EMPTY) && item.potFeerate == EMPTY && item.und != {} && g.Topological(item.und, todo)
  }

  ghost predicate StartItems(g: Graph, todo: set<nat>, queue: seq<WorkItem>) {
    forall k | 0 <= k < |queue| :: StartItem(g, todo, queue[k])
  }

  lemma ClosedTopological(g: Graph, todo: set<nat>, s: set<nat>, c: set<nat>)
    requires ClosedUnderRelated(g, c, todo) && g.Topological(s, todo)
    ensures g.Topological(s * c, todo)
  {
    forall x, y | x in s * c && y in g.Ancestors(x) * todo
      ensures y in s * c
    {
      assert Related(g, x, y);
    }
  }

  lemma ClosedWithin(g: Graph, todo: set<nat>, toCover: set<nat>, c: set<nat>)
    requires ClosedUnderRelated(g, toCover, todo) && ClosedUnderRelated(g, c, toCover)
    ensures ClosedUnderRelated(g, c, todo) && ClosedUnderRelated(g, toCover - c, todo) && c <= toCover
  {
    hide Related;
    SymmetricRelation(g);
  }

  lemma WholeTopological(g: Graph, todo: set<nat>)
    ensures g.Topological(todo, todo) && ClosedUnderRelated(g, todo, todo)
  {
  }

  lemma CoverStart(g: Graph, todo: set<nat>)
    ensures Covering(g, todo, [], todo)
  {
    hide Graph.SetFee, FeeFrac.Higher;
    forall s: set<nat> | s != {} && g.Topological(s, todo)
      ensures PartReaches(g, s, todo)
    {
      assert s * todo == s;
      NotAboveItself(g.SetFee(s));
    }
  }

  lemma CoverStep(g: Graph, todo: set<nat>, queue: seq<WorkItem>, toCover: set<nat>, c: set<nat>, item: WorkItem)
    requires Covering(g, todo, queue, toCover) && c <= toCover && ClosedUnderRelated(g, c, todo)
    requires item.inc.transactions == {} && item.und == c
    ensures Covering(g, todo, queue + [item], toCover - c)
  {
    hide Graph.SetFee, FeeFrac.Higher, ClosedUnderRelated, Reaches, Graph.Topological;
    var queue2 := queue + [item];
    forall s: set<nat> | s != {} && g.Topological(s, todo)
      ensures Reaches(g, todo, queue2, s) || PartReaches(g, s, toCover - c)
    {
      if Reaches(g, todo, queue, s) {
        ReachesMore(g, todo, queue, queue2, s);
      } else {
        var a, b := s * c, s * (toCover - c);
        assert a + b == s * toCover;
        OnePartReaches(g, a, b, g.SetFee(s));
        assert a == {} ==> a + b == b;
        assert b == {} ==> a + b == a;
        if a != {} && !g.SetFee(s).Higher(g.SetFee(a)) {
          ClosedTopological(g, todo, s, c);
          ReachesComponent(g, todo, queue, item, s, a);
        }
      }
    }
  }

  lemma ReachesComponent(g: Graph, todo: set<nat>, queue: seq<WorkItem>, item: WorkItem, s: set<nat>, a: set<nat>)
    requires a != {} && a <= item.und && item.inc.transactions == {} && g.Topological(a, todo)
    requires !g.SetFee(s).Higher(g.SetFee(a))
    ensures Reaches(g, todo, queue + [item], s)
  {
    hide Graph.SetFee, FeeFrac.Higher, Graph.Topological;
    var queue2 := queue + [item];
    assert CompatibleItem(g, todo, queue2[|queue|], a);
  }

  lemma StartItemOk(g: Graph, todo: set<nat>, item: WorkItem, best: FeeFrac)
    requires StartItem(g, todo, item)
    ensures ItemOk(g, todo, best, item)
  {
    g.SetFeeEmpty();
    assert {} + item.und == item.und;
  }

  /** Nothing that beats best is out of reach. */
  ghost predicate Complete(g: Graph, todo: set<nat>, queue: seq<WorkItem>, best: FeeFrac) {
    forall s: set<nat> | s != {} && g.Topological(s, todo) && g.SetFee(s).Higher(best) :: Reaches(g, todo, queue, s)
  }

  lemma CoverDone(g: Graph, todo: set<nat>, queue: seq<WorkItem>, best: FeeFrac)
    requires Covering(g, todo, queue, {}) && StartItems(g, todo, queue)
    ensures Complete(g, todo, queue, best) && ItemsOk(g, todo, best, queue)
  {
    hide Graph.SetFee, FeeFrac.Higher, Graph.Topological, Reaches, StartItem, ItemOk;
    forall k | 0 <= k < |queue|
      ensures ItemOk(g, todo, best, queue[k])
    {
      StartItemOk(g, todo, queue[k], best);
    }
  }

  /** The queue holds the components of todo outside toCover, which come before it. */
  ghost predicate Parted(g: Graph, todo: set<nat>, queue: seq<WorkItem>, toCover: set<nat>) {
    && (forall k | 0 <= k < |queue| :: Component(g, todo, queue[k]))
    && (forall j, k | 0 <= j < k < |queue| :: First(queue[j].und) < First(queue[k].und))
    && (forall k, x | 0 <= k < |queue| && x in toCover :: First(queue[k].und) < x)
    && (forall x | x in todo :: x in toCover || exists k :: 0 <= k < |queue| && x in queue[k].und)
  }

  lemma PartedStart(g: Graph, todo: set<nat>)
    ensures Parted(g, todo, [], todo)
  {
  }

  lemma PartedStep(g: Graph, todo: set<nat>, queue: seq<WorkItem>, toCover: set<nat>, c: set<nat>, item: WorkItem)
    requires Parted(g, todo, queue, toCover) && toCover != {} && c <= toCover
    requires ClosedUnderRelated(g, c, todo) && Connected(g, c) && Necessary(g, c, First(toCover), toCover)
    requires item == WorkItem(SetInfo({}, EMPTY), c, EMPTY)
    ensures Parted(g, todo, queue + [item], toCover - c)
  {
    hide ClosedUnderRelated, Connected;
    var queue2 := queue + [item];
    assert First(c) == First(toCover);
    assert forall k | 0 <= k < |queue| :: queue2[k] == queue[k];
    assert queue2[|queue|] == item;
    forall x | x in todo
      ensures x in toCover - c || exists k :: 0 <= k < |queue2| && x in queue2[k].und
    {
      if x !in toCover {
        var k :| 0 <= k < |queue| && x in queue[k].und;
        assert x in queue2[k].und;
      } else if x in c {
        assert x in queue2[|queue|].und;
      }
    }
  }

  lemma PartedDone(g: Graph, todo: set<nat>, queue: seq<WorkItem>)
    requires Parted(g, todo, queue, {})
    ensures Components(g, todo, queue)
  {
    hide Component;
  }

  /** The queue and incumbent a search starts from. */
  method Start(g: Graph, todo: set<nat>, best: SetInfo) returns (queue: seq<WorkItem>, best2: SetInfo)
    requires Setting(g, todo) && todo != {}
    requires best == SetInfo({}, EMPTY) || Candidate(g, todo, best)
    ensures Candidate(g, todo, best2) && (best != SetInfo({}, EMPTY) ==> best2 == best)
    ensures ItemsOk(g, todo, best2.feerate, queue) && Complete(g, todo, queue, best2.feerate)
    ensures Room(queue, |todo|) && Splits(queue) < Limbs.Pow2(|todo|)
    ensures Started(g, todo, best, queue, best2)
  {
    hide Graph.StoresClosure, Graph.SetFee, FeeFrac.Higher, Graph.Topological, ClosedUnderRelated, Covering, Related,
         SortedByFeerate, Graph.PositiveSizes, ItemsOk, Complete, Component, Parted, Necessary, Connected;
    assert Parted(g, todo, [], todo) by { PartedStart(g, todo); }
    assert Splits([]) == 0;
    hide Splits;
    queue, best2 := [], best;
    var toCover := todo;
    WholeTopological(g, todo);
    CoverStart(g, todo);
    while true
      invariant toCover <= todo && toCover != {} && ClosedUnderRelated(g, toCover, todo)
      invariant Covering(g, todo, queue, toCover) && StartItems(g, todo, queue)
      invariant best2 == SetInfo({}, EMPTY) || Candidate(g, todo, best2)
      invariant best != SetInfo({}, EMPTY) ==> best2 == best
      invariant |queue| + |toCover| <= |todo| && Room(queue, |todo|)
      invariant Splits(queue) + Limbs.Pow2(|toCover|) <= Limbs.Pow2(|todo|)
      invariant queue != [] ==> Candidate(g, todo, best2)
      invariant Parted(g, todo, queue, toCover)
      invariant best2 == if queue == [] || best != SetInfo({}, EMPTY) then best
                         else SetInfo(queue[0].und, g.SetFee(queue[0].und))
      decreases |toCover|
    {
      var component := FindConnectedComponent(g, toCover);
      ClosedWithin(g, todo, toCover, component);
      ComponentShape(g, todo, toCover, component);
      best2 := Provided(g, todo, best2, component);
      var item := WorkItem(SetInfo({}, EMPTY), component, EMPTY);
      CoverStep(g, todo, queue, toCover, component, item);
      CoverRoom(queue, todo, toCover, component, item);
      PartedStep(g, todo, queue, toCover, component, item);
      ComponentSplits(queue, item, toCover, component);
      toCover := toCover - component;
      queue := queue + [item];
      if toCover == {} {
        break;
      }
    }
    CoverDone(g, todo, queue, best2.feerate);
    PartedDone(g, todo, queue);
  }

  /** A best that was not provided becomes the first component. */
  method Provided(g: Graph, todo: set<nat>, best: SetInfo, component: set<nat>) returns (best2: SetInfo)
    requires Setting(g, todo) && component != {} && g.Topological(component, todo)
    requires best == SetInfo({}, EMPTY) || Candidate(g, todo, best)
    ensures Candidate(g, todo, best2)
    ensures best2 == if best == SetInfo({}, EMPTY) then SetInfo(component, g.SetFee(component)) else best
  {
    hide Graph.StoresClosure, Graph.SetFee, SortedByFeerate;
    best2 := best;
    if best.feerate.IsEmpty() {
      var rate := SumFeeRates(g, component);
      best2 := SetInfo(component, rate);
    }
    if best != SetInfo({}, EMPTY) {
      CandidateSize(g, todo, best);
    }
  }

  lemma ComponentShape(g: Graph, todo: set<nat>, toCover: set<nat>, c: set<nat>)
    requires toCover != {} && Necessary(g, c, First(toCover), toCover)
    requires ClosedUnderRelated(g, c, todo)
    ensures c != {} && g.Topological(c, todo)
  {
    WholeTopological(g, todo);
    ClosedTopological(g, todo, todo, c);
    assert todo * c == c;
  }

  lemma CoverRoom(queue: seq<WorkItem>, todo: set<nat>, toCover: set<nat>, c: set<nat>, item: WorkItem)
    requires c <= toCover && c != {} && |queue| + |toCover| <= |todo| && Room(queue, |todo|) && item.und == c
    ensures |queue| + 1 + |toCover - c| <= |todo| && |toCover - c| < |toCover|
    ensures Room(queue + [item], |todo|)
  {
    NotLarger(c, toCover);
    SmallerSet(toCover - c, toCover);
    var queue2 := queue + [item];
    forall k | 0 <= k < |queue2|
      ensures k + |queue2[k].und| <= |todo|
    {
      assert k < |queue| ==> queue2[k] == queue[k];
    }
  }

  // ----- the search -----

  ghost predicate Searching(g: Graph, todo: set<nat>, capacity: nat, queue: seq<WorkItem>, best: SetInfo, imp: set<nat>)
  {
    State(g, todo, queue, best, imp) && Room(queue, capacity) && Complete(g, todo, queue, best.feerate)
  }

  /** Processing an item taken off the queue loses nothing that beats best. */
  lemma StillComplete(g: Graph, todo: set<nat>, queue: seq<WorkItem>, k: nat, best: SetInfo, queue2: seq<WorkItem>,
                      best2: SetInfo, imp2: set<nat>)
    requires Setting(g, todo) && k < |queue| && Complete(g, todo, queue, best.feerate) && Candidate(g, todo, best)
    requires Processed(g, todo, Without(queue, k), best, queue[k], queue2, best2, imp2)
    ensures Complete(g, todo, queue2, best2.feerate)
  {
    hide Graph.SetFee, FeeFrac.Higher, Graph.Topological, Reaches, NotWorse, ItemsOk, ImpOk, Graph.StoresClosure,
         SortedByFeerate;
    CandidateSize(g, todo, best);
    CandidateSize(g, todo, best2);
    forall s: set<nat> | s != {} && g.Topological(s, todo) && g.SetFee(s).Higher(best2.feerate)
      ensures Reaches(g, todo, queue2, s)
    {
      TopologicalSize(g, todo, s);
      NotWorseFeerate(best2.feerate, best.feerate, g.SetFee(s));
      StillReaches(g, todo, queue, k, queue2, best2.feerate, s);
    }
  }

  lemma TopologicalSize(g: Graph, todo: set<nat>, s: set<nat>)
    requires g.PositiveSizes() && todo <= g.used && s != {} && g.Topological(s, todo)
    ensures g.SetFee(s).size > 0
  {
    SizeOf(g, s);
  }

  lemma StillReaches(g: Graph, todo: set<nat>, queue: seq<WorkItem>, k: nat, queue2: seq<WorkItem>, best: FeeFrac,
                     s: set<nat>)
    requires g.PositiveSizes() && todo <= g.used && best.size > 0 && g.SetFee(s).size > 0
    requires k < |queue| && Without(queue, k) <= queue2
    requires Covers(g, todo, queue2, best, queue[k].inc.transactions, queue[k].und)
    requires Reaches(g, todo, queue, s) && g.SetFee(s).Higher(best)
    ensures Reaches(g, todo, queue2, s)
  {
    hide Graph.SetFee, FeeFrac.Higher, Compatible, Graph.PositiveSizes;
    var n, t :| 0 <= n < |queue| && CompatibleItem(g, todo, queue[n], t) && !g.SetFee(s).Higher(g.SetFee(t));
    CompatibleSize(g, todo, queue[n].inc.transactions, queue[n].und, t);
    if n == k {
      FeerateTransitive(g.SetFee(t), g.SetFee(s), best);
      ReachesBetter(g, todo, queue2, s, t);
    } else {
      var m := if n < k then n else n - 1;
      assert Without(queue, k)[m] == queue[n];
      assert queue2[m] == queue[n];
    }
  }

  lemma ReachesBetter(g: Graph, todo: set<nat>, queue: seq<WorkItem>, s: set<nat>, t: set<nat>)
    requires g.PositiveSizes() && todo <= g.used && g.SetFee(s).size > 0 && g.SetFee(t).size > 0
    requires Reaches(g, todo, queue, t) && !g.SetFee(s).Higher(g.SetFee(t))
    ensures Reaches(g, todo, queue, s)
  {
    hide Graph.SetFee, FeeFrac.Higher, Compatible, Graph.PositiveSizes;
    var k, u :| 0 <= k < |queue| && CompatibleItem(g, todo, queue[k], u) && !g.SetFee(t).Higher(g.SetFee(u));
    CompatibleSize(g, todo, queue[k].inc.transactions, queue[k].und, u);
    FeerateTransitive(g.SetFee(u), g.SetFee(t), g.SetFee(s));
  }

  /** Taking item k off leaves a sound queue, with room for what processing it adds. */
  lemma TakenOff(g: Graph, todo: set<nat>, capacity: nat, queue: seq<WorkItem>, best: SetInfo, imp: set<nat>, k: nat)
    requires k < |queue| && State(g, todo, queue, best, imp) && Room(queue, capacity)
    requires k == |queue| - 1 || |queue| - 1 + |queue[k].und| <= capacity
    ensures State(g, todo, Without(queue, k), best, imp) && ItemOk(g, todo, best.feerate, queue[k])
    ensures Room(Without(queue, k), capacity) && |queue| - 1 + |queue[k].und| <= capacity
  {
    hide Candidate, ImpOk, ItemOk;
    var rest := Without(queue, k);
    forall i | 0 <= i < |rest|
      ensures ItemOk(g, todo, best.feerate, rest[i]) && i + |rest[i].und| <= capacity
    {
      var n := if i < k then i else i + 1;
      assert rest[i] == queue[n];
    }
  }

  lemma UndecidedInTodo(g: Graph, todo: set<nat>, queue: seq<WorkItem>, best: SetInfo, imp: set<nat>, k: nat)
    requires k < |queue| && State(g, todo, queue, best, imp)
    ensures |queue[k].und| <= |todo|
  {
    hide Candidate, ImpOk, BoundOk, Graph.SetFee, Graph.Topological;
    assert ItemOk(g, todo, best.feerate, queue[k]);
    NotLarger(queue[k].und, todo);
  }

  /** Swapping the first two items changes nothing that matters. */
  lemma SwappedSearching(g: Graph, todo: set<nat>, capacity: nat, queue: seq<WorkItem>, best: SetInfo, imp: set<nat>)
    requires Searching(g, todo, capacity, queue, best, imp) && |queue| > 1 && capacity >= 2 * |todo| && capacity > 0
    ensures Searching(g, todo, capacity, Swapped(queue), best, imp)
  {
    hide Candidate, ImpOk, ItemOk, Complete, Graph.SetFee, FeeFrac.Higher, Graph.Topological;
    var q := Swapped(queue);
    UndecidedInTodo(g, todo, queue, best, imp, 0);
    forall i | 0 <= i < |q|
      ensures ItemOk(g, todo, best.feerate, q[i]) && i + |q[i].und| <= capacity
    {
      var n := if i == 0 then 1 else if i == 1 then 0 else i;
      assert q[i] == queue[n];
    }
    SwappedComplete(g, todo, queue, best.feerate);
  }

  lemma SwappedSplits(queue: seq<WorkItem>)
    requires |queue| > 1
    ensures Splits(Swapped(queue)) == Splits(queue)
  {
    hide Splits;
    var a, b, rest := [queue[0]], [queue[1]], queue[2..];
    assert queue == a + (b + rest) && Swapped(queue) == b + (a + rest);
    SplitsConcat(a, b + rest);
    SplitsConcat(b, rest);
    SplitsConcat(b, a + rest);
    SplitsConcat(a, rest);
  }

  lemma SwappedComplete(g: Graph, todo: set<nat>, queue: seq<WorkItem>, best: FeeFrac)
    requires Complete(g, todo, queue, best) && |queue| > 1
    ensures Complete(g, todo, Swapped(queue), best)
  {
    hide Graph.SetFee, FeeFrac.Higher, Graph.Topological, CompatibleItem;
    var q := Swapped(queue);
    forall s: set<nat> | s != {} && g.Topological(s, todo) && g.SetFee(s).Higher(best)
      ensures Reaches(g, todo, q, s)
    {
      var k, t :| 0 <= k < |queue| && CompatibleItem(g, todo, queue[k], t) && !g.SetFee(s).Higher(g.SetFee(t));
      assert q[if k == 0 then 1 else if k == 1 then 0 else k] == queue[k];
    }
  }

  /** No topological set of what remains has a higher feerate. */
  ghost predicate Optimal(g: Graph, todo: set<nat>, best: FeeFrac) {
    forall s: set<nat> | s != {} && g.Topological(s, todo) :: !g.SetFee(s).Higher(best)
  }

  lemma NothingQueued(g: Graph, todo: set<nat>, best: FeeFrac)
    requires Complete(g, todo, [], best)
    ensures Optimal(g, todo, best)
  {
    hide Graph.SetFee, FeeFrac.Higher, Graph.Topological;
    forall s: set<nat> | s != {} && g.Topological(s, todo)
      ensures !g.SetFee(s).Higher(best)
    {
      assert !Reaches(g, todo, [], s);
    }
  }

  /** Processes item k of the queue, the last or the first one. */
  method ProcessItem(g: Graph, todo: set<nat>, capacity: nat, queue: seq<WorkItem>, best: SetInfo, imp: set<nat>,
                     k: nat)
    returns (queue2: seq<WorkItem>, best2: SetInfo, imp2: set<nat>, wasSplit: bool)
    requires Setting(g, todo) && Searching(g, todo, capacity, queue, best, imp)
    requires k < |queue| && (k == |queue| - 1 || |queue| - 1 + |queue[k].und| <= capacity)
    ensures Searching(g, todo, capacity, queue2, best2, imp2) && NotWorse(best2.feerate, best.feerate)
    ensures |queue2| >= |queue| - 1 && (!wasSplit ==> |queue2| == |queue| - 1)
    ensures Splits(queue2) + (if wasSplit then 1 else 0) <= Splits(queue)
    ensures k == |queue| - 1 ==> queue[..k] <= queue2
    ensures queue[k].und != {} && Handles(g, todo, Without(queue, k), best, queue[k], queue2, best2, wasSplit)
  {
    hide Setting, State, Room, Complete, ItemOk, Covers, NotWorse, Splits, Ways, Handles;
    SplitsWithout(queue, k);
    TakenOff(g, todo, capacity, queue, best, imp, k);
    StateCandidate(g, todo, queue, best, imp);
    ghost var rest := Without(queue, k);
    var elem := queue[k];
    ItemUndecided(g, todo, best.feerate, elem);
    queue2, best2, imp2, wasSplit := SplitItem(g, todo, capacity, queue[..k] + queue[k + 1..], best, imp, elem);
    StillComplete(g, todo, queue, k, best, queue2, best2, imp2);
  }

  lemma ItemUndecided(g: Graph, todo: set<nat>, best: FeeFrac, item: WorkItem)
    requires ItemOk(g, todo, best, item)
    ensures item.und != {}
  {
  }

  lemma StateCandidate(g: Graph, todo: set<nat>, queue: seq<WorkItem>, best: SetInfo, imp: set<nat>)
    requires State(g, todo, queue, best, imp)
    ensures Candidate(g, todo, best)
  {
  }

  lemma RunSnoc(g: Graph, todo: set<nat>, capacity: nat, turns: seq<Turn>, run: seq<Standing>, turn: Turn, b: Standing)
    requires Exploration(g, todo, capacity, turns, run) && Takes(g, todo, capacity, run[|turns|], turn, b)
    requires turn.Swap? ==> turns == [] || turns[|turns| - 1].Front?
    ensures Exploration(g, todo, capacity, turns + [turn], run + [b])
  {
    hide Takes;
    var turns2, run2 := turns + [turn], run + [b];
    forall k | 0 <= k < |turns2|
      ensures Takes(g, todo, capacity, run2[k], turns2[k], run2[k + 1])
    {
      if k < |turns| {
        assert run2[k] == run[k] && turns2[k] == turns[k] && run2[k + 1] == run[k + 1];
      } else {
        assert run2[k] == run[k] && run2[k + 1] == b;
      }
    }
    forall k | 0 < k < |turns2| && turns2[k].Swap?
      ensures turns2[k - 1].Front?
    {
      assert k < |turns| ==> turns2[k] == turns[k];
    }
  }

  /** An exploration up to a standing. */
  ghost predicate ComesTo(g: Graph, todo: set<nat>, capacity: nat, turns: seq<Turn>, run: seq<Standing>, a: Standing,
                          b: Standing)
  {
    Exploration(g, todo, capacity, turns, run) && run[0] == a && run[|turns|] == b
  }

  lemma ComesToStart(g: Graph, todo: set<nat>, capacity: nat, a: Standing)
    ensures ComesTo(g, todo, capacity, [], [a], a, a)
  {
  }

  lemma Further(g: Graph, todo: set<nat>, capacity: nat, turns: seq<Turn>, run: seq<Standing>, a: Standing, b: Standing,
                turn: Turn, c: Standing)
    returns (turns2: seq<Turn>, run2: seq<Standing>)
    requires ComesTo(g, todo, capacity, turns, run, a, b) && Takes(g, todo, capacity, b, turn, c)
    requires turn.Swap? ==> turns == [] || turns[|turns| - 1].Front?
    ensures ComesTo(g, todo, capacity, turns2, run2, a, c) && turns2 == turns + [turn]
  {
    hide Takes;
    RunSnoc(g, todo, capacity, turns, run, turn, c);
    turns2, run2 := turns + [turn], run + [c];
  }

  lemma Came(g: Graph, todo: set<nat>, capacity: nat, turns: seq<Turn>, run: seq<Standing>, a: Standing, b: Standing)
    requires ComesTo(g, todo, capacity, turns, run, a, b)
    ensures Exploration(g, todo, capacity, turns, run) && run[0] == a && run[|turns|] == b
  {
    hide Takes;
  }

  lemma SwapTaken(g: Graph, todo: set<nat>, capacity: nat, a: Standing)
    requires |a.queue| > 1
    ensures Takes(g, todo, capacity, a, Swap, Standing(Swapped(a.queue), a.best, a.left))
  {
  }

  lemma ItemTaken(g: Graph, todo: set<nat>, capacity: nat, a: Standing, k: nat, b: Standing, wasSplit: bool)
    requires k < |a.queue| && a.left > 0 && b.left == a.left - if wasSplit then 1 else 0
    requires a.queue[k].und != {}
    requires Handles(g, todo, Without(a.queue, k), a.best, a.queue[k], b.queue, b.best, wasSplit)
    ensures Crowded(a.queue, capacity) && k == |a.queue| - 1 ==> Takes(g, todo, capacity, a, Back, b)
    ensures !Crowded(a.queue, capacity) && k == 0 ==> Takes(g, todo, capacity, a, Front, b)
  {
    hide Handles, Without;
  }

  /** Explores the queue breadth first, or depth first while it is too full, until it is
      empty or the iterations are used up. */
  method Explore(g: Graph, todo: set<nat>, capacity: nat, queue0: seq<WorkItem>, best0: SetInfo, imp0: set<nat>,
                 maxIterations: nat)
    returns (best: SetInfo, iterationsLeft: nat, ghost turns: seq<Turn>, ghost run: seq<Standing>)
    requires Setting(g, todo) && capacity >= 2 * |todo| && capacity > 0
    requires Searching(g, todo, capacity, queue0, best0, imp0)
    ensures Exploration(g, todo, capacity, turns, run) && run[0] == Standing(queue0, best0, maxIterations)
    ensures run[|turns|].best == best && run[|turns|].left == iterationsLeft
    ensures run[|turns|].queue == [] || iterationsLeft == 0
    ensures Candidate(g, todo, best) && NotWorse(best.feerate, best0.feerate)
    ensures iterationsLeft <= maxIterations <= iterationsLeft + Splits(queue0)
    ensures iterationsLeft > 0 ==> Optimal(g, todo, best.feerate)
  {
    hide Setting, State, Room, Complete, NotWorse, Optimal, Splits, ComesTo, Takes, Handles, Without;
    var queue, imp := queue0, imp0;
    best, iterationsLeft := best0, maxIterations;
    ghost var start := Standing(queue0, best0, maxIterations);
    turns, run := [], [start];
    ComesToStart(g, todo, capacity, start);
    NotWorseItself(best.feerate);
    StateCandidate(g, todo, queue, best, imp);
    CandidateSize(g, todo, best0);
    while queue != []
      invariant Searching(g, todo, capacity, queue, best, imp)
      invariant NotWorse(best.feerate, best0.feerate) && iterationsLeft <= maxIterations
      invariant maxIterations - iterationsLeft + Splits(queue) <= Splits(queue0)
      invariant ComesTo(g, todo, capacity, turns, run, start, Standing(queue, best, iterationsLeft))
      invariant turns != [] ==> turns[|turns| - 1].Front?
      decreases iterationsLeft, |queue|
    {
      if |queue| > 1 {
        var randbool: bool := *;
        if randbool {
          SwappedSearching(g, todo, capacity, queue, best, imp);
          SwappedSplits(queue);
          SwapTaken(g, todo, capacity, Standing(queue, best, iterationsLeft));
          turns, run := Further(g, todo, capacity, turns, run, start, Standing(queue, best, iterationsLeft), Swap,
                                Standing(Swapped(queue), best, iterationsLeft));
          queue := Swapped(queue);
        }
      }
      ghost var before := (iterationsLeft, |queue|);
      while |queue| - 1 + |queue[0].und| > capacity
        invariant Searching(g, todo, capacity, queue, best, imp) && queue != []
        invariant NotWorse(best.feerate, best0.feerate) && iterationsLeft <= before.0
        invariant iterationsLeft == before.0 ==> |queue| <= before.1
        invariant maxIterations - iterationsLeft + Splits(queue) <= Splits(queue0)
        invariant ComesTo(g, todo, capacity, turns, run, start, Standing(queue, best, iterationsLeft))
        decreases iterationsLeft, |queue|
      {
        if iterationsLeft == 0 {
          break;
        }
        UndecidedInTodo(g, todo, queue, best, imp, 0);
        var queue2, best2, imp2, wasSplit := ProcessItem(g, todo, capacity, queue, best, imp, |queue| - 1);
        BestSoFar(g, todo, queue, best0, best, best2, imp, queue2, imp2);
        var left2 := if wasSplit then iterationsLeft - 1 else iterationsLeft;
        ItemTaken(g, todo, capacity, Standing(queue, best, iterationsLeft), |queue| - 1, Standing(queue2, best2, left2),
                  wasSplit);
        turns, run := Further(g, todo, capacity, turns, run, start, Standing(queue, best, iterationsLeft), Back,
                              Standing(queue2, best2, left2));
        queue, best, imp, iterationsLeft := queue2, best2, imp2, left2;
      }
      if iterationsLeft == 0 {
        break;
      }
      var queue2, best2, imp2, wasSplit := ProcessItem(g, todo, capacity, queue, best, imp, 0);
      BestSoFar(g, todo, queue, best0, best, best2, imp, queue2, imp2);
      var left2 := if wasSplit then iterationsLeft - 1 else iterationsLeft;
      ItemTaken(g, todo, capacity, Standing(queue, best, iterationsLeft), 0, Standing(queue2, best2, left2), wasSplit);
      turns, run := Further(g, todo, capacity, turns, run, start, Standing(queue, best, iterationsLeft), Front,
                            Standing(queue2, best2, left2));
      queue, best, imp, iterationsLeft := queue2, best2, imp2, left2;
    }
    Came(g, todo, capacity, turns, run, start, Standing(queue, best, iterationsLeft));
    StateCandidate(g, todo, queue, best, imp);
    if iterationsLeft > 0 {
      NothingQueued(g, todo, best.feerate);
    }
  }

  lemma NotWorseItself(f: FeeFrac)
    ensures NotWorse(f, f)
  {
  }

  lemma BestSoFar(g: Graph, todo: set<nat>, queue: seq<WorkItem>, best0: SetInfo, best: SetInfo, best2: SetInfo,
                  imp: set<nat>, queue2: seq<WorkItem>, imp2: set<nat>)
    requires Setting(g, todo) && best0.feerate.size > 0
    requires State(g, todo, queue, best, imp) && State(g, todo, queue2, best2, imp2)
    requires NotWorse(best.feerate, best0.feerate) && NotWorse(best2.feerate, best.feerate)
    ensures NotWorse(best2.feerate, best0.feerate)
  {
    hide NotWorse, Candidate, ItemsOk, ImpOk, Setting;
    CandidateSize(g, todo, best);
    CandidateSize(g, todo, best2);
    NotWorseTransitive(best2.feerate, best.feerate, best0.feerate);
  }

  /** The whole search, on transactions numbered by decreasing feerate. It never takes as
      many iterations as there are sets of transactions, so with that many allowed the
      result is always optimal. */
  method Search(g: Graph, todo: set<nat>, maxIterations: nat, best: SetInfo)
    returns (r: SetInfo, iterations: nat, ghost turns: seq<Turn>, ghost run: seq<Standing>)
    requires Setting(g, todo) && todo != {}
    requires best == SetInfo({}, EMPTY) || Candidate(g, todo, best)
    ensures Searched(g, todo, maxIterations, best, turns, run, r, iterations)
    ensures Candidate(g, todo, r)
    ensures best != SetInfo({}, EMPTY) ==> NotWorse(r.feerate, best.feerate)
    ensures iterations <= maxIterations && iterations < Limbs.Pow2(|todo|)
    ensures iterations < maxIterations ==> Optimal(g, todo, r.feerate)
  {
    hide Candidate, Complete, NotWorse, Optimal, ItemsOk, ImpOk, SortedByFeerate, Graph.StoresClosure, Graph.SetFee,
         Started, Exploration;
    var capacity := if 2 * |todo| < 256 then 256 else 2 * |todo|;
    var queue, best0 := Start(g, todo, best);
    CandidateSize(g, todo, best0);
    var imp := ShrinkImp(g, todo, best0.feerate, todo);
    MoreRoom(queue, |todo|, capacity);
    var left: nat;
    r, left, turns, run := Explore(g, todo, capacity, queue, best0, imp, maxIterations);
    iterations := maxIterations - left;
  }

  lemma MoreRoom(queue: seq<WorkItem>, a: nat, b: nat)
    requires Room(queue, a) && a <= b
    ensures Room(queue, b)
  {
  }

  // ----- the swaps decide the outcome -----

  lemma PositiveSet(g: Graph, s: set<nat>, f: FeeFrac)
    requires s != {} && forall t | t in s :: g.FeeRate(t).Higher(f)
    ensures g.SetFee(s).Excess(f.fee, f.size) > 0
  {
    hide FeeFrac.Excess, FeeFrac.Higher;
    var x :| x in s;
    forall t | t in s
      ensures g.FeeRate(t).Excess(f.fee, f.size) > 0
    {
      HigherIsExcess(f, g.FeeRate(t));
    }
    NonNegativeSet(g, s - {x}, f.fee, f.size);
    g.SetFeeRemove(s, x);
    ExcessPlus(g.FeeRate(x), g.SetFee(s - {x}), f.fee, f.size);
  }

  /** The potential is the only set of its kind. */
  lemma OnePotential(g: Graph, inc: set<nat>, cand: set<nat>, p: SetInfo, q: SetInfo)
    requires g.PositiveSizes() && inc != {} && inc + cand <= g.used && PotOk(g, inc, cand, p) && PotOk(g, inc, cand, q)
    ensures p == q
  {
    hide FeeFrac.Higher, PotOk;
    NotBoth(p.feerate, q.feerate);
    if q.feerate.Higher(p.feerate) {
      LowerPotential(g, inc, cand, q, p);
    } else {
      LowerPotential(g, inc, cand, p, q);
    }
  }

  lemma LowerPotential(g: Graph, inc: set<nat>, cand: set<nat>, p: SetInfo, q: SetInfo)
    requires g.PositiveSizes() && inc != {} && inc + cand <= g.used && PotOk(g, inc, cand, p) && PotOk(g, inc, cand, q)
    requires !q.feerate.Higher(p.feerate)
    ensures p == q
  {
    hide FeeFrac.Higher, FeeFrac.Excess, Graph.SetFee;
    SizeOf(g, p.transactions);
    SizeOf(g, q.transactions);
    forall x | x in p.transactions && x !in inc
      ensures x in q.transactions
    {
      FeerateTransitive(g.FeeRate(x), p.feerate, q.feerate);
    }
    var more := q.transactions - p.transactions;
    assert p.transactions + more == q.transactions;
    g.SetFeeUnion(p.transactions, more);
    var f := q.feerate;
    ExcessPlus(p.feerate, g.SetFee(more), f.fee, f.size);
    HigherIsExcess(f, p.feerate);
    HigherIsExcess(f, f);
    if more != {} {
      PositiveSet(g, more, f);
    }
  }

  lemma OneJump(g: Graph, todo: set<nat>, inc: set<nat>, pot: set<nat>, a: set<nat>, b: set<nat>)
    requires Jumps(g, todo, inc, pot, pot - inc, a) && Jumps(g, todo, inc, pot, pot - inc, b)
    ensures a <= b
  {
    forall x | x in a - inc
      ensures x in b
    {
      assert g.Ancestors(x) * todo <= a;
    }
  }

  lemma AddsOnce(g: Graph, todo: set<nat>, queue: seq<WorkItem>, best: SetInfo, inc: set<nat>, und: set<nat>,
                 q1: seq<WorkItem>, b1: SetInfo, q2: seq<WorkItem>, b2: SetInfo)
    requires g.PositiveSizes() && todo <= g.used && inc <= todo
    requires Adds(g, todo, queue, best, inc, und, q1, b1) && Adds(g, todo, queue, best, inc, und, q2, b2)
    ensures q1 == q2 && b1 == b2
  {
    hide FeeFrac.Higher, FeeFrac.Better, Graph.SetFee, Graph.PositiveSizes, PotOk, Jumps;
    if inc != {} {
      var pot, ext :| Extension(g, todo, best.feerate, inc, und, pot, ext)
                      && AddsExtended(g, queue, best, und, pot, ext, q1, b1);
      var pot2, ext2 :| Extension(g, todo, best.feerate, inc, und, pot2, ext2)
                        && AddsExtended(g, queue, best, und, pot2, ext2, q2, b2);
      OnePotential(g, inc, Above(g, todo, best.feerate) * und, pot, pot2);
      OneJump(g, todo, inc, pot.transactions, ext.transactions, ext2.transactions);
      OneJump(g, todo, inc, pot.transactions, ext2.transactions, ext.transactions);
      assert ext == ext2;
    }
  }

  ghost predicate Within(todo: set<nat>, queue: seq<WorkItem>) {
    forall k | 0 <= k < |queue| :: queue[k].inc.transactions <= todo
  }

  lemma AddsWithin(g: Graph, todo: set<nat>, queue: seq<WorkItem>, best: SetInfo, inc: set<nat>, und: set<nat>,
                   queue2: seq<WorkItem>, best2: SetInfo)
    requires Within(todo, queue) && Adds(g, todo, queue, best, inc, und, queue2, best2)
    ensures Within(todo, queue2)
  {
    hide FeeFrac.Higher, FeeFrac.Better, Graph.SetFee, PotOk;
  }

  lemma SplitsOnce(g: Graph, und: set<nat>, select: set<nat>, t: nat, u: nat)
    requires SplitsBest(g, und, select, t) && SplitsBest(g, und, select, u)
    ensures t == u
  {
    hide SplitCost;
  }

  lemma HandlesOnce(g: Graph, todo: set<nat>, queue: seq<WorkItem>, best: SetInfo, item: WorkItem, q1: seq<WorkItem>,
                    b1: SetInfo, s1: bool, q2: seq<WorkItem>, b2: SetInfo, s2: bool)
    requires g.PositiveSizes() && todo <= g.used && item.und != {} && item.inc.transactions <= todo
             && Within(todo, queue)
    requires Handles(g, todo, queue, best, item, q1, b1, s1) && Handles(g, todo, queue, best, item, q2, b2, s2)
    ensures q1 == q2 && b1 == b2 && s1 == s2 && Within(todo, q1)
  {
    hide FeeFrac.Higher, FeeFrac.Better, Graph.SetFee, Graph.PositiveSizes, Adds, SplitsBest, Hopeless, Within;
    if !Hopeless(g, todo, best.feerate, item) {
      var t, m, c :| Decides(g, todo, queue, best, item, t, m, c, q1, b1);
      var u, n, d :| Decides(g, todo, queue, best, item, u, n, d, q2, b2);
      SplitsOnce(g, item.und, item.und * g.Ancestors(First(item.und)), t, u);
      AddsOnce(g, todo, queue, best, item.inc.transactions, item.und - g.Descendants(t), m, c, n, d);
      AddsWithin(g, todo, queue, best, item.inc.transactions, item.und - g.Descendants(t), m, c);
      var inc := item.inc.transactions + g.Ancestors(t) * todo;
      AddsOnce(g, todo, m, c, inc, item.und - g.Ancestors(t) * todo, q1, b1, q2, b2);
      AddsWithin(g, todo, m, c, inc, item.und - g.Ancestors(t) * todo, q1, b1);
    }
  }

  lemma TakesOnce(g: Graph, todo: set<nat>, capacity: nat, a: Standing, turn: Turn, b: Standing, c: Standing)
    requires g.PositiveSizes() && todo <= g.used && Within(todo, a.queue)
    requires Takes(g, todo, capacity, a, turn, b) && Takes(g, todo, capacity, a, turn, c)
    ensures b == c && Within(todo, b.queue)
  {
    hide Handles, Graph.PositiveSizes;
    if !turn.Swap? {
      var k := if turn.Back? then |a.queue| - 1 else 0;
      HandlesOnce(g, todo, Without(a.queue, k), a.best, a.queue[k], b.queue, b.best, b.left < a.left,
                  c.queue, c.best, c.left < a.left);
    }
  }

  lemma {:induction false} RunOnce(g: Graph, todo: set<nat>, capacity: nat, turns: seq<Turn>, run1: seq<Standing>,
                                   run2: seq<Standing>, k: nat)
    requires g.PositiveSizes() && todo <= g.used && k <= |turns|
    requires Exploration(g, todo, capacity, turns, run1) && Exploration(g, todo, capacity, turns, run2)
    requires run1[0] == run2[0] && Within(todo, run1[0].queue)
    ensures run1[k] == run2[k] && Within(todo, run1[k].queue)
  {
    hide Takes, Graph.PositiveSizes, Within;
    if k > 0 {
      RunOnce(g, todo, capacity, turns, run1, run2, k - 1);
      assert Takes(g, todo, capacity, run1[k - 1], turns[k - 1], run1[k - 1 + 1]);
      assert Takes(g, todo, capacity, run2[k - 1], turns[k - 1], run2[k - 1 + 1]);
      TakesOnce(g, todo, capacity, run1[k - 1], turns[k - 1], run1[k], run2[k]);
    }
  }

  /** Two connected closed sets that meet are the same. */
  lemma ComponentsMeet(g: Graph, todo: set<nat>, c: set<nat>, d: set<nat>, x: nat)
    requires ClosedUnderRelated(g, c, todo) && ClosedUnderRelated(g, d, todo) && Connected(g, c) && Connected(g, d)
    requires x in c && x in d
    ensures c == d
  {
    hide Related;
    var both := c * d;
    assert x in both;
    assert ClosedUnderRelated(g, both, c) && ClosedUnderRelated(g, both, d);
  }

  /** The components of a set come in only one order. */
  lemma {:induction false} ComponentsOnce(g: Graph, todo: set<nat>, a: seq<WorkItem>, b: seq<WorkItem>, k: nat)
    requires Components(g, todo, a) && Components(g, todo, b) && k <= |a|
    ensures k <= |b| && a[..k] == b[..k]
  {
    hide ClosedUnderRelated, Connected;
    if k > 0 {
      ComponentsOnce(g, todo, a, b, k - 1);
      var x := First(a[k - 1].und);
      ComponentInTodo(g, todo, a[k - 1]);
      var m := ComponentAt(g, todo, a, b, k - 1, x);
      assert b[k - 1].und != {};
      var y := First(b[k - 1].und);
      ComponentInTodo(g, todo, b[k - 1]);
      var n := ComponentAt(g, todo, b, a, k - 1, y);
      ComponentsMeet(g, todo, a[k - 1].und, b[m].und, x);
      ComponentsMeet(g, todo, b[k - 1].und, a[n].und, y);
      assert First(b[m].und) == x && First(a[n].und) == y;
      assert m == k - 1;
    }
  }

  lemma ComponentInTodo(g: Graph, todo: set<nat>, item: WorkItem)
    requires Component(g, todo, item)
    ensures item.und <= todo && First(item.und) in todo
  {
  }

  /** A first transaction beyond the first k components of one list is beyond them in the
      other. */
  lemma ComponentAt(g: Graph, todo: set<nat>, a: seq<WorkItem>, b: seq<WorkItem>, k: nat, x: nat) returns (m: nat)
    requires Components(g, todo, a) && Components(g, todo, b) && k < |a| && k <= |b| && a[..k] == b[..k]
    requires a[k].und != {} && x == First(a[k].und) && x in todo
    ensures k <= m < |b| && x in b[m].und
  {
    hide ClosedUnderRelated, Connected;
    m :| 0 <= m < |b| && x in b[m].und;
    if m < k {
      assert a[m] == a[..k][m] == b[m];
      ComponentsMeet(g, todo, a[m].und, a[k].und, x);
    }
  }

  /** What a search finds and how long it takes depend on its input and its turns alone. */
  lemma SearchedOnce(g: Graph, todo: set<nat>, maxIterations: nat, best: SetInfo, turns: seq<Turn>, run1: seq<Standing>,
                     r1: SetInfo, i1: nat, run2: seq<Standing>, r2: SetInfo, i2: nat)
    requires g.PositiveSizes() && todo <= g.used
    requires Searched(g, todo, maxIterations, best, turns, run1, r1, i1)
    requires Searched(g, todo, maxIterations, best, turns, run2, r2, i2)
    ensures r1 == r2 && i1 == i2
  {
    hide Graph.PositiveSizes, Graph.SetFee, Components, Takes;
    var a, b := run1[0].queue, run2[0].queue;
    ComponentsOnce(g, todo, a, b, |a|);
    ComponentsOnce(g, todo, b, a, |b|);
    assert a[..|a|] == a && b[..|b|] == b;
    StartWithin(g, todo, a);
    RunOnce(g, todo, Max(256, 2 * |todo|), turns, run1, run2, |turns|);
  }

  lemma StartWithin(g: Graph, todo: set<nat>, queue: seq<WorkItem>)
    requires Components(g, todo, queue)
    ensures Within(todo, queue)
  {
    hide ClosedUnderRelated, Connected;
    forall k | 0 <= k < |queue|
      ensures queue[k].inc.transactions <= todo
    {
      assert Component(g, todo, queue[k]);
    }
  }
}
