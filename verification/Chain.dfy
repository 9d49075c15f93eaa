/** The block tree, its skip list, and the active chain (src/chain.h, src/chain.cpp). */
module Chains {

  import opened Limbs

  // ----- skip heights -----

  /** The bitwise and of two numbers. */
  function BitAnd(a: nat, b: nat): nat {
    if a == 0 || b == 0 then 0
    else (if a % 2 == 1 && b % 2 == 1 then 1 else 0) + 2 * BitAnd(a / 2, b / 2)
  }

  function InvertLowestOne(n: nat): nat {
    if n == 0 then 0 else BitAnd(n, n - 1)
  }

  lemma {:induction false} AndSelf(n: nat)
    ensures BitAnd(n, n) == n
  {
    if n > 0 {
      AndSelf(n / 2);
    }
  }

  /** The lowest set bit, and only that, is cleared. */
  lemma {:induction false} ClearsLowestBit(k: nat, m: nat)
    ensures InvertLowestOne(Pow2(k) * (2 * m + 1)) == Pow2(k) * (2 * m)
    ensures Pow2(k) * (2 * m + 1) > 0
  {
    var n := Pow2(k) * (2 * m + 1);
    MulMonotone(1, 2 * m + 1, Pow2(k));
    if k == 0 {
      AndSelf(m);
      assert n == 2 * m + 1;
      assert n / 2 == m && (n - 1) / 2 == m;
    } else {
      ClearsLowestBit(k - 1, m);
      Commute(2, Pow2(k - 1), 2 * m + 1);
      Commute(2, Pow2(k - 1), 2 * m);
      var h := Pow2(k - 1) * (2 * m + 1);
      assert n == 2 * h;
      assert n / 2 == h && (n - 1) / 2 == h - 1;
    }
  }

  lemma {:induction false} LowestBit(n: nat) returns (k: nat, m: nat)
    requires n > 0
    ensures n == Pow2(k) * (2 * m + 1)
  {
    if n % 2 == 1 {
      k, m := 0, n / 2;
      assert Pow2(0) == 1;
    } else {
      var j: nat;
      j, m := LowestBit(n / 2);
      k := j + 1;
      Commute(2, Pow2(j), 2 * m + 1);
    }
  }

  lemma InvertBelow(n: nat)
    ensures n > 0 ==> InvertLowestOne(n) < n
    ensures n == 0 ==> InvertLowestOne(n) == 0
  {
    if n > 0 {
      var k, m := LowestBit(n);
      ClearsLowestBit(k, m);
      Distribute(Pow2(k), 2 * m, 1);
    }
  }

  /** The height to jump back to; any height strictly below would do. */
  function GetSkipHeight(height: nat): (r: nat)
    ensures height > 0 ==> r < height
    ensures height == 0 ==> r == 0
  {
    if height < 2 then 0
    else
      InvertBelow(height);
      InvertBelow(height - 1);
      InvertBelow(InvertLowestOne(height - 1));
      if height % 2 == 1 then InvertLowestOne(InvertLowestOne(height - 1)) + 1 else InvertLowestOne(height)
  }

  /** An even height loses its lowest set bit; of an odd one, what is above its last bit
      loses the two lowest. */
  lemma SkipsTo(k: nat, j: nat, m: nat)
    requires k > 0
    ensures GetSkipHeight(Pow2(k) * (2 * m + 1)) == Pow2(k) * (2 * m)
    ensures GetSkipHeight(Pow2(k) + 1) == 1
    ensures GetSkipHeight(Pow2(k + 1 + j) * (2 * m + 1) + Pow2(k) + 1) == Pow2(k + 1 + j) * (2 * m) + 1
  {
    hide InvertLowestOne, Pow2, GetSkipHeight;
    SkipOf(k, m);
    SkipOf(k, 0);
    InvertBelow(0);
    TwoBits(k, j, m);
    SkipOf(k, Pow2(j) * (2 * m + 1));
    ClearsLowestBit(k + 1 + j, m);
  }

  lemma SkipOf(k: nat, m: nat)
    requires k > 0
    ensures GetSkipHeight(Pow2(k) * (2 * m + 1)) == Pow2(k) * (2 * m)
    ensures GetSkipHeight(Pow2(k) * (2 * m + 1) + 1) == InvertLowestOne(Pow2(k) * (2 * m)) + 1
  {
    hide InvertLowestOne, Pow2, GetSkipHeight;
    ClearsLowestBit(k, m);
    EvenScale(k, 2 * m + 1);
    SkipOfEven(Pow2(k) * (2 * m + 1));
  }

  lemma SkipOfEven(even: nat)
    requires even >= 2 && even % 2 == 0
    ensures GetSkipHeight(even) == InvertLowestOne(even)
    ensures GetSkipHeight(even + 1) == InvertLowestOne(InvertLowestOne(even)) + 1
  {
    hide InvertLowestOne;
  }

  lemma EvenScale(k: nat, x: nat)
    requires k > 0 && x > 0
    ensures Pow2(k) * x >= 2 && Pow2(k) * x % 2 == 0
  {
    Commute(2, Pow2(k - 1), x);
    MulMonotone(1, x, Pow2(k));
    assert Pow2(k) * x == 2 * (Pow2(k - 1) * x);
  }

  lemma TwoBits(k: nat, j: nat, m: nat)
    ensures Pow2(k) * (2 * (Pow2(j) * (2 * m + 1)) + 1) == Pow2(k + 1 + j) * (2 * m + 1) + Pow2(k)
    ensures Pow2(k) * (2 * (Pow2(j) * (2 * m + 1))) == Pow2(k + 1 + j) * (2 * m + 1)
  {
    var p, q, x := Pow2(k), Pow2(j), 2 * m + 1;
    Pow2Add(k + 1, j);
    assert Pow2(k + 1) == 2 * p;
    assert p * (2 * (q * x)) == 2 * p * q * x;
    Distribute(p, 2 * (q * x), 1);
  }

  // ----- the tree -----

  class BlockIndex {

    const hash: int
    const pprev: BlockIndex?
    const nHeight: nat
    /** All ancestors, the genesis block first. */
    ghost const below: seq<BlockIndex>

    var pskip: BlockIndex?

    constructor (prev: BlockIndex?, blockHash: int)
      requires prev != null ==> prev.Linked()
      ensures Linked() && pprev == prev && hash == blockHash && pskip == null
      ensures prev != null && prev.SkipsOk() ==> SkipsOk()
      ensures prev == null ==> SkipsOk()
    {
      hash := blockHash;
      pprev := prev;
      if prev == null {
        nHeight := 0;
        below := [];
      } else {
        nHeight := prev.nHeight + 1;
        below := prev.below + [prev];
      }
      pskip := null;
      new;
      if prev != null {
        LinkedAbove(prev);
      }
    }

    lemma LinkedAbove(prev: BlockIndex)
      requires prev.Linked() && pprev == prev && nHeight == prev.nHeight + 1 && below == prev.below + [prev]
      ensures Linked()
    {
      forall i | 0 <= i < nHeight
        ensures LinkedAt(i)
      {
        if i < prev.nHeight {
          assert prev.LinkedAt(i);
          assert below[..i] == prev.below[..i];
        } else {
          assert below[..i] == prev.below;
        }
      }
    }

    ghost predicate LinkedAt(i: nat)
      requires i < |below|
    {
      && below[i].nHeight == i
      && below[i].below == below[..i]
      && below[i].pprev == if i == 0 then null else below[i - 1]
    }

    /** Heights count from the genesis block along the parents. */
    ghost predicate Linked() {
      && |below| == nHeight
      && pprev == (if nHeight == 0 then null else below[nHeight - 1])
      && forall i | 0 <= i < nHeight :: LinkedAt(i)
    }

    lemma ParentLinked()
      requires Linked() && nHeight > 0
      ensures pprev != null && pprev.Linked() && pprev.nHeight == nHeight - 1
    {
      assert LinkedAt(nHeight - 1);
      BelowLinked(nHeight - 1);
    }

    lemma BelowLinked(i: nat)
      requires Linked() && i < nHeight
      ensures below[i].Linked()
    {
      var b := below[i];
      assert LinkedAt(i);
      forall j | 0 <= j < i
        ensures b.LinkedAt(j)
      {
        assert LinkedAt(j);
        assert b.below[..j] == below[..j];
      }
    }

    /** The ancestor at a height, by walking from parent to parent. */
    ghost function Ancestor(height: nat): (r: BlockIndex)
      requires Linked() && height <= nHeight
      decreases nHeight
    {
      if height == nHeight then this
      else
        ParentLinked();
        pprev.Ancestor(height)
    }

    lemma {:induction false} AncestorAt(height: nat)
      requires Linked() && height <= nHeight
      ensures Ancestor(height) == if height == nHeight then this else below[height]
      ensures Ancestor(height).Linked() && Ancestor(height).nHeight == height
      decreases nHeight
    {
      if height < nHeight {
        ParentLinked();
        pprev.AncestorAt(height);
        assert LinkedAt(nHeight - 1);
        assert LinkedAt(height);
      }
    }

    /** An ancestor's ancestors are one's own. */
    lemma AncestorUnder(a: nat, height: nat)
      requires Linked() && height <= a <= nHeight
      ensures Ancestor(a).Linked() && Ancestor(a).nHeight == a
      ensures Ancestor(a).Ancestor(height) == Ancestor(height)
    {
      AncestorAt(a);
      AncestorAt(height);
      Ancestor(a).AncestorAt(height);
      if a < nHeight {
        assert LinkedAt(a);
      }
    }

    ghost predicate IsUnder(b: BlockIndex) {
      Linked() && b.Linked() && nHeight <= b.nHeight && b.Ancestor(nHeight) == this
    }

    /** A skip pointer is missing, or leads to the ancestor at the skip height. */
    ghost predicate SkipOk()
      requires Linked()
      reads this
    {
      pskip == null || (nHeight > 0 && pskip == Ancestor(GetSkipHeight(nHeight)))
    }

    ghost predicate SkipsOk()
      reads this, below
    {
      Linked() && SkipOk() && forall i | 0 <= i < nHeight :: below[i].Linked() && below[i].SkipOk()
    }

    lemma SkipsBelow(i: nat)
      requires SkipsOk() && i <= nHeight
      ensures Ancestor(i).SkipsOk()
    {
      AncestorAt(i);
      if i < nHeight {
        assert LinkedAt(i);
        var b := below[i];
        forall j | 0 <= j < i
          ensures b.below[j].Linked() && b.below[j].SkipOk()
        {
          assert b.below[j] == below[j];
        }
      }
    }

    /** The fast walk down the skip list ends where the plain walk along the parents does. */
    method GetAncestor(height: int) returns (r: BlockIndex?)
      requires SkipsOk()
      ensures height > nHeight || height < 0 ==> r == null
      ensures 0 <= height <= nHeight ==> r == Ancestor(height)
    {
      if height > nHeight || height < 0 {
        return null;
      }
      var pindexWalk: BlockIndex := this;
      var heightWalk := nHeight;
      while heightWalk > height
        invariant height <= heightWalk <= nHeight
        invariant pindexWalk == Ancestor(heightWalk)
      {
        AncestorAt(heightWalk);
        SkipsBelow(heightWalk);
        var heightSkip := GetSkipHeight(heightWalk);
        var heightSkipPrev := GetSkipHeight(heightWalk - 1);
        if pindexWalk.pskip != null
           && (heightSkip == height
               || (heightSkip > height && !(heightSkipPrev < heightSkip - 2 && heightSkipPrev >= height))) {
          AncestorUnder(heightWalk, heightSkip);
          pindexWalk := pindexWalk.pskip;
          heightWalk := heightSkip;
        } else {
          pindexWalk.ParentLinked();
          AncestorUnder(heightWalk, heightWalk - 1);
          assert pindexWalk.pprev != null;
          pindexWalk := pindexWalk.pprev;
          heightWalk := heightWalk - 1;
        }
      }
      return pindexWalk;
    }

    method BuildSkip()
      requires SkipsOk()
      modifies this`pskip
      ensures SkipsOk()
      ensures pprev == null ==> pskip == old(pskip)
      ensures pprev != null ==> pskip == Ancestor(GetSkipHeight(nHeight))
      ensures forall b: BlockIndex | allocated(b) && old(allocated(b)) && old(b.SkipsOk()) :: b.SkipsOk()
    {
      if pprev != null {
        ParentLinked();
        AncestorAt(nHeight - 1);
        SkipsBelow(nHeight - 1);
        pskip := pprev.GetAncestor(GetSkipHeight(nHeight));
      }
    }
  }

  // ----- common ancestors -----

  /** r is the highest block that both a and b descend from, or are. */
  ghost predicate HighestCommon(r: BlockIndex?, a: BlockIndex, b: BlockIndex)
    requires a.Linked() && b.Linked()
  {
    && (r != null ==> r.IsUnder(a) && r.IsUnder(b))
    && forall h: nat | (r == null || h > r.nHeight) && h <= a.nHeight && h <= b.nHeight ::
         a.Ancestor(h) != b.Ancestor(h)
  }

  method LastCommonAncestor(a: BlockIndex, b: BlockIndex) returns (r: BlockIndex?)
    requires a.SkipsOk() && b.SkipsOk()
    ensures HighestCommon(r, a, b)
  {
    var pa: BlockIndex?, pb: BlockIndex? := a, b;
    if pa.nHeight > pb.nHeight {
      pa := pa.GetAncestor(pb.nHeight);
    } else if pb.nHeight > pa.nHeight {
      pb := pb.GetAncestor(pa.nHeight);
    }
    ghost var height: int := if a.nHeight < b.nHeight then a.nHeight else b.nHeight;
    while pa != pb && pa != null && pb != null
      invariant -1 <= height <= a.nHeight && height <= b.nHeight
      invariant height >= 0 ==> pa == a.Ancestor(height) && pb == b.Ancestor(height)
      invariant height == -1 ==> pa == null && pb == null
      invariant forall h: nat | height < h <= a.nHeight && h <= b.nHeight :: a.Ancestor(h) != b.Ancestor(h)
      decreases height
    {
      a.AncestorAt(height);
      b.AncestorAt(height);
      if height > 0 {
        pa.ParentLinked();
        pb.ParentLinked();
        a.AncestorUnder(height, height - 1);
        b.AncestorUnder(height, height - 1);
      }
      pa := pa.pprev;
      pb := pb.pprev;
      height := height - 1;
    }
    assert pa == pb;
    if height >= 0 {
      a.AncestorAt(height);
    }
    return pa;
  }

  // ----- locators -----

  /** The heights a locator lists: back from the tip, one by one at first and then in steps
      that double, down to the genesis block. */
  function LocatorHeights(height: nat, i: nat): (r: seq<nat>)
    decreases height
  {
    if height == 0 then [0]
    else [height] + LocatorHeights(StepBack(height, i), i + 1)
  }

  function StepSize(i: nat): (r: nat)
    ensures r > 0
  {
    if i <= 10 then 1 else Pow2(i - 10)
  }

  function StepBack(height: nat, i: nat): nat {
    if height < StepSize(i) then 0 else height - StepSize(i)
  }

  /** Strictly falling, from the tip to the genesis block. */
  lemma {:induction false} LocatorFalls(height: nat, i: nat)
    ensures var s := LocatorHeights(height, i);
            && |s| > 0 && s[0] == height && s[|s| - 1] == 0
            && forall k | 0 <= k < |s| - 1 :: s[k] > s[k + 1]
    decreases height
  {
    if height > 0 {
      LocatorFalls(StepBack(height, i), i + 1);
    }
  }

  /** What the steps before step i add up to. */
  function Dropped(i: nat): nat {
    if i <= 10 then i else 9 + Pow2(i - 10)
  }

  lemma {:induction false} LocatorDrops(height: nat, i: nat)
    ensures var n := |LocatorHeights(height, i)|;
            n >= 2 ==> height > Dropped(i + n - 2) - Dropped(i)
    decreases height
  {
    if height > 0 {
      var next := StepBack(height, i);
      LocatorDrops(next, i + 1);
      assert Dropped(i + 1) == Dropped(i) + StepSize(i) by { StepSum(i); }
      var n := |LocatorHeights(next, i + 1)|;
      if next > 0 {
        LocatorFalls(next, i + 1);
        assert n >= 2;
        assert i + 1 + n - 2 == i + (n + 1) - 2;
      } else {
        assert n == 1;
      }
    }
  }

  lemma StepSum(i: nat)
    ensures Dropped(i + 1) == Dropped(i) + StepSize(i)
  {
    assert Pow2(0) == 1 && Pow2(1) == 2;
  }

  /** Ten blocks below the tip the steps begin to double: entry k lies k below the tip at
      first, and then 9 + 2^(k - 10), but never below the genesis block. */
  lemma LocatorAt(height: nat, k: nat)
    ensures k < |LocatorHeights(height, 0)| ==>
              var back := if k <= 10 then k else 9 + Pow2(k - 10);
              LocatorHeights(height, 0)[k] == if back < height then height - back else 0
  {
    LocatorEntry(height, 0, k);
  }

  lemma {:induction false} LocatorEntry(height: nat, i: nat, k: nat)
    ensures k < |LocatorHeights(height, i)| ==>
              var back := Dropped(i + k) - Dropped(i);
              LocatorHeights(height, i)[k] == if back < height then height - back else 0
    decreases height
  {
    if height > 0 && k > 0 {
      LocatorEntry(StepBack(height, i), i + 1, k - 1);
      StepSum(i);
      DroppedGrows(i + 1, i + k);
    }
  }

  lemma {:induction false} DroppedGrows(i: nat, j: nat)
    requires i <= j
    ensures Dropped(i) <= Dropped(j)
    decreases j - i
  {
    if i < j {
      StepSum(i);
      DroppedGrows(i + 1, j);
    }
  }

  /** A locator grows only with the logarithm of the height. */
  lemma LocatorIsShort(height: nat)
    ensures var n := |LocatorHeights(height, 0)|;
            n > 12 ==> height > 9 + Pow2(n - 12)
  {
    LocatorDrops(height, 0);
  }

  method LocatorEntries(block: BlockIndex?) returns (have: seq<int>)
    requires block != null ==> block.SkipsOk()
    ensures block == null ==> have == []
    ensures block != null ==> |have| == |LocatorHeights(block.nHeight, 0)|
    ensures block != null ==>
              forall i | 0 <= i < |have| ::
                && LocatorHeights(block.nHeight, 0)[i] <= block.nHeight
                && have[i] == block.Ancestor(LocatorHeights(block.nHeight, 0)[i]).hash
  {
    hide LocatorHeights, Pow2;
    var step := 1;
    have := [];
    if block == null {
      return;
    }
    ghost var all, done := LocatorHeights(block.nHeight, 0), [];
    var index: BlockIndex := block;
    block.AncestorAt(block.nHeight);
    while true
      invariant index.nHeight <= block.nHeight && index == block.Ancestor(index.nHeight)
      invariant step == StepSize(|have|) && |done| == |have|
      invariant all == done + LocatorHeights(index.nHeight, |have|)
      invariant forall i | 0 <= i < |have| :: done[i] <= block.nHeight && have[i] == block.Ancestor(done[i]).hash
      decreases index.nHeight
    {
      LocatorUnfold(all, done, index.nHeight);
      done := done + [index.nHeight];
      have := have + [index.hash];
      if index.nHeight == 0 {
        break;
      }
      var height := if index.nHeight - step > 0 then index.nHeight - step else 0;
      block.SkipsBelow(index.nHeight);
      block.AncestorUnder(index.nHeight, height);
      block.AncestorAt(height);
      index := index.GetAncestor(height);
      StepDoubles(|have|);
      if |have| > 10 {
        step := step * 2;
      }
    }
  }

  lemma LocatorUnfold(all: seq<nat>, done: seq<nat>, height: nat)
    requires all == done + LocatorHeights(height, |done|)
    ensures height == 0 ==> all == done + [height]
    ensures height > 0 ==>
              all == done + [height] + LocatorHeights(StepBack(height, |done|), |done| + 1)
  {
  }

  lemma StepDoubles(i: nat)
    requires i > 0
    ensures StepSize(i) == if i > 10 then 2 * StepSize(i - 1) else 1
    ensures i <= 10 ==> StepSize(i - 1) == 1
  {
    assert Pow2(0) == 1;
  }

  // ----- the active chain -----

  /** The blocks from the genesis block to b. */
  ghost function Path(b: BlockIndex): (r: seq<BlockIndex?>)
    requires b.Linked()
    ensures |r| == b.nHeight + 1
    ensures forall i | 0 <= i <= b.nHeight :: r[i] == b.Ancestor(i)
  {
    seq(b.nHeight + 1, i requires 0 <= i <= b.nHeight => b.Ancestor(i))
  }

  /** Paths agree below any block they share. */
  lemma PathsMeet(a: BlockIndex, b: BlockIndex, h: nat)
    requires a.Linked() && b.Linked() && h <= a.nHeight && h <= b.nHeight && a.Ancestor(h) == b.Ancestor(h)
    ensures forall i | 0 <= i <= h :: Path(a)[i] == Path(b)[i]
  {
    forall i | 0 <= i <= h
      ensures a.Ancestor(i) == b.Ancestor(i)
    {
      a.AncestorUnder(h, i);
      b.AncestorUnder(h, i);
    }
  }

  class CChain {

    var vChain: seq<BlockIndex?>

    /** Entry i is the tip's ancestor at height i. */
    ghost predicate Valid()
      reads this
    {
      vChain == [] || Ends(vChain)
    }

    static ghost predicate Ends(chain: seq<BlockIndex?>)
      requires chain != []
    {
      var tip := chain[|chain| - 1];
      tip != null && tip.Linked() && chain == Path(tip)
    }

    constructor ()
      ensures Valid() && vChain == []
    {
      vChain := [];
    }

    function Height(): (r: int)
      reads this
      ensures Valid() && vChain != [] ==> Tip() != null && r == Tip().nHeight
      ensures r == -1 <==> vChain == []
    {
      |vChain| - 1
    }

    function Tip(): BlockIndex?
      reads this
    {
      if |vChain| > 0 then vChain[|vChain| - 1] else null
    }

    function Genesis(): (r: BlockIndex?)
      reads this
      ensures Valid() && vChain != [] ==> Tip() != null && r == Tip().Ancestor(0)
    {
      if |vChain| > 0 then vChain[0] else null
    }

    /** The block of the chain at a height, or null where the chain has none. */
    function At(height: int): (r: BlockIndex?)
      reads this
      ensures Valid() && 0 <= height <= Height() ==> r != null && r.Linked() && r.nHeight == height && r.IsUnder(Tip())
      ensures !(0 <= height <= Height()) ==> r == null
    {
      if height < 0 || height >= |vChain| then null
      else
        assert Valid() ==> OnPath(vChain, height) by { if Valid() { Tip().AncestorAt(height); } }
        vChain[height]
    }

    static ghost predicate OnPath(chain: seq<BlockIndex?>, height: nat)
      requires height < |chain|
    {
      var tip := chain[|chain| - 1];
      chain[height] != null && chain[height].Linked() && chain[height].nHeight == height && tip != null
          && chain[height].IsUnder(tip)
    }

    /** A block is in the chain exactly when it is the tip or one of its ancestors. */
    function Contains(b: BlockIndex): (r: bool)
      requires b.Linked()
      reads this
      ensures Valid() ==> r == (vChain != [] && b.IsUnder(Tip()))
    {
      assert Valid() && vChain != [] ==> b.IsUnder(Tip()) == (At(b.nHeight) == b);
      At(b.nHeight) == b
    }

    /** The block's successor in the chain. */
    function Next(b: BlockIndex): (r: BlockIndex?)
      requires b.Linked()
      reads this
      ensures Valid() && r != null ==> Contains(b) && r.Linked() && Contains(r) && r.pprev == b
      ensures Valid() && r == null ==> !Contains(b) || b == Tip()
    {
      if Contains(b) then
        var r := At(b.nHeight + 1);
        assert Valid() && r != null ==> r.pprev == b by {
          if Valid() && r != null {
            Tip().AncestorUnder(b.nHeight + 1, b.nHeight);
            r.ParentLinked();
          }
        }
        r
      else null
    }

    /** Makes b the tip. The walk back stops at the first block that is in place already:
        below it the old chain is right. */
    method SetTip(b: BlockIndex)
      requires Valid() && b.Linked()
      modifies this
      ensures Valid() && vChain == Path(b) && Tip() == b
    {
      var pindex: BlockIndex? := b;
      Resize(b.nHeight + 1);
      ghost var resized := vChain;
      b.AncestorAt(b.nHeight);
      ghost var height: int := b.nHeight;
      while pindex != null && vChain[pindex.nHeight] != pindex
        invariant -1 <= height <= b.nHeight && |vChain| == b.nHeight + 1
        invariant height >= 0 ==> pindex == b.Ancestor(height) && pindex.nHeight == height
        invariant height == -1 ==> pindex == null
        invariant forall i | 0 <= i <= height :: vChain[i] == resized[i]
        invariant forall i | height < i <= b.nHeight :: vChain[i] == b.Ancestor(i)
        decreases height
      {
        b.AncestorAt(height);
        vChain := vChain[pindex.nHeight := pindex];
        if height > 0 {
          pindex.ParentLinked();
          b.AncestorUnder(height, height - 1);
          b.AncestorAt(height - 1);
        }
        pindex := pindex.pprev;
        height := height - 1;
      }
      if height >= 0 {
        PathsMeet(b, old(Tip()), height);
      }
      assert vChain == Path(b);
    }

    method Resize(n: nat)
      modifies this
      ensures |vChain| == n
      ensures forall i | 0 <= i < n :: vChain[i] == if i < |old(vChain)| then old(vChain)[i] else null
    {
      if n <= |vChain| {
        vChain := vChain[..n];
      } else {
        vChain := vChain + seq(n - |vChain|, _ => null);
      }
    }

    /** The highest block of the chain that `block` descends from, or is. */
    method FindFork(block: BlockIndex?) returns (r: BlockIndex?)
      requires Valid() && (block != null ==> block.SkipsOk())
      ensures block == null || vChain == [] ==> r == null
      ensures block != null && vChain != [] ==> HighestCommon(r, block, Tip())
    {
      if block == null {
        return null;
      }
      var pindex: BlockIndex? := block;
      if pindex.nHeight > Height() {
        pindex := pindex.GetAncestor(Height());
      }
      ghost var height: int := if block.nHeight > Height() then Height() else block.nHeight;
      if height >= 0 {
        block.AncestorAt(height);
      }
      while pindex != null && !Contains(pindex)
        invariant -1 <= height <= block.nHeight && height <= Height()
        invariant height >= 0 ==> pindex == block.Ancestor(height) && pindex.Linked() && pindex.nHeight == height
        invariant height == -1 ==> pindex == null
        invariant forall h: nat | height < h <= block.nHeight && h <= Height() :: block.Ancestor(h) != Tip().Ancestor(h)
        decreases height
      {
        if height > 0 {
          pindex.ParentLinked();
          block.AncestorUnder(height, height - 1);
          block.AncestorAt(height - 1);
        }
        pindex := pindex.pprev;
        height := height - 1;
      }
      return pindex;
    }
  }
}
