/** The stack of coin caches over a coin database (src/coins.h, src/coins.cpp,
    src/txdb.cpp). */
module Coins {
  import opened Collections
  import opened CoinEntries

  /** The coin database at the bottom of a stack. It may hold spent coins. */
  class CoinsViewDB {
    var coins: map<OutPoint, Coin>
    var bestBlock: nat

    constructor (coins: map<OutPoint, Coin>, bestBlock: nat)
      ensures this.coins == coins && this.bestBlock == bestBlock
    {
      this.coins, this.bestBlock := coins, bestBlock;
    }

    method GetCoin(op: OutPoint) returns (r: Option<Coin>)
      ensures r == Find(coins, op)
    {
      r := if op in coins then Some(coins[op]) else None;
    }

    /** Writes the dirty entries of a cache, spent ones as erasures, and the best block,
        unless the device fails. */
    method BatchWrite(child: CoinsViewCache, willErase: bool, hashBlockIn: nat, writable: bool) returns (ok: bool)
      requires child.ListOk() && DataOk(Unspent(coins), Data(child.cacheCoins))
      requires hashBlockIn != 0
      modifies this, child`cacheCoins, child`sentinel, child`flagged
      ensures ok == writable
      ensures ok ==>
                && Unspent(coins) == Overlay(old(Unspent(coins)), old(Data(child.cacheCoins)))
                && bestBlock == hashBlockIn
      ensures !ok ==> coins == old(coins) && bestBlock == old(bestBlock)
      ensures child.ListOk()
      ensures willErase ==> Data(child.cacheCoins) == old(Data(child.cacheCoins)) && child.flagged == old(child.flagged)
      ensures !willErase ==>
                child.flagged == [] && Data(child.cacheCoins) == Synced(old(Data(child.cacheCoins)), old(child.flagged))
    {
      hide Circle, Data, DataOk, Overlay, CursorAt, Written, Synced, Unspent, Passed;
      ghost var d0, list0, coins0 := Data(child.cacheCoins), child.flagged, coins;
      child.ListFacts();
      CursorStart(willErase, d0, list0);
      WrittenStart(coins0, d0, list0);
      var batch := coins;
      ghost var k := 0;
      var it := child.Begin();
      while it != Sentinel
        invariant coins == coins0 && bestBlock == old(bestBlock) && 0 <= k <= |list0| && it == RefAt(list0, k)
        invariant willErase ==> Data(child.cacheCoins) == d0 && child.flagged == list0
        invariant child.ListOk() && CursorAt(willErase, d0, list0, k, Data(child.cacheCoins), child.flagged)
        invariant Written(coins0, d0, list0[..k], batch)
        decreases |list0| - k
      {
        var op := it.key;
        CursorHere(willErase, d0, list0, k, Data(child.cacheCoins), child.flagged);
        DataKeys(child.cacheCoins);
        var e := child.cacheCoins[op];
        ghost var batch0 := batch;
        if e.dirty {
          if e.coin.IsSpent() {
            batch := batch - {op};
          } else {
            batch := batch[op := e.coin];
          }
        }
        WrittenStep(coins0, d0, list0, k, batch0, batch);
        ghost var d, list := Data(child.cacheCoins), child.flagged;
        it := child.NextAndMaybeErase(op, willErase);
        ghost var i :| 0 <= i < |list| && list[i] == op && it == RefAt(list, i + 1);
        CursorNext(willErase, d0, list0, k, d, list, i);
        CursorStep(willErase, d0, list0, k, d, list, Data(child.cacheCoins), child.flagged);
        k := k + 1;
      }
      assert list0[..k] == list0;
      CursorEnd(willErase, d0, list0, Data(child.cacheCoins), child.flagged);
      ok := writable;
      if ok {
        WrittenSound(coins0, d0, list0, batch);
        coins, bestBlock := batch, hashBlockIn;
      }
    }
  }

  lemma DataKeys(m: map<OutPoint, Entry>)
    ensures forall op :: op in Data(m) <==> op in m
    ensures forall op | op in m :: Data(m)[op] == Datum(m[op].coin, m[op].dirty, m[op].isFresh)
  {
  }

  /** A cache of coins over another cache or, at the bottom, over the database. */
  class CoinsViewCache {
    const base: CoinsViewCache?
    const db: CoinsViewDB
    /** The number of caches below this one. */
    ghost const depth: nat
    /** The block this cache is at; 0 if not known yet. */
    var hashBlock: nat
    /** The start of the circular list of flagged entries. */
    var sentinel: Entry
    var cacheCoins: map<OutPoint, Entry>
    ghost var flagged: seq<OutPoint>

    /** The caches below this one and the database. */
    ghost const below: set<object>

    ghost predicate HasBase() {
      base != null && base.depth + 1 == depth && base in below && base.below <= below && base.db == db
    }

    /** This cache, those below it and the database. */
    ghost function Stack(): set<object> {
      {this} + below
    }

    /** What each level shows, from this one down to the database. */
    ghost function Views(): (r: seq<map<OutPoint, Coin>>)
      reads this, below
      ensures r != []
      decreases depth, 1
    {
      [Overlay(BaseViews()[0], Data(cacheCoins))] + BaseViews()
    }

    ghost function BaseViews(): (r: seq<map<OutPoint, Coin>>)
      reads below
      ensures r != []
      decreases depth, 0
    {
      if HasBase() then base.Views() else if db in below then [Unspent(db.coins)] else [map[]]
    }

    /** The unspent coins seen through this cache. */
    ghost function View(): map<OutPoint, Coin>
      reads this, below
    {
      Views()[0]
    }

    ghost function BaseView(): map<OutPoint, Coin>
      reads below
    {
      BaseViews()[0]
    }

    /** The best block seen through this cache. */
    ghost function BestBlock(): nat
      reads this, below
      decreases depth, 1
    {
      if hashBlock != 0 then hashBlock else BaseBestBlock()
    }

    ghost function BaseBestBlock(): nat
      reads below
      decreases depth, 0
    {
      if HasBase() then base.BestBlock() else if db in below then db.bestBlock else 0
    }

    /** The flagged entries are exactly the nodes of one circular list. */
    ghost predicate ListOk()
      reads this
    {
      Circle(sentinel, cacheCoins, flagged)
    }

    /** Every entry is in an allowed state and sound over what the base shows. */
    ghost predicate EntriesOk()
      reads this, below
    {
      DataOk(BaseView(), Data(cacheCoins))
    }

    ghost predicate BaseOk()
      reads below
      decreases depth, 0
    {
      && this !in below && db in below
      && (if base == null then depth == 0 else HasBase() && base.Valid())
    }

    ghost predicate Valid()
      reads this, below
      decreases depth, 1
    {
      BaseOk() && ListOk() && EntriesOk()
    }

    constructor (base: CoinsViewCache?, db: CoinsViewDB)
      requires base != null ==> base.Valid() && base.db == db
      ensures this.base == base && this.db == db
      ensures below == if base == null then {db} else {base} + base.below
      ensures Valid() && View() == BaseView() && hashBlock == 0 && cacheCoins == map[]
      ensures base == null ==> forall op :: op in View() <==> op in db.coins && db.coins[op].value != -1
    {
      this.base, this.db := base, db;
      depth := if base == null then 0 else base.depth + 1;
      below := if base == null then {db} else {base} + base.below;
      hashBlock := 0;
      sentinel := Entry(NO_COIN, Sentinel, Sentinel, true, false);
      cacheCoins := map[];
      flagged := [];
      new;
      assert Overlay(BaseView(), map[]) == BaseView() by {
        BaseUnspent();
        EmptyOverlay(BaseView());
      }
      assert Data(cacheCoins) == map[];
    }

    lemma BaseUnspent()
      ensures AllUnspent(BaseView())
      decreases depth, 0
    {
      if HasBase() {
        base.ViewUnspent();
      }
    }

    lemma ViewUnspent()
      ensures AllUnspent(View())
      decreases depth, 1
    {
      BaseUnspent();
    }

    // ----- the list of flagged entries -----

    /** Sets the next pointer of the node r points to. */
    method SetNext(r: Ref, to: Ref)
      requires r == Sentinel || (r.At? && r.key in cacheCoins)
      modifies this`sentinel, this`cacheCoins
      ensures sentinel == if r == Sentinel then old(sentinel).(next := to) else old(sentinel)
      ensures cacheCoins == WithNext(old(cacheCoins), r, to)
    {
      if r == Sentinel {
        sentinel := sentinel.(next := to);
      } else {
        cacheCoins := cacheCoins[r.key := cacheCoins[r.key].(next := to)];
      }
    }

    /** Sets the previous pointer of the node r points to. */
    method SetPrev(r: Ref, to: Ref)
      requires r == Sentinel || (r.At? && r.key in cacheCoins)
      modifies this`sentinel, this`cacheCoins
      ensures sentinel == if r == Sentinel then old(sentinel).(prev := to) else old(sentinel)
      ensures cacheCoins == WithPrev(old(cacheCoins), r, to)
    {
      if r == Sentinel {
        sentinel := sentinel.(prev := to);
      } else {
        cacheCoins := cacheCoins[r.key := cacheCoins[r.key].(prev := to)];
      }
    }

    /** Flags an entry, appending it to the list if it had no flag. */
    method AddFlags(op: OutPoint, dirty: bool, isFresh: bool)
      requires ListOk() && op in cacheCoins && (dirty || isFresh)
      modifies this`sentinel, this`cacheCoins, this`flagged
      ensures ListOk()
      ensures var e := old(cacheCoins[op]);
              Data(cacheCoins) == old(Data(cacheCoins))[op := Datum(e.coin, e.dirty || dirty, e.isFresh || isFresh)]
      ensures flagged == if old(cacheCoins[op]).Flagged() then old(flagged) else old(flagged) + [op]
    {
      hide Data, NodeOk, EntryOk, Distinct;
      ghost var s, m, e := sentinel, cacheCoins, cacheCoins[op];
      NotListed(s, m, flagged, op);
      if !cacheCoins[op].Flagged() {
        assert EntryOk(m, flagged, op);
        cacheCoins := cacheCoins[op := cacheCoins[op].(prev := sentinel.prev, next := Sentinel)];
        sentinel := sentinel.(prev := At(op));
        SetNext(cacheCoins[op].prev, At(op));
        cacheCoins := cacheCoins[op := cacheCoins[op].(dirty := dirty, isFresh := isFresh)];
        assert cacheCoins == WithNext(m, s.prev, At(op))[op := Entry(e.coin, s.prev, Sentinel, dirty, isFresh)];
        Appended(s, m, flagged, op, dirty, isFresh, sentinel, cacheCoins);
        flagged := flagged + [op];
      } else {
        var now := cacheCoins[op];
        now := now.(dirty := now.dirty || dirty, isFresh := now.isFresh || isFresh);
        cacheCoins := cacheCoins[op := now];
        SameLinks(s, m, flagged, op, now);
      }
    }

    /** Clears the flags of an entry and takes it out of the list. */
    method SetClean(op: OutPoint) returns (ghost i: nat)
      requires ListOk() && op in cacheCoins
      modifies this`sentinel, this`cacheCoins, this`flagged
      ensures ListOk()
      ensures Data(cacheCoins) == old(Data(cacheCoins))[op := Datum(old(cacheCoins[op].coin), false, false)]
      ensures if old(cacheCoins[op]).Flagged()
              then i < |old(flagged)| && old(flagged)[i] == op && flagged == Dropped(old(flagged), i)
              else flagged == old(flagged)
    {
      hide Data, NodeOk, EntryOk, Distinct, Dropped;
      i := 0;
      ghost var s, m, e := sentinel, cacheCoins, cacheCoins[op];
      NotListed(s, m, flagged, op);
      if !cacheCoins[op].Flagged() {
        CleanData(m, op);
        return;
      }
      i :| 0 <= i < |flagged| && flagged[i] == op;
      Unlinked(s, m, flagged, i);
      Neighbours(s, m, flagged, i);
      SetPrev(cacheCoins[op].next, cacheCoins[op].prev);
      SetNext(cacheCoins[op].prev, cacheCoins[op].next);
      cacheCoins := cacheCoins[op := Entry(cacheCoins[op].coin, Nil, Nil, false, false)];
      assert cacheCoins == Unlink(m, op);
      assert sentinel == UnlinkEnds(s, e);
      flagged := Dropped(flagged, i);
    }

    lemma CleanData(m: map<OutPoint, Entry>, op: OutPoint)
      requires op in m && !m[op].Flagged()
      ensures Data(m) == Data(m)[op := Datum(m[op].coin, false, false)]
    {
    }

    lemma Neighbours(s: Entry, m: map<OutPoint, Entry>, list: seq<OutPoint>, i: nat)
      requires Circle(s, m, list) && i < |list|
      ensures list[i] in m
      ensures var e := m[list[i]];
              && (e.prev == Sentinel || (e.prev.At? && e.prev.key in m && e.prev.key != list[i]))
              && (e.next == Sentinel || (e.next.At? && e.next.key in m && e.next.key != list[i]))
    {
      assert NodeOk(m, list, i);
      assert i > 0 ==> NodeOk(m, list, i - 1);
      assert i + 1 < |list| ==> NodeOk(m, list, i + 1);
    }

    /** Removes an entry, unlinking it first. */
    method Erase(op: OutPoint) returns (ghost i: nat)
      requires ListOk() && op in cacheCoins
      modifies this`sentinel, this`cacheCoins, this`flagged
      ensures ListOk()
      ensures Data(cacheCoins) == Without(old(Data(cacheCoins)), op)
      ensures if old(cacheCoins[op]).Flagged()
              then i < |old(flagged)| && old(flagged)[i] == op && flagged == Dropped(old(flagged), i)
              else flagged == old(flagged)
    {
      hide NodeOk, EntryOk, Distinct, Dropped, Circle;
      i := SetClean(op);
      assert op in Data(cacheCoins);
      OffList(sentinel, cacheCoins, flagged, op);
      ghost var m := cacheCoins;
      cacheCoins := cacheCoins - {op};
      assert cacheCoins == Without(m, op);
    }

    /** Replaces the coin of an entry. */
    method SetCoin(op: OutPoint, coin: Coin)
      requires ListOk() && op in cacheCoins
      modifies this`cacheCoins
      ensures ListOk() && op in cacheCoins
      ensures Data(cacheCoins) == old(Data(cacheCoins))[op := old(Data(cacheCoins))[op].(coin := coin)]
    {
      hide NodeOk, EntryOk, Distinct, Circle;
      SameLinks(sentinel, cacheCoins, flagged, op, cacheCoins[op].(coin := coin));
      cacheCoins := cacheCoins[op := cacheCoins[op].(coin := coin)];
    }

    /** Adds an empty entry. */
    method Emplace(op: OutPoint)
      requires ListOk() && op !in cacheCoins
      modifies this`cacheCoins
      ensures ListOk() && op in cacheCoins && !cacheCoins[op].Flagged()
      ensures Data(cacheCoins) == old(Data(cacheCoins))[op := Datum(NO_COIN, false, false)]
    {
      hide NodeOk, EntryOk, Distinct, Circle, Data;
      OffList(sentinel, cacheCoins, flagged, op);
      cacheCoins := cacheCoins[op := NEW_ENTRY];
    }

    // ----- lookups -----

    /** What a level below answers: a database may answer with a spent coin. */
    ghost predicate Answers(r: Option<Coin>, op: OutPoint)
      reads below
    {
      Find(BaseView(), op) == match r case None => None case Some(c) => if c.IsSpent() then None else Some(c)
    }

    /** Whether the level below answers with a coin, spent or not; only a database
        answers with a spent one. */
    ghost predicate Answered(op: OutPoint)
      reads below
    {
      if base == null && db in below then op in db.coins else op in BaseView()
    }

    method BaseGetCoin(op: OutPoint) returns (r: Option<Coin>)
      requires BaseOk()
      modifies below
      ensures r.Some? <==> old(Answered(op))
      ensures BaseOk() && BaseViews() == old(BaseViews()) && BaseBestBlock() == old(BaseBestBlock())
      ensures Answers(r, op)
      decreases depth, 0
    {
      if base != null {
        r := base.GetCoin(op);
        base.ViewUnspent();
      } else {
        r := db.GetCoin(op);
      }
    }

    /** As long as nothing below changes, everything below shows the same. */
    twostate lemma BaseUnchanged()
      requires old(BaseOk()) && unchanged(below)
      ensures BaseOk() && BaseViews() == old(BaseViews()) && BaseBestBlock() == old(BaseBestBlock())
    {
    }

    /** Asks below for an outpoint this cache has no entry for, and enters the answer. */
    method FetchMissing(op: OutPoint) returns (coin: Option<Coin>)
      requires Valid() && op !in cacheCoins
      modifies this`cacheCoins, this`sentinel, this`flagged, below
      ensures BaseOk() && BaseViews() == old(BaseViews()) && BaseBestBlock() == old(BaseBestBlock())
      ensures ListOk() && Answers(coin, op) && (coin.Some? <==> old(Answered(op)))
      ensures flagged == old(flagged) + if coin.Some? && coin.value.IsSpent() then [op] else []
      ensures Data(cacheCoins) ==
              match coin
              case None => old(Data(cacheCoins))
              case Some(c) => old(Data(cacheCoins))[op := Datum(c, false, c.IsSpent())]
      decreases depth, 1
    {
      hide Circle, Overlay, Data, DataOk, Find;
      DataKeys(cacheCoins);
      ghost var d := Data(cacheCoins);
      label Before:
      Emplace(op);
      BaseUnchanged@Before();
      coin := BaseGetCoin(op);
      assert Answers(coin, op);
      label Asked:
      match coin {
        case Some(c) =>
          SetCoin(op, c);
          SetTwice(d, op, Datum(NO_COIN, false, false), Datum(c, false, false));
          DataKeys(cacheCoins);
          if c.IsSpent() {
            AddFlags(op, false, true);
            SetTwice(d, op, Datum(c, false, false), Datum(c, false, true));
          }
        case None =>
          ghost var i := Erase(op);
          EraseNew(d, op);
      }
      BaseUnchanged@Asked();
    }

    lemma SetTwice(d: map<OutPoint, Datum>, op: OutPoint, e1: Datum, e2: Datum)
      ensures d[op := e1][op := e2] == d[op := e2]
    {
    }

    lemma EraseNew(d: map<OutPoint, Datum>, op: OutPoint)
      requires op !in d
      ensures Without(d[op := Datum(NO_COIN, false, false)], op) == d
    {
    }

    /** Brings the entry of an outpoint into this cache, if there is anything to bring. */
    method FetchCoin(op: OutPoint) returns (found: bool)
      requires Valid()
      modifies this`cacheCoins, this`sentinel, this`flagged, below
      ensures Valid() && Views() == old(Views()) && BestBlock() == old(BestBlock())
      ensures BaseViews() == old(BaseViews())
      ensures found <==> op in cacheCoins
      ensures found <==> op in old(cacheCoins) || old(Answered(op))
      ensures op in old(cacheCoins) || !found ==> Data(cacheCoins) == old(Data(cacheCoins)) && flagged == old(flagged)
      ensures found && op !in old(cacheCoins) ==>
                var c := cacheCoins[op].coin;
                && Data(cacheCoins) == old(Data(cacheCoins))[op := Datum(c, false, c.IsSpent())]
                && flagged == old(flagged) + if c.IsSpent() then [op] else []
      ensures Find(View(), op) == if found then Datum(cacheCoins[op].coin, false, false).Look() else None
      decreases depth, 2
    {
      hide Circle, Overlay, Data, DataOk, Find, Answers;
      ghost var b, d := BaseView(), Data(cacheCoins);
      DataKeys(cacheCoins);
      if op !in cacheCoins {
        var coin := FetchMissing(op);
        AnswerSound(coin, op, d);
      }
      DataKeys(cacheCoins);
      found := op in cacheCoins;
      OverlayFind(b, Data(cacheCoins), op);
    }

    /** Entering an answer from below changes nothing that is seen. */
    lemma AnswerSound(r: Option<Coin>, op: OutPoint, d: map<OutPoint, Datum>)
      requires Answers(r, op) && op !in d && DataOk(BaseView(), d)
      ensures r == None ==> Find(Overlay(BaseView(), d), op) == None && Find(BaseView(), op) == None
      ensures r.Some? ==> var d2 := d[op := Datum(r.value, false, r.value.IsSpent())];
                          DataOk(BaseView(), d2) && Overlay(BaseView(), d2) == Overlay(BaseView(), d)
    {
      hide Overlay, DataOk, Find;
      OverlayFind(BaseView(), d, op);
      if r.Some? {
        Fetched(BaseView(), d, op, r.value);
      }
    }

    lemma Fetched(b: map<OutPoint, Coin>, d: map<OutPoint, Datum>, op: OutPoint, c: Coin)
      requires DataOk(b, d) && op !in d && Find(b, op) == if c.IsSpent() then None else Some(c)
      ensures var d2 := d[op := Datum(c, false, c.IsSpent())];
              DataOk(b, d2) && Overlay(b, d2) == Overlay(b, d)
    {
      var d2 := d[op := Datum(c, false, c.IsSpent())];
      forall k
        ensures Find(Overlay(b, d2), k) == Find(Overlay(b, d), k)
      {
        OverlayFind(b, d2, k);
        OverlayFind(b, d, k);
      }
      SameFinds(Overlay(b, d2), Overlay(b, d));
    }

    /** The unspent coin of an outpoint, if there is one. Looking changes no view. */
    method GetCoin(op: OutPoint) returns (r: Option<Coin>)
      requires Valid()
      modifies this, below
      ensures Valid() && Views() == old(Views()) && BestBlock() == old(BestBlock())
      ensures r == Find(View(), op)
      decreases depth, 3
    {
      var found := FetchCoin(op);
      r := if found && !cacheCoins[op].coin.IsSpent() then Some(cacheCoins[op].coin) else None;
    }

    method HaveCoin(op: OutPoint) returns (r: bool)
      requires Valid()
      modifies this, below
      ensures Valid() && Views() == old(Views()) && BestBlock() == old(BestBlock())
      ensures r <==> op in View()
    {
      var found := FetchCoin(op);
      r := found && !cacheCoins[op].coin.IsSpent();
    }

    /** The coin of an outpoint, or the empty coin. */
    method AccessCoin(op: OutPoint) returns (r: Coin)
      requires Valid()
      modifies this, below
      ensures Valid() && Views() == old(Views()) && BestBlock() == old(BestBlock())
      ensures op in View() ==> r == View()[op]
      ensures op !in View() ==> r.value == -1
    {
      var found := FetchCoin(op);
      r := if found then cacheCoins[op].coin else NO_COIN;
    }

    /** Whether this cache alone knows the coin to be unspent. */
    method HaveCoinInCache(op: OutPoint) returns (r: bool)
      requires Valid()
      ensures r <==> op in cacheCoins && op in View()
    {
      OverlayFind(BaseView(), Data(cacheCoins), op);
      r := op in cacheCoins && !cacheCoins[op].coin.IsSpent();
    }

    method GetBestBlock() returns (r: nat)
      requires Valid()
      modifies this, below
      ensures Valid() && Views() == old(Views()) && BestBlock() == old(BestBlock())
      ensures r == BestBlock() == hashBlock && BaseBestBlock() == old(BaseBestBlock())
      ensures old(hashBlock) != 0 ==> hashBlock == old(hashBlock)
      decreases depth, 2
    {
      if hashBlock == 0 {
        var h;
        if base != null {
          h := base.GetBestBlock();
        } else {
          h := db.bestBlock;
        }
        hashBlock := h;
      }
      r := hashBlock;
    }

    method SetBestBlock(hash: nat)
      requires Valid()
      modifies this`hashBlock
      ensures Valid() && Views() == old(Views())
      ensures hashBlock == hash && (hash != 0 ==> BestBlock() == hash)
    {
      hashBlock := hash;
    }

    // ----- changes -----

    /** Adds a coin. Callers that deny the possibility of overwriting must know that there
        is no unspent coin at op: otherwise the call either throws, or leaves an entry
        marked fresh over an unspent coin of the base. */
    method AddCoin(op: OutPoint, coin: Coin, possibleOverwrite: bool) returns (threw: bool)
      requires Valid() && !coin.IsSpent()
      modifies this`cacheCoins, this`sentinel, this`flagged
      ensures ListOk() && BaseOk() && BaseViews() == old(BaseViews()) && BestBlock() == old(BestBlock())
      ensures threw <==>
              && !coin.IsUnspendable() && !possibleOverwrite
              && op in old(cacheCoins) && !old(cacheCoins[op]).coin.IsSpent()
      ensures threw || coin.IsUnspendable() ==> Views() == old(Views()) && Data(cacheCoins) == old(Data(cacheCoins))
      ensures !threw && !coin.IsUnspendable() ==> View() == old(View())[op := coin]
      ensures !threw && !coin.IsUnspendable() ==>
                var d := old(Data(cacheCoins));
                Data(cacheCoins) == d[op := AddedDatum(d, op, coin, possibleOverwrite)]
      ensures (|coin.script| > 0 && coin.script[0] == 0x6a) || |coin.script| > 10000 ==> Views() == old(Views())
      ensures !(|coin.script| > 0 && coin.script[0] == 0x6a) && |coin.script| <= 10000 ==>
                threw || Find(View(), op) == Some(coin)
      ensures Valid() <==> threw || coin.IsUnspendable() || possibleOverwrite || op !in old(View())
    {
      hide Circle, Overlay, Data, DataOk, BaseViews;
      threw := false;
      if coin.IsUnspendable() {
        return;
      }
      ghost var d := Data(cacheCoins);
      label Before:
      DataKeys(cacheCoins);
      OverlayFind(BaseView(), d, op);
      var inserted := op !in cacheCoins;
      if inserted {
        Emplace(op);
      }
      DataKeys(cacheCoins);
      var isFresh := false;
      if !possibleOverwrite {
        if !cacheCoins[op].coin.IsSpent() {
          threw := true;
          return;
        }
        isFresh := !cacheCoins[op].dirty;
      }
      ghost var e := cacheCoins[op];
      SetCoin(op, coin);
      DataKeys(cacheCoins);
      AddFlags(op, true, isFresh);
      AddedData(d, op, inserted, Data(cacheCoins), coin, e, isFresh);
      BaseUnchanged@Before();
      AddedSound(BaseView(), d, op, coin, possibleOverwrite);
    }

    lemma NotOverwritten(op: OutPoint)
      requires op !in View() && op in cacheCoins
      ensures cacheCoins[op].coin.IsSpent()
    {
      OverlayFind(BaseView(), Data(cacheCoins), op);
    }

    lemma AddedData(d: map<OutPoint, Datum>, op: OutPoint, inserted: bool, d2: map<OutPoint, Datum>, coin: Coin,
                    e: Entry, isFresh: bool)
      requires var d1 := if inserted then d[op := Datum(NO_COIN, false, false)] else d;
               && op in d1
               && d2 == d1[op := d1[op].(coin := coin)][op := Datum(coin, true, e.isFresh || isFresh)]
      ensures d2 == d[op := Datum(coin, true, e.isFresh || isFresh)]
    {
    }

    /** The entry an added coin gets, by what was there before. */
    ghost function AddedDatum(d: map<OutPoint, Datum>, op: OutPoint, coin: Coin, possibleOverwrite: bool): Datum {
      var was := if op in d then d[op] else Datum(NO_COIN, false, false);
      Datum(coin, true, was.isFresh || (!possibleOverwrite && !was.dirty))
    }

    lemma AddedSound(b: map<OutPoint, Coin>, d: map<OutPoint, Datum>, op: OutPoint, coin: Coin, possibleOverwrite: bool)
      requires DataOk(b, d) && !coin.IsSpent()
      requires op in d && !possibleOverwrite ==> d[op].coin.IsSpent()
      ensures var d2 := d[op := AddedDatum(d, op, coin, possibleOverwrite)];
              && Overlay(b, d2) == Overlay(b, d)[op := coin]
              && (DataOk(b, d2) <==> possibleOverwrite || op !in Overlay(b, d))
    {
      hide Overlay;
      var e := AddedDatum(d, op, coin, possibleOverwrite);
      OverlaySet(b, d, op, e);
      OverlayFind(b, d, op);
      assert op in d ==> DatumOk(d[op], Find(b, op));
      assert DataOk(b, d[op := e]) ==> DatumOk(d[op := e][op], Find(b, op));
    }

    /** Spends the coin at op, if there is one, and hands it out. The call also succeeds
        on an entry that is spent already, which changes nothing that is seen, and on a
        spent coin answered from below: where no unspent coin is seen it is without any
        effect exactly if neither is there. */
    method SpendCoin(op: OutPoint) returns (ok: bool, moveout: Coin)
      requires Valid()
      modifies this`cacheCoins, this`sentinel, this`flagged, below
      ensures Valid() && BaseViews() == old(BaseViews()) && BestBlock() == old(BestBlock())
      ensures View() == Without(old(View()), op)
      ensures op in old(View()) ==> ok && moveout == old(View())[op]
      ensures op !in old(View()) ==> moveout.IsSpent()
      ensures ok <==> op in old(cacheCoins) || old(Answered(op))
      ensures var wasFresh := if op in old(cacheCoins) then old(cacheCoins[op].isFresh) else op !in old(View());
              Data(cacheCoins) ==
              if !ok || wasFresh then Without(old(Data(cacheCoins)), op)
              else old(Data(cacheCoins))[op := Datum(NO_COIN, true, false)]
      ensures op !in old(View()) ==>
                (!ok && Data(cacheCoins) == old(Data(cacheCoins)) && flagged == old(flagged)
                 <==> op !in old(cacheCoins) && !old(Answered(op)))
    {
      hide Circle, Overlay, Data, DataOk, BaseViews, Answered;
      ghost var b, d0 := BaseView(), Data(cacheCoins);
      DataKeys(cacheCoins);
      moveout := NO_COIN;
      ok := FetchCoin(op);
      ghost var d := Data(cacheCoins);
      label Before:
      DataKeys(cacheCoins);
      EnteredAndGone(d0, op, d);
      OverlayFind(b, d, op);
      if !ok {
        WithoutNothing(View(), op);
        return;
      }
      moveout := cacheCoins[op].coin;
      if cacheCoins[op].isFresh {
        ghost var i := Erase(op);
        OverlayDrop(b, d, op);
      } else {
        AddFlags(op, true, false);
        DataKeys(cacheCoins);
        SetCoin(op, NO_COIN);
        SetTwice(d, op, Datum(moveout, true, false), Datum(NO_COIN, true, false));
        OverlaySet(b, d, op, Datum(NO_COIN, true, false));
      }
      BaseUnchanged@Before();
    }

    lemma EnteredAndGone(d0: map<OutPoint, Datum>, op: OutPoint, d: map<OutPoint, Datum>)
      requires d == d0 || (op in d && d == d0[op := d[op]])
      ensures Without(d, op) == Without(d0, op) && (op !in d0 ==> Without(d0, op) == d0)
      ensures d[op := Datum(NO_COIN, true, false)] == d0[op := Datum(NO_COIN, true, false)]
    {
    }

    lemma WithoutNothing(m: map<OutPoint, Coin>, op: OutPoint)
      requires op !in m
      ensures Without(m, op) == m
    {
    }

    /** Forgets an entry that is not modified. */
    method Uncache(op: OutPoint)
      requires Valid()
      modifies this`cacheCoins, this`sentinel, this`flagged
      ensures Valid() && Views() == old(Views()) && BestBlock() == old(BestBlock())
      ensures flagged == old(flagged)
      ensures Data(cacheCoins) ==
              if op in old(cacheCoins) && !old(cacheCoins[op]).Flagged() then Without(old(Data(cacheCoins)), op)
              else old(Data(cacheCoins))
    {
      hide Circle, Overlay, Data, DataOk, BaseViews;
      ghost var d := Data(cacheCoins);
      label Before:
      DataKeys(cacheCoins);
      if op in cacheCoins && !cacheCoins[op].dirty && !cacheCoins[op].isFresh {
        ghost var i := Erase(op);
        OverlayDrop(BaseView(), d, op);
        DataKeys(cacheCoins);
      }
      BaseUnchanged@Before();
    }

    /** Enters a coin as modified without looking at what is there, unless this cache
        already has an entry. */
    method EmplaceCoinInternalDANGER(op: OutPoint, coin: Coin)
      requires Valid()
      modifies this`cacheCoins, this`sentinel, this`flagged
      ensures Valid() && BaseViews() == old(BaseViews()) && BestBlock() == old(BestBlock())
      ensures View() ==
              if op in old(cacheCoins) then old(View())
              else if coin.IsSpent() then Without(old(View()), op)
              else old(View())[op := coin]
      ensures Data(cacheCoins) ==
              if op in old(cacheCoins) then old(Data(cacheCoins))
              else old(Data(cacheCoins))[op := Datum(coin, true, false)]
    {
      hide Circle, Overlay, Data, DataOk, BaseViews;
      ghost var d := Data(cacheCoins);
      label Before:
      DataKeys(cacheCoins);
      if op !in cacheCoins {
        Emplace(op);
        SetCoin(op, coin);
        DataKeys(cacheCoins);
        AddFlags(op, true, false);
        SetTwice(d, op, Datum(NO_COIN, false, false), Datum(coin, false, false));
        SetTwice(d, op, Datum(coin, false, false), Datum(coin, true, false));
        OverlaySet(BaseView(), d, op, Datum(coin, true, false));
      }
      BaseUnchanged@Before();
    }

    // ----- writing down -----

    lemma ListFacts()
      requires ListOk()
      ensures Distinct(flagged) && sentinel.next == RefAt(flagged, 0)
      ensures forall i | 0 <= i < |flagged| :: flagged[i] in Data(cacheCoins)
      ensures forall op | op in Data(cacheCoins) && (Data(cacheCoins)[op].dirty || Data(cacheCoins)[op].isFresh) ::
                op in flagged
    {
      forall i | 0 <= i < |flagged|
        ensures flagged[i] in Data(cacheCoins)
      {
        assert NodeOk(cacheCoins, flagged, i);
      }
      forall op | op in cacheCoins && cacheCoins[op].Flagged()
        ensures op in flagged
      {
        assert EntryOk(cacheCoins, flagged, op);
      }
    }

    /** The first flagged entry. */
    function Begin(): Ref
      reads this
    {
      sentinel.next
    }

    /** The entry after current. Unless everything is to be erased later, current is
        erased if it is spent and unflagged if not. */
    method NextAndMaybeErase(current: OutPoint, willErase: bool) returns (next: Ref)
      requires ListOk() && current in flagged
      modifies this`cacheCoins, this`sentinel, this`flagged
      ensures ListOk()
      ensures exists i :: 0 <= i < |old(flagged)| && old(flagged)[i] == current && next == RefAt(old(flagged), i + 1)
      ensures Passed(willErase, current, old(Data(cacheCoins)), old(flagged), Data(cacheCoins), flagged)
      ensures willErase ==> Data(cacheCoins) == old(Data(cacheCoins)) && flagged == old(flagged)
    {
      hide Data, Distinct, EntryOk, Circle, Dropped;
      ghost var i := CurrentNode(current);
      next := cacheCoins[current].next;
      DataKeys(cacheCoins);
      if !willErase {
        if cacheCoins[current].coin.IsSpent() {
          ghost var j := Erase(current);
        } else {
          ghost var j := SetClean(current);
        }
      }
    }

    lemma CurrentNode(current: OutPoint) returns (i: nat)
      requires ListOk() && current in flagged
      ensures i < |flagged| && flagged[i] == current && NodeOk(cacheCoins, flagged, i)
    {
      i :| 0 <= i < |flagged| && flagged[i] == current;
      assert NodeOk(cacheCoins, flagged, i);
    }

    /** Whether an entry is about to be erased, so that its coin may be moved out. */
    predicate WillErase(current: OutPoint, willErase: bool)
      requires current in cacheCoins
      reads this
    {
      willErase || cacheCoins[current].coin.IsSpent()
    }

    /** Writes one dirty entry of a child to this cache. */
    method WriteEntry(op: OutPoint, coin: Coin, isFresh: bool) returns (threw: bool, stored: bool)
      requires ListOk()
      modifies this`cacheCoins, this`sentinel, this`flagged
      ensures ListOk()
      ensures threw <==> isFresh && op in old(cacheCoins) && !old(cacheCoins[op]).coin.IsSpent()
      ensures threw ==> cacheCoins == old(cacheCoins) && flagged == old(flagged)
      ensures !threw ==>
                forall x :: Find(Data(cacheCoins), x) ==
                            if x == op then Merge(Find(old(Data(cacheCoins)), x), Datum(coin, true, isFresh))
                            else Find(old(Data(cacheCoins)), x)
    {
      hide Data, Circle;
      threw, stored := false, false;
      ghost var d := Data(cacheCoins);
      DataKeys(cacheCoins);
      if op !in cacheCoins {
        if !(isFresh && coin.IsSpent()) {
          Emplace(op);
          SetCoin(op, coin);
          DataKeys(cacheCoins);
          AddFlags(op, true, false);
          DataKeys(cacheCoins);
          if isFresh {
            AddFlags(op, false, true);
          }
          stored := true;
        }
      } else {
        if isFresh && !cacheCoins[op].coin.IsSpent() {
          threw := true;
          return;
        }
        if cacheCoins[op].isFresh && coin.IsSpent() {
          ghost var i := Erase(op);
        } else {
          SetCoin(op, coin);
          DataKeys(cacheCoins);
          AddFlags(op, true, false);
          stored := true;
        }
      }
    }

    /** Takes over the flagged entries of a child. The error for a fresh entry over an
        unspent coin cannot occur. */
    method BatchWrite(child: CoinsViewCache, willErase: bool, hashBlockIn: nat) returns (ok: bool)
      requires Valid() && child != this && child !in below
      requires child.ListOk() && DataOk(View(), Data(child.cacheCoins))
      modifies this`cacheCoins, this`sentinel, this`flagged, this`hashBlock
      modifies child`cacheCoins, child`sentinel, child`flagged
      ensures ok && Valid() && BaseViews() == old(BaseViews()) && BaseBestBlock() == old(BaseBestBlock())
      ensures hashBlock == hashBlockIn
      ensures View() == Overlay(old(View()), old(Data(child.cacheCoins)))
      ensures child.ListOk()
      ensures !willErase ==>
                child.flagged == [] && Data(child.cacheCoins) == Synced(old(Data(child.cacheCoins)), old(child.flagged))
    {
      hide Circle, Data, DataOk, Overlay, CursorAt, Merged, Synced, Passed, Merge, BaseViews, BaseBestBlock;
      ghost var b, p0 := BaseView(), Data(cacheCoins);
      ghost var d0, list0 := Data(child.cacheCoins), child.flagged;
      label Before:
      child.ListFacts();
      CursorStart(willErase, d0, list0);
      MergedStart(p0, d0, list0);
      ghost var k := 0;
      var it := child.Begin();
      while it != Sentinel
        invariant 0 <= k <= |list0| && it == RefAt(list0, k)
        invariant ListOk() && child.ListOk() && CursorAt(willErase, d0, list0, k, Data(child.cacheCoins), child.flagged)
        invariant Merged(p0, d0, list0[..k], Data(cacheCoins))
        decreases |list0| - k
      {
        it := BatchStep(child, it.key, willErase, b, p0, d0, list0, k);
        k := k + 1;
      }
      assert list0[..k] == list0;
      CursorEnd(willErase, d0, list0, Data(child.cacheCoins), child.flagged);
      MergedSound(b, p0, d0, list0, Data(cacheCoins));
      hashBlock := hashBlockIn;
      ok := true;
      BaseUnchanged@Before();
    }

    /** Passes the entry at the cursor, whose coin has been moved out if moved is set. */
    method Pass(current: OutPoint, willErase: bool, moved: bool) returns (next: Ref)
      requires ListOk() && current in flagged && current in cacheCoins
      requires moved ==> WillErase(current, willErase)
      modifies this`cacheCoins, this`sentinel, this`flagged
      ensures ListOk()
      ensures exists i :: 0 <= i < |old(flagged)| && old(flagged)[i] == current && next == RefAt(old(flagged), i + 1)
      ensures Passed(willErase, current, old(Data(cacheCoins)), old(flagged), Data(cacheCoins), flagged)
    {
      hide Data, Distinct, EntryOk, Circle, Dropped, Passed;
      ghost var d := Data(cacheCoins);
      DataKeys(cacheCoins);
      if moved {
        ghost var rest := cacheCoins[current].coin.MovedFrom();
        SetCoin(current, cacheCoins[current].coin.MovedFrom());
        next := NextAndMaybeErase(current, willErase);
        PassedMoved(willErase, current, d, old(flagged), rest, Data(cacheCoins), flagged);
      } else {
        next := NextAndMaybeErase(current, willErase);
      }
    }

    /** One round of BatchWrite, at entry k of the child's list. */
    method BatchStep(child: CoinsViewCache, op: OutPoint, willErase: bool, ghost b: map<OutPoint, Coin>,
                     ghost p0: map<OutPoint, Datum>, ghost d0: map<OutPoint, Datum>, ghost list0: seq<OutPoint>,
                     ghost k: nat) returns (next: Ref)
      requires child != this && ListOk() && child.ListOk()
      requires Distinct(list0) && k < |list0| && list0[k] == op && op in d0
      requires CursorAt(willErase, d0, list0, k, Data(child.cacheCoins), child.flagged)
      requires Merged(p0, d0, list0[..k], Data(cacheCoins))
      requires DataOk(b, p0) && DataOk(Overlay(b, p0), d0)
      modifies this`cacheCoins, this`sentinel, this`flagged
      modifies child`cacheCoins, child`sentinel, child`flagged
      ensures ListOk() && child.ListOk() && next == RefAt(list0, k + 1)
      ensures CursorAt(willErase, d0, list0, k + 1, Data(child.cacheCoins), child.flagged)
      ensures Merged(p0, d0, list0[..k + 1], Data(cacheCoins))
    {
      hide Circle, Data, DataOk, Overlay, CursorAt, Merged, Passed, Merge, Find, Distinct;
      ghost var d, list, p := Data(child.cacheCoins), child.flagged, Data(cacheCoins);
      CursorHere(willErase, d0, list0, k, d, list);
      NoClash(b, p0, d0, list0, k, p);
      DataKeys(cacheCoins);
      DataKeys(child.cacheCoins);
      MergeClean(p, d0, op);
      var e := child.cacheCoins[op];
      var moved := false;
      if e.dirty {
        var threw, stored := WriteEntry(op, e.coin, e.isFresh);
        assert !threw;
        moved := stored && child.WillErase(op, willErase);
      }
      MergedStep(p0, d0, list0, k, p, Data(cacheCoins));
      next := child.Pass(op, willErase, moved);
      ghost var i :| 0 <= i < |list| && list[i] == op && next == RefAt(list, i + 1);
      CursorNext(willErase, d0, list0, k, d, list, i);
      CursorStep(willErase, d0, list0, k, d, list, Data(child.cacheCoins), child.flagged);
    }

    lemma MergeClean(p: map<OutPoint, Datum>, d0: map<OutPoint, Datum>, op: OutPoint)
      requires op in d0
      ensures !d0[op].dirty ==> Merge(Find(p, op), d0[op]) == Find(p, op)
    {
    }

    /** Whether the best block seen is still seen once the base has this cache's own hash:
        not so if that is null and the base's own one is told from what is below it. */
    ghost predicate KeepsBestBlock()
      reads this, below
    {
      hashBlock != 0 || (HasBase() ==> base.hashBlock == 0 || base.hashBlock == base.BaseBestBlock())
    }

    /** Hands this cache's flagged entries to the level below. */
    method WriteToBase(willErase: bool, writable: bool) returns (ok: bool)
      requires Valid() && (base == null ==> hashBlock != 0)
      modifies this`cacheCoins, this`sentinel, this`flagged, below
      ensures ListOk() && hashBlock == old(hashBlock)
      ensures ok <==> base != null || writable
      ensures base != null ==> base.hashBlock == hashBlock && base.BaseBestBlock() == old(base.BaseBestBlock())
      ensures ok ==> (BestBlock() == old(BestBlock()) <==> old(KeepsBestBlock()))
      ensures ok ==> BaseOk() && BaseView() == old(View()) && BaseViews()[1..] == old(BaseViews()[1..])
      ensures ok && hashBlock != 0 ==> BaseBestBlock() == hashBlock
      ensures !ok ==> BaseOk() && BaseViews() == old(BaseViews()) && BaseBestBlock() == old(BaseBestBlock())
      ensures !ok && willErase ==> Data(cacheCoins) == old(Data(cacheCoins)) && flagged == old(flagged)
      ensures !willErase ==> flagged == [] && Data(cacheCoins) == Synced(old(Data(cacheCoins)), old(flagged))
    {
      hide Circle, Data, DataOk, Overlay, Synced, Unspent;
      if base != null {
        assert BestBlock() == if hashBlock != 0 then hashBlock else base.BestBlock();
        assert base.BestBlock() == if base.hashBlock != 0 then base.hashBlock else base.BaseBestBlock();
        ok := base.BatchWrite(this, willErase, hashBlock);
        assert BestBlock() == if hashBlock != 0 then hashBlock else base.BestBlock();
        assert base.BestBlock() == if base.hashBlock != 0 then base.hashBlock else base.BaseBestBlock();
      } else {
        ok := db.BatchWrite(this, willErase, hashBlock, writable);
      }
    }

    /** Erases all entries. */
    method ClearCache()
      requires ListOk()
      modifies this`cacheCoins, this`sentinel, this`flagged
      ensures ListOk() && cacheCoins == map[] && flagged == []
    {
      hide Circle, Data;
      while cacheCoins != map[]
        invariant ListOk()
        decreases |cacheCoins|
      {
        var op :| op in cacheCoins;
        ghost var before := cacheCoins;
        DataKeys(cacheCoins);
        ghost var i := Erase(op);
        DataKeys(cacheCoins);
        FewerKeys(before, cacheCoins, op);
      }
      ListedNeedEntries();
    }

    lemma ListedNeedEntries()
      requires ListOk()
      ensures flagged != [] ==> cacheCoins != map[]
    {
      if flagged != [] {
        assert NodeOk(cacheCoins, flagged, 0);
      }
    }

    lemma FewerKeys(a: map<OutPoint, Entry>, b: map<OutPoint, Entry>, op: OutPoint)
      requires op in a && Data(b) == Without(Data(a), op)
      ensures |b| < |a|
    {
      DataKeys(a);
      DataKeys(b);
      assert b.Keys == a.Keys - {op};
      assert |b.Keys| == |b| && |a.Keys| == |a|;
    }

    /** Pushes all changes to the base and empties this cache. The base then shows what
        this cache shows, and that is what it showed before. */
    method Flush(writable: bool) returns (ok: bool)
      requires Valid() && (base == null ==> hashBlock != 0)
      modifies this`cacheCoins, this`sentinel, this`flagged, below
      ensures hashBlock == old(hashBlock) && (ok <==> base != null || writable)
      ensures base != null ==> base.hashBlock == hashBlock && base.BaseBestBlock() == old(base.BaseBestBlock())
      ensures ok ==> (BestBlock() == old(BestBlock()) <==> old(KeepsBestBlock()))
      ensures ok ==> Valid() && View() == BaseView() == old(View()) && cacheCoins == map[]
      ensures ok ==> BaseViews()[1..] == old(BaseViews()[1..])
      ensures ok && hashBlock != 0 ==> BestBlock() == BaseBestBlock() == old(BestBlock())
      ensures !ok ==> Valid() && Views() == old(Views()) && Data(cacheCoins) == old(Data(cacheCoins))
    {
      hide Circle, Data, DataOk, Overlay, Synced, BaseViews, BaseBestBlock;
      ok := WriteToBase(true, writable);
      if ok {
        label Written:
        ClearCache();
        BaseUnchanged@Written();
        BaseUnspent();
        NothingCached(BaseView());
      }
    }

    lemma NothingCached(b: map<OutPoint, Coin>)
      requires AllUnspent(b)
      ensures Overlay(b, Data(map[])) == b && DataOk(b, Data(map[]))
    {
      EmptyOverlay(b);
      assert Data(map[]) == map[];
    }

    /** Pushes all changes to the base and keeps the unspent entries, unflagged. The error
        for flagged entries left over cannot occur. */
    method Sync(writable: bool) returns (ok: bool, threw: bool)
      requires Valid() && (base == null ==> hashBlock != 0)
      modifies this`cacheCoins, this`sentinel, this`flagged, below
      ensures hashBlock == old(hashBlock) && (ok <==> base != null || writable) && !threw
      ensures base != null ==> base.hashBlock == hashBlock && base.BaseBestBlock() == old(base.BaseBestBlock())
      ensures ok ==> (BestBlock() == old(BestBlock()) <==> old(KeepsBestBlock()))
      ensures ok ==> Valid() && View() == BaseView() == old(View()) && flagged == []
      ensures ok ==> BaseViews()[1..] == old(BaseViews()[1..])
      ensures ok && hashBlock != 0 ==> BestBlock() == BaseBestBlock() == old(BestBlock())
      ensures ok ==> forall op | op in cacheCoins :: !cacheCoins[op].Flagged() && !cacheCoins[op].coin.IsSpent()
      ensures !ok ==> BaseViews() == old(BaseViews()) && flagged == []
                      && Data(cacheCoins) == Synced(old(Data(cacheCoins)), old(flagged))
    {
      hide Circle, Data, DataOk, Overlay, Synced, BaseViews, BaseBestBlock;
      ghost var b, d := BaseView(), Data(cacheCoins);
      ListFacts();
      ghost var keys := flagged;
      ok := WriteToBase(false, writable);
      threw := false;
      if ok {
        SyncedSound(b, d, keys);
        DataKeys(cacheCoins);
        ListFacts();
        CleanUnspent(BaseView(), Data(cacheCoins));
        if sentinel.next != Sentinel {
          threw := true;
        }
      }
    }

    lemma CleanUnspent(b: map<OutPoint, Coin>, d: map<OutPoint, Datum>)
      requires DataOk(b, d)
      ensures forall op | op in d && !d[op].dirty && !d[op].isFresh :: !d[op].coin.IsSpent()
    {
      forall op | op in d && !d[op].dirty && !d[op].isFresh
        ensures !d[op].coin.IsSpent()
      {
        assert DatumOk(d[op], Find(b, op));
      }
    }

    // ----- the cache's own check -----

    /** An entry that is fresh only is spent, and a spent one is either dirty or fresh. */
    static ghost predicate Allowed(e: Entry) {
      && (e.isFresh && !e.dirty ==> e.coin.value == -1)
      && (e.coin.value == -1 ==> e.dirty != e.isFresh)
    }

    /** Checks the state of every entry and counts the flagged ones. */
    method CheckEntries() returns (ok: bool, countFlagged: nat)
      ensures ok <==> forall op | op in cacheCoins :: Allowed(cacheCoins[op])
      ensures countFlagged == |set op | op in cacheCoins && cacheCoins[op].Flagged()|
    {
      ok := true;
      var rest := cacheCoins.Keys;
      ghost var seen: set<OutPoint> := {};
      countFlagged := 0;
      while rest != {}
        invariant rest <= cacheCoins.Keys && countFlagged == |seen|
        invariant ok <==> forall op | op in cacheCoins && op !in rest :: Allowed(cacheCoins[op])
        invariant seen == set op | op in cacheCoins && op !in rest && cacheCoins[op].Flagged()
        decreases |rest|
      {
        var op :| op in rest;
        var e := cacheCoins[op];
        var attr := (if e.dirty then 1 else 0) + (if e.isFresh then 2 else 0) + (if e.coin.IsSpent() then 4 else 0);
        if attr == 2 || attr == 4 || attr == 7 {
          ok := false;
        }
        if e.dirty || e.isFresh {
          countFlagged := countFlagged + 1;
          seen := seen + {op};
        }
        rest := rest - {op};
      }
      assert seen == set op | op in cacheCoins && cacheCoins[op].Flagged();
    }

    /** Checks the links of the list and counts its nodes. */
    method CheckList() returns (ok: bool, countLinked: nat)
      requires ListOk()
      ensures ok && countLinked == |flagged|
    {
      hide Distinct, EntryOk;
      ok := true;
      countLinked := 0;
      var it := sentinel.next;
      while it != Sentinel
        invariant ok && 0 <= countLinked <= |flagged| && it == RefAt(flagged, countLinked)
        decreases |flagged| - countLinked
      {
        assert NodeOk(cacheCoins, flagged, countLinked);
        var e := cacheCoins[it.key];
        assert countLinked > 0 ==> NodeOk(cacheCoins, flagged, countLinked - 1);
        assert countLinked + 1 < |flagged| ==> NodeOk(cacheCoins, flagged, countLinked + 1);
        if PrevOf(e.next) != it || NextOf(e.prev) != it || !(e.dirty || e.isFresh) {
          ok := false;
        }
        countLinked := countLinked + 1;
        it := e.next;
      }
    }

    /** All the checks the cache makes of itself pass exactly if no entry is in a state it may
        not be in, and always in a sound cache. */
    method SanityCheck() returns (ok: bool)
      requires ListOk()
      ensures ok <==> forall op | op in cacheCoins :: Allowed(cacheCoins[op])
      ensures Valid() ==> ok
    {
      if Valid() {
        SoundStates();
      }
      var statesOk, countFlagged := CheckEntries();
      var linksOk, countLinked := CheckList();
      AllListed(set op | op in cacheCoins && cacheCoins[op].Flagged());
      ok := statesOk && linksOk && countLinked == countFlagged;
    }

    lemma SoundStates()
      requires Valid()
      ensures forall op | op in cacheCoins :: Allowed(cacheCoins[op])
    {
      hide Circle, Overlay;
      DataKeys(cacheCoins);
      forall op | op in cacheCoins
        ensures Allowed(cacheCoins[op])
      {
        assert DatumOk(Data(cacheCoins)[op], Find(BaseView(), op));
      }
    }

    function PrevOf(r: Ref): Ref
      reads this
    {
      if r.At? && r.key in cacheCoins then cacheCoins[r.key].prev else sentinel.prev
    }

    function NextOf(r: Ref): Ref
      reads this
    {
      if r.At? && r.key in cacheCoins then cacheCoins[r.key].next else sentinel.next
    }

    lemma AllListed(seen: set<OutPoint>)
      requires ListOk() && seen == set op | op in cacheCoins && cacheCoins[op].Flagged()
      ensures |seen| == |flagged|
    {
      ListFacts();
      DataKeys(cacheCoins);
      forall op | op in flagged
        ensures op in seen
      {
        var i :| 0 <= i < |flagged| && flagged[i] == op;
        assert NodeOk(cacheCoins, flagged, i);
      }
      assert seen == set op | op in flagged;
      DistinctCount(flagged);
    }

    lemma {:induction false} DistinctCount(s: seq<OutPoint>)
      requires Distinct(s)
      ensures |set op | op in s| == |s|
    {
      if s != [] {
        DistinctCount(s[1..]);
        assert (set op | op in s) == {s[0]} + set op | op in s[1..];
      }
    }
  }

  // ----- runs against a stack of plain maps -----

  /** One step of a run on the topmost cache. Over grows the stack by a cache; Under
      flushes the topmost cache and drops it, Drop drops it with all it changed. A write to
      the database fails unless it is writable. */
  datatype Step =
    | Get(op: OutPoint)
    | Add(op: OutPoint, coin: Coin, possibleOverwrite: bool)
    | Spend(op: OutPoint)
    | Forget(op: OutPoint)
    | FlushAt(hash: nat, writable: bool)
    | SyncAt(hash: nat, writable: bool)
    | Over
    | Under
    | Drop
  {
    /** Whether the step is about the topmost cache alone. */
    predicate OnTop() {
      Get? || Add? || Spend? || Forget?
    }

    predicate Writes() {
      FlushAt? || SyncAt?
    }

    /** Whether the step fails over so many levels. */
    predicate Fails(levels: nat) {
      Writes() && levels == 2 && !writable
    }
  }

  /** The unspent coins seen through each cache, topmost first, and in the database. */
  type Stack = seq<map<OutPoint, Coin>>

  /** Callers add unspent coins only, deny overwriting only where there is no coin, and
      write to the database under a block hash only. */
  ghost predicate Honest(m: map<OutPoint, Coin>, s: Step) {
    match s
    case Add(op, coin, possibleOverwrite) => !coin.IsSpent() && (possibleOverwrite || coin.IsUnspendable() || op !in m)
    case FlushAt(hash, _) => hash != 0
    case SyncAt(hash, _) => hash != 0
    case _ => true
  }

  /** What a step does to a plain map of unspent coins. */
  ghost function PlainStep(m: map<OutPoint, Coin>, s: Step): map<OutPoint, Coin> {
    match s
    case Add(op, coin, _) => if coin.IsUnspendable() then m else m[op := coin]
    case Spend(op) => Without(m, op)
    case _ => m
  }

  /** What a step finds in a plain map. */
  ghost function PlainFind(m: map<OutPoint, Coin>, s: Step): seq<Option<Coin>> {
    if s.Get? || s.Spend? then [Find(m, s.op)] else []
  }

  /** What a step does to a stack of plain maps. The last cache is never dropped. */
  ghost function StackStep(v: Stack, s: Step): (r: Stack)
    requires |v| >= 2
    ensures |r| >= 2
  {
    match s
    case FlushAt(_, _) => v[1 := v[0]]
    case SyncAt(_, _) => v[1 := v[0]]
    case Over => [v[0]] + v
    case Under => if |v| == 2 then v else [v[0]] + v[2..]
    case Drop => if |v| == 2 then v else v[1..]
    case _ => v[0 := PlainStep(v[0], s)]
  }

  ghost predicate HonestRun(v: Stack, steps: seq<Step>)
    requires |v| >= 2
    decreases |steps|
  {
    steps == [] || (Honest(v[0], steps[0]) && HonestRun(StackStep(v, steps[0]), steps[1..]))
  }

  ghost function StackRun(v: Stack, steps: seq<Step>): (r: Stack)
    requires |v| >= 2
    ensures |r| >= 2
    decreases |steps|
  {
    if steps == [] then v else StackRun(StackStep(v, steps[0]), steps[1..])
  }

  /** What the lookups and spends of a run find in the topmost maps. */
  ghost function StackFinds(v: Stack, steps: seq<Step>): seq<Option<Coin>>
    requires |v| >= 2
    decreases |steps|
  {
    if steps == [] then [] else PlainFind(v[0], steps[0]) + StackFinds(StackStep(v, steps[0]), steps[1..])
  }

  ghost function PlainRun(m: map<OutPoint, Coin>, steps: seq<Step>): map<OutPoint, Coin>
    decreases |steps|
  {
    if steps == [] then m else PlainRun(PlainStep(m, steps[0]), steps[1..])
  }

  ghost function PlainFinds(m: map<OutPoint, Coin>, steps: seq<Step>): seq<Option<Coin>>
    decreases |steps|
  {
    if steps == [] then [] else PlainFind(m, steps[0]) + PlainFinds(PlainStep(m, steps[0]), steps[1..])
  }

  /** As long as no cache is dropped with its changes, one plain map tells all that is
      seen and found at the top. */
  lemma {:induction false} OneMapTells(v: Stack, steps: seq<Step>)
    requires |v| >= 2 && forall s | s in steps :: !s.Drop?
    ensures StackRun(v, steps)[0] == PlainRun(v[0], steps)
    ensures StackFinds(v, steps) == PlainFinds(v[0], steps)
    decreases |steps|
  {
    hide PlainFind;
    if steps != [] {
      assert StackStep(v, steps[0])[0] == PlainStep(v[0], steps[0]);
      OneMapTells(StackStep(v, steps[0]), steps[1..]);
    }
  }

  lemma {:induction false} StackRunConcat(v: Stack, a: seq<Step>, b: seq<Step>)
    requires |v| >= 2
    ensures StackRun(v, a + b) == StackRun(StackRun(v, a), b)
    ensures StackFinds(v, a + b) == StackFinds(v, a) + StackFinds(StackRun(v, a), b)
    decreases |a|
  {
    hide StackStep, PlainFind;
    var ab := a + b;
    if a == [] {
      assert ab == b;
    } else {
      assert ab[0] == a[0] && ab[1..] == a[1..] + b;
      StackRunConcat(StackStep(v, a[0]), a[1..], b);
    }
  }

  lemma {:induction false} OnlyTopChanges(v: Stack, steps: seq<Step>)
    requires |v| >= 2 && forall s | s in steps :: s.OnTop()
    ensures StackRun(v, steps) == v[0 := PlainRun(v[0], steps)]
    decreases |steps|
  {
    hide PlainStep;
    if steps != [] {
      var w := v[0 := PlainStep(v[0], steps[0])];
      assert steps[0] in steps;
      assert StackStep(v, steps[0]) == w;
      OnlyTopChanges(w, steps[1..]);
    }
  }

  /** A temporary cache: dropping it leaves everything as it was before it was stacked,
      flushing it first does at once what its steps did one by one. */
  lemma TemporaryCache(v: Stack, steps: seq<Step>)
    requires |v| >= 2 && forall s | s in steps :: s.OnTop()
    ensures StackRun(v, [Over] + steps + [Drop]) == v
    ensures StackRun(v, [Over] + steps + [Under]) == StackRun(v, steps)
  {
    hide StackRun, PlainRun, StackStep;
    var over := [v[0]] + v;
    var w := over[0 := PlainRun(v[0], steps)];
    OnlyTopChanges(v, steps);
    OnlyTopChanges(over, steps);
    OneStep(v, Over);
    StackRunConcat(v, [Over], steps);
    StackRunConcat(v, [Over] + steps, [Drop]);
    StackRunConcat(v, [Over] + steps, [Under]);
    OneStep(w, Drop);
    OneStep(w, Under);
    Stacking(v, PlainRun(v[0], steps));
  }

  lemma Stacking(v: Stack, m: map<OutPoint, Coin>)
    requires |v| >= 2
    ensures StackStep(v, Over) == [v[0]] + v
    ensures var w := ([v[0]] + v)[0 := m]; StackStep(w, Drop) == v && StackStep(w, Under) == v[0 := m]
  {
  }

  lemma OneStep(v: Stack, s: Step)
    requires |v| >= 2
    ensures StackRun(v, [s]) == StackStep(v, s) && StackFinds(v, [s]) == PlainFind(v[0], s)
  {
    var w := StackStep(v, s);
    assert [s][1..] == [];
    assert StackRun(w, []) == w;
    assert StackFinds(w, []) == [];
    assert PlainFind(v[0], s) + [] == PlainFind(v[0], s);
  }

  lemma Levels(cache: CoinsViewCache)
    requires cache.BaseOk()
    ensures cache.Views() == [cache.View()] + cache.BaseViews() && cache.Views()[1..] == cache.BaseViews()
    ensures cache.base != null ==> cache.BaseViews() == cache.base.Views() && |cache.BaseViews()| >= 2
    ensures cache.base == null ==> |cache.BaseViews()| == 1
  {
  }

  /** Looks up, adds, spends or forgets at the topmost cache. */
  method TakeOnTop(cache: CoinsViewCache, s: Step) returns (found: seq<Option<Coin>>)
    requires cache.Valid() && Honest(cache.View(), s) && s.OnTop()
    modifies cache, cache.below
    ensures cache.Valid() && cache.View() == PlainStep(old(cache.View()), s)
            && cache.BaseViews() == old(cache.BaseViews())
    ensures found == PlainFind(old(cache.View()), s)
  {
    hide Circle, Overlay, Data, DataOk, Unspent;
    Levels(cache);
    found := [];
    match s {
      case Get(op) =>
        var r := cache.GetCoin(op);
        found := [r];
        Levels(cache);
      case Add(op, coin, possibleOverwrite) =>
        if op !in cache.View() && op in cache.cacheCoins {
          cache.NotOverwritten(op);
        }
        var threw := cache.AddCoin(op, coin, possibleOverwrite);
      case Spend(op) =>
        cache.ViewUnspent();
        var ok, moveout := cache.SpendCoin(op);
        found := [if ok && !moveout.IsSpent() then Some(moveout) else None];
      case Forget(op) =>
        cache.Uncache(op);
        Levels(cache);
    }
  }

  /** Writes what the topmost cache holds to the level below. */
  method TakeDown(cache: CoinsViewCache, s: Step) returns (failed: bool)
    requires cache.Valid() && s.Writes() && s.hash != 0
    modifies cache, cache.below
    ensures failed <==> cache.base == null && !s.writable
    ensures !failed ==> cache.Valid() && cache.Views() == StackStep(old(cache.Views()), s)
  {
    hide Circle, Overlay, Data, DataOk, Unspent;
    Levels(cache);
    ghost var v := cache.Views();
    cache.SetBestBlock(s.hash);
    Levels(cache);
    var ok, threw;
    if s.FlushAt? {
      ok := cache.Flush(s.writable);
    } else {
      ok, threw := cache.Sync(s.writable);
    }
    failed := !ok;
    if ok {
      BaseIsOk(cache);
      Levels(cache);
      WrittenDown(v, cache.Views());
    }
  }

  lemma WrittenDown(v: Stack, w: Stack)
    requires |v| >= 2 && |w| >= 2 && w[0] == w[1] == v[0] && w[1..][1..] == v[1..][1..]
    ensures w == v[1 := v[0]]
  {
    assert w[1..][1..] == w[2..] && v[1..][1..] == v[2..];
    assert w == [w[0], w[1]] + w[2..];
    assert v[1 := v[0]] == [v[0], v[0]] + v[2..];
  }

  /** One step on a cache does to what every level shows what it does to plain maps.
      Only writing to the database may fail. */
  method TakeStep(cache: CoinsViewCache, s: Step) returns (top: CoinsViewCache, found: seq<Option<Coin>>, failed: bool)
    requires cache.Valid() && Honest(cache.View(), s)
    modifies cache, cache.below
    ensures failed <==> s.Fails(|old(cache.Views())|)
    ensures !failed ==> top.Valid() && top.db == cache.db && top.Views() == StackStep(old(cache.Views()), s)
    ensures s.Add? ==>
              if (|s.coin.script| > 0 && s.coin.script[0] == 0x6a) || |s.coin.script| > 10000
              then top.Views() == old(cache.Views())
              else Find(top.View(), s.op) == Some(s.coin)
    ensures fresh(({top} + top.below) - ({cache} + cache.below))
    ensures found == PlainFind(old(cache.View()), s)
  {
    hide Circle, Overlay, Data, DataOk, Unspent, PlainStep, CoinsViewCache.EntriesOk, CoinsViewCache.ListOk;
    BaseIsOk(cache);
    Levels(cache);
    ghost var v := cache.Views();
    top, found, failed := cache, [], false;
    if s.OnTop() {
      found := TakeOnTop(cache, s);
      if s.Add? {
        AddDecides(v, s);
      }
      BaseIsOk(cache);
      Levels(cache);
    } else if s.Writes() {
      failed := TakeDown(cache, s);
    } else if s == Over {
      top := new CoinsViewCache(cache, cache.db);
      BaseIsOk(top);
      Levels(top);
    } else if cache.base != null {
      if s == Under {
        var ok := cache.Flush(true);
        BaseIsOk(cache);
        Levels(cache);
      }
      top := cache.base;
      Levels(top);
    }
  }

  /** Which coins are entered, in terms of their scripts. */
  lemma AddDecides(v: Stack, s: Step)
    requires |v| >= 2 && s.Add?
    ensures if (|s.coin.script| > 0 && s.coin.script[0] == 0x6a) || |s.coin.script| > 10000
            then StackStep(v, s) == v && PlainStep(v[0], s) == v[0]
            else Find(StackStep(v, s)[0], s.op) == Find(PlainStep(v[0], s), s.op) == Some(s.coin)
  {
  }

  lemma BaseIsOk(cache: CoinsViewCache)
    requires cache.Valid()
    ensures cache.BaseOk() && (cache.base != null ==> cache.base.Valid() && cache.base.BaseOk())
  {
  }

  /** After k steps from v0 the plain maps are at v, and found is what was found. */
  ghost predicate InRun(v0: Stack, steps: seq<Step>, k: nat, v: Stack, found: seq<Option<Coin>>)
    requires |v0| >= 2 && |v| >= 2
  {
    && k <= |steps| && HonestRun(v, steps[k..])
    && v == StackRun(v0, steps[..k])
    && found == StackFinds(v0, steps[..k])
  }

  lemma InRunStart(v0: Stack, steps: seq<Step>)
    requires |v0| >= 2 && HonestRun(v0, steps)
    ensures InRun(v0, steps, 0, v0, [])
  {
    assert steps[0..] == steps;
  }

  lemma InRunStep(v0: Stack, steps: seq<Step>, k: nat, v: Stack, found: seq<Option<Coin>>)
    requires |v0| >= 2 && |v| >= 2 && InRun(v0, steps, k, v, found) && k < |steps|
    ensures Honest(v[0], steps[k])
    ensures InRun(v0, steps, k + 1, StackStep(v, steps[k]), found + PlainFind(v[0], steps[k]))
  {
    hide Honest, StackStep, PlainFind, StackRun, StackFinds;
    var rest := steps[k..];
    assert rest[0] == steps[k] && rest[1..] == steps[k + 1..];
    assert steps[..k + 1] == steps[..k] + [steps[k]];
    StackRunConcat(v0, steps[..k], [steps[k]]);
    OneStep(v, steps[k]);
  }

  /** Any run, over a stack that grows and shrinks at will, shows at every level what a
      stack of plain maps does and finds what that does; as long as no cache is dropped
      with its changes the top shows and finds what one plain map does. A run ends early
      exactly at the first write of the last cache left to a database not writable. */
  method Replay(cache: CoinsViewCache, steps: seq<Step>)
    returns (top: CoinsViewCache, found: seq<Option<Coin>>, failed: bool, at: nat)
    requires cache.Valid() && HonestRun(cache.Views(), steps)
    modifies cache, cache.below
    ensures at <= |steps| && found == StackFinds(old(cache.Views()), steps[..at])
    ensures !failed ==> at == |steps| && top.Valid() && top.Views() == StackRun(old(cache.Views()), steps)
    ensures failed ==> at < |steps| && steps[at].Fails(|StackRun(old(cache.Views()), steps[..at])|)
    ensures forall k | 0 <= k < at :: !steps[k].Fails(|StackRun(old(cache.Views()), steps[..k])|)
    ensures !failed && (forall s | s in steps :: !s.Drop?) ==>
              top.View() == PlainRun(old(cache.View()), steps) && found == PlainFinds(old(cache.View()), steps)
  {
    hide InRun, HonestRun, StackRun, StackFinds, PlainRun, PlainFinds, PlainFind, Find, StackStep, PlainStep, Honest,
         CoinsViewCache.Valid, CoinsViewCache.Views;
    ghost var v0 := cache.Views();
    BaseIsOk(cache);
    Levels(cache);
    top, found, failed, at := cache, [], false, 0;
    InRunStart(v0, steps);
    while at < |steps|
      invariant 0 <= at <= |steps| && !failed && top.Valid()
      invariant fresh(({top} + top.below) - ({cache} + cache.below))
      invariant |top.Views()| >= 2 && InRun(v0, steps, at, top.Views(), found)
      invariant forall k | 0 <= k < at :: !steps[k].Fails(|StackRun(v0, steps[..k])|)
    {
      ghost var v := top.Views();
      InRunStep(v0, steps, at, v, found);
      FoundSoFar(v0, steps, at, v, found);
      var more;
      top, more, failed := TakeStep(top, steps[at]);
      if failed {
        return;
      }
      found := found + more;
      at := at + 1;
    }
    FoundSoFar(v0, steps, at, top.Views(), found);
    assert steps[..at] == steps;
    if forall s | s in steps :: !s.Drop? {
      OneMapTells(v0, steps);
    }
  }

  lemma FoundSoFar(v0: Stack, steps: seq<Step>, k: nat, v: Stack, found: seq<Option<Coin>>)
    requires |v0| >= 2 && |v| >= 2 && InRun(v0, steps, k, v, found)
    ensures k <= |steps| && v == StackRun(v0, steps[..k]) && found == StackFinds(v0, steps[..k])
  {
  }

  // ----- where the code does otherwise than it says -----

  /** A coin of the database is spent twice: the second call succeeds, though no unspent
      coin is seen any more. */
  method SpendTwice(op: OutPoint, coin: Coin) returns (cache: CoinsViewCache, unspent: bool, again: bool)
    requires !coin.IsSpent()
    ensures fresh(cache) && cache.Valid() && !unspent && again
    ensures op in cache.cacheCoins && cache.cacheCoins[op].dirty && cache.cacheCoins[op].coin == NO_COIN
  {
    var db := new CoinsViewDB(map[op := coin], 1);
    cache := new CoinsViewCache(null, db);
    DataKeys(cache.cacheCoins);
    var first, taken := cache.SpendCoin(op);
    DataKeys(cache.cacheCoins);
    unspent := cache.HaveCoinInCache(op);
    again, taken := cache.SpendCoin(op);
    DataKeys(cache.cacheCoins);
  }

  /** A lookup of a spent coin in the database leaves a fresh spent entry; spending that
      succeeds and erases it. */
  method SpendFresh(db: CoinsViewDB, op: OutPoint)
    returns (cache: CoinsViewCache, cached: bool, unspent: bool, spent: bool)
    requires op in db.coins && db.coins[op].IsSpent()
    modifies db
    ensures fresh(cache) && cache.Valid() && cached && !unspent && spent && op !in cache.cacheCoins
  {
    cache := new CoinsViewCache(null, db);
    var found := cache.FetchCoin(op);
    DataKeys(cache.cacheCoins);
    cached := op in cache.cacheCoins;
    unspent := cache.HaveCoinInCache(op);
    var taken;
    spent, taken := cache.SpendCoin(op);
    DataKeys(cache.cacheCoins);
  }

  /** Flushing a cache without a block hash of its own makes the block its base is at
      forgotten: seen is again what the database is at. */
  method FlushForgetsBlock() returns (before: nat, after: nat)
    ensures before == 2 && after == 1
  {
    hide Circle, Overlay, Data, DataOk, Unspent;
    var db := new CoinsViewDB(map[], 1);
    var base := new CoinsViewCache(null, db);
    base.SetBestBlock(2);
    before := base.GetBestBlock();
    after := FlushOver(base);
  }

  /** In general: a base over the database takes on the null hash. */
  method FlushOver(base: CoinsViewCache) returns (after: nat)
    requires base.Valid() && base.base == null
    modifies base, base.below
    ensures after == old(base.BaseBestBlock())
  {
    hide Circle, Overlay, Data, DataOk, Unspent, CoinsViewCache.EntriesOk, CoinsViewCache.ListOk;
    BaseIsOk(base);
    var cache := new CoinsViewCache(base, base.db);
    BaseIsOk(cache);
    var ok := cache.Flush(true);
    BaseIsOk(cache);
    assert base.BestBlock() == base.BaseBestBlock();
    after := cache.GetBestBlock();
  }
}
