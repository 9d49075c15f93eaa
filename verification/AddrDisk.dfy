/** Saving and loading the address manager (src/addrman.cpp). */
module AddrDisk {

  import opened Collections
  import opened AddrBooks
  import opened AddrChecks
  import opened AddrFiles
  import opened AddrLoads
  import opened AddrRestores
  import AddrMan

  // ----- saving -----

  /** All elements, each once, in any order: how the entries are iterated over. */
  method InSomeOrder(keys: set<int>) returns (order: seq<int>)
    ensures Different(order) && forall id :: id in order <==> id in keys
  {
    order := [];
    var rest := keys;
    while rest != {}
      invariant Different(order) && forall id :: id in keys <==> id in order || id in rest
      invariant forall id | id in order :: id !in rest
      decreases rest
    {
      ghost var some := SomeElement(rest);
      var id: int :| id in rest;
      order := order + [id];
      rest := rest - {id};
    }
    NoneLeft(rest);
  }

  lemma NoneLeft(s: set<int>)
    requires s == {}
    ensures forall x :: x !in s
  {
  }

  lemma {:induction false} IndexStays(ids: seq<int>, x: int, id: int)
    requires x !in ids
    ensures id in ids ==> IndexIn(ids + [x], id) == IndexIn(ids, id)
    ensures id == x ==> IndexIn(ids + [x], id) == |ids|
  {
    if ids != [] && ids[0] != id {
      assert (ids + [x])[1..] == ids[1..] + [x];
      IndexStays(ids[1..], x, id);
    }
  }

  lemma {:induction false} InfosPush(b: Book, ids: seq<int>, id: int)
    requires Known(b, ids) && id in b.info
    ensures Known(b, ids + [id])
    ensures InfoTokens(SavedInfos(b, ids + [id])) == InfoTokens(SavedInfos(b, ids)) + [Info(Saved(b.info[id]))]
  {
    var more := ids + [id];
    if ids == [] {
      assert more[1..] == [];
    } else {
      assert more[1..] == ids[1..] + [id];
      InfosPush(b, ids[1..], id);
    }
  }

  /** A list of some of the entries of one kind is shorter than the count of them, if one of
      them is not in it. */
  lemma RoomLeft(env: Env, b: Book, ids: seq<int>, id: int, tried: bool)
    requires Ok(env, b) && Different(ids) && id !in ids && id in b.info && b.info[id].fInTried == tried
    requires forall x | x in ids :: x in b.info && b.info[x].fInTried == tried
    ensures |ids| < if tried then b.nTried else b.nNew
  {
    hide AddrsOk, RandomOk, TriedOk, NewOk, RefsOk, RangesOk, TimesOk, CollisionsBut;
    var some := set x | x in ids;
    var all := Members(env, b.info, {}, tried, ANY);
    ListSize(ids, some);
    assert some + {id} <= all;
    NotLarger(some + {id}, all);
  }

  /** New entries are those that have references. */
  lemma NewOrTried(env: Env, b: Book, id: int)
    requires Ok(env, b) && id in b.info
    ensures b.info[id].nRefCount != 0 <==> !b.info[id].fInTried
  {
    hide AddrsOk, RandomOk, TalliesOk, TriedOk, TimesOk, CollisionsBut, BucketPosition;
    if b.info[id].fInTried {
      NoneHeld(env, b, id);
    }
  }

  /** ids lists the entries of one kind among the first k of order. */
  ghost predicate Picked(b: Book, order: seq<int>, k: nat, ids: seq<int>, tried: bool) {
    && k <= |order| && Different(ids)
    && forall id :: id in ids <==> id in order[..k] && id in b.info && b.info[id].fInTried == tried
  }

  lemma PickNext(b: Book, order: seq<int>, k: nat, ids: seq<int>, tried: bool)
    requires Picked(b, order, k, ids, tried) && k < |order| && Different(order) && order[k] in b.info
    ensures order[k] !in ids
    ensures b.info[order[k]].fInTried == tried ==> Picked(b, order, k + 1, ids + [order[k]], tried)
    ensures b.info[order[k]].fInTried != tried ==> Picked(b, order, k + 1, ids, tried)
  {
    assert order[..k + 1] == order[..k] + [order[k]];
    NotInFront(order, k);
    var x, front := order[k], order[..k];
    assert x in ids ==> x in front;
  }

  lemma NotInFront(order: seq<int>, k: nat)
    requires Different(order) && k < |order|
    ensures order[k] !in order[..k]
  {
    var front, x := order[..k], order[k];
    assert forall j | 0 <= j < |front| :: front[j] != x;
  }

  lemma PickedAll(b: Book, order: seq<int>, newIds: seq<int>, triedIds: seq<int>)
    requires forall id :: id in order <==> id in b.info
    requires Picked(b, order, |order|, newIds, false) && Picked(b, order, |order|, triedIds, true)
    ensures Orders(b, newIds, triedIds)
  {
    assert order[..|order|] == order;
  }

  ghost predicate Numbered(ids: seq<int>, mapUnkIds: map<int, int>) {
    forall id | id in ids :: id in mapUnkIds && mapUnkIds[id] == IndexIn(ids, id)
  }

  lemma NumberNext(ids: seq<int>, mapUnkIds: map<int, int>, id: int)
    requires Numbered(ids, mapUnkIds) && id !in ids
    ensures Numbered(ids, mapUnkIds[id := |ids|]) && Numbered(ids + [id], mapUnkIds[id := |ids|])
  {
    forall x | x in ids + [id]
      ensures mapUnkIds[id := |ids|][x] == IndexIn(ids + [id], x)
    {
      IndexStays(ids, id, x);
    }
  }

  method WriteNews(man: AddrMan.AddrManImpl, order: seq<int>)
    returns (s: seq<Token>, mapUnkIds: map<int, int>, ghost ids: seq<int>)
    requires man.Valid() && Different(order) && forall id :: id in order <==> id in man.mapInfo
    ensures Picked(man.View(), order, |order|, ids, false) && Known(man.View(), ids) && Numbered(ids, mapUnkIds)
    ensures s == InfoTokens(SavedInfos(man.View(), ids))
  {
    hide Ok, Picked, Numbered, InfoTokens, SavedInfos, AddrMan.TableOf;
    ghost var b := man.View();
    s, mapUnkIds, ids := [], map[], [];
    var nIds := 0;
    PickNone(b, order);
    for k := 0 to |order|
      invariant nIds == |ids| && Picked(b, order, k, ids, false) && Known(b, ids) && Numbered(ids, mapUnkIds)
      invariant s == InfoTokens(SavedInfos(b, ids))
    {
      var id := order[k];
      assert id in order;
      var info := man.mapInfo[id];
      NewOrTried(man.env, b, id);
      PickNext(b, order, k, ids, false);
      NumberNext(ids, mapUnkIds, id);
      mapUnkIds := mapUnkIds[id := nIds];
      if info.nRefCount != 0 {
        PickedKind(b, order, k, ids, false);
        RoomLeft(man.env, b, ids, id, false);
        assert nIds != man.nNew;
        InfosPush(b, ids, id);
        s := s + [Info(Saved(info))];
        nIds := nIds + 1;
        ids := ids + [id];
      }
    }
  }

  lemma PickNone(b: Book, order: seq<int>)
    ensures Picked(b, order, 0, [], false) && Picked(b, order, 0, [], true) && Known(b, []) && Numbered([], map[])
    ensures InfoTokens(SavedInfos(b, [])) == []
  {
  }

  lemma PickedKind(b: Book, order: seq<int>, k: nat, ids: seq<int>, tried: bool)
    requires Picked(b, order, k, ids, tried)
    ensures Different(ids) && forall x | x in ids :: x in b.info && b.info[x].fInTried == tried
  {
  }

  method WriteTried(man: AddrMan.AddrManImpl, order: seq<int>) returns (s: seq<Token>, ghost ids: seq<int>)
    requires man.Valid() && Different(order) && forall id :: id in order <==> id in man.mapInfo
    ensures Picked(man.View(), order, |order|, ids, true) && Known(man.View(), ids)
    ensures s == InfoTokens(SavedInfos(man.View(), ids))
  {
    hide Ok, Picked, InfoTokens, SavedInfos, AddrMan.TableOf;
    ghost var b := man.View();
    s, ids := [], [];
    var nIds := 0;
    PickNone(b, order);
    for k := 0 to |order|
      invariant nIds == |ids| && Picked(b, order, k, ids, true) && Known(b, ids)
      invariant s == InfoTokens(SavedInfos(b, ids))
    {
      var id := order[k];
      assert id in order;
      var info := man.mapInfo[id];
      PickNext(b, order, k, ids, true);
      if info.fInTried {
        PickedKind(b, order, k, ids, true);
        RoomLeft(man.env, b, ids, id, true);
        assert nIds != man.nTried;
        InfosPush(b, ids, id);
        s := s + [Info(Saved(info))];
        nIds := nIds + 1;
        ids := ids + [id];
      }
    }
  }

  lemma IndexesStep(b: Book, ids: seq<int>, bucket: nat, pos: nat)
    requires FullNews(b) && bucket < NEW_BUCKET_COUNT && pos < BUCKET_SIZE
    ensures b.news[Slot(bucket, pos)] == -1 ==>
              BucketIndexes(b, ids, bucket, pos) == BucketIndexes(b, ids, bucket, pos + 1)
    ensures b.news[Slot(bucket, pos)] != -1 ==>
              BucketIndexes(b, ids, bucket, pos) ==
                  [IndexIn(ids, b.news[Slot(bucket, pos)])] + BucketIndexes(b, ids, bucket, pos + 1)
  {
    var xs := BucketIndexes(b, ids, bucket, pos + 1);
    assert [] + xs == xs;
  }

  lemma IndexesEnd(b: Book, ids: seq<int>, bucket: nat)
    requires FullNews(b) && bucket < NEW_BUCKET_COUNT
    ensures BucketIndexes(b, ids, bucket, BUCKET_SIZE) == [] && NumberTokens([]) == []
  {
  }

  lemma NumbersPush(x: int, xs: seq<int>)
    ensures NumberTokens([x] + xs) == [Number(x)] + NumberTokens(xs)
  {
    assert ([x] + xs)[1..] == xs;
  }

  method WriteBucket(man: AddrMan.AddrManImpl, mapUnkIds: map<int, int>, bucket: nat, ghost ids: seq<int>)
    returns (s: seq<Token>)
    requires man.Shape() && bucket < NEW_BUCKET_COUNT && ListsHeld(man.View(), ids) && Numbered(ids, mapUnkIds)
    ensures FullNews(man.View()) && s == BucketTokens(man.View(), ids, bucket)
  {
    hide BucketIndexes, NumberTokens, AddrMan.TableOf, AddrMan.Slots;
    ghost var b := man.View();
    var nSize := 0;
    for i := 0 to BUCKET_SIZE
      invariant nSize + |BucketIndexes(b, ids, bucket, i)| == |BucketIndexes(b, ids, bucket, 0)|
    {
      IndexesStep(b, ids, bucket, i);
      var id := AddrMan.GetSlot(man.vvNew, Slot(bucket, i));
      if id != -1 {
        nSize := nSize + 1;
      }
    }
    IndexesEnd(b, ids, bucket);
    var written: seq<Token> := [];
    for i := 0 to BUCKET_SIZE
      invariant written + NumberTokens(BucketIndexes(b, ids, bucket, i)) ==
                NumberTokens(BucketIndexes(b, ids, bucket, 0))
    {
      IndexesStep(b, ids, bucket, i);
      var id := AddrMan.GetSlot(man.vvNew, Slot(bucket, i));
      if id != -1 {
        assert InNew(Slot(bucket, i));
        assert id in ids;
        var nIndex := mapUnkIds[id];
        NumbersPush(nIndex, BucketIndexes(b, ids, bucket, i + 1));
        written := written + [Number(nIndex)];
      }
    }
    s := [Number(nSize)] + written;
  }

  /** Saves the address manager: the file says all but what is kept in memory only. */
  method Serialize(man: AddrMan.AddrManImpl, asmap: nat)
    returns (s: seq<Token>, ghost newIds: seq<int>, ghost triedIds: seq<int>)
    requires man.Valid()
    ensures var b := man.View();
            && FullNews(b) && Known(b, newIds) && Known(b, triedIds) && Orders(b, newIds, triedIds)
            && s == Encode(b, newIds, triedIds, asmap)
    ensures ReadFile(s).Got? && ReadFile(s).rest == [] && ReadFile(s).value.checksum == asmap
    ensures ReadFile(s).value.header == Header(FILE_FORMAT, man.nKey, man.nNew, man.nTried, NEW_BUCKET_COUNT)
    ensures Sound(ReadFile(s).value) && Readable(ReadFile(s).value)
  {
    hide ReadFile, Sound, Readable, Ok, Orders, Picked, InfoTokens, SavedInfos, TokensFrom, ListsHeld, AddrMan.TableOf,
         Numbered, EntriesFrom, Known, FullNews;
    ghost var b := man.View();
    var order := InSomeOrder(man.mapInfo.Keys);
    s := [Number(FILE_FORMAT), Number(INCOMPATIBILITY_BASE + FILE_FORMAT), Hash(man.nKey), Number(man.nNew),
          Number(man.nTried),
          Number(FlipBit30(NEW_BUCKET_COUNT))];
    var news, mapUnkIds;
    news, mapUnkIds, newIds := WriteNews(man, order);
    var tried;
    tried, triedIds := WriteTried(man, order);
    PickedAll(b, order, newIds, triedIds);
    OrderHeld(man.env, b, newIds, triedIds);
    SavedIsSound(man.env, b, newIds, triedIds, asmap);
    var buckets := WriteBuckets(man, mapUnkIds, newIds);
    s := s + (news + (tried + (buckets + [Hash(asmap)])));
    assert s == Encode(b, newIds, triedIds, asmap);
  }

  method WriteBuckets(man: AddrMan.AddrManImpl, mapUnkIds: map<int, int>, ghost ids: seq<int>)
    returns (buckets: seq<Token>)
    requires man.Shape() && ListsHeld(man.View(), ids) && Numbered(ids, mapUnkIds)
    ensures FullNews(man.View()) && buckets == TokensFrom(man.View(), ids, 0)
  {
    hide TokensFrom, BucketTokens, ListsHeld, AddrMan.TableOf, Numbered;
    ghost var b := man.View();
    Lists(b, ids);
    buckets := [];
    for bucket := 0 to NEW_BUCKET_COUNT
      invariant buckets + TokensFrom(b, ids, bucket) == TokensFrom(b, ids, 0)
    {
      var one := WriteBucket(man, mapUnkIds, bucket, ids);
      NextBucket(b, ids, bucket);
      buckets := buckets + one;
    }
    LastBucket(b, ids);
  }

  lemma NextBucket(b: Book, ids: seq<int>, bucket: nat)
    requires FullNews(b) && bucket < NEW_BUCKET_COUNT
    ensures TokensFrom(b, ids, bucket) == BucketTokens(b, ids, bucket) + TokensFrom(b, ids, bucket + 1)
  {
  }

  lemma LastBucket(b: Book, ids: seq<int>)
    requires FullNews(b)
    ensures TokensFrom(b, ids, NEW_BUCKET_COUNT) == []
  {
  }

  // ----- loading -----

  datatype Outcome = Success | Failure(error: Error)

  lemma InfosNext(s: seq<Token>, n: nat)
    ensures n > 0 && ReadInfo(s).Fail? ==> ReadInfos(s, n) == Fail(ReadInfo(s).error)
    ensures n > 0 && ReadInfo(s).Got? ==>
              ReadInfos(s, n) == Prepend([ReadInfo(s).value], ReadInfos(ReadInfo(s).rest, n - 1))
    ensures n == 0 ==> ReadInfos(s, n) == Got([], s)
  {
  }

  /** Fields the loading sets ahead of what they count. */
  ghost function Ahead(b: Book, nIdCount: int, nNew: int, nTried: int): Book {
    b.(nIdCount := nIdCount, nNew := nNew, nTried := nTried)
  }

  method AddNew(man: AddrMan.AddrManImpl, n: nat, x: SavedInfo, ghost c: Book)
    requires man.Shape() && c.nIdCount == n && man.View() == Ahead(c, man.nIdCount, man.nNew, man.nTried)
    modifies man`mapInfo, man`mapAddr, man`vRandom, man`networkCounts
    ensures man.View() == Ahead(Created(man.env, c, Fresh(x)), man.nIdCount, man.nNew, man.nTried)
  {
    hide AddrMan.TableOf, Bump, CountOf;
    man.mapInfo := man.mapInfo[n := Fresh(x).(nRandomPos := |man.vRandom|)];
    man.mapAddr := man.mapAddr[x.addr := n];
    man.vRandom := man.vRandom + [n];
    man.AddCount(man.env.network(x.addr.ip), 1, 0);
  }

  /** Reads the new entries. */
  method LoadNews(man: AddrMan.AddrManImpl, s: seq<Token>, ghost base: Book)
    returns (r: Reading<()>, ghost xs: seq<SavedInfo>)
    requires man.Shape() && man.nNew >= 0 && Blank(base)
             && man.View() == Ahead(base, man.nIdCount, man.nNew, man.nTried)
    modifies man`mapInfo, man`mapAddr, man`vRandom, man`networkCounts
    ensures r.Fail? ==> ReadInfos(s, man.nNew) == Fail(r.error)
    ensures r.Got? ==> ReadInfos(s, man.nNew) == Got(xs, r.rest) && |xs| == man.nNew
    ensures r.Got? ==> man.View() == Ahead(NewLoaded(man.env, base, xs), man.nIdCount, man.nNew, man.nTried)
  {
    hide AddrMan.TableOf, ReadInfos, Created, Ahead;
    xs := [];
    var rest := s;
    PrependTwice([], [], ReadInfos(s, man.nNew));
    assert NewLoaded(man.env, base, []) == base;
    for n := 0 to man.nNew
      invariant |xs| == n && ReadInfos(s, man.nNew) == Prepend(xs, ReadInfos(rest, man.nNew - n))
      invariant man.View() == Ahead(NewLoaded(man.env, base, xs), man.nIdCount, man.nNew, man.nTried)
    {
      InfosNext(rest, man.nNew - n);
      var x := ReadInfo(rest);
      if x.Fail? {
        return Fail(x.error), xs;
      }
      NewFacts(man.env, base, xs);
      AddNew(man, n, x.value, NewLoaded(man.env, base, xs));
      PrependTwice(xs, [x.value], ReadInfos(x.rest, man.nNew - n - 1));
      assert (xs + [x.value])[..n] == xs;
      xs := xs + [x.value];
      rest := x.rest;
    }
    InfosNext(rest, 0);
    assert xs + [] == xs;
    return Got((), rest), xs;
  }

  method AddTried(man: AddrMan.AddrManImpl, x: SavedInfo, ghost c: Book) returns (lost: bool)
    requires man.Shape() && Full(c) && man.View() == Ahead(c, c.nIdCount, c.nNew, man.nTried)
    modifies man`nIdCount, man`mapInfo, man`mapAddr, man`vRandom, man`networkCounts, man.vvTried
    ensures var d := TriedOne(man.env, c, x);
            && man.View() == Ahead(d, d.nIdCount, d.nNew, man.nTried)
            && d.nTried == c.nTried + (if lost then 0 else 1)
  {
    hide AddrMan.TableOf, AddrMan.Slots, Bump, CountOf, TriedSlot;
    SlotInTried(man.env, man.nKey, x.addr);
    var slot := TriedSlot(man.env, man.nKey, x.addr);
    var occupant := AddrMan.GetSlot(man.vvTried, slot);
    if man.env.isValid(x.addr.ip) && occupant == -1 {
      var info := Fresh(x).(nRandomPos := |man.vRandom|, fInTried := true);
      man.vRandom := man.vRandom + [man.nIdCount];
      man.mapInfo := man.mapInfo[man.nIdCount := info];
      man.mapAddr := man.mapAddr[x.addr := man.nIdCount];
      AddrMan.SetSlot(man.vvTried, slot, man.nIdCount);
      man.nIdCount := man.nIdCount + 1;
      man.AddCount(man.env.network(x.addr.ip), 0, 1);
      return false;
    }
    return true;
  }

  /** Reads the tried entries; some may be lost. */
  method LoadTried(man: AddrMan.AddrManImpl, s: seq<Token>, ghost d: Book)
    returns (r: Reading<()>, ghost ys: seq<SavedInfo>)
    requires man.Shape() && man.nTried >= 0 && Full(d) && d.nTried == 0
             && man.View() == Ahead(d, d.nIdCount, d.nNew, man.nTried)
    modifies man`nIdCount, man`mapInfo, man`mapAddr, man`vRandom, man`nTried, man`networkCounts, man.vvTried
    ensures r.Fail? ==> ReadInfos(s, old(man.nTried)) == Fail(r.error)
    ensures r.Got? ==> ReadInfos(s, old(man.nTried)) == Got(ys, r.rest) && |ys| == old(man.nTried)
    ensures r.Got? ==> man.View() == TriedLoaded(man.env, d, ys)
  {
    hide AddrMan.TableOf, ReadInfos, TriedOne, Full;
    var nLost := 0;
    var nTried := man.nTried;
    ys := [];
    var rest := s;
    PrependTwice([], [], ReadInfos(s, nTried));
    assert TriedLoaded(man.env, d, []) == d;
    for n := 0 to nTried
      invariant |ys| == n && ReadInfos(s, nTried) == Prepend(ys, ReadInfos(rest, nTried - n))
      invariant man.nTried == nTried && TriedLoaded(man.env, d, ys).nTried == n - nLost
      invariant var c := TriedLoaded(man.env, d, ys); man.View() == Ahead(c, c.nIdCount, c.nNew, nTried)
    {
      InfosNext(rest, nTried - n);
      var x := ReadInfo(rest);
      if x.Fail? {
        return Fail(x.error), ys;
      }
      var lost := AddTried(man, x.value, TriedLoaded(man.env, d, ys));
      if lost {
        nLost := nLost + 1;
      }
      PrependTwice(ys, [x.value], ReadInfos(x.rest, nTried - n - 1));
      assert (ys + [x.value])[..n] == ys;
      ys := ys + [x.value];
      rest := x.rest;
    }
    man.nTried := man.nTried - nLost;
    InfosNext(rest, 0);
    assert ys + [] == ys;
    return Got((), rest), ys;
  }

  lemma BucketNext(s: seq<Token>, bucket: nat, n: int, nNew: nat)
    ensures n > 0 && ReadNumber(s).Fail? ==> ReadBucket(s, bucket, n, nNew) == Fail(ReadNumber(s).error)
    ensures n > 0 && ReadNumber(s).Got? ==>
              ReadBucket(s, bucket, n, nNew)
              == Prepend(Kept(bucket, ReadNumber(s).value, nNew), ReadBucket(ReadNumber(s).rest, bucket, n - 1, nNew))
    ensures n <= 0 ==> ReadBucket(s, bucket, n, nNew) == Got([], s)
  {
  }

  /** Reads one bucket. */
  method LoadBucket(s: seq<Token>, bucket: nat, numEntries: int, nNew: nat) returns (r: Reading<seq<Entry>>)
    ensures r == ReadBucket(s, bucket, numEntries, nNew)
  {
    hide ReadBucket;
    var entries: seq<Entry> := [];
    var rest := s;
    PrependTwice<Entry>([], [], ReadBucket(s, bucket, numEntries, nNew));
    var n := 0;
    while n < numEntries
      invariant 0 <= n && (n <= numEntries || n == 0)
      invariant ReadBucket(s, bucket, numEntries, nNew) ==
                Prepend(entries, ReadBucket(rest, bucket, numEntries - n, nNew))
    {
      BucketNext(rest, bucket, numEntries - n, nNew);
      var x := ReadNumber(rest);
      if x.Fail? {
        return Fail(x.error);
      }
      PrependTwice(entries, Kept(bucket, x.value, nNew), ReadBucket(x.rest, bucket, numEntries - n - 1, nNew));
      assert entries + [] == entries;
      if 0 <= x.value < nNew {
        entries := entries + [Entry(bucket, x.value)];
      }
      rest := x.rest;
      n := n + 1;
    }
    BucketNext(rest, bucket, numEntries - n, nNew);
    assert entries + [] == entries;
    return Got(entries, rest);
  }

  lemma BucketsNext(s: seq<Token>, bucket: nat, nUBuckets: int, nNew: nat)
    ensures bucket >= nUBuckets ==> ReadBuckets(s, bucket, nUBuckets, nNew) == Got([], s)
    ensures bucket < nUBuckets && ReadNumber(s).Fail? ==>
              ReadBuckets(s, bucket, nUBuckets, nNew) == Fail(ReadNumber(s).error)
    ensures bucket < nUBuckets && ReadNumber(s).Got? ==>
              var x := ReadBucket(ReadNumber(s).rest, bucket, ReadNumber(s).value, nNew);
              ReadBuckets(s, bucket, nUBuckets, nNew)
              == if x.Fail? then x else Prepend(x.value, ReadBuckets(x.rest, bucket + 1, nUBuckets, nNew))
  {
  }

  /** Reads all buckets. */
  method LoadBuckets(s: seq<Token>, nUBuckets: int, nNew: nat) returns (r: Reading<seq<Entry>>)
    ensures r == ReadBuckets(s, 0, nUBuckets, nNew)
  {
    hide ReadBucket, ReadBuckets;
    var entries: seq<Entry> := [];
    var rest := s;
    PrependTwice<Entry>([], [], ReadBuckets(s, 0, nUBuckets, nNew));
    var bucket := 0;
    while bucket < nUBuckets
      invariant 0 <= bucket && (bucket <= nUBuckets || bucket == 0)
      invariant ReadBuckets(s, 0, nUBuckets, nNew) == Prepend(entries, ReadBuckets(rest, bucket, nUBuckets, nNew))
    {
      BucketsNext(rest, bucket, nUBuckets, nNew);
      var numEntries := ReadNumber(rest);
      if numEntries.Fail? {
        return Fail(numEntries.error);
      }
      var x := LoadBucket(numEntries.rest, bucket, numEntries.value, nNew);
      if x.Fail? {
        return x;
      }
      PrependTwice(entries, x.value, ReadBuckets(x.rest, bucket + 1, nUBuckets, nNew));
      entries := entries + x.value;
      rest := x.rest;
      bucket := bucket + 1;
    }
    BucketsNext(rest, bucket, nUBuckets, nNew);
    assert entries + [] == entries;
    return Got(entries, rest);
  }

  lemma {:induction false} BucketIndexesKept(s: seq<Token>, bucket: nat, n: int, nNew: nat)
    ensures var r := ReadBucket(s, bucket, n, nNew); r.Got? ==> KeptIn(r.value, bucket, nNew)
    decreases n
  {
    hide ReadNumber;
    if n > 0 && ReadNumber(s).Got? {
      BucketIndexesKept(ReadNumber(s).rest, bucket, n - 1, nNew);
    }
  }

  ghost predicate KeptIn(es: seq<Entry>, bucket: nat, nNew: nat) {
    forall k | 0 <= k < |es| :: 0 <= es[k].index < nNew && es[k].bucket == bucket
  }

  ghost predicate KeptBelow(es: seq<Entry>, buckets: int, nNew: nat) {
    forall k | 0 <= k < |es| :: 0 <= es[k].index < nNew && es[k].bucket < buckets
  }

  lemma {:induction false} BucketsKept(s: seq<Token>, bucket: nat, nUBuckets: int, nNew: nat)
    ensures var r := ReadBuckets(s, bucket, nUBuckets, nNew); r.Got? ==> KeptBelow(r.value, nUBuckets, nNew)
    decreases nUBuckets - bucket
  {
    hide ReadNumber, ReadBucket;
    if bucket < nUBuckets && ReadNumber(s).Got? {
      var n := ReadNumber(s);
      BucketIndexesKept(n.rest, bucket, n.value, nNew);
      var x := ReadBucket(n.rest, bucket, n.value, nNew);
      if x.Got? {
        BucketsKept(x.rest, bucket + 1, nUBuckets, nNew);
      }
    }
  }

  /** Gives one reference back, to its old slot or to its primary one. */
  method PlaceEntry(man: AddrMan.AddrManImpl, e: Entry, restore: bool)
    requires man.Shape() && Full(man.View()) && Placeable(man.View(), e, restore)
    modifies man`mapInfo, man.vvNew
    ensures man.View() == ReferencedOne(man.env, old(man.View()), e, restore)
  {
    hide AddrMan.TableOf, AddrMan.Slots, BucketPosition, NewSlot, Full;
    var env, info := man.env, man.mapInfo[e.index];
    if !env.isValid(info.addr.ip) || info.nRefCount >= NEW_BUCKETS_PER_ADDRESS {
      return;
    }
    var pos := BucketPosition(env, man.nKey, true, e.bucket, info.addr);
    if restore {
      var occupant := AddrMan.GetSlot(man.vvNew, Slot(e.bucket, pos));
      if occupant == -1 {
        TakeSlot(man, Slot(e.bucket, pos), e.index);
        return;
      }
    }
    SamePosition(env, man.nKey, e.bucket, info.addr, info.source);
    var home := NewSlot(env, man.nKey, info.addr, info.source);
    var occupant := AddrMan.GetSlot(man.vvNew, home);
    if occupant == -1 {
      TakeSlot(man, home, e.index);
    }
  }

  method TakeSlot(man: AddrMan.AddrManImpl, s: Slot, id: int)
    requires man.Shape() && InNew(s) && id in man.mapInfo
    modifies man`mapInfo, man.vvNew
    ensures man.View() == Ref(old(man.View()), s, id)
  {
    hide AddrMan.TableOf, AddrMan.Slots;
    AddrMan.SetSlot(man.vvNew, s, id);
    man.mapInfo := man.mapInfo[id := man.mapInfo[id].(nRefCount := man.mapInfo[id].nRefCount + 1)];
  }

  method PlaceEntries(man: AddrMan.AddrManImpl, entries: seq<Entry>, restore: bool)
    requires man.Shape() && Full(man.View()) && AllPlaceable(man.View(), entries, restore)
    modifies man`mapInfo, man.vvNew
    ensures Full(old(man.View())) && AllPlaceable(old(man.View()), entries, restore)
    ensures man.View() == Referenced(man.env, old(man.View()), entries, restore)
  {
    hide AddrMan.TableOf, AddrMan.Slots, Full, ReferencedOne;
    ghost var b := man.View();
    ReferencedNone(man.env, b, restore);
    for k := 0 to |entries|
      invariant AllPlaceable(b, entries[..k], restore) && man.View() == Referenced(man.env, b, entries[..k], restore)
    {
      assert entries[..k + 1][..k] == entries[..k];
      assert Placeable(b, entries[k], restore);
      assert entries[k].index in b.info.Keys;
      assert Placeable(man.View(), entries[k], restore);
      PlaceEntry(man, entries[k], restore);
    }
    assert entries[..|entries|] == entries;
  }

  // ----- vRandom, for any file -----

  lemma CreatedRandom(env: Env, b: Book, i: AddrInfo)
    requires RandomOk(b) && b.nIdCount !in b.info
    ensures RandomOk(Created(env, b, i))
  {
  }

  lemma {:induction false} NewRandom(env: Env, b: Book, xs: seq<SavedInfo>)
    requires Blank(b)
    ensures RandomOk(NewLoaded(env, b, xs))
  {
    if xs != [] {
      var n := |xs| - 1;
      NewRandom(env, b, xs[..n]);
      NewFacts(env, b, xs[..n]);
      CreatedRandom(env, NewLoaded(env, b, xs[..n]), Fresh(xs[n]));
    }
  }

  lemma EnteredRandom(env: Env, b: Book, x: SavedInfo, s: Slot)
    requires RandomOk(b) && b.nIdCount !in b.info
    ensures RandomOk(Entered(env, b, x, s))
  {
  }

  /** Entries are numbered up to nIdCount, and listed in vRandom. */
  ghost predicate Listed(b: Book) {
    RandomOk(b) && b.nIdCount >= 0 && forall id | id in b.info :: 0 <= id < b.nIdCount
  }

  lemma EnteredListed(env: Env, b: Book, x: SavedInfo, s: Slot)
    requires Listed(b)
    ensures Listed(Entered(env, b, x, s))
  {
    EnteredRandom(env, b, x, s);
  }

  lemma {:induction false} TriedListed(env: Env, b: Book, ys: seq<SavedInfo>)
    requires Full(b) && Listed(b)
    ensures Listed(TriedLoaded(env, b, ys))
  {
    hide Listed, TriedSlot, Entered;
    if ys != [] {
      var n := |ys| - 1;
      TriedListed(env, b, ys[..n]);
      var c := TriedLoaded(env, b, ys[..n]);
      var s := TriedSlot(env, c.nKey, ys[n].addr);
      SlotInTried(env, c.nKey, ys[n].addr);
      EnteredListed(env, c, ys[n], s);
    }
  }

  lemma RefListed(b: Book, s: Slot, id: int)
    requires Listed(b) && id in b.info
    ensures Listed(Ref(b, s, id))
  {
  }

  lemma {:induction false} ReferencedListed(env: Env, b: Book, es: seq<Entry>, restore: bool)
    requires Full(b) && Listed(b) && AllPlaceable(b, es, restore)
    ensures Listed(Referenced(env, b, es, restore))
  {
    hide Listed, Ref, BucketPosition, NewSlot;
    if es != [] {
      var n := |es| - 1;
      ReferencedListed(env, b, es[..n], restore);
      var c := Referenced(env, b, es[..n], restore);
      assert Placeable(b, es[n], restore);
      assert es[n].index in b.info.Keys;
      var i := c.info[es[n].index];
      RefListed(c, Slot(es[n].bucket, BucketPosition(env, c.nKey, true, es[n].bucket, i.addr)), es[n].index);
      RefListed(c, NewSlot(env, c.nKey, i.addr, i.source), es[n].index);
    }
  }

  lemma LoadedListed(env: Env, b: Book, f: File, asmap: nat)
    requires Untouched(env, b) && Readable(f)
    ensures Listed(Loaded(env, b, f, asmap))
  {
    hide Ok, NewLoaded, TriedLoaded, Referenced, NewsIn, TriedIn, Full, AllPlaceable, HasAddr;
    StartFull(env, b, f.header.nKey);
    var c := Start(b, f.header.nKey);
    NewRandom(env, c, f.news);
    BeforePlacingFacts(env, b, f);
    var d := NewLoaded(env, c, f.news);
    NewsNotTried(c, f.news, d);
    TriedListed(env, d, f.tried);
    var restore := Restoring(f.header, f.checksum, asmap);
    AllCanBePlaced(BeforePlacing(env, b, f), f, restore);
    ReferencedListed(env, BeforePlacing(env, b, f), f.entries, restore);
  }

  // ----- pruning -----

  lemma DroppedRandom(env: Env, b: Book, id: int)
    requires RandomOk(b) && id in b.info && |b.random| > 0 && b.info[id].nRandomPos == |b.random| - 1
    ensures RandomOk(Dropped(env, b, id))
  {
    hide Bump;
    var c := Dropped(env, b, id);
    forall k | 0 <= k < |c.random|
      ensures c.random[k] in c.info && c.info[c.random[k]].nRandomPos == k
    {
      assert c.random[k] == b.random[k];
    }
  }

  lemma DeletedMid(env: Env, b: Book, c: Book, id: int, zero: set<int>)
    requires Mid(env, b, zero, {}) && RandomOk(c) && SameButPos(b.info, c.info)
             && c == b.(info := c.info, random := c.random)
    requires id in b.info && !b.info[id].fInTried && b.info[id].nRefCount == 0 && |c.random| > 0
    requires id in c.info && c.info[id].nRandomPos == |c.random| - 1
    ensures Mid(env, Dropped(env, c, id), zero, {})
  {
    hide Mid, RandomOk, Dropped;
    PosKeeps(env, b, c, zero, {});
    DropKeeps(env, c, id, zero, {}, {});
    MoreZeroes(env, Dropped(env, c, id), zero - {id}, zero);
  }

  /** b without entry id. */
  ghost predicate Without(b: Book, c: Book, id: int) {
    && c.news == b.news && c.tried == b.tried && c.nKey == b.nKey && c.collisions == b.collisions
    && id !in c.info && (forall x | x != id :: AddrMan.SameEntry(b, c, x))
  }

  lemma DroppedWithout(env: Env, b: Book, c: Book, id: int)
    requires SameButPos(b.info, c.info) && c == b.(info := c.info, random := c.random) && id in c.info && |c.random| > 0
    ensures Without(b, Dropped(env, c, id), id)
  {
    hide Bump;
    forall x | x != id
      ensures AddrMan.SameEntry(b, Dropped(env, c, id), x)
    {
      assert x in b.info.Keys <==> x in c.info.Keys;
    }
  }

  /** Deletes an entry, in a book of which little is known. */
  method DeleteEntry(man: AddrMan.AddrManImpl, nId: int, ghost zero: set<int>)
    requires man.Shape() && RandomOk(man.View()) && nId in man.mapInfo
    requires !man.mapInfo[nId].fInTried && man.mapInfo[nId].nRefCount == 0
    modifies man`mapInfo, man`mapAddr, man`vRandom, man`nNew, man`networkCounts
    ensures RandomOk(man.View()) && Without(old(man.View()), man.View(), nId)
    ensures Mid(Lax(man.env), old(man.View()), zero, {}) ==> Mid(Lax(man.env), man.View(), zero, {})
  {
    hide AddrMan.TableOf, Bump, Mid, Swapped, Dropped, Without, SameButPos;
    ghost var b := man.View();
    var pos := man.mapInfo[nId].nRandomPos;
    assert 0 <= pos < |man.vRandom| && man.vRandom[pos] == nId;
    man.SwapRandom(pos, |man.vRandom| - 1);
    ghost var c := man.View();
    SwapRandomOk(b, pos, |b.random| - 1);
    man.SwapPlaces(b, pos, |b.random| - 1, nId);
    DroppedRandom(man.env, c, nId);
    DroppedWithout(man.env, b, c, nId);
    LaxDropped(man.env, c, nId);
    if Mid(Lax(man.env), b, zero, {}) {
      DeletedMid(Lax(man.env), b, c, nId, zero);
    }
    man.DropLast(nId);
  }

  lemma LaxDropped(env: Env, b: Book, id: int)
    requires id in b.info && |b.random| > 0
    ensures Dropped(Lax(env), b, id) == Dropped(env, b, id)
  {
  }

  ghost predicate Prunable(b: Book, id: int)
    requires id in b.info
  {
    !b.info[id].fInTried && b.info[id].nRefCount == 0
  }

  /** Part of the way from b to its pruned form, with the entries in rest yet to be seen. */
  ghost predicate Pruning(b: Book, rest: set<int>, c: Book) {
    && c.news == b.news && c.tried == b.tried && c.nKey == b.nKey && c.collisions == b.collisions
    && (forall id | id in rest :: id in c.info)
    && (forall id | id in c.info :: id in b.info && c.info[id] == b.info[id].(nRandomPos := c.info[id].nRandomPos))
    && (forall id | id in b.info && id !in c.info :: Prunable(b, id))
    && (forall id | id in c.info && id !in rest :: !Prunable(c, id))
  }

  lemma PruneStep(b: Book, rest: set<int>, c: Book, id: int, d: Book)
    requires Pruning(b, rest, c) && id in rest
    requires if Prunable(c, id) then Without(c, d, id) else d == c
    ensures Pruning(b, rest - {id}, d)
  {
    forall x | x != id
      ensures x in d.info <==> x in c.info
      ensures x in d.info ==> d.info[x] == c.info[x].(nRandomPos := d.info[x].nRandomPos)
    {
      assert Prunable(c, id) ==> AddrMan.SameEntry(c, d, x);
    }
  }

  ghost predicate NothingToPrune(b: Book) {
    forall id | id in b.info :: b.info[id].fInTried || b.info[id].nRefCount != 0
  }

  /** Deletes every entry without slots. */
  method Prune(man: AddrMan.AddrManImpl, ghost zero: set<int>)
    requires man.Shape() && RandomOk(man.View())
    modifies man`mapInfo, man`mapAddr, man`vRandom, man`nNew, man`networkCounts
    ensures Pruned(old(man.View()), man.View()) && man.triedCollisions == old(man.triedCollisions)
    ensures NothingToPrune(old(man.View())) ==> man.View() == old(man.View())
    ensures Mid(Lax(man.env), old(man.View()), zero, {}) ==> Mid(Lax(man.env), man.View(), {}, {})
  {
    hide AddrMan.TableOf, Mid, RandomOk, Pruning, Without;
    ghost var b := man.View();
    var rest := man.mapInfo.Keys;
    PruneStart(b);
    while rest != {}
      invariant RandomOk(man.View()) && Pruning(b, rest, man.View())
      invariant NothingToPrune(b) ==> man.View() == b
      invariant Mid(Lax(man.env), b, zero, {}) ==> Mid(Lax(man.env), man.View(), zero, {})
      decreases rest
    {
      ghost var c := man.View();
      ghost var some := SomeElement(rest);
      var id: int :| id in rest;
      RestKnown(b, rest, c, id);
      if !man.mapInfo[id].fInTried && man.mapInfo[id].nRefCount == 0 {
        DeleteEntry(man, id, zero);
      }
      PruneStep(b, rest, c, id, man.View());
      rest := rest - {id};
    }
    PruneEnd(b, rest, man.View());
    if Mid(Lax(man.env), b, zero, {}) {
      NoneWaiting(Lax(man.env), man.View(), zero);
    }
  }

  lemma PruneStart(b: Book)
    ensures Pruning(b, b.info.Keys, b)
  {
  }

  lemma RestKnown(b: Book, rest: set<int>, c: Book, id: int)
    requires Pruning(b, rest, c) && id in rest
    ensures id in c.info && id in b.info && (NothingToPrune(b) ==> !Prunable(c, id))
  {
  }

  lemma PruneEnd(b: Book, rest: set<int>, c: Book)
    requires Pruning(b, rest, c) && rest == {}
    ensures Pruned(b, c) && c.collisions == b.collisions && NothingToPrune(c)
  {
  }

  lemma NoneWaiting(env: Env, b: Book, zero: set<int>)
    requires Mid(env, b, zero, {}) && NothingToPrune(b)
    ensures Mid(env, b, {}, {})
  {
    hide IdsOk, AddrsOk, RandomOk, TalliesOk, TriedOk, NewOk, TimesOk, RoutesOk;
  }

  // ----- the whole file -----

  /** The check does not depend on which addresses are admitted. */
  lemma LaxChecked(env: Env, b: Book)
    requires Mid(Lax(env), b, {}, {}) && b.nKey != 0 && b.collisions == {}
    ensures Checked(env, b)
  {
    hide Mid, Checked;
    LaxOk(env, b);
    OkChecked(Lax(env), b);
    SameCheck(env, b);
  }

  lemma LaxOk(env: Env, b: Book)
    requires Mid(Lax(env), b, {}, {}) && b.nKey != 0 && b.collisions == {}
    ensures Ok(Lax(env), b)
  {
    hide Mid;
  }

  lemma SameCheck(env: Env, b: Book)
    requires Checked(Lax(env), b)
    ensures Checked(env, b)
  {
    SameCounts(env, b);
    SameSlots(env, b);
  }

  lemma SameCounts(env: Env, b: Book)
    ensures CountsChecked(Lax(env), b) == CountsChecked(env, b)
    ensures NumbersChecked(Lax(env), b) == NumbersChecked(env, b)
  {
    forall t, net
      ensures Members(Lax(env), b.info, {}, t, net) == Members(env, b.info, {}, t, net)
    {
    }
    assert Networks(Lax(env), b.info) == Networks(env, b.info);
  }

  lemma SameSlots(env: Env, b: Book)
    requires TablesChecked(Lax(env), b)
    ensures TablesChecked(env, b)
  {
    forall s | InTried(s)
      ensures TriedChecked(env, b, s)
    {
      assert TriedChecked(Lax(env), b, s);
    }
    forall s | InNew(s)
      ensures NewChecked(env, b, s)
    {
      assert NewChecked(Lax(env), b, s);
    }
  }

  ghost predicate Routed(env: Env, xs: seq<SavedInfo>) {
    forall k | 0 <= k < |xs| :: env.isRoutable(xs[k].addr.ip)
  }

  /** A book that is sound but for the addresses admitted is sound if they are. */
  lemma RoutedOk(env: Env, b: Book)
    requires Mid(Lax(env), b, {}, {}) && b.nKey != 0 && b.collisions == {} && RoutesOk(env, b)
    ensures Ok(env, b)
  {
    hide IdsOk, AddrsOk, RandomOk, RefsOk, RangesOk, TimesOk, TalliesOk, TriedOk, NewOk;
    SameTallies(env, b);
    SameTables(env, b);
  }

  lemma SameTallies(env: Env, b: Book)
    requires TalliesOk(Lax(env), b, {})
    ensures TalliesOk(env, b, {})
  {
    forall t, net
      ensures Members(Lax(env), b.info, {}, t, net) == Members(env, b.info, {}, t, net)
    {
    }
  }

  lemma SameTables(env: Env, b: Book)
    ensures TriedOk(Lax(env), b) ==> TriedOk(env, b)
    ensures NewOk(Lax(env), b) ==> NewOk(env, b)
  {
  }

  /** All entries loaded have addresses the file lists. */
  lemma LoadedAddrs(env: Env, b: Book, f: File, asmap: nat, c: Book)
    requires Untouched(env, b) && Readable(f) && Pruned(Loaded(env, b, f, asmap), c)
    requires AddrsOk(Loaded(env, b, f, asmap)) && Routed(env, f.news + f.tried)
    ensures RoutesOk(env, c)
  {
    hide Ok, NewLoaded, TriedLoaded, Referenced, NewsIn, Full, AllPlaceable;
    BeforePlacingFacts(env, b, f);
    var d := BeforePlacing(env, b, f);
    var restore := Restoring(f.header, f.checksum, asmap);
    AllCanBePlaced(d, f, restore);
    var e := Loaded(env, b, f, asmap);
    ReferencedAddrs(env, d, f.entries, restore);
    forall id | id in c.info
      ensures env.isRoutable(c.info[id].addr.ip)
    {
      assert e.info[id].addr in e.addr;
      assert HasAddr(f.news + f.tried, e.info[id].addr);
    }
  }

  lemma {:induction false} ReferencedAddrs(env: Env, b: Book, es: seq<Entry>, restore: bool)
    requires Full(b) && AllPlaceable(b, es, restore)
    ensures Referenced(env, b, es, restore).addr == b.addr
  {
    if es != [] {
      ReferencedAddrs(env, b, es[..|es| - 1], restore);
      assert Placeable(b, es[|es| - 1], restore);
    }
  }

  lemma MidAddrs(env: Env, b: Book, zero: set<int>)
    requires Mid(env, b, zero, {})
    ensures AddrsOk(b)
  {
  }

  /** Reads everything there is to read, up to placing the references. */
  method LoadEntries(man: AddrMan.AddrManImpl, s: seq<Token>, asmap: nat, ghost b: Book)
    returns (r: Outcome, ghost f: File)
    requires man.Shape() && b == man.View() && Untouched(man.env, b)
    modifies man`nKey, man`nIdCount, man`mapInfo, man`mapAddr, man`vRandom, man`nTried, man`nNew, man`networkCounts,
             man.vvTried, man.vvNew
    ensures ReadFile(s).Fail? ==> r == Failure(ReadFile(s).error)
    ensures ReadFile(s).Got? ==> r.Success? && f == ReadFile(s).value && Readable(f)
    ensures ReadFile(s).Got? ==> man.View() == Loaded(man.env, b, f, asmap)
  {
    hide AddrMan.TableOf, ReadInfos, ReadBuckets, NewLoaded, TriedLoaded, Referenced, Ok, ReadHeader, Readable, Full,
         NewsIn, TriedIn, NoneTried, HasAddr;
    f := File(Header(0, 0, 0, 0, 0), [], [], [], 0);
    var h := ReadHeader(s);
    if h.Fail? {
      return Failure(h.error), f;
    }
    man.nKey := h.value.nKey;
    man.nNew := h.value.nNew;
    man.nTried := h.value.nTried;
    ghost var base := Start(b, h.value.nKey);
    StartFull(man.env, b, h.value.nKey);
    var news: Reading<()>;
    ghost var xs;
    news, xs := LoadNews(man, h.rest, base);
    if news.Fail? {
      return Failure(news.error), f;
    }
    man.nIdCount := man.nNew;
    ghost var d := NewLoaded(man.env, base, xs);
    NewFacts(man.env, base, xs);
    CountsSet(base, xs, d, man.View());
    var tried: Reading<()>;
    ghost var ys;
    tried, ys := LoadTried(man, news.rest, d);
    if tried.Fail? {
      return Failure(tried.error), f;
    }
    var entries := LoadBuckets(tried.rest, h.value.nUBuckets, h.value.nNew);
    if entries.Fail? {
      return Failure(entries.error), f;
    }
    BucketsKept(tried.rest, 0, h.value.nUBuckets, h.value.nNew);
    var sum := ReadChecksum(entries.rest, h.value.format);
    if sum.Fail? {
      return Failure(sum.error), f;
    }
    f := File(h.value, xs, ys, entries.value, sum.value);
    NowReadable(f);
    var restore := h.value.nUBuckets == NEW_BUCKET_COUNT && sum.value == asmap;
    BeforePlacingFacts(man.env, b, f);
    assert man.View() == BeforePlacing(man.env, b, f);
    AllCanBePlaced(man.View(), f, restore);
    LoadedFull(man.env, b, f);
    PlaceEntries(man, entries.value, restore);
    return Success, f;
  }

  lemma LoadedFull(env: Env, b: Book, f: File)
    requires Untouched(env, b)
    ensures Full(BeforePlacing(env, b, f))
  {
  }

  lemma NowReadable(f: File)
    requires |f.news| == f.header.nNew && |f.tried| == f.header.nTried
             && KeptBelow(f.entries, f.header.nUBuckets, f.header.nNew)
    ensures Readable(f)
  {
  }

  lemma CountsSet(base: Book, xs: seq<SavedInfo>, d: Book, v: Book)
    requires NewsIn(base, xs, d) && base.nTried == 0 && Full(base)
    requires v == Ahead(d, |xs|, |xs|, v.nTried)
    ensures v == Ahead(d, d.nIdCount, d.nNew, v.nTried) && Full(d) && d.nTried == 0
  {
  }

  /** Loads a file into an address manager nothing was added to yet. Any file that can be
      read either fails the final check or leaves what the manager checks of itself true; a
      file that lists no address twice and no impossible time passes. */
  method Unserialize(man: AddrMan.AddrManImpl, s: seq<Token>, asmap: nat) returns (r: Outcome, ghost f: File)
    requires man.Shape() && Untouched(man.env, man.View())
    modifies man`nKey, man`nIdCount, man`mapInfo, man`mapAddr, man`vRandom, man`nTried, man`nNew, man`networkCounts,
             man.vvTried, man.vvNew
    ensures ReadFile(s).Fail? ==> r == Failure(ReadFile(s).error)
    ensures ReadFile(s).Got? ==>
              && f == ReadFile(s).value && Readable(f) && Untouched(man.env, old(man.View()))
              && Pruned(Loaded(man.env, old(man.View()), f, asmap), man.View())
              && (NothingToPrune(Loaded(man.env, old(man.View()), f, asmap)) ==>
                  man.View() == Loaded(man.env, old(man.View()), f, asmap))
    ensures ReadFile(s).Got? ==> r == if Checked(man.env, man.View()) then Success else Failure(Corrupted)
    ensures ReadFile(s).Got? && Sound(f) ==> r.Success?
    ensures ReadFile(s).Got? && Sound(f) && Routed(man.env, f.news + f.tried) ==> man.Valid()
  {
    hide AddrMan.TableOf, ReadFile, Loaded, Untouched, Readable, Checked, Pruned, NothingToPrune, Sound, Routed, Mid,
         Listed, Ok;
    ghost var b := man.View();
    r, f := LoadEntries(man, s, asmap, b);
    if r.Failure? {
      return;
    }
    ghost var c := man.View();
    LoadedListed(man.env, b, f, asmap);
    ListedParts(c);
    ghost var zero := Ids(|f.news|);
    if Sound(f) {
      LoadedMid(man.env, b, f, asmap);
    }
    LoadedCollisions(man.env, b, f, asmap);
    Prune(man, zero);
    PrunedParts(c, man.View());
    if Sound(f) {
      LaxChecked(man.env, man.View());
      if Routed(man.env, f.news + f.tried) {
        MidAddrs(Lax(man.env), c, zero);
        LoadedAddrs(man.env, b, f, asmap, man.View());
        RoutedOk(man.env, man.View());
      }
    }
    var checkCode := man.CheckAddrman();
    if checkCode != 0 {
      r := Failure(Corrupted);
    }
  }

  lemma ListedParts(b: Book)
    requires Listed(b)
    ensures RandomOk(b) && forall id | id in b.info :: id >= 0
  {
  }

  lemma PrunedParts(b: Book, c: Book)
    requires Pruned(b, c)
    ensures c.nKey == b.nKey && forall id | id in c.info :: id in b.info
  {
  }

  lemma LoadedCollisions(env: Env, b: Book, f: File, asmap: nat)
    requires Untouched(env, b) && Readable(f)
    ensures Loaded(env, b, f, asmap).collisions == {} && Loaded(env, b, f, asmap).nKey == f.header.nKey
  {
    hide Ok, NewLoaded, TriedLoaded, Referenced, Full, AllPlaceable, NoneTried;
    StartFull(env, b, f.header.nKey);
    BeforePlacingFacts(env, b, f);
    var c := Start(b, f.header.nKey);
    var d, e := NewLoaded(env, c, f.news), BeforePlacing(env, b, f);
    var restore := Restoring(f.header, f.checksum, asmap);
    AllCanBePlaced(e, f, restore);
    SameKey(env, c, f.news);
    TriedSameKey(env, d, f.tried);
    ReferencedSameKey(env, e, f.entries, restore);
  }

  /** Saving an address manager and loading the file with the same asmap gives one with the
      same entries in the same places. */
  method Reload(man: AddrMan.AddrManImpl, asmap: nat) returns (again: AddrMan.AddrManImpl, ghost all: seq<int>)
    requires man.Valid() && RoutableIsValid(man.env)
    ensures again.Valid() && Restores(man.View(), again.View(), all)
  {
    hide AddrMan.TableOf, ReadFile, Loaded, Readable, Checked, Pruned, Sound, Routed, Ok, Restores, Orders, Encode,
         Untouched, NothingToPrune, FileOf, RoutableIsValid, Known, FullNews;
    ghost var b := man.View();
    var s;
    ghost var newIds, triedIds;
    s, newIds, triedIds := Serialize(man, asmap);
    again := new AddrMan.AddrManImpl(man.env, 1);
    ghost var blank := again.View();
    NewIsUntouched(man.env, blank);
    ReloadFacts(man.env, b, newIds, triedIds, asmap, blank);
    all := newIds + triedIds;
    var r;
    ghost var f;
    r, f := Unserialize(again, s, asmap);
  }

  lemma ReloadFacts(env: Env, b: Book, newIds: seq<int>, triedIds: seq<int>, asmap: nat, blank: Book)
    requires Ok(env, b) && RoutableIsValid(env) && Orders(b, newIds, triedIds) && Untouched(env, blank)
    ensures FullNews(b) && Known(b, newIds) && Known(b, triedIds) && |newIds| == b.nNew && |triedIds| == b.nTried
    ensures var f := FileOf(b, newIds, triedIds, asmap);
            && ReadFile(Encode(b, newIds, triedIds, asmap)) == Got(f, [])
            && Readable(f) && Sound(f) && Routed(env, f.news + f.tried)
            && NothingToPrune(Loaded(env, blank, f, asmap))
               && Restores(b, Loaded(env, blank, f, asmap), newIds + triedIds)
  {
    hide ReadFile, Loaded, Readable, Sound, Routed, Ok, Restores, Orders, Encode, Untouched, RoutableIsValid;
    SavedIsSound(env, b, newIds, triedIds, asmap);
    RoundTrip(env, b, newIds, triedIds, asmap, blank);
    SavedRouted(env, b, newIds, triedIds);
  }

  lemma NewIsUntouched(env: Env, b: Book)
    requires Ok(env, b) && b.info == map[] && b.random == [] && b.collisions == {}
    ensures Untouched(env, b)
  {
    hide RandomOk, TalliesOk, TriedOk, NewOk, RefsOk, RangesOk, TimesOk, CollisionsBut;
    forall a
      ensures a !in b.addr
    {
      assert a in b.addr ==> LeadsTo(b, a);
    }
    assert b.addr == map[];
  }

  lemma SavedRouted(env: Env, b: Book, newIds: seq<int>, triedIds: seq<int>)
    requires Ok(env, b) && Known(b, newIds) && Known(b, triedIds)
    ensures Routed(env, SavedInfos(b, newIds) + SavedInfos(b, triedIds))
  {
    hide AddrsOk, RandomOk, TalliesOk, TriedOk, NewOk, RefsOk, RangesOk, TimesOk, CollisionsBut;
    var xs, ys := SavedInfos(b, newIds), SavedInfos(b, triedIds);
    var zs: seq<SavedInfo> := xs + ys;
    forall k | 0 <= k < |zs|
      ensures env.isRoutable(zs[k].addr.ip)
    {
      var id := if k < |xs| then newIds[k] else triedIds[k - |xs|];
      assert zs[k] == Saved(b.info[id]);
      assert env.isRoutable(b.info[id].addr.ip);
    }
  }
}
