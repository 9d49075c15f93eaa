/** Loading the file an address manager was saved to restores it (src/addrman.cpp). */
module AddrRestores {

  import opened Collections
  import opened AddrBooks
  import opened AddrChecks
  import opened AddrFiles
  import opened AddrLoads
  import AddrMan

  ghost predicate Different(ids: seq<int>) {
    forall j, k | 0 <= j < k < |ids| :: ids[j] != ids[k]
  }

  /** newIds and triedIds list the entries of the two kinds, each once. */
  ghost predicate Orders(b: Book, newIds: seq<int>, triedIds: seq<int>) {
    && Different(newIds) && Different(triedIds)
    && (forall id :: id in newIds <==> id in b.info && !b.info[id].fInTried)
    && (forall id :: id in triedIds <==> id in b.info && b.info[id].fInTried)
  }

  /** What is left of an entry: all but two times kept in memory only. */
  ghost function Remembered(i: AddrInfo): AddrInfo {
    i.(lastTry := 0, lastCountAttempt := 0)
  }

  /** Slot s holds nothing in either table, or the same entry by its new number. */
  ghost predicate SameHolder(t: map<Slot, int>, u: map<Slot, int>, all: seq<int>, s: Slot) {
    && s in t && s in u
    && (t[s] == -1 ==> u[s] == -1)
    && (t[s] != -1 ==> 0 <= u[s] < |all| && all[u[s]] == t[s])
  }

  /** c is b with entry all[k] renumbered k: every entry with its references or its tried
      slot, at the same places of both tables, and none besides. */
  ghost predicate Restores(b: Book, c: Book, all: seq<int>) {
    && Different(all) && (forall id :: id in all <==> id in b.info)
    && (forall k :: k in c.info <==> 0 <= k < |all|)
    && (forall k | 0 <= k < |all| :: c.info[k] == Remembered(b.info[all[k]]).(nRandomPos := c.info[k].nRandomPos))
    && (forall s | InNew(s) :: SameHolder(b.news, c.news, all, s))
    && (forall s | InTried(s) :: SameHolder(b.tried, c.tried, all, s))
    && c.nKey == b.nKey && c.nNew == b.nNew && c.nTried == b.nTried
  }

  // ----- how many entries there can be -----

  lemma {:induction false} FewerThanSlots(table: map<Slot, int>, slots: set<Slot>, ids: set<int>)
    requires forall id | id in ids :: exists s :: s in slots && s in table && table[s] == id
    ensures |ids| <= |slots|
    decreases ids
  {
    if ids != {} {
      var id := SomeElement(ids);
      var s :| s in slots && s in table && table[s] == id;
      forall x | x in ids - {id}
        ensures exists y :: y in slots - {s} && y in table && table[y] == x
      {
        var y :| y in slots && y in table && table[y] == x;
        assert y in slots - {s};
      }
      FewerThanSlots(table, slots - {s}, ids - {id});
    }
  }

  lemma {:induction false} RowSize(bucket: nat, size: nat)
    ensures |Row(bucket, size)| == size
  {
    if size == 0 {
      assert Row(bucket, 0) == {};
    } else {
      RowSize(bucket, size - 1);
      assert Row(bucket, size) == Row(bucket, size - 1) + {Slot(bucket, size - 1)};
    }
  }

  ghost function Row(bucket: nat, size: nat): set<Slot> {
    set s | s in AddrMan.Slots(bucket + 1, size) && s.bucket == bucket
  }

  lemma {:induction false} GridSize(buckets: nat, size: nat)
    ensures |AddrMan.Slots(buckets, size)| == buckets * size
  {
    if buckets == 0 {
      assert AddrMan.Slots(0, size) == {};
    } else {
      GridSize(buckets - 1, size);
      RowSize(buckets - 1, size);
      var a, r := AddrMan.Slots(buckets - 1, size), Row(buckets - 1, size);
      forall s
        ensures s in AddrMan.Slots(buckets, size) <==> s in a || s in r
        ensures !(s in a && s in r)
      {
        AddrMan.InSlots(buckets, size, s);
        AddrMan.InSlots(buckets - 1, size, s);
      }
      assert AddrMan.Slots(buckets, size) == a + r;
      assert a !! r;
      assert buckets * size == (buckets - 1) * size + size;
    }
  }

  lemma TablesBound(env: Env, b: Book)
    requires Ok(env, b)
    ensures 0 <= b.nNew <= NEW_BUCKET_COUNT * BUCKET_SIZE
    ensures 0 <= b.nTried <= TRIED_BUCKET_COUNT * BUCKET_SIZE
  {
    hide AddrsOk, RandomOk, TimesOk, RoutesOk, CollisionsBut, TriedSlot, BucketPosition;
    var news, tried := Members(env, b.info, {}, false, ANY), Members(env, b.info, {}, true, ANY);
    forall id | id in news
      ensures exists s :: s in AddrMan.Slots(NEW_BUCKET_COUNT, BUCKET_SIZE) && s in b.news && b.news[s] == id
    {
      assert Holders(b.news, id) != {};
      var s :| s in Holders(b.news, id);
      AddrMan.InSlots(NEW_BUCKET_COUNT, BUCKET_SIZE, s);
    }
    FewerThanSlots(b.news, AddrMan.Slots(NEW_BUCKET_COUNT, BUCKET_SIZE), news);
    GridSize(NEW_BUCKET_COUNT, BUCKET_SIZE);
    forall id | id in tried
      ensures exists s :: s in AddrMan.Slots(TRIED_BUCKET_COUNT, BUCKET_SIZE) && s in b.tried && b.tried[s] == id
    {
      var s := TriedSlot(env, b.nKey, b.info[id].addr);
      SlotInTried(env, b.nKey, b.info[id].addr);
      AddrMan.InSlots(TRIED_BUCKET_COUNT, BUCKET_SIZE, s);
    }
    FewerThanSlots(b.tried, AddrMan.Slots(TRIED_BUCKET_COUNT, BUCKET_SIZE), tried);
    GridSize(TRIED_BUCKET_COUNT, BUCKET_SIZE);
  }

  // ----- the tried table -----

  /** The slot in the reloaded tried table once k entries are in. */
  ghost function TriedAt(b: Book, triedIds: seq<int>, n: nat, k: nat, s: Slot): int
    requires s in b.tried
  {
    if b.tried[s] == -1 || IndexIn(triedIds, b.tried[s]) >= k then -1 else n + IndexIn(triedIds, b.tried[s])
  }

  /** c is d with the first k tried entries back in their slots. */
  ghost predicate TriedBack(b: Book, triedIds: seq<int>, d: Book, c: Book, k: nat)
    requires Known(b, triedIds) && Full(b)
  {
    && k <= |triedIds| && d.nIdCount >= 0
    && c == d.(nIdCount := d.nIdCount + k, nTried := d.nTried + k, info := c.info, addr := c.addr, random := c.random,
               tried := c.tried, counts := c.counts)
    && EntriesAdded(b, triedIds, d, c, k) && SlotsTaken(b, triedIds, d.nIdCount, c, k)
  }

  ghost predicate EntriesAdded(b: Book, triedIds: seq<int>, d: Book, c: Book, k: nat)
    requires Known(b, triedIds) && k <= |triedIds|
  {
    var n := d.nIdCount;
    && (forall id :: id in c.info <==> id in d.info || n <= id < n + k)
    && (forall id | id in d.info :: c.info[id] == d.info[id])
    && (forall j | 0 <= j < k ::
          c.info[n + j] == Fresh(Saved(b.info[triedIds[j]])).(fInTried := true, nRandomPos := c.info[n + j].nRandomPos))
  }

  ghost predicate SlotsTaken(b: Book, triedIds: seq<int>, n: nat, c: Book, k: nat)
    requires Full(b)
  {
    forall s | InTried(s) :: s in c.tried && c.tried[s] == TriedAt(b, triedIds, n, k, s)
  }

  lemma IndexOf(ids: seq<int>, k: nat)
    requires Different(ids) && k < |ids|
    ensures IndexIn(ids, ids[k]) == k
  {
  }

  lemma IndexOther(ids: seq<int>, k: nat, id: int)
    requires k < |ids| && id != ids[k]
    ensures IndexIn(ids, id) != k
  {
  }

  ghost predicate RoutableIsValid(env: Env) {
    forall ip | env.isRoutable(ip) :: env.isValid(ip)
  }

  lemma TriedBackStep(env: Env, b: Book, triedIds: seq<int>, d: Book, c: Book, k: nat)
    requires Ok(env, b) && RoutableIsValid(env) && Known(b, triedIds) && Full(b) && Full(c)
    requires Different(triedIds) && (forall id | id in triedIds :: id in b.info && b.info[id].fInTried)
    requires (forall id | id in d.info :: id < d.nIdCount) && d.nKey == b.nKey
    requires k < |triedIds| && TriedBack(b, triedIds, d, c, k)
    ensures TriedBack(b, triedIds, d, TriedOne(env, c, Saved(b.info[triedIds[k]])), k + 1)
  {
    hide AddrsOk, RandomOk, TalliesOk, NewOk, RefsOk, RangesOk, TimesOk, CollisionsBut, TriedSlot, Bump, IndexIn;
    var id := triedIds[k];
    var x := Saved(b.info[id]);
    var s := TriedSlot(env, b.nKey, x.addr);
    SlotInTried(env, b.nKey, x.addr);
    assert id in triedIds;
    IndexOf(triedIds, k);
    assert b.tried[s] == id;
    assert TriedOne(env, c, x) == Entered(env, c, x, s);
    forall y | InTried(y) && y != s && b.tried[y] != -1
      ensures IndexIn(triedIds, b.tried[y]) != k
    {
      IndexOther(triedIds, k, b.tried[y]);
    }
    EnteredBack(env, b, triedIds, d, c, k, s);
  }

  lemma EnteredBack(env: Env, b: Book, triedIds: seq<int>, d: Book, c: Book, k: nat, s: Slot)
    requires Known(b, triedIds) && Full(b) && TriedBack(b, triedIds, d, c, k) && k < |triedIds|
    requires (forall id | id in d.info :: id < d.nIdCount)
    requires InTried(s) && b.tried[s] == triedIds[k] && triedIds[k] != -1 && IndexIn(triedIds, triedIds[k]) == k
    requires forall y | InTried(y) && y != s && b.tried[y] != -1 :: IndexIn(triedIds, b.tried[y]) != k
    ensures TriedBack(b, triedIds, d, Entered(env, c, Saved(b.info[triedIds[k]]), s), k + 1)
  {
    hide Bump, IndexIn, Saved, Fresh, EntriesAdded, SlotsTaken;
    EnteredEntry(env, b, triedIds, d, c, k, s);
    EnteredSlot(env, b, triedIds, d.nIdCount, c, k, s);
  }

  lemma EnteredEntry(env: Env, b: Book, triedIds: seq<int>, d: Book, c: Book, k: nat, s: Slot)
    requires Known(b, triedIds) && k < |triedIds| && EntriesAdded(b, triedIds, d, c, k) && c.nIdCount == d.nIdCount + k
    requires (forall id | id in d.info :: id < d.nIdCount)
    ensures EntriesAdded(b, triedIds, d, Entered(env, c, Saved(b.info[triedIds[k]]), s), k + 1)
  {
    hide Bump, Saved, Fresh;
  }

  lemma EnteredSlot(env: Env, b: Book, triedIds: seq<int>, n: nat, c: Book, k: nat, s: Slot)
    requires Known(b, triedIds) && Full(b) && k < |triedIds| && SlotsTaken(b, triedIds, n, c, k) && c.nIdCount == n + k
    requires InTried(s) && b.tried[s] == triedIds[k] && triedIds[k] != -1 && IndexIn(triedIds, triedIds[k]) == k
    requires forall y | InTried(y) && y != s && b.tried[y] != -1 :: IndexIn(triedIds, b.tried[y]) != k
    ensures SlotsTaken(b, triedIds, n, Entered(env, c, Saved(b.info[triedIds[k]]), s), k + 1)
  {
    hide Bump, IndexIn, Saved, Fresh;
  }

  lemma {:induction false} TriedAllBack(env: Env, b: Book, triedIds: seq<int>, d: Book, k: nat)
    requires Ok(env, b) && RoutableIsValid(env) && Known(b, triedIds) && Full(b) && Full(d)
    requires Different(triedIds) && (forall id | id in triedIds :: id in b.info && b.info[id].fInTried)
    requires (forall id | id in d.info :: id < d.nIdCount) && d.nKey == b.nKey && d.nIdCount >= 0
    requires forall s | InTried(s) :: d.tried[s] == -1
    requires k <= |triedIds|
    ensures TriedBack(b, triedIds, d, TriedLoaded(env, d, SavedInfos(b, triedIds)[..k]), k)
  {
    hide Ok, IndexIn, TriedOne;
    if k == 0 {
      NotBelowZero(b, triedIds, d.nIdCount);
    } else {
      var xs := SavedInfos(b, triedIds);
      TriedAllBack(env, b, triedIds, d, k - 1);
      assert xs[..k][..k - 1] == xs[..k - 1];
      TriedBackStep(env, b, triedIds, d, TriedLoaded(env, d, xs[..k - 1]), k - 1);
    }
  }

  lemma NotBelowZero(b: Book, triedIds: seq<int>, n: nat)
    ensures forall s | s in b.tried :: TriedAt(b, triedIds, n, 0, s) == -1
  {
  }

  // ----- the new table -----

  /** c is e with the references from the slots before position pos of a bucket back. */
  ghost predicate RefsBack(b: Book, ids: seq<int>, e: Book, c: Book, bucket: nat, pos: nat)
    requires Full(b)
  {
    && c == e.(info := c.info, news := c.news) && c.info.Keys == e.info.Keys
    && (forall s | InNew(s) :: s in c.news && c.news[s] == NewAt(b, ids, bucket, pos, s))
    && (forall k | 0 <= k < |ids| ::
        k in e.info && c.info[k] == e.info[k].(nRefCount := |HeldBefore(b.news, ids[k], bucket, pos)|))
    && (forall id | id in e.info && id >= |ids| :: c.info[id] == e.info[id])
  }

  ghost function NewAt(b: Book, ids: seq<int>, bucket: nat, pos: nat, s: Slot): int
    requires s in b.news
  {
    if Before(s, bucket, pos) && b.news[s] != -1 then IndexIn(ids, b.news[s]) else -1
  }

  /** e holds the new entries of b, in the order of ids, with no reference yet. */
  ghost predicate Waiting(b: Book, ids: seq<int>, e: Book) {
    && Different(ids) && (forall id :: id in ids <==> id in b.info && !b.info[id].fInTried)
    && e.nKey == b.nKey
    && (forall k | 0 <= k < |ids| ::
        k in e.info && e.info[k] == Fresh(Saved(b.info[ids[k]])).(nRandomPos := e.info[k].nRandomPos))
    && (forall s | InNew(s) :: s in e.news && e.news[s] == -1)
  }

  lemma HeldGrows(table: map<Slot, int>, x: int, s: Slot)
    requires s in table && table[s] == x
    ensures s.bucket < NEW_BUCKET_COUNT && s.pos < BUCKET_SIZE ==>
              |HeldBefore(table, x, s.bucket, s.pos + 1)| == |HeldBefore(table, x, s.bucket, s.pos)| + 1
    ensures |HeldBefore(table, x, s.bucket, s.pos)| < |Holders(table, x)|
  {
    HeldNext(table, x, s.bucket, s.pos);
    var a, all := HeldBefore(table, x, s.bucket, s.pos), Holders(table, x);
    assert a + {s} <= all;
    NotLarger(a + {s}, all);
  }

  lemma HeldSame(table: map<Slot, int>, x: int, s: Slot)
    requires s in table && table[s] != x
    ensures HeldBefore(table, x, s.bucket, s.pos + 1) == HeldBefore(table, x, s.bucket, s.pos)
  {
    HeldNext(table, x, s.bucket, s.pos);
  }

  lemma EmptySlotBack(b: Book, ids: seq<int>, e: Book, c: Book, s: Slot)
    requires Full(b) && InNew(s) && b.news[s] == -1 && RefsBack(b, ids, e, c, s.bucket, s.pos)
    requires forall k | 0 <= k < |ids| :: ids[k] != -1
    ensures RefsBack(b, ids, e, c, s.bucket, s.pos + 1)
  {
    hide IndexIn;
    forall k | 0 <= k < |ids|
      ensures HeldBefore(b.news, ids[k], s.bucket, s.pos + 1) == HeldBefore(b.news, ids[k], s.bucket, s.pos)
    {
      HeldSame(b.news, ids[k], s);
    }
    forall y | InNew(y)
      ensures NewAt(b, ids, s.bucket, s.pos + 1, y) == NewAt(b, ids, s.bucket, s.pos, y)
    {
      BeforeNext(y, s.bucket, s.pos);
    }
  }

  /** The reference goes back to the slot it came from. */
  lemma SlotTaken(env: Env, b: Book, ids: seq<int>, e: Book, c: Book, s: Slot, k: nat)
    requires Ok(env, b) && RoutableIsValid(env) && Full(b) && Full(c) && Waiting(b, ids, e)
    requires InNew(s) && RefsBack(b, ids, e, c, s.bucket, s.pos)
    requires k < |ids| && b.news[s] == ids[k] && b.news[s] != -1
    ensures k in c.info && ReferencedOne(env, c, Entry(s.bucket, k), true) == Ref(c, s, k)
  {
    hide AddrsOk, RandomOk, TalliesOk, TriedOk, TimesOk, CollisionsBut, BucketPosition, HeldBefore, Holders, IndexIn,
         Before;
    var id := ids[k];
    assert id in ids;
    HeldGrows(b.news, id, s);
    BeforeSelf(s);
    assert c.info[k].nRefCount < b.info[id].nRefCount <= NEW_BUCKETS_PER_ADDRESS;
    assert c.info[k].addr == b.info[id].addr;
    assert BucketPosition(env, c.nKey, true, s.bucket, c.info[k].addr) == s.pos;
    assert c.news[s] == -1;
  }

  lemma BeforeSelf(s: Slot)
    ensures !Before(s, s.bucket, s.pos)
  {
  }

  lemma HeldSlotBack(b: Book, ids: seq<int>, e: Book, c: Book, s: Slot, k: nat)
    requires Full(b) && InNew(s) && RefsBack(b, ids, e, c, s.bucket, s.pos) && Different(ids)
    requires k < |ids| && b.news[s] == ids[k] && b.news[s] != -1 && k in c.info
    ensures RefsBack(b, ids, e, Ref(c, s, k), s.bucket, s.pos + 1)
  {
    hide IndexIn, HeldBefore, Before;
    IndexOf(ids, k);
    var d := Ref(c, s, k);
    forall j | 0 <= j < |ids|
      ensures d.info[j] == e.info[j].(nRefCount := |HeldBefore(b.news, ids[j], s.bucket, s.pos + 1)|)
    {
      if j == k {
        HeldGrows(b.news, ids[k], s);
      } else {
        HeldSame(b.news, ids[j], s);
      }
    }
    forall y | InNew(y)
      ensures y in d.news && d.news[y] == NewAt(b, ids, s.bucket, s.pos + 1, y)
    {
      BeforeNext(y, s.bucket, s.pos);
    }
  }

  // ----- all references -----

  lemma {:induction false} ReferencedSplit(env: Env, b: Book, xs: seq<Entry>, ys: seq<Entry>, restore: bool)
    requires Full(b) && AllPlaceable(b, xs + ys, restore)
    ensures AllPlaceable(b, xs, restore) && AllPlaceable(Referenced(env, b, xs, restore), ys, restore)
    ensures Referenced(env, b, xs + ys, restore) == Referenced(env, Referenced(env, b, xs, restore), ys, restore)
    decreases |ys|
  {
    hide ReferencedOne;
    PlaceableParts(b, xs, ys, restore);
    var c := Referenced(env, b, xs, restore);
    KeysPlaceable(b, c, ys, restore);
    if ys == [] {
      assert xs + ys == xs;
    } else {
      var n := |ys| - 1;
      var all := xs + ys;
      assert all[..|all| - 1] == xs + ys[..n] && all[|all| - 1] == ys[n];
      PlaceableFront(b, all, restore);
      ReferencedSplit(env, b, xs, ys[..n], restore);
    }
  }

  lemma PlaceableParts(b: Book, xs: seq<Entry>, ys: seq<Entry>, restore: bool)
    requires AllPlaceable(b, xs + ys, restore)
    ensures AllPlaceable(b, xs, restore) && AllPlaceable(b, ys, restore)
  {
    forall k | 0 <= k < |xs|
      ensures Placeable(b, xs[k], restore)
    {
      assert (xs + ys)[k] == xs[k];
    }
    forall k | 0 <= k < |ys|
      ensures Placeable(b, ys[k], restore)
    {
      assert (xs + ys)[|xs| + k] == ys[k];
    }
  }

  lemma PlaceableFront(b: Book, xs: seq<Entry>, restore: bool)
    requires xs != [] && AllPlaceable(b, xs, restore)
    ensures AllPlaceable(b, xs[..|xs| - 1], restore)
  {
  }

  lemma KeysPlaceable(b: Book, c: Book, xs: seq<Entry>, restore: bool)
    requires AllPlaceable(b, xs, restore) && c.info.Keys == b.info.Keys
    ensures AllPlaceable(c, xs, restore)
  {
    forall k | 0 <= k < |xs|
      ensures Placeable(c, xs[k], restore)
    {
      assert Placeable(b, xs[k], restore);
      assert xs[k].index in b.info.Keys;
    }
  }

  lemma ReferencedSingle(env: Env, b: Book, x: Entry, restore: bool)
    requires Full(b) && Placeable(b, x, restore)
    ensures AllPlaceable(b, [x], restore) && Referenced(env, b, [x], restore) == ReferencedOne(env, b, x, restore)
  {
    hide ReferencedOne;
    assert [x][..0] == [];
    assert Referenced(env, b, [], restore) == b;
  }

  /** One slot: its entry, if it holds one, is placed back. */
  lemma SlotBack(env: Env, b: Book, ids: seq<int>, e: Book, c: Book, s: Slot)
    requires Ok(env, b) && RoutableIsValid(env) && Full(b) && Full(c) && Waiting(b, ids, e) && ListsHeld(b, ids)
    requires InNew(s) && RefsBack(b, ids, e, c, s.bucket, s.pos)
    requires AllPlaceable(c, Entries(s.bucket, SlotIndex(b, ids, s)), true)
    ensures RefsBack(b, ids, e, Referenced(env, c, Entries(s.bucket, SlotIndex(b, ids, s)), true), s.bucket, s.pos + 1)
  {
    hide Ok, RefsBack, ReferencedOne;
    var es := Entries(s.bucket, SlotIndex(b, ids, s));
    if b.news[s] == -1 {
      assert es == [];
      NoneIsMinusOne(env, b, ids, e);
      EmptySlotBack(b, ids, e, c, s);
    } else {
      var k := IndexIn(ids, b.news[s]);
      assert b.news[s] in ids;
      assert es == [Entry(s.bucket, k)];
      assert Placeable(c, es[0], true);
      ReferencedSingle(env, c, Entry(s.bucket, k), true);
      SlotTaken(env, b, ids, e, c, s, k);
      HeldSlotBack(b, ids, e, c, s, k);
    }
  }

  lemma NoneIsMinusOne(env: Env, b: Book, ids: seq<int>, e: Book)
    requires Ok(env, b) && Waiting(b, ids, e)
    ensures forall k | 0 <= k < |ids| :: ids[k] != -1
  {
    assert forall k | 0 <= k < |ids| :: ids[k] in ids;
  }

  lemma EntriesAppend(bucket: nat, xs: seq<int>, ys: seq<int>)
    requires |xs| <= 1
    ensures Entries(bucket, xs + ys) == Entries(bucket, xs) + Entries(bucket, ys)
  {
    if xs == [] {
      assert xs + ys == ys;
    } else {
      assert (xs + ys)[1..] == ys && xs[1..] == [];
    }
  }

  lemma {:induction false} BucketBack(env: Env, b: Book, ids: seq<int>, e: Book, c: Book, bucket: nat, pos: nat)
    requires Ok(env, b) && RoutableIsValid(env) && Full(b) && Full(c) && Waiting(b, ids, e) && ListsHeld(b, ids)
    requires bucket < NEW_BUCKET_COUNT && pos <= BUCKET_SIZE && RefsBack(b, ids, e, c, bucket, pos)
    requires AllPlaceable(c, Entries(bucket, BucketIndexes(b, ids, bucket, pos)), true)
    ensures RefsBack(b, ids, e, Referenced(env, c, Entries(bucket, BucketIndexes(b, ids, bucket, pos)), true), bucket,
                     BUCKET_SIZE)
    decreases BUCKET_SIZE - pos
  {
    hide Ok, RefsBack, Referenced, Waiting, ListsHeld, SlotIndex, RoutableIsValid, AllPlaceable, Full;
    if pos == BUCKET_SIZE {
      ReferencedNone(env, c, true);
    } else {
      Lists(b, ids);
      var s := Slot(bucket, pos);
      var xs, ys := SlotIndex(b, ids, s), BucketIndexes(b, ids, bucket, pos + 1);
      AtMostOne(b, ids, s);
      EntriesAppend(bucket, xs, ys);
      ReferencedSplit(env, c, Entries(bucket, xs), Entries(bucket, ys), true);
      SlotBack(env, b, ids, e, c, s);
      BucketBack(env, b, ids, e, Referenced(env, c, Entries(bucket, xs), true), bucket, pos + 1);
    }
  }

  lemma ReferencedNone(env: Env, b: Book, restore: bool)
    requires Full(b)
    ensures AllPlaceable(b, [], restore) && Referenced(env, b, [], restore) == b
  {
  }

  lemma AtMostOne(b: Book, ids: seq<int>, s: Slot)
    requires FullNews(b) && InNew(s)
    ensures |SlotIndex(b, ids, s)| <= 1
  {
  }

  lemma BucketEnd(env: Env, b: Book, ids: seq<int>, e: Book, c: Book, bucket: nat)
    requires Ok(env, b) && Full(b) && Waiting(b, ids, e) && RefsBack(b, ids, e, c, bucket, BUCKET_SIZE)
    ensures RefsBack(b, ids, e, c, bucket + 1, 0)
  {
    hide AddrsOk, RandomOk, TalliesOk, TriedOk, TimesOk, CollisionsBut, BucketPosition, IndexIn;
    forall s | InNew(s)
      ensures Before(s, bucket, BUCKET_SIZE) <==> Before(s, bucket + 1, 0)
    {
      BeforeNext(s, bucket, 0);
    }
    NoneIsMinusOne(env, b, ids, e);
    forall k | 0 <= k < |ids|
      ensures HeldBefore(b.news, ids[k], bucket, BUCKET_SIZE) == HeldBefore(b.news, ids[k], bucket + 1, 0)
    {
    }
  }

  lemma {:induction false} BucketsBack(env: Env, b: Book, ids: seq<int>, e: Book, c: Book, bucket: nat)
    requires Ok(env, b) && RoutableIsValid(env) && Full(b) && Full(c) && Waiting(b, ids, e) && ListsHeld(b, ids)
    requires bucket <= NEW_BUCKET_COUNT && RefsBack(b, ids, e, c, bucket, 0)
    requires AllPlaceable(c, EntriesFrom(b, ids, bucket), true)
    ensures RefsBack(b, ids, e, Referenced(env, c, EntriesFrom(b, ids, bucket), true), NEW_BUCKET_COUNT, 0)
    decreases NEW_BUCKET_COUNT - bucket
  {
    hide Ok, RefsBack, Referenced, Waiting, ListsHeld, SlotIndex, RoutableIsValid, AllPlaceable, Full, BucketIndexes;
    if bucket == NEW_BUCKET_COUNT {
      ReferencedNone(env, c, true);
    } else {
      Lists(b, ids);
      var xs := Entries(bucket, BucketIndexes(b, ids, bucket, 0));
      ReferencedSplit(env, c, xs, EntriesFrom(b, ids, bucket + 1), true);
      BucketBack(env, b, ids, e, c, bucket, 0);
      BucketEnd(env, b, ids, e, Referenced(env, c, xs, true), bucket);
      BucketsBack(env, b, ids, e, Referenced(env, c, xs, true), bucket + 1);
    }
  }

  // ----- the round trip -----

  lemma OrderSizes(env: Env, b: Book, newIds: seq<int>, triedIds: seq<int>)
    requires Ok(env, b) && Orders(b, newIds, triedIds)
    ensures |newIds| == b.nNew && |triedIds| == b.nTried && Known(b, newIds) && Known(b, triedIds)
  {
    hide AddrsOk, RandomOk, TriedOk, NewOk, RefsOk, RangesOk, TimesOk, CollisionsBut;
    ListSize(newIds, Members(env, b.info, {}, false, ANY));
    ListSize(triedIds, Members(env, b.info, {}, true, ANY));
  }

  lemma OrderHeld(env: Env, b: Book, newIds: seq<int>, triedIds: seq<int>)
    requires Ok(env, b) && Orders(b, newIds, triedIds)
    ensures Full(b) && ListsHeld(b, newIds)
    ensures forall s | InTried(s) && b.tried[s] != -1 :: b.tried[s] in triedIds
  {
    hide AddrsOk, RandomOk, TalliesOk, RefsOk, RangesOk, TimesOk, CollisionsBut, TriedSlot, BucketPosition;
  }

  /** The file a sound book is saved as is sound, and reading gives it back. */
  lemma SavedIsSound(env: Env, b: Book, newIds: seq<int>, triedIds: seq<int>, checksum: nat)
    requires Ok(env, b) && Orders(b, newIds, triedIds)
    ensures FullNews(b) && Known(b, newIds) && Known(b, triedIds) && |newIds| == b.nNew && |triedIds| == b.nTried
    ensures ReadFile(Encode(b, newIds, triedIds, checksum)) == Got(FileOf(b, newIds, triedIds, checksum), [])
    ensures Readable(FileOf(b, newIds, triedIds, checksum)) && Sound(FileOf(b, newIds, triedIds, checksum))
  {
    hide Ok, Orders, ReadFile, Encode, ListsHeld, Sound, EntriesFrom;
    OrderSizes(env, b, newIds, triedIds);
    OrderHeld(env, b, newIds, triedIds);
    TablesBound(env, b);
    Lists(b, newIds);
    FileReadBack(b, newIds, triedIds, checksum);
    EntriesInRange(b, newIds, 0);
    SavedSound(env, b, newIds, triedIds, checksum);
  }

  lemma {:induction false} EntriesInRange(b: Book, ids: seq<int>, bucket: nat)
    requires ListsHeld(b, ids) && bucket <= NEW_BUCKET_COUNT
    ensures EntriesIn(EntriesFrom(b, ids, bucket), |ids|)
    decreases NEW_BUCKET_COUNT - bucket
  {
    hide BucketIndexes, ListsHeld;
    Lists(b, ids);
    if bucket < NEW_BUCKET_COUNT {
      EntriesInRange(b, ids, bucket + 1);
      IndexesInRange(b, ids, bucket, 0);
      var xs := BucketIndexes(b, ids, bucket, 0);
      EntriesOf(bucket, xs, |ids|);
      EntriesBoth(Entries(bucket, xs), EntriesFrom(b, ids, bucket + 1), |ids|);
    }
  }

  ghost predicate EntriesIn(es: seq<Entry>, n: nat) {
    forall k | 0 <= k < |es| :: 0 <= es[k].index < n && es[k].bucket < NEW_BUCKET_COUNT
  }

  lemma EntriesBoth(xs: seq<Entry>, ys: seq<Entry>, n: nat)
    requires EntriesIn(xs, n) && EntriesIn(ys, n)
    ensures EntriesIn(xs + ys, n)
  {
  }

  lemma {:induction false} EntriesOf(bucket: nat, xs: seq<int>, n: nat)
    requires bucket < NEW_BUCKET_COUNT && InRange(xs, n)
    ensures EntriesIn(Entries(bucket, xs), n)
  {
    if xs != [] {
      EntriesOf(bucket, xs[1..], n);
      EntriesBoth([Entry(bucket, xs[0])], Entries(bucket, xs[1..]), n);
    }
  }

  lemma SavedSound(env: Env, b: Book, newIds: seq<int>, triedIds: seq<int>, checksum: nat)
    requires Ok(env, b) && Orders(b, newIds, triedIds) && FullNews(b) && Known(b, newIds) && Known(b, triedIds)
    requires |newIds| == b.nNew && |triedIds| == b.nTried
    ensures Sound(FileOf(b, newIds, triedIds, checksum))
  {
    hide Ok, EntriesFrom, Orders, DistinctAddrs, SoundTimes, Successes;
    SavedDistinct(env, b, newIds, triedIds);
    SavedTimes(env, b, newIds, triedIds);
    KeyOk(env, b);
  }

  lemma KeyOk(env: Env, b: Book)
    requires Ok(env, b)
    ensures b.nKey != 0
  {
  }

  lemma SavedDistinct(env: Env, b: Book, newIds: seq<int>, triedIds: seq<int>)
    requires Ok(env, b) && Orders(b, newIds, triedIds) && Known(b, newIds) && Known(b, triedIds)
    ensures DistinctAddrs(SavedInfos(b, newIds) + SavedInfos(b, triedIds))
  {
    hide Ok, Orders, SavedInfos, Known;
    var all, zs := newIds + triedIds, SavedInfos(b, newIds) + SavedInfos(b, triedIds);
    OrdersDifferent(b, newIds, triedIds);
    forall j, k | 0 <= j < k < |zs|
      ensures zs[j].addr != zs[k].addr
    {
      SavedAt(b, newIds, triedIds, j);
      SavedAt(b, newIds, triedIds, k);
      OwnAddr(env, b, all[j], all[k]);
    }
  }

  lemma SavedAt(b: Book, newIds: seq<int>, triedIds: seq<int>, k: nat)
    requires Known(b, newIds) && Known(b, triedIds) && k < |newIds + triedIds|
    ensures (newIds + triedIds)[k] in b.info && |SavedInfos(b, newIds) + SavedInfos(b, triedIds)| == |newIds + triedIds|
    ensures (SavedInfos(b, newIds) + SavedInfos(b, triedIds))[k] == Saved(b.info[(newIds + triedIds)[k]])
  {
  }

  lemma OwnAddr(env: Env, b: Book, x: int, y: int)
    requires Ok(env, b) && x in b.info && y in b.info && x != y
    ensures b.info[x].addr != b.info[y].addr
  {
    hide RandomOk, TalliesOk, TriedOk, NewOk, RefsOk, RangesOk, TimesOk, RoutesOk, CollisionsBut;
  }

  lemma SavedTimes(env: Env, b: Book, newIds: seq<int>, triedIds: seq<int>)
    requires Ok(env, b) && Orders(b, newIds, triedIds) && Known(b, newIds) && Known(b, triedIds)
    ensures SoundTimes(SavedInfos(b, newIds)) && Successes(SavedInfos(b, triedIds))
  {
    hide AddrsOk, RandomOk, TalliesOk, TriedOk, NewOk, RefsOk, RangesOk, RoutesOk, CollisionsBut;
    assert forall k | 0 <= k < |triedIds| :: triedIds[k] in triedIds;
  }

  lemma OrdersDifferent(b: Book, newIds: seq<int>, triedIds: seq<int>)
    requires Orders(b, newIds, triedIds)
    ensures Different(newIds + triedIds) && forall id :: id in newIds + triedIds <==> id in b.info
  {
    var all := newIds + triedIds;
    forall j, k | 0 <= j < k < |all|
      ensures all[j] != all[k]
    {
      assert j < |newIds| <= k ==> all[j] in newIds && all[k] in triedIds;
    }
  }

  /** The tables and entries just before references are placed. */
  lemma BeforeReferences(env: Env, b: Book, newIds: seq<int>, triedIds: seq<int>, checksum: nat, blank: Book)
    requires Ok(env, b) && RoutableIsValid(env) && Orders(b, newIds, triedIds) && Untouched(env, blank)
    requires Full(b) && FullNews(b) && Known(b, newIds) && Known(b, triedIds) && |newIds| == b.nNew
             && |triedIds| == b.nTried
    ensures var f := FileOf(b, newIds, triedIds, checksum);
            var d, e := NewLoaded(env, Start(blank, b.nKey), f.news), BeforePlacing(env, blank, f);
            && NewsIn(Start(blank, b.nKey), f.news, d) && TriedBack(b, triedIds, d, e, |triedIds|)
            && (forall s | InNew(s) :: s in e.news && e.news[s] == -1)
  {
    hide Ok, Orders, NewLoaded, TriedLoaded, TriedBack, NewsIn, EntriesFrom, Start;
    var f := FileOf(b, newIds, triedIds, checksum);
    var c := Start(blank, b.nKey);
    StartFull(env, blank, b.nKey);
    EmptyTables(env, blank, b.nKey);
    NewFacts(env, c, f.news);
    var d := NewLoaded(env, c, f.news);
    NewsTables(c, f.news, d);
    OrderTried(b, newIds, triedIds);
    TriedAllBack(env, b, triedIds, d, |triedIds|);
    assert f.tried[..|triedIds|] == f.tried;
  }

  lemma OrderTried(b: Book, newIds: seq<int>, triedIds: seq<int>)
    requires Orders(b, newIds, triedIds)
    ensures Different(triedIds) && forall id | id in triedIds :: id in b.info && b.info[id].fInTried
  {
  }

  lemma EmptyTables(env: Env, blank: Book, nKey: nat)
    requires Untouched(env, blank)
    ensures var c := Start(blank, nKey);
            && Full(c) && c.nKey == nKey && (forall s | InNew(s) :: c.news[s] == -1)
               && (forall s | InTried(s) :: c.tried[s] == -1)
  {
    hide TriedSlot, BucketPosition, TalliesOk, RefsOk, CollisionsBut;
  }

  lemma NewsTables(c: Book, xs: seq<SavedInfo>, d: Book)
    requires NewsIn(c, xs, d) && Full(c)
    ensures d.news == c.news && d.tried == c.tried && d.nKey == c.nKey && Full(d)
    ensures d.nIdCount == |xs| && forall id | id in d.info :: id < d.nIdCount
  {
  }

  lemma NowWaiting(b: Book, newIds: seq<int>, triedIds: seq<int>, c: Book, d: Book, e: Book)
    requires Orders(b, newIds, triedIds) && Full(b) && Known(b, newIds) && Known(b, triedIds) && c.nKey == b.nKey
    requires NewsIn(c, SavedInfos(b, newIds), d) && TriedBack(b, triedIds, d, e, |triedIds|)
    requires forall s | InNew(s) :: s in e.news && e.news[s] == -1
    ensures Waiting(b, newIds, e) && RefsBack(b, newIds, e, e, 0, 0)
  {
    hide IndexIn, TriedAt, HasAddr;
    forall k | 0 <= k < |newIds|
      ensures k in e.info && e.info[k] == Fresh(Saved(b.info[newIds[k]])).(nRandomPos := e.info[k].nRandomPos)
      ensures HeldBefore(b.news, newIds[k], 0, 0) == {}
    {
      assert k in d.info;
    }
  }

  /** Everything is back. */
  lemma AllBack(env: Env, b: Book, newIds: seq<int>, triedIds: seq<int>, c: Book, d: Book, e: Book, r: Book)
    requires Ok(env, b) && Orders(b, newIds, triedIds) && Full(b) && Known(b, newIds) && Known(b, triedIds)
    requires |newIds| == b.nNew && |triedIds| == b.nTried && c.nKey == b.nKey && c.nTried == 0
    requires NewsIn(c, SavedInfos(b, newIds), d) && TriedBack(b, triedIds, d, e, |triedIds|)
    requires RefsBack(b, newIds, e, r, NEW_BUCKET_COUNT, 0)
    ensures Restores(b, r, newIds + triedIds)
    ensures forall id | id in r.info :: r.info[id].fInTried || r.info[id].nRefCount != 0
  {
    hide Ok, Orders, NewsIn, TriedBack, RefsBack, SameHolder;
    var all := newIds + triedIds;
    OrdersDifferent(b, newIds, triedIds);
    KeysBack(b, newIds, triedIds, c, d, e, r);
    SlotsBack(env, b, newIds, triedIds, c, d, e, r);
    forall k | 0 <= k < |all|
      ensures BackAs(b, r, all[k], k)
    {
      OneBack(env, b, newIds, triedIds, c, d, e, r, k);
    }
  }

  lemma KeysBack(b: Book, newIds: seq<int>, triedIds: seq<int>, c: Book, d: Book, e: Book, r: Book)
    requires Full(b) && Known(b, newIds) && Known(b, triedIds) && |newIds| == b.nNew && |triedIds| == b.nTried
    requires c.nKey == b.nKey && c.nTried == 0
    requires NewsIn(c, SavedInfos(b, newIds), d) && TriedBack(b, triedIds, d, e, |triedIds|)
    requires RefsBack(b, newIds, e, r, NEW_BUCKET_COUNT, 0)
    ensures forall k :: k in r.info <==> 0 <= k < |newIds + triedIds|
    ensures r.nKey == b.nKey && r.nNew == b.nNew && r.nTried == b.nTried
  {
    hide IndexIn, HasAddr, HeldBefore, NewAt, TriedAt, Saved, Fresh;
    assert forall k :: k in r.info.Keys <==> k in e.info.Keys;
  }

  lemma SlotsBack(env: Env, b: Book, newIds: seq<int>, triedIds: seq<int>, c: Book, d: Book, e: Book, r: Book)
    requires Ok(env, b) && Orders(b, newIds, triedIds) && Full(b) && Known(b, newIds) && Known(b, triedIds)
    requires NewsIn(c, SavedInfos(b, newIds), d) && TriedBack(b, triedIds, d, e, |triedIds|)
    requires RefsBack(b, newIds, e, r, NEW_BUCKET_COUNT, 0)
    ensures forall s | InNew(s) :: SameHolder(b.news, r.news, newIds + triedIds, s)
    ensures forall s | InTried(s) :: SameHolder(b.tried, r.tried, newIds + triedIds, s)
  {
    hide Ok, IndexIn, HasAddr, HeldBefore, NewAt, TriedAt, Saved, Fresh, Orders;
    forall s | InNew(s)
      ensures SameHolder(b.news, r.news, newIds + triedIds, s)
    {
      NewSlotBack(env, b, newIds, triedIds, s);
    }
    forall s | InTried(s)
      ensures SameHolder(b.tried, r.tried, newIds + triedIds, s)
    {
      TriedSlotBack(env, b, newIds, triedIds, s);
    }
  }

  /** Entry k of r is what was saved as id, with its references. */
  ghost predicate BackAs(b: Book, r: Book, id: int, k: int) {
    && id in b.info && k in r.info && r.info[k] == Remembered(b.info[id]).(nRandomPos := r.info[k].nRandomPos)
    && (r.info[k].fInTried || r.info[k].nRefCount != 0)
  }

  lemma OneBack(env: Env, b: Book, newIds: seq<int>, triedIds: seq<int>, c: Book, d: Book, e: Book, r: Book, k: nat)
    requires Ok(env, b) && Orders(b, newIds, triedIds) && Full(b) && Known(b, newIds) && Known(b, triedIds)
    requires NewsIn(c, SavedInfos(b, newIds), d) && TriedBack(b, triedIds, d, e, |triedIds|)
    requires RefsBack(b, newIds, e, r, NEW_BUCKET_COUNT, 0) && k < |newIds + triedIds|
    ensures BackAs(b, r, (newIds + triedIds)[k], k)
  {
    hide Ok, NewsIn, TriedBack, RefsBack, Orders, BackAs;
    if k < |newIds| {
      NewBack(env, b, newIds, triedIds, c, d, e, r, k);
    } else {
      TriedEntryBack(env, b, newIds, triedIds, c, d, e, r, k - |newIds|);
    }
  }

  lemma NewBack(env: Env, b: Book, newIds: seq<int>, triedIds: seq<int>, c: Book, d: Book, e: Book, r: Book, k: nat)
    requires Ok(env, b) && Orders(b, newIds, triedIds) && Full(b) && Known(b, newIds) && Known(b, triedIds)
    requires NewsIn(c, SavedInfos(b, newIds), d) && TriedBack(b, triedIds, d, e, |triedIds|)
    requires RefsBack(b, newIds, e, r, NEW_BUCKET_COUNT, 0) && k < |newIds|
    ensures BackAs(b, r, newIds[k], k)
  {
    hide Ok, IndexIn, HasAddr, HeldBefore, NewAt, TriedAt, Saved, Fresh, Remembered;
    var id := newIds[k];
    assert id in newIds && k in d.info;
    PosTwice(Fresh(Saved(b.info[id])), k, |HeldBefore(b.news, id, NEW_BUCKET_COUNT, 0)|);
    EntryBack(env, b, id, r.info[k]);
  }

  lemma TriedEntryBack(env: Env, b: Book, newIds: seq<int>, triedIds: seq<int>, c: Book, d: Book, e: Book, r: Book,
                       j: nat)
    requires Ok(env, b) && Orders(b, newIds, triedIds) && Full(b) && Known(b, newIds) && Known(b, triedIds)
    requires NewsIn(c, SavedInfos(b, newIds), d) && TriedBack(b, triedIds, d, e, |triedIds|)
    requires RefsBack(b, newIds, e, r, NEW_BUCKET_COUNT, 0) && j < |triedIds|
    ensures BackAs(b, r, triedIds[j], |newIds| + j)
  {
    hide Ok, Saved, Fresh, Remembered, NewsIn, TriedBack, RefsBack;
    var id, k := triedIds[j], |newIds| + j;
    assert id in triedIds;
    NewsCounted(c, SavedInfos(b, newIds), d);
    TriedBackEntry(b, triedIds, d, e, j);
    RefsBackOthers(b, newIds, e, r, k);
    EntryBack(env, b, id, r.info[k]);
  }

  lemma NewsCounted(c: Book, xs: seq<SavedInfo>, d: Book)
    requires NewsIn(c, xs, d)
    ensures d.nIdCount == |xs|
  {
  }

  lemma TriedBackEntry(b: Book, triedIds: seq<int>, d: Book, e: Book, j: nat)
    requires Known(b, triedIds) && Full(b) && TriedBack(b, triedIds, d, e, |triedIds|) && j < |triedIds|
    ensures var k := d.nIdCount + j;
            k in e.info && e.info[k] ==
                Fresh(Saved(b.info[triedIds[j]])).(fInTried := true, nRandomPos := e.info[k].nRandomPos)
  {
    hide TriedAt, Saved, Fresh;
  }

  lemma RefsBackOthers(b: Book, ids: seq<int>, e: Book, r: Book, k: int)
    requires Full(b) && RefsBack(b, ids, e, r, NEW_BUCKET_COUNT, 0) && k in e.info && k >= |ids|
    ensures k in r.info && r.info[k] == e.info[k]
  {
    hide NewAt, HeldBefore;
    assert k in r.info.Keys;
  }

  lemma PosTwice(i: AddrInfo, pos: int, refs: int)
    ensures i.(nRandomPos := pos).(nRefCount := refs)
         == i.(nRandomPos := i.(nRandomPos := pos).(nRefCount := refs).nRandomPos, nRefCount := refs)
  {
  }

  /** An entry reloaded, with the references counted from the table, is what was saved. */
  lemma EntryBack(env: Env, b: Book, id: int, i: AddrInfo)
    requires Ok(env, b) && id in b.info
    ensures b.info[id].fInTried && i == Fresh(Saved(b.info[id])).(fInTried := true, nRandomPos := i.nRandomPos) ==>
              i == Remembered(b.info[id]).(nRandomPos := i.nRandomPos)
    ensures !b.info[id].fInTried
            && i == Fresh(Saved(b.info[id])).(nRandomPos := i.nRandomPos,
                                              nRefCount := |HeldBefore(b.news, id, NEW_BUCKET_COUNT, 0)|) ==>
              i == Remembered(b.info[id]).(nRandomPos := i.nRandomPos) && i.nRefCount != 0
  {
    hide AddrsOk, RandomOk, TalliesOk, TriedOk, TimesOk, CollisionsBut, BucketPosition;
    if b.info[id].fInTried {
      NoneHeld(env, b, id);
    }
    assert HeldBefore(b.news, id, NEW_BUCKET_COUNT, 0) == Holders(b.news, id);
  }

  lemma NewSlotBack(env: Env, b: Book, newIds: seq<int>, triedIds: seq<int>, s: Slot)
    requires Ok(env, b) && Orders(b, newIds, triedIds) && InNew(s) && Full(b)
    ensures var x := NewAt(b, newIds, NEW_BUCKET_COUNT, 0, s);
            && (b.news[s] == -1 ==> x == -1)
            && (b.news[s] != -1 ==> 0 <= x < |newIds + triedIds| && (newIds + triedIds)[x] == b.news[s])
  {
    hide Ok, Orders;
    OrderHeld(env, b, newIds, triedIds);
  }

  lemma TriedSlotBack(env: Env, b: Book, newIds: seq<int>, triedIds: seq<int>, s: Slot)
    requires Ok(env, b) && Orders(b, newIds, triedIds) && InTried(s) && Full(b)
    ensures var x := TriedAt(b, triedIds, |newIds|, |triedIds|, s);
            && (b.tried[s] == -1 ==> x == -1)
            && (b.tried[s] != -1 ==> 0 <= x < |newIds + triedIds| && (newIds + triedIds)[x] == b.tried[s])
  {
    hide Ok, Orders;
    OrderHeld(env, b, newIds, triedIds);
  }

  /** Saving and loading with the same asmap restores every entry: the same references at
      the same places of the new table, the same slots of the tried table, nothing lost. */
  lemma RoundTrip(env: Env, b: Book, newIds: seq<int>, triedIds: seq<int>, asmap: nat, blank: Book)
    requires Ok(env, b) && RoutableIsValid(env) && Orders(b, newIds, triedIds) && Untouched(env, blank)
    ensures FullNews(b) && Known(b, newIds) && Known(b, triedIds) && |newIds| == b.nNew && |triedIds| == b.nTried
    ensures var f := FileOf(b, newIds, triedIds, asmap);
            && Readable(f) && Restores(b, Loaded(env, blank, f, asmap), newIds + triedIds)
            && (forall id | id in Loaded(env, blank, f, asmap).info ::
                  Loaded(env, blank, f, asmap).info[id].fInTried
                      || Loaded(env, blank, f, asmap).info[id].nRefCount != 0)
  {
    hide Ok, Orders, NewLoaded, TriedLoaded, BeforePlacing, TriedBack, NewsIn, Start, Restores, RefsBack, Waiting,
         Sound, Readable, Untouched, RoutableIsValid, ListsHeld, Referenced, AllPlaceable, Encode, ReadFile;
    SavedIsSound(env, b, newIds, triedIds, asmap);
    OrderHeld(env, b, newIds, triedIds);
    var f := FileOf(b, newIds, triedIds, asmap);
    BeforeReferences(env, b, newIds, triedIds, asmap, blank);
    var c := Start(blank, b.nKey);
    var d, e := NewLoaded(env, c, f.news), BeforePlacing(env, blank, f);
    StartKey(blank, b.nKey);
    NowWaiting(b, newIds, triedIds, c, d, e);
    BeforePlacingFacts(env, blank, f);
    AllCanBePlaced(e, f, true);
    BucketsBack(env, b, newIds, e, e, 0);
    AllBack(env, b, newIds, triedIds, c, d, e, Referenced(env, e, f.entries, true));
  }

  lemma StartKey(blank: Book, nKey: nat)
    ensures Start(blank, nKey).nKey == nKey && Start(blank, nKey).nTried == 0
  {
  }
}
