/** The address manager (src/addrman.cpp). Times are in seconds and come from the caller
    or the environment; random draws are arbitrary. */
module AddrMan {
  import opened Collections
  import opened AddrBooks
  import opened AddrChecks

  const COLLISIONS_MAX := 10
  const HORIZON := 30 * 24 * 3600
  const RETRIES := 3
  const MAX_FAILURES := 10
  const MIN_FAIL := 7 * 24 * 3600
  const REPLACEMENT := 4 * 3600
  const TEST_WINDOW := 40 * 60

  /** Whether the statistics of an entry are bad enough to forget it: it was not tried within
      a minute, and its time lies more than ten minutes ahead or more than thirty days back,
      or it never succeeded in three attempts, or not in ten and for more than a week. */
  predicate IsTerrible(i: AddrInfo, now: int): (r: bool)
    ensures r <==>
            && i.lastTry < now - 60
            && (|| i.nTime - now > 600
                || i.nTime < now - 2592000
                || (i.nAttempts >= 3 && i.lastSuccess == 0)
                || (i.nAttempts >= 10 && i.lastSuccess < now - 604800))
  {
    if now - i.lastTry <= 60 then false
    else if i.nTime > now + 600 then true
    else if now - i.nTime > HORIZON then true
    else if i.lastSuccess == 0 && i.nAttempts >= RETRIES then true
    else now - i.lastSuccess > MIN_FAIL && i.nAttempts >= MAX_FAILURES
  }

  function NewInfo(addr: Service, nTime: int, nServices: set<nat>, source: nat): AddrInfo {
    AddrInfo(addr, nTime, nServices, source, 0, 0, 0, 0, 0, false, -1)
  }

  /** The contents of a table of buckets. */
  ghost function TableOf(a: array2<int>): map<Slot, int>
    reads a
  {
    map s: Slot | s in Slots(a.Length0, a.Length1) :: a[s.bucket, s.pos]
  }

  ghost function Slots(buckets: nat, size: nat): set<Slot> {
    set bucket: nat, pos: nat | 0 <= bucket < buckets && 0 <= pos < size :: Slot(bucket, pos)
  }

  lemma InSlots(buckets: nat, size: nat, s: Slot)
    ensures s in Slots(buckets, size) <==> s.bucket < buckets && s.pos < size
  {
    if s.bucket < buckets && s.pos < size {
      assert Slot(s.bucket, s.pos) in Slots(buckets, size);
    }
  }

  method SetSlot(a: array2<int>, s: Slot, x: int)
    requires s.bucket < a.Length0 && s.pos < a.Length1
    modifies a
    ensures TableOf(a) == old(TableOf(a))[s := x]
  {
    InSlots(a.Length0, a.Length1, s);
    a[s.bucket, s.pos] := x;
    ghost var t, u := TableOf(a), old(TableOf(a))[s := x];
    forall y
      ensures y in t <==> y in u
      ensures y in t ==> t[y] == u[y]
    {
      InSlots(a.Length0, a.Length1, y);
    }
  }

  method GetSlot(a: array2<int>, s: Slot) returns (x: int)
    requires s.bucket < a.Length0 && s.pos < a.Length1
    ensures s in TableOf(a) && x == TableOf(a)[s]
  {
    InSlots(a.Length0, a.Length1, s);
    x := a[s.bucket, s.pos];
  }

  /** Sets every slot to -1. */
  method Empty(a: array2<int>)
    modifies a
    ensures forall i, j | 0 <= i < a.Length0 && 0 <= j < a.Length1 :: a[i, j] == -1
  {
    for bucket := 0 to a.Length0
      invariant forall i, j | 0 <= i < bucket && 0 <= j < a.Length1 :: a[i, j] == -1
    {
      for entry := 0 to a.Length1
        invariant forall i, j | 0 <= i < bucket && 0 <= j < a.Length1 :: a[i, j] == -1
        invariant forall j | 0 <= j < entry :: a[bucket, j] == -1
      {
        a[bucket, entry] := -1;
      }
    }
  }

  /** An entry that is the same in both books, but for its place in vRandom. */
  ghost predicate SameEntry(b: Book, c: Book, id: int) {
    && (id in b.info <==> id in c.info)
    && (id in b.info ==> c.info[id] == b.info[id].(nRandomPos := c.info[id].nRandomPos))
  }

  /** c is b with slot s of the new table emptied and the entry there, if that was its last
      reference, deleted. */
  ghost predicate Cleared(b: Book, s: Slot, c: Book) {
    if s !in b.news || b.news[s] == -1 then c == b
    else
      var id := b.news[s];
      && c.news == b.news[s := -1] && c.tried == b.tried && c.nTried == b.nTried
      && c.nKey == b.nKey && c.nIdCount == b.nIdCount && c.collisions == b.collisions
      && (forall x | x != id :: SameEntry(b, c, x))
      && id in b.info
      && if b.info[id].nRefCount == 1 then id !in c.info
         else
           && id in c.info
           && c.info[id] == b.info[id].(nRefCount := b.info[id].nRefCount - 1, nRandomPos := c.info[id].nRandomPos)
  }

  /** b with slots of entry id emptied, its count reduced by as many. */
  ghost predicate Unlisting(b: Book, id: int, c: Book) {
    && id in b.info && id in c.info
    && c == b.(info := b.info[id := b.info[id].(nRefCount := c.info[id].nRefCount)], news := c.news)
    && c.news.Keys == b.news.Keys
    && forall s | s in b.news :: c.news[s] == b.news[s] || (b.news[s] == id && c.news[s] == -1)
  }

  function BucketAt(start: nat, m: nat): nat {
    (start + m) % NEW_BUCKET_COUNT
  }

  /** The one slot of a bucket that could hold entry id does not. */
  ghost predicate NotAt(env: Env, b: Book, id: int, bucket: nat) {
    id in b.info && SlotAt(env, b, id, bucket) in b.news && b.news[SlotAt(env, b, id, bucket)] != id
  }

  ghost predicate Visited(env: Env, b: Book, id: int, start: nat, n: nat) {
    forall m: nat | m < n :: NotAt(env, b, id, BucketAt(start, m))
  }

  function SlotAt(env: Env, b: Book, id: int, bucket: nat): Slot
    requires id in b.info
  {
    Slot(bucket, BucketPosition(env, b.nKey, true, bucket, b.info[id].addr))
  }

  lemma UnlistStep(env: Env, b0: Book, b: Book, id: int, s: Slot, slots: set<Slot>)
    requires Mid(env, b, {id}, {}) && Unlisting(b0, id, b) && s in b.news && b.news[s] == id && id != -1
    ensures Mid(env, Unref(b, s), {id}, {}) && Unlisting(b0, id, Unref(b, s))
    ensures CollisionsBut(env, b, slots) ==> CollisionsBut(env, Unref(b, s), slots)
  {
    hide Mid, CollisionsBut;
    UnrefKeeps(env, b, s, {id}, {}, slots);
    assert {id} + {id} == {id};
  }

  lemma VisitNext(env: Env, b: Book, c: Book, id: int, start: nat, n: nat)
    requires Visited(env, b, id, start, n) && NotAt(env, c, id, BucketAt(start, n)) && id in b.info && id != -1
    requires c == b || (SlotAt(env, b, id, BucketAt(start, n)) in b.news
                        && b.news[SlotAt(env, b, id, BucketAt(start, n))] == id
                        && c == Unref(b, SlotAt(env, b, id, BucketAt(start, n))))
    ensures Visited(env, c, id, start, n + 1)
  {
    hide BucketPosition, BucketAt;
    forall m: nat | m < n + 1
      ensures NotAt(env, c, id, BucketAt(start, m))
    {
      assert m < n ==> NotAt(env, b, id, BucketAt(start, m));
    }
  }

  lemma BucketVisited(env: Env, b: Book, id: int, start: nat, bucket: nat)
    requires Visited(env, b, id, start, NEW_BUCKET_COUNT) && start < NEW_BUCKET_COUNT && bucket < NEW_BUCKET_COUNT
    ensures NotAt(env, b, id, bucket)
  {
    hide NotAt;
    var m := (bucket - start) % NEW_BUCKET_COUNT;
    assert BucketAt(start, m) == bucket;
  }

  /** Once every bucket is visited, no reference is left. */
  lemma AllVisited(env: Env, b: Book, id: int, start: nat)
    requires NewOk(env, b) && RefsOk(b) && Visited(env, b, id, start, NEW_BUCKET_COUNT) && start < NEW_BUCKET_COUNT
             && id != -1
    requires id in b.info
    ensures b.info[id].nRefCount == 0
  {
    hide BucketPosition, Visited;
    forall s | s in b.news && b.news[s] != -1
      ensures b.news[s] != id
    {
      assert b.news[s] == id ==> s == SlotAt(env, b, id, s.bucket);
      BucketVisited(env, b, id, start, s.bucket);
    }
    assert Holders(b.news, id) == {};
  }

  lemma MoreZero(env: Env, b: Book, id: int)
    requires Mid(env, b, {}, {})
    ensures Mid(env, b, {id}, {})
  {
  }

  /** One reference to an entry is gone, and with the last one the entry. */
  ghost predicate LostReference(b: Book, id: int, c: Book) {
    && id in b.info
    && if b.info[id].nRefCount == 1 then id !in c.info
       else
         && id in c.info
         && c.info[id] == b.info[id].(nRefCount := b.info[id].nRefCount - 1, nRandomPos := c.info[id].nRandomPos)
  }

  /** A table without the entry id. */
  ghost function Without(table: map<Slot, int>, id: int): map<Slot, int> {
    map s | s in table :: if table[s] == id then -1 else table[s]
  }

  /** The entry in tried slot s moved to its slot of the new table; id is not affected. */
  ghost predicate EvictedTo(env: Env, b: Book, s: Slot, id: int, c: Book) {
    && s in b.tried && c.tried == b.tried[s := -1]
    && c.nKey == b.nKey && c.nIdCount == b.nIdCount && c.collisions == b.collisions
    && var out := b.tried[s];
       && out in b.info && out in c.info && out != id
       && c.info[out] == b.info[out].(nRefCount := 1, fInTried := false, nRandomPos := c.info[out].nRandomPos)
       && var home := NewSlot(env, b.nKey, b.info[out].addr, b.info[out].source);
          && home in b.news && c.news == b.news[home := out]
          && (b.news[home] != -1 ==> b.news[home] != id && LostReference(b, b.news[home], c))
          && SameEntry(b, c, id)
          && forall x | x in b.info && x != out && x != b.news[home] :: SameEntry(b, c, x)
  }

  /** Entry id moved to its tried slot; the one there before, if any, moved to its new slot
      with one reference, and the one there before that lost a reference. */
  ghost predicate MadeTried(env: Env, b: Book, id: int, c: Book) {
    && id in b.info && id in c.info
    && c.info[id] == b.info[id].(nRefCount := 0, fInTried := true, nRandomPos := c.info[id].nRandomPos)
    && c.nKey == b.nKey && c.nIdCount == b.nIdCount && c.collisions == b.collisions
    && var s := TriedSlot(env, b.nKey, b.info[id].addr);
       s in b.tried && c.tried == b.tried[s := id]
       && (b.tried[s] == -1 ==>
             c.news == Without(b.news, id) && forall x | x != id :: x in b.info ==> SameEntry(b, c, x))
       && (b.tried[s] != -1 ==>
             var out := b.tried[s];
             && out in b.info && out in c.info
             && c.info[out] == b.info[out].(nRefCount := 1, fInTried := false, nRandomPos := c.info[out].nRandomPos)
             && var home := NewSlot(env, b.nKey, b.info[out].addr, b.info[out].source);
                && home in b.news && c.news == Without(b.news, id)[home := out]
                && (Without(b.news, id)[home] != -1 ==> LostReference(b, b.news[home], c))
                && forall x | x in b.info && x != id && x != out && x != b.news[home] :: SameEntry(b, c, x))
  }

  /** Entry id given slot s; the one there before lost a reference. */
  ghost predicate Inserted(b: Book, s: Slot, id: int, c: Book) {
    && s in b.news && c.news == b.news[s := id] && c.tried == b.tried && c.nIdCount == b.nIdCount
    && (b.news[s] != -1 ==> LostReference(b, b.news[s], c))
    && id in b.info && id in c.info
    && c.info[id] == b.info[id].(nRefCount := b.info[id].nRefCount + 1, nRandomPos := c.info[id].nRandomPos)
    && forall x | x != id && x != b.news[s] :: SameEntry(b, c, x)
  }

  /** Entry id given no slot, and deleted if it has none. */
  ghost predicate Rejected(b: Book, id: int, c: Book) {
    && c.news == b.news && c.tried == b.tried && c.nIdCount == b.nIdCount && id in b.info
    && (forall x | x != id :: SameEntry(b, c, x))
    && (id in c.info <==> b.info[id].nRefCount > 0)
    && (id in c.info ==> c == b)
  }

  /** An address a source offers, seen at some time with some services. */
  datatype Offer = Offer(addr: Service, nTime: int, nServices: set<nat>, source: nat, timePenalty: int)

  /** What adding an address finds: the clock when it looks at the offer and once more at the
      slot, and a random draw. */
  datatype Finding = Finding(now: int, later: int, draw: nat)

  /** The id the address has or is to get. */
  ghost function OfferedId(b: Book, o: Offer): int {
    if o.addr in b.addr then b.addr[o.addr] else b.nIdCount
  }

  ghost predicate OfferKnown(b: Book, o: Offer) {
    o.addr in b.addr ==> b.addr[o.addr] in b.info && b.info[b.addr[o.addr]].addr == o.addr
  }

  /** The entry of the address once it is offered. The penalty on its time is not for the
      source itself. A known time moves only by more than an hour, or more than a day if the
      address was not seen within the last day; services accumulate. */
  ghost function Offered(b: Book, o: Offer, now: int): AddrInfo
    requires OfferKnown(b, o)
  {
    var penalty := if o.addr.ip == o.source then 0 else o.timePenalty;
    var seen := Max(0, o.nTime - penalty);
    if o.addr !in b.addr then
      AddrInfo(o.addr, seen, o.nServices, o.source, 0, 0, 0, 0, 0, false, |b.random|)
    else
      var i := b.info[b.addr[o.addr]];
      var interval := if o.nTime > now - 86400 then 3600 else 86400;
      i.(nTime := if i.nTime + interval + penalty < o.nTime then seen else i.nTime,
         nServices := i.nServices + o.nServices)
  }

  /** The address may get a slot more: it was not known, or it is newer than known, not
      tried, in fewer than eight slots, and no draw decides against another one. */
  ghost predicate MayEnter(b: Book, o: Offer, now: int, draw: nat)
    requires OfferKnown(b, o)
  {
    o.addr in b.addr ==>
      var i := Offered(b, o, now);
      o.nTime > i.nTime && !i.fInTried && i.nRefCount != 8 && (i.nRefCount > 0 ==> draw == 0)
  }

  /** Its slot for the source is free, or another entry's that is terrible, or that has more
      slots while the address has none. */
  ghost predicate SlotTakes(env: Env, b: Book, o: Offer, now: int, later: int)
    requires OfferKnown(b, o)
  {
    var s := NewSlot(env, b.nKey, o.addr, o.source);
    && s in b.news
    && (b.news[s] == -1 || (b.news[s] != OfferedId(b, o) && Yields(b, b.news[s], Offered(b, o, now), later)))
  }

  ghost predicate Yields(b: Book, existing: int, i: AddrInfo, now: int) {
    existing in b.info && (IsTerrible(b.info[existing], now) || (b.info[existing].nRefCount > 1 && i.nRefCount == 0))
  }

  /** c has the entry of the address offered, and all else is as in b. */
  ghost predicate Readied(b: Book, c: Book, o: Offer, now: int) {
    && OfferKnown(b, o) && !Offered(b, o, now).fInTried
    && c.info == b.info[OfferedId(b, o) := Offered(b, o, now)]
    && c.news == b.news && c.tried == b.tried && c.nKey == b.nKey
    && (o.addr in b.addr <==> OfferedId(b, o) in b.info)
    && (o.addr in b.addr ==> c == Put(b, b.addr[o.addr], c.info[b.addr[o.addr]]))
    && (o.addr in b.addr <==> Offered(b, o, now).nRefCount > 0)
  }

  /** The two books hold the same entries in the same slots. */
  ghost predicate SameEntries(b: Book, c: Book) {
    && c.news == b.news && c.tried == b.tried && c.info.Keys == b.info.Keys && forall x :: SameEntry(b, c, x)
  }

  datatype Verdict = Drop | Wait | Replace

  /** One of a row of changes: what it is about, and the book before and after it. */
  datatype Turn<T> = Turn(about: T, before: Book, after: Book)

  /** The turns lead from b to c, one after the other. */
  ghost predicate Successive<T>(b: Book, turns: seq<Turn<T>>, c: Book) {
    && (turns == [] ==> b == c)
    && (turns != [] ==> turns[0].before == b && turns[|turns| - 1].after == c)
    && (forall k | 0 < k < |turns| :: turns[k].before == turns[k - 1].after)
  }

  lemma OneMoreTurn<T>(b: Book, turns: seq<Turn<T>>, t: Turn<T>)
    requires Successive(b, turns, t.before)
    ensures Successive(b, turns + [t], t.after)
  {
    var more := turns + [t];
    forall k | 0 < k < |more|
      ensures more[k].before == more[k - 1].after
    {
      assert more[k] == if k < |turns| then turns[k] else t;
    }
  }

  /** What adding one address did. It is inserted exactly if it is routable, may enter and
      its slot takes it; then its entry as offered has one reference more, and the entry
      there before one less. Not inserted, a known one is as offered and all else as
      before. */
  ghost predicate AddedOne(env: Env, b: Book, o: Offer, f: Finding, inserted: bool, c: Book) {
    && OfferKnown(b, o)
    && (inserted <==>
          env.isRoutable(o.addr.ip) && MayEnter(b, o, f.now, f.draw) && SlotTakes(env, b, o, f.now, f.later))
    && if !env.isRoutable(o.addr.ip) then c == b
       else if inserted then Entered(env, b, o, f.now, c)
       else if o.addr in b.addr then c == Put(b, b.addr[o.addr], Offered(b, o, f.now))
       else SameEntries(b, c)
  }

  /** The address offered has its slot. */
  ghost predicate Entered(env: Env, b: Book, o: Offer, now: int, c: Book)
    requires OfferKnown(b, o)
  {
    var id, i, s := OfferedId(b, o), Offered(b, o, now), NewSlot(env, b.nKey, o.addr, o.source);
    && o.addr in c.addr && c.addr[o.addr] == id && id in c.info
    && c.info[id] == i.(nRefCount := i.nRefCount + 1, nRandomPos := c.info[id].nRandomPos)
    && s in b.news && c.news == b.news[s := id] && c.tried == b.tried
    && (b.news[s] != -1 ==> LostReference(b, b.news[s], c))
    && forall x | x != id && x != b.news[s] :: SameEntry(b, c, x)
  }

  class AddrManImpl {
    const env: Env
    var nKey: nat
    var nIdCount: int
    var mapInfo: map<int, AddrInfo>
    var mapAddr: map<Service, int>
    var vRandom: seq<int>
    var nTried: int
    const vvTried: array2<int>
    var nNew: int
    const vvNew: array2<int>
    var lastGood: int
    var triedCollisions: set<int>
    var networkCounts: map<nat, NewTriedCount>

    ghost function View(): Book
      reads this, vvTried, vvNew
    {
      Book(nKey, nIdCount, mapInfo, mapAddr, vRandom, nTried, nNew, TableOf(vvTried), TableOf(vvNew), networkCounts,
           triedCollisions)
    }

    ghost predicate Shape() {
      && vvTried != vvNew
      && vvTried.Length0 == TRIED_BUCKET_COUNT && vvTried.Length1 == BUCKET_SIZE
      && vvNew.Length0 == NEW_BUCKET_COUNT && vvNew.Length1 == BUCKET_SIZE
    }

    ghost predicate Valid()
      reads this, vvTried, vvNew
    {
      Shape() && Ok(env, View())
    }

    constructor (env: Env, nKey: nat)
      requires nKey != 0
      ensures Valid() && this.env == env && this.nKey == nKey && mapInfo == map[] && vRandom == []
              && triedCollisions == {} && nIdCount == 0 && lastGood == 1
      ensures fresh(vvTried) && fresh(vvNew)
    {
      this.env, this.nKey := env, nKey;
      nIdCount, nTried, nNew, lastGood := 0, 0, 0, 1;
      mapInfo, mapAddr, vRandom, triedCollisions, networkCounts := map[], map[], [], {}, map[];
      vvNew := new int[NEW_BUCKET_COUNT, BUCKET_SIZE];
      vvTried := new int[TRIED_BUCKET_COUNT, BUCKET_SIZE];
      new;
      Empty(vvNew);
      Empty(vvTried);
      EmptyTables();
      EmptyOk(env, View());
    }

    lemma EmptyTables()
      requires Shape()
      requires forall i, j | 0 <= i < vvNew.Length0 && 0 <= j < vvNew.Length1 :: vvNew[i, j] == -1
      requires forall i, j | 0 <= i < vvTried.Length0 && 0 <= j < vvTried.Length1 :: vvTried[i, j] == -1
      ensures forall s :: s in TableOf(vvNew) <==> InNew(s)
      ensures forall s :: s in TableOf(vvTried) <==> InTried(s)
      ensures forall s | s in TableOf(vvNew) :: TableOf(vvNew)[s] == -1
      ensures forall s | s in TableOf(vvTried) :: TableOf(vvTried)[s] == -1
    {
      forall s: Slot
        ensures s in TableOf(vvNew) <==> InNew(s)
        ensures s in TableOf(vvTried) <==> InTried(s)
        ensures s in TableOf(vvNew) ==> TableOf(vvNew)[s] == -1
        ensures s in TableOf(vvTried) ==> TableOf(vvTried)[s] == -1
      {
        InSlots(vvNew.Length0, vvNew.Length1, s);
        InSlots(vvTried.Length0, vvTried.Length1, s);
      }
    }

    /** The id of the entry of an address, or -1. */
    method Find(addr: Service) returns (id: int)
      requires Shape() && IdsOk(View()) && AddrsOk(View())
      ensures id == -1 <==> addr !in mapAddr
      ensures id != -1 ==> id in mapInfo && mapInfo[id].addr == addr
    {
      id := -1;
      if addr in mapAddr {
        assert LeadsTo(View(), addr);
        id := mapAddr[addr];
        if id !in mapInfo {
          id := -1;
        }
      }
    }

    method AddCount(net: nat, dNew: int, dTried: int)
      modifies this`networkCounts
      ensures networkCounts == Bump(old(networkCounts), net, dNew, dTried)
    {
      var c := CountOf(networkCounts, net);
      networkCounts := networkCounts[net := NewTriedCount(c.nNew + dNew, c.nTried + dTried)];
    }

    /** Adds an entry, counted as new, without a slot yet. */
    method Create(addr: Service, nTime: int, nServices: set<nat>, source: nat) returns (nId: int)
      requires Shape()
      modifies this`nIdCount, this`mapInfo, this`mapAddr, this`vRandom, this`nNew, this`networkCounts
      ensures nId == old(nIdCount)
      ensures View() == Created(env, old(View()), NewInfo(addr, nTime, nServices, source))
    {
      hide TableOf, Slots, Bump, CountOf;
      nId := nIdCount;
      nIdCount := nIdCount + 1;
      mapInfo := mapInfo[nId := NewInfo(addr, nTime, nServices, source)];
      mapAddr := mapAddr[addr := nId];
      mapInfo := mapInfo[nId := mapInfo[nId].(nRandomPos := |vRandom|)];
      assert mapInfo == old(mapInfo)[nId := NewInfo(addr, nTime, nServices, source).(nRandomPos := |vRandom|)];
      vRandom := vRandom + [nId];
      nNew := nNew + 1;
      AddCount(env.network(addr.ip), 1, 0);
    }

    /** Swaps two positions of vRandom. */
    method SwapRandom(pos1: nat, pos2: nat)
      requires Shape() && RandomOk(View())
      requires pos1 < |vRandom| && pos2 < |vRandom|
      modifies this`mapInfo, this`vRandom
      ensures vRandom == old(vRandom)[pos1 := old(vRandom)[pos2]][pos2 := old(vRandom)[pos1]]
      ensures old(vRandom)[pos1] in old(mapInfo) && old(vRandom)[pos2] in old(mapInfo)
      ensures View() == Swapped(old(View()), pos1, pos2)
    {
      SwapRandomOk(View(), pos1, pos2);
      if pos1 == pos2 {
        return;
      }
      var nId1, nId2 := vRandom[pos1], vRandom[pos2];
      assert nId1 in mapInfo && nId2 in mapInfo;
      mapInfo := mapInfo[nId1 := mapInfo[nId1].(nRandomPos := pos2)];
      mapInfo := mapInfo[nId2 := mapInfo[nId2].(nRandomPos := pos1)];
      vRandom := vRandom[pos1 := nId2];
      vRandom := vRandom[pos2 := nId1];
    }

    /** Takes the last entry of vRandom out everywhere. */
    method DropLast(nId: int)
      requires Shape() && nId in mapInfo && |vRandom| > 0
      modifies this`mapInfo, this`mapAddr, this`vRandom, this`nNew, this`networkCounts
      ensures View() == Dropped(env, old(View()), nId)
    {
      hide TableOf, Slots, Bump, CountOf;
      var info := mapInfo[nId];
      AddCount(env.network(info.addr.ip), -1, 0);
      vRandom := vRandom[..|vRandom| - 1];
      mapAddr := mapAddr - {info.addr};
      mapInfo := mapInfo - {nId};
      nNew := nNew - 1;
    }

    lemma MidRandom(b: Book, zero: set<int>, limbo: set<int>)
      requires Mid(env, b, zero, limbo)
      ensures RandomOk(b) && IdsOk(b) && AddrsOk(b)
    {
    }

    lemma DeleteKeeps(b: Book, c: Book, nId: int, zero: set<int>, limbo: set<int>, slots: set<Slot>)
      requires Mid(env, b, zero, limbo) && nId in b.info && nId !in limbo
      requires !b.info[nId].fInTried && b.info[nId].nRefCount == 0
      requires |b.random| > 0 && 0 <= b.info[nId].nRandomPos < |b.random|
      requires b.random[b.info[nId].nRandomPos] == nId && b.random[|b.random| - 1] in b.info
      requires c == Swapped(b, b.info[nId].nRandomPos, |b.random| - 1)
      ensures nId in c.info && |c.random| > 0
      ensures Mid(env, Dropped(env, c, nId), zero - {nId}, limbo)
      ensures CollisionsBut(env, b, slots) ==> CollisionsBut(env, Dropped(env, c, nId), slots)
      ensures forall x | x != nId :: SameEntry(b, Dropped(env, c, nId), x)
    {
      hide IdsOk, AddrsOk, TalliesOk, TriedOk, NewOk, RefsOk, RangesOk, TimesOk, CollisionsBut, Bump, RandomOk, Swapped,
           Mid;
      MidRandom(b, zero, limbo);
      var pos: nat := b.info[nId].nRandomPos;
      SwapRandomOk(b, pos, |b.random| - 1);
      SwapPlaces(b, pos, |b.random| - 1, nId);
      PosKeeps(env, b, c, zero, limbo);
      if CollisionsBut(env, b, slots) {
        PosRest(env, b, c, zero, limbo, slots);
      }
      DropKeeps(env, c, nId, zero, limbo, slots);
    }

    lemma SwapPlaces(b: Book, i: nat, j: nat, id: int)
      requires RandomOk(b) && i < |b.random| && j < |b.random| && b.random[i] == id
      ensures b.random[j] in b.info && id in b.info
      ensures var c := Swapped(b, i, j);
              && |c.random| == |b.random| && id in c.info && c.info[id].nRandomPos == j
              && c == b.(info := c.info, random := c.random)
      ensures SameButPos(b.info, Swapped(b, i, j).info)
    {
      SwapSame(b, i, j);
    }

    /** Deletes an entry that is not tried and has no reference. */
    method Delete(nId: int, ghost zero: set<int>, ghost limbo: set<int>, ghost slots: set<Slot>)
      requires Shape() && Mid(env, View(), zero, limbo) && nId in mapInfo && nId !in limbo
      requires !mapInfo[nId].fInTried && mapInfo[nId].nRefCount == 0
      modifies this`mapInfo, this`mapAddr, this`vRandom, this`nNew, this`networkCounts
      ensures Mid(env, View(), zero - {nId}, limbo)
      ensures CollisionsBut(env, old(View()), slots) ==> CollisionsBut(env, View(), slots)
      ensures nId !in mapInfo && forall x | x != nId :: SameEntry(old(View()), View(), x)
      ensures TableOf(vvNew) == old(TableOf(vvNew)) && TableOf(vvTried) == old(TableOf(vvTried))
    {
      hide IdsOk, AddrsOk, TalliesOk, TriedOk, NewOk, RefsOk, RangesOk, TimesOk, CollisionsBut, Bump, Slots, TableOf,
           Mid, SameEntry, Swapped;
      ghost var b := View();
      MidRandom(b, zero, limbo);
      var pos := mapInfo[nId].nRandomPos;
      SwapRandom(pos, |vRandom| - 1);
      ghost var c := View();
      DeleteKeeps(b, c, nId, zero, limbo, slots);
      DropLast(nId);
    }

    lemma ClearedByDelete(b: Book, s: Slot, d: Book)
      requires s in b.news && b.news[s] != -1 && b.news[s] in b.info && b.info[b.news[s]].nRefCount == 1
      requires d.news == b.news[s := -1] && d.tried == b.tried && d.nTried == b.nTried && d.nKey == b.nKey
               && d.nIdCount == b.nIdCount
      requires d.collisions == b.collisions && b.news[s] !in d.info
      requires forall x | x != b.news[s] :: SameEntry(Unref(b, s), d, x)
      ensures Cleared(b, s, d)
    {
      forall x | x != b.news[s]
        ensures SameEntry(b, d, x)
      {
        assert SameEntry(Unref(b, s), d, x);
      }
    }

    /** Empties a slot of the new table, deleting an entry that loses its last reference. */
    method ClearNew(s: Slot, ghost zero: set<int>, ghost limbo: set<int>, ghost slots: set<Slot>)
      requires Shape() && Mid(env, View(), zero, limbo) && InNew(s)
      modifies this`mapInfo, this`mapAddr, this`vRandom, this`nNew, this`networkCounts, vvNew
      ensures Mid(env, View(), zero, limbo) && Cleared(old(View()), s, View())
      ensures CollisionsBut(env, old(View()), slots) ==> CollisionsBut(env, View(), slots)
    {
      hide IdsOk, AddrsOk, RandomOk, TalliesOk, TriedOk, RefsOk, RangesOk, TimesOk, CollisionsBut, Bump, Slots, TableOf,
           Mid, SameEntry;
      ghost var b := View();
      var nIdDelete := GetSlot(vvNew, s);
      if nIdDelete != -1 {
        UnrefKeeps(env, b, s, zero, limbo, slots);
        assert mapInfo[nIdDelete].nRefCount > 0;
        NotTried(b, zero, limbo, s);
        mapInfo := mapInfo[nIdDelete := mapInfo[nIdDelete].(nRefCount := mapInfo[nIdDelete].nRefCount - 1)];
        SetSlot(vvNew, s, -1);
        assert View() == Unref(b, s);
        if mapInfo[nIdDelete].nRefCount == 0 {
          Delete(nIdDelete, zero + {nIdDelete}, limbo, slots);
          LessZero(View(), zero, limbo, nIdDelete);
          ClearedByDelete(b, s, View());
        } else {
          StillThere(b, s);
        }
      }
    }

    lemma NotTried(b: Book, zero: set<int>, limbo: set<int>, s: Slot)
      requires Mid(env, b, zero, limbo) && s in b.news && b.news[s] != -1
      ensures b.news[s] in b.info && !b.info[b.news[s]].fInTried
    {
    }

    lemma StillThere(b: Book, s: Slot)
      requires s in b.news && b.news[s] != -1 && b.news[s] in b.info && b.info[b.news[s]].nRefCount != 1
      ensures Cleared(b, s, Unref(b, s))
    {
    }

    lemma LessZero(b: Book, zero: set<int>, limbo: set<int>, id: int)
      requires Mid(env, b, zero + {id} - {id}, limbo)
      ensures Mid(env, b, zero, limbo)
    {
    }

    /** Takes an entry out of its slot in one bucket, if it is there. */
    method VisitBucket(nId: int, bucket: nat, ghost b0: Book, ghost start: nat, ghost n: nat, ghost slots: set<Slot>)
      requires Shape() && Mid(env, View(), {nId}, {}) && Unlisting(b0, nId, View()) && nId >= 0
      requires Visited(env, View(), nId, start, n) && bucket == BucketAt(start, n)
      modifies this`mapInfo, vvNew
      ensures Mid(env, View(), {nId}, {}) && Unlisting(b0, nId, View())
      ensures CollisionsBut(env, old(View()), slots) ==> CollisionsBut(env, View(), slots)
      ensures Visited(env, View(), nId, start, n + 1)
    {
      hide Mid, CollisionsBut, TableOf, Slots, Visited, Unlisting, BucketPosition, NotAt;
      InUnlisting(b0, nId, View());
      ghost var b := View();
      var pos := BucketPosition(env, nKey, true, bucket, mapInfo[nId].addr);
      var s := Slot(bucket, pos);
      var id := GetSlot(vvNew, s);
      if id == nId {
        UnlistStep(env, b0, b, nId, s, slots);
        mapInfo := mapInfo[nId := mapInfo[nId].(nRefCount := mapInfo[nId].nRefCount - 1)];
        SetSlot(vvNew, s, -1);
        assert View() == Unref(b, s);
      }
      NowNotAt(env, b, View(), nId, bucket);
      VisitNext(env, b, View(), nId, start, n);
    }

    lemma InUnlisting(b0: Book, id: int, b: Book)
      requires Unlisting(b0, id, b)
      ensures id in b.info && id in b0.info && b.info[id] == b0.info[id].(nRefCount := b.info[id].nRefCount)
    {
    }

    lemma NowNotAt(env: Env, b: Book, c: Book, id: int, bucket: nat)
      requires id in b.info && SlotAt(env, b, id, bucket) in b.news && id != -1
      requires if b.news[SlotAt(env, b, id, bucket)] == id then c == Unref(b, SlotAt(env, b, id, bucket)) else c == b
      ensures NotAt(env, c, id, bucket)
    {
      hide BucketPosition;
    }

    /** Takes an entry out of all its slots in the new table. */
    method RemoveFromNew(nId: int, ghost slots: set<Slot>)
      requires Shape() && Mid(env, View(), {}, {}) && nId in mapInfo && !mapInfo[nId].fInTried
      modifies this`mapInfo, vvNew
      ensures Mid(env, View(), {nId}, {}) && Unlisting(old(View()), nId, View())
      ensures CollisionsBut(env, old(View()), slots) ==> CollisionsBut(env, View(), slots)
      ensures mapInfo[nId].nRefCount == 0 && View().news == Without(old(View()).news, nId)
    {
      hide Mid, CollisionsBut, TableOf, Slots, Visited, Unlisting, BucketAt;
      ghost var b0 := View();
      MoreZero(env, b0, nId);
      StartUnlisting(b0, nId);
      var startBucket := NewBucket(env, nKey, mapInfo[nId].addr, mapInfo[nId].source);
      VisitNone(b0, nId, startBucket);
      var n := 0;
      while n < NEW_BUCKET_COUNT
        invariant 0 <= n <= NEW_BUCKET_COUNT && Mid(env, View(), {nId}, {}) && Unlisting(b0, nId, View())
                  && nId in mapInfo
        invariant CollisionsBut(env, b0, slots) ==> CollisionsBut(env, View(), slots)
        invariant Visited(env, View(), nId, startBucket, n)
      {
        VisitBucket(nId, BucketAt(startBucket, n), b0, startBucket, n, slots);
        InUnlistingNow(b0, nId);
        if mapInfo[nId].nRefCount == 0 {
          break;
        }
        n := n + 1;
      }
      NoReferenceLeft(nId, startBucket, n);
      AllUnlisted(b0, nId, View());
    }

    lemma AllUnlisted(b0: Book, id: int, b: Book)
      requires Mid(env, b, {id}, {}) && Unlisting(b0, id, b) && b.info[id].nRefCount == 0 && id >= 0
      ensures b.news == Without(b0.news, id)
    {
      hide IdsOk, AddrsOk, RandomOk, TalliesOk, TriedOk, NewOk, RangesOk, TimesOk, Holders;
      forall s | s in b.news
        ensures b.news[s] != id
      {
        if b.news[s] == id {
          HasHolder(b.news, s);
        }
      }
      SameMap(b.news, Without(b0.news, id));
    }

    lemma NoReferenceLeft(nId: int, start: nat, n: nat)
      requires Mid(env, View(), {nId}, {}) && nId in mapInfo && nId >= 0 && start < NEW_BUCKET_COUNT
      requires mapInfo[nId].nRefCount == 0 || (n == NEW_BUCKET_COUNT && Visited(env, View(), nId, start, n))
      ensures mapInfo[nId].nRefCount == 0
    {
      hide TableOf, Visited;
      if mapInfo[nId].nRefCount != 0 {
        AllVisited(env, View(), nId, start);
      }
    }

    lemma InUnlistingNow(b0: Book, id: int)
      requires Unlisting(b0, id, View())
      ensures id in mapInfo
    {
    }

    lemma StartUnlisting(b0: Book, id: int)
      requires Mid(env, b0, {}, {}) && id in b0.info
      ensures Unlisting(b0, id, b0) && id >= 0 && forall x | x in b0.info :: x >= 0
    {
      hide AddrsOk, RandomOk, TalliesOk, TriedOk, NewOk, RefsOk, RangesOk, TimesOk;
    }

    lemma VisitNone(b: Book, id: int, start: nat)
      requires id in b.info
      ensures Visited(env, b, id, start, 0)
    {
    }

    /** Stops counting an entry as new. */
    method LeaveNew(id: int)
      requires Shape() && id in mapInfo
      modifies this`nNew, this`networkCounts
      ensures View() == LeftNew(env, old(View()), id)
    {
      hide TableOf, Slots, Bump, CountOf;
      nNew := nNew - 1;
      AddCount(Network(env, mapInfo[id]), -1, 0);
    }

    /** Takes the entry in a slot out of the tried table. */
    method TakeOffTried(s: Slot) returns (id: int)
      requires Shape() && InTried(s) && s in TableOf(vvTried) && TableOf(vvTried)[s] in mapInfo
      modifies this`mapInfo, this`nTried, this`networkCounts, vvTried
      ensures id == old(TableOf(vvTried))[s] && View() == Evicted(env, old(View()), s)
    {
      hide TableOf, Slots, Bump, CountOf;
      id := GetSlot(vvTried, s);
      mapInfo := mapInfo[id := mapInfo[id].(fInTried := false)];
      SetSlot(vvTried, s, -1);
      nTried := nTried - 1;
      AddCount(Network(env, mapInfo[id]), 0, -1);
    }

    /** Gives an entry a slot of the new table and counts it as new. */
    method Reenter(s: Slot, id: int)
      requires Shape() && InNew(s) && id in mapInfo
      modifies this`mapInfo, this`nNew, this`networkCounts, vvNew
      ensures View() == Reentered(env, old(View()), s, id)
    {
      hide TableOf, Slots, Bump, CountOf;
      mapInfo := mapInfo[id := mapInfo[id].(nRefCount := 1)];
      SetSlot(vvNew, s, id);
      nNew := nNew + 1;
      AddCount(Network(env, mapInfo[id]), 1, 0);
    }

    /** Puts an entry into a slot of the tried table and counts it there. */
    method Place(s: Slot, id: int)
      requires Shape() && InTried(s) && id in mapInfo
      modifies this`mapInfo, this`nTried, this`networkCounts, vvTried
      ensures View() == Placed(env, old(View()), s, id)
    {
      hide TableOf, Slots, Bump, CountOf;
      SetSlot(vvTried, s, id);
      nTried := nTried + 1;
      mapInfo := mapInfo[id := mapInfo[id].(fInTried := true)];
      AddCount(Network(env, mapInfo[id]), 0, 1);
    }

    /** Moves the entry in a tried slot back to the new table, to its primary slot there,
        clearing what is in the way. */
    method EvictTo(s: Slot, ghost id: int)
      requires Shape() && Mid(env, View(), {}, {id}) && CollisionsOk(env, View())
      requires InTried(s) && s in View().tried && View().tried[s] != -1
      modifies this`mapInfo, this`mapAddr, this`vRandom, this`nNew, this`nTried, this`networkCounts, vvNew, vvTried
      ensures Mid(env, View(), {}, {id}) && CollisionsBut(env, View(), {s})
      ensures EvictedTo(env, old(View()), s, id, View())
    {
      hide Mid, TableOf, Slots, CollisionsBut, Bump, CountOf, Fits, SameEntry, Cleared, EvictedTo, Evicted, Reentered;
      ghost var b := View();
      EvictKeeps(env, b, s, {id}, {});
      var nIdEvict := TakeOffTried(s);
      ghost var c := View();
      assert {id} + {nIdEvict} == {id, nIdEvict} && {} + {s} == {s};
      EvictedFacts(b, s);
      var bucket := NewBucket(env, nKey, mapInfo[nIdEvict].addr, mapInfo[nIdEvict].source);
      var uslot := Slot(bucket, BucketPosition(env, nKey, true, bucket, mapInfo[nIdEvict].addr));
      ClearNew(uslot, {}, {id, nIdEvict}, {s});
      ghost var d := View();
      AfterClear(c, uslot, d, id, nIdEvict);
      assert d.news[uslot] == -1;
      Reenter(uslot, nIdEvict);
      ReenterKeeps(env, d, uslot, nIdEvict, {id, nIdEvict}, {s});
      assert {id, nIdEvict} - {nIdEvict} == {id};
      EvictEffect(b, s, id, c, uslot, d);
    }

    lemma EvictedFacts(b: Book, s: Slot)
      requires s in b.tried && b.tried[s] in b.info
      ensures var c := Evicted(env, b, s);
              && b.tried[s] in c.info && c.nKey == b.nKey
              && c.info[b.tried[s]].addr == b.info[b.tried[s]].addr
                 && c.info[b.tried[s]].source == b.info[b.tried[s]].source
    {
    }

    /** Clearing a slot does not touch entries in limbo. */
    lemma AfterClear(c: Book, s: Slot, d: Book, id: int, out: int)
      requires Mid(env, c, {}, {id, out}) && Mid(env, d, {}, {id, out}) && Cleared(c, s, d) && out in c.info && InNew(s)
      requires s == NewSlot(env, c.nKey, c.info[out].addr, c.info[out].source)
      ensures id in c.info && SameEntry(c, d, out) && SameEntry(c, d, id) && s in c.news && out in d.info
      ensures s in d.news && d.news[s] == -1 && Fits(env, d, s, out) && d.tried == c.tried
      ensures c.news[s] != id && c.news[s] != out
    {
      hide AddrsOk, RandomOk, TalliesOk, TriedOk, RefsOk, TimesOk, BucketPosition, NewBucket;
      LimboNotHeld(c, s, id, out);
    }

    lemma LimboNotHeld(c: Book, s: Slot, id: int, out: int)
      requires Mid(env, c, {}, {id, out}) && s in c.news
      ensures c.news[s] != id && c.news[s] != out
    {
      hide AddrsOk, RandomOk, TalliesOk, TriedOk, NewOk, TimesOk, Holders;
      HasHolder(c.news, s);
      assert id in c.info && out in c.info;
    }

    lemma EvictEffect(b: Book, s: Slot, id: int, c: Book, home: Slot, d: Book)
      requires s in b.tried && b.tried[s] in b.info && c == Evicted(env, b, s) && b.tried[s] != id
      requires home == NewSlot(env, b.nKey, b.info[b.tried[s]].addr, b.info[b.tried[s]].source)
      requires home in b.news && home in d.news && d.news[home] == -1 && Cleared(c, home, d) && d.tried == c.tried
      requires b.tried[s] in d.info && SameEntry(c, d, b.tried[s]) && SameEntry(c, d, id)
      requires c.news[home] != id && c.news[home] != b.tried[s]
      ensures EvictedTo(env, b, s, id, Reentered(env, d, home, b.tried[s]))
    {
      hide NewSlot, Bump;
      var e := Reentered(env, d, home, b.tried[s]);
      forall x | x in b.info && x != b.tried[s] && x != b.news[home]
        ensures SameEntry(b, e, x)
      {
        assert SameEntry(c, d, x);
      }
    }

    /** Moves an entry from the new table to the tried one. The source's assertions on the
        way cannot fail. */
    method MakeTried(nId: int)
      requires Shape() && Mid(env, View(), {}, {}) && CollisionsOk(env, View())
      requires nId in mapInfo && !mapInfo[nId].fInTried && mapInfo[nId].lastSuccess != 0
      modifies this`mapInfo, this`mapAddr, this`vRandom, this`nNew, this`nTried, this`networkCounts, vvNew, vvTried
      ensures Mid(env, View(), {}, {}) && CollisionsOk(env, View())
      ensures MadeTried(env, old(View()), nId, View())
    {
      hide Mid, TableOf, Slots, CollisionsBut, EvictedTo, Unlisting, MadeTried, LeftNew, Placed;
      ghost var b0 := View();
      StartUnlisting(b0, nId);
      RemoveFromNew(nId, {});
      ghost var b := View();
      UnlistedEntry(b0, nId, b);
      assert {} + {nId} == {nId};
      LeaveNewKeeps(env, b, nId, {}, {});
      LeaveNew(nId);
      ghost var c := View();
      LeftFacts(b, nId);
      assert mapInfo[nId].nRefCount == 0;
      var bucket := TriedBucket(env, nKey, mapInfo[nId].addr);
      var s := Slot(bucket, BucketPosition(env, nKey, false, bucket, mapInfo[nId].addr));
      var occupant := GetSlot(vvTried, s);
      if occupant != -1 {
        EvictTo(s, nId);
        StillInfo(c, s, nId, View());
      } else {
        NoSlotExcepted(c, s);
      }
      ghost var e := View();
      assert e.tried[s] == -1;
      PlaceKeeps(env, e, s, nId, {}, {nId}, {s});
      Place(s, nId);
      assert {nId} - {nId} == {} && {s} - {s} == {};
      TriedEffect(b0, nId, b, s, e);
    }

    lemma LeftFacts(b: Book, id: int)
      requires id in b.info
      ensures var c := LeftNew(env, b, id); c.info == b.info && c.tried == b.tried && c.nKey == b.nKey
    {
    }

    lemma UnlistedEntry(b0: Book, id: int, b: Book)
      requires Unlisting(b0, id, b)
      ensures id in b.info && id in b0.info && b.info[id] == b0.info[id].(nRefCount := b.info[id].nRefCount)
    {
    }

    lemma StillInfo(c: Book, s: Slot, id: int, e: Book)
      requires EvictedTo(env, c, s, id, e) && id in c.info
      ensures id in e.info && e.info[id] == c.info[id].(nRandomPos := e.info[id].nRandomPos)
      ensures s in e.tried && e.tried[s] == -1 && e.nKey == c.nKey
    {
      hide NewSlot;
    }

    lemma NoSlotExcepted(c: Book, s: Slot)
      requires CollisionsOk(env, c)
      ensures CollisionsBut(env, c, {s})
    {
    }

    lemma TriedEffect(b0: Book, id: int, b: Book, s: Slot, e: Book)
      requires Unlisting(b0, id, b) && b.info[id].nRefCount == 0 && id in e.info && forall x | x in b0.info :: x >= 0
      requires b.news == Without(b0.news, id)
      requires s == TriedSlot(env, b0.nKey, b0.info[id].addr) && s in b.tried
      requires if b.tried[s] == -1 then e == LeftNew(env, b, id)
               else EvictedTo(env, LeftNew(env, b, id), s, id, e)
      ensures MadeTried(env, b0, id, Placed(env, e, s, id))
    {
      hide TriedSlot, NewSlot, Bump;
      var f := Placed(env, e, s, id);
      if b.tried[s] == -1 {
      } else {
        var out := b.tried[s];
        var home := NewSlot(env, b0.nKey, b0.info[out].addr, b0.info[out].source);
        forall x | x in b0.info && x != id && x != out && x != b0.news[home]
          ensures SameEntry(b0, f, x)
        {
          assert SameEntry(LeftNew(env, b, id), e, x);
        }
      }
    }

    // ----- operations -----

    /** Replaces the statistics of an entry. */
    method Update(id: int, i: AddrInfo)
      requires Valid() && id in mapInfo && SamePlace(i, mapInfo[id])
      requires i.lastTry >= 0 && i.lastSuccess >= 0 && (i.fInTried ==> i.lastSuccess != 0)
      modifies this`mapInfo
      ensures Valid() && View() == Put(old(View()), id, i)
    {
      hide Mid, CollisionsOk, TableOf, Slots;
      PutKeeps(env, View(), {}, {}, id, i);
      mapInfo := mapInfo[id := i];
    }

    /** Notes an attempt to connect. */
    method Attempt(addr: Service, fCountFailure: bool, time: int)
      requires Valid() && time >= 0
      modifies this`mapInfo
      ensures Valid() && (addr !in mapAddr ==> View() == old(View()))
      ensures addr in mapAddr ==>
                var id := mapAddr[addr];
                && id in old(mapInfo)
                && var i := old(mapInfo)[id];
                   var counted := fCountFailure && i.lastCountAttempt < lastGood;
                   View() == Put(old(View()), id, i.(lastTry := time,
                                                     lastCountAttempt := if counted then time else i.lastCountAttempt,
                                                     nAttempts := i.nAttempts + if counted then 1 else 0))
    {
      hide Mid, CollisionsOk, TableOf, Slots;
      ValidParts();
      var id := Find(addr);
      if id == -1 {
        return;
      }
      FoundId(addr, id);
      var info := mapInfo[id].(lastTry := time);
      if fCountFailure && info.lastCountAttempt < lastGood {
        info := info.(lastCountAttempt := time, nAttempts := info.nAttempts + 1);
      }
      Update(id, info);
    }

    /** Notes that a connection is still up, unless it was noted within twenty minutes. */
    method Connected(addr: Service, time: int)
      requires Valid()
      modifies this`mapInfo
      ensures Valid() && (addr !in mapAddr ==> View() == old(View()))
      ensures addr in mapAddr ==>
                var id := mapAddr[addr];
                && id in old(mapInfo)
                && var i := old(mapInfo)[id];
                   View() == if i.nTime < time - 1200 then Put(old(View()), id, i.(nTime := time)) else old(View())
    {
      hide Mid, CollisionsOk, TableOf, Slots;
      ValidParts();
      var id := Find(addr);
      if id == -1 {
        return;
      }
      FoundId(addr, id);
      var info := mapInfo[id];
      if time - info.nTime > 20 * 60 {
        EntryTimes(id);
        Update(id, info.(nTime := time));
      }
    }

    method SetServices(addr: Service, nServices: set<nat>)
      requires Valid()
      modifies this`mapInfo
      ensures Valid() && (addr !in mapAddr ==> View() == old(View()))
      ensures addr in mapAddr ==>
                var id := mapAddr[addr];
                id in old(mapInfo) && View() == Put(old(View()), id, old(mapInfo)[id].(nServices := nServices))
    {
      hide Mid, CollisionsOk, TableOf, Slots;
      ValidParts();
      var id := Find(addr);
      if id == -1 {
        return;
      }
      FoundId(addr, id);
      EntryTimes(id);
      Update(id, mapInfo[id].(nServices := nServices));
    }

    lemma ValidParts()
      requires Valid()
      ensures IdsOk(View()) && AddrsOk(View()) && RandomOk(View())
    {
    }

    lemma FoundId(addr: Service, id: int)
      requires Valid() && id in mapInfo && mapInfo[id].addr == addr
      ensures addr in mapAddr && mapAddr[addr] == id && id >= 0
      ensures mapInfo[id].lastTry >= 0 && mapInfo[id].lastSuccess >= 0
              && (mapInfo[id].fInTried ==> mapInfo[id].lastSuccess != 0)
    {
      hide TableOf, TriedOk, NewOk, TalliesOk, RandomOk, RangesOk, CollisionsOk;
      assert AddrsOk(View());
    }

    lemma EntryTimes(id: int)
      requires Valid() && id in mapInfo
      ensures mapInfo[id].lastTry >= 0 && mapInfo[id].lastSuccess >= 0
              && (mapInfo[id].fInTried ==> mapInfo[id].lastSuccess != 0)
    {
      hide TableOf, TriedOk, NewOk, TalliesOk, RandomOk, RangesOk, CollisionsOk, AddrsOk;
    }

    /** Whether an address can move to the tried table without evicting another. */
    ghost predicate TriedSlotFree(id: int)
      requires id in mapInfo
      reads this, vvTried
    {
      var s := TriedSlot(env, nKey, mapInfo[id].addr);
      s in TableOf(vvTried) && TableOf(vvTried)[s] == -1
    }

    /** Notes a successful connection: a new address becomes tried, unless it would evict
        another one and is to wait for a test of that first. */
    method Good(addr: Service, testBeforeEvict: bool, time: int) returns (moved: bool)
      requires Valid() && time > 0
      modifies this`lastGood, this`triedCollisions
      modifies this`mapInfo, this`mapAddr, this`vRandom, this`nNew, this`nTried, this`networkCounts, vvNew, vvTried
      ensures Valid() && nIdCount == old(nIdCount) && nKey == old(nKey)
      ensures moved <==> addr in old(mapAddr) && !old(mapInfo[mapAddr[addr]].fInTried)
                         && (!testBeforeEvict || old(TriedSlotFree(mapAddr[addr])))
      ensures lastGood == time
      ensures addr !in old(mapAddr) ==> View() == old(View())
      ensures addr in old(mapAddr) ==>
                var id := old(mapAddr[addr]);
                var seen := old(mapInfo[id]).(lastSuccess := time, lastTry := time, nAttempts := 0);
                if moved then MadeTried(env, Put(old(View()), id, seen), id, View())
                else View() == Put(old(View()), id, seen).(collisions := triedCollisions)
      ensures triedCollisions ==
              if testBeforeEvict && addr in old(mapAddr) && !old(mapInfo[mapAddr[addr]].fInTried)
                 && !old(TriedSlotFree(mapAddr[addr])) && |old(triedCollisions)| < 10
              then old(triedCollisions) + {old(mapAddr[addr])}
              else old(triedCollisions)
    {
      hide Mid, CollisionsOk, TableOf, Slots, MadeTried, TriedSlot, Put, CollisionsBut;
      ValidParts();
      lastGood := time;
      var id := Find(addr);
      if id == -1 {
        return false;
      }
      FoundId(addr, id);
      ghost var b := View();
      var info := mapInfo[id].(lastSuccess := time, lastTry := time, nAttempts := 0);
      Update(id, info);
      PutFacts(b, id, info);
      if info.fInTried {
        return false;
      }
      HasReference(View(), id);
      assert mapInfo[id].nRefCount > 0;
      var bucket := TriedBucket(env, nKey, info.addr);
      var s := Slot(bucket, BucketPosition(env, nKey, false, bucket, info.addr));
      SlotIsTriedSlot(info.addr, s);
      var occupant := GetSlot(vvTried, s);
      if testBeforeEvict && occupant != -1 {
        if |triedCollisions| < COLLISIONS_MAX {
          CollisionAdded(View(), id, s);
          triedCollisions := triedCollisions + {id};
        }
        return false;
      }
      MakeTried(id);
      MadeTriedFacts(b, id, info, View());
      moved := true;
    }

    lemma PutFacts(b: Book, id: int, i: AddrInfo)
      requires id in b.info && i.addr == b.info[id].addr
      ensures var c := Put(b, id, i);
              && c.info == b.info[id := i] && c.addr == b.addr && c.news == b.news && c.tried == b.tried
                 && c.nKey == b.nKey
              && c.nIdCount == b.nIdCount && c.collisions == b.collisions
    {
    }

    lemma SlotIsTriedSlot(addr: Service, s: Slot)
      requires s == Slot(TriedBucket(env, nKey, addr),
                         BucketPosition(env, nKey, false, TriedBucket(env, nKey, addr), addr))
      ensures s == TriedSlot(env, nKey, addr)
    {
    }

    lemma HasReference(b: Book, id: int)
      requires Mid(env, b, {}, {}) && id in b.info && !b.info[id].fInTried
      ensures b.info[id].nRefCount > 0
    {
    }

    lemma CollisionAdded(b: Book, id: int, s: Slot)
      requires Ok(env, b) && id in b.info && s == TriedSlot(env, b.nKey, b.info[id].addr) && s in b.tried
               && b.tried[s] != -1
      ensures Ok(env, b.(collisions := b.collisions + {id}))
    {
      hide Members, TriedSlot, Holders;
      var c := b.(collisions := b.collisions + {id});
      assert Mid(env, c, {}, {}) by {
        assert IdsOk(c);
        assert AddrsOk(b) ==> forall a | a in b.addr :: LeadsTo(b, a) && LeadsTo(c, a);
      }
    }

    lemma MadeTriedFacts(b: Book, id: int, i: AddrInfo, c: Book)
      requires id in b.info && MadeTried(env, Put(b, id, i), id, c)
      ensures c.nIdCount == b.nIdCount && c.nKey == b.nKey && c.collisions == b.collisions
    {
    }

    /** What holds while entry id looks for a slot. */
    ghost predicate Adding(id: int)
      reads this, vvTried, vvNew
    {
      && Shape() && nKey != 0 && Mid(env, View(), {id}, {}) && CollisionsOk(env, View())
      && id in mapInfo && !mapInfo[id].fInTried && 0 <= mapInfo[id].nRefCount < NEW_BUCKETS_PER_ADDRESS
    }

    /** Gives an entry a slot, clearing it first. */
    method InsertAt(id: int, s: Slot)
      requires Adding(id) && InNew(s) && s in View().news && View().news[s] != id
      requires s.pos == BucketPosition(env, nKey, true, s.bucket, mapInfo[id].addr)
      modifies this`mapInfo, this`mapAddr, this`vRandom, this`nNew, this`networkCounts, vvNew
      ensures Valid() && Inserted(old(View()), s, id, View())
    {
      hide Mid, CollisionsBut, TableOf, Slots, SameEntry, Cleared, BucketPosition, Fits, Inserted;
      ghost var b := View();
      ClearNew(s, {id}, {}, {});
      ghost var c := View();
      ReadyToRef(b, s, c, id);
      RefKeeps(env, c, s, id, {id}, {}, {});
      mapInfo := mapInfo[id := mapInfo[id].(nRefCount := mapInfo[id].nRefCount + 1)];
      SetSlot(vvNew, s, id);
      assert View() == Ref(c, s, id);
      InsertEffect(b, s, c, id);
      assert {id} - {id} == {};
    }

    /** Leaves an entry without the slot, deleting it if it has none. */
    method Reject(id: int)
      requires Adding(id)
      modifies this`mapInfo, this`mapAddr, this`vRandom, this`nNew, this`networkCounts
      ensures Valid() && Rejected(old(View()), id, View())
    {
      hide Mid, CollisionsBut, TableOf, Slots, SameEntry;
      AllSame(View());
      if mapInfo[id].nRefCount == 0 {
        Delete(id, {id}, {}, {});
        assert {id} - {id} == {};
      } else {
        NoneAtZero(View(), id);
      }
    }

    /** Gives an entry its slot for a source, if that is free or may be overwritten; an
        entry left without any slot is deleted. */
    method TryInsert(id: int, source: nat, now: int) returns (inserted: bool)
      requires Adding(id)
      modifies this`mapInfo, this`mapAddr, this`vRandom, this`nNew, this`networkCounts, vvNew
      ensures Valid()
      ensures var s := NewSlot(env, nKey, old(mapInfo[id]).addr, source);
              && s in old(View()).news
              && (inserted <==> old(View()).news[s] == -1
                                || (old(View()).news[s] != id
                                    && Yields(old(View()), old(View()).news[s], old(mapInfo[id]), now)))
              && (inserted ==> Inserted(old(View()), s, id, View()))
      ensures !inserted ==> Rejected(old(View()), id, View())
    {
      hide Mid, CollisionsBut, TableOf, Slots, Inserted, Rejected;
      ghost var b := View();
      var bucket := NewBucket(env, nKey, mapInfo[id].addr, source);
      var s := Slot(bucket, BucketPosition(env, nKey, true, bucket, mapInfo[id].addr));
      var existing := GetSlot(vvNew, s);
      inserted := existing == -1;
      if existing != id {
        if !inserted {
          ExistingKnown(b, id, s);
          if IsTerrible(mapInfo[existing], now) || (mapInfo[existing].nRefCount > 1 && mapInfo[id].nRefCount == 0) {
            inserted := true;
          }
        }
        if inserted {
          InsertAt(id, s);
        } else {
          Reject(id);
        }
      } else {
        IdNotNegative(b, id);
        HolderCounts(b, id, s);
        RejectedSame(b, id);
      }
    }

    lemma IdNotNegative(b: Book, id: int)
      requires Mid(env, b, {id}, {}) && id in b.info
      ensures id >= 0
    {
      hide AddrsOk, RandomOk, TalliesOk, TriedOk, NewOk, RefsOk, RangesOk, TimesOk;
    }

    lemma RejectedSame(b: Book, id: int)
      requires id in b.info && b.info[id].nRefCount > 0
      ensures Rejected(b, id, b)
    {
    }

    lemma AllSame(b: Book)
      ensures forall x :: SameEntry(b, b, x)
    {
    }

    lemma ExistingKnown(b: Book, id: int, s: Slot)
      requires Mid(env, b, {id}, {}) && s in b.news && b.news[s] != -1
      ensures b.news[s] in b.info
    {
    }

    lemma NoneAtZero(b: Book, id: int)
      requires Mid(env, b, {id}, {}) && id in b.info && b.info[id].nRefCount > 0
      ensures Mid(env, b, {}, {})
    {
      hide IdsOk, AddrsOk, RandomOk, TalliesOk, TriedOk, NewOk, RefsOk, TimesOk;
    }

    lemma HolderCounts(b: Book, id: int, s: Slot)
      requires Mid(env, b, {id}, {}) && id in b.info && s in b.news && b.news[s] == id
      ensures b.info[id].nRefCount > 0 && Mid(env, b, {}, {})
    {
      HasHolder(b.news, s);
      assert b.info[id].nRefCount == |Holders(b.news, id)|;
      NoneAtZero(b, id);
    }

    lemma ReadyToRef(b: Book, s: Slot, c: Book, id: int)
      requires Mid(env, c, {id}, {}) && Cleared(b, s, c) && s in b.news && b.news[s] != id && InNew(s)
      requires id in b.info && !b.info[id].fInTried
               && s.pos == BucketPosition(env, b.nKey, true, s.bucket, b.info[id].addr)
      ensures Fits(env, c, s, id) && id in c.info && c.info[id].nRefCount == b.info[id].nRefCount
      ensures c.info[id] == b.info[id].(nRandomPos := c.info[id].nRandomPos)
    {
      hide Mid, BucketPosition;
      assert b.news[s] != -1 ==> SameEntry(b, c, id);
    }

    lemma InsertEffect(b: Book, s: Slot, c: Book, id: int)
      requires Cleared(b, s, c) && s in b.news && b.news[s] != id && id in b.info && id in c.info
      requires c.info[id] == b.info[id].(nRandomPos := c.info[id].nRandomPos)
      ensures Inserted(b, s, id, Ref(c, s, id))
    {
      forall x | x != id && x != b.news[s]
        ensures SameEntry(b, Ref(c, s, id), x)
      {
        assert b.news[s] != -1 ==> SameEntry(b, c, x);
      }
    }

    lemma AddingKnown(b: Book, id: int)
      requires Ok(env, b) && id in b.info
      ensures Mid(env, b, {id}, {}) && b.info[id].nRefCount >= 0
    {
      hide AddrsOk, RandomOk, TalliesOk, TriedOk, NewOk, TimesOk, CollisionsBut;
      MoreZero(env, b, id);
    }

    /** Creates an entry for an address not yet known, not seen after its time less the
        penalty. */
    method CreateNew(addr: Service, nTime: int, nServices: set<nat>, source: nat, penalty: int) returns (id: int)
      requires Valid() && addr !in mapAddr && env.isRoutable(addr.ip)
      modifies this`nIdCount, this`mapInfo, this`mapAddr, this`vRandom, this`nNew, this`networkCounts
      ensures Adding(id) && id == old(nIdCount) && nKey == old(nKey) && id !in old(mapInfo)
      ensures mapInfo == old(mapInfo)[id := NewInfo(addr, Max(0, nTime - penalty), nServices,
                                                    source).(nRandomPos := |old(vRandom)|)]
      ensures TableOf(vvNew) == old(TableOf(vvNew)) && TableOf(vvTried) == old(TableOf(vvTried))
      ensures triedCollisions == old(triedCollisions)
    {
      hide Mid, CollisionsBut, TableOf, Slots, Created;
      ghost var b := View();
      IdUnused(b);
      var i := NewInfo(addr, nTime, nServices, source);
      CreateKeeps(env, b, i, {});
      assert {} + {b.nIdCount} == {b.nIdCount};
      id := Create(addr, nTime, nServices, source);
      ghost var c := View();
      CreatedFacts(b, i);
      PutKeeps(env, c, {id}, {}, id, mapInfo[id].(nTime := Max(0, nTime - penalty)));
      mapInfo := mapInfo[id := mapInfo[id].(nTime := Max(0, nTime - penalty))];
      assert View() == Put(c, id, mapInfo[id]);
    }

    lemma IdUnused(b: Book)
      requires Mid(env, b, {}, {})
      ensures b.nIdCount !in b.info
    {
      hide AddrsOk, RandomOk, TalliesOk, TriedOk, NewOk, RefsOk, RangesOk, TimesOk;
    }

    lemma CreatedFacts(b: Book, i: AddrInfo)
      ensures var c := Created(env, b, i);
              && c.info == b.info[b.nIdCount := i.(nRandomPos := |b.random|)]
              && c.news == b.news && c.tried == b.tried && c.nKey == b.nKey && c.collisions == b.collisions
    {
    }

    /** Updates what is known of an address; goOn tells whether it may get another slot. */
    method Refresh(id: int, addr: Service, nTime: int, nServices: set<nat>, penalty: int, now: int, draw: nat,
                   ghost o: Offer)
      returns (goOn: bool)
      requires Valid() && id in mapInfo && mapInfo[id].addr == addr
      requires o.addr == addr && o.nTime == nTime && o.nServices == nServices
      requires penalty == if addr.ip == o.source then 0 else o.timePenalty
      modifies this`mapInfo
      ensures Valid() && OfferKnown(old(View()), o) && addr in mapAddr && mapAddr[addr] == id
      ensures View() == Put(old(View()), id, Offered(old(View()), o, now))
      ensures goOn <==> MayEnter(old(View()), o, now, draw)
      ensures goOn ==> Adding(id) && Readied(old(View()), View(), o, now)
    {
      hide Mid, CollisionsBut, TableOf, Slots, SameEntry;
      ghost var b := View();
      FoundId(addr, id);
      var info := mapInfo[id];
      var interval := if now - nTime < 24 * 3600 then 3600 else 24 * 3600;
      if info.nTime < nTime - interval - penalty {
        info := info.(nTime := Max(0, nTime - penalty));
      }
      info := info.(nServices := info.nServices + nServices);
      Update(id, info);
      assert info == Offered(b, o, now);
      if nTime <= info.nTime || info.fInTried || info.nRefCount == NEW_BUCKETS_PER_ADDRESS {
        return false;
      }
      if info.nRefCount > 0 {
        if draw != 0 {
          return false;
        }
      }
      AddingKnown(View(), id);
      AtMostEight(View(), id);
      HasReference(View(), id);
      goOn := true;
    }

    /** Adds an address from a source to the new table, or refreshes what is known of it.
        A new address that gets no slot is forgotten again. */
    method AddSingle(addr: Service, nTime: int, nServices: set<nat>, source: nat, timePenalty: int, now: int,
                     later: int, draw: nat)
      returns (inserted: bool)
      requires Valid()
      modifies this`nIdCount, this`mapInfo, this`mapAddr, this`vRandom, this`nNew, this`networkCounts, vvNew
      ensures Valid()
      ensures AddedOne(env, old(View()), Offer(addr, nTime, nServices, source, timePenalty),
                       Finding(now, later, draw), inserted, View())
    {
      hide Mid, CollisionsBut, TableOf, Slots, Inserted, Rejected, NewSlot, SameEntry, Readied, Adding, Offered, Yields,
           Entered, SameEntries;
      inserted := false;
      ghost var b, o := View(), Offer(addr, nTime, nServices, source, timePenalty);
      KnownOffer(o);
      if !env.isRoutable(addr.ip) {
        return;
      }
      ValidParts();
      var id := Find(addr);
      var penalty := if addr.ip == source then 0 else timePenalty;
      if id != -1 {
        var goOn := Refresh(id, addr, nTime, nServices, penalty, now, draw, o);
        if !goOn {
          return;
        }
      } else {
        id := CreateNew(addr, nTime, nServices, source, penalty);
        OfferedNew(b, o, now);
        CreatedOthers(b, View(), o, now);
      }
      ghost var c := View();
      ReadiedFacts(b, c, o, now);
      inserted := TryInsert(id, source, later);
      if inserted {
        InsertedFinal(b, c, o, now);
      } else {
        RejectedFinal(b, c, o, now);
      }
      AddedReadied(b, c, o, Finding(now, later, draw), inserted, View());
    }

    lemma KnownOffer(o: Offer)
      requires Valid()
      ensures OfferKnown(View(), o)
    {
      hide TableOf, IdsOk, RandomOk, TalliesOk, TriedOk, NewOk, RefsOk, RangesOk, TimesOk, CollisionsBut;
      assert o.addr in mapAddr ==> LeadsTo(View(), o.addr);
    }

    lemma ReadiedFacts(b: Book, c: Book, o: Offer, now: int)
      requires Readied(b, c, o, now)
      ensures OfferedId(b, o) in c.info && c.info[OfferedId(b, o)].addr == o.addr && c.nKey == b.nKey
      ensures forall x | x != OfferedId(b, o) :: SameEntry(b, c, x)
    {
    }

    /** What is in the way of the entry is so before it is readied. */
    lemma AddedReadied(b: Book, c: Book, o: Offer, f: Finding, inserted: bool, d: Book)
      requires Readied(b, c, o, f.now) && env.isRoutable(o.addr.ip) && MayEnter(b, o, f.now, f.draw)
      requires var s, id := NewSlot(env, c.nKey, o.addr, o.source), OfferedId(b, o);
               && s in c.news
               && (inserted <==> c.news[s] == -1 || (c.news[s] != id && Yields(c, c.news[s], c.info[id], f.later)))
      requires if inserted then Entered(env, b, o, f.now, d)
               else if o.addr in b.addr then d == Put(b, b.addr[o.addr], Offered(b, o, f.now))
               else SameEntries(b, d)
      ensures AddedOne(env, b, o, f, inserted, d)
    {
      hide NewSlot, Offered, IsTerrible, Entered, SameEntries;
    }

    lemma AtMostEight(b: Book, id: int)
      requires Ok(env, b) && id in b.info
      ensures b.info[id].nRefCount <= NEW_BUCKETS_PER_ADDRESS
    {
      hide AddrsOk, RandomOk, TalliesOk, TriedOk, NewOk, TimesOk, CollisionsBut, RefsOk, IdsOk;
    }

    lemma OfferedNew(b: Book, o: Offer, now: int)
      requires o.addr !in b.addr
      ensures var penalty := if o.addr.ip == o.source then 0 else o.timePenalty;
              Offered(b, o, now) ==
              NewInfo(o.addr, Max(0, o.nTime - penalty), o.nServices, o.source).(nRandomPos := |b.random|)
    {
    }

    lemma CreatedOthers(b: Book, c: Book, o: Offer, now: int)
      requires OfferKnown(b, o) && o.addr !in b.addr && b.nIdCount !in b.info
      requires c.info == b.info[b.nIdCount := Offered(b, o, now)]
      requires c.news == b.news && c.tried == b.tried && c.nKey == b.nKey
      ensures Readied(b, c, o, now)
    {
    }

    lemma InsertedFinal(b: Book, c: Book, o: Offer, now: int)
      requires Readied(b, c, o, now) && b.nKey == nKey
      requires Inserted(c, NewSlot(env, nKey, o.addr, o.source), OfferedId(b, o), View()) && Mid(env, View(), {}, {})
      requires var s := NewSlot(env, nKey, o.addr, o.source); s in c.news && c.news[s] != OfferedId(b, o)
      ensures Entered(env, b, o, now, View())
    {
      hide TableOf, NewSlot, RandomOk, TalliesOk, TriedOk, NewOk, RefsOk, RangesOk, TimesOk, Offered;
      var s, id := NewSlot(env, nKey, o.addr, o.source), OfferedId(b, o);
      OfferedSame(b, o, now);
      forall x | x != id && x != b.news[s]
        ensures SameEntry(b, View(), x)
      {
        assert SameEntry(c, View(), x);
      }
    }

    lemma OfferedSame(b: Book, o: Offer, now: int)
      requires OfferKnown(b, o)
      ensures Offered(b, o, now).addr == o.addr
    {
    }

    lemma RejectedFinal(b: Book, c: Book, o: Offer, now: int)
      requires Readied(b, c, o, now)
      requires Rejected(c, OfferedId(b, o), View())
      ensures if o.addr in b.addr then View() == Put(b, b.addr[o.addr], Offered(b, o, now)) else SameEntries(b, View())
    {
      hide TableOf, Slots, Offered;
      if o.addr !in b.addr {
        var id := OfferedId(b, o);
        assert c.info[id] == Offered(b, o, now) && id !in View().info;
        forall x
          ensures SameEntry(b, View(), x)
        {
          assert x != id ==> SameEntry(b, c, x) && SameEntry(c, View(), x);
        }
        SameKeys(b, View());
      }
    }

    lemma SameKeys(b: Book, c: Book)
      requires forall x :: SameEntry(b, c, x)
      ensures b.info.Keys == c.info.Keys
    {
      forall x
        ensures x in b.info.Keys <==> x in c.info.Keys
      {
        assert SameEntry(b, c, x);
      }
    }

    /** Adds addresses from one source, one after the other; turns tells of each whether it
        was inserted, what it found, and between which states of the book. */
    method Add(addrs: seq<(Service, int, set<nat>)>, source: nat, timePenalty: int)
      returns (anyAdded: bool, ghost turns: seq<Turn<(bool, Finding)>>)
      requires Valid()
      modifies this`nIdCount, this`mapInfo, this`mapAddr, this`vRandom, this`nNew, this`networkCounts, vvNew
      ensures Valid()
      ensures |turns| == |addrs| && Successive(old(View()), turns, View())
      ensures forall k | 0 <= k < |turns| :: AddTurn(turns[k], addrs[k], source, timePenalty)
      ensures anyAdded <==> exists k :: 0 <= k < |turns| && turns[k].about.0
      ensures !anyAdded ==> View().news == old(View()).news && mapInfo.Keys == old(mapInfo).Keys
    {
      hide Ok, TableOf, Slots, NewSlot, AddedOne, AddTurn;
      var added := 0;
      turns := [];
      var k := 0;
      while k < |addrs|
        invariant 0 <= k <= |addrs| && 0 <= added && Valid()
        invariant |turns| == k && Successive(old(View()), turns, View())
        invariant forall j | 0 <= j < k :: AddTurn(turns[j], addrs[j], source, timePenalty)
        invariant added > 0 <==> exists j :: 0 <= j < k && turns[j].about.0
        invariant added == 0 ==> View().news == old(View()).news && mapInfo.Keys == old(mapInfo).Keys
      {
        var now: int := *;
        var later: int := *;
        var draw: nat := *;
        ghost var before := View();
        var inserted := AddSingle(addrs[k].0, addrs[k].1, addrs[k].2, source, timePenalty, now, later, draw);
        ghost var turn := Turn((inserted, Finding(now, later, draw)), before, View());
        TurnAdded(turn, addrs[k], source, timePenalty);
        OneMoreTurn(old(View()), turns, turn);
        turns := turns + [turn];
        assert inserted ==> turns[k].about.0;
        added := added + if inserted then 1 else 0;
        k := k + 1;
      }
      anyAdded := added > 0;
    }

    /** One address was dealt with as when it is added alone. */
    ghost predicate AddTurn(t: Turn<(bool, Finding)>, addr: (Service, int, set<nat>), source: nat, timePenalty: int) {
      AddedOne(env, t.before, Offer(addr.0, addr.1, addr.2, source, timePenalty), t.about.1, t.about.0, t.after)
    }

    lemma TurnAdded(t: Turn<(bool, Finding)>, addr: (Service, int, set<nat>), source: nat, timePenalty: int)
      requires AddedOne(env, t.before, Offer(addr.0, addr.1, addr.2, source, timePenalty), t.about.1, t.about.0,
                        t.after)
      ensures AddTurn(t, addr, source, timePenalty)
      ensures !t.about.0 ==> t.after.news == t.before.news && t.after.info.Keys == t.before.info.Keys
    {
      hide NewSlot, Offered;
    }

    lemma CollisionDropped(id: int, b: Book)
      requires Ok(env, b)
      ensures Ok(env, b.(collisions := b.collisions - {id}))
    {
      hide Members, TriedSlot, Holders;
      var c := b.(collisions := b.collisions - {id});
      assert Mid(env, c, {}, {}) by {
        assert IdsOk(c);
        assert AddrsOk(b) ==> forall a | a in b.addr :: LeadsTo(b, a) && LeadsTo(c, a);
      }
    }

    lemma CollisionOccupied(id: int, b: Book)
      requires Ok(env, b) && id in b.info
      ensures var s := TriedSlot(env, b.nKey, b.info[id].addr);
              && InTried(s) && s in b.tried
              && (b.tried[s] != -1 ==> b.tried[s] in b.info && b.info[b.tried[s]].fInTried)
              && (id in b.collisions ==> b.tried[s] != -1)
    {
      hide IdsOk, AddrsOk, RandomOk, TalliesOk, NewOk, RefsOk, RangesOk, TimesOk;
      SlotInTried(env, b.nKey, b.info[id].addr);
    }

    lemma SlotHolds(id: int, b: Book)
      requires Ok(env, b) && id in b.info
      ensures var s := TriedSlot(env, b.nKey, b.info[id].addr);
              InTried(s) && s in b.tried && (b.tried[s] != -1 ==> b.tried[s] in b.info && b.info[b.tried[s]].fInTried)
    {
      CollisionOccupied(id, b);
    }

    /** What becomes of a collision: a new address that cannot be used any more is dropped;
        so is one whose rival connected within four hours; the rival is replaced if it was
        tried within four hours, more than a minute ago, and did not connect, or if the new
        address has waited for more than forty minutes, or if there is no rival. */
    ghost function Verdict(b: Book, idNew: int, now: int): Verdict
      requires Ok(env, b)
    {
      if idNew !in b.info || !env.isValid(b.info[idNew].addr.ip) then Drop
      else
        SlotHolds(idNew, b);
        var idOld := b.tried[TriedSlot(env, b.nKey, b.info[idNew].addr)];
        if idOld == -1 then Replace
        else if now - b.info[idOld].lastSuccess < 4 * 3600 then Drop
        else if now - b.info[idOld].lastTry < 4 * 3600
            then (if now - b.info[idOld].lastTry > 60 then Replace else Wait)
        else if now - b.info[idNew].lastSuccess > 40 * 60 then Replace
        else Wait
    }

    /** A collision was dealt with as its verdict says: left waiting, or taken off with
        nothing else changed, or taken off with the new address, unless tried already,
        moved to its tried slot. */
    ghost predicate Decided(b: Book, id: int, now: int, c: Book)
      requires Ok(env, b)
    {
      match Verdict(b, id, now)
      case Wait => c == b
      case Drop => c == b.(collisions := b.collisions - {id})
      case Replace =>
        && id in b.info && c.collisions == b.collisions - {id}
        && var seen := Put(b, id, b.info[id].(lastSuccess := now, lastTry := now, nAttempts := 0));
           if b.info[id].fInTried then c == seen.(collisions := b.collisions - {id})
           else MadeTried(env, seen, id, c.(collisions := b.collisions))
    }

    lemma DecidedCollisions(b: Book, id: int, now: int, c: Book)
      requires Ok(env, b) && Decided(b, id, now, c)
      ensures c.collisions == if Verdict(b, id, now) == Wait then b.collisions else b.collisions - {id}
    {
    }

    /** Decides about one collision. */
    method ResolveOne(idNew: int, now: int) returns (eraseCollision: bool)
      requires Valid() && idNew in triedCollisions && now > 0
      modifies this`lastGood, this`triedCollisions
      modifies this`mapInfo, this`mapAddr, this`vRandom, this`nNew, this`nTried, this`networkCounts, vvNew, vvTried
      ensures Valid() && triedCollisions == old(triedCollisions) && nKey == old(nKey)
      ensures eraseCollision <==> Verdict(old(View()), idNew, now) != Wait
      ensures lastGood == if Verdict(old(View()), idNew, now) == Replace then now else old(lastGood)
      ensures Decided(old(View()), idNew, now,
                      if eraseCollision then View().(collisions := triedCollisions - {idNew}) else View())
    {
      hide Ok, TableOf, Slots, TriedSlot, MadeTried, Put, TriedSlotFree;
      eraseCollision := false;
      if idNew !in mapInfo {
        eraseCollision := true;
      } else {
        var infoNew := mapInfo[idNew];
        var bucket := TriedBucket(env, nKey, infoNew.addr);
        var s := Slot(bucket, BucketPosition(env, nKey, false, bucket, infoNew.addr));
        SlotIsTriedSlot(infoNew.addr, s);
        SlotHolds(idNew, View());
        OwnId(idNew);
        if !env.isValid(infoNew.addr.ip) {
          eraseCollision := true;
        } else {
          var idOld := GetSlot(vvTried, s);
          if idOld != -1 {
            var infoOld := mapInfo[idOld];
            if now - infoOld.lastSuccess < REPLACEMENT {
              eraseCollision := true;
            } else if now - infoOld.lastTry < REPLACEMENT {
              if now - infoOld.lastTry > 60 {
                var moved := Good(infoNew.addr, false, now);
                eraseCollision := true;
              }
            } else if now - infoNew.lastSuccess > TEST_WINDOW {
              var moved := Good(infoNew.addr, false, now);
              eraseCollision := true;
            }
          } else {
            var moved := Good(infoNew.addr, false, now);
            eraseCollision := true;
          }
        }
      }
    }

    lemma OwnId(id: int)
      requires Valid() && id in mapInfo
      ensures mapInfo[id].addr in mapAddr && mapAddr[mapInfo[id].addr] == id
    {
      hide IdsOk, RandomOk, TalliesOk, TriedOk, NewOk, RefsOk, RangesOk, TimesOk, CollisionsBut;
    }

    /** Decides what can be decided of the collisions waiting: each is dropped, resolved in
        favour of the new address once the old one had its chance, or left waiting. */
    method ResolveCollisions() returns (ghost turns: seq<Turn<(int, int)>>)
      requires Valid()
      modifies this`lastGood, this`triedCollisions
      modifies this`mapInfo, this`mapAddr, this`vRandom, this`nNew, this`nTried, this`networkCounts, vvNew, vvTried
      ensures Valid() && triedCollisions <= old(triedCollisions) && nKey == old(nKey)
      ensures Successive(old(View()), turns, View()) && |turns| == |old(triedCollisions)|
      ensures Ids(turns) == old(triedCollisions)
      ensures forall k | 0 <= k < |turns| :: TurnOk(turns[k], triedCollisions)
      ensures lastGood == LastGood(turns, old(lastGood))
    {
      hide Ok, TableOf, Slots, Decided, Verdict, TurnOk, Ids;
      NoTurns();
      ghost var b0 := View();
      turns := [];
      var rest := triedCollisions;
      while rest != {}
        invariant Valid() && rest <= triedCollisions <= old(triedCollisions) && nKey == old(nKey)
        invariant Successive(b0, turns, View()) && |turns| + |rest| == |old(triedCollisions)|
        invariant Ids(turns) == old(triedCollisions) - rest
        invariant forall k | 0 <= k < |turns| :: TurnOk(turns[k], triedCollisions)
        invariant lastGood == LastGood(turns, old(lastGood))
        decreases |rest|
      {
        ghost var some := SomeElement(rest);
        var idNew: int :| idNew in rest;
        var now: int :| now > 0;
        ghost var before, turns0, waiting := View(), turns, triedCollisions;
        var eraseCollision := ResolveOne(idNew, now);
        if eraseCollision {
          CollisionDropped(idNew, View());
          triedCollisions := triedCollisions - {idNew};
        }
        rest := rest - {idNew};
        ghost var turn := Turn((idNew, now), before, View());
        OneMoreTurn(b0, turns, turn);
        turns := turns + [turn];
        assert turns[..|turns| - 1] == turns0;
        OneMoreDecided(turns0, turn, waiting, triedCollisions);
      }
    }

    /** The time of the last turn in favour of the new address, or else that before. */
    ghost function LastGood(turns: seq<Turn<(int, int)>>, before: int): int {
      if turns == [] then before
      else
        var t := turns[|turns| - 1];
        if Ok(env, t.before) && Verdict(t.before, t.about.0, t.about.1) == Replace then t.about.1
        else LastGood(turns[..|turns| - 1], before)
    }

    /** The collisions the turns were about. */
    ghost function Ids(turns: seq<Turn<(int, int)>>): set<int> {
      set k | 0 <= k < |turns| :: turns[k].about.0
    }

    /** A collision was decided by its verdict at its turn, and waits still exactly if that
        says so. */
    ghost predicate TurnOk(t: Turn<(int, int)>, waiting: set<int>) {
      && Ok(env, t.before) && Decided(t.before, t.about.0, t.about.1, t.after)
      && (t.about.0 in waiting <==> Verdict(t.before, t.about.0, t.about.1) == Wait)
    }

    lemma NoTurns()
      ensures Ids([]) == {}
    {
    }

    lemma OneMoreDecided(turns: seq<Turn<(int, int)>>, t: Turn<(int, int)>, was: set<int>, waiting: set<int>)
      requires forall k | 0 <= k < |turns| :: TurnOk(turns[k], was)
      requires t.about.0 !in Ids(turns)
      requires Ok(env, t.before) && Decided(t.before, t.about.0, t.about.1, t.after) && t.about.0 in was
      requires was == t.before.collisions && waiting == t.after.collisions
      ensures forall k | 0 <= k < |turns| + 1 :: TurnOk((turns + [t])[k], waiting)
      ensures Ids(turns + [t]) == Ids(turns) + {t.about.0}
    {
      hide Decided, Verdict, Ok;
      var more := turns + [t];
      assert more[|turns|] == t && forall k | 0 <= k < |turns| :: more[k] == turns[k];
      DecidedCollisions(t.before, t.about.0, t.about.1, t.after);
      forall k | 0 <= k < |turns|
        ensures TurnOk((turns + [t])[k], waiting)
      {
        assert TurnOk(turns[k], was) && turns[k].about.0 in Ids(turns);
      }
    }

    /** A tried address that some collision waits to evict, to be tested next. The lookup
        in its slot never meets an empty one. */
    method SelectTriedCollision() returns (r: Option<(Service, int)>)
      requires Valid()
      modifies this`triedCollisions
      ensures Valid() && triedCollisions <= old(triedCollisions) && (old(triedCollisions) == {} ==> r.None?)
      ensures r.Some? ==> triedCollisions == old(triedCollisions)
      ensures r.Some? ==>
                exists id :: id in triedCollisions && id in mapInfo
                             && var s := TriedSlot(env, nKey, mapInfo[id].addr);
                                s in View().tried && View().tried[s] in mapInfo && mapInfo[View().tried[s]].fInTried
                                && r.value == (mapInfo[View().tried[s]].addr, mapInfo[View().tried[s]].lastTry)
      ensures r.None? && old(triedCollisions) != {} ==>
                exists id :: id in old(triedCollisions) && id !in mapInfo
                    && triedCollisions == old(triedCollisions) - {id}
    {
      hide Ok, TableOf, Slots, TriedSlot;
      r := None;
      if triedCollisions == {} {
        return;
      }
      ghost var some := SomeElement(triedCollisions);
      var idNew: int :| idNew in triedCollisions;
      if idNew !in mapInfo {
        CollisionDropped(idNew, View());
        triedCollisions := triedCollisions - {idNew};
        return;
      }
      var bucket := TriedBucket(env, nKey, mapInfo[idNew].addr);
      var s := Slot(bucket, BucketPosition(env, nKey, false, bucket, mapInfo[idNew].addr));
      SlotIsTriedSlot(mapInfo[idNew].addr, s);
      CollisionOccupied(idNew, View());
      var idOld := GetSlot(vvTried, s);
      assert idOld != -1 && idOld in mapInfo;
      r := Some((mapInfo[idOld].addr, mapInfo[idOld].lastTry));
    }

    lemma PartOf(pct: nat, maxPct: nat, count: nat)
      requires pct <= 100 && pct <= maxPct
      ensures pct * count / 100 <= count && 100 * (pct * count / 100) <= maxPct * count
      ensures 100 * (pct * count / 100 + 1) > pct * count
      ensures pct == 100 ==> pct * count / 100 == count
    {
      assert pct * count <= 100 * count && pct * count <= maxPct * count;
    }

    /** Of the network asked for, if any, and not terrible if those are filtered out. */
    predicate Wanted(i: AddrInfo, network: Option<nat>, filtered: bool, now: int): (r: bool)
      ensures r <==> (network == None || network == Some(env.netClass(i.addr.ip))) && (filtered ==> !IsTerrible(i, now))
    {
      && (network.Some? ==> env.netClass(i.addr.ip) == network.value)
      && !(IsTerrible(i, now) && filtered)
    }

    /** How many addresses may be returned of so many: as many as there are but no more than
        the percentage and the number given, unless those are 0. */
    function Limit(count: nat, maxAddresses: nat, maxPct: nat): (r: nat)
      ensures r <= count && (maxPct != 0 ==> 100 * r <= maxPct * count) && (maxAddresses != 0 ==> r <= maxAddresses)
      ensures || r == count
              || (maxPct != 0 && 100 * (r + 1) > maxPct * count)
              || (maxAddresses != 0 && r == maxAddresses)
    {
      PartOf(if maxPct < 100 then maxPct else 100, maxPct, count);
      var n := if maxPct != 0 then (if maxPct < 100 then maxPct else 100) * count / 100 else count;
      if maxAddresses != 0 && maxAddresses < n then maxAddresses else n
    }

    /** The first n of vRandom that are wanted are in r. */
    ghost predicate Gathered(b: Book, n: nat, r: seq<Service>, network: Option<nat>, filtered: bool, now: int) {
      && n <= |b.random|
      && (forall k | 0 <= k < n && b.random[k] in b.info && Wanted(b.info[b.random[k]], network, filtered, now) ::
            b.info[b.random[k]].addr in r)
      && (forall a | a in r :: exists k ::
          0 <= k < n && b.random[k] in b.info && Wanted(b.info[b.random[k]], network, filtered, now)
                                           && b.info[b.random[k]].addr == a)
      && (forall i, j | 0 <= i < j < |r| :: r[i] != r[j])
    }

    lemma GatherSame(b: Book, c: Book, n: nat, r: seq<Service>, network: Option<nat>, filtered: bool, now: int)
      requires Gathered(b, n, r, network, filtered, now) && SameButPos(b.info, c.info) && |c.random| == |b.random|
      requires c.random[..n] == b.random[..n]
      ensures Gathered(c, n, r, network, filtered, now)
    {
      hide IsTerrible;
      forall k | 0 <= k < n
        ensures b.random[k] == c.random[k]
        ensures b.random[k] in b.info <==> c.random[k] in c.info
        ensures b.random[k] in b.info ==>
                  Wanted(b.info[b.random[k]], network, filtered, now) ==
                      Wanted(c.info[c.random[k]], network, filtered, now)
      {
        assert b.random[..n][k] == c.random[..n][k];
        SameWanted(b, c, b.random[k], network, filtered, now);
      }
    }

    lemma SameWanted(b: Book, c: Book, id: int, network: Option<nat>, filtered: bool, now: int)
      requires SameButPos(b.info, c.info)
      ensures id in b.info <==> id in c.info
      ensures id in b.info ==> Wanted(b.info[id], network, filtered, now) == Wanted(c.info[id], network, filtered, now)
                               && b.info[id].addr == c.info[id].addr
    {
    }

    lemma GatherNext(b: Book, n: nat, r: seq<Service>, network: Option<nat>, filtered: bool, now: int)
      requires Gathered(b, n, r, network, filtered, now) && n < |b.random| && RandomOk(b) && AddrsOk(b)
      ensures b.random[n] in b.info
      ensures var i := b.info[b.random[n]];
              if Wanted(i, network, filtered, now) then Gathered(b, n + 1, r + [i.addr], network, filtered, now)
              else Gathered(b, n + 1, r, network, filtered, now)
    {
      hide Wanted, AddrsOk, RandomOk;
      NamesEntry(b, n);
      var i := b.info[b.random[n]];
      forall k | 0 <= k < n && b.random[k] in b.info
        ensures b.info[b.random[k]].addr != i.addr
      {
        DistinctAddrs(b, k, n);
      }
      if Wanted(i, network, filtered, now) {
        GatherOne(b, n, r, network, filtered, now);
      }
    }

    lemma NamesEntry(b: Book, n: nat)
      requires RandomOk(b) && n < |b.random|
      ensures b.random[n] in b.info
    {
    }

    lemma GatherOne(b: Book, n: nat, r: seq<Service>, network: Option<nat>, filtered: bool, now: int)
      requires Gathered(b, n, r, network, filtered, now) && n < |b.random| && b.random[n] in b.info
      requires Wanted(b.info[b.random[n]], network, filtered, now)
      requires forall k | 0 <= k < n && b.random[k] in b.info :: b.info[b.random[k]].addr != b.info[b.random[n]].addr
      ensures Gathered(b, n + 1, r + [b.info[b.random[n]].addr], network, filtered, now)
    {
      hide Wanted;
      var more, here := r + [b.info[b.random[n]].addr], b.info[b.random[n]].addr;
      assert here !in r;
      forall a | a in more
        ensures exists k :: 0 <= k < n + 1 && b.random[k] in b.info
                            && Wanted(b.info[b.random[k]], network, filtered, now)
                            && b.info[b.random[k]].addr == a
      {
        if a == here {
          assert b.random[n] in b.info && b.info[b.random[n]].addr == a;
        } else {
          assert a in r;
        }
      }
      forall i, j | 0 <= i < j < |more|
        ensures more[i] != more[j]
      {
        assert i < |r| && more[i] == r[i] && r[i] in r;
        assert j < |r| ==> more[j] == r[j];
      }
      forall k | 0 <= k < n + 1 && b.random[k] in b.info && Wanted(b.info[b.random[k]], network, filtered, now)
        ensures b.info[b.random[k]].addr in more
      {
        assert k < n ==> b.info[b.random[k]].addr in r;
        assert more[|r|] == here;
      }
    }

    lemma DistinctAddrs(b: Book, k: nat, n: nat)
      requires RandomOk(b) && AddrsOk(b) && k < n < |b.random|
      ensures b.random[k] in b.info && b.random[n] in b.info && b.info[b.random[k]].addr != b.info[b.random[n]].addr
    {
      var x, y := b.random[k], b.random[n];
      assert b.info[x].nRandomPos == k && b.info[y].nRandomPos == n;
      assert b.addr[b.info[x].addr] == x && b.addr[b.info[y].addr] == y;
    }

    lemma GatherAll(b: Book, n: nat, r: seq<Service>, network: Option<nat>, filtered: bool, now: int)
      requires Gathered(b, n, r, network, filtered, now) && RandomOk(b)
      ensures forall a | a in r :: exists id ::
                id in b.info && b.info[id].addr == a && Wanted(b.info[id], network, filtered, now)
      ensures n == |b.random| ==>
                forall id | id in b.info && Wanted(b.info[id], network, filtered, now) :: b.info[id].addr in r
    {
      hide Wanted;
      forall a | a in r
        ensures exists id :: id in b.info && b.info[id].addr == a && Wanted(b.info[id], network, filtered, now)
      {
        var k :| 0 <= k < n && b.random[k] in b.info && Wanted(b.info[b.random[k]], network, filtered, now)
            && b.info[b.random[k]].addr == a;
        var id := b.random[k];
        assert id in b.info && b.info[id].addr == a && Wanted(b.info[id], network, filtered, now);
      }
      if n == |b.random| {
        forall id | id in b.info && Wanted(b.info[id], network, filtered, now)
          ensures b.info[id].addr in r
        {
          assert b.random[b.info[id].nRandomPos] == id;
        }
      }
    }

    /** A random selection of known addresses, shuffling vRandom on the way: no address
        twice, none unwanted, and all wanted ones unless the limit is reached. */
    method GetAddr(maxAddresses: nat, maxPct: nat, network: Option<nat>, filtered: bool, now: int)
      returns (addresses: seq<Service>)
      requires Valid()
      modifies this`mapInfo, this`vRandom
      ensures Valid() && SameButPos(old(mapInfo), mapInfo)
      ensures |addresses| <= Limit(|vRandom|, maxAddresses, maxPct)
      ensures forall i, j | 0 <= i < j < |addresses| :: addresses[i] != addresses[j]
      ensures forall a | a in addresses :: exists id ::
                id in mapInfo && mapInfo[id].addr == a && Wanted(mapInfo[id], network, filtered, now)
      ensures |addresses| < Limit(|vRandom|, maxAddresses, maxPct) ==>
                forall id | id in mapInfo && Wanted(mapInfo[id], network, filtered, now) ::
                      mapInfo[id].addr in addresses
    {
      hide Mid, CollisionsBut, TableOf, Slots, Gathered, Wanted, Limit, Swapped;
      var nNodes := Limit(|vRandom|, maxAddresses, maxPct);
      addresses := [];
      ghost var info0, size := mapInfo, |vRandom|;
      var n := 0;
      SameInfo(mapInfo);
      NoneGathered(View(), network, filtered, now);
      while n < |vRandom|
        invariant Valid() && 0 <= n <= |vRandom| == size && SameButPos(info0, mapInfo)
        invariant Gathered(View(), n, addresses, network, filtered, now) && |addresses| <= nNodes
      {
        if |addresses| >= nNodes {
          break;
        }
        var rndPos: nat :| n <= rndPos < |vRandom|;
        Shuffle(n, rndPos, addresses, network, filtered, now, info0);
        ValidParts();
        GatherNext(View(), n, addresses, network, filtered, now);
        assert vRandom[n] in mapInfo;
        var ai := mapInfo[vRandom[n]];
        if Wanted(ai, network, filtered, now) {
          addresses := addresses + [ai.addr];
        }
        n := n + 1;
      }
      ValidParts();
      GatherAll(View(), n, addresses, network, filtered, now);
      NotTwice(View(), n, addresses, network, filtered, now);
    }

    lemma SameInfo(m: map<int, AddrInfo>)
      ensures SameButPos(m, m)
    {
    }

    lemma NoneGathered(b: Book, network: Option<nat>, filtered: bool, now: int)
      ensures Gathered(b, 0, [], network, filtered, now)
    {
    }

    lemma NotTwice(b: Book, n: nat, r: seq<Service>, network: Option<nat>, filtered: bool, now: int)
      requires Gathered(b, n, r, network, filtered, now)
      ensures forall i, j | 0 <= i < j < |r| :: r[i] != r[j]
    {
    }

    /** Swaps two positions of vRandom from n on, which changes nothing else. */
    method Shuffle(n: nat, rndPos: nat, ghost r: seq<Service>, ghost network: Option<nat>, ghost filtered: bool,
                   ghost now: int, ghost info0: map<int, AddrInfo>)
      requires Valid() && n <= rndPos < |vRandom| && SameButPos(info0, mapInfo)
      requires Gathered(View(), n, r, network, filtered, now)
      modifies this`mapInfo, this`vRandom
      ensures Valid() && |vRandom| == |old(vRandom)| && SameButPos(info0, mapInfo)
      ensures Gathered(View(), n, r, network, filtered, now)
    {
      hide Mid, CollisionsBut, TableOf, Slots, Gathered, Swapped, SameButPos;
      ghost var b := View();
      ValidParts();
      SwapRandomOk(b, n, rndPos);
      SwapRandom(n, rndPos);
      ghost var c := View();
      PosKeeps(env, b, c, {}, {});
      PosRest(env, b, c, {}, {}, {});
      SameTransitive(info0, b.info, c.info);
      SwapKeepsFront(b, n, rndPos);
      GatherSame(b, c, n, r, network, filtered, now);
    }

    lemma SwapKeepsFront(b: Book, i: nat, j: nat)
      requires i <= j < |b.random| && b.random[i] in b.info && b.random[j] in b.info
      ensures var c := Swapped(b, i, j);
              |c.random| == |b.random| && c.random[..i] == b.random[..i] && c == b.(info := c.info, random := c.random)
    {
    }

    lemma SameTransitive(a: map<int, AddrInfo>, b: map<int, AddrInfo>, c: map<int, AddrInfo>)
      requires SameButPos(a, b) && SameButPos(b, c)
      ensures SameButPos(a, c)
    {
      assert forall id | id in a :: id in b && b[id] == a[id].(nRandomPos := b[id].nRandomPos);
    }

    /** The entries of a network or of any, new, tried or both. */
    ghost function Matching(net: Option<nat>, inNew: Option<bool>): set<int>
      reads this
    {
      set id | id in mapInfo && (net.Some? ==> env.network(mapInfo[id].addr.ip) == net.value)
               && (inNew.Some? ==> mapInfo[id].fInTried != inNew.value)
    }

    /** How many entries there are, of a network or of any, new, tried or both. */
    method Size(net: Option<nat>, inNew: Option<bool>) returns (n: int)
      requires Valid()
      ensures n == |Matching(net, inNew)|
    {
      n := 0;
      if net.None? {
        if inNew.Some? {
          n := if inNew.value then nNew else nTried;
        } else {
          n := |vRandom|;
        }
      } else if net.value in networkCounts {
        var count := networkCounts[net.value];
        if inNew.Some? {
          n := if inNew.value then count.nNew else count.nTried;
        } else {
          n := count.nNew + count.nTried;
        }
      }
      SizeIs(net, inNew);
    }

    ghost function Tally(net: Option<nat>, inTried: bool): int
      reads this
    {
      |Members(env, mapInfo, {}, inTried, if net.None? then ANY else net.value)|
    }

    lemma SizeIs(net: Option<nat>, inNew: Option<bool>)
      requires Valid()
      ensures |vRandom| == nNew + nTried
      ensures |Matching(net, inNew)| ==
              if inNew.Some? then Tally(net, !inNew.value) else Tally(net, false) + Tally(net, true)
      ensures nNew == Tally(None, false) && nTried == Tally(None, true)
      ensures net.Some? ==> CountOf(networkCounts, net.value) == NewTriedCount(Tally(net, false), Tally(net, true))
    {
      hide IdsOk, AddrsOk, TriedOk, NewOk, RefsOk, RangesOk, TimesOk, RandomOk, Members, TableOf, CollisionsOk;
      SizeSets(net, inNew);
      RandomSize(env, View());
    }

    lemma SizeSets(net: Option<nat>, inNew: Option<bool>)
      ensures |Matching(net, inNew)| ==
              if inNew.Some? then Tally(net, !inNew.value) else Tally(net, false) + Tally(net, true)
    {
      var x := if net.None? then ANY else net.value;
      var all := Matching(net, inNew);
      var news, tried := Members(env, mapInfo, {}, false, x), Members(env, mapInfo, {}, true, x);
      forall id
        ensures id in news <==>
                id in mapInfo && !mapInfo[id].fInTried && (net.Some? ==> env.network(mapInfo[id].addr.ip) == net.value)
        ensures id in tried <==>
                id in mapInfo && mapInfo[id].fInTried && (net.Some? ==> env.network(mapInfo[id].addr.ip) == net.value)
      {
      }
      if inNew.Some? {
        assert all == if inNew.value then news else tried;
      } else {
        assert news !! tried;
        assert all == news + tried;
      }
    }

    // ----- the manager's own check -----

    ghost predicate Checkable()
      reads this, vvTried, vvNew
    {
      Shape() && Full(View()) && -1 !in mapInfo
      && (forall s | s in View().tried :: InTried(s)) && (forall s | s in View().news :: InNew(s))
    }

    lemma ShapeChecks()
      requires Shape()
      ensures Full(View()) && (forall s | s in View().tried :: InTried(s)) && (forall s | s in View().news :: InNew(s))
    {
      forall s: Slot
        ensures s in View().tried <==> InTried(s)
        ensures s in View().news <==> InNew(s)
      {
        InSlots(vvTried.Length0, vvTried.Length1, s);
        InSlots(vvNew.Length0, vvNew.Length1, s);
      }
    }

    method CheckEntry(n: int) returns (code: int)
      requires n in mapInfo
      ensures code == 0 <==> EntryChecked(View(), n)
    {
      hide TableOf;
      var info := mapInfo[n];
      if info.fInTried {
        if info.lastSuccess == 0 {
          return -1;
        }
        if info.nRefCount != 0 {
          return -2;
        }
      } else {
        if info.nRefCount < 0 || info.nRefCount > NEW_BUCKETS_PER_ADDRESS {
          return -3;
        }
        if info.nRefCount == 0 {
          return -4;
        }
      }
      if info.addr !in mapAddr || mapAddr[info.addr] != n {
        return -5;
      }
      if info.nRandomPos < 0 || info.nRandomPos >= |vRandom| || vRandom[info.nRandomPos] != n {
        return -14;
      }
      if info.lastTry < 0 {
        return -6;
      }
      if info.lastSuccess < 0 {
        return -8;
      }
      code := 0;
    }

    /** Adds an entry to the tallies. */
    method TallyEntry(ghost part: map<int, AddrInfo>, setTried: set<int>, mapNew: map<int, int>,
                      localCounts: map<nat, NewTriedCount>, n: int, info: AddrInfo)
      returns (setTried2: set<int>, mapNew2: map<int, int>, localCounts2: map<nat, NewTriedCount>)
      requires Tallied(env, part, setTried, mapNew, localCounts) && n !in part
      ensures Tallied(env, part[n := info], setTried2, mapNew2, localCounts2)
    {
      hide Tallied, Tallying;
      TallyOne(env, part, setTried, mapNew, localCounts, n, info);
      TallyingIs(env, localCounts, info);
      setTried2, mapNew2 := setTried, mapNew;
      var net := Network(env, info);
      var c := CountOf(localCounts, net);
      if info.fInTried {
        setTried2 := setTried + {n};
        localCounts2 := localCounts[net := NewTriedCount(c.nNew, c.nTried + 1)];
      } else {
        mapNew2 := mapNew[n := info.nRefCount];
        localCounts2 := localCounts[net := NewTriedCount(c.nNew + 1, c.nTried)];
      }
    }

    /** The entries of part are checked, those of rest are not. */
    ghost predicate PartChecked(b: Book, part: map<int, AddrInfo>, rest: set<int>) {
      && (forall id :: id in b.info <==> id in rest || id in part)
      && (forall id :: !(id in rest && id in part))
      && (forall id | id in part :: id in b.info && part[id] == b.info[id] && EntryChecked(b, id))
    }

    lemma PartStep(b: Book, part: map<int, AddrInfo>, rest: set<int>, n: int)
      requires PartChecked(b, part, rest) && n in rest
      ensures n in b.info && n !in part
      ensures EntryChecked(b, n) ==> PartChecked(b, part[n := b.info[n]], rest - {n})
      ensures !EntryChecked(b, n) ==> !EntriesChecked(b)
    {
      hide EntryChecked;
    }

    lemma PartEnd(b: Book, part: map<int, AddrInfo>)
      requires PartChecked(b, part, {})
      ensures part == b.info && EntriesChecked(b)
    {
      hide EntryChecked;
      forall id
        ensures id in part <==> id in b.info
      {
      }
      forall id | id in part
        ensures part[id] == b.info[id]
      {
        assert EntryChecked(b, id);
      }
      SameMap(part, b.info);
    }

    /** Checks every entry and tallies them up. */
    method CheckEntries()
      returns (code: int, setTried: set<int>, mapNew: map<int, int>, localCounts: map<nat, NewTriedCount>)
      ensures code == 0 <==> EntriesChecked(View())
      ensures code == 0 ==> Tallied(env, mapInfo, setTried, mapNew, localCounts)
    {
      hide TableOf, EntryChecked, Tallied, PartChecked, EntriesChecked;
      code, setTried, mapNew, localCounts := 0, {}, map[], map[];
      var rest := mapInfo.Keys;
      ghost var part: map<int, AddrInfo> := map[];
      TallyNone(env);
      PartStart(View());
      while rest != {}
        invariant code == 0 && PartChecked(View(), part, rest) && Tallied(env, part, setTried, mapNew, localCounts)
        decreases |rest|
      {
        ghost var some := SomeElement(rest);
        var n: int :| n in rest;
        PartStep(View(), part, rest, n);
        code := CheckEntry(n);
        if code != 0 {
          return;
        }
        setTried, mapNew, localCounts := TallyEntry(part, setTried, mapNew, localCounts, n, mapInfo[n]);
        rest := rest - {n};
        part := part[n := mapInfo[n]];
      }
      PartEnd(View(), part);
    }

    lemma PartStart(b: Book)
      ensures PartChecked(b, map[], b.info.Keys)
    {
    }

    lemma TallyingIs(env: Env, local: map<nat, NewTriedCount>, i: AddrInfo)
      ensures var net := Network(env, i);
              var c := CountOf(local, net);
              Tallying(env, local, i) ==
                  local[net := if i.fInTried then NewTriedCount(c.nNew, c.nTried + 1)
                        else NewTriedCount(c.nNew + 1, c.nTried)]
    {
    }

    /** Checks that the tried table holds tried entries in their slots; left are the tried
        entries it does not hold. */
    method CheckTried(setTried: set<int>) returns (code: int, left: set<int>)
      requires Checkable() && setTried == Members(env, mapInfo, {}, true, ANY)
      ensures code == 0 <==> AllTriedChecked(env, View())
      ensures code == 0 ==>
                (left == {} <==> forall id | id in mapInfo && mapInfo[id].fInTried ::
                 HeldIn(View().tried, id, TRIED_BUCKET_COUNT, 0))
    {
      hide TableOf, Members, TriedLeft, HeldIn, Full, TriedSoFar;
      ghost var b := View();
      code, left := 0, setTried;
      StartTried(b, setTried);
      for n := 0 to TRIED_BUCKET_COUNT
        invariant code == 0 && TriedSoFar(env, b, n, 0) && TriedLeft(b, setTried, left, n, 0)
      {
        for i := 0 to BUCKET_SIZE
          invariant code == 0 && TriedSoFar(env, b, n, i) && TriedLeft(b, setTried, left, n, i)
        {
          code, left := CheckTriedSlot(setTried, left, n, i);
          if code != 0 {
            return;
          }
        }
        NextTriedRow(b, setTried, left, n);
      }
      EndTried(b);
      TriedEnd(env, b, setTried, left);
    }

    lemma StartTried(b: Book, setTried: set<int>)
      requires Full(b)
      ensures TriedSoFar(env, b, 0, 0) && TriedLeft(b, setTried, setTried, 0, 0)
    {
    }

    lemma NextTriedRow(b: Book, setTried: set<int>, left: set<int>, n: nat)
      requires Full(b) && (forall s | s in b.tried :: InTried(s))
      requires TriedSoFar(env, b, n, BUCKET_SIZE) && TriedLeft(b, setTried, left, n, BUCKET_SIZE)
      ensures TriedSoFar(env, b, n + 1, 0) && TriedLeft(b, setTried, left, n + 1, 0)
    {
      hide TriedChecked;
      forall s | InTried(s)
        ensures Before(s, n, BUCKET_SIZE) <==> Before(s, n + 1, 0)
      {
        BeforeNext(s, n, 0);
      }
      forall id
        ensures HeldIn(b.tried, id, n, BUCKET_SIZE) <==> HeldIn(b.tried, id, n + 1, 0)
      {
      }
    }

    lemma EndTried(b: Book)
      requires Full(b) && TriedSoFar(env, b, TRIED_BUCKET_COUNT, 0)
      ensures AllTriedChecked(env, b)
    {
      hide TriedChecked;
    }

    method CheckTriedSlot(ghost setTried: set<int>, left0: set<int>, n: nat, i: nat) returns (code: int, left: set<int>)
      requires Checkable() && setTried == Members(env, mapInfo, {}, true, ANY) && InTried(Slot(n, i))
      requires TriedSoFar(env, View(), n, i) && TriedLeft(View(), setTried, left0, n, i)
      ensures code == 0 ==> TriedSoFar(env, View(), n, i + 1) && TriedLeft(View(), setTried, left, n, i + 1)
      ensures code != 0 ==> !AllTriedChecked(env, View())
    {
      hide TableOf, Members, TriedLeft, HeldIn, Full, TriedSlot, TriedSoFar;
      ghost var b := View();
      var s := Slot(n, i);
      code, left := 0, left0;
      var id := GetSlot(vvTried, s);
      TriedStep(env, b, setTried, left, n, i);
      TriedSlotAt(b, s);
      if id != -1 {
        if id !in left {
          code := -11;
        } else if TriedBucket(env, nKey, mapInfo[id].addr) != n {
          code := -17;
        } else if BucketPosition(env, nKey, false, n, mapInfo[id].addr) != i {
          code := -18;
        } else {
          left := left - {id};
        }
      }
      if code == 0 {
        TriedOneMore(b, n, i);
      } else {
        NotAllTried(b, s);
      }
    }

    lemma TriedSlotAt(b: Book, s: Slot)
      requires Full(b) && InTried(s)
      ensures s in b.tried
      ensures TriedChecked(env, b, s) <==>
              b.tried[s] == -1
              || (b.tried[s] in b.info && b.info[b.tried[s]].fInTried
                  && TriedBucket(env, b.nKey, b.info[b.tried[s]].addr) == s.bucket
                  && BucketPosition(env, b.nKey, false, s.bucket, b.info[b.tried[s]].addr) == s.pos)
    {
      hide TriedBucket, BucketPosition;
    }

    lemma TriedOneMore(b: Book, n: nat, i: nat)
      requires Full(b) && InTried(Slot(n, i)) && TriedSoFar(env, b, n, i) && TriedChecked(env, b, Slot(n, i))
      ensures TriedSoFar(env, b, n, i + 1)
    {
      hide TriedChecked;
      forall s | InTried(s) && Before(s, n, i + 1)
        ensures TriedChecked(env, b, s)
      {
        BeforeNext(s, n, i);
      }
    }

    lemma NotAllTried(b: Book, s: Slot)
      requires Full(b) && InTried(s) && !TriedChecked(env, b, s)
      ensures !AllTriedChecked(env, b)
    {
    }

    /** Checks that the new table holds new entries at their positions, none more often than
        it counts; pending are the references it lacks. */
    method CheckNew(mapNew: map<int, int>) returns (code: int, pending: map<int, int>)
      requires Checkable() && mapNew == NewCounts(mapInfo) && EntriesChecked(View())
      ensures code == 0 ==> AllNewChecked(env, View()) && NewLeft(View(), pending, NEW_BUCKET_COUNT, 0)
      ensures code != 0 ==> !TablesChecked(env, View())
    {
      hide TableOf, NewLeft, Full, NewSoFar, TablesChecked, AllNewChecked, EntryChecked;
      ghost var b := View();
      code, pending := 0, mapNew;
      StartNew(b);
      for n := 0 to NEW_BUCKET_COUNT
        invariant code == 0 && NewSoFar(env, b, n, 0) && NewLeft(b, pending, n, 0)
      {
        for i := 0 to BUCKET_SIZE
          invariant code == 0 && NewSoFar(env, b, n, i) && NewLeft(b, pending, n, i)
        {
          code, pending := CheckNewSlot(pending, n, i);
          if code != 0 {
            return;
          }
        }
        NextNewRow(b, pending, n);
      }
      EndNew(b);
    }

    lemma StartNew(b: Book)
      requires Full(b) && EntriesChecked(b)
      ensures NewSoFar(env, b, 0, 0) && NewLeft(b, NewCounts(b.info), 0, 0)
    {
      hide NewLeft;
      assert forall id | id in b.info :: EntryChecked(b, id);
      NewStart(b);
    }

    lemma NextNewRow(b: Book, pending: map<int, int>, n: nat)
      requires Full(b) && (forall s | s in b.news :: InNew(s))
      requires NewSoFar(env, b, n, BUCKET_SIZE) && NewLeft(b, pending, n, BUCKET_SIZE)
      ensures NewSoFar(env, b, n + 1, 0) && NewLeft(b, pending, n + 1, 0)
    {
      hide NewChecked;
      forall s | InNew(s)
        ensures Before(s, n, BUCKET_SIZE) <==> Before(s, n + 1, 0)
      {
        BeforeNext(s, n, 0);
      }
      forall id
        ensures HeldBefore(b.news, id, n, BUCKET_SIZE) == HeldBefore(b.news, id, n + 1, 0)
      {
      }
    }

    lemma EndNew(b: Book)
      requires Full(b) && NewSoFar(env, b, NEW_BUCKET_COUNT, 0)
      ensures AllNewChecked(env, b)
    {
      hide NewChecked;
    }

    method CheckNewSlot(pending0: map<int, int>, n: nat, i: nat) returns (code: int, pending: map<int, int>)
      requires Checkable() && InNew(Slot(n, i)) && NewSoFar(env, View(), n, i) && NewLeft(View(), pending0, n, i)
      ensures code == 0 ==> NewSoFar(env, View(), n, i + 1) && NewLeft(View(), pending, n, i + 1)
      ensures code != 0 ==> !TablesChecked(env, View())
    {
      hide TableOf, NewLeft, Full, NewSoFar, TablesChecked, NewChecked, BucketPosition;
      ghost var b := View();
      var s := Slot(n, i);
      code, pending := 0, pending0;
      var id := GetSlot(vvNew, s);
      NewStep(env, b, pending, n, i);
      NewSlotAt(b, s);
      if id != -1 {
        if id !in pending {
          NewExcess(env, b, pending, n, i);
          code := -12;
        } else if BucketPosition(env, nKey, true, n, mapInfo[id].addr) != i {
          code := -19;
        } else {
          if pending[id] == 1 {
            pending := pending - {id};
          } else {
            pending := pending[id := pending[id] - 1];
          }
        }
      }
      if code == 0 {
        NewOneMore(b, n, i);
      }
    }

    lemma NewSlotAt(b: Book, s: Slot)
      requires Full(b) && InNew(s)
      ensures s in b.news
      ensures NewChecked(env, b, s) <==>
              b.news[s] == -1
              || (b.news[s] in b.info && !b.info[b.news[s]].fInTried
                  && BucketPosition(env, b.nKey, true, s.bucket, b.info[b.news[s]].addr) == s.pos)
      ensures !NewChecked(env, b, s) ==> !TablesChecked(env, b)
    {
      hide BucketPosition;
    }

    lemma NewOneMore(b: Book, n: nat, i: nat)
      requires Full(b) && InNew(Slot(n, i)) && NewSoFar(env, b, n, i) && NewChecked(env, b, Slot(n, i))
      ensures NewSoFar(env, b, n, i + 1)
    {
      hide NewChecked;
      forall s | InNew(s) && Before(s, n, i + 1)
        ensures NewChecked(env, b, s)
      {
        BeforeNext(s, n, i);
      }
    }

    /** Checks the counts per network against those tallied up. */
    method CheckCounts(localCounts: map<nat, NewTriedCount>) returns (code: int)
      requires localCounts.Keys == Networks(env, mapInfo)
      requires forall net: nat :: CountOf(localCounts, net)
                                  == NewTriedCount(|Members(env, mapInfo, {}, false, net)|,
                                                   |Members(env, mapInfo, {}, true, net)|)
      ensures code == 0 <==> CountsChecked(env, View())
    {
      hide TableOf, Members, Networks;
      assert |localCounts.Keys| == |localCounts|;
      if |networkCounts| < |localCounts| {
        return -20;
      }
      var rest := networkCounts.Keys;
      while rest != {}
        invariant rest <= networkCounts.Keys
        invariant forall net | net in networkCounts && net !in rest :: networkCounts[net] == CountOf(localCounts, net)
        decreases |rest|
      {
        var net: nat :| net in rest;
        var local := CountOf(localCounts, net);
        if local.nNew != networkCounts[net].nNew || local.nTried != networkCounts[net].nTried {
          return -21;
        }
        rest := rest - {net};
      }
      code := 0;
    }

    /** The full check: 0 exactly if all its conditions hold, which they do between any two
        operations. */
    method CheckAddrman() returns (code: int)
      requires Shape() && -1 !in mapInfo
      ensures code == 0 <==> Checked(env, View())
      ensures Valid() ==> code == 0
    {
      hide TableOf, Members, Networks, EntriesChecked, AllTriedChecked, AllNewChecked, CountsChecked, HeldIn,
           HeldBefore, NewLeft, Full, Ok, TablesChecked, NewCounts;
      ShapeChecks();
      TablesParts(View());
      if Valid() {
        OkChecked(env, View());
      }
      if |vRandom| != nTried + nNew {
        return -7;
      }
      var setTried, mapNew, localCounts;
      code, setTried, mapNew, localCounts := CheckEntries();
      if code != 0 {
        return;
      }
      if |setTried| != nTried {
        return -9;
      }
      if |mapNew| != nNew {
        return -10;
      }
      var left;
      code, left := CheckTried(setTried);
      if code != 0 {
        return;
      }
      var pending;
      code, pending := CheckNew(mapNew);
      if code != 0 {
        return;
      }
      NewEnd(View(), pending);
      if left != {} {
        return -13;
      }
      if pending != map[] {
        return -15;
      }
      if nKey == 0 {
        return -16;
      }
      code := CheckCounts(localCounts);
    }

    lemma TablesParts(b: Book)
      requires Full(b)
      ensures TablesChecked(env, b) <==>
              && AllTriedChecked(env, b) && AllNewChecked(env, b)
              && (forall id | id in b.info && b.info[id].fInTried :: HeldIn(b.tried, id, TRIED_BUCKET_COUNT, 0))
              && (forall id | id in b.info && !b.info[id].fInTried ::
                  |HeldBefore(b.news, id, NEW_BUCKET_COUNT, 0)| == b.info[id].nRefCount)
    {
      hide TriedChecked, NewChecked;
    }
  }

  lemma EmptyOk(env: Env, b: Book)
    requires b.nKey != 0 && b.nIdCount == 0 && b.info == map[] && b.addr == map[] && b.random == []
    requires b.nTried == 0 && b.nNew == 0 && b.counts == map[] && b.collisions == {}
    requires forall s :: s in b.news <==> InNew(s)
    requires forall s :: s in b.tried <==> InTried(s)
    requires forall s | s in b.news :: b.news[s] == -1
    requires forall s | s in b.tried :: b.tried[s] == -1
    ensures Ok(env, b)
  {
    forall t, net
      ensures Members(env, b.info, {}, t, net) == {}
    {
    }
  }
}
