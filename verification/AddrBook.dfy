/** The contents of the address manager and the invariant it checks of itself
    (src/addrman_impl.h, src/addrman.cpp). */
module AddrBooks {

  const TRIED_BUCKET_COUNT := 256
  const NEW_BUCKET_COUNT := 1024
  const BUCKET_SIZE := 64
  const TRIED_BUCKETS_PER_GROUP := 8
  const NEW_BUCKETS_PER_SOURCE_GROUP := 64
  const NEW_BUCKETS_PER_ADDRESS := 8

  /** A network address (named by a number) and a port. */
  datatype Service = Service(ip: nat, port: nat)

  /** What the address manager takes from elsewhere: a hash, and what addresses are like. */
  datatype Env = Env(
    hash: seq<nat> -> nat,
    group: nat -> nat,
    addrKey: Service -> nat,
    network: nat -> nat,
    netClass: nat -> nat,
    isRoutable: nat -> bool,
    isValid: nat -> bool)

  datatype AddrInfo = AddrInfo(
    addr: Service,
    nTime: int,
    nServices: set<nat>,
    source: nat,
    lastTry: int,
    lastCountAttempt: int,
    lastSuccess: int,
    nAttempts: int,
    nRefCount: int,
    fInTried: bool,
    nRandomPos: int)

  datatype Slot = Slot(bucket: nat, pos: nat)

  datatype NewTriedCount = NewTriedCount(nNew: int, nTried: int)

  function TriedBucket(env: Env, nKey: nat, a: Service): (r: nat)
    ensures r < TRIED_BUCKET_COUNT
  {
    var hash1 := env.hash([nKey, env.addrKey(a)]);
    var hash2 := env.hash([nKey, env.group(a.ip), hash1 % TRIED_BUCKETS_PER_GROUP]);
    hash2 % TRIED_BUCKET_COUNT
  }

  function NewBucket(env: Env, nKey: nat, a: Service, src: nat): (r: nat)
    ensures r < NEW_BUCKET_COUNT
  {
    var hash1 := env.hash([nKey, env.group(a.ip), env.group(src)]);
    var hash2 := env.hash([nKey, env.group(src), hash1 % NEW_BUCKETS_PER_SOURCE_GROUP]);
    hash2 % NEW_BUCKET_COUNT
  }

  /** So many buckets at most serve a group. */
  ghost function BucketsOf(env: Env, nKey: nat, group: nat, n: nat, count: nat): (r: set<nat>)
    requires count > 0
    ensures |r| <= n
  {
    if n == 0 then {} else BucketsOf(env, nKey, group, n - 1, count) + {env.hash([nKey, group, n - 1]) % count}
  }

  lemma {:induction false} AmongBuckets(env: Env, nKey: nat, group: nat, n: nat, count: nat, j: nat)
    requires count > 0 && j < n
    ensures env.hash([nKey, group, j]) % count in BucketsOf(env, nKey, group, n, count)
  {
    if j < n - 1 {
      AmongBuckets(env, nKey, group, n - 1, count, j);
    }
  }

  /** All addresses of a group share 8 of the 256 tried buckets. */
  lemma TriedGroupLimit(env: Env, nKey: nat, group: nat)
    ensures exists buckets: set<nat> ::
              |buckets| <= 8 && (forall x | x in buckets :: x < 256)
              && forall a: Service | env.group(a.ip) == group :: TriedBucket(env, nKey, a) in buckets
  {
    var buckets := BucketsOf(env, nKey, group, 8, 256);
    forall a: Service | env.group(a.ip) == group
      ensures TriedBucket(env, nKey, a) in buckets
    {
      AmongBuckets(env, nKey, group, 8, 256, env.hash([nKey, env.addrKey(a)]) % 8);
    }
    BucketsBelow(env, nKey, group, 8, 256);
  }

  /** Whatever addresses the sources of a group offer share 64 of the 1024 new buckets, and
      addresses of one group from sources of one group share a single one. */
  lemma NewGroupLimit(env: Env, nKey: nat, group: nat)
    ensures exists buckets: set<nat> ::
              |buckets| <= 64 && (forall x | x in buckets :: x < 1024)
              && forall a: Service, src | env.group(src) == group :: NewBucket(env, nKey, a, src) in buckets
    ensures forall a: Service, b: Service, src, src2 |
              env.group(a.ip) == env.group(b.ip) && env.group(src) == env.group(src2) ::
              NewBucket(env, nKey, a, src) == NewBucket(env, nKey, b, src2)
  {
    var buckets := BucketsOf(env, nKey, group, 64, 1024);
    forall a: Service, src | env.group(src) == group
      ensures NewBucket(env, nKey, a, src) in buckets
    {
      AmongBuckets(env, nKey, group, 64, 1024, env.hash([nKey, env.group(a.ip), env.group(src)]) % 64);
    }
    BucketsBelow(env, nKey, group, 64, 1024);
  }

  lemma {:induction false} BucketsBelow(env: Env, nKey: nat, group: nat, n: nat, count: nat)
    requires count > 0
    ensures forall x | x in BucketsOf(env, nKey, group, n, count) :: x < count
  {
    if n > 0 {
      BucketsBelow(env, nKey, group, n - 1, count);
    }
  }

  /** The only position of a bucket at which an address may be. */
  function BucketPosition(env: Env, nKey: nat, fNew: bool, bucket: nat, a: Service): (r: nat)
    ensures r < BUCKET_SIZE
  {
    env.hash([nKey, if fNew then 78 else 75, bucket, env.addrKey(a)]) % BUCKET_SIZE
  }

  function TriedSlot(env: Env, nKey: nat, a: Service): Slot {
    var bucket := TriedBucket(env, nKey, a);
    Slot(bucket, BucketPosition(env, nKey, false, bucket, a))
  }

  function NewSlot(env: Env, nKey: nat, a: Service, src: nat): Slot {
    var bucket := NewBucket(env, nKey, a, src);
    Slot(bucket, BucketPosition(env, nKey, true, bucket, a))
  }

  ghost predicate InTried(s: Slot) {
    s.bucket < TRIED_BUCKET_COUNT && s.pos < BUCKET_SIZE
  }

  ghost predicate InNew(s: Slot) {
    s.bucket < NEW_BUCKET_COUNT && s.pos < BUCKET_SIZE
  }

  /** Everything the address manager holds. Slots without an entry are at -1. */
  datatype Book = Book(
    nKey: nat,
    nIdCount: int,
    info: map<int, AddrInfo>,
    addr: map<Service, int>,
    random: seq<int>,
    nTried: int,
    nNew: int,
    tried: map<Slot, int>,
    news: map<Slot, int>,
    counts: map<nat, NewTriedCount>,
    collisions: set<int>)

  // ----- counting -----

  const ANY := -1

  /** The counted entries of one kind, in one network or in any. */
  ghost predicate Counts(env: Env, info: map<int, AddrInfo>, limbo: set<int>, id: int, inTried: bool, net: int) {
    && id in info && id !in limbo && info[id].fInTried == inTried
    && (net == ANY || env.network(info[id].addr.ip) == net)
  }

  ghost function Members(env: Env, info: map<int, AddrInfo>, limbo: set<int>, inTried: bool, net: int): set<int> {
    set id | id in info && Counts(env, info, limbo, id, inTried, net)
  }

  ghost function One(b: bool): int {
    if b then 1 else 0
  }

  ghost predicate SameBut<T(!new), U>(a: map<T, U>, b: map<T, U>, k: T) {
    forall x | x != k :: (x in a <==> x in b) && (x in a ==> a[x] == b[x])
  }

  lemma CardShift<T>(a: set<T>, b: set<T>, x: T)
    requires a - {x} == b - {x}
    ensures |b| - One(x in b) == |a| - One(x in a)
  {
    assert x in a ==> |a - {x}| == |a| - 1;
    assert x in b ==> |b - {x}| == |b| - 1;
    assert x !in a ==> a - {x} == a;
    assert x !in b ==> b - {x} == b;
  }

  /** Changing one entry changes each count by what that entry contributes. */
  lemma MembersShift(env: Env, a: map<int, AddrInfo>, la: set<int>, b: map<int, AddrInfo>, lb: set<int>, id: int,
                     inTried: bool, net: int)
    requires SameBut(a, b, id) && la - {id} == lb - {id}
    ensures |Members(env, b, lb, inTried, net)| - One(Counts(env, b, lb, id, inTried, net))
         == |Members(env, a, la, inTried, net)| - One(Counts(env, a, la, id, inTried, net))
  {
    var ma, mb := Members(env, a, la, inTried, net), Members(env, b, lb, inTried, net);
    forall x | x != id
      ensures x in ma <==> x in mb
    {
      assert x in la - {id} <==> x in lb - {id};
    }
    CardShift(ma, mb, id);
  }

  /** The slots that hold an entry. */
  ghost function Holders(table: map<Slot, int>, id: int): set<Slot> {
    set s | s in table && table[s] == id
  }

  lemma HoldersShift(table: map<Slot, int>, s: Slot, x: int, id: int)
    requires s in table
    ensures |Holders(table[s := x], id)| == |Holders(table, id)| - One(table[s] == id) + One(x == id)
  {
    var a, b := Holders(table, id), Holders(table[s := x], id);
    assert a - {s} == b - {s} by {
      assert forall y | y != s :: y in a <==> y in b;
    }
    CardShift(a, b, s);
  }

  // ----- the invariant, in parts -----

  ghost predicate IdsOk(b: Book) {
    && 0 <= b.nIdCount
    && (forall id | id in b.info :: 0 <= id < b.nIdCount)
    && (forall id | id in b.collisions :: 0 <= id < b.nIdCount)
  }

  /** The address map leads to exactly the entries of those addresses. */
  ghost predicate AddrsOk(b: Book) {
    && (forall id | id in b.info :: b.info[id].addr in b.addr && b.addr[b.info[id].addr] == id)
    && (forall a | a in b.addr :: LeadsTo(b, a))
  }

  ghost predicate LeadsTo(b: Book, a: Service)
    requires a in b.addr
  {
    b.addr[a] in b.info && b.info[b.addr[a]].addr == a
  }

  /** vRandom lists every entry, which knows its position there. */
  ghost predicate RandomOk(b: Book) {
    && (forall id | id in b.info :: 0 <= b.info[id].nRandomPos < |b.random| && b.random[b.info[id].nRandomPos] == id)
    && (forall k | 0 <= k < |b.random| :: b.random[k] in b.info && b.info[b.random[k]].nRandomPos == k)
  }

  function CountOf(counts: map<nat, NewTriedCount>, net: nat): NewTriedCount {
    if net in counts then counts[net] else NewTriedCount(0, 0)
  }

  /** The counters are right, in total and per network, leaving out the entries in limbo. */
  ghost predicate TalliesOk(env: Env, b: Book, limbo: set<int>) {
    && b.nNew == |Members(env, b.info, limbo, false, ANY)|
    && b.nTried == |Members(env, b.info, limbo, true, ANY)|
    && (forall net: nat :: CountOf(b.counts, net).nNew == |Members(env, b.info, limbo, false, net)|)
    && (forall net: nat :: CountOf(b.counts, net).nTried == |Members(env, b.info, limbo, true, net)|)
  }

  /** The tried table holds exactly the tried entries, each in its slot. */
  ghost predicate TriedOk(env: Env, b: Book) {
    && (forall s | InTried(s) :: s in b.tried)
    && (forall s | s in b.tried && b.tried[s] != -1 ::
          && InTried(s) && b.tried[s] in b.info && b.info[b.tried[s]].fInTried
          && TriedSlot(env, b.nKey, b.info[b.tried[s]].addr) == s)
    && (forall id | id in b.info && b.info[id].fInTried :: b.tried[TriedSlot(env, b.nKey, b.info[id].addr)] == id)
  }

  /** The new table holds only entries that are not tried, at positions that are theirs. */
  ghost predicate NewOk(env: Env, b: Book) {
    && (forall s | InNew(s) :: s in b.news)
    && (forall s | s in b.news && b.news[s] != -1 ::
          && InNew(s) && b.news[s] in b.info && !b.info[b.news[s]].fInTried
          && BucketPosition(env, b.nKey, true, s.bucket, b.info[b.news[s]].addr) == s.pos)
  }

  /** Reference counts number the slots that hold an entry. */
  ghost predicate RefsOk(b: Book) {
    forall id | id in b.info :: b.info[id].nRefCount == |Holders(b.news, id)|
  }

  /** Entries not tried have 1 to 8 references, except that those in zero may have none;
      those in limbo have none. */
  ghost predicate RangesOk(b: Book, zero: set<int>, limbo: set<int>) {
    && (forall id | id in b.info :: b.info[id].nRefCount <= NEW_BUCKETS_PER_ADDRESS)
    && (forall id | id in b.info && !b.info[id].fInTried && b.info[id].nRefCount < 1 :: id in zero + limbo)
    && (forall id | id in limbo :: id in b.info && b.info[id].nRefCount == 0 && !b.info[id].fInTried)
  }

  ghost predicate TimesOk(b: Book) {
    forall id | id in b.info ::
      && b.info[id].lastTry >= 0 && b.info[id].lastSuccess >= 0
      && (b.info[id].fInTried ==> b.info[id].lastSuccess != 0)
  }

  /** Only routable addresses are kept. */
  ghost predicate RoutesOk(env: Env, b: Book) {
    forall id | id in b.info :: env.isRoutable(b.info[id].addr.ip)
  }

  /** A collision still known has an occupied tried slot to wait for, or waits for one of
      the slots excepted. */
  ghost predicate CollisionsBut(env: Env, b: Book, slots: set<Slot>) {
    forall id | id in b.collisions && id in b.info ::
      var s := TriedSlot(env, b.nKey, b.info[id].addr);
      s in slots || (s in b.tried && b.tried[s] != -1)
  }

  ghost predicate CollisionsOk(env: Env, b: Book) {
    CollisionsBut(env, b, {})
  }

  /** What holds midway through an operation. */
  ghost predicate Mid(env: Env, b: Book, zero: set<int>, limbo: set<int>) {
    && IdsOk(b) && AddrsOk(b) && RandomOk(b) && TalliesOk(env, b, limbo)
    && TriedOk(env, b) && NewOk(env, b) && RefsOk(b) && RangesOk(b, zero, limbo) && TimesOk(b) && RoutesOk(env, b)
  }

  /** What holds between operations. */
  ghost predicate Ok(env: Env, b: Book) {
    Mid(env, b, {}, {}) && CollisionsOk(env, b) && b.nKey != 0
  }

  // ----- steps on one entry -----

  ghost function Put(b: Book, id: int, i: AddrInfo): Book {
    b.(info := b.info[id := i])
  }

  /** Two records of one address that differ in statistics only. */
  ghost predicate SamePlace(i: AddrInfo, j: AddrInfo) {
    && i.addr == j.addr && i.nRefCount == j.nRefCount && i.fInTried == j.fInTried && i.nRandomPos == j.nRandomPos
  }

  lemma PutIndexes(env: Env, b: Book, id: int, i: AddrInfo)
    requires id in b.info && i.addr == b.info[id].addr && i.nRandomPos == b.info[id].nRandomPos
    ensures IdsOk(b) ==> IdsOk(Put(b, id, i))
    ensures AddrsOk(b) ==> AddrsOk(Put(b, id, i))
    ensures RandomOk(b) ==> RandomOk(Put(b, id, i))
    ensures CollisionsOk(env, b) ==> CollisionsOk(env, Put(b, id, i))
  {
    hide AddrsOk, CollisionsBut;
    PutAddrs(b, id, i);
    if CollisionsBut(env, b, {}) {
      PutCollisions(env, b, id, i, {});
    }
  }

  lemma PutAddrs(b: Book, id: int, i: AddrInfo)
    requires id in b.info && i.addr == b.info[id].addr
    ensures AddrsOk(b) ==> AddrsOk(Put(b, id, i))
  {
    assert AddrsOk(b) ==> forall a | a in b.addr :: LeadsTo(b, a) && LeadsTo(Put(b, id, i), a);
  }

  lemma SameTallies(env: Env, b: Book, limbo: set<int>, id: int, i: AddrInfo)
    requires id in b.info && i.addr == b.info[id].addr && i.fInTried == b.info[id].fInTried
    ensures TalliesOk(env, b, limbo) ==> TalliesOk(env, Put(b, id, i), limbo)
  {
    hide Members, Counts;
    forall t, net
      ensures |Members(env, Put(b, id, i).info, limbo, t, net)| == |Members(env, b.info, limbo, t, net)|
    {
      MembersShift(env, b.info, limbo, Put(b, id, i).info, limbo, id, t, net);
      SameCounts(env, b.info, limbo, id, i, t, net);
    }
  }

  lemma SameCounts(env: Env, info: map<int, AddrInfo>, limbo: set<int>, id: int, i: AddrInfo, t: bool, net: int)
    requires id in info && i.addr == info[id].addr && i.fInTried == info[id].fInTried
    ensures Counts(env, info[id := i], limbo, id, t, net) == Counts(env, info, limbo, id, t, net)
  {
  }

  /** Updating statistics keeps everything, as long as times stay sound. */
  lemma PutKeeps(env: Env, b: Book, zero: set<int>, limbo: set<int>, id: int, i: AddrInfo)
    requires Mid(env, b, zero, limbo) && id in b.info && SamePlace(i, b.info[id])
    requires i.lastTry >= 0 && i.lastSuccess >= 0 && (i.fInTried ==> i.lastSuccess != 0)
    ensures Mid(env, Put(b, id, i), zero, limbo)
    ensures CollisionsOk(env, b) ==> CollisionsOk(env, Put(b, id, i))
  {
    hide IdsOk, AddrsOk, RandomOk, TalliesOk, CollisionsOk, TriedSlot, BucketPosition, Holders;
    PutIndexes(env, b, id, i);
    SameTallies(env, b, limbo, id, i);
  }

  // ----- creating -----

  ghost function Bump(counts: map<nat, NewTriedCount>, net: nat, dNew: int, dTried: int): map<nat, NewTriedCount> {
    var c := CountOf(counts, net);
    counts[net := NewTriedCount(c.nNew + dNew, c.nTried + dTried)]
  }

  ghost function Created(env: Env, b: Book, i: AddrInfo): Book {
    b.(nIdCount := b.nIdCount + 1,
       info := b.info[b.nIdCount := i.(nRandomPos := |b.random|)],
       addr := b.addr[i.addr := b.nIdCount],
       random := b.random + [b.nIdCount],
       nNew := b.nNew + 1,
       counts := Bump(b.counts, env.network(i.addr.ip), 1, 0))
  }

  lemma TallyStep(env: Env, b: Book, la: set<int>, c: Book, lc: set<int>, id: int, net: nat, dNew: int, dTried: int)
    requires TalliesOk(env, b, la) && SameBut(b.info, c.info, id) && la - {id} == lc - {id}
    requires forall x: nat :: CountOf(c.counts, x) ==
                              if x == net then NewTriedCount(CountOf(b.counts, x).nNew + dNew,
                                                             CountOf(b.counts, x).nTried + dTried)
                              else CountOf(b.counts, x)
    requires c.nNew == b.nNew + dNew && c.nTried == b.nTried + dTried
    requires id in b.info && id !in la ==> env.network(b.info[id].addr.ip) == net
    requires id in c.info && id !in lc ==> env.network(c.info[id].addr.ip) == net
    requires dNew == One(Counts(env, c.info, lc, id, false, ANY)) - One(Counts(env, b.info, la, id, false, ANY))
    requires dTried == One(Counts(env, c.info, lc, id, true, ANY)) - One(Counts(env, b.info, la, id, true, ANY))
    ensures TalliesOk(env, c, lc)
  {
    hide Members;
    MembersShift(env, b.info, la, c.info, lc, id, false, ANY);
    MembersShift(env, b.info, la, c.info, lc, id, true, ANY);
    forall x: nat
      ensures CountOf(c.counts, x).nNew == |Members(env, c.info, lc, false, x)|
      ensures CountOf(c.counts, x).nTried == |Members(env, c.info, lc, true, x)|
    {
      MembersShift(env, b.info, la, c.info, lc, id, false, x);
      MembersShift(env, b.info, la, c.info, lc, id, true, x);
    }
  }

  lemma CreatedTallies(env: Env, b: Book, i: AddrInfo)
    requires IdsOk(b) && TalliesOk(env, b, {}) && !i.fInTried
    ensures TalliesOk(env, Created(env, b, i), {})
  {
    hide Members, TalliesOk;
    TallyStep(env, b, {}, Created(env, b, i), {}, b.nIdCount, env.network(i.addr.ip), 1, 0);
  }

  lemma NoHolders(env: Env, b: Book, id: int)
    requires NewOk(env, b) && id !in b.info && id != -1
    ensures Holders(b.news, id) == {}
  {
  }

  lemma LeadsCreated(env: Env, b: Book, i: AddrInfo)
    requires IdsOk(b) && AddrsOk(b) && i.addr !in b.addr
    ensures forall a | a in Created(env, b, i).addr :: LeadsTo(Created(env, b, i), a)
  {
    hide Bump;
    forall a | a in Created(env, b, i).addr
      ensures LeadsTo(Created(env, b, i), a)
    {
      assert a != i.addr ==> LeadsTo(b, a);
    }
  }

  lemma CreateIndexes(env: Env, b: Book, i: AddrInfo)
    requires IdsOk(b) && AddrsOk(b) && RandomOk(b) && TimesOk(b) && i.addr !in b.addr
    requires !i.fInTried && i.lastTry >= 0 && i.lastSuccess >= 0
    ensures var c := Created(env, b, i); IdsOk(c) && AddrsOk(c) && RandomOk(c) && TimesOk(c)
    ensures RoutesOk(env, b) && env.isRoutable(i.addr.ip) ==> RoutesOk(env, Created(env, b, i))
    ensures CollisionsOk(env, b) ==> CollisionsOk(env, Created(env, b, i))
  {
    hide TriedSlot, Bump, LeadsTo;
    LeadsCreated(env, b, i);
  }

  lemma CreateTables(env: Env, b: Book, i: AddrInfo, zero: set<int>)
    requires IdsOk(b) && TriedOk(env, b) && NewOk(env, b) && RefsOk(b) && RangesOk(b, zero, {})
    requires i.nRefCount == 0 && !i.fInTried
    ensures var c := Created(env, b, i);
            TriedOk(env, c) && NewOk(env, c) && RefsOk(c) && RangesOk(c, zero + {b.nIdCount}, {})
  {
    hide TriedSlot, BucketPosition, Holders, Bump;
    NoHolders(env, b, b.nIdCount);
  }

  /** A new entry has no reference yet. */
  lemma CreateKeeps(env: Env, b: Book, i: AddrInfo, zero: set<int>)
    requires Mid(env, b, zero, {}) && i.addr !in b.addr && env.isRoutable(i.addr.ip)
    requires i.nRefCount == 0 && !i.fInTried && i.lastTry >= 0 && i.lastSuccess >= 0
    ensures Mid(env, Created(env, b, i), zero + {b.nIdCount}, {})
    ensures CollisionsOk(env, b) ==> CollisionsOk(env, Created(env, b, i))
  {
    hide IdsOk, AddrsOk, RandomOk, TalliesOk, TriedOk, NewOk, RefsOk, RangesOk, TimesOk, RoutesOk, CollisionsOk,
         Created;
    CreateIndexes(env, b, i);
    CreateTables(env, b, i, zero);
    CreatedTallies(env, b, i);
  }

  // ----- shuffling -----

  ghost predicate SameButPos(a: map<int, AddrInfo>, b: map<int, AddrInfo>) {
    a.Keys == b.Keys && forall id | id in a :: b[id] == a[id].(nRandomPos := b[id].nRandomPos)
  }

  lemma SameMembers(env: Env, a: map<int, AddrInfo>, b: map<int, AddrInfo>, limbo: set<int>, t: bool, net: int)
    requires SameButPos(a, b)
    ensures Members(env, a, limbo, t, net) == Members(env, b, limbo, t, net)
  {
    forall id
      ensures id in Members(env, a, limbo, t, net) <==> id in Members(env, b, limbo, t, net)
    {
      assert id in a <==> id in b;
    }
  }

  lemma PosTallies(env: Env, b: Book, c: Book, limbo: set<int>)
    requires c == b.(info := c.info, random := c.random) && SameButPos(b.info, c.info)
    requires TalliesOk(env, b, limbo)
    ensures TalliesOk(env, c, limbo)
  {
    hide Members, SameButPos;
    forall t, net
      ensures |Members(env, c.info, limbo, t, net)| == |Members(env, b.info, limbo, t, net)|
    {
      SameMembers(env, b.info, c.info, limbo, t, net);
    }
  }

  lemma PosTables(env: Env, b: Book, c: Book, zero: set<int>, limbo: set<int>)
    requires c == b.(info := c.info, random := c.random) && SameButPos(b.info, c.info)
    ensures TriedOk(env, b) ==> TriedOk(env, c)
    ensures NewOk(env, b) ==> NewOk(env, c)
    ensures RefsOk(b) ==> RefsOk(c)
  {
    hide TriedSlot, BucketPosition, Holders;
    assert forall id :: id in b.info <==> id in c.info;
  }

  lemma PosRest(env: Env, b: Book, c: Book, zero: set<int>, limbo: set<int>, slots: set<Slot>)
    requires c == b.(info := c.info, random := c.random) && SameButPos(b.info, c.info)
    ensures IdsOk(b) ==> IdsOk(c)
    ensures AddrsOk(b) ==> AddrsOk(c)
    ensures RangesOk(b, zero, limbo) ==> RangesOk(c, zero, limbo)
    ensures TimesOk(b) ==> TimesOk(c)
    ensures RoutesOk(env, b) ==> RoutesOk(env, c)
    ensures CollisionsBut(env, b, slots) ==> CollisionsBut(env, c, slots)
  {
    hide TriedSlot;
    assert forall id :: id in b.info <==> id in c.info;
    if AddrsOk(b) {
      forall a | a in c.addr
        ensures LeadsTo(c, a)
      {
        assert LeadsTo(b, a);
        var id := b.addr[a];
        assert c.addr == b.addr && id in b.info && id in c.info;
        assert c.info[id] == b.info[id].(nRandomPos := c.info[id].nRandomPos);
      }
    }
  }

  /** Reordering vRandom with its back-pointers keeps everything. */
  lemma PosKeeps(env: Env, b: Book, c: Book, zero: set<int>, limbo: set<int>)
    requires c == b.(info := c.info, random := c.random) && SameButPos(b.info, c.info)
    requires Mid(env, b, zero, limbo) && RandomOk(c)
    ensures Mid(env, c, zero, limbo)
  {
    hide IdsOk, AddrsOk, RandomOk, TalliesOk, TriedOk, NewOk, RefsOk, RangesOk, TimesOk, SameButPos;
    PosTallies(env, b, c, limbo);
    PosTables(env, b, c, zero, limbo);
    PosRest(env, b, c, zero, limbo, {});
  }

  ghost function Swapped(b: Book, i: nat, j: nat): Book
    requires i < |b.random| && j < |b.random| && b.random[i] in b.info && b.random[j] in b.info
  {
    var x, y := b.random[i], b.random[j];
    if i == j then b
    else
      var info1 := b.info[x := b.info[x].(nRandomPos := j)];
      b.(info := info1[y := info1[y].(nRandomPos := i)], random := b.random[i := y][j := x])
  }

  lemma SwapRandomOk(b: Book, i: nat, j: nat)
    requires RandomOk(b) && i < |b.random| && j < |b.random|
    ensures b.random[i] in b.info && b.random[j] in b.info
    ensures RandomOk(Swapped(b, i, j)) && SameButPos(b.info, Swapped(b, i, j).info)
  {
    var c, x, y := Swapped(b, i, j), b.random[i], b.random[j];
    assert b.info[x].nRandomPos == i && b.info[y].nRandomPos == j;
    SwapSame(b, i, j);
    forall k | 0 <= k < |c.random|
      ensures c.random[k] in c.info && c.info[c.random[k]].nRandomPos == k
    {
      assert b.info[b.random[k]].nRandomPos == k;
    }
    forall id | id in c.info
      ensures 0 <= c.info[id].nRandomPos < |c.random| && c.random[c.info[id].nRandomPos] == id
    {
      assert b.random[b.info[id].nRandomPos] == id;
    }
  }

  lemma SwapSame(b: Book, i: nat, j: nat)
    requires i < |b.random| && j < |b.random| && b.random[i] in b.info && b.random[j] in b.info
    ensures SameButPos(b.info, Swapped(b, i, j).info)
  {
    var x, y := b.random[i], b.random[j];
    MovedPos(b.info, x, j);
    MovedPos(b.info[x := b.info[x].(nRandomPos := j)], y, i);
  }

  lemma MovedPos(m: map<int, AddrInfo>, id: int, pos: int)
    requires id in m
    ensures m[id := m[id].(nRandomPos := pos)].Keys == m.Keys
    ensures SameButPos(m, m[id := m[id].(nRandomPos := pos)])
  {
  }

  // ----- deleting -----

  /** Entry id, last in vRandom, taken out everywhere. */
  ghost function Dropped(env: Env, b: Book, id: int): Book
    requires id in b.info && |b.random| > 0
  {
    b.(counts := Bump(b.counts, env.network(b.info[id].addr.ip), -1, 0),
       random := b.random[..|b.random| - 1],
       addr := b.addr - {b.info[id].addr},
       info := b.info - {id},
       nNew := b.nNew - 1)
  }

  lemma DropIndexes(env: Env, b: Book, id: int, slots: set<Slot>)
    requires id in b.info && |b.random| > 0 && b.info[id].nRandomPos == |b.random| - 1
    requires IdsOk(b) && AddrsOk(b) && RandomOk(b) && TimesOk(b)
    ensures var c := Dropped(env, b, id); IdsOk(c) && AddrsOk(c) && RandomOk(c) && TimesOk(c)
    ensures CollisionsBut(env, b, slots) ==> CollisionsBut(env, Dropped(env, b, id), slots)
  {
    hide TriedSlot, Bump;
    var c := Dropped(env, b, id);
    forall k | 0 <= k < |c.random|
      ensures c.random[k] in c.info && c.info[c.random[k]].nRandomPos == k
    {
      assert c.random[k] == b.random[k];
    }
    assert forall a | a in c.addr :: LeadsTo(b, a) && LeadsTo(c, a);
  }

  lemma DropTables(env: Env, b: Book, id: int, zero: set<int>, limbo: set<int>)
    requires id in b.info && |b.random| > 0 && !b.info[id].fInTried && b.info[id].nRefCount == 0 && id !in limbo
    requires TriedOk(env, b) && NewOk(env, b) && RefsOk(b) && RangesOk(b, zero, limbo)
    ensures var c := Dropped(env, b, id);
            TriedOk(env, c) && NewOk(env, c) && RefsOk(c) && RangesOk(c, zero - {id}, limbo)
  {
    hide TriedSlot, BucketPosition, Bump;
    assert forall s | s in b.news && b.news[s] == id :: s in Holders(b.news, id);
  }

  lemma DropTallies(env: Env, b: Book, id: int, limbo: set<int>)
    requires id in b.info && |b.random| > 0 && !b.info[id].fInTried && id !in limbo && TalliesOk(env, b, limbo)
    ensures TalliesOk(env, Dropped(env, b, id), limbo)
  {
    hide TalliesOk, Members;
    TallyStep(env, b, limbo, Dropped(env, b, id), limbo, id, env.network(b.info[id].addr.ip), -1, 0);
  }

  /** An entry without references can be deleted. */
  lemma DropKeeps(env: Env, b: Book, id: int, zero: set<int>, limbo: set<int>, slots: set<Slot>)
    requires Mid(env, b, zero, limbo) && id in b.info && id !in limbo
    requires !b.info[id].fInTried && b.info[id].nRefCount == 0
    requires |b.random| > 0 && b.info[id].nRandomPos == |b.random| - 1
    ensures Mid(env, Dropped(env, b, id), zero - {id}, limbo)
    ensures CollisionsBut(env, b, slots) ==> CollisionsBut(env, Dropped(env, b, id), slots)
  {
    hide IdsOk, AddrsOk, RandomOk, TalliesOk, TriedOk, NewOk, RefsOk, RangesOk, TimesOk, CollisionsBut;
    DropIndexes(env, b, id, slots);
    DropTables(env, b, id, zero, limbo);
    DropTallies(env, b, id, limbo);
  }

  // ----- references -----

  /** Slot s of the new table, which holds an entry, emptied. */
  ghost function Unref(b: Book, s: Slot): Book
    requires s in b.news && b.news[s] in b.info
  {
    var id := b.news[s];
    b.(info := b.info[id := b.info[id].(nRefCount := b.info[id].nRefCount - 1)], news := b.news[s := -1])
  }

  ghost predicate Tables(env: Env, b: Book) {
    TriedOk(env, b) && NewOk(env, b) && RefsOk(b)
  }

  lemma UnrefTables(env: Env, b: Book, s: Slot)
    requires IdsOk(b) && Tables(env, b) && s in b.news && b.news[s] != -1
    ensures b.news[s] in b.info && b.info[b.news[s]].nRefCount > 0
    ensures Tables(env, Unref(b, s))
  {
    hide TriedSlot, BucketPosition, Holders;
    var id := b.news[s];
    HasHolder(b.news, s);
    forall x | x in b.info
      ensures Unref(b, s).info[x].nRefCount == |Holders(Unref(b, s).news, x)|
    {
      HoldersShift(b.news, s, -1, x);
    }
  }

  lemma HasHolder(table: map<Slot, int>, s: Slot)
    requires s in table
    ensures |Holders(table, table[s])| > 0
  {
    assert s in Holders(table, table[s]);
  }

  lemma UnrefRanges(b: Book, s: Slot, zero: set<int>, limbo: set<int>)
    requires IdsOk(b) && RangesOk(b, zero, limbo) && TimesOk(b)
    requires s in b.news && b.news[s] in b.info && b.info[b.news[s]].nRefCount > 0
    ensures b.news[s] !in limbo
    ensures var c := Unref(b, s); IdsOk(c) && RangesOk(c, zero + {b.news[s]}, limbo) && TimesOk(c)
    ensures Unref(b, s).info[b.news[s]].nRefCount > 0 ==> RangesOk(Unref(b, s), zero, limbo)
  {
  }

  lemma UnrefKeeps(env: Env, b: Book, s: Slot, zero: set<int>, limbo: set<int>, slots: set<Slot>)
    requires Mid(env, b, zero, limbo) && s in b.news && b.news[s] != -1
    ensures b.news[s] in b.info && b.info[b.news[s]].nRefCount > 0 && b.news[s] !in limbo
    ensures Mid(env, Unref(b, s), zero + {b.news[s]}, limbo)
    ensures Unref(b, s).info[b.news[s]].nRefCount > 0 ==> Mid(env, Unref(b, s), zero, limbo)
    ensures CollisionsBut(env, b, slots) ==> CollisionsBut(env, Unref(b, s), slots)
  {
    hide AddrsOk, RandomOk, TalliesOk, TriedOk, NewOk, RefsOk, Holders, IdsOk, RangesOk, TimesOk;
    UnrefTables(env, b, s);
    UnrefRanges(b, s, zero, limbo);
    var id := b.news[s];
    var i := b.info[id].(nRefCount := b.info[id].nRefCount - 1);
    PutIndexes(env, b, id, i);
    SameTallies(env, b, limbo, id, i);
    SameFields(env, Put(b, id, i), Unref(b, s), limbo, slots);
    if CollisionsBut(env, b, slots) {
      PutCollisions(env, b, id, i, slots);
    }
  }

  lemma PutCollisions(env: Env, b: Book, id: int, i: AddrInfo, slots: set<Slot>)
    requires id in b.info && i.addr == b.info[id].addr && CollisionsBut(env, b, slots)
    ensures CollisionsBut(env, Put(b, id, i), slots)
  {
    hide TriedSlot;
  }

  /** Only the new table differs. */
  lemma SameFields(env: Env, b: Book, c: Book, limbo: set<int>, slots: set<Slot>)
    requires c == b.(news := c.news)
    ensures AddrsOk(b) ==> AddrsOk(c)
    ensures RandomOk(b) ==> RandomOk(c)
    ensures TalliesOk(env, b, limbo) ==> TalliesOk(env, c, limbo)
    ensures CollisionsBut(env, b, slots) ==> CollisionsBut(env, c, slots)
  {
    hide Members;
    assert AddrsOk(b) ==> forall a | a in b.addr :: LeadsTo(b, a) && LeadsTo(c, a);
  }

  /** Slot s of the new table, empty so far, given to an entry. */
  ghost function Ref(b: Book, s: Slot, id: int): Book
    requires id in b.info
  {
    b.(info := b.info[id := b.info[id].(nRefCount := b.info[id].nRefCount + 1)], news := b.news[s := id])
  }

  /** An entry may go to slot s. */
  ghost predicate Fits(env: Env, b: Book, s: Slot, id: int) {
    && InNew(s) && id in b.info && !b.info[id].fInTried
    && BucketPosition(env, b.nKey, true, s.bucket, b.info[id].addr) == s.pos
    && s in b.news && b.news[s] == -1
  }

  lemma RefTables(env: Env, b: Book, s: Slot, id: int)
    requires IdsOk(b) && Tables(env, b) && Fits(env, b, s, id)
    ensures Tables(env, Ref(b, s, id))
  {
    hide TriedSlot, BucketPosition, Holders;
    forall x | x in b.info
      ensures Ref(b, s, id).info[x].nRefCount == |Holders(Ref(b, s, id).news, x)|
    {
      HoldersShift(b.news, s, id, x);
    }
  }

  lemma RefRanges(b: Book, s: Slot, id: int, zero: set<int>, limbo: set<int>)
    requires IdsOk(b) && RangesOk(b, zero, limbo) && TimesOk(b) && RefsOk(b)
    requires id in b.info && id !in limbo && b.info[id].nRefCount < NEW_BUCKETS_PER_ADDRESS
    ensures var c := Ref(b, s, id); IdsOk(c) && RangesOk(c, zero - {id}, limbo) && TimesOk(c)
  {
    assert b.info[id].nRefCount == |Holders(b.news, id)| >= 0;
  }

  lemma RefKeeps(env: Env, b: Book, s: Slot, id: int, zero: set<int>, limbo: set<int>, slots: set<Slot>)
    requires Mid(env, b, zero, limbo) && Fits(env, b, s, id) && id !in limbo
    requires b.info[id].nRefCount < NEW_BUCKETS_PER_ADDRESS
    ensures Mid(env, Ref(b, s, id), zero - {id}, limbo)
    ensures CollisionsBut(env, b, slots) ==> CollisionsBut(env, Ref(b, s, id), slots)
  {
    hide AddrsOk, RandomOk, TalliesOk, TriedOk, NewOk, Holders, IdsOk, RefsOk, RangesOk, TimesOk;
    RefTables(env, b, s, id);
    RefRanges(b, s, id, zero, limbo);
    var i := b.info[id].(nRefCount := b.info[id].nRefCount + 1);
    PutIndexes(env, b, id, i);
    SameTallies(env, b, limbo, id, i);
    SameFields(env, Put(b, id, i), Ref(b, s, id), limbo, slots);
    if CollisionsBut(env, b, slots) {
      PutCollisions(env, b, id, i, slots);
    }
  }

  // ----- between the tables -----

  function Network(env: Env, i: AddrInfo): nat {
    env.network(i.addr.ip)
  }

  /** An entry without references no longer counted as new. */
  ghost function LeftNew(env: Env, b: Book, id: int): Book
    requires id in b.info
  {
    b.(nNew := b.nNew - 1, counts := Bump(b.counts, Network(env, b.info[id]), -1, 0))
  }

  lemma LeaveNewKeeps(env: Env, b: Book, id: int, zero: set<int>, slots: set<Slot>)
    requires Mid(env, b, zero + {id}, {}) && id in b.info && !b.info[id].fInTried && b.info[id].nRefCount == 0
    ensures Mid(env, LeftNew(env, b, id), zero, {id})
    ensures CollisionsBut(env, b, slots) ==> CollisionsBut(env, LeftNew(env, b, id), slots)
  {
    hide TriedSlot, BucketPosition, Holders, Members, TalliesOk, TriedOk, NewOk;
    SameTables(env, b, LeftNew(env, b, id));
    TallyStep(env, b, {}, LeftNew(env, b, id), {id}, id, Network(env, b.info[id]), -1, 0);
    assert forall a | a in b.addr :: LeadsTo(b, a) && LeadsTo(LeftNew(env, b, id), a);
  }

  /** Only counters differ. */
  lemma SameTables(env: Env, b: Book, c: Book)
    requires c == b.(nNew := c.nNew, nTried := c.nTried, counts := c.counts)
    ensures TriedOk(env, b) ==> TriedOk(env, c)
    ensures NewOk(env, b) ==> NewOk(env, c)
  {
  }

  /** The entry in slot s of the tried table taken out of it. */
  ghost function Evicted(env: Env, b: Book, s: Slot): Book
    requires s in b.tried && b.tried[s] in b.info
  {
    var id := b.tried[s];
    b.(info := b.info[id := b.info[id].(fInTried := false)],
       tried := b.tried[s := -1],
       nTried := b.nTried - 1,
       counts := Bump(b.counts, Network(env, b.info[id]), 0, -1))
  }

  lemma EvictTables(env: Env, b: Book, s: Slot)
    requires Tables(env, b) && s in b.tried && b.tried[s] != -1
    ensures b.tried[s] in b.info && b.info[b.tried[s]].fInTried && b.info[b.tried[s]].nRefCount == 0
    ensures Tables(env, Evicted(env, b, s))
  {
    hide TriedSlot, BucketPosition, Bump, Holders;
    NoneHeld(env, b, b.tried[s]);
  }

  lemma NoneHeld(env: Env, b: Book, id: int)
    requires NewOk(env, b) && RefsOk(b) && id in b.info && b.info[id].fInTried && id != -1
    ensures Holders(b.news, id) == {} && b.info[id].nRefCount == 0
  {
    forall s | s in b.news
      ensures b.news[s] != id
    {
    }
    assert Holders(b.news, id) == {};
  }

  lemma EvictTallies(env: Env, b: Book, s: Slot, limbo: set<int>)
    requires TalliesOk(env, b, limbo) && s in b.tried && b.tried[s] in b.info && b.info[b.tried[s]].fInTried
    requires b.tried[s] !in limbo
    ensures TalliesOk(env, Evicted(env, b, s), limbo + {b.tried[s]})
  {
    hide Members, TalliesOk;
    var id := b.tried[s];
    TallyStep(env, b, limbo, Evicted(env, b, s), limbo + {id}, id, Network(env, b.info[id]), 0, -1);
  }

  lemma NotInLimbo(b: Book, id: int, limbo: set<int>)
    requires RangesOk(b, {}, limbo) && id in b.info && b.info[id].fInTried
    ensures id !in limbo
  {
  }

  lemma EvictRanges(env: Env, b: Book, s: Slot, limbo: set<int>, slots: set<Slot>)
    requires s in b.tried && b.tried[s] in b.info && b.info[b.tried[s]].fInTried && b.info[b.tried[s]].nRefCount == 0
    requires RangesOk(b, {}, limbo)
    ensures b.tried[s] !in limbo
    ensures RangesOk(Evicted(env, b, s), {}, limbo + {b.tried[s]})
    ensures CollisionsBut(env, b, slots) ==> CollisionsBut(env, Evicted(env, b, s), slots + {s})
  {
    hide TriedSlot, Bump;
    NotInLimbo(b, b.tried[s], limbo);
  }

  lemma EvictIndexes(env: Env, b: Book, s: Slot)
    requires s in b.tried && b.tried[s] in b.info
    requires IdsOk(b) && AddrsOk(b) && RandomOk(b) && TimesOk(b)
    ensures var c := Evicted(env, b, s); IdsOk(c) && AddrsOk(c) && RandomOk(c) && TimesOk(c)
    ensures RoutesOk(env, b) ==> RoutesOk(env, Evicted(env, b, s))
  {
    hide TriedSlot, Bump;
    assert forall a | a in b.addr :: LeadsTo(b, a) && LeadsTo(Evicted(env, b, s), a);
  }

  lemma EvictKeeps(env: Env, b: Book, s: Slot, limbo: set<int>, slots: set<Slot>)
    requires Mid(env, b, {}, limbo) && s in b.tried && b.tried[s] != -1
    ensures b.tried[s] in b.info && b.info[b.tried[s]].fInTried && b.tried[s] !in limbo
    ensures Mid(env, Evicted(env, b, s), {}, limbo + {b.tried[s]})
    ensures CollisionsBut(env, b, slots) ==> CollisionsBut(env, Evicted(env, b, s), slots + {s})
  {
    hide TriedOk, NewOk, RefsOk, IdsOk, AddrsOk, RandomOk, TimesOk, RangesOk, TalliesOk, CollisionsBut, Evicted;
    EvictTables(env, b, s);
    EvictRanges(env, b, s, limbo, slots);
    EvictIndexes(env, b, s);
    EvictTallies(env, b, s, limbo);
  }

  /** An entry in limbo given slot s of the new table. */
  ghost function Reentered(env: Env, b: Book, s: Slot, id: int): Book
    requires id in b.info
  {
    b.(info := b.info[id := b.info[id].(nRefCount := 1)],
       news := b.news[s := id],
       nNew := b.nNew + 1,
       counts := Bump(b.counts, Network(env, b.info[id]), 1, 0))
  }

  /** Counted as new again, a step before it gets its slot. */
  ghost function CountedNew(env: Env, b: Book, id: int): Book
    requires id in b.info
  {
    b.(nNew := b.nNew + 1, counts := Bump(b.counts, Network(env, b.info[id]), 1, 0))
  }

  lemma CountNewKeeps(env: Env, b: Book, id: int, limbo: set<int>, slots: set<Slot>)
    requires Mid(env, b, {}, limbo) && id in limbo
    ensures id in b.info && Mid(env, CountedNew(env, b, id), {id}, limbo - {id})
    ensures CollisionsBut(env, b, slots) ==> CollisionsBut(env, CountedNew(env, b, id), slots)
  {
    hide TriedSlot, BucketPosition, Holders, Members, TalliesOk, TriedOk, NewOk;
    SameTables(env, b, CountedNew(env, b, id));
    TallyStep(env, b, limbo, CountedNew(env, b, id), limbo - {id}, id, Network(env, b.info[id]), 1, 0);
    assert forall a | a in b.addr :: LeadsTo(b, a) && LeadsTo(CountedNew(env, b, id), a);
  }

  lemma ReenterKeeps(env: Env, b: Book, s: Slot, id: int, limbo: set<int>, slots: set<Slot>)
    requires Mid(env, b, {}, limbo) && id in limbo && Fits(env, b, s, id)
    ensures Mid(env, Reentered(env, b, s, id), {}, limbo - {id})
    ensures CollisionsBut(env, b, slots) ==> CollisionsBut(env, Reentered(env, b, s, id), slots)
  {
    hide TriedOk, NewOk, RefsOk, IdsOk, AddrsOk, RandomOk, TimesOk, TalliesOk, CollisionsBut, BucketPosition, Bump, Mid;
    InLimbo(env, b, {}, limbo, id);
    var c := CountedNew(env, b, id);
    CountNewKeeps(env, b, id, limbo, slots);
    RefKeeps(env, c, s, id, {id}, limbo - {id}, slots);
    assert {id} - {id} == {};
    assert Ref(c, s, id) == Reentered(env, b, s, id);
  }

  lemma InLimbo(env: Env, b: Book, zero: set<int>, limbo: set<int>, id: int)
    requires Mid(env, b, zero, limbo) && id in limbo
    ensures id in b.info && b.info[id].nRefCount == 0 && !b.info[id].fInTried
  {
  }

  /** An entry in limbo given slot s of the tried table. */
  ghost function Placed(env: Env, b: Book, s: Slot, id: int): Book
    requires id in b.info
  {
    b.(info := b.info[id := b.info[id].(fInTried := true)],
       tried := b.tried[s := id],
       nTried := b.nTried + 1,
       counts := Bump(b.counts, Network(env, b.info[id]), 0, 1))
  }

  lemma PlaceTables(env: Env, b: Book, s: Slot, id: int)
    requires IdsOk(b) && Tables(env, b) && id in b.info && b.info[id].nRefCount == 0 && !b.info[id].fInTried
    requires s == TriedSlot(env, b.nKey, b.info[id].addr) && s in b.tried && b.tried[s] == -1
    ensures Tables(env, Placed(env, b, s, id))
  {
    hide TriedSlot, BucketPosition, Bump;
    assert forall x | x in b.news && b.news[x] == id :: x in Holders(b.news, id);
    SlotInTried(env, b.nKey, b.info[id].addr);
  }

  lemma SlotInTried(env: Env, nKey: nat, a: Service)
    ensures InTried(TriedSlot(env, nKey, a))
  {
  }

  lemma PlaceTallies(env: Env, b: Book, s: Slot, id: int, limbo: set<int>)
    requires TalliesOk(env, b, limbo) && id in limbo && id in b.info
    ensures TalliesOk(env, Placed(env, b, s, id), limbo - {id})
  {
    hide Members, TalliesOk;
    TallyStep(env, b, limbo, Placed(env, b, s, id), limbo - {id}, id, Network(env, b.info[id]), 0, 1);
  }

  lemma PlaceRest(env: Env, b: Book, s: Slot, id: int, zero: set<int>, limbo: set<int>, slots: set<Slot>)
    requires IdsOk(b) && AddrsOk(b) && RandomOk(b) && TimesOk(b) && RangesOk(b, zero, limbo)
    requires id in limbo && b.info[id].lastSuccess != 0
    ensures var c := Placed(env, b, s, id);
            IdsOk(c) && AddrsOk(c) && RandomOk(c) && TimesOk(c) && RangesOk(c, zero, limbo - {id})
    ensures RoutesOk(env, b) ==> RoutesOk(env, Placed(env, b, s, id))
    ensures CollisionsBut(env, b, slots) ==> CollisionsBut(env, Placed(env, b, s, id), slots - {s})
  {
    hide TriedSlot, Bump;
    assert forall a | a in b.addr :: LeadsTo(b, a) && LeadsTo(Placed(env, b, s, id), a);
  }

  lemma PlaceKeeps(env: Env, b: Book, s: Slot, id: int, zero: set<int>, limbo: set<int>, slots: set<Slot>)
    requires Mid(env, b, zero, limbo) && id in limbo && id in b.info && b.info[id].lastSuccess != 0
    requires s == TriedSlot(env, b.nKey, b.info[id].addr) && s in b.tried && b.tried[s] == -1
    ensures Mid(env, Placed(env, b, s, id), zero, limbo - {id})
    ensures CollisionsBut(env, b, slots) ==> CollisionsBut(env, Placed(env, b, s, id), slots - {s})
  {
    hide TriedOk, NewOk, RefsOk, IdsOk, AddrsOk, RandomOk, TimesOk, RangesOk, TalliesOk, CollisionsBut, Placed,
         TriedSlot;
    InLimbo(env, b, zero, limbo, id);
    PlaceTables(env, b, s, id);
    PlaceRest(env, b, s, id, zero, limbo, slots);
    PlaceTallies(env, b, s, id, limbo);
  }
}
