/** What the address manager makes of a file (src/addrman.cpp): the steps of loading, that
    they lead to a sound book, and that they restore the book that was saved. */
module AddrLoads {

  import opened AddrBooks
  import opened AddrChecks
  import opened AddrFiles

  // ----- the steps -----

  /** An entry as it comes from the file. */
  function Fresh(x: SavedInfo): AddrInfo {
    AddrInfo(x.addr, x.nTime, x.nServices, x.source, 0, 0, x.lastSuccess, x.nAttempts, 0, false, -1)
  }

  ghost function Start(b: Book, nKey: nat): Book {
    b.(nKey := nKey, nIdCount := 0, nNew := 0, nTried := 0)
  }

  /** The new entries, numbered from 0, without slots yet. */
  ghost function NewLoaded(env: Env, b: Book, xs: seq<SavedInfo>): Book {
    if xs == [] then b else Created(env, NewLoaded(env, b, xs[..|xs| - 1]), Fresh(xs[|xs| - 1]))
  }

  /** An entry that goes straight to slot s of the tried table. */
  ghost function Entered(env: Env, b: Book, x: SavedInfo, s: Slot): Book {
    b.(nIdCount := b.nIdCount + 1,
       info := b.info[b.nIdCount := Fresh(x).(nRandomPos := |b.random|, fInTried := true)],
       addr := b.addr[x.addr := b.nIdCount],
       random := b.random + [b.nIdCount],
       tried := b.tried[s := b.nIdCount],
       nTried := b.nTried + 1,
       counts := Bump(b.counts, env.network(x.addr.ip), 0, 1))
  }

  /** A tried entry, which is lost if it is not valid or its slot is taken. */
  ghost function TriedOne(env: Env, b: Book, x: SavedInfo): (r: Book)
    requires Full(b)
    ensures Full(r) && r.news == b.news && r.nKey == b.nKey
    ensures forall id | id in b.info && id != b.nIdCount :: id in r.info && r.info[id] == b.info[id]
  {
    var s := TriedSlot(env, b.nKey, x.addr);
    SlotInTried(env, b.nKey, x.addr);
    if env.isValid(x.addr.ip) && b.tried[s] == -1 then Entered(env, b, x, s) else b
  }

  ghost function TriedLoaded(env: Env, b: Book, xs: seq<SavedInfo>): (r: Book)
    requires Full(b)
    ensures Full(r) && r.news == b.news && r.nKey == b.nKey
  {
    if xs == [] then b else TriedOne(env, TriedLoaded(env, b, xs[..|xs| - 1]), xs[|xs| - 1])
  }

  ghost predicate Placeable(b: Book, e: Entry, restore: bool) {
    e.index in b.info && (restore ==> e.bucket < NEW_BUCKET_COUNT)
  }

  /** One reference: to the slot it had, if bucketing has not changed and that is free, and
      otherwise to its primary slot, if that is free. */
  ghost function ReferencedOne(env: Env, b: Book, e: Entry, restore: bool): (r: Book)
    requires Full(b) && Placeable(b, e, restore)
    ensures Full(r) && r.info.Keys == b.info.Keys
  {
    var i := b.info[e.index];
    if !env.isValid(i.addr.ip) || i.nRefCount >= NEW_BUCKETS_PER_ADDRESS then b
    else
      var s := Slot(e.bucket, BucketPosition(env, b.nKey, true, e.bucket, i.addr));
      if restore && b.news[s] == -1 then Ref(b, s, e.index)
      else
        var home := NewSlot(env, b.nKey, i.addr, i.source);
        if b.news[home] == -1 then Ref(b, home, e.index) else b
  }

  ghost predicate AllPlaceable(b: Book, es: seq<Entry>, restore: bool) {
    forall k | 0 <= k < |es| :: Placeable(b, es[k], restore)
  }

  ghost function Referenced(env: Env, b: Book, es: seq<Entry>, restore: bool): (r: Book)
    requires Full(b) && AllPlaceable(b, es, restore)
    ensures Full(r) && r.info.Keys == b.info.Keys
  {
    if es == [] then b
    else
      var n := |es| - 1;
      assert Placeable(b, es[n], restore);
      ReferencedOne(env, Referenced(env, b, es[..n], restore), es[n], restore)
  }

  /** c is b without the entries that have no slot. */
  ghost predicate Pruned(b: Book, c: Book) {
    && c.news == b.news && c.tried == b.tried && c.nKey == b.nKey
    && (forall id :: id in c.info <==> id in b.info && (b.info[id].fInTried || b.info[id].nRefCount != 0))
    && (forall id | id in c.info :: c.info[id] == b.info[id].(nRandomPos := c.info[id].nRandomPos))
  }

  // ----- new entries -----

  ghost predicate Blank(b: Book) {
    b.info == map[] && b.addr == map[] && b.random == [] && b.nIdCount == 0 && b.nNew == 0 && b.nTried == 0
  }

  ghost predicate HasAddr(xs: seq<SavedInfo>, a: Service) {
    exists k :: 0 <= k < |xs| && xs[k].addr == a
  }

  /** What the new entries come to, for any file. */
  ghost predicate NewsIn(b: Book, xs: seq<SavedInfo>, c: Book) {
    && c == b.(info := c.info, addr := c.addr, random := c.random, nIdCount := |xs|, nNew := |xs|, counts := c.counts)
    && |c.random| == |xs|
    && (forall id :: id in c.info <==> 0 <= id < |xs|)
    && (forall k | 0 <= k < |xs| :: c.info[k] == Fresh(xs[k]).(nRandomPos := k))
    && (forall a | a in c.addr :: HasAddr(xs, a))
  }

  lemma {:induction false} NewFacts(env: Env, b: Book, xs: seq<SavedInfo>)
    requires Blank(b)
    ensures NewsIn(b, xs, NewLoaded(env, b, xs))
  {
    if xs != [] {
      var n := |xs| - 1;
      NewFacts(env, b, xs[..n]);
      NewFactsStep(env, b, xs, NewLoaded(env, b, xs[..n]));
    }
  }

  lemma NewFactsStep(env: Env, b: Book, xs: seq<SavedInfo>, c: Book)
    requires xs != [] && NewsIn(b, xs[..|xs| - 1], c)
    ensures NewsIn(b, xs, Created(env, c, Fresh(xs[|xs| - 1])))
  {
    hide HasAddr, Bump;
    var n := |xs| - 1;
    forall a | a in c.addr || a == xs[n].addr
      ensures HasAddr(xs, a)
    {
      AddrGrows(xs, a);
    }
  }

  lemma AddrGrows(xs: seq<SavedInfo>, a: Service)
    requires xs != []
    ensures HasAddr(xs[..|xs| - 1], a) || xs[|xs| - 1].addr == a <==> HasAddr(xs, a)
  {
    var n := |xs| - 1;
    if HasAddr(xs[..n], a) {
      var k :| 0 <= k < n && xs[..n][k].addr == a;
      assert xs[k].addr == a;
    }
    if HasAddr(xs, a) {
      var k :| 0 <= k < |xs| && xs[k].addr == a;
      assert k < n ==> xs[..n][k].addr == a;
    }
  }

  ghost predicate DistinctAddrs(xs: seq<SavedInfo>) {
    forall j, k | 0 <= j < k < |xs| :: xs[j].addr != xs[k].addr
  }

  ghost predicate SoundTimes(xs: seq<SavedInfo>) {
    forall k | 0 <= k < |xs| :: xs[k].lastSuccess >= 0
  }

  /** Bucketing does not depend on which addresses are admitted. */
  ghost function Lax(env: Env): Env {
    env.(isRoutable := _ => true)
  }

  ghost function Ids(n: nat): set<int> {
    set k: int | 0 <= k < n && Below(k, n)
  }

  ghost predicate Below(k: int, n: nat) {
    0 <= k < n
  }

  lemma IdsUp(n: nat)
    ensures Ids(0) == {} && Ids(n) + {n} == Ids(n + 1) && n !in Ids(n)
  {
    assert Below(n, n + 1);
  }

  lemma NotYet(xs: seq<SavedInfo>, n: nat)
    requires DistinctAddrs(xs) && n < |xs|
    ensures !HasAddr(xs[..n], xs[n].addr)
  {
    forall k | 0 <= k < n
      ensures xs[..n][k].addr != xs[n].addr
    {
      assert xs[..n][k] == xs[k];
    }
  }

  lemma MoreZeroes(env: Env, b: Book, zero: set<int>, more: set<int>)
    requires Mid(env, b, zero, {}) && zero <= more
    ensures Mid(env, b, more, {})
  {
    hide IdsOk, AddrsOk, RandomOk, TalliesOk, TriedOk, NewOk, RefsOk, TimesOk, RoutesOk;
  }

  lemma {:induction false} NewMid(env: Env, b: Book, xs: seq<SavedInfo>)
    requires Blank(b) && Mid(Lax(env), b, {}, {}) && DistinctAddrs(xs) && SoundTimes(xs)
    ensures Mid(Lax(env), NewLoaded(env, b, xs), Ids(|xs|), {})
  {
    hide Mid, HasAddr, Ids;
    IdsUp(0);
    if xs != [] {
      var n := |xs| - 1;
      var init := xs[..n];
      var c := NewLoaded(env, b, init);
      NewMid(env, b, init);
      NewFacts(env, b, init);
      NotYet(xs, n);
      IdsUp(n);
      CreateKeeps(Lax(env), c, Fresh(xs[n]), Ids(n));
      assert Created(Lax(env), c, Fresh(xs[n])) == Created(env, c, Fresh(xs[n]));
    }
  }

  // ----- tried entries -----

  /** Entering the tried table is creating, leaving the new entries, and being placed. */
  lemma EnterKeeps(env: Env, b: Book, x: SavedInfo, s: Slot, zero: set<int>)
    requires Mid(env, b, zero, {}) && x.addr !in b.addr && env.isRoutable(x.addr.ip) && x.lastSuccess > 0
    requires s == TriedSlot(env, b.nKey, x.addr) && s in b.tried && b.tried[s] == -1
    ensures Mid(env, Entered(env, b, x, s), zero, {})
  {
    hide Mid, TriedSlot;
    var i, id := Fresh(x), b.nIdCount;
    CreateKeeps(env, b, i, zero);
    var c := Created(env, b, i);
    LeaveNewKeeps(env, c, id, zero, {});
    var d := LeftNew(env, c, id);
    PlaceKeeps(env, d, s, id, zero, {id}, {});
    assert {id} - {id} == {};
    EnteredIs(env, b, x, s);
  }

  lemma EnteredIs(env: Env, b: Book, x: SavedInfo, s: Slot)
    ensures Placed(env, LeftNew(env, Created(env, b, Fresh(x)), b.nIdCount), s, b.nIdCount) == Entered(env, b, x, s)
  {
    var c := Placed(env, LeftNew(env, Created(env, b, Fresh(x)), b.nIdCount), s, b.nIdCount);
    assert c.counts == Entered(env, b, x, s).counts;
    assert c.info == Entered(env, b, x, s).info;
  }

  /** What the tried entries come to, for any file. */
  ghost predicate TriedIn(b: Book, xs: seq<SavedInfo>, ys: seq<SavedInfo>, c: Book) {
    && b.nIdCount <= c.nIdCount
    && (forall id | id in c.info :: id < c.nIdCount)
    && (forall id | id in b.info :: id in c.info && c.info[id] == b.info[id])
    && (forall id | id in c.info && id !in b.info :: c.info[id].fInTried)
    && (forall a | a in c.addr :: HasAddr(xs + ys, a))
  }

  lemma TriedFactsStep(env: Env, b: Book, xs: seq<SavedInfo>, ys: seq<SavedInfo>, c: Book)
    requires ys != [] && TriedIn(b, xs, ys[..|ys| - 1], c) && Full(c) && (forall id | id in b.info :: id < b.nIdCount)
    ensures TriedIn(b, xs, ys, TriedOne(env, c, ys[|ys| - 1]))
  {
    hide HasAddr, Bump, TriedSlot;
    var n := |ys| - 1;
    var d := TriedOne(env, c, ys[n]);
    forall a | a in d.addr
      ensures HasAddr(xs + ys, a)
    {
      assert (xs + ys)[..|xs + ys| - 1] == xs + ys[..n];
      AddrGrows(xs + ys, a);
    }
  }

  lemma {:induction false} TriedFacts(env: Env, b: Book, xs: seq<SavedInfo>, ys: seq<SavedInfo>)
    requires Full(b) && (forall id | id in b.info :: id < b.nIdCount) && forall a | a in b.addr :: HasAddr(xs, a)
    ensures TriedIn(b, xs, ys, TriedLoaded(env, b, ys))
  {
    if ys == [] {
      assert xs + ys == xs;
    } else {
      var n := |ys| - 1;
      TriedFacts(env, b, xs, ys[..n]);
      TriedFactsStep(env, b, xs, ys, TriedLoaded(env, b, ys[..n]));
    }
  }

  ghost predicate Successes(ys: seq<SavedInfo>) {
    forall k | 0 <= k < |ys| :: ys[k].lastSuccess > 0
  }

  lemma {:induction false} TriedMid(env: Env, b: Book, xs: seq<SavedInfo>, ys: seq<SavedInfo>, zero: set<int>)
    requires Mid(Lax(env), b, zero, {}) && Full(b) && (forall id | id in b.info :: id < b.nIdCount)
    requires forall a | a in b.addr :: HasAddr(xs, a)
    requires DistinctAddrs(xs + ys) && Successes(ys)
    ensures Mid(Lax(env), TriedLoaded(env, b, ys), zero, {})
  {
    hide Mid, HasAddr, TriedSlot, Entered;
    if ys != [] {
      var n := |ys| - 1;
      var c := TriedLoaded(env, b, ys[..n]);
      assert xs + ys[..n] == (xs + ys)[..|xs| + n];
      TriedMid(env, b, xs, ys[..n], zero);
      TriedFacts(env, b, xs, ys[..n]);
      NotYet(xs + ys, |xs| + n);
      var s := TriedSlot(env, c.nKey, ys[n].addr);
      SameSlot(env, c.nKey, ys[n].addr);
      SlotInTried(env, c.nKey, ys[n].addr);
      if c.tried[s] == -1 {
        EnterKeeps(Lax(env), c, ys[n], s, zero);
        EnteredLax(env, c, ys[n], s);
      }
    }
  }

  lemma SameSlot(env: Env, nKey: nat, a: Service)
    ensures TriedSlot(Lax(env), nKey, a) == TriedSlot(env, nKey, a)
  {
  }

  lemma EnteredLax(env: Env, b: Book, x: SavedInfo, s: Slot)
    ensures Entered(Lax(env), b, x, s) == Entered(env, b, x, s)
  {
  }

  // ----- references -----

  ghost predicate NoneTried(b: Book, n: nat) {
    forall id | 0 <= id < n :: id in b.info && !b.info[id].fInTried
  }

  lemma PlaceOneKeeps(env: Env, b: Book, e: Entry, restore: bool, zero: set<int>, n: nat)
    requires Full(b) && Placeable(b, e, restore) && Mid(Lax(env), b, zero, {}) && NoneTried(b, n) && 0 <= e.index < n
    ensures Mid(Lax(env), ReferencedOne(env, b, e, restore), zero, {})
            && NoneTried(ReferencedOne(env, b, e, restore), n)
  {
    hide Mid, BucketPosition, NewSlot;
    var i := b.info[e.index];
    var s := Slot(e.bucket, BucketPosition(env, b.nKey, true, e.bucket, i.addr));
    var home := NewSlot(env, b.nKey, i.addr, i.source);
    SamePosition(env, b.nKey, e.bucket, i.addr, i.source);
    if env.isValid(i.addr.ip) && i.nRefCount < NEW_BUCKETS_PER_ADDRESS {
      if restore && b.news[s] == -1 {
        RefKeeps(Lax(env), b, s, e.index, zero, {}, {});
        MoreZeroes(Lax(env), Ref(b, s, e.index), zero - {e.index}, zero);
      } else if b.news[home] == -1 {
        RefKeeps(Lax(env), b, home, e.index, zero, {}, {});
        MoreZeroes(Lax(env), Ref(b, home, e.index), zero - {e.index}, zero);
      }
    }
  }

  lemma SamePosition(env: Env, nKey: nat, bucket: nat, a: Service, src: nat)
    ensures BucketPosition(Lax(env), nKey, true, bucket, a) == BucketPosition(env, nKey, true, bucket, a)
    ensures var home := NewSlot(env, nKey, a, src);
            InNew(home) && BucketPosition(env, nKey, true, home.bucket, a) == home.pos
            && BucketPosition(Lax(env), nKey, true, home.bucket, a) == home.pos
  {
  }

  lemma {:induction false} ReferencedMid(env: Env, b: Book, es: seq<Entry>, restore: bool, zero: set<int>, n: nat)
    requires Full(b) && AllPlaceable(b, es, restore) && Mid(Lax(env), b, zero, {}) && NoneTried(b, n)
    requires forall k | 0 <= k < |es| :: 0 <= es[k].index < n
    ensures Mid(Lax(env), Referenced(env, b, es, restore), zero, {}) && NoneTried(Referenced(env, b, es, restore), n)
  {
    hide Mid, ReferencedOne, NoneTried;
    if es != [] {
      var m := |es| - 1;
      ReferencedMid(env, b, es[..m], restore, zero, n);
      assert Placeable(b, es[m], restore);
      PlaceOneKeeps(env, Referenced(env, b, es[..m], restore), es[m], restore, zero, n);
    }
  }

  // ----- all together -----

  ghost predicate Restoring(h: Header, checksum: nat, asmap: nat) {
    h.nUBuckets == NEW_BUCKET_COUNT && checksum == asmap
  }

  /** The entries a file lists can be placed: what reading it guarantees. */
  ghost predicate Readable(f: File) {
    && |f.news| == f.header.nNew && |f.tried| == f.header.nTried
    && forall k | 0 <= k < |f.entries| ::
         0 <= f.entries[k].index < f.header.nNew && f.entries[k].bucket < f.header.nUBuckets
  }

  /** An address manager nothing was added to yet. */
  ghost predicate Untouched(env: Env, b: Book) {
    Ok(env, b) && b.info == map[] && b.addr == map[] && b.random == [] && b.collisions == {}
  }

  ghost function BeforePlacing(env: Env, b: Book, f: File): (r: Book)
    requires Untouched(env, b)
    ensures Full(r)
  {
    StartFull(env, b, f.header.nKey);
    var c := Start(b, f.header.nKey);
    NewFacts(env, c, f.news);
    TriedLoaded(env, NewLoaded(env, c, f.news), f.tried)
  }

  lemma StartFull(env: Env, b: Book, nKey: nat)
    requires Untouched(env, b)
    ensures Full(Start(b, nKey)) && Blank(Start(b, nKey)) && Mid(Lax(env), Start(b, nKey), {}, {})
  {
    StartTallies(env, b, nKey);
    StartTables(env, b, nKey);
  }

  lemma StartTables(env: Env, b: Book, nKey: nat)
    requires Untouched(env, b)
    ensures Full(Start(b, nKey)) && TriedOk(Lax(env), Start(b, nKey)) && NewOk(Lax(env), Start(b, nKey))
  {
  }

  lemma StartTallies(env: Env, b: Book, nKey: nat)
    requires Untouched(env, b)
    ensures TalliesOk(Lax(env), Start(b, nKey), {})
  {
    forall t, net
      ensures Members(env, b.info, {}, t, net) == {} && Members(Lax(env), b.info, {}, t, net) == {}
    {
    }
  }

  lemma NewsNotTried(b: Book, xs: seq<SavedInfo>, c: Book)
    requires NewsIn(b, xs, c)
    ensures NoneTried(c, |xs|) && (forall id | id in c.info :: 0 <= id < c.nIdCount) && c.nIdCount == |xs|
    ensures forall a | a in c.addr :: HasAddr(xs, a)
  {
  }

  lemma TriedOthers(b: Book, xs: seq<SavedInfo>, ys: seq<SavedInfo>, c: Book, n: nat)
    requires TriedIn(b, xs, ys, c) && NoneTried(b, n)
    ensures NoneTried(c, n)
  {
  }

  lemma BeforePlacingFacts(env: Env, b: Book, f: File)
    requires Untouched(env, b)
    ensures var c := NewLoaded(env, Start(b, f.header.nKey), f.news);
            && Full(c) && TriedIn(c, f.news, f.tried, BeforePlacing(env, b, f))
            && NewsIn(Start(b, f.header.nKey), f.news, c)
    ensures NoneTried(BeforePlacing(env, b, f), |f.news|)
  {
    hide NewLoaded, TriedLoaded, Full, TriedIn, NewsIn, HasAddr, NoneTried, Ok;
    StartFull(env, b, f.header.nKey);
    var c := Start(b, f.header.nKey);
    NewFacts(env, c, f.news);
    var d := NewLoaded(env, c, f.news);
    SameTablesFull(c, f.news, d);
    NewsNotTried(c, f.news, d);
    TriedFacts(env, d, f.news, f.tried);
    TriedOthers(d, f.news, f.tried, BeforePlacing(env, b, f), |f.news|);
  }

  lemma SameTablesFull(b: Book, xs: seq<SavedInfo>, c: Book)
    requires NewsIn(b, xs, c) && Full(b)
    ensures Full(c)
  {
  }

  lemma AllCanBePlaced(b: Book, f: File, restore: bool)
    requires Readable(f) && NoneTried(b, |f.news|) && (restore ==> f.header.nUBuckets == NEW_BUCKET_COUNT)
    ensures AllPlaceable(b, f.entries, restore)
  {
  }

  /** The book a file leads to, before entries without slots are pruned. */
  ghost function Loaded(env: Env, b: Book, f: File, asmap: nat): (r: Book)
    requires Untouched(env, b) && Readable(f)
    ensures Full(r)
  {
    BeforePlacingFacts(env, b, f);
    var restore := Restoring(f.header, f.checksum, asmap);
    AllCanBePlaced(BeforePlacing(env, b, f), f, restore);
    Referenced(env, BeforePlacing(env, b, f), f.entries, restore)
  }

  /** No address is listed twice, times are possible, and there is a key. */
  ghost predicate Sound(f: File) {
    f.header.nKey != 0 && DistinctAddrs(f.news + f.tried) && SoundTimes(f.news) && Successes(f.tried)
  }

  /** From a sound file, everything the manager checks of itself holds once the entries
      without slots are gone. */
  lemma LoadedMid(env: Env, b: Book, f: File, asmap: nat)
    requires Untouched(env, b) && Readable(f) && Sound(f)
    ensures Mid(Lax(env), Loaded(env, b, f, asmap), Ids(|f.news|), {})
    ensures Loaded(env, b, f, asmap).nKey != 0 && Loaded(env, b, f, asmap).collisions == {}
  {
    hide NewLoaded, TriedLoaded, Referenced, Full, TriedIn, NewsIn, HasAddr, NoneTried, Ok, Mid, DistinctAddrs, Ids;
    StartFull(env, b, f.header.nKey);
    var c := Start(b, f.header.nKey);
    BeforePlacingFacts(env, b, f);
    var d := NewLoaded(env, c, f.news);
    NewsNotTried(c, f.news, d);
    DistinctFront(f.news, f.tried);
    NewMid(env, c, f.news);
    TriedMid(env, d, f.news, f.tried, Ids(|f.news|));
    var restore := Restoring(f.header, f.checksum, asmap);
    var e := BeforePlacing(env, b, f);
    AllCanBePlaced(e, f, restore);
    ReferencedMid(env, e, f.entries, restore, Ids(|f.news|), |f.news|);
    SameKey(env, c, f.news);
    TriedSameKey(env, d, f.tried);
    ReferencedSameKey(env, e, f.entries, restore);
  }

  lemma DistinctFront(xs: seq<SavedInfo>, ys: seq<SavedInfo>)
    requires DistinctAddrs(xs + ys)
    ensures DistinctAddrs(xs)
  {
    forall j, k | 0 <= j < k < |xs|
      ensures xs[j].addr != xs[k].addr
    {
      assert (xs + ys)[j] == xs[j] && (xs + ys)[k] == xs[k];
    }
  }

  lemma {:induction false} SameKey(env: Env, b: Book, xs: seq<SavedInfo>)
    ensures NewLoaded(env, b, xs).nKey == b.nKey && NewLoaded(env, b, xs).collisions == b.collisions
  {
    if xs != [] {
      SameKey(env, b, xs[..|xs| - 1]);
    }
  }

  lemma {:induction false} TriedSameKey(env: Env, b: Book, xs: seq<SavedInfo>)
    requires Full(b)
    ensures TriedLoaded(env, b, xs).nKey == b.nKey && TriedLoaded(env, b, xs).collisions == b.collisions
  {
    if xs != [] {
      TriedSameKey(env, b, xs[..|xs| - 1]);
    }
  }

  lemma {:induction false} ReferencedSameKey(env: Env, b: Book, es: seq<Entry>, restore: bool)
    requires Full(b) && AllPlaceable(b, es, restore)
    ensures var c := Referenced(env, b, es, restore);
            c.nKey == b.nKey && c.collisions == b.collisions && c.tried == b.tried
  {
    if es != [] {
      ReferencedSameKey(env, b, es[..|es| - 1], restore);
      assert Placeable(b, es[|es| - 1], restore);
    }
  }
}
