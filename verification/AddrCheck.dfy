/** What the address manager's own check (src/addrman.cpp) tests of its contents, and that
    the invariant kept by all operations passes it. */
module AddrChecks {
  import opened Collections
  import opened AddrBooks

  /** Slot s comes before position i of bucket n. */
  predicate Before(s: Slot, n: nat, i: nat) {
    s.bucket < n || (s.bucket == n && s.pos < i)
  }

  predicate EntryChecked(b: Book, id: int)
    requires id in b.info
  {
    var i := b.info[id];
    && (if i.fInTried then i.lastSuccess != 0 && i.nRefCount == 0 else 1 <= i.nRefCount <= NEW_BUCKETS_PER_ADDRESS)
    && i.addr in b.addr && b.addr[i.addr] == id
    && 0 <= i.nRandomPos < |b.random| && b.random[i.nRandomPos] == id
    && i.lastTry >= 0 && i.lastSuccess >= 0
  }

  predicate TriedChecked(env: Env, b: Book, s: Slot)
    requires s in b.tried
  {
    b.tried[s] == -1
    || (b.tried[s] in b.info && b.info[b.tried[s]].fInTried && TriedSlot(env, b.nKey, b.info[b.tried[s]].addr) == s)
  }

  predicate NewChecked(env: Env, b: Book, s: Slot)
    requires s in b.news
  {
    b.news[s] == -1
    || (b.news[s] in b.info && !b.info[b.news[s]].fInTried
        && BucketPosition(env, b.nKey, true, s.bucket, b.info[b.news[s]].addr) == s.pos)
  }

  ghost predicate EntriesChecked(b: Book) {
    forall id | id in b.info :: EntryChecked(b, id)
  }

  ghost predicate Full(b: Book) {
    (forall s | InTried(s) :: s in b.tried) && (forall s | InNew(s) :: s in b.news)
  }

  ghost predicate AllTriedChecked(env: Env, b: Book)
    requires Full(b)
  {
    forall s | InTried(s) :: TriedChecked(env, b, s)
  }

  ghost predicate AllNewChecked(env: Env, b: Book)
    requires Full(b)
  {
    forall s | InNew(s) :: NewChecked(env, b, s)
  }

  /** The slots before position i of bucket n that hold an entry. */
  ghost function HeldBefore(table: map<Slot, int>, id: int, n: nat, i: nat): set<Slot> {
    set s | s in table && Before(s, n, i) && table[s] == id
  }

  ghost predicate HeldIn(table: map<Slot, int>, id: int, n: nat, i: nat) {
    exists s :: s in table && Before(s, n, i) && table[s] == id
  }

  ghost function Networks(env: Env, info: map<int, AddrInfo>): set<nat> {
    set id | id in info :: env.network(info[id].addr.ip)
  }

  ghost predicate CountsChecked(env: Env, b: Book) {
    && |b.counts| >= |Networks(env, b.info)|
    && forall net | net in b.counts ::
         b.counts[net] == NewTriedCount(|Members(env, b.info, {}, false, net)|, |Members(env, b.info, {}, true, net)|)
  }

  ghost predicate NumbersChecked(env: Env, b: Book) {
    && |b.random| == b.nTried + b.nNew
    && |Members(env, b.info, {}, true, ANY)| == b.nTried && |Members(env, b.info, {}, false, ANY)| == b.nNew
    && b.nKey != 0
  }

  ghost predicate TablesChecked(env: Env, b: Book) {
    && Full(b) && AllTriedChecked(env, b) && AllNewChecked(env, b)
    && (forall id | id in b.info && b.info[id].fInTried :: HeldIn(b.tried, id, TRIED_BUCKET_COUNT, 0))
    && (forall id | id in b.info && !b.info[id].fInTried ::
        |HeldBefore(b.news, id, NEW_BUCKET_COUNT, 0)| == b.info[id].nRefCount)
  }

  /** All the conditions the check tests, each of which has an error code of its own. */
  ghost predicate Checked(env: Env, b: Book) {
    EntriesChecked(b) && NumbersChecked(env, b) && TablesChecked(env, b) && CountsChecked(env, b)
  }

  // ----- the invariant passes -----

  lemma OkEntries(env: Env, b: Book)
    requires Ok(env, b)
    ensures EntriesChecked(b)
  {
    hide TalliesOk, NewOk, CollisionsBut, TriedSlot, BucketPosition;
    forall id | id in b.info
      ensures EntryChecked(b, id)
    {
      if b.info[id].fInTried {
        NoneHeld(env, b, id);
      }
    }
  }

  lemma OkTables(env: Env, b: Book)
    requires Ok(env, b)
    ensures TablesChecked(env, b)
  {
    hide TalliesOk, CollisionsBut, TriedSlot, BucketPosition, AddrsOk, RandomOk, TimesOk, RangesOk;
    forall id | id in b.info && b.info[id].fInTried
      ensures HeldIn(b.tried, id, TRIED_BUCKET_COUNT, 0)
    {
      SlotInTried(env, b.nKey, b.info[id].addr);
      assert b.tried[TriedSlot(env, b.nKey, b.info[id].addr)] == id;
    }
    forall id | id in b.info && !b.info[id].fInTried
      ensures |HeldBefore(b.news, id, NEW_BUCKET_COUNT, 0)| == b.info[id].nRefCount
    {
      assert HeldBefore(b.news, id, NEW_BUCKET_COUNT, 0) == Holders(b.news, id);
    }
  }

  lemma OkCounts(env: Env, b: Book)
    requires Ok(env, b)
    ensures CountsChecked(env, b)
  {
    hide CollisionsBut, TriedSlot, BucketPosition, AddrsOk, RandomOk, TimesOk, RangesOk, TriedOk, NewOk, RefsOk;
    forall net | net in Networks(env, b.info)
      ensures net in b.counts
    {
      var id :| id in b.info && env.network(b.info[id].addr.ip) == net;
      assert id in Members(env, b.info, {}, b.info[id].fInTried, net);
      assert |Members(env, b.info, {}, b.info[id].fInTried, net)| > 0;
    }
    NotLarger(Networks(env, b.info), b.counts.Keys);
    assert |b.counts.Keys| == |b.counts|;
  }

  lemma {:induction false} ListSize(s: seq<int>, t: set<int>)
    requires forall i, j | 0 <= i < j < |s| :: s[i] != s[j]
    requires forall x :: x in t <==> x in s
    ensures |s| == |t|
  {
    if s == [] {
      if t != {} {
        var some := SomeElement(t);
      }
    } else {
      var rest := t - {s[0]};
      forall x
        ensures x in rest <==> x in s[1..]
      {
        if x in s[1..] {
          var i :| 0 <= i < |s[1..]| && s[1..][i] == x;
          assert s[i + 1] == x;
        }
      }
      ListSize(s[1..], rest);
      assert s[0] in t;
    }
  }

  lemma RandomSize(env: Env, b: Book)
    requires Mid(env, b, {}, {})
    ensures |b.random| == b.nNew + b.nTried
  {
    hide IdsOk, AddrsOk, TriedOk, NewOk, RefsOk, RangesOk, TimesOk;
    var news, tried := Members(env, b.info, {}, false, ANY), Members(env, b.info, {}, true, ANY);
    assert b.info.Keys == news + tried && news !! tried;
    ListSize(b.random, b.info.Keys);
  }

  /** The invariant every operation keeps passes the check. */
  lemma OkChecked(env: Env, b: Book)
    requires Ok(env, b)
    ensures Checked(env, b)
  {
    hide EntriesChecked, TablesChecked, CountsChecked, IdsOk, AddrsOk, TriedOk, NewOk, RefsOk, RangesOk, TimesOk,
         RandomOk, CollisionsBut, Members;
    OkEntries(env, b);
    OkTables(env, b);
    OkCounts(env, b);
    RandomSize(env, b);
  }

  // ----- tallying entries -----

  /** setTried, mapNew and local are what the entries of part add up to. */
  ghost predicate Tallied(env: Env, part: map<int, AddrInfo>, setTried: set<int>, mapNew: map<int, int>,
                          local: map<nat, NewTriedCount>)
  {
    && setTried == Members(env, part, {}, true, ANY)
    && mapNew == NewCounts(part)
    && |mapNew| == |Members(env, part, {}, false, ANY)|
    && local.Keys == Networks(env, part)
    && forall net: nat ::
         CountOf(local, net) == NewTriedCount(|Members(env, part, {}, false, net)|, |Members(env, part, {}, true, net)|)
  }

  lemma TallyNone(env: Env)
    ensures Tallied(env, map[], {}, map[], map[])
  {
    forall t, net
      ensures Members(env, map[], {}, t, net) == {}
    {
    }
  }

  /** The tally of one more entry. */
  ghost function Tallying(env: Env, local: map<nat, NewTriedCount>, i: AddrInfo): map<nat, NewTriedCount> {
    if i.fInTried then Bump(local, Network(env, i), 0, 1) else Bump(local, Network(env, i), 1, 0)
  }

  lemma TallyLocal(env: Env, part: map<int, AddrInfo>, local: map<nat, NewTriedCount>, n: int, i: AddrInfo)
    requires n !in part
    requires forall net: nat ::
               CountOf(local, net) ==
                   NewTriedCount(|Members(env, part, {}, false, net)|, |Members(env, part, {}, true, net)|)
    ensures forall net: nat :: CountOf(Tallying(env, local, i), net)
                               == NewTriedCount(|Members(env, part[n := i], {}, false, net)|,
                                                |Members(env, part[n := i], {}, true, net)|)
  {
    hide Members;
    forall net: nat
      ensures CountOf(Tallying(env, local, i), net)
           == NewTriedCount(|Members(env, part[n := i], {}, false, net)|, |Members(env, part[n := i], {}, true, net)|)
    {
      MembersShift(env, part, {}, part[n := i], {}, n, false, net);
      MembersShift(env, part, {}, part[n := i], {}, n, true, net);
    }
  }

  lemma NetworksAdd(env: Env, part: map<int, AddrInfo>, n: int, i: AddrInfo)
    requires n !in part
    ensures Networks(env, part[n := i]) == Networks(env, part) + {Network(env, i)}
  {
    var more := part[n := i];
    forall x | x in Networks(env, part)
      ensures x in Networks(env, more)
    {
      var id :| id in part && env.network(part[id].addr.ip) == x;
      assert id in more;
    }
    assert n in more;
  }

  lemma MembersAdd(env: Env, part: map<int, AddrInfo>, n: int, i: AddrInfo)
    requires n !in part
    ensures Members(env, part[n := i], {}, true, ANY) ==
            Members(env, part, {}, true, ANY) + if i.fInTried then {n} else {}
    ensures |Members(env, part[n := i], {}, false, ANY)| == |Members(env, part, {}, false, ANY)| + One(!i.fInTried)
  {
    MembersShift(env, part, {}, part[n := i], {}, n, false, ANY);
  }

  ghost function NewCounts(part: map<int, AddrInfo>): map<int, int> {
    map id | id in part && !part[id].fInTried :: part[id].nRefCount
  }

  lemma NewCountsAdd(part: map<int, AddrInfo>, n: int, i: AddrInfo)
    requires n !in part
    ensures NewCounts(part[n := i]) == if i.fInTried then NewCounts(part) else NewCounts(part)[n := i.nRefCount]
    ensures n !in NewCounts(part)
    ensures |NewCounts(part)[n := i.nRefCount]| == |NewCounts(part)| + 1
  {
  }

  lemma KeysTallied(env: Env, local: map<nat, NewTriedCount>, i: AddrInfo)
    ensures Tallying(env, local, i).Keys == local.Keys + {Network(env, i)}
  {
  }

  lemma TallyOne(env: Env, part: map<int, AddrInfo>, setTried: set<int>, mapNew: map<int, int>,
                 local: map<nat, NewTriedCount>, n: int, i: AddrInfo)
    requires Tallied(env, part, setTried, mapNew, local) && n !in part
    ensures Tallied(env, part[n := i], if i.fInTried then setTried + {n} else setTried,
                    if i.fInTried then mapNew else mapNew[n := i.nRefCount], Tallying(env, local, i))
  {
    hide Members, Networks, NewCounts, CountOf, Tallying, Bump;
    KeysTallied(env, local, i);
    TallyLocal(env, part, local, n, i);
    NetworksAdd(env, part, n, i);
    MembersAdd(env, part, n, i);
    NewCountsAdd(part, n, i);
  }

  // ----- walking the tables -----

  lemma BeforeNext(s: Slot, n: nat, i: nat)
    ensures Before(s, n, i + 1) <==> Before(s, n, i) || s == Slot(n, i)
    ensures s.pos < BUCKET_SIZE ==> (Before(s, n, BUCKET_SIZE) <==> Before(s, n + 1, 0))
    ensures !Before(s, 0, 0)
  {
  }

  /** left are the entries of setTried that no slot walked so far holds. */
  ghost predicate TriedLeft(b: Book, setTried: set<int>, left: set<int>, n: nat, i: nat) {
    forall id :: id in left <==> id in setTried && !HeldIn(b.tried, id, n, i)
  }

  ghost predicate TriedSoFar(env: Env, b: Book, n: nat, i: nat)
    requires Full(b)
  {
    forall s | InTried(s) && Before(s, n, i) :: TriedChecked(env, b, s)
  }

  /** Once the slots before it are right, a slot is right exactly if what it holds is left
      and belongs there. */
  lemma TriedStep(env: Env, b: Book, setTried: set<int>, left: set<int>, n: nat, i: nat)
    requires Full(b) && (forall s | s in b.tried :: InTried(s)) && setTried == Members(env, b.info, {}, true, ANY)
    requires TriedSoFar(env, b, n, i) && TriedLeft(b, setTried, left, n, i) && InTried(Slot(n, i)) && -1 !in b.info
    ensures var id := b.tried[Slot(n, i)];
            && (id != -1 && TriedChecked(env, b, Slot(n, i)) ==> id in left)
            && (id in left ==> id in b.info && b.info[id].fInTried)
            && (id == -1 ==> TriedLeft(b, setTried, left, n, i + 1))
            && (id != -1 ==> TriedLeft(b, setTried, left - {id}, n, i + 1))
  {
    hide TriedSlot;
    var s := Slot(n, i);
    var id := b.tried[s];
    if id != -1 && TriedChecked(env, b, s) {
      NoneBefore(env, b, n, i);
    }
    assert -1 !in left || -1 in setTried;
    forall x
      ensures HeldIn(b.tried, x, n, i + 1) <==> HeldIn(b.tried, x, n, i) || x == id
    {
      HeldNext(b.tried, x, n, i);
    }
  }

  lemma HeldNext(table: map<Slot, int>, x: int, n: nat, i: nat)
    requires Slot(n, i) in table
    ensures HeldIn(table, x, n, i + 1) <==> HeldIn(table, x, n, i) || x == table[Slot(n, i)]
    ensures HeldBefore(table, x, n, i + 1) ==
            HeldBefore(table, x, n, i) + if table[Slot(n, i)] == x then {Slot(n, i)} else {}
    ensures Slot(n, i) !in HeldBefore(table, x, n, i)
  {
    if HeldIn(table, x, n, i + 1) {
      var s :| s in table && Before(s, n, i + 1) && table[s] == x;
      BeforeNext(s, n, i);
    }
    assert HeldIn(table, x, n, i) ==> HeldIn(table, x, n, i + 1);
    assert Before(Slot(n, i), n, i + 1);
  }

  lemma NoneBefore(env: Env, b: Book, n: nat, i: nat)
    requires Full(b) && (forall s | s in b.tried :: InTried(s)) && TriedSoFar(env, b, n, i) && InTried(Slot(n, i))
    requires b.tried[Slot(n, i)] != -1 && TriedChecked(env, b, Slot(n, i))
    ensures !HeldIn(b.tried, b.tried[Slot(n, i)], n, i)
  {
    hide TriedSlot;
    forall s | s in b.tried && Before(s, n, i)
      ensures b.tried[s] != b.tried[Slot(n, i)]
    {
      assert TriedChecked(env, b, s);
    }
  }

  /** pending has, for each entry not tried, the references no slot walked so far accounts
      for, unless there are none. */
  ghost predicate NewLeft(b: Book, pending: map<int, int>, n: nat, i: nat) {
    && (forall id ::
          id in pending <==>
          id in b.info && !b.info[id].fInTried && b.info[id].nRefCount > |HeldBefore(b.news, id, n, i)|)
    && (forall id | id in pending :: pending[id] == b.info[id].nRefCount - |HeldBefore(b.news, id, n, i)|)
    && (forall id | id in b.info && !b.info[id].fInTried :: b.info[id].nRefCount >= |HeldBefore(b.news, id, n, i)|)
  }

  ghost predicate NewSoFar(env: Env, b: Book, n: nat, i: nat)
    requires Full(b)
  {
    forall s | InNew(s) && Before(s, n, i) :: NewChecked(env, b, s)
  }

  lemma NewStart(b: Book)
    requires forall id | id in b.info && !b.info[id].fInTried :: b.info[id].nRefCount > 0
    ensures NewLeft(b, NewCounts(b.info), 0, 0)
  {
    forall id
      ensures HeldBefore(b.news, id, 0, 0) == {}
    {
    }
  }

  ghost function Taken(pending: map<int, int>, id: int): map<int, int>
    requires id in pending
  {
    if pending[id] == 1 then pending - {id} else pending[id := pending[id] - 1]
  }

  lemma NewStep(env: Env, b: Book, pending: map<int, int>, n: nat, i: nat)
    requires Full(b) && InNew(Slot(n, i)) && NewLeft(b, pending, n, i) && -1 !in b.info
    ensures var id := b.news[Slot(n, i)];
            && (id == -1 ==> NewLeft(b, pending, n, i + 1))
            && (id in pending ==> id in b.info && !b.info[id].fInTried && NewLeft(b, Taken(pending, id), n, i + 1))
  {
    hide HeldBefore, InNew;
    var s := Slot(n, i);
    forall x
      ensures |HeldBefore(b.news, x, n, i + 1)| == |HeldBefore(b.news, x, n, i)| + One(x == b.news[s])
    {
      HeldNext(b.news, x, n, i);
    }
  }

  /** A reference beyond an entry's count, or to no entry, fails the check. */
  lemma NewExcess(env: Env, b: Book, pending: map<int, int>, n: nat, i: nat)
    requires Full(b) && InNew(Slot(n, i)) && NewLeft(b, pending, n, i) && -1 !in b.info
    requires b.news[Slot(n, i)] != -1 && b.news[Slot(n, i)] !in pending
    ensures !TablesChecked(env, b)
  {
    hide TriedSlot, BucketPosition;
    var s := Slot(n, i);
    var id := b.news[s];
    HeldNext(b.news, id, n, i);
    if NewChecked(env, b, s) {
      var here, all := HeldBefore(b.news, id, n, i + 1), HeldBefore(b.news, id, NEW_BUCKET_COUNT, 0);
      assert here <= all;
      NotLarger(here, all);
      assert |all| > b.info[id].nRefCount;
    } else {
      assert !AllNewChecked(env, b);
    }
  }

  lemma NewEnd(b: Book, pending: map<int, int>)
    requires NewLeft(b, pending, NEW_BUCKET_COUNT, 0)
    ensures pending == map[] <==>
            forall id | id in b.info && !b.info[id].fInTried ::
                  |HeldBefore(b.news, id, NEW_BUCKET_COUNT, 0)| == b.info[id].nRefCount
  {
    hide HeldBefore;
    if pending != map[] {
      var id := SomeElement(pending.Keys);
      assert id in pending;
    }
  }

  lemma TriedEnd(env: Env, b: Book, setTried: set<int>, left: set<int>)
    requires TriedLeft(b, setTried, left, TRIED_BUCKET_COUNT, 0) && setTried == Members(env, b.info, {}, true, ANY)
    ensures left == {} <==> forall id | id in b.info && b.info[id].fInTried ::
              HeldIn(b.tried, id, TRIED_BUCKET_COUNT, 0)
  {
    hide HeldIn;
    if left != {} {
      var id := SomeElement(left);
      assert id in setTried;
    }
  }
}
