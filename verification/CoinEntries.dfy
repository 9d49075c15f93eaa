/** Coins, cache entries and the list of flagged entries (src/coins.h). Pointers to map
    nodes are named by the outpoint whose node they point to. */
module CoinEntries {
  import opened Collections

  datatype OutPoint = OutPoint(hash: nat, n: nat)

  const OP_RETURN := 0x6a
  const MAX_SCRIPT_SIZE := 10000

  /** An output of the given value, null when that is -1, with its height and origin. */
  datatype Coin = Coin(value: int, script: seq<nat>, coinBase: bool, height: nat) {
    predicate IsSpent() {
      value == -1
    }

    predicate IsUnspendable() {
      (|script| > 0 && script[0] == OP_RETURN) || |script| > MAX_SCRIPT_SIZE
    }

    /** What is left of a coin whose contents were moved elsewhere. */
    function MovedFrom(): Coin {
      this.(script := [])
    }
  }

  const NO_COIN := Coin(-1, [], false, 0)

  datatype Ref = Nil | Sentinel | At(key: OutPoint)

  datatype Entry = Entry(coin: Coin, prev: Ref, next: Ref, dirty: bool, isFresh: bool) {
    predicate Flagged() {
      dirty || isFresh
    }
  }

  const NEW_ENTRY := Entry(NO_COIN, Nil, Nil, false, false)

  // ----- the circular list -----

  /** The node at position i of the circle whose position -1 is the sentinel. */
  function RefAt(s: seq<OutPoint>, i: int): Ref {
    if 0 <= i < |s| then At(s[i]) else Sentinel
  }

  /** Node i of the list is flagged and linked to its neighbours. */
  ghost predicate NodeOk(m: map<OutPoint, Entry>, list: seq<OutPoint>, i: nat)
    requires i < |list|
  {
    && list[i] in m && m[list[i]].Flagged()
    && m[list[i]].next == RefAt(list, i + 1) && m[list[i]].prev == RefAt(list, i - 1)
  }

  /** An entry is listed if it is flagged and linked to nothing otherwise. */
  ghost predicate EntryOk(m: map<OutPoint, Entry>, list: seq<OutPoint>, op: OutPoint)
    requires op in m
  {
    if m[op].Flagged() then op in list else m[op].prev == Nil && m[op].next == Nil
  }

  ghost predicate EndsOk(s: Entry, list: seq<OutPoint>) {
    s.next == RefAt(list, 0) && s.prev == RefAt(list, |list| - 1)
  }

  /** The flagged entries of m, in the order of list, form one circle with the sentinel. */
  ghost predicate Circle(s: Entry, m: map<OutPoint, Entry>, list: seq<OutPoint>) {
    && Distinct(list) && EndsOk(s, list)
    && (forall i | 0 <= i < |list| :: NodeOk(m, list, i))
    && (forall op | op in m :: EntryOk(m, list, op))
  }

  /** Everything of an entry but its place in the list. */
  datatype Datum = Datum(coin: Coin, dirty: bool, isFresh: bool) {
    function Look(): Option<Coin> {
      if coin.IsSpent() then None else Some(coin)
    }
  }

  ghost function Data(m: map<OutPoint, Entry>): map<OutPoint, Datum> {
    map op | op in m :: Datum(m[op].coin, m[op].dirty, m[op].isFresh)
  }

  ghost function Without<T>(m: map<OutPoint, T>, op: OutPoint): map<OutPoint, T> {
    map k | k in m && k != op :: m[k]
  }

  ghost function Dropped(list: seq<OutPoint>, i: nat): seq<OutPoint>
    requires i < |list|
  {
    list[..i] + list[i + 1..]
  }

  /** Sets the next pointer of the node r points to. */
  function WithNext(m: map<OutPoint, Entry>, r: Ref, to: Ref): map<OutPoint, Entry> {
    if r.At? && r.key in m then m[r.key := m[r.key].(next := to)] else m
  }

  function WithPrev(m: map<OutPoint, Entry>, r: Ref, to: Ref): map<OutPoint, Entry> {
    if r.At? && r.key in m then m[r.key := m[r.key].(prev := to)] else m
  }

  lemma NotListed(s: Entry, m: map<OutPoint, Entry>, list: seq<OutPoint>, op: OutPoint)
    requires Circle(s, m, list)
    ensures op in m && !m[op].Flagged() ==> op !in list
    ensures op !in m ==> op !in list
    ensures op in m && m[op].Flagged() ==> op in list
    ensures s.prev.At? ==> s.prev.key in m && m[s.prev.key].Flagged() && list != [] && s.prev.key == list[|list| - 1]
    ensures s.prev == Sentinel <==> list == []
    ensures s.prev != Nil
  {
    if op in list {
      var i :| 0 <= i < |list| && list[i] == op;
      assert NodeOk(m, list, i);
    }
    if op in m {
      assert EntryOk(m, list, op);
    }
    if list != [] {
      assert NodeOk(m, list, |list| - 1);
    }
  }

  lemma DistinctAppend(list: seq<OutPoint>, op: OutPoint)
    requires Distinct(list) && op !in list
    ensures Distinct(list + [op])
  {
  }

  /** Splicing an unflagged entry in before the sentinel appends it to the list. */
  lemma Appended(s: Entry, m: map<OutPoint, Entry>, list: seq<OutPoint>, op: OutPoint, dirty: bool, isFresh: bool,
                 s2: Entry, m2: map<OutPoint, Entry>)
    requires Circle(s, m, list) && op in m && !m[op].Flagged() && (dirty || isFresh)
    requires m2 == WithNext(m, s.prev, At(op))[op := Entry(m[op].coin, s.prev, Sentinel, dirty, isFresh)]
    requires s2.prev == At(op) && s2.next == if s.prev == Sentinel then At(op) else s.next
    ensures Circle(s2, m2, list + [op])
    ensures Data(m2) == Data(m)[op := Datum(m[op].coin, dirty, isFresh)]
  {
    hide Distinct, NodeOk, EntryOk;
    var more := list + [op];
    NotListed(s, m, list, op);
    DistinctAppend(list, op);
    forall i | 0 <= i < |more|
      ensures NodeOk(m2, more, i)
    {
      if i < |list| {
        AppendedNode(s, m, list, op, dirty, isFresh, m2, i);
      } else {
        AppendedLast(s, m, list, op, dirty, isFresh, m2);
      }
    }
    forall x | x in m2
      ensures EntryOk(m2, more, x)
    {
      AppendedEntry(s, m, list, op, dirty, isFresh, m2, x);
    }
  }

  lemma AppendedNode(s: Entry, m: map<OutPoint, Entry>, list: seq<OutPoint>, op: OutPoint, dirty: bool, isFresh: bool,
                     m2: map<OutPoint, Entry>, i: nat)
    requires Circle(s, m, list) && op in m && op !in list && i < |list|
    requires s.prev == At(list[|list| - 1])
    requires m2 == WithNext(m, s.prev, At(op))[op := Entry(m[op].coin, s.prev, Sentinel, dirty, isFresh)]
    ensures NodeOk(m2, list + [op], i)
  {
    hide EntryOk;
    assert NodeOk(m, list, i);
    if i < |list| - 1 {
      assert list[i] != list[|list| - 1];
    }
  }

  lemma AppendedLast(s: Entry, m: map<OutPoint, Entry>, list: seq<OutPoint>, op: OutPoint, dirty: bool, isFresh: bool,
                     m2: map<OutPoint, Entry>)
    requires EndsOk(s, list) && op in m && (dirty || isFresh)
    requires m2 == WithNext(m, s.prev, At(op))[op := Entry(m[op].coin, s.prev, Sentinel, dirty, isFresh)]
    ensures NodeOk(m2, list + [op], |list|)
  {
  }

  lemma AppendedEntry(s: Entry, m: map<OutPoint, Entry>, list: seq<OutPoint>, op: OutPoint, dirty: bool, isFresh: bool,
                      m2: map<OutPoint, Entry>, x: OutPoint)
    requires (forall k | k in m :: EntryOk(m, list, k)) && op in m && x in m2
    requires s.prev.At? ==> s.prev.key in m && m[s.prev.key].Flagged()
    requires m2 == WithNext(m, s.prev, At(op))[op := Entry(m[op].coin, s.prev, Sentinel, dirty, isFresh)]
             && (dirty || isFresh)
    ensures EntryOk(m2, list + [op], x)
  {
    assert EntryOk(m, list, x);
  }

  lemma DroppedAt(list: seq<OutPoint>, i: nat)
    requires i < |list| && Distinct(list)
    ensures forall k | 0 <= k < |list| - 1 :: Dropped(list, i)[k] == list[if k < i then k else k + 1]
    ensures Distinct(Dropped(list, i)) && list[i] !in Dropped(list, i)
    ensures forall x | x in list && x != list[i] :: x in Dropped(list, i)
  {
    forall x | x in list && x != list[i]
      ensures x in Dropped(list, i)
    {
      var n :| 0 <= n < |list| && list[n] == x;
      assert Dropped(list, i)[if n < i then n else n - 1] == x;
    }
  }

  /** m with entry i of the list spliced out and cleared. */
  ghost function Unlink(m: map<OutPoint, Entry>, op: OutPoint): map<OutPoint, Entry>
    requires op in m
  {
    var e := m[op];
    WithNext(WithPrev(m, e.next, e.prev), e.prev, e.next)[op := Entry(e.coin, Nil, Nil, false, false)]
  }

  ghost function UnlinkEnds(s: Entry, e: Entry): Entry {
    s.(prev := if e.next == Sentinel then e.prev else s.prev, next := if e.prev == Sentinel then e.next else s.next)
  }

  /** Splicing out entry i of the list removes it from there. */
  lemma Unlinked(s: Entry, m: map<OutPoint, Entry>, list: seq<OutPoint>, i: nat)
    requires Circle(s, m, list) && i < |list|
    ensures list[i] in m && m[list[i]].Flagged()
    ensures Circle(UnlinkEnds(s, m[list[i]]), Unlink(m, list[i]), Dropped(list, i))
    ensures Data(Unlink(m, list[i])) == Data(m)[list[i] := Datum(m[list[i]].coin, false, false)]
  {
    hide Distinct, EntryOk, Unlink, Dropped;
    var op, less := list[i], Dropped(list, i);
    assert NodeOk(m, list, i);
    var m2 := Unlink(m, op);
    DroppedAt(list, i);
    DroppedLength(list, i);
    UnlinkedData(m, op);
    UnlinkedEnds(s, m, list, i);
    forall k | 0 <= k < |less|
      ensures NodeOk(m2, less, k)
    {
      UnlinkedNode(m, list, i, if k < i then k else k + 1);
    }
    forall x | x in m2
      ensures EntryOk(m2, less, x)
    {
      UnlinkedEntry(m, list, i, x);
    }
  }

  lemma DroppedLength(list: seq<OutPoint>, i: nat)
    requires i < |list|
    ensures |Dropped(list, i)| == |list| - 1
  {
  }

  lemma UnlinkedData(m: map<OutPoint, Entry>, op: OutPoint)
    requires op in m
    ensures Data(Unlink(m, op)) == Data(m)[op := Datum(m[op].coin, false, false)]
    ensures Unlink(m, op).Keys == m.Keys
  {
  }

  lemma UnlinkedEnds(s: Entry, m: map<OutPoint, Entry>, list: seq<OutPoint>, i: nat)
    requires EndsOk(s, list) && i < |list| && NodeOk(m, list, i)
    ensures EndsOk(UnlinkEnds(s, m[list[i]]), Dropped(list, i))
  {
    var less := Dropped(list, i);
    assert i > 0 ==> less[0] == list[0];
    assert i == 0 && |list| > 1 ==> less[0] == list[1];
    assert i < |list| - 1 ==> less[|less| - 1] == list[|list| - 1];
    assert i == |list| - 1 && i > 0 ==> less[|less| - 1] == list[i - 1];
  }

  lemma UnlinkedNode(m: map<OutPoint, Entry>, list: seq<OutPoint>, i: nat, n: nat)
    requires i < |list| && n < |list| && n != i && Distinct(list)
    requires NodeOk(m, list, i) && NodeOk(m, list, n)
    ensures NodeOk(Unlink(m, list[i]), Dropped(list, i), if n < i then n else n - 1)
  {
    var less := Dropped(list, i);
    var k := if n < i then n else n - 1;
    assert less[k] == list[n];
    assert list[n] != list[i];
    assert i > 0 && n != i - 1 ==> list[n] != list[i - 1];
    assert i < |list| - 1 && n != i + 1 ==> list[n] != list[i + 1];
    assert RefAt(less, k + 1) == if n + 1 == i then RefAt(list, n + 2) else RefAt(list, n + 1);
    assert RefAt(less, k - 1) == if n - 1 == i then RefAt(list, n - 2) else RefAt(list, n - 1);
  }

  lemma UnlinkedEntry(m: map<OutPoint, Entry>, list: seq<OutPoint>, i: nat, x: OutPoint)
    requires i < |list| && NodeOk(m, list, i) && Distinct(list) && x in m && EntryOk(m, list, x)
    requires forall k | 0 <= k < |list| :: NodeOk(m, list, k)
    ensures EntryOk(Unlink(m, list[i]), Dropped(list, i), x)
  {
    DroppedAt(list, i);
    var e := m[list[i]];
    if i > 0 {
      assert NodeOk(m, list, i - 1);
    }
    if i + 1 < |list| {
      assert NodeOk(m, list, i + 1);
    }
  }

  /** An unflagged entry can be dropped, and a new one made, without touching the list. */
  lemma OffList(s: Entry, m: map<OutPoint, Entry>, list: seq<OutPoint>, op: OutPoint)
    requires Circle(s, m, list)
    ensures op in m && !m[op].Flagged() ==> Circle(s, Without(m, op), list)
    ensures Data(Without(m, op)) == Without(Data(m), op)
    ensures op !in m ==> Circle(s, m[op := NEW_ENTRY], list)
    ensures op !in m ==> Data(m[op := NEW_ENTRY]) == Data(m)[op := Datum(NO_COIN, false, false)]
  {
    NotListed(s, m, list, op);
    if op in m && !m[op].Flagged() {
      var less := Without(m, op);
      forall i | 0 <= i < |list|
        ensures NodeOk(less, list, i)
      {
        assert NodeOk(m, list, i);
      }
      forall x | x in less
        ensures EntryOk(less, list, x)
      {
        assert EntryOk(m, list, x);
      }
    }
    if op !in m {
      var more := m[op := NEW_ENTRY];
      forall i | 0 <= i < |list|
        ensures NodeOk(more, list, i)
      {
        assert NodeOk(m, list, i);
      }
      forall x | x in more
        ensures EntryOk(more, list, x)
      {
        assert x != op ==> EntryOk(m, list, x);
      }
    }
  }

  /** Changing the coin or the kind of flag of an entry does not touch the list. */
  lemma SameLinks(s: Entry, m: map<OutPoint, Entry>, list: seq<OutPoint>, op: OutPoint, e: Entry)
    requires Circle(s, m, list) && op in m && e.Flagged() == m[op].Flagged() && e.prev == m[op].prev
             && e.next == m[op].next
    ensures Circle(s, m[op := e], list)
    ensures Data(m[op := e]) == Data(m)[op := Datum(e.coin, e.dirty, e.isFresh)]
  {
    var m2 := m[op := e];
    forall i | 0 <= i < |list|
      ensures NodeOk(m2, list, i)
    {
      assert NodeOk(m, list, i);
    }
    forall x | x in m2
      ensures EntryOk(m2, list, x)
    {
      assert EntryOk(m, list, x);
    }
  }

  // ----- what a cache shows -----

  /** The unspent coins seen through entries d over the unspent coins b. */
  ghost function Overlay(b: map<OutPoint, Coin>, d: map<OutPoint, Datum>): map<OutPoint, Coin> {
    map op | op in b.Keys + d.Keys && (if op in d then !d[op].coin.IsSpent() else true) ::
          if op in d then d[op].coin else b[op]
  }

  ghost function Find<T>(m: map<OutPoint, T>, op: OutPoint): Option<T> {
    if op in m then Some(m[op]) else None
  }

  /** The five states an entry may be in: not fresh alone, not spent and clean, and not
      spent, dirty and fresh. */
  predicate StateOk(e: Datum) {
    && !(e.isFresh && !e.dirty && !e.coin.IsSpent())
    && !(e.coin.IsSpent() && !e.dirty && !e.isFresh)
    && !(e.coin.IsSpent() && e.dirty && e.isFresh)
  }

  /** An entry over what the base shows: fresh only if that is nothing, and the same as
      that unless dirty. */
  ghost predicate DatumOk(e: Datum, b: Option<Coin>) {
    StateOk(e) && (e.isFresh ==> b == None) && (!e.dirty ==> e.Look() == b)
  }

  ghost predicate DataOk(b: map<OutPoint, Coin>, d: map<OutPoint, Datum>) {
    forall op | op in d :: DatumOk(d[op], Find(b, op))
  }

  ghost predicate AllUnspent(b: map<OutPoint, Coin>) {
    forall op | op in b :: !b[op].IsSpent()
  }

  lemma OverlayFind(b: map<OutPoint, Coin>, d: map<OutPoint, Datum>, op: OutPoint)
    ensures Find(Overlay(b, d), op) == if op in d then d[op].Look() else Find(b, op)
  {
  }

  lemma SameFinds<T>(a: map<OutPoint, T>, b: map<OutPoint, T>)
    requires forall op :: Find(a, op) == Find(b, op)
    ensures a == b
  {
    forall op
      ensures op in a <==> op in b
      ensures op in a ==> a[op] == b[op]
    {
      assert Find(a, op) == Find(b, op);
    }
  }

  /** Setting one entry changes what is seen at its key only. */
  lemma OverlaySet(b: map<OutPoint, Coin>, d: map<OutPoint, Datum>, op: OutPoint, e: Datum)
    ensures Overlay(b, d[op := e]) ==
            if e.coin.IsSpent() then Without(Overlay(b, d), op) else Overlay(b, d)[op := e.coin]
    ensures DataOk(b, d) && DatumOk(e, Find(b, op)) ==> DataOk(b, d[op := e])
  {
  }

  /** Dropping an entry shows the base again. */
  lemma OverlayDrop(b: map<OutPoint, Coin>, d: map<OutPoint, Datum>, op: OutPoint)
    requires DataOk(b, d)
    ensures DataOk(b, Without(d, op))
    ensures op in d && !d[op].dirty ==> Overlay(b, Without(d, op)) == Overlay(b, d)
    ensures op in d && d[op].isFresh ==> Overlay(b, Without(d, op)) == Without(Overlay(b, d), op)
    ensures op !in d ==> Without(d, op) == d
  {
    var less := Without(d, op);
    forall k
      ensures Find(Overlay(b, less), k) == if k == op then Find(b, op) else Find(Overlay(b, d), k)
    {
      OverlayFind(b, less, k);
      OverlayFind(b, d, k);
    }
    if op in d && !d[op].dirty {
      OverlayFind(b, d, op);
      SameFinds(Overlay(b, less), Overlay(b, d));
    }
    if op in d && d[op].isFresh {
      SameFinds(Overlay(b, less), Without(Overlay(b, d), op));
    }
    if op !in d {
      SameFinds(less, d);
    }
  }

  // ----- pushing entries down -----

  /** What a parent's entry becomes when a child's entry is written to it. */
  ghost function Merge(p: Option<Datum>, c: Datum): Option<Datum> {
    if !c.dirty then p
    else
      match p
      case None => if c.isFresh && c.coin.IsSpent() then None else Some(Datum(c.coin, true, c.isFresh))
      case Some(e) => if e.isFresh && c.coin.IsSpent() then None else Some(Datum(c.coin, true, e.isFresh))
  }

  ghost function Seen(p: Option<Datum>, b: Option<Coin>): Option<Coin> {
    match p
    case None => b
    case Some(e) => e.Look()
  }

  /** A written entry is sound in the parent and shows what it showed in the child; a
      fresh one never meets an unspent coin. */
  lemma MergeSound(p: Option<Datum>, c: Datum, b: Option<Coin>)
    requires p.Some? ==> DatumOk(p.value, b)
    requires DatumOk(c, Seen(p, b))
    ensures Merge(p, c).Some? ==> DatumOk(Merge(p, c).value, b)
    ensures Seen(Merge(p, c), b) == c.Look()
    ensures c.dirty && c.isFresh && p.Some? ==> p.value.coin.IsSpent()
  {
  }

  /** parent is parent0 with the entries of child at the given keys written to it. */
  ghost predicate Merged(parent0: map<OutPoint, Datum>, child: map<OutPoint, Datum>, keys: seq<OutPoint>,
                         parent: map<OutPoint, Datum>)
  {
    forall op :: Find(parent, op) ==
      if op in keys && op in child then Merge(Find(parent0, op), child[op]) else Find(parent0, op)
  }

  /** Writing all flagged entries makes the parent show what the child showed. */
  lemma MergedSound(b: map<OutPoint, Coin>, parent0: map<OutPoint, Datum>, child: map<OutPoint, Datum>,
                    keys: seq<OutPoint>, parent: map<OutPoint, Datum>)
    requires DataOk(b, parent0) && DataOk(Overlay(b, parent0), child) && Merged(parent0, child, keys, parent)
    requires forall op | op in child && (child[op].dirty || child[op].isFresh) :: op in keys
    ensures DataOk(b, parent)
    ensures Overlay(b, parent) == Overlay(Overlay(b, parent0), child)
  {
    hide Overlay, DatumOk, Merge;
    forall op
      ensures op in parent ==> DatumOk(parent[op], Find(b, op))
      ensures Find(Overlay(b, parent), op) == Find(Overlay(Overlay(b, parent0), child), op)
    {
      MergedAt(b, parent0, child, keys, parent, op);
    }
    SameFinds(Overlay(b, parent), Overlay(Overlay(b, parent0), child));
  }

  lemma MergedAt(b: map<OutPoint, Coin>, parent0: map<OutPoint, Datum>, child: map<OutPoint, Datum>,
                 keys: seq<OutPoint>, parent: map<OutPoint, Datum>, op: OutPoint)
    requires DataOk(b, parent0) && DataOk(Overlay(b, parent0), child) && Merged(parent0, child, keys, parent)
    requires forall op | op in child && (child[op].dirty || child[op].isFresh) :: op in keys
    ensures op in parent ==> DatumOk(parent[op], Find(b, op))
    ensures Find(Overlay(b, parent), op) == Find(Overlay(Overlay(b, parent0), child), op)
  {
    hide Overlay;
    var seen := Overlay(b, parent0);
    OverlayFind(b, parent0, op);
    OverlayFind(b, parent, op);
    OverlayFind(seen, child, op);
    if op in child {
      assert DatumOk(child[op], Find(seen, op));
      MergeSound(Find(parent0, op), child[op], Find(b, op));
    }
    assert Find(parent, op) ==
           if op in keys && op in child then Merge(Find(parent0, op), child[op]) else Find(parent0, op);
  }

  // ----- walking the list while entries are written down -----

  /** d with the flagged entries at keys erased if spent and unflagged otherwise. */
  ghost function Synced(d: map<OutPoint, Datum>, keys: seq<OutPoint>): map<OutPoint, Datum> {
    map op | op in d && !(op in keys && d[op].coin.IsSpent()) ::
          if op in keys then Datum(d[op].coin, false, false) else d[op]
  }

  /** The first k entries of the list have been passed: they stay as they are, but for
      moved-out coins, if all are to be erased later; else they are synced. */
  ghost predicate CursorAt(willErase: bool, d0: map<OutPoint, Datum>, list0: seq<OutPoint>, k: nat,
                           d: map<OutPoint, Datum>, list: seq<OutPoint>)
  {
    && k <= |list0|
    && (willErase ==> list == list0 && d.Keys == d0.Keys && forall i | k <= i < |list0| && list0[i] in d0 ::
        d[list0[i]] == d0[list0[i]])
    && (!willErase ==> list == list0[k..] && d == Synced(d0, list0[..k]))
  }

  lemma CursorStart(willErase: bool, d0: map<OutPoint, Datum>, list0: seq<OutPoint>)
    ensures CursorAt(willErase, d0, list0, 0, d0, list0)
  {
    assert list0[0..] == list0;
    assert Synced(d0, list0[..0]) == d0;
  }

  lemma CursorHere(willErase: bool, d0: map<OutPoint, Datum>, list0: seq<OutPoint>, k: nat, d: map<OutPoint, Datum>,
                   list: seq<OutPoint>)
    requires Distinct(list0) && CursorAt(willErase, d0, list0, k, d, list) && k < |list0| && list0[k] in d0
    ensures list0[k] in d && d[list0[k]] == d0[list0[k]] && list0[k] in list && list0[k] !in list0[..k]
  {
    assert list0[k] !in list0[..k];
    assert !willErase ==> list[0] == list0[k];
  }

  /** What passing the entry at the cursor does to the child. */
  ghost predicate Passed(willErase: bool, op: OutPoint, d: map<OutPoint, Datum>, list: seq<OutPoint>,
                         d2: map<OutPoint, Datum>, list2: seq<OutPoint>)
  {
    && op in d
    && (willErase ==> list2 == list && d2.Keys == d.Keys && forall x | x in d && x != op :: d2[x] == d[x])
    && (!willErase ==>
          && (d2 == if d[op].coin.IsSpent() then Without(d, op) else d[op := Datum(d[op].coin, false, false)])
          && exists i :: 0 <= i < |list| && list[i] == op && list2 == Dropped(list, i))
  }

  lemma CursorStep(willErase: bool, d0: map<OutPoint, Datum>, list0: seq<OutPoint>, k: nat, d: map<OutPoint, Datum>,
                   list: seq<OutPoint>, d2: map<OutPoint, Datum>, list2: seq<OutPoint>)
    requires Distinct(list0) && CursorAt(willErase, d0, list0, k, d, list) && k < |list0| && list0[k] in d0
    requires Passed(willErase, list0[k], d, list, d2, list2)
    ensures CursorAt(willErase, d0, list0, k + 1, d2, list2)
  {
    var op := list0[k];
    CursorHere(willErase, d0, list0, k, d, list);
    if willErase {
      forall i | k + 1 <= i < |list0| && list0[i] in d0
        ensures d2[list0[i]] == d0[list0[i]]
      {
        assert list0[i] != op;
      }
    } else {
      var i :| 0 <= i < |list| && list[i] == op && list2 == Dropped(list, i);
      assert list[i] == list0[k + i] && i == 0;
      assert list2 == list0[k + 1..];
      assert list0[..k + 1] == list0[..k] + [op];
      SyncedMore(d0, list0[..k], op);
    }
  }

  lemma CursorNext(willErase: bool, d0: map<OutPoint, Datum>, list0: seq<OutPoint>, k: nat, d: map<OutPoint, Datum>,
                   list: seq<OutPoint>, i: nat)
    requires Distinct(list0) && CursorAt(willErase, d0, list0, k, d, list) && k < |list0|
    requires i < |list| && list[i] == list0[k]
    ensures RefAt(list, i + 1) == RefAt(list0, k + 1)
  {
    if !willErase {
      assert list[i] == list0[k + i];
      assert |list| > 1 ==> list[1] == list0[k + 1];
    }
  }

  lemma CursorEnd(willErase: bool, d0: map<OutPoint, Datum>, list0: seq<OutPoint>, d: map<OutPoint, Datum>,
                  list: seq<OutPoint>)
    requires CursorAt(willErase, d0, list0, |list0|, d, list)
    ensures !willErase ==> list == [] && d == Synced(d0, list0)
  {
    assert list0[..|list0|] == list0;
  }

  /** Moving out the coin of an entry about to be erased makes no difference. */
  lemma PassedMoved(willErase: bool, op: OutPoint, d: map<OutPoint, Datum>, list: seq<OutPoint>, coin: Coin,
                    d2: map<OutPoint, Datum>, list2: seq<OutPoint>)
    requires op in d && (willErase || d[op].coin.IsSpent()) && coin.IsSpent() == d[op].coin.IsSpent()
    requires Passed(willErase, op, d[op := d[op].(coin := coin)], list, d2, list2)
    ensures Passed(willErase, op, d, list, d2, list2)
  {
    assert Without(d[op := d[op].(coin := coin)], op) == Without(d, op);
  }

  lemma SyncedMore(d0: map<OutPoint, Datum>, keys: seq<OutPoint>, op: OutPoint)
    requires op in d0 && op !in keys
    ensures var d, d2 := Synced(d0, keys), Synced(d0, keys + [op]);
            d2 == if d0[op].coin.IsSpent() then Without(d, op) else d[op := Datum(d0[op].coin, false, false)]
  {
    var d, d2 := Synced(d0, keys), Synced(d0, keys + [op]);
    forall x
      ensures Find(d2, x) ==
              if x != op then Find(d, x) else if d0[op].coin.IsSpent() then None
                  else Some(Datum(d0[op].coin, false, false))
    {
      assert x in keys + [op] <==> x in keys || x == op;
    }
    SameFinds(d2, if d0[op].coin.IsSpent() then Without(d, op) else d[op := Datum(d0[op].coin, false, false)]);
  }

  /** Writing one more key extends what is merged. */
  lemma MergedStep(parent0: map<OutPoint, Datum>, child: map<OutPoint, Datum>, keys: seq<OutPoint>, k: nat,
                   parent: map<OutPoint, Datum>, parent2: map<OutPoint, Datum>)
    requires Distinct(keys) && k < |keys| && keys[k] in child && Merged(parent0, child, keys[..k], parent)
    requires forall x :: Find(parent2, x) == if x == keys[k] then Merge(Find(parent, x), child[x]) else Find(parent, x)
    ensures Merged(parent0, child, keys[..k + 1], parent2)
  {
    hide Merge, Find;
    var op := keys[k];
    assert op !in keys[..k];
    assert keys[..k + 1] == keys[..k] + [op];
    forall x
      ensures Find(parent2, x) ==
              if x in keys[..k + 1] && x in child then Merge(Find(parent0, x), child[x]) else Find(parent0, x)
    {
      assert x in keys[..k + 1] <==> x in keys[..k] || x == op;
      assert Find(parent, x) ==
             if x in keys[..k] && x in child then Merge(Find(parent0, x), child[x]) else Find(parent0, x);
    }
  }

  lemma MergedStart(parent0: map<OutPoint, Datum>, child: map<OutPoint, Datum>, keys: seq<OutPoint>)
    ensures Merged(parent0, child, keys[..0], parent0)
  {
  }

  /** A fresh entry to be written never meets an unspent one. */
  lemma NoClash(b: map<OutPoint, Coin>, parent0: map<OutPoint, Datum>, child: map<OutPoint, Datum>, keys: seq<OutPoint>,
                k: nat, parent: map<OutPoint, Datum>)
    requires Distinct(keys) && k < |keys| && keys[k] in child && Merged(parent0, child, keys[..k], parent)
    requires DataOk(b, parent0) && DataOk(Overlay(b, parent0), child)
    ensures child[keys[k]].dirty && child[keys[k]].isFresh && keys[k] in parent ==> parent[keys[k]].coin.IsSpent()
  {
    hide Overlay, Merge;
    var op := keys[k];
    assert op !in keys[..k];
    assert Find(parent, op) == Find(parent0, op);
    OverlayFind(b, parent0, op);
    assert DatumOk(child[op], Find(Overlay(b, parent0), op));
    if op in parent0 {
      assert DatumOk(parent0[op], Find(b, op));
      MergeSound(Find(parent0, op), child[op], Find(b, op));
    }
  }

  /** After a sync, what is left of the child is clean and as the base now shows it. */
  lemma SyncedSound(b: map<OutPoint, Coin>, d: map<OutPoint, Datum>, keys: seq<OutPoint>)
    requires DataOk(b, d)
    requires forall op | op in d && (d[op].dirty || d[op].isFresh) :: op in keys
    ensures var d2, b2 := Synced(d, keys), Overlay(b, d);
            DataOk(b2, d2) && Overlay(b2, d2) == b2
    ensures forall op | op in Synced(d, keys) :: !Synced(d, keys)[op].dirty && !Synced(d, keys)[op].isFresh
  {
    hide Overlay;
    var d2, b2 := Synced(d, keys), Overlay(b, d);
    forall op
      ensures op in d2 ==> DatumOk(d2[op], Find(b2, op)) && !d2[op].dirty && !d2[op].isFresh
      ensures Find(Overlay(b2, d2), op) == Find(b2, op)
    {
      OverlayFind(b2, d2, op);
      OverlayFind(b, d, op);
      if op in d {
        assert DatumOk(d[op], Find(b, op));
      }
    }
    SameFinds(Overlay(b2, d2), b2);
  }

  /** An empty cache shows what its base shows. */
  lemma EmptyOverlay(b: map<OutPoint, Coin>)
    requires AllUnspent(b)
    ensures Overlay(b, map[]) == b && DataOk(b, map[])
  {
    forall op
      ensures Find(Overlay(b, map[]), op) == Find(b, op)
    {
      OverlayFind(b, map[], op);
    }
    SameFinds(Overlay(b, map[]), b);
  }

  // ----- writing to the database -----

  /** coins is coins0 with the dirty entries of child at keys written to it. */
  ghost predicate Written(coins0: map<OutPoint, Coin>, child: map<OutPoint, Datum>, keys: seq<OutPoint>,
                          coins: map<OutPoint, Coin>)
  {
    forall op :: Find(coins, op) ==
      if op in keys && op in child && child[op].dirty then child[op].Look() else Find(coins0, op)
  }

  lemma WrittenStart(coins0: map<OutPoint, Coin>, child: map<OutPoint, Datum>, keys: seq<OutPoint>)
    ensures Written(coins0, child, keys[..0], coins0)
  {
  }

  lemma WrittenStep(coins0: map<OutPoint, Coin>, child: map<OutPoint, Datum>, keys: seq<OutPoint>, k: nat,
                    coins: map<OutPoint, Coin>, coins2: map<OutPoint, Coin>)
    requires k < |keys| && keys[k] in child && Written(coins0, child, keys[..k], coins)
    requires forall x :: Find(coins2, x) == if x == keys[k] && child[x].dirty then child[x].Look() else Find(coins, x)
    ensures Written(coins0, child, keys[..k + 1], coins2)
  {
    hide Find, Datum.Look;
    var op := keys[k];
    assert keys[..k + 1] == keys[..k] + [op];
    forall x
      ensures Find(coins2, x) ==
              if x in keys[..k + 1] && x in child && child[x].dirty then child[x].Look() else Find(coins0, x)
    {
      assert x in keys[..k + 1] <==> x in keys[..k] || x == op;
      assert Find(coins, x) ==
             if x in keys[..k] && x in child && child[x].dirty then child[x].Look() else Find(coins0, x);
    }
  }

  /** The unspent coins of a database. */
  ghost function Unspent(m: map<OutPoint, Coin>): map<OutPoint, Coin> {
    map op | op in m && !m[op].IsSpent() :: m[op]
  }

  lemma WrittenSound(coins0: map<OutPoint, Coin>, child: map<OutPoint, Datum>, keys: seq<OutPoint>,
                     coins: map<OutPoint, Coin>)
    requires Written(coins0, child, keys, coins) && DataOk(Unspent(coins0), child)
    requires forall op | op in child && (child[op].dirty || child[op].isFresh) :: op in keys
    ensures Unspent(coins) == Overlay(Unspent(coins0), child)
  {
    hide Overlay;
    forall op
      ensures Find(Unspent(coins), op) == Find(Overlay(Unspent(coins0), child), op)
    {
      OverlayFind(Unspent(coins0), child, op);
      assert Find(coins, op) ==
             if op in keys && op in child && child[op].dirty then child[op].Look() else Find(coins0, op);
      if op in child {
        assert DatumOk(child[op], Find(Unspent(coins0), op));
      }
    }
    SameFinds(Unspent(coins), Overlay(Unspent(coins0), child));
  }
}
