/** Sets of positions, as the linearization code uses them, and sorting. */
module NatSets {
  import opened Collections

  lemma {:induction false} FindFirst(s: set<nat>) returns (m: nat)
    requires s != {}
    ensures m in s && forall x :: x in s ==> m <= x
  {
    var y :| y in s;
    var rest := s - {y};
    assert forall x :: x in s ==> x == y || x in rest;
    m := y;
    if rest != {} {
      var k := FindFirst(rest);
      m := if m < k then m else k;
    }
  }

  lemma {:induction false} FindLast(s: set<nat>) returns (m: nat)
    requires s != {}
    ensures m in s && forall x :: x in s ==> x <= m
  {
    var y :| y in s;
    var rest := s - {y};
    assert forall x :: x in s ==> x == y || x in rest;
    m := y;
    if rest != {} {
      var k := FindLast(rest);
      m := if m < k then k else m;
    }
  }

  lemma HasFirst(s: set<nat>)
    requires s != {}
    ensures exists m :: m in s && forall x :: x in s ==> m <= x
  {
    var m := FindFirst(s);
  }

  lemma HasLast(s: set<nat>)
    requires s != {}
    ensures exists m :: m in s && forall x :: x in s ==> x <= m
  {
    var m := FindLast(s);
  }

  /** The lowest position in a set; sets are iterated from there upwards. */
  function First(s: set<nat>): (m: nat)
    requires s != {}
    ensures m in s && forall x :: x in s ==> m <= x
  {
    HasFirst(s);
    var m :| m in s && forall x :: x in s ==> m <= x;
    m
  }

  /** The highest position in a set. */
  function Last(s: set<nat>): (m: nat)
    requires s != {}
    ensures m in s && forall x :: x in s ==> x <= m
  {
    HasLast(s);
    var m :| m in s && forall x :: x in s ==> x <= m;
    m
  }

  ghost function Elements<T>(s: seq<T>): set<T> {
    set x | x in s
  }

  lemma EmptyList<T>(s: seq<T>)
    ensures Elements(s) == {} <==> s == []
  {
    if s != [] {
      assert s[0] in Elements(s);
    }
  }

  lemma DistinctConcat<T>(a: seq<T>, b: seq<T>)
    ensures Elements(a + b) == Elements(a) + Elements(b)
    ensures Distinct(a + b) <==> Distinct(a) && Distinct(b) && Elements(a) !! Elements(b)
  {
    var ab := a + b;
    assert forall i :: 0 <= i < |a| ==> ab[i] == a[i];
    assert forall i :: 0 <= i < |b| ==> ab[|a| + i] == b[i];
    if Distinct(a) && Distinct(b) && Elements(a) !! Elements(b) {
      forall i, j | 0 <= i < j < |ab|
        ensures ab[i] != ab[j]
      {
        if i < |a| <= j {
          assert ab[i] in Elements(a) && ab[j] in Elements(b);
        }
      }
    }
    forall i, k | 0 <= i < |a| && 0 <= k < |b|
      ensures Distinct(ab) ==> a[i] != b[k]
    {
      assert ab[i] == a[i] && ab[|a| + k] == b[k];
    }
  }

  lemma {:induction false} DistinctLength<T>(s: seq<T>)
    requires Distinct(s)
    ensures |s| == |Elements(s)|
  {
    if s != [] {
      DistinctLength(s[1..]);
      assert Elements(s) == {s[0]} + Elements(s[1..]);
    }
  }

  /** A strict order that decides between any two positions of s. */
  ghost predicate StrictTotal(before: (nat, nat) -> bool, s: set<nat>) {
    && (forall x, y | x in s && y in s && x != y :: before(x, y) != before(y, x))
    && (forall x, y, z | x in s && y in s && z in s && before(x, y) && before(y, z) :: before(x, z))
  }

  ghost predicate SortedBy(before: (nat, nat) -> bool, s: seq<nat>) {
    forall i, j :: 0 <= i < j < |s| ==> before(s[i], s[j])
  }

  /** Lists the elements of a set in the given order. */
  method SortSet(select: set<nat>, before: (nat, nat) -> bool) returns (r: seq<nat>)
    requires StrictTotal(before, select)
    ensures Elements(r) == select && Distinct(r)
    ensures SortedBy(before, r)
  {
    r := [];
    var rest := select;
    while rest != {}
      invariant rest <= select && Elements(r) == select - rest && Distinct(r)
      invariant SortedBy(before, r)
    {
      var x := First(rest);
      var k := 0;
      while k < |r| && before(r[k], x)
        invariant 0 <= k <= |r|
        invariant forall i :: 0 <= i < k ==> before(r[i], x)
      {
        k := k + 1;
      }
      InsertSorted(r, k, x, select, before);
      r := r[..k] + [x] + r[k..];
      rest := rest - {x};
    }
  }

  lemma InsertSorted(r: seq<nat>, k: nat, x: nat, s: set<nat>, before: (nat, nat) -> bool)
    requires StrictTotal(before, s) && Elements(r) <= s && x in s - Elements(r)
    requires k <= |r| && SortedBy(before, r) && Distinct(r)
    requires forall i :: 0 <= i < k ==> before(r[i], x)
    requires k < |r| ==> !before(r[k], x)
    ensures var t := r[..k] + [x] + r[k..];
            SortedBy(before, t) && Distinct(t) && Elements(t) == Elements(r) + {x}
  {
    InsertDistinct(r, k, x);
    assert forall i :: 0 <= i < |r| ==> r[i] in Elements(r);
    forall i | k <= i < |r|
      ensures before(x, r[i])
    {
      assert before(x, r[k]);
      assert i > k ==> before(r[k], r[i]);
    }
    SortedAround(r, k, x, before);
  }

  lemma SortedAround(r: seq<nat>, k: nat, x: nat, before: (nat, nat) -> bool)
    requires k <= |r| && SortedBy(before, r)
    requires forall i :: 0 <= i < k ==> before(r[i], x)
    requires forall i :: k <= i < |r| ==> before(x, r[i])
    ensures SortedBy(before, r[..k] + [x] + r[k..])
  {
    var t := r[..k] + [x] + r[k..];
    forall i, j | 0 <= i < j < |t|
      ensures before(t[i], t[j])
    {
      assert t[i] == if i < k then r[i] else if i == k then x else r[i - 1];
      assert t[j] == if j < k then r[j] else if j == k then x else r[j - 1];
    }
  }

  lemma InsertDistinct<T>(r: seq<T>, k: nat, x: T)
    requires k <= |r| && Distinct(r) && x !in Elements(r)
    ensures var t := r[..k] + [x] + r[k..];
            Distinct(t) && Elements(t) == Elements(r) + {x}
  {
    assert r == r[..k] + r[k..];
    DistinctConcat(r[..k], r[k..]);
    DistinctConcat(r[..k], [x]);
    DistinctConcat(r[..k] + [x], r[k..]);
  }
}
