/** What several of the models need of options, lists, sets and maps in general. */
module Collections {

  datatype Option<T> = None | Some(value: T)

  function Max(a: int, b: int): int {
    if a < b then b else a
  }

  ghost predicate Distinct<T>(s: seq<T>) {
    forall i, j :: 0 <= i < j < |s| ==> s[i] != s[j]
  }

  lemma SomeElement<T>(s: set<T>) returns (x: T)
    requires s != {}
    ensures x in s
  {
    x :| x in s;
  }

  lemma {:induction false} NotLarger<T>(a: set<T>, b: set<T>)
    requires a <= b
    ensures |a| <= |b|
  {
    if a != {} {
      var x :| x in a;
      NotLarger(a - {x}, b - {x});
    }
  }

  lemma SmallerSet<T>(a: set<T>, b: set<T>)
    requires a < b
    ensures |a| < |b|
  {
    var x := SomeElement(b - a);
    NotLarger(a, b - {x});
  }

  lemma SameMap<T, U>(a: map<T, U>, b: map<T, U>)
    requires a.Keys <= b.Keys && b.Keys <= a.Keys && forall x | x in a :: a[x] == b[x]
    ensures a == b
  {
  }
}
