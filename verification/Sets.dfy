/** Small facts about finite sets. */
module Sets {

  lemma Pick<T>(s: set<T>) returns (x: T)
    requires s != {}
    ensures x in s
  {
    x :| x in s;
  }

  lemma KeyOf<K, V>(m: map<K, V>, v: V) returns (k: K)
    requires v in m.Values
    ensures k in m && m[k] == v
  {
    k :| k in m && m[k] == v;
  }

  lemma ValueOf<K, V>(m: map<K, V>, k: K)
    requires k in m
    ensures m[k] in m.Values
  {
  }

  lemma SameMap<K, V>(m: map<K, V>, f: map<K, V>)
    requires forall r :: r in f.Keys ==> r in m && m[r] == f[r]
    requires forall r :: r in m.Keys ==> r in f.Keys
    ensures m == f
  {
    assert m.Keys == f.Keys;
  }

  ghost function KeyFor<K, V>(m: map<K, V>, v: V): (k: K)
    requires v in m.Values
    ensures k in m && m[k] == v
  {
    var k :| k in m && m[k] == v;
    k
  }

  lemma SameSet<T>(a: set<T>, b: set<T>)
    requires forall x :: x in a ==> x in b
    requires forall x :: x in b ==> x in a
    ensures a == b
  {
  }

  lemma SubsetSize<T>(a: set<T>, b: set<T>)
    requires a <= b
    ensures |a| <= |b|
    ensures |a| == |b| ==> a == b
  {
    assert b == a + (b - a);
  }

  lemma SmallerRest<T>(all: set<T>, a: set<T>, b: set<T>)
    requires a < b <= all
    ensures |all - b| < |all - a|
  {
    var x := Pick(b - a);
    assert all - b <= all - a - {x};
    SubsetSize(all - b, all - a - {x});
  }

  lemma OnlyElement<T>(s: set<T>, x: T)
    requires |s| == 1 && x in s
    ensures s == {x}
  {
    SubsetSize({x}, s);
  }

  /** Some element of a set, as a loop over it meets them. */
  method AnyOf<T>(s: set<T>) returns (x: T)
    requires s != {}
    ensures x in s
  {
    x :| x in s;
  }
}
