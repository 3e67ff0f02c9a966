/** Multisets of labels over index sets, and bijections between them. */
module Bags {
  import opened Sets

  /** The labels of the indices in `s`, with multiplicity. */
  ghost function Bag<T>(tags: seq<T>, s: set<int>, n: nat): multiset<T>
    requires n <= |tags|
  {
    if n == 0 then multiset{} else Bag(tags, s, n - 1) + (if n - 1 in s then multiset{tags[n - 1]} else multiset{})
  }

  lemma BagStep<T>(tags: seq<T>, s: set<int>, n: nat)
    requires 0 < n <= |tags|
    ensures n - 1 in s ==> Bag(tags, s, n) == Bag(tags, s, n - 1) + multiset{tags[n - 1]}
    ensures n - 1 !in s ==> Bag(tags, s, n) == Bag(tags, s, n - 1)
  {
  }

  lemma AddLast<T>(a: multiset<T>, x: T, b: multiset<T>)
    ensures a + multiset{x} + b == a + b + multiset{x}
  {
  }

  lemma {:induction false} BagRemove<T>(tags: seq<T>, s: set<int>, n: nat, i: int)
    requires n <= |tags| && i in s && 0 <= i < n
    ensures Bag(tags, s, n) == Bag(tags, s - {i}, n) + multiset{tags[i]}
  {
    hide Bag;
    BagStep(tags, s, n);
    BagStep(tags, s - {i}, n);
    if i == n - 1 {
      BagSame(tags, s, s - {i}, n - 1);
    } else {
      BagRemove(tags, s, n - 1, i);
      AddLast(Bag(tags, s - {i}, n - 1), tags[i], multiset{tags[n - 1]});
    }
  }

  lemma {:induction false} BagSame<T>(tags: seq<T>, s: set<int>, t: set<int>, n: nat)
    requires n <= |tags| && forall i :: 0 <= i < n ==> (i in s <==> i in t)
    ensures Bag(tags, s, n) == Bag(tags, t, n)
  {
    if n > 0 {
      BagSame(tags, s, t, n - 1);
    }
  }

  lemma {:induction false} BagSplit<T>(tags: seq<T>, s: set<int>, t: set<int>, n: nat)
    requires n <= |tags| && s !! t
    ensures Bag(tags, s + t, n) == Bag(tags, s, n) + Bag(tags, t, n)
  {
    if n > 0 {
      BagSplit(tags, s, t, n - 1);
      assert n - 1 in s + t <==> n - 1 in s || n - 1 in t;
    }
  }

  lemma {:induction false} BagEmpty<T>(tags: seq<T>, n: nat)
    requires n <= |tags|
    ensures Bag(tags, {}, n) == multiset{}
  {
    if n > 0 {
      BagEmpty(tags, n - 1);
    }
  }

  /** `f` is a tag-preserving bijection from `s` onto `t`. */
  ghost predicate Carries<T(!new)>(a: seq<T>, s: set<int>, b: seq<T>, t: set<int>, f: map<int, int>) {
    && f.Keys == s && f.Values == t
    && (forall i :: i in f ==> 0 <= i < |a| && 0 <= f[i] < |b| && a[i] == b[f[i]])
    && (forall i, j :: i in f && j in f && i != j ==> f[i] != f[j])
  }

  ghost function Without(f: map<int, int>, i: int): map<int, int> {
    map k | k in f && k != i :: f[k]
  }

  lemma WithoutCarries<T(!new)>(a: seq<T>, s: set<int>, b: seq<T>, t: set<int>, f: map<int, int>, i: int)
    requires Carries(a, s, b, t, f) && i in f
    ensures Carries(a, s - {i}, b, t - {f[i]}, Without(f, i))
  {
    var g := Without(f, i);
    forall k | k in s - {i} ensures k in g.Keys {
      assert k in f.Keys;
    }
    forall k | k in g.Keys ensures k in s - {i} {
      assert k in f.Keys;
    }
    SameSet(g.Keys, s - {i});
    forall v | v in t - {f[i]} ensures v in g.Values {
      var k := KeyOf(f, v);
      ValueOf(g, k);
    }
    forall v | v in g.Values ensures v in t - {f[i]} {
      var k := KeyOf(g, v);
      ValueOf(f, k);
    }
    SameSet(g.Values, t - {f[i]});
  }

  /** A tag-preserving bijection keeps the multiset of tags. */
  lemma {:induction false} CarriedBags<T(!new)>(a: seq<T>, s: set<int>, b: seq<T>, t: set<int>, f: map<int, int>)
    requires Carries(a, s, b, t, f)
    ensures Bag(a, s, |a|) == Bag(b, t, |b|)
    decreases |s|
  {
    if s == {} {
      assert t == {} by {
        if t != {} {
          var v := Pick(t);
          var k := KeyOf(f, v);
        }
      }
      BagEmpty(a, |a|);
      BagEmpty(b, |b|);
    } else {
      var i := Pick(s);
      assert i in f.Keys;
      ValueOf(f, i);
      WithoutCarries(a, s, b, t, f, i);
      CarriedBags(a, s - {i}, b, t - {f[i]}, Without(f, i));
      BagRemove(a, s, |a|, i);
      BagRemove(b, t, |b|, f[i]);
    }
  }
}
