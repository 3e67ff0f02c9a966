/** Rows of one memory cell as `(time, ordinal)` pairs, their table form and their sorted order. */
module Rows {

  /** A send carries its virtual time, a receive the threshold of its witness. */
  datatype Timed = Timed(time: int, ord: int)

  ghost predicate DistinctOrds(rows: seq<Timed>) {
    forall i, j :: 0 <= i < j < |rows| ==> rows[i].ord != rows[j].ord
  }

  predicate DistinctTimes(rows: seq<Timed>) {
    forall i, j :: 0 <= i < j < |rows| ==> rows[i].time != rows[j].time
  }

  function RowNumbers(rows: seq<Timed>): set<int> {
    set i | 0 <= i < |rows| :: rows[i].ord
  }

  /** Ordinal to time. */
  function Table(rows: seq<Timed>): (t: map<int, int>)
    ensures t.Keys == RowNumbers(rows)
  {
    if rows == [] then map[]
    else
      var n := |rows| - 1;
      assert forall i :: 0 <= i < n ==> rows[..n][i] == rows[i];
      assert RowNumbers(rows) == RowNumbers(rows[..n]) + {rows[n].ord};
      Table(rows[..n])[rows[n].ord := rows[n].time]
  }

  lemma {:induction false} TableAt(rows: seq<Timed>, i: nat)
    requires DistinctOrds(rows) && i < |rows|
    ensures rows[i].ord in Table(rows) && Table(rows)[rows[i].ord] == rows[i].time
  {
    var n := |rows| - 1;
    if i < n {
      TableAt(rows[..n], i);
    }
  }

  predicate Before(a: Timed, b: Timed) {
    a.time < b.time || (a.time == b.time && a.ord <= b.ord)
  }

  ghost predicate Ordered(s: seq<Timed>) {
    forall i, j :: 0 <= i < j < |s| ==> Before(s[i], s[j])
  }

  function Insert(x: Timed, s: seq<Timed>): (r: seq<Timed>)
    requires Ordered(s)
    ensures Ordered(r) && multiset(r) == multiset(s) + multiset{x}
    ensures forall i :: 0 <= i < |r| ==> r[i] == x || r[i] in s
  {
    if s == [] then [x]
    else if Before(x, s[0]) then
      Prepend(x, s);
      [x] + s
    else
      var rest := Insert(x, s[1..]);
      assert s == [s[0]] + s[1..];
      Prepend(s[0], rest);
      [s[0]] + rest
  }

  lemma Prepend(x: Timed, s: seq<Timed>)
    requires Ordered(s)
    requires |s| > 0 ==> Before(x, s[0])
    ensures Ordered([x] + s)
  {
    forall i | 0 <= i < |s| ensures Before(x, s[i]) {
      assert i > 0 ==> Before(s[0], s[i]);
    }
  }

  /** Python's `sorted` on pairs. */
  function Sorted(s: seq<Timed>): (r: seq<Timed>)
    ensures Ordered(r) && multiset(r) == multiset(s)
  {
    if s == [] then []
    else
      assert s == [s[0]] + s[1..];
      Insert(s[0], Sorted(s[1..]))
  }

  /** Distinctness of a field only depends on the multiset of rows. */
  lemma SameMultisetMembers(r: seq<Timed>, s: seq<Timed>)
    requires multiset(r) == multiset(s)
    ensures |r| == |s|
    ensures forall x :: x in r <==> x in s
  {
    assert |r| == |multiset(r)| && |s| == |multiset(s)|;
    forall x ensures x in r <==> x in s {
      assert x in r <==> x in multiset(r);
      assert x in s <==> x in multiset(s);
    }
  }

  lemma {:induction false} CountOfDistinct(s: seq<Timed>, x: Timed)
    requires forall i, j :: 0 <= i < j < |s| ==> s[i] != s[j]
    ensures multiset(s)[x] <= 1
  {
    if s != [] {
      assert s == [s[0]] + s[1..];
      CountOfDistinct(s[1..], x);
      assert x == s[0] ==> x !in s[1..];
      assert x !in s[1..] ==> multiset(s[1..])[x] == 0;
    }
  }

  lemma RepeatsCount(s: seq<Timed>, i: nat, j: nat)
    requires i < j < |s| && s[i] == s[j]
    ensures multiset(s)[s[i]] >= 2
  {
    assert s == s[..j] + s[j..];
    assert s[..j][i] == s[i] && s[j..][0] == s[i];
    assert multiset(s) == multiset(s[..j]) + multiset(s[j..]);
    assert s[i] in s[..j] && s[i] in s[j..];
  }

  lemma SortedKeepsDistinctOrds(s: seq<Timed>)
    requires DistinctOrds(s)
    ensures DistinctOrds(Sorted(s)) && |Sorted(s)| == |s|
    ensures forall x :: x in Sorted(s) <==> x in s
  {
    var r := Sorted(s);
    SameMultisetMembers(r, s);
    forall i, j | 0 <= i < j < |r| ensures r[i].ord != r[j].ord {
      if r[i] == r[j] {
        RepeatsCount(r, i, j);
        CountOfDistinct(s, r[i]);
      } else {
        assert r[i] in s && r[j] in s;
      }
    }
  }

  /** `bisect_right`: how many leading entries are at or below `x`. */
  method BisectRight(rows: seq<Timed>, x: int) returns (n: nat)
    requires Ordered(rows)
    ensures n <= |rows|
    ensures forall i :: 0 <= i < n ==> rows[i].time <= x
    ensures forall i :: n <= i < |rows| ==> rows[i].time > x
  {
    var lo, hi := 0, |rows|;
    while lo < hi
      invariant 0 <= lo <= hi <= |rows|
      invariant forall i :: 0 <= i < lo ==> rows[i].time <= x
      invariant forall i :: hi <= i < |rows| ==> rows[i].time > x
    {
      var mid := (lo + hi) / 2;
      assert forall i :: 0 <= i < mid ==> Before(rows[i], rows[mid]);
      assert forall i :: mid < i < |rows| ==> Before(rows[mid], rows[i]);
      if x < rows[mid].time { hi := mid; } else { lo := mid + 1; }
    }
    n := lo;
  }
}
