/** Injective assignments into prefixes: the combinatorics behind the matching of one memory cell.

    Receives are numbered by ascending cutoff; a receive with cutoff `c` may take any of the
    positions `1 .. c-1`.  Hall's condition for such nested choices is `cutoffs[i] >= i + 2`. */
module PrefixAssignment {
  import opened Sets

  ghost predicate Ascending(c: seq<int>) {
    forall i, j :: 0 <= i <= j < |c| ==> c[i] <= c[j]
  }

  ghost predicate Distinct(p: seq<int>) {
    forall i, j :: 0 <= i < j < |p| ==> p[i] != p[j]
  }

  /** `p` gives every receive its own position inside its prefix. */
  ghost predicate Assigns(c: seq<int>, p: seq<int>) {
    && |p| == |c|
    && (forall i :: 0 <= i < |c| ==> 1 <= p[i] < c[i])
    && Distinct(p)
  }

  ghost predicate Hall(c: seq<int>) {
    forall i :: 0 <= i < |c| ==> c[i] >= i + 2
  }

  /** The code's uniqueness test: the sorted cutoffs are `2, 3, ...`. */
  predicate Tight(c: seq<int>) {
    forall i :: 0 <= i < |c| ==> c[i] == i + 2
  }

  function Range(n: nat): (s: set<int>)
    ensures forall x :: x in s <==> 1 <= x <= n
    ensures |s| == n
  {
    if n == 0 then {} else Range(n - 1) + {n}
  }

  function Elements(p: seq<int>): set<int> {
    set i | 0 <= i < |p| :: p[i]
  }

  lemma {:induction false} DistinctSize(p: seq<int>)
    requires Distinct(p)
    ensures |Elements(p)| == |p|
  {
    if |p| > 0 {
      var q := p[..|p| - 1];
      DistinctSize(q);
      assert Elements(p) == Elements(q) + {p[|p| - 1]};
    }
  }

  /** Pigeonhole: distinct positions drawn from `1 .. n` are at most `n`. */
  lemma Pigeonhole(p: seq<int>, n: nat)
    requires Distinct(p)
    requires forall i :: 0 <= i < |p| ==> 1 <= p[i] <= n
    ensures |p| <= n
  {
    DistinctSize(p);
    SubsetSize(Elements(p), Range(n));
  }

  /** Some position of `1 .. n` is still free when fewer than `n` are taken. */
  lemma FreePosition(p: seq<int>, n: nat) returns (x: int)
    requires |p| < n
    requires Distinct(p)
    ensures 1 <= x <= n && x !in p
  {
    DistinctSize(p);
    if Range(n) <= Elements(p) {
      SubsetSize(Range(n), Elements(p));
      assert false;
    }
    assert forall i :: 0 <= i < |p| ==> p[i] in Elements(p);
    x :| x in Range(n) && x !in Elements(p);
  }

  lemma HallNecessary(c: seq<int>, p: seq<int>)
    requires Ascending(c) && Assigns(c, p)
    ensures Hall(c)
  {
    forall i | 0 <= i < |c| ensures c[i] >= i + 2 {
      assert p[..i + 1][0] == p[0];
      Pigeonhole(p[..i + 1], c[i] - 1);
    }
  }

  /** Under Hall's condition a partial assignment of the first receives extends to all of them. */
  lemma {:induction false} Extend(c: seq<int>, q: seq<int>) returns (p: seq<int>)
    requires Ascending(c) && Hall(c)
    requires |q| <= |c| && Assigns(c[..|q|], q)
    ensures Assigns(c, p) && p[..|q|] == q
    decreases |c| - |q|
  {
    if |q| == |c| {
      assert c[..|q|] == c;
      p := q;
    } else {
      var i := |q|;
      var x := FreePosition(q, c[i] - 1);
      assert c[..i + 1] == c[..i] + [c[i]];
      p := Extend(c, q + [x]);
      assert p[..i] == p[..i + 1][..i] == q;
    }
  }

  /** A slack cutoff leaves two different assignments. */
  lemma SlackGivesTwo(c: seq<int>, i: nat) returns (p: seq<int>, p': seq<int>)
    requires Ascending(c) && Hall(c)
    requires i < |c| && c[i] > i + 2
    ensures Assigns(c, p) && Assigns(c, p') && p[i] != p'[i]
  {
    var whole := Extend(c, []);
    var q := whole[..i];
    assert Assigns(c[..i], q);
    var x := FreePosition(q, c[i] - 1);
    FreeOther(q, c[i] - 1, x);
    var y :| 1 <= y <= c[i] - 1 && y !in q && y != x;
    assert c[..i + 1] == c[..i] + [c[i]];
    p := Extend(c, q + [x]);
    p' := Extend(c, q + [y]);
    assert p[i] == p[..i + 1][i] == x && p'[i] == p'[..i + 1][i] == y;
  }

  lemma FreeOther(q: seq<int>, n: nat, x: int)
    requires |q| + 1 < n && Distinct(q) && x !in q
    ensures exists y :: 1 <= y <= n && y !in q && y != x
  {
    var y := FreePosition(q + [x], n);
    assert y !in q && y != x;
  }

  /** Tight cutoffs force receive `i` onto position `i + 1`. */
  lemma {:induction false} TightForces(c: seq<int>, p: seq<int>, i: nat)
    requires Tight(c) && Assigns(c, p) && i < |c|
    ensures p[i] == i + 1
  {
    if p[i] <= i {
      TightForces(c, p, p[i] - 1);
    }
  }

  /** The matching criterion is exact: tight cutoffs are precisely the feasible ones with one assignment. */
  lemma UniqueIffTight(c: seq<int>)
    requires Ascending(c) && Hall(c)
    ensures Tight(c) <==> (forall p, p' :: Assigns(c, p) && Assigns(c, p') ==> p == p')
  {
    if Tight(c) {
      forall p, p' | Assigns(c, p) && Assigns(c, p') ensures p == p' {
        forall i | 0 <= i < |c| ensures p[i] == p'[i] {
          TightForces(c, p, i);
          TightForces(c, p', i);
        }
      }
    } else {
      var i :| 0 <= i < |c| && c[i] != i + 2;
      var p, p' := SlackGivesTwo(c, i);
      assert p != p';
    }
  }
}
