/** Worlds of a memory bus seen access by access.

    An access is a receive together with its own send; it reads the send of an earlier access to the
    same address, or the entry value.  At most one access per address reads the entry value and at
    most one send per address is left unread. */
module CellChain {
  import opened Sets

  datatype Bus = Bus(time: map<int, int>, addr: map<int, int>)

  ghost predicate WellFormed(b: Bus) {
    && b.time.Keys == b.addr.Keys
    && forall x, y :: x in b.time && y in b.time && x != y ==> b.time[x] != b.time[y]
  }

  /** `y` is an earlier access to the address of `x`, among the accesses `k`. */
  predicate Earlier(b: Bus, k: set<int>, y: int, x: int)
    requires b.time.Keys == b.addr.Keys
  {
    x in b.time && y in k && y in b.time && b.addr[y] == b.addr[x] && b.time[y] < b.time[x]
  }

  /** `y` is the last access to the address of `x` before `x`, among `k`. */
  ghost predicate Previous(b: Bus, k: set<int>, y: int, x: int)
    requires b.time.Keys == b.addr.Keys
  {
    && Earlier(b, k, y, x)
    && forall z :: Earlier(b, k, z, x) ==> b.time[z] <= b.time[y]
  }

  ghost predicate HasEarlier(b: Bus, k: set<int>, x: int)
    requires b.time.Keys == b.addr.Keys
  {
    exists y :: Earlier(b, k, y, x)
  }

  /** A routing of the accesses `k`: whom each access reads. */
  ghost predicate Routes(b: Bus, k: set<int>, src: map<int, int>)
    requires WellFormed(b)
  {
    && k <= b.time.Keys
    && src.Keys <= k
    && (forall x :: x in src ==> Earlier(b, k, src[x], x))
    && (forall x, y :: x in src && y in src && x != y ==> src[x] != src[y])
    && (forall x, y :: x in k && y in k && x !in src && y !in src && x != y ==> b.addr[x] != b.addr[y])
    && (forall x, y :: x in k && y in k && x !in src.Values && y !in src.Values && x != y
                       ==> b.addr[x] != b.addr[y])
  }

  ghost function EarlierSet(b: Bus, k: set<int>, x: int): set<int>
    requires b.time.Keys == b.addr.Keys
  {
    set y | y in k && Earlier(b, k, y, x)
  }

  lemma {:induction false} LatestIn(b: Bus, s: set<int>) returns (y: int)
    requires s != {} && s <= b.time.Keys
    ensures y in s && forall z :: z in s ==> b.time[z] <= b.time[y]
  {
    y := Pick(s);
    var rest := s - {y};
    if rest != {} {
      var w := LatestIn(b, rest);
      if b.time[y] < b.time[w] {
        forall z | z in s ensures b.time[z] <= b.time[w] {
          assert z == y || z in rest;
        }
        y := w;
      } else {
        forall z | z in s ensures b.time[z] <= b.time[y] {
          assert z == y || z in rest;
        }
      }
    } else {
      assert s == {y};
    }
  }

  lemma PreviousExists(b: Bus, k: set<int>, x: int) returns (y: int)
    requires b.time.Keys == b.addr.Keys && HasEarlier(b, k, x)
    ensures Previous(b, k, y, x)
  {
    var e := EarlierSet(b, k, x);
    var w :| Earlier(b, k, w, x);
    assert w in e;
    y := LatestIn(b, e);
    forall z | Earlier(b, k, z, x) ensures b.time[z] <= b.time[y] {
      assert z in e;
    }
  }

  /** The first access after `x` to its address, given that there is a later one. */
  lemma {:induction false} NextExists(b: Bus, k: set<int>, x: int, late: int) returns (y: int)
    requires WellFormed(b) && x in k && late in k && Earlier(b, k, x, late)
    ensures y in k && Previous(b, k, x, y) && y in b.time && b.time[y] <= b.time[late]
    decreases EarlierSet(b, k, late)
  {
    var q := PreviousExists(b, k, late);
    if q == x {
      y := late;
    } else {
      assert b.time[x] < b.time[q];
      assert Earlier(b, k, x, q);
      assert EarlierSet(b, k, q) < EarlierSet(b, k, late) by {
        assert q in EarlierSet(b, k, late) && q !in EarlierSet(b, k, q);
      }
      y := NextExists(b, k, x, q);
    }
  }

  /** The address routing is determined: the first access reads the entry value and every other one
      the access just before it. */
  lemma {:induction false} RoutingIsChain(b: Bus, k: set<int>, src: map<int, int>, x: int)
    requires WellFormed(b) && Routes(b, k, src) && x in k
    ensures x in src <==> HasEarlier(b, k, x)
    ensures x in src ==> Previous(b, k, src[x], x)
    decreases EarlierSet(b, k, x)
  {
    if HasEarlier(b, k, x) {
      FirstReadsEntry(b, k, src, x);
      var y := src[x];
      var q := PreviousExists(b, k, x);
      if y != q {
        assert Earlier(b, k, y, q);
        var n := NextExists(b, k, y, q);
        assert EarlierSet(b, k, n) < EarlierSet(b, k, x) by {
          assert n in EarlierSet(b, k, x) && n !in EarlierSet(b, k, n);
        }
        RoutingIsChain(b, k, src, n);
        PreviousUnique(b, k, src[n], y, n);
      }
    }
  }

  lemma PreviousUnique(b: Bus, k: set<int>, y: int, z: int, x: int)
    requires WellFormed(b) && Previous(b, k, y, x) && Previous(b, k, z, x)
    ensures y == z
  {
  }

  /** Walking back from `x` reaches an access with nothing before it, which takes the entry value. */
  lemma {:induction false} FirstReadsEntry(b: Bus, k: set<int>, src: map<int, int>, x: int)
    requires WellFormed(b) && Routes(b, k, src) && x in k && HasEarlier(b, k, x)
    ensures x in src
  {
    var f := Oldest(b, k, x);
    assert f !in src;
    assert b.addr[f] == b.addr[x] && f != x;
  }

  lemma {:induction false} Oldest(b: Bus, k: set<int>, x: int) returns (f: int)
    requires WellFormed(b) && x in k && HasEarlier(b, k, x)
    ensures f in k && Earlier(b, k, f, x) && !HasEarlier(b, k, f)
    decreases EarlierSet(b, k, x)
  {
    var q := PreviousExists(b, k, x);
    if HasEarlier(b, k, q) {
      assert EarlierSet(b, k, q) < EarlierSet(b, k, x) by {
        assert q in EarlierSet(b, k, x) && q !in EarlierSet(b, k, q);
      }
      f := Oldest(b, k, q);
    } else {
      f := q;
    }
  }

  // ---- What is read, by the accesses at one address ----

  /** `x` reads `y` exactly when `y` comes before it and nothing at their address comes between. */
  lemma EdgeExactly(b: Bus, k: set<int>, src: map<int, int>, x: int, y: int)
    requires WellFormed(b) && Routes(b, k, src) && x in k && y in k && b.addr[x] == b.addr[y]
    ensures (x in src && src[x] == y) <==>
      (b.time[y] < b.time[x] && forall z :: z in k && b.addr[z] == b.addr[x] ==> !(b.time[y] < b.time[z] < b.time[x]))
  {
    RoutingIsChain(b, k, src, x);
    if b.time[y] < b.time[x] {
      assert Earlier(b, k, y, x);
      assert Previous(b, k, src[x], x);
      if src[x] != y {
        assert b.time[y] < b.time[src[x]] < b.time[x];
      } else {
        forall z | z in k && b.addr[z] == b.addr[x] ensures !(b.time[y] < b.time[z] < b.time[x]) {
          assert Earlier(b, k, z, x) ==> b.time[z] <= b.time[y];
        }
      }
    }
  }

  /** `x` reads the entry value exactly when nothing at its address comes before it. */
  lemma InputExactly(b: Bus, k: set<int>, src: map<int, int>, x: int)
    requires WellFormed(b) && Routes(b, k, src) && x in k
    ensures x !in src <==> forall z :: z in k && b.addr[z] == b.addr[x] ==> b.time[z] >= b.time[x]
  {
    RoutingIsChain(b, k, src, x);
    if x in src {
      assert Earlier(b, k, src[x], x);
    } else {
      forall z | z in k && b.addr[z] == b.addr[x] ensures b.time[z] >= b.time[x] {
        assert !Earlier(b, k, z, x);
      }
    }
  }

  /** The send of `y` stays unread exactly when nothing at its address comes after it. */
  lemma OutputExactly(b: Bus, k: set<int>, src: map<int, int>, y: int)
    requires WellFormed(b) && Routes(b, k, src) && y in k
    ensures y !in src.Values <==> forall z :: z in k && b.addr[z] == b.addr[y] ==> b.time[z] <= b.time[y]
  {
    if y in src.Values {
      var z := KeyOf(src, y);
      assert Earlier(b, k, y, z);
    } else {
      forall z | z in k && b.addr[z] == b.addr[y] ensures b.time[z] <= b.time[y] {
        if b.time[z] > b.time[y] {
          var n := NextExists(b, k, y, z);
          RoutingIsChain(b, k, src, n);
          PreviousUnique(b, k, src[n], y, n);
          ValueOf(src, n);
        }
      }
    }
  }

  // ---- Restricting a bus to some of its accesses ----

  ghost function Prev(b: Bus, k: set<int>, x: int): (y: int)
    requires b.time.Keys == b.addr.Keys && HasEarlier(b, k, x)
    ensures Previous(b, k, y, x)
  {
    PreviousIsThere(b, k, x);
    var y :| Previous(b, k, y, x);
    y
  }

  lemma PreviousIsThere(b: Bus, k: set<int>, x: int)
    requires b.time.Keys == b.addr.Keys && HasEarlier(b, k, x)
    ensures exists y :: Previous(b, k, y, x)
  {
    var y := PreviousExists(b, k, x);
  }

  /** Every access of `k` reads the last access of `k` before it. */
  ghost function ChainOf(b: Bus, k: set<int>): (c: map<int, int>)
    requires b.time.Keys == b.addr.Keys
    ensures forall x :: x in c <==> x in k && HasEarlier(b, k, x)
    ensures forall x :: x in c ==> Previous(b, k, c[x], x)
  {
    map x | x in k && HasEarlier(b, k, x) :: Prev(b, k, x)
  }

  /** The chain of any subset of accesses is a routing of that subset. */
  lemma ChainRoutes(b: Bus, k: set<int>)
    requires WellFormed(b) && k <= b.time.Keys
    ensures Routes(b, k, ChainOf(b, k))
  {
    var c := ChainOf(b, k);
    forall x, y | x in c && y in c && x != y ensures c[x] != c[y] {
      if c[x] == c[y] {
        ChainInjective(b, k, x, y);
      }
    }
    forall x, y | x in k && y in k && x !in c.Values && y !in c.Values && x != y ensures b.addr[x] != b.addr[y] {
      LaterMeansRead(b, k, x, y);
      LaterMeansRead(b, k, y, x);
    }
    forall x, y | x in k && y in k && x !in c && y !in c && x != y ensures b.addr[x] != b.addr[y] {
      assert !Earlier(b, k, x, y) && !Earlier(b, k, y, x);
    }
  }

  lemma LaterMeansRead(b: Bus, k: set<int>, x: int, late: int)
    requires WellFormed(b) && x in k && late in k && x in b.time && late in b.time
    ensures Earlier(b, k, x, late) ==> x in ChainOf(b, k).Values
  {
    if Earlier(b, k, x, late) {
      var c := ChainOf(b, k);
      var n := NextExists(b, k, x, late);
      PreviousUnique(b, k, x, c[n], n);
      ValueOf(c, n);
    }
  }

  lemma ChainInjective(b: Bus, k: set<int>, x: int, y: int)
    requires WellFormed(b) && x in ChainOf(b, k) && y in ChainOf(b, k) && x != y
    ensures ChainOf(b, k)[x] != ChainOf(b, k)[y]
  {
    var first, late := if b.time[x] < b.time[y] then x else y, if b.time[x] < b.time[y] then y else x;
    if b.addr[x] == b.addr[y] {
      assert Earlier(b, k, first, late);
    }
  }

  /** The cell of `x` lies inside `k` and is the same in both buses: whatever else meets in `d`. */
  ghost predicate SameCell(b: Bus, all: set<int>, d: Bus, k: set<int>, x: int) {
    && WellFormed(b) && WellFormed(d) && d.time == b.time && k <= all <= b.time.Keys && x in k
    && (forall y :: y in all && b.addr[y] == b.addr[x] ==> y in k)
    && (forall y :: y in k ==> (d.addr[y] == d.addr[x] <==> b.addr[y] == b.addr[x]))
  }

  /** Restriction: where the whole cell of `x` lies inside `k`, the chain of `k` reads what any routing of the
      full bus reads, also when the other accesses of `k` are put elsewhere. */
  lemma RestrictionAgrees(b: Bus, all: set<int>, src: map<int, int>, d: Bus, k: set<int>, x: int)
    requires SameCell(b, all, d, k, x) && Routes(b, all, src)
    ensures x in ChainOf(d, k) <==> x in src
    ensures x in src ==> ChainOf(d, k)[x] == src[x]
    ensures x in ChainOf(d, k).Values <==> x in src.Values
  {
    var c := ChainOf(d, k);
    ReaderAgrees(b, all, src, d, k, x, x);
    if x in src.Values {
      var z := KeyOf(src, x);
      assert Earlier(b, all, x, z);
      ReaderAgrees(b, all, src, d, k, x, z);
      assert c[z] == x;
    }
    if x in c.Values {
      var z := KeyOf(c, x);
      assert Earlier(d, k, x, z);
      ReaderAgrees(b, all, src, d, k, x, z);
      assert src[z] == x;
    }
  }

  lemma ReaderAgrees(b: Bus, all: set<int>, src: map<int, int>, d: Bus, k: set<int>, x: int, z: int)
    requires SameCell(b, all, d, k, x) && Routes(b, all, src)
    requires z in all && b.addr[z] == b.addr[x]
    ensures z in k
    ensures z in ChainOf(d, k) <==> z in src
    ensures z in src ==> ChainOf(d, k)[z] == src[z]
  {
    RoutingIsChain(b, all, src, z);
    SameEarlier(b, all, d, k, x, z);
    if z in src {
      PreviousUnique(d, k, ChainOf(d, k)[z], src[z], z);
    }
  }

  lemma SameEarlier(b: Bus, all: set<int>, d: Bus, k: set<int>, x: int, z: int)
    requires SameCell(b, all, d, k, x) && z in all && b.addr[z] == b.addr[x]
    ensures HasEarlier(d, k, z) <==> HasEarlier(b, all, z)
    ensures forall y :: Previous(d, k, y, z) <==> Previous(b, all, y, z)
  {
    forall y ensures Earlier(d, k, y, z) <==> Earlier(b, all, y, z) {
    }
    if HasEarlier(b, all, z) {
      var y :| Earlier(b, all, y, z);
      assert Earlier(d, k, y, z);
    }
    if HasEarlier(d, k, z) {
      var y :| Earlier(d, k, y, z);
      assert Earlier(b, all, y, z);
    }
  }

  lemma {:induction false} InjectiveSize(src: map<int, int>)
    requires forall x, y :: x in src && y in src && x != y ==> src[x] != src[y]
    ensures |src.Keys| == |src.Values|
  {
    if src != map[] {
      var x := Pick(src.Keys);
      var rest := map y | y in src && y != x :: src[y];
      InjectiveSize(rest);
      assert src.Keys == rest.Keys + {x};
      assert src.Values == rest.Values + {src[x]} by {
        forall v | v in src.Values ensures v in rest.Values + {src[x]} {
          var y :| y in src && src[y] == v;
          if y != x { assert y in rest && rest[y] == v; }
        }
        forall v | v in rest.Values ensures v in src.Values {
          var y :| y in rest && rest[y] == v;
          assert src[y] == v;
        }
        assert src[x] in src.Values;
      }
      assert src[x] !in rest.Values;
    } else {
      assert src.Keys == {} && src.Values == {};
    }
  }
}
