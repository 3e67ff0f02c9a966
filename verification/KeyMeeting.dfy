/** When two keys of one base can address one cell. */
module KeyMeeting {
  import opened Residues
  import opened Primes
  import opened MemoryWorlds

  predicate SameBase(k: Key, l: Key) {
    k.BaseOffset? && l.BaseOffset? && k.base == l.base
  }

  /** The modulus of an address; an exact one counts as zero. */
  function ModulusOf(k: Key): nat {
    if k.BaseOffset? && k.mod.Some? && k.mod.value > 0 then k.mod.value else 0
  }

  /** The offsets are congruent modulo the greatest common divisor of the moduli. */
  predicate OffsetsMeet(k: Key, l: Key)
    requires SameBase(k, l)
  {
    var m, n := ModulusOf(k), ModulusOf(l);
    if m == 0 && n == 0 then k.offset == l.offset else (k.offset - l.offset) % ExtGcd(m, n).g == 0
  }

  /** The keys may address one cell, yet their pointer expressions never meet. */
  predicate Confusable(k: Key, l: Key) {
    SameBase(k, l) && k.mod != l.mod && k.offset != l.offset && OffsetsMeet(k, l)
  }

  lemma AddressOf(k: Key, p: int, b: int, q: int)
    requires p > 0 && k.BaseOffset? && CanonicalKey(k, p)
    ensures Addresses(k, p, b, b + k.offset + ModulusOf(k) * q)
  {
    if k.mod.Some? {
      assert b + k.offset + ModulusOf(k) * q == b + k.offset + k.mod.value * q;
    }
  }

  lemma AddressIs(k: Key, p: int, b: int, a: int) returns (q: int)
    requires p > 0 && k.BaseOffset? && CanonicalKey(k, p) && Addresses(k, p, b, a)
    ensures a == b + k.offset + ModulusOf(k) * q
  {
    q := 0;
    if k.mod.Some? {
      q :| a == b + k.offset + k.mod.value * q;
    }
  }

  /** A common address exists exactly when the offsets are congruent modulo the common divisor. */
  lemma MeetsExactly(k: Key, l: Key, p: int, b: int)
    requires p > 0 && SameBase(k, l) && CanonicalKey(k, p) && CanonicalKey(l, p)
    ensures (exists a :: Addresses(k, p, b, a) && Addresses(l, p, b, a)) <==> OffsetsMeet(k, l)
  {
    if a :| Addresses(k, p, b, a) && Addresses(l, p, b, a) {
      CommonMeets(k, l, p, b, a);
    }
    if OffsetsMeet(k, l) {
      var a := CommonAddress(k, l, p, b);
    }
  }

  lemma CommonMeets(k: Key, l: Key, p: int, b: int, a: int)
    requires p > 0 && SameBase(k, l) && CanonicalKey(k, p) && CanonicalKey(l, p)
    requires Addresses(k, p, b, a) && Addresses(l, p, b, a)
    ensures OffsetsMeet(k, l)
  {
    var m, n := ModulusOf(k), ModulusOf(l);
    var q := AddressIs(k, p, b, a);
    var r := AddressIs(l, p, b, a);
    if m > 0 || n > 0 {
      DividesCombination(ExtGcd(m, n).g, m, n, -q, r);
      assert k.offset - l.offset == m * -q + n * r;
    }
  }

  lemma CommonAddress(k: Key, l: Key, p: int, b: int) returns (a: int)
    requires p > 0 && SameBase(k, l) && CanonicalKey(k, p) && CanonicalKey(l, p) && OffsetsMeet(k, l)
    ensures Addresses(k, p, b, a) && Addresses(l, p, b, a)
  {
    var m, n := ModulusOf(k), ModulusOf(l);
    a := b + k.offset;
    if m > 0 || n > 0 {
      var d := k.offset - l.offset;
      var g := ExtGcd(m, n);
      var t := d / g.g;
      Division(d, g.g);
      Scaled(m, n, g.x, g.y, g.g, t);
      a := b + k.offset + m * -(g.x * t);
      AddressOf(k, p, b, -(g.x * t));
      AddressOf(l, p, b, g.y * t);
      assert a == b + l.offset + n * (g.y * t);
    } else {
      AddressOf(k, p, b, 0);
      AddressOf(l, p, b, 0);
    }
  }

  lemma Scaled(m: int, n: int, x: int, y: int, g: int, t: int)
    requires m * x + n * y == g
    ensures g * t == m * (x * t) + n * (y * t)
    ensures m * -(x * t) == -(m * (x * t))
  {
    assert g * t == (m * x) * t + (n * y) * t;
    assert (m * x) * t == m * (x * t) && (n * y) * t == n * (y * t);
  }

  /** No values of the bases give both keys one address. */
  ghost predicate NeverMeet(k: Key, l: Key, p: int)
    requires p > 0
  {
    forall bases: map<string, int>, a :: !(Addresses(k, p, BaseValue(k, bases), a) && Addresses(l, p, BaseValue(l, bases), a))
  }

  /** Keys count as provably disjoint exactly when they are constants, or offsets under one base and one modulus, and
      never meet. */
  lemma DisjointExactly(k: Key, l: Key, p: int)
    requires p > 0 && CanonicalKey(k, p) && CanonicalKey(l, p)
    ensures ProvablyDisjoint(k, l) <==> ((k.Const? && l.Const?) || (SameBase(k, l) && k.mod == l.mod)) && NeverMeet(k, l, p)
  {
    if ProvablyDisjoint(k, l) {
      forall bases: map<string, int>, a | Addresses(k, p, BaseValue(k, bases), a) ensures !Addresses(l, p, BaseValue(l, bases), a) {
        if Addresses(l, p, BaseValue(l, bases), a) {
          DisjointIsSound(k, l, p, bases, a, a);
        }
      }
    } else if (k.Const? && l.Const?) || (SameBase(k, l) && k.mod == l.mod) {
      var bases: map<string, int> := map[];
      if k.Const? {
        assert Addresses(k, p, BaseValue(k, bases), k.value % p);
      } else {
        AddressOf(k, p, 0, 0);
        AddressOf(l, p, 0, 0);
        assert Addresses(k, p, BaseValue(k, bases), k.offset);
      }
    }
  }

  /** With one base and one modulus, different keys never meet. */
  lemma OneModulusNeverMeets(k: Key, l: Key, p: int)
    requires p > 0 && SameBase(k, l) && CanonicalKey(k, p) && CanonicalKey(l, p) && k.mod == l.mod && k != l
    ensures !OffsetsMeet(k, l)
  {
    if OffsetsMeet(k, l) {
      var a := CommonAddress(k, l, p, 0);
      var bases: map<string, int> := map[];
      DisjointIsSound(k, l, p, bases, a, a);
    }
  }
}
