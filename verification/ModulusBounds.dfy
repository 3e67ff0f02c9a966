/** When a bound on a scaled residue bounds the residue in the field. */
module ModulusBounds {
  import opened Residues
  import opened Primes
  import FG = FieldGadgets

  function Abs(q: int): nat {
    if q < 0 then -q else q
  }

  lemma ModAbs(x: int, q: int)
    requires q != 0
    ensures x % q == x % Abs(q)
  {
    if q < 0 {
      assert x == q * (x / q) + x % q;
      assert q * (x / q) == -q * -(x / q);
      ModUnique(x, -q, -(x / q), x % q);
    }
  }

  /** The field's prime divides the modulus, nothing is below the limit, or the bound says nothing. */
  predicate RightModulus(q: int, p: int, hi: int, b: int)
    requires p > 0
  {
    b == p - 1 || (q != 0 && (hi < 0 || q % p == 0))
  }

  /** A residue modulo a multiple of `p` has the same residue modulo `p`. */
  lemma ResidueTwice(x: int, q: int, p: int)
    requires p > 0 && q > 0 && q % p == 0
    ensures (x % q) % p == x % p
  {
    Division(x, q);
    Division(q, p);
    assert q * (x / q) == p * ((q / p) * (x / q)) by {
      assert p * (q / p) * (x / q) == p * ((q / p) * (x / q));
    }
    CongShift(x % q, p, (q / p) * (x / q));
  }

  lemma ScaledHolds(a: int, v: int, q: int, hi: int, p: int)
    requires Prime(p) && a % p != 0 && q != 0 && q % p == 0
    requires (a * v) % q <= hi && Inverse(a % p, p) * hi < p
    ensures v % p <= Inverse(a % p, p) * hi
  {
    var n, r := Abs(q), (a * v) % q;
    ModAbs(a * v, q);
    if q < 0 {
      Division(q, p);
      assert n == p * -(q / p);
      MultipleVanishes(p, -(q / p));
    }
    ResidueTwice(a * v, n, p);
    Division(r, p);
    SmallMultiple(p, r / p);
    ResidueIdempotent(a, p);
    ResidueIdempotent(v, p);
    CongMul(a, a % p, v, v % p, p);
    FG.ScaledBound(a % p, v % p, hi, p);
  }

  lemma MultipleOf(q: int, t: int)
    requires q != 0
    ensures (q * t) % q == 0
  {
    ModAbs(q * t, q);
    if q < 0 {
      assert q * t == -q * -t;
      MultipleVanishes(-q, -t);
    } else {
      MultipleVanishes(q, t);
    }
  }

  lemma Regroup(a: int, q: int, d: int)
    ensures a * (q * -d) == q * (a * -d) && q * -d == -(q * d)
  {
  }

  /** Any other modulus takes the largest residue of the field to zero. */
  lemma ScaledEscapes(a: int, q: int, p: int) returns (v: int)
    requires Prime(p) && q != 0 && q % p != 0
    ensures (a * v) % q == 0 && v % p == p - 1
  {
    var d := Inverse(q, p);
    v := q * -d;
    InverseIsInverse(q, p);
    Regroup(a, q, d);
    MultipleOf(q, a * -d);
    Small(1, p);
    CongNeg(q * d, 1, p);
    ModUnique(-1, p, -1, p - 1);
  }
}
