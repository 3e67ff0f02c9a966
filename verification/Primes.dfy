/** Prime moduli: inverses by the extended Euclidean algorithm, and no zero divisors. */
module Primes {
  import opened Residues

  ghost predicate Prime(p: int) {
    p > 1 && forall d :: 1 < d < p ==> p % d != 0
  }

  datatype Bezout = Bezout(g: int, x: int, y: int)

  predicate Divides(d: int, a: int) {
    d > 0 && a % d == 0
  }

  lemma DividesCombination(d: int, a: int, b: int, x: int, y: int)
    requires Divides(d, a) && Divides(d, b)
    ensures Divides(d, a * x + b * y)
  {
    Division(a, d);
    Division(b, d);
    var q := (a / d) * x + (b / d) * y;
    assert a * x + b * y == d * q by {
      assert d * q == d * ((a / d) * x) + d * ((b / d) * y);
      assert d * ((a / d) * x) == a * x;
      assert d * ((b / d) * y) == b * y;
    }
    MultipleVanishes(d, q);
  }

  /** The extended Euclidean algorithm. */
  function ExtGcd(a: int, b: int): (r: Bezout)
    requires a >= 0 && b >= 0 && (a > 0 || b > 0)
    ensures r.g > 0 && a * r.x + b * r.y == r.g && Divides(r.g, a) && Divides(r.g, b)
    decreases b
  {
    if b == 0 then
      MultipleVanishes(a, 1);
      MultipleVanishes(a, 0);
      Bezout(a, 1, 0)
    else
      Division(a, b);
      var r := ExtGcd(b, a % b);
      GcdStep(a, b, r);
      Bezout(r.g, r.y, r.x - (a / b) * r.y)
  }

  lemma GcdStep(a: int, b: int, r: Bezout)
    requires b > 0 && b * r.x + (a % b) * r.y == r.g && Divides(r.g, b) && Divides(r.g, a % b)
    ensures a * r.y + b * (r.x - (a / b) * r.y) == r.g && Divides(r.g, a)
  {
    Division(a, b);
    var q := a / b;
    assert a * r.y == (b * q + a % b) * r.y == b * q * r.y + (a % b) * r.y;
    assert b * (r.x - q * r.y) == b * r.x - b * (q * r.y);
    assert b * q * r.y == b * (q * r.y);
    DividesCombination(r.g, b, a % b, q, 1);
    assert b * q + (a % b) * 1 == a;
  }

  /** The inverse of a nonzero residue, as `pow(a, -1, p)`. */
  function Inverse(a: int, p: int): (d: int)
    requires p > 1
    ensures 0 <= d < p
  {
    ExtGcd(a % p, p).x % p
  }

  lemma InverseIsInverse(a: int, p: int)
    requires Prime(p) && a % p != 0
    ensures (a * Inverse(a, p)) % p == 1 && Inverse(a, p) > 0
  {
    var r := ExtGcd(a % p, p);
    GcdIsOne(a % p, p, r.g);
    var d := Inverse(a, p);
    assert (a % p) * r.x == 1 + p * -r.y by {
      assert p * -r.y == -(p * r.y);
    }
    CongShift(1, p, -r.y);
    Small(1, p);
    ResidueIdempotent(a, p);
    ResidueIdempotent(r.x, p);
    CongMul(a, a % p, d, r.x, p);
    Small(0, p);
    assert a * 0 == 0;
  }

  lemma GcdIsOne(a: int, p: int, g: int)
    requires Prime(p) && 0 < a < p && Divides(g, a) && Divides(g, p)
    ensures g == 1
  {
    Division(a, g);
    PositiveFactor(g, a / g);
    assert g <= a;
  }

  lemma PositiveFactor(g: int, q: int)
    requires g > 0
    ensures q <= 0 ==> g * q <= 0
    ensures q >= 1 ==> g * q >= g
  {
  }

  /** A prime modulus has no zero divisors. */
  lemma NoZeroDivisors(a: int, b: int, p: int)
    requires Prime(p) && (a * b) % p == 0
    ensures a % p == 0 || b % p == 0
  {
    if a % p != 0 {
      var d := Inverse(a, p);
      InverseIsInverse(a, p);
      // b == (d * a) * b == d * (a * b) == 0
      Small(1, p);
      assert (d * a) % p == 1 by { assert d * a == a * d; }
      CongMul(d * a, 1, b, b, p);
      Small(0, p);
      CongMulLeft(a * b, 0, d, p);
      assert d * a * b == d * (a * b);
      assert 1 * b == b && d * 0 == 0;
    }
  }

  /** Multiplying by a nonzero residue loses no solution. */
  lemma CancelLeft(c: int, a: int, b: int, p: int)
    requires Prime(p) && c % p != 0 && (c * a) % p == (c * b) % p
    ensures a % p == b % p
  {
    CongIff(c * a, c * b, p);
    assert c * a - c * b == c * (a - b);
    NoZeroDivisors(c, a - b, p);
    CongIff(a, b, p);
  }

  lemma InverseCong(c: int, p: int)
    requires Prime(p) && c % p != 0
    ensures Cong(Inverse(c, p) * c, 1, p)
  {
    hide Inverse;
    InverseIsInverse(c, p);
    Commute(c, Inverse(c, p));
    Small(1, p);
  }

  lemma Commute(a: int, b: int)
    ensures a * b == b * a
  {
  }

  lemma Regroup(s: int, t: int, c: int)
    ensures s * (t * c) == t * (s * c)
  {
  }

  /** A unit has one inverse below `p`. */
  lemma InverseUnique(c: int, s: int, t: int, p: int)
    requires p > 1 && 0 < s < p && 0 < t < p && Cong(s * c, 1, p) && Cong(t * c, 1, p)
    ensures s == t
  {
    var x, y := s * c, t * c;
    CongMulLeft(y, 1, s, p);
    CongMulLeft(x, 1, t, p);
    Regroup(s, t, c);
    CongClose(s, t, p);
  }
}
