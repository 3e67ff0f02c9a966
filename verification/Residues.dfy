/** Integer residues modulo `p`. */
module Residues {

  lemma SmallMultiple(p: int, t: int)
    requires p > 0
    ensures t != 0 ==> p * t >= p || p * t <= -p
  {
    if t >= 1 {
      assert p * t >= p * 1;
    } else if t <= -1 {
      assert p * t <= p * -1;
    }
  }

  lemma Division(x: int, p: int)
    requires p > 0
    ensures x == p * (x / p) + x % p && 0 <= x % p < p
  {
  }

  /** Quotient and remainder are unique. */
  lemma ModUnique(x: int, p: int, q: int, r: int)
    requires p > 0 && x == p * q + r && 0 <= r < p
    ensures x % p == r && x / p == q
  {
    Division(x, p);
    assert p * (q - x / p) == x % p - r by {
      assert p * (q - x / p) == p * q - p * (x / p);
    }
    SmallMultiple(p, q - x / p);
  }

  lemma MultipleVanishes(p: int, q: int)
    requires p > 0
    ensures (p * q) % p == 0
  {
    ModUnique(p * q, p, q, 0);
  }

  lemma Small(x: int, p: int)
    requires 0 <= x < p
    ensures x % p == x
  {
    ModUnique(x, p, 0, x);
  }

  /** Congruence, both ways. */
  lemma CongIff(a: int, b: int, p: int)
    requires p > 0
    ensures a % p == b % p <==> (a - b) % p == 0
  {
    Division(a, p);
    Division(b, p);
    if a % p == b % p {
      assert a - b == p * (a / p - b / p) by {
        assert p * (a / p - b / p) == p * (a / p) - p * (b / p);
      }
      MultipleVanishes(p, a / p - b / p);
    }
    if (a - b) % p == 0 {
      Division(a - b, p);
      var q := (a - b) / p;
      assert a == p * (b / p + q) + b % p by {
        assert p * (b / p + q) == p * (b / p) + p * q;
      }
      ModUnique(a, p, b / p + q, b % p);
    }
  }

  /** A congruence gives an exact multiple. */
  lemma CongWitness(a: int, b: int, p: int) returns (q: int)
    requires p > 0 && a % p == b % p
    ensures a == b + p * q
  {
    Division(a, p);
    Division(b, p);
    q := a / p - b / p;
    assert p * q == p * (a / p) - p * (b / p);
  }

  lemma CongShift(a: int, p: int, q: int)
    requires p > 0
    ensures (a + p * q) % p == a % p
  {
    Division(a, p);
    assert a + p * q == p * (a / p + q) + a % p by {
      assert p * (a / p + q) == p * (a / p) + p * q;
    }
    ModUnique(a + p * q, p, a / p + q, a % p);
  }

  lemma ModAdd(a: int, b: int, p: int)
    requires p > 0
    ensures (a + b) % p == (a % p + b % p) % p
  {
    Division(a, p);
    Division(b, p);
    assert a + b == (a % p + b % p) + p * (a / p + b / p) by {
      assert p * (a / p + b / p) == p * (a / p) + p * (b / p);
    }
    CongShift(a % p + b % p, p, a / p + b / p);
  }

  /** Congruent numbers stay congruent under addition. */
  lemma CongAdd(a: int, b: int, c: int, d: int, p: int)
    requires p > 0 && a % p == b % p && c % p == d % p
    ensures (a + c) % p == (b + d) % p
  {
    ModAdd(a, c, p);
    ModAdd(b, d, p);
  }

  lemma CongMulLeft(a: int, b: int, c: int, p: int)
    requires p > 0 && a % p == b % p
    ensures (c * a) % p == (c * b) % p && (a * c) % p == (b * c) % p
  {
    var q := CongWitness(a, b, p);
    assert c * a == c * b + p * (c * q) by {
      assert c * a == c * (b + p * q) == c * b + c * (p * q);
    }
    CongShift(c * b, p, c * q);
  }

  /** Congruent numbers stay congruent under multiplication. */
  lemma CongMul(a: int, b: int, c: int, d: int, p: int)
    requires p > 0 && a % p == b % p && c % p == d % p
    ensures (a * c) % p == (b * d) % p
  {
    CongMulLeft(a, b, c, p);
    CongMulLeft(c, d, b, p);
  }

  lemma CongNeg(a: int, b: int, p: int)
    requires p > 0 && a % p == b % p
    ensures (-a) % p == (-b) % p
  {
    CongMulLeft(a, b, -1, p);
    assert -1 * a == -a && -1 * b == -b;
  }

  lemma ResidueIdempotent(a: int, p: int)
    requires p > 0
    ensures (a % p) % p == a % p
  {
    Small(a % p, p);
  }

  // ---- Congruence ----

  ghost predicate Cong(a: int, b: int, p: int)
    requires p > 0
  {
    a % p == b % p
  }

  lemma Refl(a: int, p: int)
    requires p > 0
    ensures Cong(a, a, p)
  {
  }

  lemma Sym(a: int, b: int, p: int)
    requires p > 0 && Cong(a, b, p)
    ensures Cong(b, a, p)
  {
  }

  lemma Trans(a: int, b: int, c: int, p: int)
    requires p > 0 && Cong(a, b, p) && Cong(b, c, p)
    ensures Cong(a, c, p)
  {
  }

  lemma AddCong(a: int, b: int, c: int, d: int, p: int)
    requires p > 0 && Cong(a, b, p) && Cong(c, d, p)
    ensures Cong(a + c, b + d, p)
  {
    CongAdd(a, b, c, d, p);
  }

  lemma NegCong(a: int, b: int, p: int)
    requires p > 0 && Cong(a, b, p)
    ensures Cong(-a, -b, p)
  {
    CongNeg(a, b, p);
  }

  lemma SubCong(a: int, b: int, c: int, d: int, p: int)
    requires p > 0 && Cong(a, b, p) && Cong(c, d, p)
    ensures Cong(a - c, b - d, p)
  {
    NegCong(c, d, p);
    AddCong(a, b, -c, -d, p);
  }

  lemma MulCong(a: int, b: int, c: int, d: int, p: int)
    requires p > 0 && Cong(a, b, p) && Cong(c, d, p)
    ensures Cong(a * c, b * d, p)
  {
    CongMul(a, b, c, d, p);
  }

  lemma ScaleCong(c: int, a: int, b: int, p: int)
    requires p > 0 && Cong(a, b, p)
    ensures Cong(c * a, c * b, p)
  {
    CongMulLeft(a, b, c, p);
  }

  lemma ResidueCong(a: int, p: int)
    requires p > 0
    ensures Cong(a % p, a, p)
  {
    ResidueIdempotent(a, p);
  }

  /** Congruent numbers less than `p` apart are equal. */
  lemma CongClose(a: int, b: int, p: int)
    requires p > 0 && Cong(a, b, p) && -p < a - b < p
    ensures a == b
  {
    var q := CongWitness(a, b, p);
    SmallMultiple(p, q);
  }
}
