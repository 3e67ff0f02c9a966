/** Packed pointer equalities: when they split into equalities of the limbs. */
module InterfacePointer {
  import opened Wrappers
  import opened Sets
  import opened Residues
  import opened Primes
  import opened Smt
  import opened Connectives
  import opened Sums
  import opened LinearTerms
  import RI = RangeInference
  import opened ModulusBounds

  const LIMB_BASE: int := 65536

  /** The value of a column in the field. */
  function FieldValue(x: string, m: Model, p: int): (v: int)
    requires p > 0
    ensures 0 <= v < p
  {
    IntOf(Sym(x), m) % p
  }

  // ---- Bounds of a symbol ----

  /** The scale of a check `c * x mod p`, when the key is one. */
  function ScaleOf(key: Node, x: string, p: int): Option<int>
    requires p > 0
  {
    if !(key.App? && key.op.ModOp? && |key.args| == 2) then None
    else
      match LinearForm(key.args[0])
      case None => None
      case Some(lf) =>
        if lf.constant != 0 || |lf.terms| != 1 || lf.terms[0].name != x || lf.terms[0].coeff % p == 0 then None
        else Some(lf.terms[0].coeff % p)
  }

  function DirectBound(bounds: map<Node, int>, x: string, p: int): Option<int> {
    if RI.Wrap(Sym(x), p) in bounds then Some(bounds[RI.Wrap(Sym(x), p)])
    else if Sym(x) in bounds then Some(bounds[Sym(x)])
    else None
  }

  function ScaledCandidate(bounds: map<Node, int>, key: Node, x: string, p: int): Option<int>
    requires p > 1 && key in bounds
  {
    match ScaleOf(key, x, p)
    case None => None
    case Some(c) => if Inverse(c, p) * bounds[key] < p then Some(Inverse(c, p) * bounds[key]) else None
  }

  /** `b` is the direct bound or comes from a scaled check. */
  predicate IsCandidate(bounds: map<Node, int>, x: string, p: int, b: int)
    requires p > 1
  {
    DirectBound(bounds, x, p) == Some(b) || exists key :: key in bounds && ScaledCandidate(bounds, key, x, p) == Some(b)
  }

  /** The least candidate. */
  method BoundOf(bounds: map<Node, int>, x: string, p: int) returns (best: Option<int>)
    requires p > 1
    ensures best.Some? ==> IsCandidate(bounds, x, p, best.value)
    ensures forall b :: IsCandidate(bounds, x, p, b) ==> best.Some? && best.value <= b
  {
    hide ScaledCandidate;
    best := DirectBound(bounds, x, p);
    var todo := bounds.Keys;
    while todo != {}
      invariant todo <= bounds.Keys
      invariant best.Some? ==> IsCandidate(bounds, x, p, best.value)
      invariant DirectBound(bounds, x, p).Some? ==> best.Some? && best.value <= DirectBound(bounds, x, p).value
      invariant forall key :: key in bounds.Keys - todo && ScaledCandidate(bounds, key, x, p).Some? ==>
        best.Some? && best.value <= ScaledCandidate(bounds, key, x, p).value
      decreases todo
    {
      var key := AnyOf(todo);
      todo := todo - {key};
      var b := ScaledCandidate(bounds, key, x, p);
      if b.Some? && (best.None? || b.value < best.value) {
        best := b;
      }
    }
  }

  /** The key is a check `(c * x) mod n` with `c` a unit of inverse `s`, and its limit times `s` is `b`, below the prime. */
  ghost predicate ScaledBy(bounds: map<Node, int>, key: Node, x: string, p: int, b: int, c: int, s: int)
    requires p > 1
  {
    && key in bounds && key.App? && key.op.ModOp? && |key.args| == 2 && LinearForm(key.args[0]) == Some(Linear([Term(x, c)], 0))
    && 0 < s < p && Cong(s * c, 1, p) && b == s * bounds[key] < p
  }

  ghost predicate ScaledKey(bounds: map<Node, int>, key: Node, x: string, p: int, b: int)
    requires p > 1
  {
    exists c, s :: ScaledBy(bounds, key, x, p, b, c, s)
  }

  lemma ScaledCandidateExactly(bounds: map<Node, int>, key: Node, x: string, p: int, b: int)
    requires Prime(p) && key in bounds
    ensures ScaledCandidate(bounds, key, x, p) == Some(b) <==> ScaledKey(bounds, key, x, p, b)
  {
    hide LinearForm, Inverse, Cong;
    if key.App? && key.op.ModOp? && |key.args| == 2 {
      var lf := LinearForm(key.args[0]);
      if lf.Some? && lf.value.constant == 0 && |lf.value.terms| == 1 && lf.value.terms[0].name == x {
        var c := lf.value.terms[0].coeff;
        assert lf.value.terms == [Term(x, c)];
        assert lf == Some(Linear([Term(x, c)], 0));
        UnitsInvert(c, p);
        if c % p != 0 {
          ReducedInverse(c, p);
          InverseIsInverse(c, p);
          assert ScaledBy(bounds, key, x, p, b, c, Inverse(c, p)) <==> Inverse(c, p) * bounds[key] == b < p;
        }
      }
    }
  }

  /** Units are the numbers with an inverse below the prime, and have only one. */
  lemma UnitsInvert(c: int, p: int)
    requires Prime(p)
    ensures c % p != 0 ==> forall s :: 0 < s < p && Cong(s * c, 1, p) <==> s == Inverse(c, p)
    ensures c % p == 0 ==> forall s :: !Cong(s * c, 1, p)
  {
    hide Inverse;
    if c % p != 0 {
      InverseIsInverse(c, p);
      InverseCong(c, p);
      forall s | 0 < s < p && Cong(s * c, 1, p) ensures s == Inverse(c, p) {
        InverseUnique(c, s, Inverse(c, p), p);
      }
    } else {
      Small(1, p);
      forall s ensures !Cong(s * c, 1, p) {
        Small(0, p);
        CongMulLeft(c, 0, s, p);
      }
    }
  }

  lemma ReducedInverse(c: int, p: int)
    requires Prime(p) && c % p != 0
    ensures Inverse(c % p, p) == Inverse(c, p)
  {
    ResidueIdempotent(c, p);
  }

  /** A bound is a candidate exactly when it is that of the residue, or that of the symbol where the residue has none, or
      read off a scaled check. */
  lemma CandidateExactly(bounds: map<Node, int>, x: string, p: int, b: int)
    requires Prime(p)
    ensures IsCandidate(bounds, x, p, b) <==>
      var residue := App(ModOp, [Sym(x), IntConst(p)]);
      || (residue in bounds && bounds[residue] == b)
      || (residue !in bounds && Sym(x) in bounds && bounds[Sym(x)] == b)
      || exists key :: ScaledKey(bounds, key, x, p, b)
  {
    hide ScaledCandidate;
    forall key | key in bounds ensures ScaledCandidate(bounds, key, x, p) == Some(b) <==> ScaledKey(bounds, key, x, p, b) {
      ScaledCandidateExactly(bounds, key, x, p, b);
    }
  }

  /** The bound read off the key is right: its modulus is a multiple of the field's prime, or nothing depends on it. */
  ghost predicate RightKey(key: Node, hi: int, p: int, b: int)
    requires p > 0 && key.App? && |key.args| == 2
  {
    b == p - 1 || (key.args[1].IntConst? && RightModulus(key.args[1].i, p, hi, b))
  }

  /** Every scaled check that gives a bound gives a right one. */
  ghost predicate FieldKeys(bounds: map<Node, int>, p: int)
    requires p > 1
  {
    forall key, x :: key in bounds && ScaledCandidate(bounds, key, x, p).Some? ==>
      RightKey(key, bounds[key], p, ScaledCandidate(bounds, key, x, p).value)
  }

  /** Symbols bounded without their wrapped form are non-negative. */
  ghost predicate BareNonNegative(bounds: map<Node, int>, p: int, m: Model) {
    forall x :: Sym(x) in bounds && RI.Wrap(Sym(x), p) !in bounds ==> IntOf(Sym(x), m) >= 0
  }

  ghost predicate BoundsModel(bounds: map<Node, int>, p: int, m: Model)
    requires p > 1
  {
    RI.BoundsHold(bounds, m) && FieldKeys(bounds, p) && BareNonNegative(bounds, p, m)
  }

  function Coefficient(key: Node, x: string, p: int): int
    requires p > 0 && ScaleOf(key, x, p).Some?
  {
    LinearForm(key.args[0]).value.terms[0].coeff
  }

  /** The value of a scaled check's argument. */
  lemma ScaleValue(key: Node, x: string, p: int, m: Model)
    requires p > 0 && ScaleOf(key, x, p).Some?
    ensures Coefficient(key, x, p) % p == ScaleOf(key, x, p).value != 0
    ensures IntOf(key.args[0], m) == Coefficient(key, x, p) * IntOf(Sym(x), m)
  {
    var lf := LinearForm(key.args[0]).value;
    LinearFormValue(key.args[0], m);
    SnocValue([], lf.terms[0], Values(m));
    assert lf.terms == [] + [lf.terms[0]];
  }

  lemma KeyValue(key: Node, m: Model)
    requires key.App? && key.op.ModOp? && |key.args| == 2
    ensures IntOf(key.args[1], m) != 0 ==> IntOf(key, m) == IntOf(key.args[0], m) % IntOf(key.args[1], m)
    ensures IntOf(key.args[1], m) == 0 ==> IntOf(key, m) == m.modZero(IntOf(key.args[0], m))
  {
    assert key.args == [key.args[0], key.args[1]];
    PairMeans(ModOp, key.args[0], key.args[1], m);
  }

  lemma ScaledCandidateHolds(bounds: map<Node, int>, key: Node, x: string, p: int, m: Model)
    requires Prime(p) && key in bounds && ScaledCandidate(bounds, key, x, p).Some? && IntOf(key, m) <= bounds[key]
    requires RightKey(key, bounds[key], p, ScaledCandidate(bounds, key, x, p).value)
    ensures FieldValue(x, m, p) <= ScaledCandidate(bounds, key, x, p).value
  {
    var a := Coefficient(key, x, p);
    ScaleValue(key, x, p, m);
    KeyValue(key, m);
    ResidueIdempotent(a, p);
    if ScaledCandidate(bounds, key, x, p).value != p - 1 {
      ScaledHolds(a, IntOf(Sym(x), m), key.args[1].i, bounds[key], p);
    }
  }

  /** A model in which the key meets its limit and the column holds the largest residue of the field. */
  lemma WrongKeyEscapes(bounds: map<Node, int>, key: Node, x: string, p: int) returns (m: Model)
    requires Prime(p) && key in bounds && ScaledCandidate(bounds, key, x, p).Some? && key.args[1].IntConst?
    requires !RightKey(key, bounds[key], p, ScaledCandidate(bounds, key, x, p).value)
    ensures IntOf(key, m) <= bounds[key] && FieldValue(x, m, p) == p - 1
  {
    hide LinearForm, Coefficient, Eval;
    var q, v := key.args[1].i, -1;
    if q != 0 {
      v := ScaledEscapes(Coefficient(key, x, p), q, p);
    } else {
      ModUnique(-1, p, -1, p - 1);
    }
    m := Single(x, v, bounds[key]);
    SingleValue(x, v, bounds[key], q);
    ScaleValue(key, x, p, m);
    KeyValue(key, m);
  }

  /** One symbol's value, and the value of everything modulo zero. */
  function Single(x: string, v: int, z: int): Model {
    Model(map[x := IntV(v)], (f, vs) => IntV(0), y => z)
  }

  lemma SingleValue(x: string, v: int, z: int, q: int)
    ensures IntOf(Sym(x), Single(x, v, z)) == v && IntOf(IntConst(q), Single(x, v, z)) == q
    ensures forall y :: Single(x, v, z).modZero(y) == z
  {
  }

  /** Main result on scaled checks: the bound read off a check by a constant modulus holds in every model of the check
      exactly when the modulus is a multiple of the prime, the limit is negative, or the bound is the largest residue. */
  lemma ScaledBoundExactly(bounds: map<Node, int>, key: Node, x: string, p: int)
    requires Prime(p) && key in bounds && ScaledCandidate(bounds, key, x, p).Some? && key.args[1].IntConst?
    ensures (forall m :: IntOf(key, m) <= bounds[key] ==> FieldValue(x, m, p) <= ScaledCandidate(bounds, key, x, p).value)
      <==> RightKey(key, bounds[key], p, ScaledCandidate(bounds, key, x, p).value)
  {
    if RightKey(key, bounds[key], p, ScaledCandidate(bounds, key, x, p).value) {
      forall m | IntOf(key, m) <= bounds[key] ensures FieldValue(x, m, p) <= ScaledCandidate(bounds, key, x, p).value {
        ScaledCandidateHolds(bounds, key, x, p, m);
      }
    } else {
      var m := WrongKeyEscapes(bounds, key, x, p);
    }
  }

  /** Every candidate bounds the column's field value. */
  lemma CandidateHolds(bounds: map<Node, int>, x: string, p: int, b: int, m: Model)
    requires Prime(p) && BoundsModel(bounds, p, m) && IsCandidate(bounds, x, p, b)
    ensures FieldValue(x, m, p) <= b
  {
    hide ScaledCandidate;
    if DirectBound(bounds, x, p) == Some(b) {
      RI.WrapMeans(Sym(x), p, m);
      if RI.Wrap(Sym(x), p) !in bounds {
        RI.ResidueBelow(IntOf(Sym(x), m), p);
      }
    } else {
      var key :| key in bounds && ScaledCandidate(bounds, key, x, p) == Some(b);
      ScaledCandidateHolds(bounds, key, x, p, m);
    }
  }

  /** `t mod 5 <= 2`. */
  const OTHER_MODULUS: Node := App(LeOp, [App(ModOp, [Sym("t"), IntConst(5)]), IntConst(2)])

  /** Read off that constraint, the column is at most two; but seven meets the constraint. */
  method OtherModulusEscapes(simplify: Node -> Node, m: Model, p: int) returns (best: Option<int>)
    requires p > 7 && IntOf(Sym("t"), m) == 7
    ensures Sat([OTHER_MODULUS], m) && best.Some? && best.value <= 2 && FieldValue("t", m, p) == 7
  {
    var key := App(ModOp, [Sym("t"), IntConst(5)]);
    var bounds := RI.VisitAll(simplify, [OTHER_MODULUS], map[]);
    assert bounds == map[key := 2] by {
      assert [OTHER_MODULUS][1..] == [];
      assert bounds == RI.VisitAll(simplify, [], RI.Visit(simplify, OTHER_MODULUS, map[]));
      assert RI.Visit(simplify, OTHER_MODULUS, map[]) == RI.Tighten(map[], key, 2);
    }
    OtherModulusCandidate(bounds, key, p);
    best := BoundOf(bounds, "t", p);
    KeyValue(key, m);
    PairMeans(LeOp, key, IntConst(2), m);
    Small(7, p);
  }

  lemma OtherModulusCandidate(bounds: map<Node, int>, key: Node, p: int)
    requires p > 7 && key == App(ModOp, [Sym("t"), IntConst(5)]) && bounds == map[key := 2]
    ensures IsCandidate(bounds, "t", p, 2)
  {
    Small(1, p);
    assert Bump([], "t", 1) == [Term("t", 1)];
    assert LinearForm(Sym("t")) == Some(Linear([Term("t", 1)], 0));
    InverseOfOne(p);
    assert ScaleOf(key, "t", p) == Some(1);
    assert ScaledCandidate(bounds, key, "t", p) == Some(2);
  }

  lemma InverseOfOne(p: int)
    requires p > 1
    ensures Inverse(1, p) == 1
  {
    Small(1, p);
    Small(0, p);
    assert p % 1 == 0;
    Division(1, p);
    assert ExtGcd(1, 0) == Bezout(1, 1, 0);
    assert ExtGcd(p, 1) == Bezout(1, 0, 1 - (p / 1) * 0);
    assert ExtGcd(1, p) == Bezout(1, 1, 0 - (1 / p) * 1);
  }

  // ---- Packing ----

  /** Proven upper bounds of the two limbs. */
  datatype Box = Box(lo: int, hi: int)

  /** The guard: the low limb is below the base and the packed value below `p`. */
  predicate Fits(b: Box, c: int, p: int) {
    b.lo < LIMB_BASE && b.lo + LIMB_BASE * b.hi + c < p
  }

  predicate Inside(lo: int, hi: int, b: Box) {
    0 <= lo <= b.lo && 0 <= hi <= b.hi
  }

  function Pack(lo: int, hi: int, c: int): int {
    lo + LIMB_BASE * hi + c
  }

  /** All limbs of the box pack below `p` before the offset is added. */
  predicate BelowPrime(b: Box, p: int) {
    b.lo < LIMB_BASE && b.lo + LIMB_BASE * b.hi < p
  }

  /** Packing is injective over boxes below the prime, whatever the offset. */
  lemma PackInjective(a: Box, b: Box, lo: int, hi: int, lo': int, hi': int, c: int, p: int)
    requires p > 0 && BelowPrime(a, p) && BelowPrime(b, p) && Inside(lo, hi, a) && Inside(lo', hi', b)
    requires Cong(Pack(lo, hi, c), Pack(lo', hi', c), p)
    ensures lo == lo' && hi == hi'
  {
    CongClose(Pack(lo, hi, c), Pack(lo', hi', c), p);
  }

  ghost predicate InjectiveOn(a: Box, b: Box, c: int, p: int)
    requires p > 0
  {
    forall lo, hi, lo', hi' | Inside(lo, hi, a) && Inside(lo', hi', b) ::
      Cong(Pack(lo, hi, c), Pack(lo', hi', c), p) ==> lo == lo' && hi == hi'
  }

  /** With a full low limb on both sides, the boxes' being below the prime is the exact condition. */
  lemma FullBoxExact(a: Box, b: Box, c: int, p: int)
    requires p > LIMB_BASE && a.lo == b.lo == LIMB_BASE - 1 && a.hi >= 0 && b.hi >= 0
    ensures InjectiveOn(a, b, c, p) <==> BelowPrime(a, p) && BelowPrime(b, p)
  {
    if BelowPrime(a, p) && BelowPrime(b, p) {
      forall lo, hi, lo', hi' | Inside(lo, hi, a) && Inside(lo', hi', b) && Cong(Pack(lo, hi, c), Pack(lo', hi', c), p)
        ensures lo == lo' && hi == hi'
      {
        PackInjective(a, b, lo, hi, lo', hi', c, p);
      }
    } else {
      Division(p, LIMB_BASE);
      var lo, hi := p % LIMB_BASE, p / LIMB_BASE;
      CongShift(c, p, 1);
      CongShift(c + p, p, -1);
      assert Cong(Pack(0, 0, c), Pack(lo, hi, c), p) && Cong(Pack(lo, hi, c), Pack(0, 0, c), p);
      assert Inside(0, 0, a) && Inside(0, 0, b) && (Inside(lo, hi, a) || Inside(lo, hi, b));
    }
  }

  ghost predicate InjectiveOnBoxes(c: int, p: int)
    requires p > 0
  {
    forall a, b, lo, hi, lo', hi' | Fits(a, c, p) && Fits(b, c, p) && Inside(lo, hi, a) && Inside(lo', hi', b) ::
      Cong(Pack(lo, hi, c), Pack(lo', hi', c), p) ==> lo == lo' && hi == hi'
  }

  /** The guard ensures injectivity exactly for non-negative offsets: with a negative one the limbs of `p` itself pass
      the guard and collide with zero. */
  lemma GuardExact(c: int, p: int)
    requires p > LIMB_BASE
    ensures InjectiveOnBoxes(c, p) <==> c >= 0
  {
    if c >= 0 {
      forall a, b, lo, hi, lo', hi' | Fits(a, c, p) && Fits(b, c, p) && Inside(lo, hi, a) && Inside(lo', hi', b)
        && Cong(Pack(lo, hi, c), Pack(lo', hi', c), p) ensures lo == lo' && hi == hi' {
        PackInjective(a, b, lo, hi, lo', hi', c, p);
      }
    } else {
      Division(p, LIMB_BASE);
      var lo, hi := p % LIMB_BASE, p / LIMB_BASE;
      var b := Box(lo, hi);
      CongShift(c, p, 1);
      assert Fits(b, c, p) && Inside(0, 0, b) && Inside(lo, hi, b);
      assert Cong(Pack(0, 0, c), Pack(lo, hi, c), p);
    }
  }

  // ---- Splitting an equality ----

  datatype Limbs = Limbs(lo: string, hi: string, offset: int)

  /** `lo + LIMB_BASE * hi + offset`. */
  function LimbsOf(e: Node): Option<Limbs> {
    match LinearForm(e)
    case None => None
    case Some(lf) =>
      if |lf.terms| != 2 then None
      else if lf.terms[0].coeff == 1 && lf.terms[1].coeff == LIMB_BASE then Some(Limbs(lf.terms[0].name, lf.terms[1].name, lf.constant))
      else if lf.terms[0].coeff == LIMB_BASE && lf.terms[1].coeff == 1 then Some(Limbs(lf.terms[1].name, lf.terms[0].name, lf.constant))
      else None
  }

  /** The term's form is `lo + 65536 * hi + offset`, in either order. */
  lemma LimbsExactly(e: Node, l: Limbs)
    ensures LimbsOf(e) == Some(l) <==>
      || LinearForm(e) == Some(Linear([Term(l.lo, 1), Term(l.hi, 65536)], l.offset))
      || LinearForm(e) == Some(Linear([Term(l.hi, 65536), Term(l.lo, 1)], l.offset))
  {
    hide LinearForm;
    var lf := LinearForm(e);
    if lf.Some? && |lf.value.terms| == 2 {
      assert lf.value.terms == [lf.value.terms[0], lf.value.terms[1]];
    }
  }

  lemma LimbsValue(e: Node, m: Model)
    requires LimbsOf(e).Some?
    ensures var l := LimbsOf(e).value; IntOf(e, m) == Pack(IntOf(Sym(l.lo), m), IntOf(Sym(l.hi), m), l.offset)
  {
    var lf := LinearForm(e).value;
    LinearFormValue(e, m);
    SnocValue([], lf.terms[0], Values(m));
    SnocValue([lf.terms[0]], lf.terms[1], Values(m));
    assert [] + [lf.terms[0]] == [lf.terms[0]] && lf.terms == [lf.terms[0]] + [lf.terms[1]];
  }

  /** Proven bounds of both limbs. */
  predicate BoxOf(l: Limbs, bounds: map<Node, int>, p: int, b: Box)
    requires p > 1
  {
    IsCandidate(bounds, l.lo, p, b.lo) && IsCandidate(bounds, l.hi, p, b.hi)
  }

  /** Some proven bounds of the limbs lie below the prime. */
  ghost predicate ProvenBelow(l: Limbs, bounds: map<Node, int>, p: int)
    requires p > 1
  {
    exists b :: BoxOf(l, bounds, p, b) && BelowPrime(b, p)
  }

  /** Some proven bounds of the limbs pass the guard. */
  ghost predicate Bounded(l: Limbs, bounds: map<Node, int>, p: int)
    requires p > 1
  {
    exists b :: BoxOf(l, bounds, p, b) && Fits(b, l.offset, p)
  }

  method Parse(e: Node, bounds: map<Node, int>, p: int) returns (r: Option<Limbs>)
    requires Prime(p)
    ensures r.Some? ==> LimbsOf(e) == r
    ensures r.Some? <==> LimbsOf(e).Some? && Bounded(LimbsOf(e).value, bounds, p)
  {
    r := LimbsOf(e);
    if r.None? {
      return;
    }
    var l := r.value;
    var lo := BoundOf(bounds, l.lo, p);
    var hi := BoundOf(bounds, l.hi, p);
    if lo.None? || hi.None? || lo.value >= LIMB_BASE || lo.value + LIMB_BASE * hi.value + l.offset >= p {
      return None;
    }
    assert BoxOf(l, bounds, p, Box(lo.value, hi.value));
  }

  predicate LimbsInside(l: Limbs, b: Box, m: Model, p: int)
    requires p > 0
  {
    Inside(FieldValue(l.lo, m, p), FieldValue(l.hi, m, p), b)
  }

  ghost predicate FieldEq(x: Node, y: Node, m: Model, p: int)
    requires p > 0
  {
    Cong(IntOf(x, m), IntOf(y, m), p)
  }

  /** The limb equalities replacing a packed one; `None` when the shape or the bounds do not justify the split. They imply
      it in every model of both sides' bounds, and are equivalent to it when the offset is not negative or the limbs pack
      below the prime without it. */
  method SplitEquality(x: Node, y: Node, boundsA: map<Node, int>, boundsB: map<Node, int>, p: int) returns (r: Option<(Limbs, Limbs)>)
    requires Prime(p)
    ensures r.Some? ==> LimbsOf(x) == Some(r.value.0) && LimbsOf(y) == Some(r.value.1)
    ensures r.Some? <==>
      && LimbsOf(x).Some? && Bounded(LimbsOf(x).value, boundsA, p)
      && LimbsOf(y).Some? && Bounded(LimbsOf(y).value, boundsB, p)
      && LimbsOf(x).value.offset == LimbsOf(y).value.offset
    ensures r.Some? ==> forall m :: BoundsModel(boundsA, p, m) && BoundsModel(boundsB, p, m) ==>
      (SameLimbs(r.value.0, r.value.1, m, p) ==> FieldEq(x, y, m, p))
      && ((r.value.0.offset >= 0 || (ProvenBelow(r.value.0, boundsA, p) && ProvenBelow(r.value.1, boundsB, p))) ==>
            (FieldEq(x, y, m, p) <==> SameLimbs(r.value.0, r.value.1, m, p)))
  {
    var px := Parse(x, boundsA, p);
    var py := Parse(y, boundsB, p);
    if px.None? || py.None? || px.value.offset != py.value.offset {
      return None;
    }
    BoundedBelow(px.value, boundsA, p);
    BoundedBelow(py.value, boundsB, p);
    forall m | BoundsModel(boundsA, p, m) && BoundsModel(boundsB, p, m)
      ensures SameLimbs(px.value, py.value, m, p) ==> FieldEq(x, y, m, p)
      ensures ProvenBelow(px.value, boundsA, p) && ProvenBelow(py.value, boundsB, p) ==>
        (FieldEq(x, y, m, p) <==> SameLimbs(px.value, py.value, m, p))
    {
      SplitMeans(x, y, px.value, py.value, boundsA, boundsB, m, p);
    }
    return Some((px.value, py.value));
  }

  ghost predicate SameLimbs(l: Limbs, r: Limbs, m: Model, p: int)
    requires p > 0
  {
    FieldEq(Sym(l.lo), Sym(r.lo), m, p) && FieldEq(Sym(l.hi), Sym(r.hi), m, p)
  }

  lemma PackedResidue(e: Node, l: Limbs, m: Model, p: int)
    requires p > 0 && LimbsOf(e) == Some(l)
    ensures Cong(IntOf(e, m), Pack(FieldValue(l.lo, m, p), FieldValue(l.hi, m, p), l.offset), p)
  {
    hide Cong;
    var lo, hi := IntOf(Sym(l.lo), m), IntOf(Sym(l.hi), m);
    LimbsValue(e, m);
    ResidueCong(lo, p);
    ResidueCong(hi, p);
    Flip(lo % p, lo, p);
    Flip(hi % p, hi, p);
    ScaleCong(LIMB_BASE, hi, hi % p, p);
    AddCong(lo, lo % p, LIMB_BASE * hi, LIMB_BASE * (hi % p), p);
    Refl(l.offset, p);
    AddCong(lo + LIMB_BASE * hi, lo % p + LIMB_BASE * (hi % p), l.offset, l.offset, p);
  }

  lemma Flip(a: int, b: int, p: int)
    requires p > 0 && Cong(a, b, p)
    ensures Cong(b, a, p)
  {
  }

  /** The guard with a non-negative offset puts the box below the prime. */
  lemma BoundedBelow(l: Limbs, bounds: map<Node, int>, p: int)
    requires p > 1 && Bounded(l, bounds, p)
    ensures l.offset >= 0 ==> ProvenBelow(l, bounds, p)
  {
    var b :| BoxOf(l, bounds, p, b) && Fits(b, l.offset, p);
    assert l.offset >= 0 ==> BelowPrime(b, p);
  }

  lemma ProvenInside(l: Limbs, bounds: map<Node, int>, p: int, b: Box, m: Model)
    requires Prime(p) && BoundsModel(bounds, p, m) && BoxOf(l, bounds, p, b)
    ensures LimbsInside(l, b, m, p)
  {
    CandidateHolds(bounds, l.lo, p, b.lo, m);
    CandidateHolds(bounds, l.hi, p, b.hi, m);
  }

  lemma SplitMeans(x: Node, y: Node, l: Limbs, r: Limbs, boundsA: map<Node, int>, boundsB: map<Node, int>, m: Model, p: int)
    requires Prime(p) && LimbsOf(x) == Some(l) && LimbsOf(y) == Some(r) && l.offset == r.offset
    requires BoundsModel(boundsA, p, m) && BoundsModel(boundsB, p, m)
    ensures SameLimbs(l, r, m, p) ==> FieldEq(x, y, m, p)
    ensures ProvenBelow(l, boundsA, p) && ProvenBelow(r, boundsB, p) ==> (FieldEq(x, y, m, p) <==> SameLimbs(l, r, m, p))
  {
    hide LimbsOf;
    PackedResidue(x, l, m, p);
    PackedResidue(y, r, m, p);
    if ProvenBelow(l, boundsA, p) && ProvenBelow(r, boundsB, p) && FieldEq(x, y, m, p) {
      var a :| BoxOf(l, boundsA, p, a) && BelowPrime(a, p);
      var b :| BoxOf(r, boundsB, p, b) && BelowPrime(b, p);
      ProvenInside(l, boundsA, p, a, m);
      ProvenInside(r, boundsB, p, b, m);
      PackInjective(a, b, FieldValue(l.lo, m, p), FieldValue(l.hi, m, p), FieldValue(r.lo, m, p), FieldValue(r.hi, m, p), l.offset, p);
    }
  }
}
