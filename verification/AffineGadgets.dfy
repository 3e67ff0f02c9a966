/** Affine definitions read off products of two factors that differ by a constant. */
module AffineGadgets {
  import opened Wrappers
  import opened Residues
  import opened Primes
  import opened Sums
  import opened FieldForms
  import opened FieldGadgets
  import opened MultEvidence
  import opened RangeEvidence
  import opened FieldBounds
  import opened FieldWindows

  /** `col == sum of weights + offset`, or only modulo `modulus`. */
  datatype AffineDef = AffineDef(col: string, weights: seq<Term>, offset: int, modulus: Option<int>)

  function AffineValue(d: AffineDef, env: Env): int {
    TermsValue(d.weights, env.cols) + d.offset
  }

  ghost predicate AffineHolds(d: AffineDef, env: Env) {
    match d.modulus
    case None => env.cols(d.col) == AffineValue(d, env)
    case Some(m) => m > 0 && (env.cols(d.col) - AffineValue(d, env)) % m == 0
  }

  // ---- Solving a factor for its column ----

  function WithoutColumn(ts: seq<Term>, col: string): (r: seq<Term>)
    ensures forall t :: t in r <==> t in ts && t.name != col
  {
    if ts == [] then []
    else
      var front, last := ts[..|ts| - 1], ts[|ts| - 1];
      assert ts == front + [last];
      WithoutColumn(front, col) + (if last.name == col then [] else [last])
  }

  lemma {:induction false} WithoutValue(ts: seq<Term>, col: string, env: string -> int)
    requires DistinctNames(ts)
    ensures TermsValue(ts, env) == CoeffOf(ts, col) * env(col) + TermsValue(WithoutColumn(ts, col), env)
  {
    hide TermsValue;
    if ts == [] {
      EmptyValue(env);
    } else {
      var front, last := ts[..|ts| - 1], ts[|ts| - 1];
      WithoutValue(front, col, env);
      assert ts == front + [last];
      SnocValue(front, last, env);
      if last.name == col {
        AbsentCoeff(front, col);
        assert WithoutColumn(ts, col) == WithoutColumn(front, col);
      } else {
        SnocValue(WithoutColumn(front, col), last, env);
      }
    }
  }

  lemma EmptyValue(env: string -> int)
    ensures TermsValue([], env) == 0
  {
  }

  lemma {:induction false} AbsentCoeff(ts: seq<Term>, col: string)
    requires forall t :: t in ts ==> t.name != col
    ensures CoeffOf(ts, col) == 0
  {
    if ts != [] {
      AbsentCoeff(ts[..|ts| - 1], col);
    }
  }

  lemma {:induction false} CoeffFound(ts: seq<Term>, col: string)
    requires CoeffOf(ts, col) != 0
    ensures Term(col, CoeffOf(ts, col)) in ts
  {
    if ts[|ts| - 1].name != col {
      CoeffFound(ts[..|ts| - 1], col);
    }
  }

  /** Solves `factor == 0` for `col` when its coefficient divides the rest. */
  function Solve(col: string, factor: LinForm): Option<AffineDef> {
    var a := CoeffOf(factor.terms, col);
    if a == 0 then None
    else
      var others := WithoutColumn(factor.terms, col);
      if (exists t :: t in others && t.coeff % a != 0) || factor.constant % a != 0 then None
      else Some(AffineDef(col, DividedTerms(others, -a), -(factor.constant / a), None))
  }

  /** The factor is its leading coefficient times the column's distance from the affine value. */
  lemma SolveValue(col: string, factor: LinForm, env: Env)
    requires DistinctNames(factor.terms) && Solve(col, factor).Some?
    ensures var d := Solve(col, factor).value;
      FormValue(factor, env) == CoeffOf(factor.terms, col) * (env.cols(col) - AffineValue(d, env))
  {
    hide TermsValue, WithoutColumn, DividedTerms;
    var a, others := CoeffOf(factor.terms, col), WithoutColumn(factor.terms, col);
    var w := TermsValue(DividedTerms(others, -a), env.cols);
    WithoutValue(factor.terms, col, env.cols);
    forall t | t in others ensures t.coeff % -a == 0 {
      assert t.coeff % a == 0;
    }
    DividedValue(others, -a, env.cols);
    ExactQuotient(factor.constant, a);
    FourParts(a, env.cols(col), w, 0, factor.constant / a);
  }

  /** `d` is what dividing the other terms and the constant by the column's coefficient leaves, without remainder. */
  ghost predicate SolvedAs(col: string, factor: LinForm, d: AffineDef) {
    var a := CoeffOf(factor.terms, col);
    && a != 0 && d.col == col && d.modulus.None?
    && Scale(-a, d.weights) == WithoutColumn(factor.terms, col) && factor.constant == -a * d.offset
  }

  lemma SolveExactly(col: string, factor: LinForm, d: AffineDef)
    ensures Solve(col, factor) == Some(d) <==> SolvedAs(col, factor, d)
  {
    hide WithoutColumn, CoeffOf;
    var a, others := CoeffOf(factor.terms, col), WithoutColumn(factor.terms, col);
    if SolvedAs(col, factor, d) {
      ScaledDivides(-a, d.weights);
      forall t | t in others ensures t.coeff % a == 0 {
        var i :| 0 <= i < |others| && others[i] == t;
        MultipleOf(a, -d.weights[i].coeff);
        assert t.coeff == a * -d.weights[i].coeff by { SwapSign(a, d.weights[i].coeff); }
      }
      SwapSign(a, d.offset);
      MultipleOf(a, -d.offset);
    }
    if Solve(col, factor) == Some(d) {
      DividedScales(-a, others);
      ExactQuotient(factor.constant, a);
      SwapSign(a, d.offset);
    }
  }

  lemma SwapSign(a: int, x: int)
    ensures -a * x == a * -x
  {
  }

  /** The interval of the column's distance from its affine value. */
  function DistanceWindow(d: AffineDef, bs: Bounds): Option<(int, int)> {
    if !Usable(bs, d.col) then None
    else WindowOf([Term(d.col, 1)] + Scale(-1, d.weights), -d.offset, bs)
  }

  lemma DistanceInWindow(d: AffineDef, bs: Bounds, env: Env)
    requires BoundsHold(bs, env) && DistanceWindow(d, bs).Some?
    ensures var (lo, hi) := DistanceWindow(d, bs).value; lo <= env.cols(d.col) - AffineValue(d, env) <= hi
  {
    hide WindowOf, TermsValue;
    WindowHolds([Term(d.col, 1)] + Scale(-1, d.weights), -d.offset, bs, env);
    ConcatValue([Term(d.col, 1)], Scale(-1, d.weights), env.cols);
    OneTerm(Term(d.col, 1), env.cols);
    ScaleValue(-1, d.weights, env.cols);
  }

  // ---- Roots ----

  /** Nonzero roots of `a * k + delta` in the window. */
  function OtherRoots(a: int, delta: int, w: (int, int), p: int): seq<int>
    requires p > 1
  {
    var k := (Inverse(a, p) * -delta) % p;
    (if InWindow(w, k) && k != 0 then [k] else []) + (if InWindow(w, k - p) && k - p != 0 then [k - p] else [])
  }

  predicate InWindow(w: (int, int), k: int) {
    w.0 <= k <= w.1
  }

  /** In a sound window the second factor's nonzero roots are exactly the listed ones. */
  lemma OtherRootsExact(a: int, delta: int, w: (int, int), p: int, k: int)
    requires Prime(p) && a % p != 0 && WindowSound(w, p) && InWindow(w, k)
    ensures k in OtherRoots(a, delta, w, p) <==> k != 0 && Cong(a * k + delta, 0, p)
  {
    var k0 := (Inverse(a, p) * -delta) % p;
    LinearRoot(a, delta, k, p);
    assert -delta * Inverse(a, p) == Inverse(a, p) * -delta;
    TwoCandidates(k, k0, p);
  }

  /** The product of the factors vanishes exactly at zero and at the listed roots. */
  lemma ProductRoots(a: int, delta: int, w: (int, int), p: int, k: int)
    requires Prime(p) && a % p != 0 && WindowSound(w, p) && InWindow(w, k)
    ensures Cong(a * k, 0, p) || Cong(a * k + delta, 0, p) <==> k == 0 || k in OtherRoots(a, delta, w, p)
  {
    OtherRootsExact(a, delta, w, p, k);
    ProductZero(a, k, p);
    Small(0, p);
    if k % p == 0 {
      CongClose(k, 0, p);
    }
  }

  /** Greatest common divisor of the roots' distances from zero. */
  function RootGcd(roots: seq<int>): (g: int)
    requires forall r :: r in roots ==> r != 0
    ensures g >= 0 && (roots != [] ==> g > 0)
  {
    if roots == [] then 0
    else
      var front := roots[..|roots| - 1];
      assert (forall r :: r in front ==> r in roots) && roots[|roots| - 1] in roots;
      ExtGcd(RootGcd(front), Abs(roots[|roots| - 1])).g
  }

  /** Two surviving roots are a period apart, so their distances from zero have no common divisor. */
  lemma TwoRootsCoprime(k: int, p: int)
    requires Prime(p) && 0 < k < p
    ensures RootGcd([k, k - p]) == 1
  {
    var roots := [k, k - p];
    assert roots[..1] == [k] && [k][..0] == [];
    var g := RootGcd(roots);
    assert RootGcd([k]) == k by {
      GcdOfZero(k);
    }
    DividesCombination(g, k, p - k, 1, 1);
    GcdIsOne(k, p, g);
  }

  lemma GcdOfZero(x: int)
    requires x > 0
    ensures ExtGcd(0, x).g == x
  {
    assert 0 % x == 0;
    assert ExtGcd(x, 0).g == x;
  }

  lemma SingleRootGcd(r: int)
    requires r != 0
    ensures RootGcd([r]) == Abs(r)
  {
    assert [r][..0] == [];
    GcdOfZero(Abs(r));
  }

  /** What the chosen factor and the other one say together. */
  function Claim(d: AffineDef, a: int, delta: int, w: (int, int), p: int): Option<AffineDef>
    requires p > 1
  {
    var roots := OtherRoots(a, delta, w, p);
    if roots == [] then Some(d)
    else if RootGcd(roots) <= 1 then None
    else Some(d.(modulus := Some(RootGcd(roots))))
  }

  lemma RootsShape(a: int, delta: int, w: (int, int), p: int)
    requires p > 1
    ensures var k, roots := (Inverse(a, p) * -delta) % p, OtherRoots(a, delta, w, p);
      || roots == []
      || (|roots| == 1 && roots[0] != 0 && InWindow(w, roots[0]))
      || (roots == [k, k - p] && 0 < k < p)
  {
    Division(Inverse(a, p) * -delta, p);
  }

  /** A claim is exact exactly when the other factor has no root in the window but zero; otherwise a single root
      survives and its distance from zero is the modulus. */
  lemma ClaimShape(d: AffineDef, a: int, delta: int, w: (int, int), p: int)
    requires Prime(p) && a % p != 0 && WindowSound(w, p) && d.modulus.None? && Claim(d, a, delta, w, p).Some?
    ensures var c := Claim(d, a, delta, w, p).value;
      && (c.modulus.None? <==> forall k :: InWindow(w, k) && k != 0 ==> !Cong(a * k + delta, 0, p))
      && (c.modulus.Some? ==> exists r :: OtherRoots(a, delta, w, p) == [r] && c.modulus.value == Abs(r))
  {
    hide Cong, OtherRoots, RootGcd, Inverse, InWindow;
    var roots := OtherRoots(a, delta, w, p);
    forall k | InWindow(w, k) ensures k in roots <==> k != 0 && Cong(a * k + delta, 0, p) {
      OtherRootsExact(a, delta, w, p, k);
    }
    RootsShape(a, delta, w, p);
    if |roots| == 2 {
      TwoRootsCoprime((Inverse(a, p) * -delta) % p, p);
    } else if |roots| == 1 {
      SingleRootGcd(roots[0]);
      assert roots == [roots[0]];
      assert roots[0] in roots;
    }
  }

  /** A nonzero distance in the window at which the other factor vanishes. */
  ghost predicate OtherRoot(a: int, delta: int, w: (int, int), p: int, k: int)
    requires p > 0
  {
    InWindow(w, k) && k != 0 && Cong(a * k + delta, 0, p)
  }

  /** There is no claim exactly when two such distances, or one next to zero, are left. */
  lemma ClaimExactly(d: AffineDef, a: int, delta: int, w: (int, int), p: int)
    requires Prime(p) && a % p != 0 && WindowSound(w, p)
    ensures Claim(d, a, delta, w, p).None? <==>
      exists k, l :: OtherRoot(a, delta, w, p, k) && OtherRoot(a, delta, w, p, l) && (k != l || Abs(k) == 1)
    ensures Claim(d, a, delta, w, p).Some? ==> Claim(d, a, delta, w, p).value.(modulus := d.modulus) == d
  {
    hide Cong, OtherRoots, RootGcd, Inverse, InWindow;
    var roots := OtherRoots(a, delta, w, p);
    forall k ensures k in roots <==> OtherRoot(a, delta, w, p, k) {
      if InWindow(w, k) {
        OtherRootsExact(a, delta, w, p, k);
      } else {
        RootsInWindow(a, delta, w, p);
      }
    }
    RootsShape(a, delta, w, p);
    if |roots| == 2 {
      TwoRootsCoprime((Inverse(a, p) * -delta) % p, p);
      assert roots[0] in roots && roots[1] in roots;
      assert OtherRoot(a, delta, w, p, roots[0]) && OtherRoot(a, delta, w, p, roots[1]);
    } else if |roots| == 1 {
      SingleRootGcd(roots[0]);
      assert roots == [roots[0]] && roots[0] in roots;
      assert OtherRoot(a, delta, w, p, roots[0]);
    }
  }

  lemma RootsInWindow(a: int, delta: int, w: (int, int), p: int)
    requires p > 1
    ensures forall k :: k in OtherRoots(a, delta, w, p) ==> InWindow(w, k)
  {
  }

  /** A claim holds at every distance the product admits. */
  lemma ClaimHolds(d: AffineDef, a: int, delta: int, w: (int, int), p: int, env: Env)
    requires Prime(p) && a % p != 0 && WindowSound(w, p) && d.modulus.None? && Claim(d, a, delta, w, p).Some?
    requires var k := env.cols(d.col) - AffineValue(d, env);
      InWindow(w, k) && (Cong(a * k, 0, p) || Cong(a * k + delta, 0, p))
    ensures AffineHolds(Claim(d, a, delta, w, p).value, env)
  {
    hide Cong, OtherRoots;
    var k := env.cols(d.col) - AffineValue(d, env);
    ProductRoots(a, delta, w, p, k);
    ClaimShape(d, a, delta, w, p);
    var c := Claim(d, a, delta, w, p).value;
    if c.modulus.Some? {
      var r :| OtherRoots(a, delta, w, p) == [r] && c.modulus.value == Abs(r);
      MultipleOfAbs(k, r);
    }
  }

  lemma MultipleOfAbs(k: int, r: int)
    requires r != 0 && (k == 0 || k == r)
    ensures k % Abs(r) == 0
  {
  }

  // ---- The gadget ----

  /** The affine definition of `col` from one factor of a product constraint. */
  method AffineFromFactor(col: string, factor: LinForm, other: LinForm, bs: Bounds, p: int) returns (r: Option<AffineDef>)
    requires Prime(p) && CanonicalForm(factor, p) && factor.terms == other.terms && Sane(bs)
    ensures r.Some? ==> r.value.col == col
    ensures r.Some? ==> forall env :: FieldEnv(env, p) && BoundsHold(bs, env) && EitherZero(factor, other, p, env) ==>
      AffineHolds(r.value, env)
    ensures r.Some? <==> AffineAccepted(col, factor, other, bs, p)
    ensures r.Some? ==> r == Claim(Solve(col, factor).value, CoeffOf(factor.terms, col), other.constant - factor.constant,
                                   DistanceWindow(Solve(col, factor).value, bs).value, p)
  {
    hide Cong, OtherRoots, RootGcd, WindowOf, TermsValue, AffineHolds, EitherZero, CanonicalForm, Inverse, FormValue;
    var a := CoeffOf(factor.terms, col);
    var solved := Solve(col, factor);
    if solved.None? || !Usable(bs, col) {
      return None;
    }
    var d := solved.value;
    var w := Window([Term(col, 1)] + Scale(-1, d.weights), -d.offset, bs);
    if w.None? || !WindowSound(w.value, p) {
      return None;
    }
    CoeffInvertible(factor, col, p);
    r := Claim(d, a, other.constant - factor.constant, w.value, p);
    if r.Some? {
      forall env | FieldEnv(env, p) && BoundsHold(bs, env) && EitherZero(factor, other, p, env) ensures AffineHolds(r.value, env) {
        FactorGivesClaim(col, factor, other, bs, w.value, p, env);
      }
    }
  }

  lemma CoeffInvertible(lf: LinForm, col: string, p: int)
    requires p > 0 && CanonicalForm(lf, p) && CoeffOf(lf.terms, col) != 0
    ensures CoeffOf(lf.terms, col) % p != 0
  {
    CoeffFound(lf.terms, col);
    CanonicalNonzero(CoeffOf(lf.terms, col), p);
  }

  ghost predicate EitherZero(factor: LinForm, other: LinForm, p: int, env: Env)
    requires p > 0
  {
    Cong(FormValue(factor, env), 0, p) || Cong(FormValue(other, env), 0, p)
  }

  /** The factor solves for `col` and the window refutes all other roots, or all but one at a distance above one. */
  ghost predicate AffineAccepted(col: string, factor: LinForm, other: LinForm, bs: Bounds, p: int)
    requires p > 1
  {
    && Solve(col, factor).Some?
    && var d, a := Solve(col, factor).value, CoeffOf(factor.terms, col);
    && DistanceWindow(d, bs).Some? && WindowSound(DistanceWindow(d, bs).value, p)
    && Claim(d, a, other.constant - factor.constant, DistanceWindow(d, bs).value, p).Some?
  }

  lemma FactorGivesClaim(col: string, factor: LinForm, other: LinForm, bs: Bounds, w: (int, int), p: int, env: Env)
    requires Prime(p) && CanonicalForm(factor, p) && factor.terms == other.terms && Solve(col, factor).Some?
    requires DistanceWindow(Solve(col, factor).value, bs) == Some(w) && WindowSound(w, p)
    requires CoeffOf(factor.terms, col) % p != 0 && BoundsHold(bs, env) && EitherZero(factor, other, p, env)
    requires Claim(Solve(col, factor).value, CoeffOf(factor.terms, col), other.constant - factor.constant, w, p).Some?
    ensures AffineHolds(Claim(Solve(col, factor).value, CoeffOf(factor.terms, col), other.constant - factor.constant, w, p).value, env)
  {
    hide Cong, Claim, DistanceWindow, AffineHolds;
    var d, a := Solve(col, factor).value, CoeffOf(factor.terms, col);
    SortedIsDistinct(factor.terms);
    SolveValue(col, factor, env);
    DistanceInWindow(d, bs, env);
    ClaimHolds(d, a, other.constant - factor.constant, w, p, env);
  }

  /** The constraint is a product of factors that differ by a constant, and one of them defines `col`. */
  ghost predicate Defines(con: Expr, col: string, bs: Bounds, p: int)
    requires p > 1
  {
    && ParseProduct(con, p).Some?
    && var pr := ParseProduct(con, p).value;
    && pr.left.terms == pr.right.terms
    && (AffineAccepted(col, pr.left, pr.right, bs, p) || AffineAccepted(col, pr.right, pr.left, bs, p))
  }

  lemma Unbounded(col: string, cons: seq<Expr>, bs: Bounds, p: int)
    requires p > 1 && (col !in bs || bs[col].hi.None?)
    ensures forall i :: 0 <= i < |cons| ==> !Defines(cons[i], col, bs, p)
  {
  }

  lemma EitherVanishes(cons: seq<Expr>, i: nat, p: int)
    requires Prime(p) && i < |cons| && ParseProduct(cons[i], p).Some?
    ensures var pr := ParseProduct(cons[i], p).value;
      forall env :: AllZero(cons, p, env) ==> EitherZero(pr.left, pr.right, p, env) && EitherZero(pr.right, pr.left, p, env)
  {
    forall env | AllZero(cons, p, env)
      ensures var pr := ParseProduct(cons[i], p).value;
        EitherZero(pr.left, pr.right, p, env) && EitherZero(pr.right, pr.left, p, env)
    {
      assert cons[i] in cons;
      ProductMeans(cons[i], p, env);
    }
  }

  /** The first product constraint that defines `col`, trying both factors. */
  method Affine(col: string, cons: seq<Expr>, bs: Bounds, p: int) returns (r: Option<AffineDef>)
    requires Prime(p) && Sane(bs)
    ensures r.Some? ==> r.value.col == col
    ensures r.Some? ==> forall env :: FieldEnv(env, p) && BoundsHold(bs, env) && AllZero(cons, p, env) ==> AffineHolds(r.value, env)
    ensures r.None? ==> forall i :: 0 <= i < |cons| ==> !Defines(cons[i], col, bs, p)
  {
    hide AffineAccepted, EitherZero, AffineHolds, AllZero;
    if col !in bs || bs[col].hi.None? {
      Unbounded(col, cons, bs, p);
      return None;
    }
    for i := 0 to |cons|
      invariant forall j :: 0 <= j < i ==> !Defines(cons[j], col, bs, p)
    {
      var pr := ParseProduct(cons[i], p);
      if pr.Some? && pr.value.left.terms == pr.value.right.terms {
        ProductCanonical(cons[i], p);
        EitherVanishes(cons, i, p);
        r := AffineFromFactor(col, pr.value.left, pr.value.right, bs, p);
        if r.Some? {
          return;
        }
        r := AffineFromFactor(col, pr.value.right, pr.value.left, bs, p);
        if r.Some? {
          return;
        }
      }
    }
    return None;
  }

  lemma ProductCanonical(e: Expr, p: int)
    requires p > 0 && ParseProduct(e, p).Some?
    ensures CanonicalForm(ParseProduct(e, p).value.left, p) && CanonicalForm(ParseProduct(e, p).value.right, p)
  {
    ParseLinCanonical(e.a, p);
    ParseLinCanonical(e.b, p);
  }
}
