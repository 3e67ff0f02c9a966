/** Constraints over a prime field that confine one column: single-column equations, domain gadgets,
    scaled range checks. */
module FieldGadgets {
  import opened Wrappers
  import opened Residues
  import opened Primes
  import opened Sums
  import opened FieldForms

  /** Every column holds a field element. */
  ghost predicate FieldEnv(env: Env, p: int) {
    forall x :: 0 <= env.cols(x) < p
  }

  ghost predicate Zero(e: Expr, p: int, env: Env)
    requires p > 0
  {
    Cong(EvalExpr(e, env), 0, p)
  }

  // ---- Single-column equations ----

  /** `a * col + c` is zero modulo `p` for this residue of `col` only. */
  function SingleColResidue(lf: LinForm, p: int): (r: Option<(string, int)>)
    requires p > 1
    ensures r.Some? ==> 0 <= r.value.1 < p
  {
    if |lf.terms| != 1 then None
    else Some((lf.terms[0].name, (-lf.constant * Inverse(lf.terms[0].coeff, p)) % p))
  }

  lemma SingleValue(lf: LinForm, env: Env)
    requires |lf.terms| == 1
    ensures FormValue(lf, env) == lf.terms[0].coeff * env.cols(lf.terms[0].name) + lf.constant
  {
    SnocValue([], lf.terms[0], env.cols);
    assert lf.terms == [] + [lf.terms[0]];
  }

  /** `a * v + c` vanishes exactly at `-c / a`. */
  lemma LinearRoot(a: int, c: int, v: int, p: int)
    requires Prime(p) && a % p != 0
    ensures Cong(a * v + c, 0, p) <==> Cong(v, -c * Inverse(a, p), p)
  {
    RootTimes(a, c, p);
    RootOf(a, c, v, -c * Inverse(a, p), p);
  }

  lemma RootOf(a: int, c: int, v: int, s: int, p: int)
    requires Prime(p) && a % p != 0 && Cong(a * s, -c, p)
    ensures Cong(a * v + c, 0, p) <==> Cong(v, s, p)
  {
    hide Cong;
    Refl(c, p);
    if Cong(v, s, p) {
      ScaleCong(a, v, s, p);
      Trans(a * v, a * s, -c, p);
      AddCong(a * v, -c, c, c, p);
    }
    if Cong(a * v + c, 0, p) {
      SubCong(a * v + c, 0, c, c, p);
      assert a * v + c - c == a * v && 0 - c == -c;
      Sym(a * s, -c, p);
      Trans(a * v, -c, a * s, p);
      CancelCong(a, v, s, p);
    }
  }

  lemma RootTimes(a: int, c: int, p: int)
    requires Prime(p) && a % p != 0
    ensures Cong(a * (-c * Inverse(a, p)), -c, p)
  {
    var d := Inverse(a, p);
    InverseIsInverse(a, p);
    Small(1, p);
    Associate(a, -c, d);
    CongMulLeft(a * d, 1, -c, p);
  }

  lemma CancelCong(c: int, a: int, b: int, p: int)
    requires Prime(p) && c % p != 0 && Cong(c * a, c * b, p)
    ensures Cong(a, b, p)
  {
    CancelLeft(c, a, b, p);
  }

  lemma SingleColExact(lf: LinForm, p: int, env: Env)
    requires Prime(p) && CanonicalForm(lf, p) && |lf.terms| == 1
    ensures Cong(FormValue(lf, env), 0, p) <==> Cong(env.cols(lf.terms[0].name), SingleColResidue(lf, p).value.1, p)
  {
    var a, c, v := lf.terms[0].coeff, lf.constant, env.cols(lf.terms[0].name);
    SingleValue(lf, env);
    assert lf.terms[0] in lf.terms;
    CanonicalNonzero(a, p);
    LinearRoot(a, c, v, p);
    ResidueCong(-c * Inverse(a, p), p);
  }

  // ---- Scaled range checks ----

  /** A field element is the inverse of the scale times its scaled residue, unless that product wraps. */
  lemma Unscale(c: int, v: int, p: int)
    requires Prime(p) && c % p != 0 && 0 <= v < p
    requires Inverse(c, p) * ((c * v) % p) < p
    ensures v == Inverse(c, p) * ((c * v) % p)
  {
    var d, k := Inverse(c, p), (c * v) % p;
    InverseIsInverse(c, p);
    Small(1, p);
    ResidueCong(c * v, p);
    ScaleCong(d, k, c * v, p);
    Associate(d, c, v);
    assert d * c == c * d;
    CongMulLeft(d * c, 1, v, p);
    Division(c * v, p);
    NonNegativeProduct(d, k);
    CongClose(d * k, v, p);
  }

  lemma NonNegativeProduct(a: int, b: int)
    requires a >= 0 && b >= 0
    ensures a * b >= 0
  {
  }

  lemma ProductMonotone(d: int, a: int, b: int)
    requires d >= 0 && a <= b
    ensures d * a <= d * b
  {
  }

  /** `c * v` in `[0, hi]` modulo `p` confines `v` to `[0, c^-1 * hi]` when that stays below `p`. */
  lemma ScaledBound(c: int, v: int, hi: int, p: int)
    requires Prime(p) && c % p != 0 && 0 <= v < p
    requires (c * v) % p <= hi && Inverse(c, p) * hi < p
    ensures v <= Inverse(c, p) * hi
  {
    InverseIsInverse(c, p);
    ProductMonotone(Inverse(c, p), (c * v) % p, hi);
    Unscale(c, v, p);
  }

  // ---- Domain gadgets ----

  datatype Domain = Domain(col: string, size: nat)

  /** `col` or `col - delta`. */
  function FactorDelta(f: Expr): Option<(string, int)> {
    match f
    case Col(x) => Some((x, 0))
    case Bin(Col(x), Minus, Num(v)) => Some((x, v))
    case _ => None
  }

  /** Factors are a column, or a column less a constant. */
  lemma FactorDeltaExactly(f: Expr, x: string, v: int)
    ensures FactorDelta(f) == Some((x, v)) <==> (f == Col(x) && v == 0) || f == Bin(Col(x), Minus, Num(v))
  {
  }

  function Deltas(fs: seq<Expr>): (ds: seq<int>)
    ensures |ds| == |fs|
  {
    seq(|fs|, i requires 0 <= i < |fs| => if FactorDelta(fs[i]).Some? then FactorDelta(fs[i]).value.1 else 0)
  }

  function Upto(n: nat): (r: seq<int>)
    ensures |r| == n
  {
    seq(n, i => i)
  }

  /** A product of `col - delta` whose deltas, sorted, are `0, 1, …, size - 1`. */
  ghost predicate DomainShape(e: Expr, d: Domain) {
    var fs := FlattenProduct(e);
    && (forall f :: f in fs ==> FactorDelta(f).Some? && FactorDelta(f).value.0 == d.col)
    && multiset(Deltas(fs)) == multiset(Upto(d.size))
  }

  lemma {:induction false} FactorsNonempty(e: Expr)
    ensures FlattenProduct(e) != []
  {
    if e.Bin? && e.op.Times? {
      FactorsNonempty(e.a);
    }
  }

  method DomainGadget(e: Expr) returns (r: Option<Domain>)
    ensures r.Some? ==> DomainShape(e, r.value)
    ensures r.None? ==> forall d :: !DomainShape(e, d)
  {
    var fs := FlattenProduct(e);
    FactorsNonempty(e);
    var col: Option<string>, deltas: seq<int> := None, [];
    var i := 0;
    while i < |fs|
      invariant 0 <= i <= |fs| && (i > 0 <==> col.Some?)
      invariant forall j :: 0 <= j < i ==> FactorDelta(fs[j]).Some? && Some(FactorDelta(fs[j]).value.0) == col
      invariant deltas == Deltas(fs)[..i]
    {
      assert fs[i] in fs;
      var f := FactorDelta(fs[i]);
      if f.None? || (col.Some? && f.value.0 != col.value) {
        assert i > 0 ==> fs[0] in fs;
        return None;
      }
      col, deltas := Some(f.value.0), deltas + [f.value.1];
      i := i + 1;
    }
    assert deltas == Deltas(fs);
    if multiset(deltas) != multiset(Upto(|deltas|)) {
      forall d ensures !DomainShape(e, d) {
        assert |multiset(Upto(d.size))| == d.size;
      }
      return None;
    }
    return Some(Domain(col.value, |deltas|));
  }

  lemma OneDomain(e: Expr, a: Domain, b: Domain)
    requires DomainShape(e, a) && DomainShape(e, b)
    ensures a == b
  {
    FactorsNonempty(e);
    assert FlattenProduct(e)[0] in FlattenProduct(e);
    assert |multiset(Upto(a.size))| == a.size && |multiset(Upto(b.size))| == b.size;
  }

  lemma InUpto(x: int, n: nat)
    ensures x in multiset(Upto(n)) <==> 0 <= x < n
  {
    if 0 <= x < n {
      assert Upto(n)[x] == x;
    }
  }

  lemma DeltaAt(e: Expr, d: Domain, i: nat, env: Env)
    requires DomainShape(e, d) && i < |FlattenProduct(e)|
    ensures var fs := FlattenProduct(e);
      0 <= Deltas(fs)[i] < d.size && EvalExpr(fs[i], env) == env.cols(d.col) - Deltas(fs)[i]
  {
    var fs := FlattenProduct(e);
    assert fs[i] in fs;
    assert Deltas(fs)[i] in multiset(Deltas(fs));
    InUpto(Deltas(fs)[i], d.size);
  }

  /** A domain gadget vanishes exactly when its column lies in `[0, size)`, whatever the size. */
  lemma DomainMeans(e: Expr, d: Domain, p: int, env: Env)
    requires Prime(p) && DomainShape(e, d) && FieldEnv(env, p)
    ensures Zero(e, p, env) <==> env.cols(d.col) < d.size
  {
    var fs, v := FlattenProduct(e), env.cols(d.col);
    FlattenValue(e, env);
    ProductVanishes(fs, p, env);
    Small(0, p);
    if i :| 0 <= i < |fs| && EvalExpr(fs[i], env) % p == 0 {
      DeltaAt(e, d, i, env);
      CongIff(v, Deltas(fs)[i], p);
      Small(v, p);
      ModAtMost(Deltas(fs)[i], p);
    }
    if v < d.size {
      InUpto(v, d.size);
      assert v in Deltas(fs);
      var i :| 0 <= i < |fs| && Deltas(fs)[i] == v;
      DeltaAt(e, d, i, env);
    }
  }

  lemma ModAtMost(x: int, p: int)
    requires p > 0 && x >= 0
    ensures x % p <= x
  {
    Division(x, p);
    SmallMultiple(p, x / p);
  }

  // ---- Products of two linear factors ----

  datatype Product = Product(left: LinForm, right: LinForm)

  function ParseProduct(e: Expr, p: int): Option<Product>
    requires p > 0
  {
    match e
    case Bin(a, Times, b) =>
      (match (ParseLin(a, p), ParseLin(b, p))
       case (Some(x), Some(y)) => Some(Product(x, y))
       case _ => None)
    case _ => None
  }

  /** A product constraint holds exactly when one of its factors vanishes. */
  lemma ProductMeans(e: Expr, p: int, env: Env)
    requires Prime(p) && ParseProduct(e, p).Some?
    ensures var pr := ParseProduct(e, p).value;
      && CanonicalForm(pr.left, p) && CanonicalForm(pr.right, p)
      && (Zero(e, p, env) <==> Cong(FormValue(pr.left, env), 0, p) || Cong(FormValue(pr.right, env), 0, p))
  {
    var x, y := EvalExpr(e.a, env), EvalExpr(e.b, env);
    ParseLinValue(e.a, p, env);
    ParseLinValue(e.b, p, env);
    ProductZero(x, y, p);
    Small(0, p);
  }

  /** `col * (col - 1)` up to canonical form. */
  predicate IsBooleanProduct(pr: Product) {
    && pr.left.terms == pr.right.terms && pr.right.constant == pr.left.constant - 1
    && |pr.left.terms| == 1 && pr.left.terms[0].coeff == 1 && pr.left.constant == 0
  }

  /** A product of two expressions that parse, and boolean exactly as `x * (x - 1)`. */
  lemma BooleanProductExactly(e: Expr, p: int, x: string)
    requires p > 0
    ensures (ParseProduct(e, p).Some? && IsBooleanProduct(ParseProduct(e, p).value) && ParseProduct(e, p).value.left.terms[0].name == x) <==>
      exists a, b :: e == Bin(a, Times, b) && ParseLin(a, p) == Some(LinForm([Term(x, 1)], 0)) && ParseLin(b, p) == Some(LinForm([Term(x, 1)], -1))
  {
    hide ParseLin;
    if ParseProduct(e, p).Some? && IsBooleanProduct(ParseProduct(e, p).value) && ParseProduct(e, p).value.left.terms[0].name == x {
      var pr := ParseProduct(e, p).value;
      assert pr.left.terms == [Term(x, 1)] && pr.right.terms == [Term(x, 1)];
      assert e == Bin(e.a, Times, e.b) && ParseLin(e.a, p) == Some(LinForm([Term(x, 1)], 0)) && ParseLin(e.b, p) == Some(LinForm([Term(x, 1)], -1));
    }
  }

  lemma BooleanProductMeans(e: Expr, p: int, env: Env)
    requires Prime(p) && ParseProduct(e, p).Some? && IsBooleanProduct(ParseProduct(e, p).value) && FieldEnv(env, p)
    ensures Zero(e, p, env) <==> env.cols(ParseProduct(e, p).value.left.terms[0].name) < 2
  {
    var pr := ParseProduct(e, p).value;
    var v := env.cols(pr.left.terms[0].name);
    ProductMeans(e, p, env);
    SingleValue(pr.left, env);
    SingleValue(pr.right, env);
    Small(0, p);
    Small(v, p);
    CongIff(v, 1, p);
    Small(1, p);
  }
}
