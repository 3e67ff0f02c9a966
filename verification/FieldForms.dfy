/** Dump expressions over a prime field and their canonical linear forms. */
module FieldForms {
  import opened Wrappers
  import opened Residues
  import opened Primes
  import opened Sums

  datatype BinOp = Plus | Minus | Times

  /** `Other` stands for any node the parser does not know. */
  datatype Expr = Num(value: int) | Col(name: string) | Neg(e: Expr) | Bin(a: Expr, op: BinOp, b: Expr) | Other(id: int)

  /** Column values; `others` interprets the unknown nodes. */
  datatype Env = Env(cols: string -> int, others: int -> int)

  function EvalExpr(e: Expr, env: Env): int {
    match e
    case Num(v) => v
    case Col(x) => env.cols(x)
    case Neg(a) => -EvalExpr(a, env)
    case Bin(a, op, b) => Arith(op, EvalExpr(a, env), EvalExpr(b, env))
    case Other(id) => env.others(id)
  }

  function Arith(op: BinOp, x: int, y: int): int {
    match op
    case Plus => x + y
    case Minus => x - y
    case Times => x * y
  }

  function Names(e: Expr): set<string> {
    match e
    case Col(x) => {x}
    case Neg(a) => Names(a)
    case Bin(a, _, b) => Names(a) + Names(b)
    case _ => {}
  }

  // ---- Canonical residues ----

  /** The signed representative of `v`, in `(-p/2, p/2]`. */
  function Canon(v: int, p: int): (r: int)
    requires p > 0
    ensures -p < 2 * r <= p
  {
    if 2 * (v % p) > p then v % p - p else v % p
  }

  lemma CanonResidue(v: int, p: int)
    requires p > 0
    ensures Cong(Canon(v, p), v, p)
  {
    ResidueIdempotent(v, p);
    CongShift(v % p, p, -1);
    assert v % p + p * -1 == v % p - p;
  }

  /** Equal residues have one canonical form. */
  lemma CanonUnique(a: int, b: int, p: int)
    requires p > 0
    ensures Canon(a, p) == Canon(b, p) <==> Cong(a, b, p)
  {
    CanonResidue(a, p);
    CanonResidue(b, p);
  }

  lemma CanonZero(v: int, p: int)
    requires p > 0
    ensures Canon(v, p) == 0 <==> v % p == 0
  {
  }

  // ---- Name order ----

  predicate NameLess(a: string, b: string) {
    if b == "" then false
    else if a == "" then true
    else if a[0] != b[0] then a[0] < b[0]
    else NameLess(a[1..], b[1..])
  }

  lemma {:induction false} NameTotal(a: string, b: string)
    ensures NameLess(a, b) || NameLess(b, a) || a == b
    ensures !(NameLess(a, b) && NameLess(b, a))
    decreases |a| + |b|
  {
    if a != "" && b != "" {
      NameTotal(a[1..], b[1..]);
      assert a == [a[0]] + a[1..] && b == [b[0]] + b[1..];
    }
  }

  lemma {:induction false} NameIrreflexive(a: string)
    ensures !NameLess(a, a)
  {
    if a != "" {
      NameIrreflexive(a[1..]);
    }
  }

  lemma {:induction false} NameTransitive(a: string, b: string, c: string)
    requires NameLess(a, b) && NameLess(b, c)
    ensures NameLess(a, c)
  {
    if a != "" && a[0] == b[0] && b[0] == c[0] {
      NameTransitive(a[1..], b[1..], c[1..]);
    }
  }

  // ---- Linear forms ----

  /** Terms sorted by name with canonical nonzero coefficients, and a canonical constant. */
  datatype LinForm = LinForm(terms: seq<Term>, constant: int)

  ghost predicate SortedNames(ts: seq<Term>) {
    forall i, j :: 0 <= i < j < |ts| ==> NameLess(ts[i].name, ts[j].name)
  }

  ghost predicate CanonicalForm(lf: LinForm, p: int) {
    && SortedNames(lf.terms)
    && (forall t :: t in lf.terms ==> t.coeff != 0 && -p < 2 * t.coeff <= p)
    && -p < 2 * lf.constant <= p
  }

  function FormValue(lf: LinForm, env: Env): int {
    TermsValue(lf.terms, env.cols) + lf.constant
  }

  function Columns(lf: LinForm): set<string> {
    NamesOf(lf.terms)
  }

  function InsertTerm(t: Term, ts: seq<Term>): (r: seq<Term>)
    ensures forall x :: x in r <==> x == t || x in ts
  {
    if ts == [] then [t]
    else if NameLess(t.name, ts[0].name) then [t] + ts
    else
      assert ts == [ts[0]] + ts[1..];
      [ts[0]] + InsertTerm(t, ts[1..])
  }

  lemma {:induction false} InsertSorted(t: Term, ts: seq<Term>)
    requires SortedNames(ts) && forall x :: x in ts ==> x.name != t.name
    ensures SortedNames(InsertTerm(t, ts))
  {
    if ts != [] {
      if NameLess(t.name, ts[0].name) {
        forall j | 0 <= j < |ts| ensures NameLess(t.name, ts[j].name) {
          if j > 0 {
            NameTransitive(t.name, ts[0].name, ts[j].name);
          }
        }
      } else {
        NameTotal(t.name, ts[0].name);
        InsertSorted(t, ts[1..]);
        var rest := InsertTerm(t, ts[1..]);
        forall j | 0 <= j < |rest| ensures NameLess(ts[0].name, rest[j].name) {
          assert rest[j] in rest;
          if rest[j] != t {
            var k :| 0 <= k < |ts[1..]| && ts[1..][k] == rest[j];
            assert NameLess(ts[0].name, ts[k + 1].name);
          }
        }
      }
    }
  }

  lemma {:induction false} InsertValue(t: Term, ts: seq<Term>, env: string -> int)
    ensures TermsValue(InsertTerm(t, ts), env) == TermsValue(ts, env) + t.coeff * env(t.name)
  {
    if ts == [] {
      SnocValue([], t, env);
      assert [] + [t] == [t];
    } else if NameLess(t.name, ts[0].name) {
      ConcatValue([t], ts, env);
      SnocValue([], t, env);
      assert [] + [t] == [t];
    } else {
      InsertValue(t, ts[1..], env);
      ConcatValue([ts[0]], InsertTerm(t, ts[1..]), env);
      ConcatValue([ts[0]], ts[1..], env);
      assert ts == [ts[0]] + ts[1..];
    }
  }

  /** Canonical, nonzero, sorted. */
  function MakeTerms(ts: seq<Term>, p: int): (r: seq<Term>)
    requires p > 0
    ensures forall t :: t in r ==> t.coeff != 0 && -p < 2 * t.coeff <= p
  {
    if ts == [] then []
    else
      var n := |ts| - 1;
      var rest, c := MakeTerms(ts[..n], p), Canon(ts[n].coeff, p);
      if c == 0 then rest else InsertTerm(Term(ts[n].name, c), rest)
  }

  /** A name survives exactly when its coefficient is not a multiple of `p`. */
  lemma {:induction false} MakeTermsNames(ts: seq<Term>, p: int, x: string)
    requires p > 0 && DistinctNames(ts)
    ensures x in NamesOf(MakeTerms(ts, p)) <==> exists i :: 0 <= i < |ts| && ts[i].name == x && ts[i].coeff % p != 0
  {
    if ts != [] {
      var n := |ts| - 1;
      MakeTermsNames(ts[..n], p, x);
      var rest, c := MakeTerms(ts[..n], p), Canon(ts[n].coeff, p);
      CanonZero(ts[n].coeff, p);
      if c != 0 {
        InsertNames(Term(ts[n].name, c), rest, x);
      }
      if i :| 0 <= i < n && ts[..n][i].name == x && ts[..n][i].coeff % p != 0 {
        assert ts[i] == ts[..n][i];
      }
      if i :| 0 <= i < |ts| && ts[i].name == x && ts[i].coeff % p != 0 {
        assert i < n ==> ts[..n][i] == ts[i];
      }
    }
  }

  lemma InsertNames(t: Term, ts: seq<Term>, x: string)
    ensures x in NamesOf(InsertTerm(t, ts)) <==> x == t.name || x in NamesOf(ts)
  {
    if x in NamesOf(ts) {
      var y :| y in ts && y.name == x;
      assert y in InsertTerm(t, ts);
    }
    assert t in InsertTerm(t, ts);
  }

  function Make(ts: seq<Term>, c: int, p: int): LinForm
    requires p > 0
  {
    LinForm(MakeTerms(ts, p), Canon(c, p))
  }

  lemma MakeTermsFrom(ts: seq<Term>, p: int, x: Term)
    requires p > 0 && DistinctNames(ts) && x in MakeTerms(ts, p)
    ensures exists k :: 0 <= k < |ts| && ts[k].name == x.name
  {
    MakeTermsNames(ts, p, x.name);
    assert x.name in NamesOf(MakeTerms(ts, p));
  }

  lemma {:induction false} MakeTermsSorted(ts: seq<Term>, p: int)
    requires p > 0 && DistinctNames(ts)
    ensures SortedNames(MakeTerms(ts, p))
  {
    hide Canon;
    if ts != [] {
      var n := |ts| - 1;
      MakeTermsSorted(ts[..n], p);
      var rest, c := MakeTerms(ts[..n], p), Canon(ts[n].coeff, p);
      if c != 0 {
        forall x | x in rest ensures x.name != ts[n].name {
          MakeTermsFrom(ts[..n], p, x);
        }
        InsertSorted(Term(ts[n].name, c), rest);
      }
    }
  }

  lemma {:induction false} MakeTermsValue(ts: seq<Term>, p: int, env: string -> int)
    requires p > 0
    ensures Cong(TermsValue(MakeTerms(ts, p), env), TermsValue(ts, env), p)
  {
    hide Cong, Canon;
    if ts == [] {
      Refl(0, p);
    } else {
      var n := |ts| - 1;
      var rest, c, v := MakeTerms(ts[..n], p), Canon(ts[n].coeff, p), env(ts[n].name);
      MakeTermsValue(ts[..n], p, env);
      CanonResidue(ts[n].coeff, p);
      Refl(v, p);
      MulCong(c, ts[n].coeff, v, v, p);
      AddCong(TermsValue(rest, env), TermsValue(ts[..n], env), c * v, ts[n].coeff * v, p);
      if c != 0 {
        InsertValue(Term(ts[n].name, c), rest, env);
      }
    }
  }

  lemma MakeValue(ts: seq<Term>, c: int, p: int, env: Env)
    requires p > 0
    ensures Cong(FormValue(Make(ts, c, p), env), TermsValue(ts, env.cols) + c, p)
  {
    hide Cong, Canon, TermsValue, MakeTerms;
    MakeTermsValue(ts, p, env.cols);
    CanonResidue(c, p);
    AddCong(TermsValue(MakeTerms(ts, p), env.cols), TermsValue(ts, env.cols), Canon(c, p), c, p);
  }

  lemma MakeCanonical(ts: seq<Term>, c: int, p: int)
    requires p > 0 && DistinctNames(ts)
    ensures CanonicalForm(Make(ts, c, p), p)
  {
    MakeTermsSorted(ts, p);
  }

  // ---- Parsing ----

  /** Raw terms in order of first occurrence, and a raw constant. */
  datatype Raw = Raw(terms: seq<Term>, constant: int)

  /** A product is linear when one side is constant. */
  function Combine(x: Raw, op: BinOp, y: Raw): (r: Option<Raw>)
    ensures r.Some? && DistinctNames(x.terms) && DistinctNames(y.terms) ==> DistinctNames(r.value.terms)
  {
    match op
    case Plus => Some(Raw(AddScaled(x.terms, 1, y.terms), x.constant + y.constant))
    case Minus => Some(Raw(AddScaled(x.terms, -1, y.terms), x.constant - y.constant))
    case Times =>
      if x.terms == [] then Some(Raw(Scale(x.constant, y.terms), x.constant * y.constant))
      else if y.terms == [] then Some(Raw(Scale(y.constant, x.terms), y.constant * x.constant))
      else None
  }

  function LinTerms(e: Expr): (r: Option<Raw>)
    ensures r.Some? ==> DistinctNames(r.value.terms)
  {
    match e
    case Num(v) => Some(Raw([], v))
    case Col(x) => Some(Raw([Term(x, 1)], 0))
    case Neg(a) =>
      (match LinTerms(a)
       case None => None
       case Some(r) => Some(Raw(Scale(-1, r.terms), -r.constant)))
    case Bin(a, op, b) =>
      (match (LinTerms(a), LinTerms(b))
       case (Some(x), Some(y)) => Combine(x, op, y)
       case _ => None)
    case Other(_) => None
  }

  function RawValue(r: Raw, env: Env): int {
    TermsValue(r.terms, env.cols) + r.constant
  }

  lemma {:induction false} LinTermsValue(e: Expr, env: Env)
    requires LinTerms(e).Some?
    ensures RawValue(LinTerms(e).value, env) == EvalExpr(e, env)
  {
    match e
    case Num(_) =>
    case Col(x) =>
      SnocValue([], Term(x, 1), env.cols);
      assert [] + [Term(x, 1)] == [Term(x, 1)];
    case Neg(a) =>
      LinTermsValue(a, env);
      ScaleValue(-1, LinTerms(a).value.terms, env.cols);
    case Bin(a, op, b) =>
      LinTermsValue(a, env);
      LinTermsValue(b, env);
      CombineValue(LinTerms(a).value, op, LinTerms(b).value, env);
  }

  lemma CombineValue(x: Raw, op: BinOp, y: Raw, env: Env)
    requires Combine(x, op, y).Some?
    ensures RawValue(Combine(x, op, y).value, env) == Arith(op, RawValue(x, env), RawValue(y, env))
  {
    match op
    case Plus => AddScaledValue(x.terms, 1, y.terms, env.cols);
    case Minus => AddScaledValue(x.terms, -1, y.terms, env.cols);
    case Times =>
      if x.terms == [] {
        ScaledRaw(x.constant, y, env);
      } else {
        ScaledRaw(y.constant, x, env);
      }
  }

  lemma ScaledRaw(s: int, r: Raw, env: Env)
    ensures TermsValue(Scale(s, r.terms), env.cols) + s * r.constant == s * (TermsValue(r.terms, env.cols) + r.constant)
  {
    ScaleValue(s, r.terms, env.cols);
    Distribute(s, TermsValue(r.terms, env.cols), r.constant);
  }

  function ParseLin(e: Expr, p: int): Option<LinForm>
    requires p > 0
  {
    match LinTerms(e)
    case None => None
    case Some(r) => Some(Make(r.terms, r.constant, p))
  }

  /** A linear form has the value of its expression modulo `p`, and is canonical. */
  lemma ParseLinValue(e: Expr, p: int, env: Env)
    requires p > 0 && ParseLin(e, p).Some?
    ensures Cong(FormValue(ParseLin(e, p).value, env), EvalExpr(e, env), p)
    ensures CanonicalForm(ParseLin(e, p).value, p)
  {
    hide Cong, Canon, LinTerms, TermsValue, MakeTerms, CanonicalForm;
    var r := LinTerms(e).value;
    LinTermsValue(e, env);
    MakeValue(r.terms, r.constant, p, env);
    ParseLinCanonical(e, p);
  }

  lemma ParseLinCanonical(e: Expr, p: int)
    requires p > 0 && ParseLin(e, p).Some?
    ensures CanonicalForm(ParseLin(e, p).value, p)
  {
    MakeCanonical(LinTerms(e).value.terms, LinTerms(e).value.constant, p);
  }

  // ---- Substitution ----

  function KeptTerms(ts: seq<Term>, pins: map<string, int>): (r: seq<Term>)
    ensures forall t :: t in r <==> t in ts && t.name !in pins
    ensures DistinctNames(ts) ==> DistinctNames(r)
  {
    if ts == [] then []
    else
      var n := |ts| - 1;
      assert ts == ts[..n] + [ts[n]];
      KeptTerms(ts[..n], pins) + (if ts[n].name in pins then [] else [ts[n]])
  }

  function PinnedSum(ts: seq<Term>, pins: map<string, int>): int {
    if ts == [] then 0
    else PinnedSum(ts[..|ts| - 1], pins) + (if ts[|ts| - 1].name in pins then ts[|ts| - 1].coeff * pins[ts[|ts| - 1].name] else 0)
  }

  /** Folds pinned columns into the constant. */
  function Subst(lf: LinForm, pins: map<string, int>, p: int): LinForm
    requires p > 0
  {
    Make(KeptTerms(lf.terms, pins), lf.constant + PinnedSum(lf.terms, pins), p)
  }

  ghost predicate PinsHold(pins: map<string, int>, p: int, env: Env)
    requires p > 0
  {
    forall x :: x in pins ==> Cong(env.cols(x), pins[x], p)
  }

  lemma {:induction false} SplitSum(ts: seq<Term>, pins: map<string, int>, p: int, env: Env)
    requires p > 0 && PinsHold(pins, p, env)
    ensures Cong(TermsValue(KeptTerms(ts, pins), env.cols) + PinnedSum(ts, pins), TermsValue(ts, env.cols), p)
  {
    hide Cong, TermsValue, KeptTerms, PinnedSum;
    if ts == [] {
      SplitNone(pins, env);
      Refl(0, p);
    } else {
      SplitSum(ts[..|ts| - 1], pins, p, env);
      SplitLast(ts, pins, p, env);
    }
  }

  lemma SplitNone(pins: map<string, int>, env: Env)
    ensures TermsValue(KeptTerms([], pins), env.cols) == PinnedSum([], pins) == TermsValue([], env.cols) == 0
  {
  }

  lemma LastValues(ts: seq<Term>, pins: map<string, int>, env: string -> int)
    requires ts != []
    ensures var n, t := |ts| - 1, ts[|ts| - 1];
      && TermsValue(ts, env) == TermsValue(ts[..n], env) + t.coeff * env(t.name)
      && (t.name in pins ==>
            && KeptTerms(ts, pins) == KeptTerms(ts[..n], pins)
            && PinnedSum(ts, pins) == PinnedSum(ts[..n], pins) + t.coeff * pins[t.name])
      && (t.name !in pins ==>
            && TermsValue(KeptTerms(ts, pins), env) == TermsValue(KeptTerms(ts[..n], pins), env) + t.coeff * env(t.name)
            && PinnedSum(ts, pins) == PinnedSum(ts[..n], pins))
  {
    SnocValue(KeptTerms(ts[..|ts| - 1], pins), ts[|ts| - 1], env);
  }

  /** One more term: pinned into the constant, or kept. */
  lemma SplitLast(ts: seq<Term>, pins: map<string, int>, p: int, env: Env)
    requires p > 0 && PinsHold(pins, p, env) && ts != []
    requires var front := ts[..|ts| - 1];
      Cong(TermsValue(KeptTerms(front, pins), env.cols) + PinnedSum(front, pins), TermsValue(front, env.cols), p)
    ensures Cong(TermsValue(KeptTerms(ts, pins), env.cols) + PinnedSum(ts, pins), TermsValue(ts, env.cols), p)
  {
    hide Cong, TermsValue, KeptTerms, PinnedSum;
    var front, t := ts[..|ts| - 1], ts[|ts| - 1];
    LastValues(ts, pins, env.cols);
    var v := if t.name in pins then pins[t.name] else env.cols(t.name);
    if t.name in pins {
      Sym(env.cols(t.name), v, p);
    } else {
      Refl(v, p);
    }
    ScaleCong(t.coeff, v, env.cols(t.name), p);
    AddCong(TermsValue(KeptTerms(front, pins), env.cols) + PinnedSum(front, pins), TermsValue(front, env.cols),
            t.coeff * v, t.coeff * env.cols(t.name), p);
  }

  /** Substituting pins that hold keeps the value. */
  lemma SubstValue(lf: LinForm, pins: map<string, int>, p: int, env: Env)
    requires p > 0 && PinsHold(pins, p, env)
    ensures Cong(FormValue(Subst(lf, pins, p), env), FormValue(lf, env), p)
  {
    hide Cong, Canon, TermsValue, KeptTerms, PinnedSum, MakeTerms;
    var kept, pinned := KeptTerms(lf.terms, pins), PinnedSum(lf.terms, pins);
    SplitSum(lf.terms, pins, p, env);
    MakeValue(kept, lf.constant + pinned, p, env);
    Refl(lf.constant, p);
    AddCong(TermsValue(kept, env.cols) + pinned, TermsValue(lf.terms, env.cols), lf.constant, lf.constant, p);
    Trans(FormValue(Subst(lf, pins, p), env), TermsValue(kept, env.cols) + (lf.constant + pinned), FormValue(lf, env), p);
  }

  lemma SortedIsDistinct(ts: seq<Term>)
    requires SortedNames(ts)
    ensures DistinctNames(ts)
  {
    forall i, j | 0 <= i < j < |ts| ensures ts[i].name != ts[j].name {
      NameIrreflexive(ts[i].name);
      assert NameLess(ts[i].name, ts[j].name);
    }
  }

  /** A canonical nonzero coefficient is not a multiple of `p`, so it is never dropped: substitution removes
      exactly the pinned columns. */
  lemma SubstColumns(lf: LinForm, pins: map<string, int>, p: int)
    requires p > 0 && CanonicalForm(lf, p)
    ensures Columns(Subst(lf, pins, p)) == Columns(lf) - pins.Keys
    ensures CanonicalForm(Subst(lf, pins, p), p)
  {
    SortedIsDistinct(lf.terms);
    var kept := KeptTerms(lf.terms, pins);
    MakeCanonical(kept, lf.constant + PinnedSum(lf.terms, pins), p);
    forall x ensures x in Columns(Subst(lf, pins, p)) <==> x in Columns(lf) - pins.Keys {
      MakeTermsNames(kept, p, x);
      if x in Columns(lf) - pins.Keys {
        var t :| t in lf.terms && t.name == x;
        assert t in kept;
        var i :| 0 <= i < |kept| && kept[i] == t;
        CanonicalNonzero(t.coeff, p);
      }
      if i :| 0 <= i < |kept| && kept[i].name == x && kept[i].coeff % p != 0 {
        assert kept[i] in kept;
      }
    }
  }

  lemma CanonicalNonzero(c: int, p: int)
    requires p > 0 && c != 0 && -p < 2 * c <= p
    ensures c % p != 0
  {
    Division(c, p);
    SmallMultiple(p, c / p);
  }

  // ---- Products ----

  /** The factors of nested products, left to right. */
  function FlattenProduct(e: Expr): seq<Expr> {
    if e.Bin? && e.op.Times? then FlattenProduct(e.a) + FlattenProduct(e.b) else [e]
  }

  function ProductOf(es: seq<Expr>, env: Env): int {
    if es == [] then 1 else ProductOf(es[..|es| - 1], env) * EvalExpr(es[|es| - 1], env)
  }

  lemma {:induction false} ProductConcat(a: seq<Expr>, b: seq<Expr>, env: Env)
    ensures ProductOf(a + b, env) == ProductOf(a, env) * ProductOf(b, env)
  {
    if b == [] {
      assert a + b == a;
    } else {
      var n := |b| - 1;
      ProductConcat(a, b[..n], env);
      assert (a + b)[..|a + b| - 1] == a + b[..n];
      Associate(ProductOf(a, env), ProductOf(b[..n], env), EvalExpr(b[n], env));
    }
  }

  lemma {:induction false} FlattenValue(e: Expr, env: Env)
    ensures ProductOf(FlattenProduct(e), env) == EvalExpr(e, env)
  {
    if e.Bin? && e.op.Times? {
      FlattenValue(e.a, env);
      FlattenValue(e.b, env);
      ProductConcat(FlattenProduct(e.a), FlattenProduct(e.b), env);
    } else {
      assert [e][..0] == [];
    }
  }

  /** Modulo a prime a product vanishes exactly when a factor does. */
  lemma {:induction false} ProductVanishes(es: seq<Expr>, p: int, env: Env)
    requires Prime(p)
    ensures ProductOf(es, env) % p == 0 <==> exists i :: 0 <= i < |es| && EvalExpr(es[i], env) % p == 0
  {
    if es == [] {
      Small(1, p);
    } else {
      var n := |es| - 1;
      ProductVanishes(es[..n], p, env);
      var x, y := ProductOf(es[..n], env), EvalExpr(es[n], env);
      ProductZero(x, y, p);
      if i :| 0 <= i < n && EvalExpr(es[..n][i], env) % p == 0 {
        assert es[i] == es[..n][i];
      }
      if i :| 0 <= i < |es| && EvalExpr(es[i], env) % p == 0 {
        assert i < n ==> es[..n][i] == es[i];
      }
    }
  }

  lemma ProductZero(x: int, y: int, p: int)
    requires Prime(p)
    ensures (x * y) % p == 0 <==> x % p == 0 || y % p == 0
  {
    Small(0, p);
    if x % p == 0 {
      CongMulLeft(x, 0, y, p);
      assert 0 * y == 0;
    }
    if y % p == 0 {
      CongMulLeft(y, 0, x, p);
      assert x * 0 == 0;
    }
    if (x * y) % p == 0 {
      NoZeroDivisors(x, y, p);
    }
  }
}
