/** Constraint evaluation under finite assignments, and enumeration of flag assignments. */
module FlagEvaluation {
  import opened Wrappers
  import opened Residues
  import opened Sums
  import opened FieldForms
  import opened MultEvidence

  type Assignment = map<string, int>

  /** No node the evaluator would raise on. */
  predicate Known(e: Expr) {
    match e
    case Neg(a) => Known(a)
    case Bin(a, _, b) => Known(a) && Known(b)
    case Other(_) => false
    case _ => true
  }

  /** Residue of `e`; a column outside the assignment reads as zero. */
  function EvalConstraint(e: Expr, a: Assignment, p: int): (r: int)
    requires p > 0 && Known(e)
    ensures 0 <= r < p
  {
    match e
    case Num(v) => v % p
    case Col(x) => (if x in a then a[x] else 0) % p
    case Neg(b) => -EvalConstraint(b, a, p) % p
    case Bin(b, op, c) => Arith(op, EvalConstraint(b, a, p), EvalConstraint(c, a, p)) % p
  }

  /** Residue of `e` when the assignment determines it; a zero factor is enough for a product. */
  function EvalPartial(e: Expr, a: Assignment, p: int): (r: Option<int>)
    requires p > 0 && Known(e)
    ensures r.Some? ==> 0 <= r.value < p
  {
    match e
    case Num(v) => Some(v % p)
    case Col(x) => if x in a then Some(a[x] % p) else None
    case Neg(b) =>
      (match EvalPartial(b, a, p)
       case None => None
       case Some(v) => Some(-v % p))
    case Bin(b, op, c) =>
      var x, y := EvalPartial(b, a, p), EvalPartial(c, a, p);
      if op.Times? && (x == Some(0) || y == Some(0)) then Some(0)
      else if x.None? || y.None? then None
      else Some(Arith(op, x.value, y.value) % p)
  }

  lemma ArithCong(op: BinOp, a: int, b: int, c: int, d: int, p: int)
    requires p > 0 && Cong(a, b, p) && Cong(c, d, p)
    ensures Cong(Arith(op, a, c), Arith(op, b, d), p)
  {
    match op
    case Plus => AddCong(a, b, c, d, p);
    case Minus => SubCong(a, b, c, d, p);
    case Times => MulCong(a, b, c, d, p);
  }

  ghost predicate AgreesOn(xs: set<string>, a: Assignment, p: int, env: Env)
    requires p > 0
  {
    forall x :: x in xs ==> Cong(if x in a then a[x] else 0, env.cols(x), p)
  }

  /** Evaluation depends on the residues of the mentioned columns alone. */
  lemma {:induction false} EvalConstraintMeans(e: Expr, a: Assignment, p: int, env: Env)
    requires p > 0 && Known(e) && AgreesOn(Names(e), a, p, env)
    ensures Cong(EvalConstraint(e, a, p), EvalExpr(e, env), p)
  {
    hide Cong;
    match e
    case Num(v) => ResidueCong(v, p);
    case Col(x) =>
      var v := if x in a then a[x] else 0;
      assert x in Names(e);
      ResidueCong(v, p);
      Trans(v % p, v, env.cols(x), p);
    case Neg(b) =>
      EvalConstraintMeans(b, a, p, env);
      var v := EvalConstraint(b, a, p);
      NegCong(v, EvalExpr(b, env), p);
      ResidueCong(-v, p);
      Trans(-v % p, -v, -EvalExpr(b, env), p);
    case Bin(b, op, c) =>
      EvalConstraintMeans(b, a, p, env);
      EvalConstraintMeans(c, a, p, env);
      var x, y := EvalConstraint(b, a, p), EvalConstraint(c, a, p);
      ArithCong(op, x, EvalExpr(b, env), y, EvalExpr(c, env), p);
      ResidueCong(Arith(op, x, y), p);
      Trans(Arith(op, x, y) % p, Arith(op, x, y), EvalExpr(e, env), p);
  }

  /** A determined value is right under every environment the assignment agrees with. */
  lemma {:induction false} EvalPartialMeans(e: Expr, a: Assignment, p: int, env: Env)
    requires p > 0 && Known(e) && AgreesOn(a.Keys, a, p, env) && EvalPartial(e, a, p).Some?
    ensures Cong(EvalPartial(e, a, p).value, EvalExpr(e, env), p)
    decreases e, 1
  {
    hide Cong;
    match e
    case Num(v) => ResidueCong(v, p);
    case Col(x) =>
      assert x in a.Keys;
      ResidueCong(a[x], p);
      Trans(a[x] % p, a[x], env.cols(x), p);
    case Neg(b) =>
      EvalPartialMeans(b, a, p, env);
      var v := EvalPartial(b, a, p).value;
      NegCong(v, EvalExpr(b, env), p);
      ResidueCong(-v, p);
      Trans(-v % p, -v, -EvalExpr(b, env), p);
    case Bin(b, op, c) =>
      PartialBinary(e, a, p, env);
  }

  lemma {:induction false} PartialBinary(e: Expr, a: Assignment, p: int, env: Env)
    requires p > 0 && Known(e) && AgreesOn(a.Keys, a, p, env) && e.Bin? && EvalPartial(e, a, p).Some?
    ensures Cong(EvalPartial(e, a, p).value, EvalExpr(e, env), p)
    decreases e, 0
  {
    hide Cong;
    var x, y := EvalPartial(e.a, a, p), EvalPartial(e.b, a, p);
    var u, v := EvalExpr(e.a, env), EvalExpr(e.b, env);
    if x.Some? {
      EvalPartialMeans(e.a, a, p, env);
    }
    if y.Some? {
      EvalPartialMeans(e.b, a, p, env);
    }
    if e.op.Times? && x == Some(0) {
      Refl(v, p);
      MulCong(0, u, v, v, p);
      assert 0 * v == 0;
    } else if e.op.Times? && y == Some(0) {
      Refl(u, p);
      MulCong(u, u, 0, v, p);
      assert u * 0 == 0;
    } else {
      ArithCong(e.op, x.value, u, y.value, v, p);
      ResidueCong(Arith(e.op, x.value, y.value), p);
      Trans(Arith(e.op, x.value, y.value) % p, Arith(e.op, x.value, y.value), EvalExpr(e, env), p);
    }
  }

  // ---- Enumeration ----

  type Domains = map<string, int>

  function Extend(rest: seq<Assignment>, x: string, n: nat): seq<Assignment> {
    if n == 0 then []
    else Extend(rest, x, n - 1) + seq(|rest|, i requires 0 <= i < |rest| => rest[i][x := n - 1])
  }

  /** Every assignment of the flags within their domains. */
  function Assignments(flags: seq<string>, dom: Domains): seq<Assignment>
    requires forall x :: x in flags ==> x in dom && dom[x] >= 0
  {
    if flags == [] then [map[]]
    else Extend(Assignments(flags[1..], dom), flags[0], dom[flags[0]])
  }

  ghost predicate InDomains(a: Assignment, flags: seq<string>, dom: Domains)
    requires forall x :: x in flags ==> x in dom
  {
    a.Keys == ToSet(flags) && forall x :: x in flags ==> 0 <= a[x] < dom[x]
  }

  predicate ExtendedAt(rest: seq<Assignment>, i: int, x: string, v: int, a: Assignment) {
    0 <= i < |rest| && a == rest[i][x := v]
  }

  lemma {:induction false} InExtend(rest: seq<Assignment>, x: string, n: nat, a: Assignment)
    ensures a in Extend(rest, x, n) <==> exists i, v :: 0 <= v < n && ExtendedAt(rest, i, x, v, a)
  {
    if n > 0 {
      var last := seq(|rest|, i requires 0 <= i < |rest| => rest[i][x := n - 1]);
      InExtend(rest, x, n - 1, a);
      if a in last {
        var i :| 0 <= i < |rest| && last[i] == a;
        assert ExtendedAt(rest, i, x, n - 1, a);
      }
      if i, v :| 0 <= v < n && ExtendedAt(rest, i, x, v, a) {
        assert v == n - 1 ==> last[i] == a;
      }
    }
  }

  lemma {:induction false} AssignmentsSound(flags: seq<string>, dom: Domains, a: Assignment)
    requires forall x :: x in flags ==> x in dom && dom[x] >= 0
    requires a in Assignments(flags, dom)
    ensures InDomains(a, flags, dom)
  {
    if flags != [] {
      var x, rest := flags[0], Assignments(flags[1..], dom);
      InExtend(rest, x, dom[x], a);
      var i, v :| 0 <= v < dom[x] && ExtendedAt(rest, i, x, v, a);
      assert rest[i] in rest;
      AssignmentsSound(flags[1..], dom, rest[i]);
      FlagsSplit(flags);
    }
  }

  lemma FlagsSplit(flags: seq<string>)
    requires flags != []
    ensures ToSet(flags) == ToSet(flags[1..]) + {flags[0]}
    ensures forall x :: x in flags <==> x == flags[0] || x in flags[1..]
  {
    assert flags == [flags[0]] + flags[1..];
  }

  /** The values a valuation gives the flags. */
  function Restrict(cols: string -> int, flags: seq<string>): Assignment {
    map x | x in flags :: cols(x)
  }

  lemma {:induction false} AssignmentsComplete(flags: seq<string>, dom: Domains, cols: string -> int)
    requires forall x :: x in flags ==> x in dom && 0 <= cols(x) < dom[x]
    ensures Restrict(cols, flags) in Assignments(flags, dom)
  {
    if flags == [] {
      assert Restrict(cols, flags) == map[];
      assert Assignments(flags, dom)[0] == map[];
    } else {
      var x, rest := flags[0], Assignments(flags[1..], dom);
      FlagsSplit(flags);
      AssignmentsComplete(flags[1..], dom, cols);
      var i :| 0 <= i < |rest| && rest[i] == Restrict(cols, flags[1..]);
      assert Restrict(cols, flags) == rest[i][x := cols(x)];
      assert ExtendedAt(rest, i, x, cols(x), Restrict(cols, flags));
      InExtend(rest, x, dom[x], Restrict(cols, flags));
    }
  }

  // ---- Columns that enter linearly ----

  /** `x` occurs in no product with itself: every product has it in at most one factor. */
  ghost predicate AffineIn(e: Expr, x: string) {
    match e
    case Neg(a) => AffineIn(a, x)
    case Bin(a, op, b) => AffineIn(a, x) && AffineIn(b, x) && (op.Times? ==> x !in Names(a) || x !in Names(b))
    case _ => true
  }

  function SetCol(env: Env, x: string, v: int): Env {
    env.(cols := (y: string) => if y == x then v else env.cols(y))
  }

  lemma {:induction false} Unmentioned(e: Expr, x: string, env: Env, v: int)
    requires x !in Names(e)
    ensures EvalExpr(e, SetCol(env, x, v)) == EvalExpr(e, env)
  {
    match e
    case Neg(a) => Unmentioned(a, x, env, v);
    case Bin(a, _, b) =>
      Unmentioned(a, x, env, v);
      Unmentioned(b, x, env, v);
    case _ =>
  }

  function At(e: Expr, env: Env, x: string, v: int): int {
    EvalExpr(e, SetCol(env, x, v))
  }

  lemma AtParts(e: Expr, env: Env, x: string, v: int)
    ensures e.Neg? ==> At(e, env, x, v) == -At(e.e, env, x, v)
    ensures e.Bin? ==> At(e, env, x, v) == Arith(e.op, At(e.a, env, x, v), At(e.b, env, x, v))
  {
  }

  /** Such an expression is an affine function of the column. */
  lemma {:induction false} AffineValues(e: Expr, env: Env, x: string, v: int)
    requires AffineIn(e, x)
    ensures At(e, env, x, v) == At(e, env, x, 0) + v * (At(e, env, x, 1) - At(e, env, x, 0))
  {
    AtParts(e, env, x, v);
    AtParts(e, env, x, 0);
    AtParts(e, env, x, 1);
    match e
    case Neg(a) =>
      AffineValues(a, env, x, v);
      NegatedAffine(At(a, env, x, 0), At(a, env, x, 1), v);
    case Bin(a, op, b) =>
      AffineValues(a, env, x, v);
      AffineValues(b, env, x, v);
      AffineBinary(a, op, b, env, x, v);
    case _ =>
  }

  lemma NegatedAffine(a0: int, a1: int, v: int)
    ensures -(a0 + v * (a1 - a0)) == -a0 + v * (-a1 - -a0)
  {
    Distribute(v, a1 - a0, -(a1 - a0));
  }

  lemma AffineBinary(a: Expr, op: BinOp, b: Expr, env: Env, x: string, v: int)
    requires AffineIn(Bin(a, op, b), x)
    requires At(a, env, x, v) == At(a, env, x, 0) + v * (At(a, env, x, 1) - At(a, env, x, 0))
    requires At(b, env, x, v) == At(b, env, x, 0) + v * (At(b, env, x, 1) - At(b, env, x, 0))
    ensures Arith(op, At(a, env, x, v), At(b, env, x, v))
         == Arith(op, At(a, env, x, 0), At(b, env, x, 0))
            + v * (Arith(op, At(a, env, x, 1), At(b, env, x, 1)) - Arith(op, At(a, env, x, 0), At(b, env, x, 0)))
  {
    hide At;
    var a0, a1, b0, b1 := At(a, env, x, 0), At(a, env, x, 1), At(b, env, x, 0), At(b, env, x, 1);
    if !op.Times? {
      AffineSum(op, a0, a1, b0, b1, v);
    } else if x !in Names(a) {
      ConstantFactor(a, x, env, v);
      AffineProduct(a0, b0, b1, v);
    } else {
      ConstantFactor(b, x, env, v);
      AffineProduct(b0, a0, a1, v);
    }
  }

  lemma ConstantFactor(e: Expr, x: string, env: Env, v: int)
    requires x !in Names(e)
    ensures At(e, env, x, v) == At(e, env, x, 0) == At(e, env, x, 1)
  {
    Unmentioned(e, x, env, v);
    Unmentioned(e, x, env, 0);
    Unmentioned(e, x, env, 1);
  }

  lemma AffineProduct(c: int, b0: int, b1: int, v: int)
    ensures c * (b0 + v * (b1 - b0)) == c * b0 + v * (c * b1 - c * b0)
    ensures (b0 + v * (b1 - b0)) * c == b0 * c + v * (b1 * c - b0 * c)
  {
    Distribute(c, b0, v * (b1 - b0));
    Associate(c, v, b1 - b0);
    Distribute(c, b1, -b0);
  }

  lemma AffineSum(op: BinOp, a0: int, a1: int, b0: int, b1: int, v: int)
    requires !op.Times?
    ensures Arith(op, a0 + v * (a1 - a0), b0 + v * (b1 - b0)) == Arith(op, a0, b0) + v * (Arith(op, a1, b1) - Arith(op, a0, b0))
  {
    Distribute(v, a1 - a0, b1 - b0);
    Distribute(v, a1 - a0, -(b1 - b0));
  }
}
