/** Pinning a selector or an opcode flag by enumerating the flags of its access. */
module FlagRefutation {
  import opened Wrappers
  import opened Sets
  import opened Residues
  import opened Primes
  import opened FieldForms
  import opened FieldGadgets
  import opened MultEvidence
  import opened FieldBounds
  import opened FlagEvaluation

  /** Columns are field elements within their bounds, and every constraint vanishes. */
  ghost predicate PropModel(cons: seq<Expr>, bs: Bounds, p: int, env: Env)
    requires p > 0
  {
    FieldEnv(env, p) && AllZero(cons, p, env) && BoundsHold(bs, env)
  }

  ghost predicate AllKnown(cons: seq<Expr>) {
    forall c :: c in cons ==> Known(c)
  }

  // ---- Deciding constraints ----

  /** `x - g` or `g + x`. */
  predicate Forward(c: Expr, x: string) {
    c.Bin? && ((c.op.Minus? && c.a == Col(x)) || (c.op.Plus? && c.b == Col(x)))
  }

  /** `g - x`. */
  predicate Backward(c: Expr, x: string) {
    c.Bin? && c.op.Minus? && c.b == Col(x)
  }

  function First(cons: seq<Expr>, holds: Expr -> bool): (r: Option<Expr>)
    ensures r.Some? ==> r.value in cons && holds(r.value)
  {
    if cons == [] then None
    else if holds(cons[0]) then Some(cons[0])
    else
      assert forall c :: c in cons[1..] ==> c in cons;
      First(cons[1..], holds)
  }

  /** The decode of `x`: the first forward one, else the first backward one. */
  function MuxOf(cons: seq<Expr>, x: string): (r: Option<Expr>)
    ensures r.Some? ==> r.value in cons && x in Names(r.value)
  {
    var f := First(cons, c => Forward(c, x));
    if f.Some? then f else First(cons, c => Backward(c, x))
  }

  /** Nonlinear constraints over exactly the flags. */
  function FlagGadgets(cons: seq<Expr>, x: string, flags: seq<string>, p: int): (r: seq<Expr>)
    requires p > 0
    ensures forall c :: c in r <==> c in cons && ParseLin(c, p).None? && Names(c) == ToSet(flags) && x !in Names(c)
  {
    if cons == [] then []
    else
      var c := cons[0];
      assert cons == [c] + cons[1..];
      (if ParseLin(c, p).None? && Names(c) == ToSet(flags) && x !in Names(c) then [c] else []) + FlagGadgets(cons[1..], x, flags, p)
  }

  function Deciding(cons: seq<Expr>, x: string, flags: seq<string>, p: int): (r: seq<Expr>)
    requires p > 0
    ensures forall c :: c in r ==> c in cons
    ensures MuxOf(cons, x).Some? ==> MuxOf(cons, x).value in r
  {
    (if MuxOf(cons, x).Some? then [MuxOf(cons, x).value] else []) + FlagGadgets(cons, x, flags, p)
  }

  /** Every column read is enumerated or pinned. */
  predicate Covered(deciding: seq<Expr>, known: set<string>) {
    forall c :: c in deciding ==> Names(c) <= known
  }

  predicate AllVanish(deciding: seq<Expr>, a: Assignment, p: int)
    requires p > 0 && AllKnown(deciding)
  {
    forall c :: c in deciding ==> EvalConstraint(c, a, p) == 0
  }

  lemma ConstraintsVanish(deciding: seq<Expr>, cons: seq<Expr>, a: Assignment, p: int, env: Env)
    requires p > 0 && AllKnown(deciding) && AllZero(cons, p, env) && forall c :: c in deciding ==> c in cons
    requires Covered(deciding, a.Keys) && AgreesOn(a.Keys, a, p, env)
    ensures AllVanish(deciding, a, p)
  {
    forall c | c in deciding ensures EvalConstraint(c, a, p) == 0 {
      EvalConstraintMeans(c, a, p, env);
      assert Zero(c, p, env);
      Small(EvalConstraint(c, a, p), p);
      Small(0, p);
    }
  }

  // ---- The selector ----

  function LoadBase(mux: Expr, a: Assignment, x: string, p: int): int
    requires p > 0 && Known(mux)
  {
    EvalConstraint(mux, a[x := 0], p)
  }

  function LoadSlope(mux: Expr, a: Assignment, x: string, p: int): int
    requires p > 0 && Known(mux)
  {
    (EvalConstraint(mux, a[x := 1], p) - LoadBase(mux, a, x, p)) % p
  }

  /** The value the decode gives `x`. */
  function LoadValue(mux: Expr, a: Assignment, x: string, p: int): (v: int)
    requires p > 1 && Known(mux)
    ensures 0 <= v < p
  {
    (-LoadBase(mux, a, x, p) * Inverse(LoadSlope(mux, a, x, p), p)) % p
  }

  lemma {:induction false} SetSame(e: Expr, env: Env, x: string)
    ensures At(e, env, x, env.cols(x)) == EvalExpr(e, env)
  {
    match e
    case Neg(a) => SetSame(a, env, x);
    case Bin(a, _, b) =>
      SetSame(a, env, x);
      SetSame(b, env, x);
    case _ =>
  }

  lemma SetAgrees(a: Assignment, x: string, v: int, p: int, env: Env)
    requires p > 0 && AgreesOn(a.Keys, a, p, env)
    ensures AgreesOn(a.Keys + {x}, a[x := v], p, SetCol(env, x, v))
  {
    forall y | y in a.Keys + {x} ensures Cong(if y in a[x := v] then a[x := v][y] else 0, SetCol(env, x, v).cols(y), p) {
      if y != x {
        assert y in a.Keys;
      }
    }
  }

  lemma EvalSet(e: Expr, a: Assignment, x: string, v: int, p: int, env: Env)
    requires p > 0 && Known(e) && Names(e) <= a.Keys + {x} && AgreesOn(a.Keys, a, p, env)
    ensures Cong(EvalConstraint(e, a[x := v], p), At(e, env, x, v), p)
  {
    SetAgrees(a, x, v, p, env);
    assert AgreesOn(Names(e), a[x := v], p, SetCol(env, x, v));
    EvalConstraintMeans(e, a[x := v], p, SetCol(env, x, v));
  }

  /** A decode affine in `x` with nonzero slope gives the column its value. */
  lemma DecodeDetermines(mux: Expr, a: Assignment, x: string, p: int, env: Env)
    requires Prime(p) && Known(mux) && AffineIn(mux, x) && Names(mux) <= a.Keys + {x} && AgreesOn(a.Keys, a, p, env)
    requires LoadSlope(mux, a, x, p) != 0 && Zero(mux, p, env)
    ensures Cong(env.cols(x), LoadValue(mux, a, x, p), p)
  {
    hide Cong, EvalConstraint, At, Inverse;
    var base, slope, v := LoadBase(mux, a, x, p), LoadSlope(mux, a, x, p), env.cols(x);
    var one := EvalConstraint(mux, a[x := 1], p);
    EvalSet(mux, a, x, 0, p, env);
    EvalSet(mux, a, x, 1, p, env);
    SetSame(mux, env, x);
    AffineValues(mux, env, x, v);
    var b0, b1 := At(mux, env, x, 0), At(mux, env, x, 1);
    SubCong(one, b1, base, b0, p);
    ResidueCong(one - base, p);
    Trans(slope, one - base, b1 - b0, p);
    Refl(v, p);
    MulCong(slope, b1 - b0, v, v, p);
    AddCong(slope * v, (b1 - b0) * v, base, b0, p);
    Trans(slope * v + base, b0 + v * (b1 - b0), 0, p);
    SlopeNonzero(slope, p);
    LinearRoot(slope, base, v, p);
    ResidueCong(-base * Inverse(slope, p), p);
    Sym(LoadValue(mux, a, x, p), -base * Inverse(slope, p), p);
    Trans(v, -base * Inverse(slope, p), LoadValue(mux, a, x, p), p);
  }

  lemma SlopeNonzero(s: int, p: int)
    requires p > 0 && s != 0 && (exists t :: s == t % p)
    ensures s % p != 0
  {
    var t :| s == t % p;
    Division(t, p);
    Small(s, p);
  }

  ghost predicate DomainsOf(flags: seq<string>, dom: Domains, bs: Bounds) {
    forall x :: x in flags ==> x in dom && dom[x] >= 0 && x in bs && bs[x] == Bound(0, Some(dom[x]))
  }

  predicate LoadGuards(cons: seq<Expr>, x: string, flags: seq<string>, pins: Assignment, dom: Domains, p: int)
    requires p > 0 && AllKnown(cons) && forall f :: f in flags ==> f in dom && dom[f] >= 0
  {
    && MuxOf(cons, x).Some?
    && Covered(Deciding(cons, x, flags, p), ToSet(flags) + {x} + pins.Keys)
    && forall a :: a in Assignments(flags, dom) ==> LoadSlope(MuxOf(cons, x).value, pins + a, x, p) != 0
  }

  /** Values the decode reaches over the flag assignments that survive. */
  ghost function ReachableLoads(cons: seq<Expr>, x: string, flags: seq<string>, pins: Assignment, dom: Domains, p: int): set<int>
    requires p > 1 && AllKnown(cons) && MuxOf(cons, x).Some? && forall f :: f in flags ==> f in dom && dom[f] >= 0
  {
    set a | a in Assignments(flags, dom) && LoadSurvives(cons, x, flags, pins + a, p) :: LoadValue(MuxOf(cons, x).value, pins + a, x, p)
  }

  predicate LoadSurvives(cons: seq<Expr>, x: string, flags: seq<string>, a: Assignment, p: int)
    requires p > 1 && AllKnown(cons) && MuxOf(cons, x).Some?
  {
    AllVanish(Deciding(cons, x, flags, p), a[x := LoadValue(MuxOf(cons, x).value, a, x, p)], p)
  }

  predicate Reaches(cons: seq<Expr>, x: string, flags: seq<string>, a: Assignment, p: int, v: int)
    requires p > 1 && AllKnown(cons) && MuxOf(cons, x).Some?
  {
    LoadSurvives(cons, x, flags, a, p) && LoadValue(MuxOf(cons, x).value, a, x, p) == v
  }

  /** Pins the selector when one value is reachable. */
  method RefuteIsLoad(cons: seq<Expr>, x: string, flags: seq<string>, pins: Assignment, dom: Domains, p: int) returns (r: Option<int>)
    requires Prime(p) && AllKnown(cons) && forall f :: f in flags ==> f in dom && dom[f] >= 0
    ensures r.Some? <==> LoadGuards(cons, x, flags, pins, dom, p) && exists v :: ReachableLoads(cons, x, flags, pins, dom, p) == {v}
    ensures r.Some? ==> exists v :: ReachableLoads(cons, x, flags, pins, dom, p) == {v} && r.value == Canon(v, p)
  {
    hide Canon, ReachableLoads;
    var deciding := Deciding(cons, x, flags, p);
    var mux := MuxOf(cons, x);
    if deciding == [] || !Covered(deciding, ToSet(flags) + {x} + pins.Keys) || mux.None? {
      return None;
    }
    var reachable := Collect(cons, x, flags, pins, dom, p);
    if reachable.Some? && |reachable.value| == 1 {
      var v := AnyOf(reachable.value);
      OnlyElement(reachable.value, v);
      return Some(Canon(v, p));
    }
    return None;
  }

  /** Solves the decode under every flag assignment; `None` when some assignment leaves it open. */
  method Collect(cons: seq<Expr>, x: string, flags: seq<string>, pins: Assignment, dom: Domains, p: int) returns (r: Option<set<int>>)
    requires Prime(p) && AllKnown(cons) && MuxOf(cons, x).Some? && forall f :: f in flags ==> f in dom && dom[f] >= 0
    ensures r.Some? <==> forall a :: a in Assignments(flags, dom) ==> LoadSlope(MuxOf(cons, x).value, pins + a, x, p) != 0
    ensures r.Some? ==> r.value == ReachableLoads(cons, x, flags, pins, dom, p)
  {
    hide LoadSlope, LoadValue, LoadSurvives, Assignments, Deciding;
    var all, mux := Assignments(flags, dom), MuxOf(cons, x).value;
    var reachable: set<int> := {};
    for i := 0 to |all|
      invariant forall j :: 0 <= j < i ==> LoadSlope(mux, pins + all[j], x, p) != 0
      invariant forall v :: v in reachable <==> exists j :: 0 <= j < i && Reaches(cons, x, flags, pins + all[j], p, v)
    {
      var a := pins + all[i];
      if LoadSlope(mux, a, x, p) == 0 {
        assert all[i] in all;
        return None;
      }
      ghost var before := reachable;
      if LoadSurvives(cons, x, flags, a, p) {
        reachable := reachable + {LoadValue(mux, a, x, p)};
      }
      forall v ensures v in reachable <==> v in before || Reaches(cons, x, flags, a, p, v) {
      }
    }
    forall v ensures v in reachable <==> v in ReachableLoads(cons, x, flags, pins, dom, p) {
      if v in ReachableLoads(cons, x, flags, pins, dom, p) {
        var a :| a in all && Reaches(cons, x, flags, pins + a, p, v);
        var j :| 0 <= j < |all| && all[j] == a;
        assert Reaches(cons, x, flags, pins + all[j], p, v);
      }
    }
    return Some(reachable);
  }

  lemma TrialAgrees(pins: Assignment, flags: seq<string>, p: int, env: Env)
    requires p > 0 && PinsHold(pins, p, env)
    ensures var a := pins + Restrict(env.cols, flags); AgreesOn(a.Keys, a, p, env) && a.Keys == pins.Keys + ToSet(flags)
  {
  }

  /** The pin is the selector's residue in every model. */
  lemma LoadPinHolds(cons: seq<Expr>, x: string, flags: seq<string>, pins: Assignment, dom: Domains, bs: Bounds, p: int, v: int, env: Env)
    requires Prime(p) && AllKnown(cons) && DomainsOf(flags, dom, bs)
    requires LoadGuards(cons, x, flags, pins, dom, p) && AffineIn(MuxOf(cons, x).value, x)
    requires ReachableLoads(cons, x, flags, pins, dom, p) == {v}
    requires PropModel(cons, bs, p, env) && PinsHold(pins, p, env)
    ensures Cong(env.cols(x), Canon(v, p), p)
  {
    hide Cong, EvalConstraint, Canon, LoadValue;
    var a := Restrict(env.cols, flags);
    var mux, trial := MuxOf(cons, x).value, pins + a;
    forall f | f in flags ensures 0 <= env.cols(f) < dom[f] {
      assert Within(bs[f], env.cols(f));
    }
    AssignmentsComplete(flags, dom, env.cols);
    TrialAgrees(pins, flags, p, env);
    assert Zero(mux, p, env);
    DecodeDetermines(mux, trial, x, p, env);
    var u := LoadValue(mux, trial, x, p);
    OverrideAgrees(trial, x, u, p, env);
    ConstraintsVanish(Deciding(cons, x, flags, p), cons, trial[x := u], p, env);
    assert u in ReachableLoads(cons, x, flags, pins, dom, p);
    CanonResidue(v, p);
    Sym(Canon(v, p), v, p);
    Trans(env.cols(x), v, Canon(v, p), p);
  }

  lemma OverrideAgrees(a: Assignment, x: string, v: int, p: int, env: Env)
    requires p > 0 && AgreesOn(a.Keys, a, p, env) && Cong(env.cols(x), v, p)
    ensures AgreesOn(a[x := v].Keys, a[x := v], p, env)
  {
    forall y | y in a[x := v].Keys ensures Cong(a[x := v][y], env.cols(y), p) {
      if y != x {
        assert y in a.Keys;
      }
    }
  }

  // ---- A decode that is not affine ----

  /** `x - 2 * x * x`, which vanishes at zero and at one half. */
  const QUADRATIC: Expr := Bin(Col("x"), Minus, Bin(Num(2), Times, Bin(Col("x"), Times, Col("x"))))
  /** `f * (f - 1)`. */
  const ONE_FLAG: Expr := Bin(Col("f"), Times, Bin(Col("f"), Minus, Num(1)))

  /** Without the affine decode the selector is pinned wrongly: with one bounded flag the guards pass and zero is the only
      reachable value, yet `x = 1/2` is a model. */
  lemma QuadraticDecodeEscapes(p: int, env: Env)
    requires p > 2 && p % 2 == 1 && FieldEnv(env, p) && env.cols("x") == (p + 1) / 2 && env.cols("f") == 0
    ensures var cons, flags, dom, bs: Bounds := [QUADRATIC, ONE_FLAG], ["f"], map["f" := 2], map["f" := Bound(0, Some(2))];
      && AllKnown(cons) && DomainsOf(flags, dom, bs)
      && LoadGuards(cons, "x", flags, map[], dom, p) && ReachableLoads(cons, "x", flags, map[], dom, p) == {0}
      && MuxOf(cons, "x") == Some(QUADRATIC) && !AffineIn(QUADRATIC, "x")
      && PropModel(cons, bs, p, env) && !Cong(env.cols("x"), 0, p)
  {
    hide AllVanish, Deciding, Assignments, LoadSurvives, LoadSlope, LoadValue;
    var cons, flags, dom := [QUADRATIC, ONE_FLAG], ["f"], map["f" := 2];
    HalfIsRoot(p, env);
    DecidingNames(p);
    forall a | a in Assignments(flags, dom) ensures LoadSlope(QUADRATIC, map[] + a, "x", p) != 0 && LoadValue(QUADRATIC, map[] + a, "x", p) == 0 {
      EscapeValues(p, map[] + a);
    }
    assert Forward(QUADRATIC, "x");
    AssignmentsComplete(flags, dom, env.cols);
    var zero := Restrict(env.cols, flags);
    ZeroSurvives(p, map[] + zero);
    assert 0 in ReachableLoads(cons, "x", flags, map[], dom, p);
  }

  lemma HalfIsRoot(p: int, env: Env)
    requires p > 2 && p % 2 == 1 && env.cols("x") == (p + 1) / 2 && env.cols("f") == 0
    ensures Zero(QUADRATIC, p, env) && Zero(ONE_FLAG, p, env) && !Cong(env.cols("x"), 0, p)
  {
    var v := (p + 1) / 2;
    var q := Bin(Col("x"), Times, Col("x"));
    assert EvalExpr(q, env) == v * v && EvalExpr(QUADRATIC.b, env) == 2 * (v * v);
    assert v - 2 * (v * v) == p * -v by {
      assert 2 * v == p + 1;
      assert 2 * (v * v) == (2 * v) * v == p * v + v;
    }
    MultipleVanishes(p, -v);
    Small(0, p);
    Small(v, p);
    assert EvalExpr(ONE_FLAG, env) == 0 * (0 - 1);
  }

  lemma DecidingNames(p: int)
    requires p > 2
    ensures Covered(Deciding([QUADRATIC, ONE_FLAG], "x", ["f"], p), ToSet(["f"]) + {"x"})
    ensures MuxOf([QUADRATIC, ONE_FLAG], "x") == Some(QUADRATIC)
  {
    hide LinTerms;
    assert Forward(QUADRATIC, "x");
    assert Names(QUADRATIC) == {"x"} && Names(ONE_FLAG) == {"f"} && "f" in ToSet(["f"]);
    forall c | c in Deciding([QUADRATIC, ONE_FLAG], "x", ["f"], p) ensures Names(c) <= ToSet(["f"]) + {"x"} {
      assert c in [QUADRATIC, ONE_FLAG];
    }
  }

  lemma ZeroSurvives(p: int, a: Assignment)
    requires p > 2 && a == map["f" := 0]
    ensures LoadSurvives([QUADRATIC, ONE_FLAG], "x", ["f"], a, p)
  {
    hide EvalConstraint, Deciding, LoadValue;
    DecidingNames(p);
    EscapeValues(p, a);
    EscapeAt(p, a, 0);
    Small(0, p);
    FlagVanishes(p, a["x" := 0]);
    forall c | c in Deciding([QUADRATIC, ONE_FLAG], "x", ["f"], p) ensures EvalConstraint(c, a["x" := 0], p) == 0 {
      assert c in [QUADRATIC, ONE_FLAG];
    }
  }

  lemma FlagVanishes(p: int, a: Assignment)
    requires p > 2 && "f" in a && a["f"] == 0
    ensures EvalConstraint(ONE_FLAG, a, p) == 0
  {
    Small(0, p);
    Small(1, p);
    assert EvalConstraint(Col("f"), a, p) == 0;
    assert 0 * EvalConstraint(Bin(Col("f"), Minus, Num(1)), a, p) == 0;
  }

  lemma EscapeValues(p: int, a: Assignment)
    requires p > 2
    ensures LoadSlope(QUADRATIC, a, "x", p) == p - 1 && LoadValue(QUADRATIC, a, "x", p) == 0
  {
    hide EvalConstraint, Inverse;
    EscapeAt(p, a, 0);
    EscapeAt(p, a, 1);
    Small(0, p);
    Small(p - 1, p);
    ModUnique(-1, p, -1, p - 1);
  }

  lemma EscapeAt(p: int, a: Assignment, v: int)
    requires p > 2 && 0 <= v <= 1
    ensures EvalConstraint(QUADRATIC, a["x" := v], p) == (-v) % p
  {
    var b: Assignment := a["x" := v];
    var x := Col("x");
    Small(v, p);
    Small(2, p);
    Small(2 * v, p);
    assert EvalConstraint(x, b, p) == v && EvalConstraint(Num(2), b, p) == 2;
    var q := Bin(x, Times, x);
    assert v * v == v;
    assert EvalConstraint(q, b, p) == v;
    assert EvalConstraint(Bin(Num(2), Times, q), b, p) == 2 * v;
  }

  // ---- The flags ----

  /** Flags the trial leaves open. */
  function FreeFlags(flags: seq<string>, fixed: set<string>): (r: seq<string>)
    ensures forall x :: x in r <==> x in flags && x !in fixed
  {
    if flags == [] then []
    else
      assert flags == [flags[0]] + flags[1..];
      (if flags[0] in fixed then [] else [flags[0]]) + FreeFlags(flags[1..], fixed)
  }

  predicate FlagSurvives(deciding: seq<Expr>, trial: Assignment, free: seq<string>, dom: Domains, p: int)
    requires p > 0 && AllKnown(deciding) && forall f :: f in free ==> f in dom && dom[f] >= 0
  {
    exists a :: a in Assignments(free, dom) && AllVanish(deciding, trial + a, p)
  }

  /** Values of `x` some assignment of the open flags supports. */
  ghost function SurvivingValues(deciding: seq<Expr>, x: string, flags: seq<string>, pins: Assignment, dom: Domains, p: int): set<int>
    requires p > 0 && AllKnown(deciding) && x in dom && forall f :: f in flags ==> f in dom && dom[f] >= 0
  {
    set v | 0 <= v < dom[x] && ValueSurvives(deciding, x, v, flags, pins, dom, p)
  }

  predicate ValueSurvives(deciding: seq<Expr>, x: string, v: int, flags: seq<string>, pins: Assignment, dom: Domains, p: int)
    requires p > 0 && AllKnown(deciding) && forall f :: f in flags ==> f in dom && dom[f] >= 0
  {
    FlagSurvives(deciding, pins[x := v], FreeFlags(flags, pins.Keys + {x}), dom, p)
  }

  method RefuteFlagValue(deciding: seq<Expr>, x: string, flags: seq<string>, pins: Assignment, dom: Domains, p: int) returns (r: Option<int>)
    requires Prime(p) && AllKnown(deciding) && x in dom && forall f :: f in flags ==> f in dom && dom[f] >= 0
    ensures r.Some? <==> Covered(deciding, ToSet(flags) + {x} + pins.Keys) && exists v :: SurvivingValues(deciding, x, flags, pins, dom, p) == {v}
    ensures r.Some? ==> SurvivingValues(deciding, x, flags, pins, dom, p) == {r.value}
  {
    if !Covered(deciding, ToSet(flags) + {x} + pins.Keys) {
      return None;
    }
    hide FlagSurvives, FreeFlags;
    var survivors: seq<int> := [];
    var v := 0;
    while v < dom[x]
      invariant 0 <= v && (v <= dom[x] || survivors == [])
      invariant forall i, j :: 0 <= i < j < |survivors| ==> survivors[i] < survivors[j]
      invariant forall u :: u in survivors <==> 0 <= u < v && u < dom[x] && ValueSurvives(deciding, x, u, flags, pins, dom, p)
    {
      ghost var before := survivors;
      forall i | 0 <= i < |before| ensures before[i] < v {
        assert before[i] in before;
      }
      if ValueSurvives(deciding, x, v, flags, pins, dom, p) {
        survivors := survivors + [v];
      }
      forall u ensures u in survivors <==> 0 <= u < v + 1 && u < dom[x] && ValueSurvives(deciding, x, u, flags, pins, dom, p) {
        assert u in survivors <==> u in before || (u == v && ValueSurvives(deciding, x, v, flags, pins, dom, p));
      }
      v := v + 1;
    }
    ghost var all := SurvivingValues(deciding, x, flags, pins, dom, p);
    assert forall u :: u in all <==> u in survivors;
    SingleSurvivor(survivors, all);
    r := if |survivors| == 1 then Some(survivors[0]) else None;
  }

  lemma SingleSurvivor(xs: seq<int>, all: set<int>)
    requires forall i, j :: 0 <= i < j < |xs| ==> xs[i] < xs[j]
    requires forall u :: u in all <==> u in xs
    ensures |xs| == 1 ==> all == {xs[0]}
    ensures |xs| == 1 <==> exists v :: all == {v}
  {
    if |xs| == 1 {
      forall u ensures u in all <==> u == xs[0] {
        assert u in all <==> u in xs;
        assert xs[0] in xs;
      }
      assert all == {xs[0]};
    }
    assert |xs| >= 2 ==> xs[0] < xs[1] && xs[0] in all && xs[1] in all by {
      assert |xs| >= 2 ==> xs[0] in xs && xs[1] in xs;
    }
    if v :| all == {v} {
      assert v in xs;
    }
  }

  /** A flag pinned this way holds its value exactly, in every model. */
  lemma FlagPinHolds(deciding: seq<Expr>, cons: seq<Expr>, x: string, flags: seq<string>, pins: Assignment, dom: Domains,
                     bs: Bounds, p: int, v: int, env: Env)
    requires Prime(p) && AllKnown(deciding) && DomainsOf(flags, dom, bs) && x in flags && forall c :: c in deciding ==> c in cons
    requires Covered(deciding, ToSet(flags) + {x} + pins.Keys) && SurvivingValues(deciding, x, flags, pins, dom, p) == {v}
    requires PropModel(cons, bs, p, env) && PinsHold(pins, p, env)
    ensures env.cols(x) == v
  {
    hide Cong, EvalConstraint, FreeFlags, Assignments;
    var u, free := env.cols(x), FreeFlags(flags, pins.Keys + {x});
    forall f | f in flags ensures 0 <= env.cols(f) < dom[f] {
      assert Within(bs[f], env.cols(f));
    }
    var a := Restrict(env.cols, free);
    AssignmentsComplete(free, dom, env.cols);
    TrialAgrees(pins, [], p, env);
    assert pins + Restrict(env.cols, []) == pins;
    Refl(u, p);
    OverrideAgrees(pins, x, u, p, env);
    var trial := pins[x := u];
    assert PinsHold(trial, p, env);
    TrialAgrees(trial, free, p, env);
    assert (trial + a).Keys == ToSet(flags) + {x} + pins.Keys;
    ConstraintsVanish(deciding, cons, trial + a, p, env);
    assert u in SurvivingValues(deciding, x, flags, pins, dom, p);
  }
}
