/** What the enumeration of flags decides, stated over all values of the flags. */
module FlagDecisions {
  import opened Wrappers
  import opened Residues
  import opened Primes
  import opened FieldForms
  import opened FieldGadgets
  import opened MultEvidence
  import opened FieldBounds
  import opened FlagEvaluation
  import opened FlagRefutation
  import opened Propagation

  // ---- Determined values ----

  ghost predicate ZeroUnder(e: Expr, a: Assignment, p: int)
    requires p > 0
  {
    forall env :: AgreesOn(a.Keys, a, p, env) ==> Cong(EvalExpr(e, env), 0, p)
  }

  /** The assignment settles the expression: every column has a value, but beside a factor settled to be zero. */
  ghost predicate Settled(e: Expr, a: Assignment, p: int)
    requires p > 0
  {
    match e
    case Num(_) => true
    case Col(x) => x in a
    case Neg(b) => Settled(b, a, p)
    case Bin(b, op, c) =>
      || (Settled(b, a, p) && Settled(c, a, p))
      || (op.Times? && ((Settled(b, a, p) && ZeroUnder(b, a, p)) || (Settled(c, a, p) && ZeroUnder(c, a, p))))
    case Other(_) => false
  }

  /** A settled expression has the one residue it has wherever the assignment agrees. */
  lemma {:induction false} PartialExactly(e: Expr, a: Assignment, p: int)
    requires p > 0 && Known(e)
    ensures EvalPartial(e, a, p).Some? <==> Settled(e, a, p)
    ensures EvalPartial(e, a, p) == Some(0) <==> Settled(e, a, p) && ZeroUnder(e, a, p)
  {
    hide Cong, ZeroUnder;
    PartialZero(e, a, p);
    match e
    case Num(_) =>
    case Col(_) =>
    case Neg(b) => PartialExactly(b, a, p);
    case Bin(b, _, c) =>
      PartialExactly(b, a, p);
      PartialExactly(c, a, p);
  }

  lemma PartialZero(e: Expr, a: Assignment, p: int)
    requires p > 0 && Known(e)
    ensures EvalPartial(e, a, p).Some? ==> (EvalPartial(e, a, p) == Some(0) <==> ZeroUnder(e, a, p))
  {
    hide Cong, EvalPartial;
    if EvalPartial(e, a, p).Some? {
      var v := EvalPartial(e, a, p).value;
      forall env | AgreesOn(a.Keys, a, p, env) ensures Cong(EvalExpr(e, env), 0, p) <==> v == 0 {
        EvalPartialMeans(e, a, p, env);
        ZeroResidue(v, EvalExpr(e, env), p);
      }
      var env := Env(x => if x in a then a[x] else 0, id => 0);
      OwnAgrees(a, p, env);
    }
  }

  lemma OwnAgrees(a: Assignment, p: int, env: Env)
    requires p > 0 && forall x :: x in a ==> env.cols(x) == a[x]
    ensures AgreesOn(a.Keys, a, p, env)
  {
  }

  lemma ZeroResidue(v: int, u: int, p: int)
    requires p > 0 && 0 <= v < p && Cong(v, u, p)
    ensures Cong(u, 0, p) <==> v == 0
  {
    Small(v, p);
    Small(0, p);
  }

  // ---- The deciding constraints ----

  ghost predicate IsFirst(cons: seq<Expr>, holds: Expr -> bool, c: Expr) {
    exists i :: 0 <= i < |cons| && cons[i] == c && holds(c) && forall j :: 0 <= j < i ==> !holds(cons[j])
  }

  lemma {:induction false} FirstExactly(cons: seq<Expr>, holds: Expr -> bool, c: Expr)
    ensures First(cons, holds) == Some(c) <==> IsFirst(cons, holds, c)
    ensures First(cons, holds).None? <==> forall i :: 0 <= i < |cons| ==> !holds(cons[i])
  {
    if cons != [] {
      var rest := cons[1..];
      FirstExactly(rest, holds, c);
      if i :| 0 <= i < |cons| && cons[i] == c && holds(c) && forall j :: 0 <= j < i ==> !holds(cons[j]) {
        if i > 0 {
          assert rest[i - 1] == c && !holds(cons[0]);
          assert forall j :: 0 <= j < i - 1 ==> rest[j] == cons[j + 1];
        }
      }
      if i :| 0 <= i < |rest| && rest[i] == c && holds(c) && forall j :: 0 <= j < i ==> !holds(rest[j]) {
        assert cons[i + 1] == c;
        if !holds(cons[0]) {
          assert forall j :: 0 < j < i + 1 ==> cons[j] == rest[j - 1];
        }
      }
      if holds(cons[0]) {
        assert c == cons[0] ==> IsFirst(cons, holds, c);
      } else {
        assert forall i :: 0 < i < |cons| ==> cons[i] == rest[i - 1];
        assert forall i :: 0 <= i < |rest| ==> rest[i] == cons[i + 1];
      }
    }
  }

  /** `x - g` or `g + x`. */
  ghost predicate DecodesForward(c: Expr, x: string) {
    exists g :: c == Bin(Col(x), Minus, g) || c == Bin(g, Plus, Col(x))
  }

  /** `g - x`. */
  ghost predicate DecodesBackward(c: Expr, x: string) {
    exists g :: c == Bin(g, Minus, Col(x))
  }

  /** Constraint `i` decodes `x`: the first forward one, or the first backward one where none is forward. */
  ghost predicate Decodes(cons: seq<Expr>, x: string, i: int) {
    && 0 <= i < |cons|
    && (if exists j :: 0 <= j < |cons| && DecodesForward(cons[j], x)
        then DecodesForward(cons[i], x) && forall j :: 0 <= j < i ==> !DecodesForward(cons[j], x)
        else DecodesBackward(cons[i], x) && forall j :: 0 <= j < i ==> !DecodesBackward(cons[j], x))
  }

  lemma ShapesExactly(c: Expr, x: string)
    ensures Forward(c, x) <==> DecodesForward(c, x)
    ensures Backward(c, x) <==> DecodesBackward(c, x)
  {
    if c.Bin? {
      assert c == Bin(c.a, c.op, c.b);
    }
  }

  lemma MuxExactly(cons: seq<Expr>, x: string, c: Expr)
    ensures MuxOf(cons, x) == Some(c) <==> exists i :: Decodes(cons, x, i) && cons[i] == c
  {
    hide DecodesForward, DecodesBackward, Forward, Backward, First;
    var f, b := (c: Expr) => Forward(c, x), (c: Expr) => Backward(c, x);
    forall i | 0 <= i < |cons|
      ensures f(cons[i]) == Forward(cons[i], x) && b(cons[i]) == Backward(cons[i], x)
      ensures Forward(cons[i], x) <==> DecodesForward(cons[i], x)
      ensures Backward(cons[i], x) <==> DecodesBackward(cons[i], x)
    {
      ShapesExactly(cons[i], x);
    }
    FirstExactly(cons, f, c);
    FirstExactly(cons, b, c);
    if i :| Decodes(cons, x, i) && cons[i] == c {
      assert IsFirst(cons, f, c) || IsFirst(cons, b, c);
    }
    if IsFirst(cons, f, c) {
      var i :| 0 <= i < |cons| && cons[i] == c && f(c) && forall j :: 0 <= j < i ==> !f(cons[j]);
      assert Decodes(cons, x, i);
    } else if IsFirst(cons, b, c) && First(cons, f).None? {
      var i :| 0 <= i < |cons| && cons[i] == c && b(c) && forall j :: 0 <= j < i ==> !b(cons[j]);
      assert Decodes(cons, x, i);
    }
  }

  /** The decode, and the nonlinear constraints over exactly the flags. */
  lemma DecidingExactly(cons: seq<Expr>, x: string, flags: seq<string>, p: int, c: Expr)
    requires p > 0
    ensures c in Deciding(cons, x, flags, p) <==>
      || (exists i :: Decodes(cons, x, i) && cons[i] == c)
      || (c in cons && ParseLin(c, p).None? && Names(c) == ToSet(flags) && x !in flags)
  {
    hide Decodes, MuxOf;
    MuxExactly(cons, x, c);
    assert x in ToSet(flags) <==> x in flags;
  }

  // ---- The domains ----

  ghost function Cases(flags: seq<string>, bs: Bounds, n: nat): int
    requires n <= |flags| && forall i :: 0 <= i < n ==> flags[i] in bs && bs[flags[i]].hi.Some?
  {
    if n == 0 then 1 else Cases(flags, bs, n - 1) * bs[flags[n - 1]].hi.value
  }

  ghost predicate Proven(flags: seq<string>, bs: Bounds) {
    forall i :: 0 <= i < |flags| ==> flags[i] in bs && bs[flags[i]].lo == 0 && bs[flags[i]].hi.Some?
  }

  /** Each flag has a proven domain from zero, and no prefix of them has more than 65536 cases. */
  ghost predicate Enumerable(flags: seq<string>, bs: Bounds) {
    Proven(flags, bs) && forall n: nat :: n <= |flags| && n > 0 ==> Cases(flags, bs, n) <= 65536
  }

  ghost predicate EnumerableFrom(flags: seq<string>, bs: Bounds, size: int) {
    Proven(flags, bs) && forall n: nat :: n <= |flags| && n > 0 ==> size * Cases(flags, bs, n) <= 65536
  }

  lemma {:induction false} CasesTail(flags: seq<string>, bs: Bounds, n: nat)
    requires 0 < n <= |flags| && Proven(flags, bs)
    ensures Proven(flags[1..], bs) && Cases(flags, bs, n) == bs[flags[0]].hi.value * Cases(flags[1..], bs, n - 1)
  {
    assert forall i :: 0 <= i < |flags[1..]| ==> flags[1..][i] == flags[i + 1];
    if n > 1 {
      CasesTail(flags, bs, n - 1);
      Regroup(bs[flags[0]].hi.value, Cases(flags[1..], bs, n - 2), bs[flags[n - 1]].hi.value);
    }
  }

  lemma Regroup(a: int, b: int, c: int)
    ensures (a * b) * c == a * (b * c)
  {
  }

  lemma TailFrom(flags: seq<string>, bs: Bounds, size: int)
    requires flags != [] && Proven(flags, bs)
    ensures EnumerableFrom(flags, bs, size) <==>
      size * bs[flags[0]].hi.value <= 65536 && EnumerableFrom(flags[1..], bs, size * bs[flags[0]].hi.value)
  {
    var h := bs[flags[0]].hi.value;
    forall n: nat | 0 < n <= |flags| ensures size * Cases(flags, bs, n) == (size * h) * Cases(flags[1..], bs, n - 1) {
      CasesTail(flags, bs, n);
      Regroup(size, h, Cases(flags[1..], bs, n - 1));
    }
    CasesTail(flags, bs, 1);
    assert Cases(flags[1..], bs, 0) == 1;
    if EnumerableFrom(flags, bs, size) {
      assert size * Cases(flags, bs, 1) <= 65536;
      forall n: nat | 0 < n <= |flags[1..]| ensures (size * h) * Cases(flags[1..], bs, n) <= 65536 {
        assert size * Cases(flags, bs, n + 1) <= 65536;
      }
    }
    if size * h <= 65536 && EnumerableFrom(flags[1..], bs, size * h) {
      forall n: nat | 0 < n <= |flags| ensures size * Cases(flags, bs, n) <= 65536 {
        if n > 1 {
          assert (size * h) * Cases(flags[1..], bs, n - 1) <= 65536;
        }
      }
    }
  }

  lemma {:induction false} DomainsFrom(flags: seq<string>, bs: Bounds, size: int)
    ensures FlagDomains(flags, bs, size).Some? <==> EnumerableFrom(flags, bs, size)
    ensures FlagDomains(flags, bs, size).Some? ==>
      FlagDomains(flags, bs, size).value.Keys == ToSet(flags)
      && forall x :: x in flags ==> x in FlagDomains(flags, bs, size).value && bs[x].hi == Some(FlagDomains(flags, bs, size).value[x])
  {
    if flags != [] {
      FlagsSplit(flags);
      var x := flags[0];
      if x in bs && bs[x].lo == 0 && bs[x].hi.Some? {
        DomainsFrom(flags[1..], bs, size * bs[x].hi.value);
        assert Proven(flags, bs) <==> Proven(flags[1..], bs) by {
          assert forall i :: 0 <= i < |flags[1..]| ==> flags[1..][i] == flags[i + 1];
          assert forall i :: 0 < i < |flags| ==> flags[i] == flags[1..][i - 1];
        }
        if Proven(flags, bs) {
          TailFrom(flags, bs, size);
        }
      }
    }
  }

  /** The flags are enumerated exactly when each has a proven domain and the cases stay within the cap. */
  lemma DomainsExactly(flags: seq<string>, bs: Bounds)
    ensures FlagDomains(flags, bs, 1).Some? <==> Enumerable(flags, bs)
    ensures FlagDomains(flags, bs, 1).Some? ==>
      FlagDomains(flags, bs, 1).value.Keys == ToSet(flags)
      && forall x :: x in flags ==> x in FlagDomains(flags, bs, 1).value && bs[x].hi == Some(FlagDomains(flags, bs, 1).value[x])
  {
    DomainsFrom(flags, bs, 1);
    if Proven(flags, bs) {
      forall n: nat | n <= |flags| ensures 1 * Cases(flags, bs, n) == Cases(flags, bs, n) {
      }
    }
  }

  // ---- Assignments ----

  /** The enumeration meets exactly the assignments within the domains. */
  lemma AssignmentsExactly(flags: seq<string>, dom: Domains, a: Assignment)
    requires forall x :: x in flags ==> x in dom && dom[x] >= 0
    ensures a in Assignments(flags, dom) <==> InDomains(a, flags, dom)
  {
    if a in Assignments(flags, dom) {
      AssignmentsSound(flags, dom, a);
    }
    if InDomains(a, flags, dom) {
      var cols := (x: string) => if x in a then a[x] else 0;
      forall x | x in flags ensures x in a && cols(x) == a[x] {
        assert x in ToSet(flags);
      }
      AssignmentsComplete(flags, dom, cols);
      assert Restrict(cols, flags) == a;
    }
  }

  // ---- Reachable selectors ----

  /** `v` solves the line through the decode's values at zero and one. */
  ghost predicate OnDecode(mux: Expr, a: Assignment, x: string, p: int, v: int)
    requires p > 0 && Known(mux)
  {
    var m0, m1 := EvalConstraint(mux, a[x := 0], p), EvalConstraint(mux, a[x := 1], p);
    0 <= v < p && Cong((m1 - m0) * v + m0, 0, p)
  }

  lemma SlopeExactly(mux: Expr, a: Assignment, x: string, p: int)
    requires p > 0 && Known(mux)
    ensures LoadSlope(mux, a, x, p) == 0 <==> EvalConstraint(mux, a[x := 1], p) == EvalConstraint(mux, a[x := 0], p)
  {
    hide EvalConstraint;
    var m0, m1 := EvalConstraint(mux, a[x := 0], p), EvalConstraint(mux, a[x := 1], p);
    CongIff(m1, m0, p);
    Small(m0, p);
    Small(m1, p);
  }

  /** The selector is looked at exactly when it has a decode, the deciding constraints read nothing but it, the flags and
      the pins, and under no flag values the decode is the same at zero and one. */
  lemma GuardsExactly(cons: seq<Expr>, x: string, flags: seq<string>, pins: Assignment, dom: Domains, p: int)
    requires p > 0 && AllKnown(cons) && forall f :: f in flags ==> f in dom && dom[f] >= 0
    ensures LoadGuards(cons, x, flags, pins, dom, p) <==>
      && MuxOf(cons, x).Some?
      && (forall c, y :: c in Deciding(cons, x, flags, p) && y in Names(c) ==> y == x || y in flags || y in pins)
      && forall a :: InDomains(a, flags, dom) ==>
           EvalConstraint(MuxOf(cons, x).value, (pins + a)[x := 1], p) != EvalConstraint(MuxOf(cons, x).value, (pins + a)[x := 0], p)
  {
    hide Deciding, EvalConstraint, LoadSlope, Assignments, InDomains;
    assert forall y :: y in ToSet(flags) + {x} + pins.Keys <==> y == x || y in flags || y in pins;
    if MuxOf(cons, x).Some? {
      forall a ensures a in Assignments(flags, dom) <==> InDomains(a, flags, dom) {
        AssignmentsExactly(flags, dom, a);
      }
      forall a: Assignment ensures LoadSlope(MuxOf(cons, x).value, pins + a, x, p) == 0 <==>
        EvalConstraint(MuxOf(cons, x).value, (pins + a)[x := 1], p) == EvalConstraint(MuxOf(cons, x).value, (pins + a)[x := 0], p)
      {
        SlopeExactly(MuxOf(cons, x).value, pins + a, x, p);
      }
    }
  }

  /** The selector's value is the one residue on that line. */
  lemma LoadExactly(mux: Expr, a: Assignment, x: string, p: int, v: int)
    requires Prime(p) && Known(mux) && LoadSlope(mux, a, x, p) != 0
    ensures OnDecode(mux, a, x, p, v) <==> v == LoadValue(mux, a, x, p)
  {
    hide EvalConstraint, Inverse, Cong;
    var m0, m1 := EvalConstraint(mux, a[x := 0], p), EvalConstraint(mux, a[x := 1], p);
    var s := LoadSlope(mux, a, x, p);
    SlopeNonzero(s, p);
    ResidueCong(m1 - m0, p);
    SameSlope(s, m1 - m0, m0, v, p);
    LinearRoot(s, m0, v, p);
    if 0 <= v < p {
      ResidueExactly(v, -m0 * Inverse(s, p), p);
    }
  }

  lemma SameSlope(s: int, t: int, c: int, v: int, p: int)
    requires p > 0 && Cong(s, t, p)
    ensures Cong(s * v + c, 0, p) <==> Cong(t * v + c, 0, p)
  {
    hide Cong;
    Refl(v, p);
    Refl(c, p);
    MulCong(s, t, v, v, p);
    AddCong(s * v, t * v, c, c, p);
    Sym(s * v + c, t * v + c, p);
    if Cong(s * v + c, 0, p) {
      Trans(t * v + c, s * v + c, 0, p);
    }
    if Cong(t * v + c, 0, p) {
      Trans(s * v + c, t * v + c, 0, p);
    }
  }

  lemma ResidueExactly(v: int, w: int, p: int)
    requires p > 0 && 0 <= v < p
    ensures Cong(v, w, p) <==> v == w % p
  {
    Small(v, p);
  }

  /** Flag values within their domains under which the decode gives `v` and all deciding constraints vanish. */
  ghost predicate ReachedUnder(cons: seq<Expr>, x: string, flags: seq<string>, pins: Assignment, dom: Domains, p: int, a: Assignment, v: int)
    requires p > 1 && AllKnown(cons) && MuxOf(cons, x).Some? && forall f :: f in flags ==> f in dom && dom[f] >= 0
  {
    && InDomains(a, flags, dom) && OnDecode(MuxOf(cons, x).value, pins + a, x, p, v)
    && forall c :: c in Deciding(cons, x, flags, p) ==> EvalConstraint(c, (pins + a)[x := v], p) == 0
  }

  /** The reachable selectors are exactly those reached under some flag values. */
  lemma ReachableExactly(cons: seq<Expr>, x: string, flags: seq<string>, pins: Assignment, dom: Domains, p: int, v: int)
    requires Prime(p) && AllKnown(cons) && forall f :: f in flags ==> f in dom && dom[f] >= 0
    requires LoadGuards(cons, x, flags, pins, dom, p)
    ensures v in ReachableLoads(cons, x, flags, pins, dom, p) <==> exists a :: ReachedUnder(cons, x, flags, pins, dom, p, a, v)
  {
    hide LoadSlope, LoadValue, Deciding, EvalConstraint, OnDecode, InDomains, Assignments, Covered;
    var mux := MuxOf(cons, x).value;
    forall a ensures (a in Assignments(flags, dom) && LoadSurvives(cons, x, flags, pins + a, p) && LoadValue(mux, pins + a, x, p) == v)
      <==> ReachedUnder(cons, x, flags, pins, dom, p, a, v)
    {
      AssignmentsExactly(flags, dom, a);
      if a in Assignments(flags, dom) {
        LoadExactly(mux, pins + a, x, p, v);
      }
    }
  }

  // ---- Surviving flag values ----

  /** Values of the open flags within their domains, beside the pins and `x == v`, under which all deciding constraints
      vanish. */
  ghost predicate SupportedBy(deciding: seq<Expr>, x: string, v: int, flags: seq<string>, pins: Assignment, dom: Domains, p: int, a: Assignment)
    requires p > 0 && AllKnown(deciding)
  {
    && (forall f :: f in a <==> f in flags && f !in pins && f != x)
    && (forall f :: f in a ==> f in dom && 0 <= a[f] < dom[f])
    && forall c :: c in deciding ==> EvalConstraint(c, pins[x := v] + a, p) == 0
  }

  lemma SurvivingExactly(deciding: seq<Expr>, x: string, v: int, flags: seq<string>, pins: Assignment, dom: Domains, p: int)
    requires p > 0 && AllKnown(deciding) && forall f :: f in flags ==> f in dom && dom[f] >= 0
    ensures ValueSurvives(deciding, x, v, flags, pins, dom, p) <==> exists a :: SupportedBy(deciding, x, v, flags, pins, dom, p, a)
  {
    hide EvalConstraint, Assignments;
    var free := FreeFlags(flags, pins.Keys + {x});
    forall a ensures (a in Assignments(free, dom) && AllVanish(deciding, pins[x := v] + a, p)) <==> SupportedBy(deciding, x, v, flags, pins, dom, p, a) {
      AssignmentsExactly(free, dom, a);
      OpenFlags(flags, pins, x, free, a, dom);
    }
  }

  lemma OpenFlags(flags: seq<string>, pins: Assignment, x: string, free: seq<string>, a: Assignment, dom: Domains)
    requires (forall f :: f in free <==> f in flags && f !in pins.Keys + {x}) && forall f :: f in flags ==> f in dom
    ensures InDomains(a, free, dom) <==>
      (forall f :: f in a <==> f in flags && f !in pins && f != x) && forall f :: f in a ==> f in dom && 0 <= a[f] < dom[f]
  {
    assert forall f :: f in ToSet(free) <==> f in free;
    if forall f :: f in a <==> f in flags && f !in pins && f != x {
      assert a.Keys == ToSet(free);
    }
    if InDomains(a, free, dom) {
      forall f ensures f in a <==> f in flags && f !in pins && f != x {
        assert f in a <==> f in ToSet(free);
      }
    }
  }
}
