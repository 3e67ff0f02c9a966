/** Expressions with one value under every surviving flag assignment of their access. */
module FlagExpressions {
  import opened Wrappers
  import opened Sets
  import opened Residues
  import opened Primes
  import opened FieldForms
  import opened FieldGadgets
  import opened MultEvidence
  import opened FieldBounds
  import opened FlagEvaluation
  import opened FlagRefutation
  import opened Propagation
  import opened FieldRewriting
  import opened FlagDecisions
  import opened SimplifiedForms

  /** Pinned and flag values under which the deciding constraints vanish. */
  function Surviving(all: seq<Assignment>, deciding: seq<Expr>, pins: Pins, p: int): (r: seq<Assignment>)
    requires p > 0 && AllKnown(deciding)
    ensures forall e :: e in r <==> exists a :: a in all && e == pins + a && AllVanish(deciding, pins + a, p)
  {
    if all == [] then []
    else
      assert all == [all[0]] + all[1..];
      (if AllVanish(deciding, pins + all[0], p) then [pins + all[0]] else []) + Surviving(all[1..], deciding, pins, p)
  }

  method SurvivingEnvs(flags: seq<string>, deciding: seq<Expr>, pins: Pins, dom: Domains, p: int) returns (envs: seq<Assignment>)
    requires p > 0 && AllKnown(deciding) && forall f :: f in flags ==> f in dom && dom[f] >= 0
    ensures envs == Surviving(Assignments(flags, dom), deciding, pins, p)
  {
    hide Surviving, AllVanish, Assignments;
    var all := Assignments(flags, dom);
    envs := [];
    assert all[0..] == all;
    for i := 0 to |all|
      invariant Surviving(all, deciding, pins, p) == envs + Surviving(all[i..], deciding, pins, p)
    {
      SurvivingStep(all, i, deciding, pins, p);
      if AllVanish(deciding, pins + all[i], p) {
        envs := envs + [pins + all[i]];
      }
    }
    assert all[|all|..] == [];
    NoneSurviving(deciding, pins, p);
  }

  lemma SurvivingStep(all: seq<Assignment>, i: nat, deciding: seq<Expr>, pins: Pins, p: int)
    requires p > 0 && AllKnown(deciding) && i < |all|
    ensures Surviving(all[i..], deciding, pins, p)
         == (if AllVanish(deciding, pins + all[i], p) then [pins + all[i]] else []) + Surviving(all[i + 1..], deciding, pins, p)
  {
    hide AllVanish;
    assert all[i..][0] == all[i] && all[i..][1..] == all[i + 1..];
  }

  lemma NoneSurviving(deciding: seq<Expr>, pins: Pins, p: int)
    requires p > 0 && AllKnown(deciding)
    ensures Surviving([], deciding, pins, p) == []
  {
  }

  /** Every value of the folded expression over the assignments; `None` when one does not determine it. */
  ghost predicate AllEvaluateTo(e: Expr, envs: seq<Assignment>, p: int, v: int)
    requires p > 0 && Known(e)
  {
    forall a :: a in envs ==> EvalPartial(e, a, p).Some? && Canon(EvalPartial(e, a, p).value, p) == v
  }

  lemma {:induction false} FoldKnown(e: Expr, pins: Pins, p: int)
    requires p > 0 && Known(e)
    ensures Known(FoldPins(e, pins, map[], p))
  {
    match e
    case Neg(a) => FoldKnown(a, pins, p);
    case Bin(a, op, b) =>
      FoldKnown(a, pins, p);
      FoldKnown(b, pins, p);
    case _ =>
  }

  /** Folding the pins leaves the number `v`, or an expression to which every assignment gives the value `v`. */
  ghost predicate HasValue(e: Expr, envs: seq<Assignment>, pins: Pins, p: int, v: int)
    requires p > 0 && Known(e)
  {
    FoldKnown(e, pins, p);
    var f := FoldPins(e, pins, map[], p);
    if f.Num? then v == f.value else AllEvaluateTo(f, envs, p, v)
  }

  /** The value of `e` when all assignments agree on it. */
  method RefuteExpr(e: Expr, envs: seq<Assignment>, pins: Pins, p: int) returns (r: Option<int>)
    requires p > 0 && Known(e)
    ensures r.Some? ==> !e.Num? && envs != [] && HasValue(e, envs, pins, p, r.value)
    ensures !e.Num? && envs != [] && (exists v :: HasValue(e, envs, pins, p, v)) ==> r.Some?
  {
    FoldKnown(e, pins, p);
    if e.Num? || envs == [] {
      return None;
    }
    var folded := FoldPins(e, pins, map[], p);
    if folded.Num? {
      return Some(folded.value);
    }
    var vals := CollectValues(folded, envs, p);
    if vals.Some? && |vals.value| == 1 {
      var v := AnyOf(vals.value);
      OnlyElement(vals.value, v);
      OneValue(folded, envs, p, vals.value, v);
      return Some(v);
    }
    if v :| AllEvaluateTo(folded, envs, p, v) {
      OneValue(folded, envs, p, vals.value, v);
    }
    return None;
  }

  predicate EvaluatesTo(e: Expr, a: Assignment, p: int, v: int)
    requires p > 0 && Known(e)
  {
    EvalPartial(e, a, p).Some? && Canon(EvalPartial(e, a, p).value, p) == v
  }

  method CollectValues(e: Expr, envs: seq<Assignment>, p: int) returns (r: Option<set<int>>)
    requires p > 0 && Known(e)
    ensures r.None? <==> exists a :: a in envs && EvalPartial(e, a, p).None?
    ensures r.Some? ==> forall v :: v in r.value <==> exists a :: a in envs && EvaluatesTo(e, a, p, v)
  {
    hide Canon, EvalPartial;
    var vals: set<int> := {};
    for i := 0 to |envs|
      invariant forall j :: 0 <= j < i ==> EvalPartial(e, envs[j], p).Some?
      invariant forall v :: v in vals <==> exists j :: 0 <= j < i && EvaluatesTo(e, envs[j], p, v)
    {
      var v := EvalPartial(e, envs[i], p);
      assert envs[i] in envs;
      if v.None? {
        return None;
      }
      ghost var before := vals;
      vals := vals + {Canon(v.value, p)};
      forall u ensures u in vals <==> u in before || EvaluatesTo(e, envs[i], p, u) {
      }
    }
    return Some(vals);
  }

  lemma OneValue(e: Expr, envs: seq<Assignment>, p: int, vals: set<int>, v: int)
    requires p > 0 && Known(e) && envs != []
    requires forall u :: u in vals <==> exists a :: a in envs && EvaluatesTo(e, a, p, u)
    requires forall a :: a in envs ==> EvalPartial(e, a, p).Some?
    ensures vals == {v} <==> AllEvaluateTo(e, envs, p, v)
  {
    hide Canon, EvalPartial;
    assert envs[0] in envs;
    if vals == {v} {
      forall a | a in envs ensures EvaluatesTo(e, a, p, v) {
        var u := Canon(EvalPartial(e, a, p).value, p);
        assert EvaluatesTo(e, a, p, u);
        assert u in vals;
      }
    }
    if AllEvaluateTo(e, envs, p, v) {
      assert EvaluatesTo(e, envs[0], p, v);
      SameSet(vals, {v});
    }
  }

  /** The value holds in every model, provided the deciding constraints read only flags and pinned columns. */
  lemma RefutedExprHolds(e: Expr, v: int, flags: seq<string>, cons: seq<Expr>, deciding: seq<Expr>, pins: Pins, dom: Domains,
                         bs: Bounds, p: int, env: Env)
    requires p > 0 && Known(e) && AllKnown(deciding) && DomainsOf(flags, dom, bs) && forall c :: c in deciding ==> c in cons
    requires Covered(deciding, ToSet(flags) + pins.Keys)
    requires HasValue(e, Surviving(Assignments(flags, dom), deciding, pins, p), pins, p, v)
    requires PropModel(cons, bs, p, env) && PinsHold(pins, p, env)
    ensures Cong(EvalExpr(e, env), v, p)
  {
    hide Cong, EvalConstraint, Canon, Surviving;
    var f := FoldPins(e, pins, map[], p);
    FoldKnown(e, pins, p);
    FoldPinsValue(e, pins, map[], p, env);
    Sym(EvalExpr(f, env), EvalExpr(e, env), p);
    if !f.Num? {
      var a := Restrict(env.cols, flags);
      forall x | x in flags ensures 0 <= env.cols(x) < dom[x] {
        assert Within(bs[x], env.cols(x));
      }
      AssignmentsComplete(flags, dom, env.cols);
      TrialAgrees(pins, flags, p, env);
      ConstraintsVanish(deciding, cons, pins + a, p, env);
      assert pins + a in Surviving(Assignments(flags, dom), deciding, pins, p);
      EvalPartialMeans(f, pins + a, p, env);
      var u := EvalPartial(f, pins + a, p).value;
      CanonResidue(u, p);
      Trans(v, u, EvalExpr(f, env), p);
      Sym(v, EvalExpr(f, env), p);
      Trans(EvalExpr(e, env), EvalExpr(f, env), v, p);
    }
  }

  /** A free column in a deciding constraint reads as zero, and the value can then be wrong: with `x` pinned to one and
      `x - (f + g)` deciding, only `f = 1` survives, but `f = 0, g = 1` is a model. */
  lemma UncoveredDecodeEscapes(p: int, env: Env)
    requires p > 2 && env.cols("x") == 1 && env.cols("f") == 0 && env.cols("g") == 1
    ensures var con := Bin(Col("x"), Minus, Bin(Col("f"), Plus, Col("g")));
      var pins, dom := map["x" := 1], map["f" := 2];
      && Deciding([con], "x", ["f"], p) == [con] && !Covered([con], ToSet(["f"]) + pins.Keys)
      && Zero(con, p, env) && PinsHold(pins, p, env)
      && Surviving(Assignments(["f"], dom), [con], pins, p) == [map["x" := 1, "f" := 1]]
      && EvalPartial(Col("f"), map["x" := 1, "f" := 1], p) == Some(1) && !Cong(EvalExpr(Col("f"), env), 1, p)
  {
    hide EvalConstraint, Assignments, Surviving, Deciding, MuxOf;
    Small(0, p);
    Small(1, p);
    EscapeDeciding(p);
    OneFlag();
    EscapingAssignments(p);
    EscapeSurvivors(p);
    EscapeIsModel(p, env);
  }

  lemma EscapeIsModel(p: int, env: Env)
    requires p > 2 && env.cols("x") == 1 && env.cols("f") == 0 && env.cols("g") == 1
    ensures var con := Bin(Col("x"), Minus, Bin(Col("f"), Plus, Col("g"))); Zero(con, p, env) && "g" in Names(con)
  {
    assert EvalExpr(Bin(Col("f"), Plus, Col("g")), env) == 1;
  }

  lemma EscapeDeciding(p: int)
    requires p > 0
    ensures var con := Bin(Col("x"), Minus, Bin(Col("f"), Plus, Col("g"))); Deciding([con], "x", ["f"], p) == [con]
  {
    hide LinTerms, Names, MuxOf, FlagGadgets;
    var con := Bin(Col("x"), Minus, Bin(Col("f"), Plus, Col("g")));
    OnlyDecode(con, "x", ["f"], p);
  }

  lemma OnlyDecode(con: Expr, x: string, flags: seq<string>, p: int)
    requires p > 0 && Forward(con, x)
    ensures MuxOf([con], x) == Some(con) && FlagGadgets([con], x, flags, p) == []
  {
    hide LinTerms;
    assert x in Names(con);
    assert FlagGadgets([con][1..], x, flags, p) == [];
  }

  lemma EscapeSurvivors(p: int)
    requires p > 2
    requires var con, pins: Pins := Bin(Col("x"), Minus, Bin(Col("f"), Plus, Col("g"))), map["x" := 1];
      EvalConstraint(con, pins + map["f" := 0], p) == 1 && EvalConstraint(con, pins + map["f" := 1], p) == 0
    ensures var con, pins: Pins := Bin(Col("x"), Minus, Bin(Col("f"), Plus, Col("g"))), map["x" := 1];
      Surviving([map["f" := 0], map["f" := 1]], [con], pins, p) == [map["x" := 1, "f" := 1]]
  {
    hide EvalConstraint;
    var con, pins: Pins := Bin(Col("x"), Minus, Bin(Col("f"), Plus, Col("g"))), map["x" := 1];
    var all: seq<Assignment> := [map["f" := 0], map["f" := 1]];
    assert con in [con];
    SurvivingStep(all, 0, [con], pins, p);
    SurvivingStep(all, 1, [con], pins, p);
    NoneSurviving([con], pins, p);
    assert all[0..] == all && all[2..] == [];
    assert pins + all[1] == map["x" := 1, "f" := 1];
  }

  lemma OneFlag()
    ensures Assignments(["f"], map["f" := 2]) == [map["f" := 0], map["f" := 1]]
  {
    assert Assignments(["f"][1..], map["f" := 2]) == [map[]];
    assert Extend([map[]], "f", 1) == [map["f" := 0]];
    assert Extend([map[]], "f", 2) == [map["f" := 0]] + [map["f" := 1]];
  }

  lemma EscapingAssignments(p: int)
    requires p > 2
    ensures var con, pins: Pins := Bin(Col("x"), Minus, Bin(Col("f"), Plus, Col("g"))), map["x" := 1];
      EvalConstraint(con, pins + map["f" := 0], p) == 1 && EvalConstraint(con, pins + map["f" := 1], p) == 0
  {
    var pins: Pins := map["x" := 1];
    var sum := Bin(Col("f"), Plus, Col("g"));
    Small(0, p);
    Small(1, p);
    assert EvalConstraint(sum, pins + map["f" := 0], p) == 0;
    assert EvalConstraint(sum, pins + map["f" := 1], p) == 1;
  }

  // ---- Pointers with one value under the surviving flags ----

  /** The accesses whose columns an expression mentions; `accessOf` reads the number off a column's name. */
  function AccessesIn(e: Expr, accessOf: string -> Option<int>): set<int> {
    set x | x in Names(e) && accessOf(x).Some? :: accessOf(x).value
  }

  /** The flags of an access with a pinned selector and proven domains. */
  function OpenDomains(g: Group, pins: Pins, bs: Bounds): (r: Option<Domains>)
    ensures Sane(bs) && r.Some? ==> DomainsOf(g.flags, r.value, bs)
  {
    if g.isLoad in pins && g.flags != [] then FlagDomains(g.flags, bs, 1) else None
  }

  /** The surviving assignments of group `g`; none when it has no pinned selector or a flag is unbounded. */
  ghost function EnvsOf(cons: seq<Expr>, g: Group, pins: Pins, bs: Bounds, p: int): seq<Assignment>
    requires p > 0 && AllKnown(cons) && Sane(bs)
  {
    match OpenDomains(g, pins, bs)
    case None => []
    case Some(dom) => Surviving(Assignments(g.flags, dom), Deciding(cons, g.isLoad, g.flags, p), pins, p)
  }

  /** Flag values within the proven bounds that, beside the pins, make every deciding constraint vanish. */
  ghost predicate Supports(cons: seq<Expr>, g: Group, pins: Pins, bs: Bounds, p: int, a: Assignment)
    requires p > 0 && AllKnown(cons)
  {
    && (forall f :: f in a <==> f in g.flags)
    && (forall f :: f in a ==> f in bs && 0 <= a[f] && bs[f].hi.Some? && a[f] < bs[f].hi.value)
    && forall c :: c in Deciding(cons, g.isLoad, g.flags, p) ==> EvalConstraint(c, pins + a, p) == 0
  }

  /** For a pinned selector with flags to enumerate, the assignments are the pins with each supporting choice of flag
      values; for any other there are none. */
  lemma EnvsExactly(cons: seq<Expr>, g: Group, pins: Pins, bs: Bounds, p: int, e: Assignment)
    requires p > 0 && AllKnown(cons) && Sane(bs)
    ensures e in EnvsOf(cons, g, pins, bs, p) <==>
      g.isLoad in pins && g.flags != [] && Enumerable(g.flags, bs) && exists a :: Supports(cons, g, pins, bs, p, a) && e == pins + a
  {
    hide Deciding, FlagDomains, Assignments, Enumerable, EvalConstraint;
    DomainsExactly(g.flags, bs);
    var dom := OpenDomains(g, pins, bs);
    if dom.Some? {
      forall a ensures (a in Assignments(g.flags, dom.value) && AllVanish(Deciding(cons, g.isLoad, g.flags, p), pins + a, p))
        <==> Supports(cons, g, pins, bs, p, a)
      {
        AssignmentsExactly(g.flags, dom.value, a);
        DomainsAreBounds(g.flags, dom.value, bs, a);
      }
    }
  }

  lemma DomainsAreBounds(flags: seq<string>, dom: Domains, bs: Bounds, a: Assignment)
    requires DomainsOf(flags, dom, bs)
    ensures InDomains(a, flags, dom) <==>
      (forall f :: f in a <==> f in flags) && forall f :: f in a ==> f in bs && 0 <= a[f] && bs[f].hi.Some? && a[f] < bs[f].hi.value
  {
    assert forall f :: f in ToSet(flags) <==> f in flags;
    if forall f :: f in a <==> f in flags {
      assert a.Keys == ToSet(flags);
    }
    if InDomains(a, flags, dom) {
      forall f ensures f in a <==> f in flags {
        assert f in a <==> f in ToSet(flags);
      }
    }
  }

  /** The table of the first `n` groups: assignments by access, where some survive. */
  ghost function TableOf(cons: seq<Expr>, groups: seq<Group>, pins: Pins, bs: Bounds, p: int, n: nat): map<int, seq<Assignment>>
    requires p > 0 && AllKnown(cons) && Sane(bs) && n <= |groups|
  {
    if n == 0 then map[]
    else
      var rest, envs := TableOf(cons, groups, pins, bs, p, n - 1), EnvsOf(cons, groups[n - 1], pins, bs, p);
      if envs == [] then rest else rest[groups[n - 1].access := envs]
  }

  method SurvivingTable(cons: seq<Expr>, groups: seq<Group>, pins: Pins, bs: Bounds, p: int) returns (table: map<int, seq<Assignment>>)
    requires p > 0 && AllKnown(cons) && Sane(bs)
    ensures table == TableOf(cons, groups, pins, bs, p, |groups|)
  {
    hide OpenDomains, Surviving, Deciding;
    table := map[];
    for n := 0 to |groups|
      invariant table == TableOf(cons, groups, pins, bs, p, n)
    {
      var g := groups[n];
      var dom := OpenDomains(g, pins, bs);
      if dom.Some? {
        var envs := SurvivingEnvs(g.flags, Deciding(cons, g.isLoad, g.flags, p), pins, dom.value, p);
        if envs != [] {
          table := table[g.access := envs];
        }
      }
    }
  }

  lemma {:induction false} TableEntry(cons: seq<Expr>, groups: seq<Group>, pins: Pins, bs: Bounds, p: int, n: nat, access: int) returns (g: Group)
    requires p > 0 && AllKnown(cons) && Sane(bs) && n <= |groups| && access in TableOf(cons, groups, pins, bs, p, n)
    ensures g in groups && g.access == access && OpenDomains(g, pins, bs).Some?
    ensures TableOf(cons, groups, pins, bs, p, n)[access] == EnvsOf(cons, g, pins, bs, p)
  {
    g := groups[n - 1];
    if g.access != access || EnvsOf(cons, g, pins, bs, p) == [] {
      g := TableEntry(cons, groups, pins, bs, p, n - 1, access);
    }
  }

  /** The deciding constraints of an access read only its flags and pinned columns. */
  predicate AccessCovered(cons: seq<Expr>, groups: seq<Group>, pins: Pins, p: int, access: int)
    requires p > 0
  {
    forall g :: g in groups && g.access == access && g.isLoad in pins ==>
      Covered(Deciding(cons, g.isLoad, g.flags, p), ToSet(g.flags) + pins.Keys)
  }

  /** `r` is the value of a pointer that mentions one access, if the surviving assignments of it agree on one. */
  ghost predicate PointerIs(e: Expr, accessOf: string -> Option<int>, table: map<int, seq<Assignment>>, pins: Pins, p: int, r: Option<int>)
    requires p > 0 && Known(e)
  {
    && (r.Some? ==> !e.Num? && exists a :: AccessesIn(e, accessOf) == {a} && a in table && HasValue(e, table[a], pins, p, r.value))
    && (!e.Num? && (exists a, v :: AccessesIn(e, accessOf) == {a} && a in table && table[a] != [] && HasValue(e, table[a], pins, p, v))
        ==> r.Some?)
  }

  method PointerValue(e: Expr, accessOf: string -> Option<int>, table: map<int, seq<Assignment>>, pins: Pins, p: int) returns (r: Option<int>)
    requires p > 0 && Known(e)
    ensures PointerIs(e, accessOf, table, pins, p, r)
  {
    hide HasValue, AccessesIn;
    var accs := AccessesIn(e, accessOf);
    if e.Num? || |accs| != 1 {
      return None;
    }
    var a := AnyOf(accs);
    OnlyElement(accs, a);
    if a !in table {
      return None;
    }
    r := RefuteExpr(e, table[a], pins, p);
  }

  /** Where the access is covered, the pointer has the value in every model. */
  lemma PointerHolds(e: Expr, accessOf: string -> Option<int>, cons: seq<Expr>, groups: seq<Group>, pins: Pins, bs: Bounds, p: int, r: Option<int>, env: Env)
    requires p > 0 && Known(e) && AllKnown(cons) && Sane(bs) && r.Some?
    requires PointerIs(e, accessOf, TableOf(cons, groups, pins, bs, p, |groups|), pins, p, r)
    requires PointerCovered(e, accessOf, cons, groups, pins, p)
    requires PropModel(cons, bs, p, env) && PinsHold(pins, p, env)
    ensures Cong(EvalExpr(e, env), r.value, p)
  {
    hide HasValue, AccessesIn, Deciding, Surviving, PropModel, PinsHold, Cong, Covered, FlagDomains;
    var table := TableOf(cons, groups, pins, bs, p, |groups|);
    var a :| AccessesIn(e, accessOf) == {a} && a in table && HasValue(e, table[a], pins, p, r.value);
    var g := TableEntry(cons, groups, pins, bs, p, |groups|, a);
    var dom, deciding := OpenDomains(g, pins, bs).value, Deciding(cons, g.isLoad, g.flags, p);
    RefutedExprHolds(e, r.value, g.flags, cons, deciding, pins, dom, bs, p, env);
  }

  ghost predicate PointerCovered(e: Expr, accessOf: string -> Option<int>, cons: seq<Expr>, groups: seq<Group>, pins: Pins, p: int)
    requires p > 0
  {
    forall a :: AccessesIn(e, accessOf) == {a} ==> AccessCovered(cons, groups, pins, p, a)
  }

  /** Propagating, enumerating the flags of every access and simplifying every row.  A row whose pointer was not found by
      enumeration, or whose access is covered, sends the same message in every model in which the timestamp aliases hold. */
  method SimplifyRows(cons: seq<Expr>, groups: seq<Group>, rows: seq<MemRow>, accessOf: string -> Option<int>, rel: Aliases, bs: Bounds, p: int)
    returns (out: seq<MemRow>, pins: Pins, zeros: seq<LinForm>, ptrs: seq<Option<int>>)
    requires Prime(p) && AllKnown(cons) && AffineDecodes(cons, groups) && Sane(bs) && forall row :: row in rows ==> Known(row.ptr)
    ensures |out| == |rows| == |ptrs| && forall i :: 0 <= i < |rows| ==> SimplifiedRow(rows[i], out[i], ptrs[i], pins, zeros, rel, p)
    ensures forall i :: 0 <= i < |rows| ==> PointerIs(rows[i].ptr, accessOf, TableOf(cons, groups, pins, bs, p, |groups|), pins, p, ptrs[i])
    ensures exists w, l :: PropagationRun(cons, groups, bs, p, w, l, pins)
    ensures forall z :: z in zeros <==> exists i :: i < |cons| && LeftAsZero(ParseAll(cons, p), pins, bs, p, i, z)
    ensures forall i, env :: (0 <= i < |rows| && (ptrs[i].None? || PointerCovered(rows[i].ptr, accessOf, cons, groups, pins, p))
      && PropModel(cons, bs, p, env) && AliasesHold(rel, p, env)) ==> SameRow(out[i], rows[i], p, env)
  {
    hide SimplifyRow, SimplifiedRow, SameRow, PropagationRun, ZerosUpto, LeftAsZero, ParseAll, PointerIs, TableOf, PointerCovered;
    ghost var loads;
    pins, zeros, loads := Propagate(cons, groups, bs, p);
    var table := SurvivingTable(cons, groups, pins, bs, p);
    out, ptrs := [], [];
    for n := 0 to |rows|
      invariant |out| == |ptrs| == n && forall i :: 0 <= i < n ==> out[i] == SimplifyRow(rows[i], ptrs[i], pins, zeros, rel, p)
      invariant forall i :: 0 <= i < n ==> PointerIs(rows[i].ptr, accessOf, table, pins, p, ptrs[i])
    {
      assert rows[n] in rows;
      var ptr := PointerValue(rows[n].ptr, accessOf, table, pins, p);
      out, ptrs := out + [SimplifyRow(rows[n], ptr, pins, zeros, rel, p)], ptrs + [ptr];
    }
    forall i | 0 <= i < |rows| ensures SimplifiedRow(rows[i], out[i], ptrs[i], pins, zeros, rel, p) {
      SimplifyRowExactly(rows[i], ptrs[i], pins, zeros, rel, p);
    }
    forall i, env | 0 <= i < |rows| && (ptrs[i].None? || PointerCovered(rows[i].ptr, accessOf, cons, groups, pins, p))
      && PropModel(cons, bs, p, env) && AliasesHold(rel, p, env) ensures SameRow(out[i], rows[i], p, env)
    {
      if ptrs[i].Some? {
        PointerHolds(rows[i].ptr, accessOf, cons, groups, pins, bs, p, ptrs[i], env);
      }
      SimplifyRowKeeps(rows[i], ptrs[i], pins, zeros, rel, p, env);
    }
  }
}
