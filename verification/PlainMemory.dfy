/** The plain memory permutation encoding: match literals, self-match facts, pairwise matches and the
    exactly-one constraint of every interaction. */
module PlainMemory {
  import opened Wrappers
  import opened Smt
  import opened Connectives

  /** `args` is address space, pointer, data and timestamp. */
  datatype Interaction = Interaction(mult: Node, args: seq<Node>)

  /** Literals marking the role of each self-matched interaction. */
  datatype Flags = Flags(isInput: seq<Node>, isOutput: seq<Node>, isDisabled: seq<Node>)

  type MatchVars = map<(int, int), Node>

  ghost predicate SameArity(rows: seq<Interaction>) {
    forall i, j :: 0 <= i < |rows| && 0 <= j < |rows| ==> |rows[i].args| == |rows[j].args|
  }

  // ---- Match literals ----

  function Constant(n: Node, p: int): Option<int>
    requires p > 0
  {
    if n.IntConst? then Some(n.i % p) else None
  }

  predicate ArgsClash(a: seq<Node>, b: seq<Node>, p: int)
    requires p > 0 && |a| == |b|
  {
    exists k :: 0 <= k < |a| && Constant(a[k], p).Some? && Constant(b[k], p).Some? && Constant(a[k], p) != Constant(b[k], p)
  }

  predicate SomeConstant(a: seq<Node>, p: int)
    requires p > 0
  {
    exists k :: 0 <= k < |a| && Constant(a[k], p).Some?
  }

  /** Constant multiplicities or arguments already exclude the match. */
  predicate StaticallyImpossible(a: Interaction, b: Interaction, p: int)
    requires p > 0 && |a.args| == |b.args|
  {
    var x, y := Constant(a.mult, p), Constant(b.mult, p);
    if x.None? && y.None? && (!SomeConstant(a.args, p) || !SomeConstant(b.args, p)) then false
    else if x == Some(0) || y == Some(0) then true
    else if x.Some? && y.Some? && (x.value + y.value) % p != 0 then true
    else ArgsClash(a.args, b.args, p)
  }

  /** A multiplicity that is the constant zero, two constant multiplicities that do not cancel, or constants at one
      place with different residues. */
  ghost predicate ConstantsExclude(a: Interaction, b: Interaction, p: int)
    requires p > 0 && |a.args| == |b.args|
  {
    || (exists n :: (a.mult == IntConst(n) || b.mult == IntConst(n)) && n % p == 0)
    || (exists m, n :: a.mult == IntConst(m) && b.mult == IntConst(n) && (m % p + n % p) % p != 0)
    || (exists k, m, n :: 0 <= k < |a.args| && a.args[k] == IntConst(m) && b.args[k] == IntConst(n) && m % p != n % p)
  }

  /** The static test finds exactly the pairs that constants exclude. */
  lemma StaticExactly(a: Interaction, b: Interaction, p: int)
    requires p > 0 && |a.args| == |b.args|
    ensures StaticallyImpossible(a, b, p) <==> ConstantsExclude(a, b, p)
  {
    forall k | 0 <= k < |a.args|
      ensures (Constant(a.args[k], p).Some? && Constant(b.args[k], p).Some? && Constant(a.args[k], p) != Constant(b.args[k], p)) <==>
        exists m, n :: a.args[k] == IntConst(m) && b.args[k] == IntConst(n) && m % p != n % p
    {
      if a.args[k].IntConst? && b.args[k].IntConst? {
        assert a.args[k] == IntConst(a.args[k].i) && b.args[k] == IntConst(b.args[k].i);
      }
    }
    if a.mult.IntConst? {
      assert a.mult == IntConst(a.mult.i);
    }
    if b.mult.IntConst? {
      assert b.mult == IntConst(b.mult.i);
    }
    if k, m, n :| 0 <= k < |a.args| && a.args[k] == IntConst(m) && b.args[k] == IntConst(n) && m % p != n % p {
      assert Constant(a.args[k], p).Some? && Constant(b.args[k], p).Some?;
    }
  }

  /** The literal for the match of `i` and `j`, `i <= j`; the candidate list of `i` decides. */
  function MatchVar(rows: seq<Interaction>, candidates: seq<seq<int>>, p: int, name: (int, int) -> string, i: int, j: int): Node
    requires p > 0 && SameArity(rows) && 0 <= i <= j < |rows| == |candidates|
  {
    if j !in candidates[i] then FALSE
    else if forall k :: k in candidates[i] ==> k == j then TRUE
    else if i != j && StaticallyImpossible(rows[i], rows[j], p) then FALSE
    else Sym(name(i, j))
  }

  method BuildMatchVars(rows: seq<Interaction>, candidates: seq<seq<int>>, p: int, name: (int, int) -> string) returns (vars: MatchVars)
    requires p > 0 && SameArity(rows) && |candidates| == |rows|
    ensures IsMatchVars(rows, candidates, p, name, vars)
  {
    vars := map[];
    for i := 0 to |rows|
      invariant forall a, b :: 0 <= a < i && a <= b < |rows| ==> (a, b) in vars && vars[(a, b)] == MatchVar(rows, candidates, p, name, a, b)
    {
      for j := i to |rows|
        invariant forall a, b :: 0 <= a < i && a <= b < |rows| ==> (a, b) in vars && vars[(a, b)] == MatchVar(rows, candidates, p, name, a, b)
        invariant forall b :: i <= b < j ==> (i, b) in vars && vars[(i, b)] == MatchVar(rows, candidates, p, name, i, b)
      {
        vars := vars[(i, j) := MatchVar(rows, candidates, p, name, i, j)];
      }
    }
    forall i, j | 0 <= i <= j < |rows| ensures (i, j) in vars && Prescribed(rows, candidates, p, name, i, j, vars[(i, j)]) {
      MatchVarPrescribed(rows, candidates, p, name, i, j, vars[(i, j)]);
    }
  }

  /** The literal a pair has: false where it is no candidate, true where it is the only one, false where constants exclude
      it, and a symbol of its own otherwise. */
  ghost predicate Prescribed(rows: seq<Interaction>, candidates: seq<seq<int>>, p: int, name: (int, int) -> string, i: int, j: int, lit: Node)
    requires p > 0 && SameArity(rows) && 0 <= i <= j < |rows| == |candidates|
  {
    var only := j in candidates[i] && forall k :: k in candidates[i] ==> k == j;
    var excluded := j !in candidates[i] || (!only && i != j && ConstantsExclude(rows[i], rows[j], p));
    (excluded ==> lit == FALSE) && (only ==> lit == TRUE) && (!excluded && !only ==> lit == Sym(name(i, j)))
  }

  lemma MatchVarPrescribed(rows: seq<Interaction>, candidates: seq<seq<int>>, p: int, name: (int, int) -> string, i: int, j: int, lit: Node)
    requires p > 0 && SameArity(rows) && 0 <= i <= j < |rows| == |candidates|
    ensures lit == MatchVar(rows, candidates, p, name, i, j) <==> Prescribed(rows, candidates, p, name, i, j, lit)
  {
    hide StaticallyImpossible, ConstantsExclude;
    StaticExactly(rows[i], rows[j], p);
  }

  ghost predicate IsMatchVars(rows: seq<Interaction>, candidates: seq<seq<int>>, p: int, name: (int, int) -> string, vars: MatchVars)
    requires p > 0 && SameArity(rows) && |candidates| == |rows|
  {
    forall i, j :: 0 <= i <= j < |rows| ==> (i, j) in vars && Prescribed(rows, candidates, p, name, i, j, vars[(i, j)])
  }

  ghost predicate Complete(vars: MatchVars, n: int) {
    forall i, j :: 0 <= i <= j < n ==> (i, j) in vars
  }

  /** The literal of an unordered pair. */
  function Lit(vars: MatchVars, n: int, i: int, j: int): Node
    requires Complete(vars, n) && 0 <= i < n && 0 <= j < n
  {
    if i > j then vars[(j, i)] else vars[(i, j)]
  }

  ghost predicate GoodCandidates(candidates: seq<seq<int>>) {
    forall i, k :: 0 <= i < |candidates| && 0 <= k < |candidates[i]| ==> 0 <= candidates[i][k] < |candidates|
  }

  function Literals(vars: MatchVars, n: int, i: int, js: seq<int>): (fs: seq<Node>)
    requires Complete(vars, n) && 0 <= i < n && forall k :: 0 <= k < |js| ==> 0 <= js[k] < n
    ensures |fs| == |js| && forall k :: 0 <= k < |js| ==> fs[k] == Lit(vars, n, i, js[k])
  {
    seq(|js|, k requires 0 <= k < |js| => Lit(vars, n, i, js[k]))
  }

  // ---- What the encoding says ----

  function Mult(rows: seq<Interaction>, i: int, m: Model): int
    requires 0 <= i < |rows|
  {
    IntOf(rows[i].mult, m)
  }

  function ArgValues(row: Interaction, m: Model): seq<int> {
    seq(|row.args|, k requires 0 <= k < |row.args| => IntOf(row.args[k], m))
  }

  ghost predicate MultOk(rows: seq<Interaction>, p: int, i: int, m: Model)
    requires 0 <= i < |rows|
  {
    Mult(rows, i, m) == p - 1 || Mult(rows, i, m) == 0 || Mult(rows, i, m) == 1
  }

  ghost predicate WellFlagged(rows: seq<Interaction>, fl: Flags) {
    |fl.isInput| == |fl.isOutput| == |fl.isDisabled| == |rows|
  }

  /** A self-matched interaction is disabled, input or output, as its multiplicity says. */
  ghost predicate SelfOk(rows: seq<Interaction>, fl: Flags, self: Node, p: int, i: int, m: Model)
    requires WellFlagged(rows, fl) && 0 <= i < |rows|
  {
    var own, dis, inp, out := Holds(self, m), Holds(fl.isDisabled[i], m), Holds(fl.isInput[i], m), Holds(fl.isOutput[i], m);
    && (own <==> dis || inp || out)
    && (dis <==> own && Mult(rows, i, m) == 0)
    && (inp <==> own && Mult(rows, i, m) == p - 1)
    && (out <==> own && Mult(rows, i, m) == 1)
    && (!own ==> !dis && !inp && !out && Mult(rows, i, m) != 0)
  }

  /** A matched pair has opposite nonzero multiplicities and equal arguments. */
  ghost predicate PairOk(a: Interaction, b: Interaction, lit: Node, p: int, m: Model)
    requires p > 0
  {
    Holds(lit, m) ==>
      && (IntOf(a.mult, m) + IntOf(b.mult, m)) % p == 0 && IntOf(a.mult, m) != 0 && IntOf(b.mult, m) != 0
      && ArgValues(a, m) == ArgValues(b, m)
  }

  ghost predicate OneMatch(vars: MatchVars, n: int, i: int, js: seq<int>, m: Model)
    requires Complete(vars, n) && 0 <= i < n && forall k :: 0 <= k < |js| ==> 0 <= js[k] < n
  {
    CountTrue(Literals(vars, n, i, js), m) == 1
  }

  // ---- Formulas ----

  function MultRange(row: Interaction, p: int): Node {
    Or([Equals(row.mult, IntConst(p - 1)), Equals(row.mult, IntConst(0)), Equals(row.mult, IntConst(1))])
  }

  lemma MultRangeMeans(rows: seq<Interaction>, p: int, i: int, m: Model)
    requires 0 <= i < |rows|
    ensures Holds(MultRange(rows[i], p), m) <==> MultOk(rows, p, i, m)
  {
    var x := rows[i].mult;
    Or3Means(Equals(x, IntConst(p - 1)), Equals(x, IntConst(0)), Equals(x, IntConst(1)), m);
    EqualsIntMeans(x, p - 1, m);
    EqualsIntMeans(x, 0, m);
    EqualsIntMeans(x, 1, m);
  }

  /** A role literal holds exactly when the interaction is self-matched with multiplicity `k`. */
  function RoleIff(role: Node, self: Node, mult: Node, k: int): Node {
    Iff(role, And([self, Equals(mult, IntConst(k))]))
  }

  lemma RoleIffMeans(role: Node, self: Node, mult: Node, k: int, m: Model)
    ensures Holds(RoleIff(role, self, mult, k), m) <==> (Holds(role, m) <==> Holds(self, m) && IntOf(mult, m) == k)
  {
    IffMeans(role, And([self, Equals(mult, IntConst(k))]), m);
    And2Means(self, Equals(mult, IntConst(k)), m);
    EqualsIntMeans(mult, k, m);
  }

  function NoSelf(dis: Node, inp: Node, out: Node, self: Node, mult: Node): Node {
    Implies(Not(self), And([Not(dis), Not(inp), Not(out), Not(Equals(mult, IntConst(0)))]))
  }

  lemma NoSelfMeans(dis: Node, inp: Node, out: Node, self: Node, mult: Node, m: Model)
    ensures Holds(NoSelf(dis, inp, out, self, mult), m) <==>
      (!Holds(self, m) ==> !Holds(dis, m) && !Holds(inp, m) && !Holds(out, m) && IntOf(mult, m) != 0)
  {
    var fs := [Not(dis), Not(inp), Not(out), Not(Equals(mult, IntConst(0)))];
    ImpliesMeans(Not(self), And(fs), m);
    NotHolds(self, m);
    AndMeans(fs, m);
    NotHolds(dis, m);
    NotHolds(inp, m);
    NotHolds(out, m);
    NotHolds(Equals(mult, IntConst(0)), m);
    EqualsIntMeans(mult, 0, m);
    assert fs[0] == Not(dis) && fs[1] == Not(inp) && fs[2] == Not(out) && fs[3] == Not(Equals(mult, IntConst(0)));
  }

  function SelfFacts(row: Interaction, dis: Node, inp: Node, out: Node, self: Node, p: int): seq<Node> {
    [Iff(self, Or([dis, inp, out])),
     RoleIff(dis, self, row.mult, 0),
     RoleIff(inp, self, row.mult, p - 1),
     RoleIff(out, self, row.mult, 1),
     NoSelf(dis, inp, out, self, row.mult)]
  }

  lemma Sat5(a: Node, b: Node, c: Node, d: Node, e: Node, m: Model)
    ensures Sat([a, b, c, d, e], m) <==> Holds(a, m) && Holds(b, m) && Holds(c, m) && Holds(d, m) && Holds(e, m)
  {
    var fs := [a, b, c, d, e];
    assert a in fs && b in fs && c in fs && d in fs && e in fs;
  }

  lemma SelfFactsMean(rows: seq<Interaction>, fl: Flags, self: Node, p: int, i: int, m: Model)
    requires WellFlagged(rows, fl) && 0 <= i < |rows|
    ensures Sat(SelfFacts(rows[i], fl.isDisabled[i], fl.isInput[i], fl.isOutput[i], self, p), m) <==> SelfOk(rows, fl, self, p, i, m)
  {
    var dis, inp, out := fl.isDisabled[i], fl.isInput[i], fl.isOutput[i];
    var fs := SelfFacts(rows[i], dis, inp, out, self, p);
    Sat5(fs[0], fs[1], fs[2], fs[3], fs[4], m);
    IffMeans(self, Or([dis, inp, out]), m);
    Or3Means(dis, inp, out, m);
    RoleIffMeans(dis, self, rows[i].mult, 0, m);
    RoleIffMeans(inp, self, rows[i].mult, p - 1, m);
    RoleIffMeans(out, self, rows[i].mult, 1, m);
    NoSelfMeans(dis, inp, out, self, rows[i].mult, m);
  }

  function ArgEqualities(a: seq<Node>, b: seq<Node>): seq<Node>
    requires |a| == |b|
  {
    seq(|a|, k requires 0 <= k < |a| => Equals(a[k], b[k]))
  }

  function PairFacts(a: Interaction, b: Interaction, lit: Node, p: int): seq<Node>
    requires |a.args| == |b.args|
  {
    var sum := App(ModOp, [App(PlusOp, [a.mult, b.mult]), IntConst(p)]);
    [Implies(lit, And([Equals(sum, IntConst(0)), Not(Equals(a.mult, IntConst(0))), Not(Equals(b.mult, IntConst(0)))])),
     Implies(lit, And(ArgEqualities(a.args, b.args)))]
  }

  lemma ArgEqualitiesMean(a: Interaction, b: Interaction, m: Model)
    requires |a.args| == |b.args|
    ensures Holds(And(ArgEqualities(a.args, b.args)), m) <==> ArgValues(a, m) == ArgValues(b, m)
  {
    var es := ArgEqualities(a.args, b.args);
    AndMeans(es, m);
    forall k | 0 <= k < |es| ensures Holds(es[k], m) <==> ArgValues(a, m)[k] == ArgValues(b, m)[k] {
      EqualsMeans(a.args[k], b.args[k], m);
    }
  }

  lemma WrappedSum(x: Node, y: Node, p: int, m: Model)
    requires p > 0
    ensures IntOf(App(ModOp, [App(PlusOp, [x, y]), IntConst(p)]), m) == (IntOf(x, m) + IntOf(y, m)) % p
  {
    var plus := App(PlusOp, [x, y]);
    PairMeans(ModOp, plus, IntConst(p), m);
    PairMeans(PlusOp, x, y, m);
    var vs := [Eval(x, m), Eval(y, m)];
    assert vs[1..] == [Eval(y, m)] && vs[1..][1..] == [];
    assert Sum(vs) == AsInt(vs[0]) + Sum(vs[1..]);
    assert Sum(vs[1..]) == AsInt(Eval(y, m)) + Sum([]);
  }

  lemma PairFactsMean(a: Interaction, b: Interaction, lit: Node, p: int, m: Model)
    requires p > 0 && |a.args| == |b.args|
    ensures Sat(PairFacts(a, b, lit, p), m) <==> PairOk(a, b, lit, p, m)
  {
    var sum := App(ModOp, [App(PlusOp, [a.mult, b.mult]), IntConst(p)]);
    var opposite := [Equals(sum, IntConst(0)), Not(Equals(a.mult, IntConst(0))), Not(Equals(b.mult, IntConst(0)))];
    var fs := PairFacts(a, b, lit, p);
    assert fs == [Implies(lit, And(opposite)), Implies(lit, And(ArgEqualities(a.args, b.args)))];
    assert Sat(fs, m) <==> Holds(fs[0], m) && Holds(fs[1], m) by {
      assert fs[0] in fs && fs[1] in fs;
    }
    ImpliesMeans(lit, And(opposite), m);
    ImpliesMeans(lit, And(ArgEqualities(a.args, b.args)), m);
    ArgEqualitiesMean(a, b, m);
    AndMeans(opposite, m);
    assert opposite[0] == Equals(sum, IntConst(0)) && opposite[1] == Not(Equals(a.mult, IntConst(0)))
           && opposite[2] == Not(Equals(b.mult, IntConst(0)));
    EqualsIntMeans(sum, 0, m);
    WrappedSum(a.mult, b.mult, p, m);
    NotHolds(Equals(a.mult, IntConst(0)), m);
    EqualsIntMeans(a.mult, 0, m);
    NotHolds(Equals(b.mult, IntConst(0)), m);
    EqualsIntMeans(b.mult, 0, m);
  }

  /** Presetting a statically impossible match to false loses no assignment: with multiplicities in
      range, no assignment could satisfy the facts of that pair. */
  lemma StaticPresetsLoseNothing(rows: seq<Interaction>, p: int, i: int, j: int, m: Model)
    requires p > 2 && SameArity(rows) && 0 <= i < |rows| && 0 <= j < |rows|
    requires MultOk(rows, p, i, m) && MultOk(rows, p, j, m) && StaticallyImpossible(rows[i], rows[j], p)
    ensures !PairOk(rows[i], rows[j], TRUE, p, m)
  {
    var a, b := rows[i], rows[j];
    var x, y := Constant(a.mult, p), Constant(b.mult, p);
    if x.Some? {
      SmallResidue(Mult(rows, i, m), p);
    }
    if y.Some? {
      SmallResidue(Mult(rows, j, m), p);
    }
    if ArgsClash(a.args, b.args, p) {
      ClashingArgsDiffer(a, b, p, m);
    }
  }

  lemma ClashingArgsDiffer(a: Interaction, b: Interaction, p: int, m: Model)
    requires p > 0 && |a.args| == |b.args| && ArgsClash(a.args, b.args, p)
    ensures ArgValues(a, m) != ArgValues(b, m)
  {
    var k :| 0 <= k < |a.args| && Constant(a.args[k], p).Some? && Constant(b.args[k], p).Some?
             && Constant(a.args[k], p) != Constant(b.args[k], p);
    assert ArgValues(a, m)[k] != ArgValues(b, m)[k];
  }

  lemma SmallResidue(x: int, p: int)
    requires p > 2 && 0 <= x < p
    ensures x % p == x
  {
  }

  // ---- Building the encoding ----

  /** The models of the encoding up to the exactly-one constraints. */
  ghost predicate PlainModel(rows: seq<Interaction>, candidates: seq<seq<int>>, fl: Flags, vars: MatchVars, p: int, m: Model)
    requires Setting(rows, candidates, fl, vars, p)
  {
    && (forall i :: 0 <= i < |rows| ==> MultOk(rows, p, i, m))
    && (forall i :: 0 <= i < |rows| ==> SelfOk(rows, fl, Lit(vars, |rows|, i, i), p, i, m))
    && (forall i :: 0 <= i < |rows| ==> PairsOk(rows, candidates[i], vars, p, i, m))
    && (forall i :: 0 <= i < |rows| ==> OneMatch(vars, |rows|, i, candidates[i], m))
  }

  ghost predicate Setting(rows: seq<Interaction>, candidates: seq<seq<int>>, fl: Flags, vars: MatchVars, p: int) {
    && p > 2 && SameArity(rows) && |candidates| == |rows| && WellFlagged(rows, fl)
    && Complete(vars, |rows|) && GoodCandidates(candidates)
  }

  /** The pair facts of row `i`: later candidates whose literal is not fixed to false. */
  ghost predicate PairsOk(rows: seq<Interaction>, js: seq<int>, vars: MatchVars, p: int, i: int, m: Model)
    requires p > 0 && Complete(vars, |rows|) && 0 <= i < |rows| && forall k :: 0 <= k < |js| ==> 0 <= js[k] < |rows|
  {
    forall k :: 0 <= k < |js| && js[k] > i ==> PairOk(rows[i], rows[js[k]], Lit(vars, |rows|, i, js[k]), p, m)
  }

  method AppendMults(rows: seq<Interaction>, p: int, conj0: seq<Node>) returns (conj: seq<Node>)
    ensures forall m :: Sat(conj, m) <==> Sat(conj0, m) && forall i :: 0 <= i < |rows| ==> MultOk(rows, p, i, m)
  {
    conj := conj0;
    for i := 0 to |rows|
      invariant forall m :: Sat(conj, m) <==> Sat(conj0, m) && forall k :: 0 <= k < i ==> MultOk(rows, p, k, m)
    {
      ghost var before := conj;
      conj := conj + [MultRange(rows[i], p)];
      forall m ensures Sat(conj, m) <==> Sat(before, m) && MultOk(rows, p, i, m) {
        SatMore(before, MultRange(rows[i], p), m);
        MultRangeMeans(rows, p, i, m);
      }
    }
  }

  method AppendSelf(rows: seq<Interaction>, fl: Flags, vars: MatchVars, p: int, conj0: seq<Node>) returns (conj: seq<Node>)
    requires WellFlagged(rows, fl) && Complete(vars, |rows|)
    ensures forall m :: Sat(conj, m) <==>
      Sat(conj0, m) && forall i :: 0 <= i < |rows| ==> SelfOk(rows, fl, Lit(vars, |rows|, i, i), p, i, m)
  {
    conj := conj0;
    for i := 0 to |rows|
      invariant forall m :: Sat(conj, m) <==>
        Sat(conj0, m) && forall k :: 0 <= k < i ==> SelfOk(rows, fl, Lit(vars, |rows|, k, k), p, k, m)
    {
      ghost var before := conj;
      var fs := SelfFacts(rows[i], fl.isDisabled[i], fl.isInput[i], fl.isOutput[i], Lit(vars, |rows|, i, i), p);
      conj := conj + fs;
      forall m ensures Sat(conj, m) <==> Sat(before, m) && SelfOk(rows, fl, Lit(vars, |rows|, i, i), p, i, m) {
        SatConcat(before, fs, m);
        SelfFactsMean(rows, fl, Lit(vars, |rows|, i, i), p, i, m);
      }
    }
  }

  method AppendRowPairs(rows: seq<Interaction>, js: seq<int>, vars: MatchVars, p: int, i: nat, conj0: seq<Node>) returns (conj: seq<Node>)
    requires p > 0 && SameArity(rows) && Complete(vars, |rows|) && i < |rows| && forall k :: 0 <= k < |js| ==> 0 <= js[k] < |rows|
    ensures forall m :: Sat(conj, m) <==> Sat(conj0, m) && PairsOk(rows, js, vars, p, i, m)
  {
    conj := conj0;
    for k := 0 to |js|
      invariant forall m :: Sat(conj, m) <==> Sat(conj0, m) && PairsOk(rows, js[..k], vars, p, i, m)
    {
      var j := js[k];
      ghost var before := conj;
      if j > i && Lit(vars, |rows|, i, j) != FALSE {
        var fs := PairFacts(rows[i], rows[j], Lit(vars, |rows|, i, j), p);
        conj := conj + fs;
        forall m ensures Sat(conj, m) <==> Sat(before, m) && PairOk(rows[i], rows[j], Lit(vars, |rows|, i, j), p, m) {
          SatConcat(before, fs, m);
          PairFactsMean(rows[i], rows[j], Lit(vars, |rows|, i, j), p, m);
        }
      }
      PairsSnoc(rows, js, vars, p, i, k);
    }
    assert js[..|js|] == js;
  }

  lemma PairsSnoc(rows: seq<Interaction>, js: seq<int>, vars: MatchVars, p: int, i: nat, k: nat)
    requires p > 0 && Complete(vars, |rows|) && i < |rows| && k < |js| && forall l :: 0 <= l < |js| ==> 0 <= js[l] < |rows|
    ensures forall m :: PairsOk(rows, js[..k + 1], vars, p, i, m) <==>
      PairsOk(rows, js[..k], vars, p, i, m) && (js[k] > i ==> PairOk(rows[i], rows[js[k]], Lit(vars, |rows|, i, js[k]), p, m))
  {
    forall m ensures PairsOk(rows, js[..k + 1], vars, p, i, m) <==>
      PairsOk(rows, js[..k], vars, p, i, m) && (js[k] > i ==> PairOk(rows[i], rows[js[k]], Lit(vars, |rows|, i, js[k]), p, m))
    {
      var more := js[..k + 1];
      assert more == js[..k] + [js[k]];
      if PairsOk(rows, more, vars, p, i, m) {
        forall l | 0 <= l < k && js[..k][l] > i ensures PairOk(rows[i], rows[js[..k][l]], Lit(vars, |rows|, i, js[..k][l]), p, m) {
          assert more[l] == js[..k][l];
        }
        assert more[k] == js[k];
      }
    }
  }

  method AppendPairs(rows: seq<Interaction>, candidates: seq<seq<int>>, vars: MatchVars, p: int, conj0: seq<Node>) returns (conj: seq<Node>)
    requires p > 0 && SameArity(rows) && |candidates| == |rows| && Complete(vars, |rows|) && GoodCandidates(candidates)
    ensures forall m :: Sat(conj, m) <==>
      Sat(conj0, m) && forall i :: 0 <= i < |rows| ==> PairsOk(rows, candidates[i], vars, p, i, m)
  {
    conj := conj0;
    for i := 0 to |rows|
      invariant forall m :: Sat(conj, m) <==>
        Sat(conj0, m) && forall k :: 0 <= k < i ==> PairsOk(rows, candidates[k], vars, p, k, m)
    {
      conj := AppendRowPairs(rows, candidates[i], vars, p, i, conj);
    }
  }

  method AppendOneMatch(rows: seq<Interaction>, candidates: seq<seq<int>>, vars: MatchVars, conj0: seq<Node>) returns (conj: seq<Node>)
    requires |candidates| == |rows| && Complete(vars, |rows|) && GoodCandidates(candidates)
    ensures forall m :: Sat(conj, m) <==>
      Sat(conj0, m) && forall i :: 0 <= i < |rows| ==> OneMatch(vars, |rows|, i, candidates[i], m)
  {
    conj := conj0;
    for i := 0 to |rows|
      invariant forall m :: Sat(conj, m) <==>
        Sat(conj0, m) && forall k :: 0 <= k < i ==> OneMatch(vars, |rows|, k, candidates[k], m)
    {
      ghost var before := conj;
      var f := ExactlyOneMatch(Literals(vars, |rows|, i, candidates[i]));
      conj := conj + [f];
      forall m ensures Sat(conj, m) <==> Sat(before, m) && OneMatch(vars, |rows|, i, candidates[i], m) {
        SatMore(before, f, m);
        ExactlyOneMatchMeans(Literals(vars, |rows|, i, candidates[i]), m);
      }
    }
  }

  /** The encoding; an assignment satisfies it exactly when it is a plain model. */
  method Encode(rows: seq<Interaction>, candidates: seq<seq<int>>, fl: Flags, p: int, name: (int, int) -> string)
    returns (conj: seq<Node>, vars: MatchVars)
    requires p > 2 && SameArity(rows) && |candidates| == |rows| && WellFlagged(rows, fl) && GoodCandidates(candidates)
    ensures Setting(rows, candidates, fl, vars, p) && IsMatchVars(rows, candidates, p, name, vars)
    ensures forall m :: Sat(conj, m) <==> PlainModel(rows, candidates, fl, vars, p, m)
  {
    vars := BuildMatchVars(rows, candidates, p, name);
    conj := AppendMults(rows, p, []);
    conj := AppendSelf(rows, fl, vars, p, conj);
    conj := AppendPairs(rows, candidates, vars, p, conj);
    conj := AppendOneMatch(rows, candidates, vars, conj);
  }
}
