/** Terms and formulas, their value in a model, substitution, and sound solver answers. */
module Smt {

  datatype Op =
    | AndOp | OrOp | NotOp | ImpliesOp | IffOp | IteOp
    | EqualsOp | LeOp | LtOp
    | PlusOp | MinusOp | TimesOp | ModOp
    | Call(name: string)

  datatype Node = Sym(name: string) | IntConst(i: int) | BoolConst(b: bool) | App(op: Op, args: seq<Node>)

  datatype Value = IntV(i: int) | BoolV(b: bool)

  // Equality is the integer one; Booleans are compared by `iff`.

  /** Values of the symbols, interpretations of the uninterpreted functions, and the value of `x mod 0`,
      which SMT-LIB leaves open. */
  datatype Model = Model(vars: map<string, Value>, funs: (string, seq<Value>) -> Value, modZero: int -> int)

  function AsInt(v: Value): int {
    if v.IntV? then v.i else 0
  }

  function AsBool(v: Value): bool {
    v.BoolV? && v.b
  }

  function VarOf(m: Model, x: string): Value {
    if x in m.vars then m.vars[x] else IntV(0)
  }

  /** SMT-LIB integer `mod`: for a nonzero divisor the remainder lies in `[0, |b|)`. */
  function ModOf(m: Model, vs: seq<Value>): Value {
    if |vs| != 2 then IntV(0)
    else if AsInt(vs[1]) == 0 then IntV(m.modZero(AsInt(vs[0])))
    else IntV(AsInt(vs[0]) % AsInt(vs[1]))
  }

  function Sum(vs: seq<Value>): int {
    if vs == [] then 0 else AsInt(vs[0]) + Sum(vs[1..])
  }

  function Product(vs: seq<Value>): int {
    if vs == [] then 1 else AsInt(vs[0]) * Product(vs[1..])
  }

  function Apply(op: Op, vs: seq<Value>, m: Model): Value {
    match op
    case AndOp => BoolV(forall i :: 0 <= i < |vs| ==> AsBool(vs[i]))
    case OrOp => BoolV(exists i :: 0 <= i < |vs| && AsBool(vs[i]))
    case NotOp => BoolV(|vs| == 1 && !AsBool(vs[0]))
    case ImpliesOp => BoolV(|vs| == 2 && (AsBool(vs[0]) ==> AsBool(vs[1])))
    case IffOp => BoolV(|vs| == 2 && (AsBool(vs[0]) <==> AsBool(vs[1])))
    case IteOp => if |vs| != 3 then IntV(0) else if AsBool(vs[0]) then vs[1] else vs[2]
    case EqualsOp => BoolV(|vs| == 2 && AsInt(vs[0]) == AsInt(vs[1]))
    case LeOp => BoolV(|vs| == 2 && AsInt(vs[0]) <= AsInt(vs[1]))
    case LtOp => BoolV(|vs| == 2 && AsInt(vs[0]) < AsInt(vs[1]))
    case PlusOp => IntV(Sum(vs))
    case MinusOp => if |vs| == 2 then IntV(AsInt(vs[0]) - AsInt(vs[1])) else IntV(0)
    case TimesOp => IntV(Product(vs))
    case ModOp => ModOf(m, vs)
    case Call(f) => m.funs(f, vs)
  }

  function Eval(n: Node, m: Model): Value {
    match n
    case Sym(x) => VarOf(m, x)
    case IntConst(i) => IntV(i)
    case BoolConst(b) => BoolV(b)
    case App(op, args) => Apply(op, seq(|args|, i requires 0 <= i < |args| => Eval(args[i], m)), m)
  }

  function EvalAll(ns: seq<Node>, m: Model): seq<Value> {
    seq(|ns|, i requires 0 <= i < |ns| => Eval(ns[i], m))
  }

  predicate Holds(f: Node, m: Model) {
    AsBool(Eval(f, m))
  }

  ghost predicate Sat(fs: seq<Node>, m: Model) {
    forall f :: f in fs ==> Holds(f, m)
  }

  function Not(f: Node): Node {
    App(NotOp, [f])
  }

  lemma NotHolds(f: Node, m: Model)
    ensures Holds(Not(f), m) <==> !Holds(f, m)
  {
    assert Not(f).args == [f];
  }

  lemma SatMore(fs: seq<Node>, f: Node, m: Model)
    ensures Sat(fs + [f], m) <==> Sat(fs, m) && Holds(f, m)
  {
    if Sat(fs + [f], m) {
      assert f in fs + [f];
      forall g | g in fs ensures Holds(g, m) {
        assert g in fs + [f];
      }
    }
  }

  lemma SatConcat(a: seq<Node>, b: seq<Node>, m: Model)
    ensures Sat(a + b, m) <==> Sat(a, m) && Sat(b, m)
  {
    assert forall f :: f in a + b <==> f in a || f in b;
  }

  // ---- Free symbols and substitution ----

  function FreeVars(n: Node): set<string> {
    match n
    case Sym(x) => {x}
    case IntConst(_) => {}
    case BoolConst(_) => {}
    case App(op, args) =>
      (match op case Call(f) => {f} case _ => {}) + set i, x | 0 <= i < |args| && x in FreeVars(args[i]) :: x
  }

  function ValueNode(v: Value): Node {
    match v
    case IntV(i) => IntConst(i)
    case BoolV(b) => BoolConst(b)
  }

  function Substitute(n: Node, subs: map<string, Value>): Node {
    match n
    case Sym(x) => if x in subs then ValueNode(subs[x]) else n
    case IntConst(_) => n
    case BoolConst(_) => n
    case App(op, args) => App(op, seq(|args|, i requires 0 <= i < |args| => Substitute(args[i], subs)))
  }

  /** `subs` lists values of the model. */
  ghost predicate Extracts(subs: map<string, Value>, m: Model) {
    forall x :: x in subs ==> VarOf(m, x) == subs[x]
  }

  lemma {:induction false} SubstituteMeans(n: Node, subs: map<string, Value>, m: Model)
    requires Extracts(subs, m)
    ensures Eval(Substitute(n, subs), m) == Eval(n, m)
  {
    match n
    case Sym(x) =>
    case IntConst(_) =>
    case BoolConst(_) =>
    case App(op, args) =>
      forall i | 0 <= i < |args| ensures Eval(Substitute(args[i], subs), m) == Eval(args[i], m) {
        SubstituteMeans(args[i], subs, m);
      }
      var args' := Substitute(n, subs).args;
      assert EvalAll(args', m) == EvalAll(args, m);
  }

  // ---- Solver answers ----

  /** `readable` says whether the printed values of a model could be parsed back. */
  datatype Answer = SatAnswer(model: Model, readable: bool) | UnsatAnswer | UnknownAnswer

  /** An arbitrary solver: answers may differ between calls, `unsat` is given only when no model
      satisfies the formulas and `sat` comes with a model. */
  ghost predicate SoundOracle(oracle: (nat, seq<Node>) -> Answer) {
    forall n, fs :: SoundAnswer(oracle(n, fs), fs)
  }

  ghost predicate SoundAnswer(a: Answer, fs: seq<Node>) {
    && (a.UnsatAnswer? ==> forall m :: !Sat(fs, m))
    && (a.SatAnswer? ==> Sat(fs, a.model))
  }

  /** A solver that always decides. */
  ghost predicate Decisive(oracle: (nat, seq<Node>) -> Answer) {
    forall calls, fs :: !oracle(calls, fs).UnknownAnswer?
  }

  /** A solver that refutes whatever has no model. */
  ghost predicate Thorough(oracle: (nat, seq<Node>) -> Answer) {
    forall calls, fs :: (forall m :: !Sat(fs, m)) ==> oracle(calls, fs).UnsatAnswer?
  }

  /** A solver that never decides. */
  ghost predicate Silent(oracle: (nat, seq<Node>) -> Answer) {
    forall calls, fs :: oracle(calls, fs).UnknownAnswer?
  }
}
