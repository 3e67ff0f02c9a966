/** Abstracting `mod` by an uninterpreted function with axiom instances added on demand. */
module ModAbstraction {
  import opened Smt

  const UMOD := "umod!abs"

  /** The abstraction symbol does not occur in the formula. */
  ghost predicate NoUmod(n: Node) {
    match n
    case App(op, args) => op != Call(UMOD) && forall i :: 0 <= i < |args| ==> NoUmod(args[i])
    case _ => true
  }

  function AbstractOp(op: Op): Op {
    if op.ModOp? then Call(UMOD) else op
  }

  /** Every `mod` replaced by an application of the abstraction symbol. */
  function Abstract(n: Node): Node {
    match n
    case App(op, args) => App(AbstractOp(op), seq(|args|, i requires 0 <= i < |args| => Abstract(args[i])))
    case _ => n
  }

  /** A model extended by the real `mod` as the meaning of the abstraction symbol. */
  ghost function WithMod(m: Model): Model {
    Model(m.vars, (f: string, vs: seq<Value>) => if f == UMOD then ModOf(m, vs) else m.funs(f, vs), m.modZero)
  }

  lemma {:induction false} AbstractMeans(n: Node, m: Model)
    requires NoUmod(n)
    ensures Eval(Abstract(n), WithMod(m)) == Eval(n, m)
  {
    match n
    case Sym(_) =>
    case IntConst(_) =>
    case BoolConst(_) =>
    case App(op, args) =>
      var args' := Abstract(n).args;
      forall i | 0 <= i < |args| ensures Eval(args'[i], WithMod(m)) == Eval(args[i], m) {
        AbstractMeans(args[i], m);
      }
      assert EvalAll(args', WithMod(m)) == EvalAll(args, m);
  }

  // ---- The rewriting loop ----

  function Subnodes(n: Node): set<Node> {
    match n
    case App(op, args) => {n} + set i, s | 0 <= i < |args| && s in Subnodes(args[i]) :: s
    case _ => {n}
  }

  lemma {:induction false} SubnodesClosed(n: Node, s: Node, i: nat)
    requires s in Subnodes(n) && s.App? && i < |s.args|
    ensures s.args[i] in Subnodes(n)
  {
    SelfIsSubnode(s.args[i]);
    if s != n {
      var j :| 0 <= j < |n.args| && s in Subnodes(n.args[j]);
      SubnodesClosed(n.args[j], s, i);
    }
  }

  lemma SelfIsSubnode(n: Node)
    ensures n in Subnodes(n)
  {
  }

  function ArgsOf(n: Node): seq<Node> {
    if n.App? then n.args else []
  }

  function Pending(args: seq<Node>, memo: map<Node, Node>): (p: seq<Node>)
    ensures forall a :: a in p <==> a in args && a !in memo
  {
    if args == [] then []
    else (if args[0] in memo then [] else [args[0]]) + Pending(args[1..], memo)
  }

  ghost predicate MemoCorrect(memo: map<Node, Node>) {
    forall n :: n in memo ==> memo[n] == Abstract(n)
  }

  lemma ArgBelow(n: Node, a: Node)
    requires n.App? && a in n.args
    ensures a < n
  {
  }

  ghost predicate ClosedUnderArgs(all: set<Node>) {
    forall s, a :: s in all && a in ArgsOf(s) ==> a in all
  }

  lemma SubnodesAreClosed(root: Node)
    ensures root in Subnodes(root) && ClosedUnderArgs(Subnodes(root))
  {
    forall s, a | s in Subnodes(root) && a in ArgsOf(s) ensures a in Subnodes(root) {
      var i :| 0 <= i < |s.args| && s.args[i] == a;
      SubnodesClosed(root, s, i);
    }
  }

  /** Rewrites one formula, sharing the memo table between formulas. */
  method Rewrite(root: Node, memo0: map<Node, Node>) returns (r: Node, memo: map<Node, Node>)
    requires MemoCorrect(memo0)
    ensures r == Abstract(root) && MemoCorrect(memo)
  {
    SubnodesAreClosed(root);
    r, memo := RewriteFrom(root, Subnodes(root), memo0);
  }

  /** The loop: an explicit stack instead of recursion. */
  method RewriteFrom(root: Node, ghost all: set<Node>, memo0: map<Node, Node>) returns (r: Node, memo: map<Node, Node>)
    requires MemoCorrect(memo0) && root in all && ClosedUnderArgs(all)
    ensures r == Abstract(root) && MemoCorrect(memo)
  {
    memo := memo0;
    var stack := [root];
    while stack != []
      invariant MemoCorrect(memo)
      invariant forall s :: s in stack ==> s in all
      invariant stack == [] ==> root in memo
      invariant stack != [] ==> stack[0] == root
      decreases |all - memo.Keys|,
                stack != [] && stack[|stack| - 1] in memo,
                if stack != [] && stack[|stack| - 1] in memo then |stack| else 0,
                if stack != [] then stack[|stack| - 1] else root
    {
      var n := stack[|stack| - 1];
      if n in memo {
        stack := stack[..|stack| - 1];
        continue;
      }
      var pending := Pending(ArgsOf(n), memo);
      if pending != [] {
        ArgBelow(n, pending[|pending| - 1]);
        stack := stack + pending;
        continue;
      }
      var image := Image(n, memo);
      FewerLeft(all, memo, memo[n := image], n);
      memo := memo[n := image];
      stack := stack[..|stack| - 1];
    }
    r := memo[root];
  }

  /** The rewritten node, once all its arguments are. */
  method Image(n: Node, memo: map<Node, Node>) returns (image: Node)
    requires MemoCorrect(memo) && Pending(ArgsOf(n), memo) == []
    ensures image == Abstract(n)
  {
    PendingNone(ArgsOf(n), memo);
    var args := seq(|ArgsOf(n)|, i requires 0 <= i < |ArgsOf(n)| => memo[ArgsOf(n)[i]]);
    image := if n.App? && n.op.ModOp? then App(Call(UMOD), args)
             else if !n.App? || args == n.args then n
             else App(n.op, args);
    ImageIsAbstract(n, memo, args, image);
  }

  lemma PendingNone(args: seq<Node>, memo: map<Node, Node>)
    requires Pending(args, memo) == []
    ensures forall i :: 0 <= i < |args| ==> args[i] in memo
  {
    forall i | 0 <= i < |args| ensures args[i] in memo {
      assert args[i] in args;
      assert args[i] !in Pending(args, memo);
    }
  }

  lemma ImageIsAbstract(n: Node, memo: map<Node, Node>, args: seq<Node>, image: Node)
    requires MemoCorrect(memo) && |args| == |ArgsOf(n)|
    requires forall i :: 0 <= i < |args| ==> ArgsOf(n)[i] in memo && args[i] == memo[ArgsOf(n)[i]]
    requires image == if n.App? && n.op.ModOp? then App(Call(UMOD), args)
                      else if !n.App? || args == n.args then n
                      else App(n.op, args)
    ensures image == Abstract(n)
  {
    if n.App? {
      assert args == Abstract(n).args;
    }
  }

  lemma FewerLeft(all: set<Node>, before: map<Node, Node>, after: map<Node, Node>, n: Node)
    requires n in all && n !in before && after.Keys == before.Keys + {n}
    ensures |all - after.Keys| < |all - before.Keys|
  {
    assert all - before.Keys == (all - after.Keys) + {n};
  }

  // ---- Applications and their axioms ----

  /** An application of the abstraction symbol with a positive constant divisor. */
  predicate IsApp(u: Node) {
    u.App? && u.op == Call(UMOD) && |u.args| == 2 && u.args[1].IntConst? && u.args[1].i > 0
  }

  /** `0 <= x < b`. */
  function Between(x: Node, b: Node): Node {
    App(AndOp, [App(LeOp, [IntConst(0), x]), App(LtOp, [x, b])])
  }

  /** Range and no-wrap instances for one application. */
  function ModAxioms(u: Node): (axioms: seq<Node>)
    requires IsApp(u)
  {
    var a, b := u.args[0], u.args[1];
    [Between(u, b), App(ImpliesOp, [Between(a, b), App(EqualsOp, [u, a])])]
  }

  predicate Violated(u: Node, uv: int, av: int)
    requires IsApp(u)
  {
    var bv := u.args[1].i;
    !(0 <= uv < bv) || (0 <= av < bv && uv != av)
  }

  lemma BinaryValue(op: Op, x: Node, y: Node, m: Model)
    ensures Eval(App(op, [x, y]), m) == Apply(op, [Eval(x, m), Eval(y, m)], m)
  {
    assert EvalAll([x, y], m) == [Eval(x, m), Eval(y, m)];
  }

  /** The values read back from a model violate an application exactly when the model falsifies one of
      its axiom instances. */
  lemma ViolatedIffAxiomFails(u: Node, m: Model)
    requires IsApp(u)
    ensures Violated(u, AsInt(Eval(u, m)), AsInt(Eval(u.args[0], m))) <==> !Sat(ModAxioms(u), m)
  {
    hide Eval, Apply;
    var a, b := u.args[0], u.args[1];
    var range, wrap := ModAxioms(u)[0], ModAxioms(u)[1];
    BetweenMeans(u, b, m);
    BetweenMeans(a, b, m);
    ImpliedEqual(Between(a, b), u, a, m);
    ConstantValue(b.i, m);
    assert ModAxioms(u) == [range, wrap];
    PairSat(range, wrap, m);
  }

  lemma BetweenMeans(x: Node, b: Node, m: Model)
    ensures AsBool(Eval(Between(x, b), m)) <==> 0 <= AsInt(Eval(x, m)) < AsInt(Eval(b, m))
  {
    var low, high := App(LeOp, [IntConst(0), x]), App(LtOp, [x, b]);
    BinaryValue(LeOp, IntConst(0), x, m);
    BinaryValue(LtOp, x, b, m);
    BinaryValue(AndOp, low, high, m);
    BothHold(Eval(low, m), Eval(high, m), m);
  }

  lemma ImpliedEqual(guard: Node, x: Node, y: Node, m: Model)
    ensures AsBool(Eval(App(ImpliesOp, [guard, App(EqualsOp, [x, y])]), m)) <==>
      (AsBool(Eval(guard, m)) ==> AsInt(Eval(x, m)) == AsInt(Eval(y, m)))
  {
    BinaryValue(EqualsOp, x, y, m);
    BinaryValue(ImpliesOp, guard, App(EqualsOp, [x, y]), m);
  }

  lemma ConstantValue(i: int, m: Model)
    ensures AsInt(Eval(IntConst(i), m)) == i
  {
  }

  lemma PairSat(f: Node, g: Node, m: Model)
    ensures Sat([f, g], m) <==> Holds(f, m) && Holds(g, m)
  {
    assert f in [f, g] && g in [f, g];
  }

  lemma BothHold(x: Value, y: Value, m: Model)
    ensures AsBool(Apply(AndOp, [x, y], m)) <==> AsBool(x) && AsBool(y)
  {
    var vs := [x, y];
    assert vs[0] == x && vs[1] == y;
  }

  /** Both instances are true of the real `mod`. */
  lemma AxiomsTrueOfMod(u: Node, m: Model)
    requires IsApp(u)
    ensures Sat(ModAxioms(u), WithMod(m))
  {
    var v := WithMod(m);
    var a, b := u.args[0], u.args[1];
    assert u == App(Call(UMOD), [a, b]);
    BinaryValue(Call(UMOD), a, b, v);
    var av, bv := AsInt(Eval(a, v)), b.i;
    assert b == IntConst(bv);
    assert Eval(u, v) == ModOf(m, [Eval(a, v), IntV(bv)]);
    SmallRemainder(av, bv);
    ViolatedIffAxiomFails(u, v);
  }

  lemma SmallRemainder(a: int, b: int)
    requires b > 0
    ensures 0 <= a % b < b
    ensures 0 <= a < b ==> a % b == a
  {
  }

  ghost predicate Instances(axioms: seq<Node>, apps: set<Node>) {
    forall x :: x in axioms ==> exists u :: u in apps && IsApp(u) && x in ModAxioms(u)
  }

  function AbstractAll(fs: seq<Node>): seq<Node> {
    seq(|fs|, i requires 0 <= i < |fs| => Abstract(fs[i]))
  }

  /** Every model of the formulas extends to a model of their abstraction together with any axiom
      instances. */
  lemma AbstractionRefines(fs: seq<Node>, axioms: seq<Node>, apps: set<Node>, m: Model)
    requires forall f :: f in fs ==> NoUmod(f)
    requires Instances(axioms, apps) && Sat(fs, m)
    ensures Sat(axioms + AbstractAll(fs), WithMod(m))
  {
    forall f | f in axioms + AbstractAll(fs) ensures Holds(f, WithMod(m)) {
      if f in axioms {
        var u :| u in apps && IsApp(u) && f in ModAxioms(u);
        AxiomsTrueOfMod(u, m);
      } else {
        var i :| 0 <= i < |fs| && AbstractAll(fs)[i] == f;
        assert fs[i] in fs;
        AbstractMeans(fs[i], m);
      }
    }
  }

  // ---- The refinement loop ----

  method RewriteAll(fs: seq<Node>) returns (rewritten: seq<Node>)
    ensures rewritten == AbstractAll(fs)
  {
    rewritten := [];
    var memo: map<Node, Node> := map[];
    for i := 0 to |fs|
      invariant MemoCorrect(memo) && rewritten == AbstractAll(fs[..i])
    {
      var r: Node;
      r, memo := Rewrite(fs[i], memo);
      rewritten := rewritten + [r];
      assert rewritten == AbstractAll(fs[..i + 1]);
    }
    assert fs[..|fs|] == fs;
  }

  function AllSubnodes(fs: seq<Node>): set<Node> {
    set i, s | 0 <= i < |fs| && s in Subnodes(fs[i]) :: s
  }

  /** The applications of the abstraction. */
  ghost function AppsOf(rewritten: seq<Node>): set<Node> {
    set u | u in AllSubnodes(rewritten) && IsApp(u)
  }

  /** The applications to axiomatize, in some order. */
  method CollectApps(rewritten: seq<Node>) returns (apps: seq<Node>)
    ensures forall u :: u in apps <==> u in AllSubnodes(rewritten) && IsApp(u)
    ensures |apps| == |AppsOf(rewritten)|
  {
    apps := [];
    ghost var done: set<Node> := {};
    var todo := AllSubnodes(rewritten);
    while todo != {}
      invariant todo <= AllSubnodes(rewritten)
      invariant forall u :: u in apps <==> u in AllSubnodes(rewritten) - todo && IsApp(u)
      invariant |apps| == |done| && forall u :: u in done <==> u in apps
      decreases |todo|
    {
      var u :| u in todo;
      if IsApp(u) {
        apps, done := apps + [u], done + {u};
      }
      todo := todo - {u};
    }
    assert done == AppsOf(rewritten);
  }

  /** Applications whose axioms the model falsifies. */
  method ViolatedApps(apps: seq<Node>, m: Model) returns (violated: seq<Node>)
    requires forall u :: u in apps ==> IsApp(u)
    ensures forall u :: u in violated <==> u in apps && !Sat(ModAxioms(u), m)
  {
    violated := [];
    for i := 0 to |apps|
      invariant forall u :: u in violated <==> u in apps[..i] && !Sat(ModAxioms(u), m)
    {
      var u := apps[i];
      assert u in apps && apps[..i + 1] == apps[..i] + [u];
      ViolatedIffAxiomFails(u, m);
      if Violated(u, AsInt(Eval(u, m)), AsInt(Eval(u.args[0], m))) {
        violated := violated + [u];
      }
    }
    assert apps[..|apps|] == apps;
  }

  /** Adds the instances of the applications not yet axiomatized. */
  method Axiomatize(us: seq<Node>, axiomatized0: set<Node>, axioms0: seq<Node>) returns (axiomatized: set<Node>, axioms: seq<Node>)
    requires (forall u :: u in us ==> IsApp(u)) && Instances(axioms0, axiomatized0)
    requires forall u :: u in axiomatized0 ==> IsApp(u) && forall x :: x in ModAxioms(u) ==> x in axioms0
    ensures Instances(axioms, axiomatized) && axiomatized == axiomatized0 + (set u | u in us)
    ensures forall u :: u in axiomatized ==> IsApp(u) && forall x :: x in ModAxioms(u) ==> x in axioms
  {
    axiomatized, axioms := axiomatized0, axioms0;
    for i := 0 to |us|
      invariant Instances(axioms, axiomatized) && axiomatized == axiomatized0 + (set u | u in us[..i])
      invariant forall u :: u in axiomatized ==> IsApp(u) && forall x :: x in ModAxioms(u) ==> x in axioms
    {
      var u := us[i];
      assert u in us && us[..i + 1] == us[..i] + [u];
      if u !in axiomatized {
        axioms := axioms + ModAxioms(u);
      }
      axiomatized := axiomatized + {u};
    }
    assert us[..|us|] == us;
  }

  function NotYet(us: seq<Node>, known: set<Node>): (more: seq<Node>)
    ensures forall u :: u in more <==> u in us && u !in known
  {
    if us == [] then []
    else (if us[0] in known then [] else [us[0]]) + NotYet(us[1..], known)
  }

  const EAGER_LIMIT: nat := 8000

  /** A model of the abstraction, in which all axioms hold where the applications are few enough to add them at once. */
  ghost predicate OpenUnder(fs: seq<Node>, m: Model) {
    && Sat(AbstractAll(fs), m)
    && (|AppsOf(AbstractAll(fs))| <= 4000 ==> forall u :: u in AppsOf(AbstractAll(fs)) ==> Sat(ModAxioms(u), m))
  }

  lemma ModelOpens(fs: seq<Node>, apps: seq<Node>, axioms: seq<Node>, axiomatized: set<Node>, m: Model)
    requires forall u :: u in apps <==> u in AppsOf(AbstractAll(fs))
    requires |apps| == |AppsOf(AbstractAll(fs))| && (2 * |apps| <= EAGER_LIMIT ==> forall u :: u in apps ==> u in axiomatized)
    requires forall u :: u in axiomatized ==> IsApp(u) && forall x :: x in ModAxioms(u) ==> x in axioms
    requires Sat(axioms + AbstractAll(fs), m)
    ensures OpenUnder(fs, m)
  {
    forall f | f in axioms || f in AbstractAll(fs) ensures Holds(f, m) {
      assert f in axioms + AbstractAll(fs);
    }
  }

  /** Refutes `fs` through the abstraction: solve, add the axiom instances the model falsifies, repeat. */
  method ClosedAbstract(oracle: (nat, seq<Node>) -> Answer, calls: nat, fs: seq<Node>, iterations: nat) returns (refuted: bool)
    requires SoundOracle(oracle) && forall f :: f in fs ==> NoUmod(f)
    ensures refuted ==> forall m :: !Sat(fs, m)
    ensures Silent(oracle) ==> !refuted
    ensures Thorough(oracle) && !refuted ==> exists m :: OpenUnder(fs, m)
  {
    hide AbstractAll, AllSubnodes, ModAxioms, OpenUnder;
    var rewritten := RewriteAll(fs);
    var apps := CollectApps(rewritten);
    var axiomatized: set<Node>, axioms: seq<Node> := {}, [];
    if 2 * |apps| <= EAGER_LIMIT {
      axiomatized, axioms := Axiomatize(apps, axiomatized, axioms);
    }
    for round := 0 to iterations + 1
      invariant Instances(axioms, axiomatized)
      invariant forall u :: u in axiomatized ==> IsApp(u) && forall x :: x in ModAxioms(u) ==> x in axioms
      invariant 2 * |apps| <= EAGER_LIMIT ==> forall u :: u in apps ==> u in axiomatized
      invariant Thorough(oracle) && round > 0 ==> exists m :: OpenUnder(fs, m)
    {
      var a := oracle(calls + round, axioms + rewritten);
      assert SoundAnswer(a, axioms + rewritten);
      if a.UnsatAnswer? {
        RefutationTransfers(fs, axioms, axiomatized);
        return true;
      }
      if Thorough(oracle) {
        ghost var m :| Sat(axioms + rewritten, m);
        ModelOpens(fs, apps, axioms, axiomatized, m);
      }
      if !a.SatAnswer? || apps == [] || !a.readable {
        return false;
      }
      var violated := ViolatedApps(apps, a.model);
      var more := NotYet(violated, axiomatized);
      if more == [] {
        return false;
      }
      axiomatized, axioms := Axiomatize(more, axiomatized, axioms);
    }
    return false;
  }

  /** A refuted abstraction refutes the formulas, in whichever round it happens. */
  lemma RefutationTransfers(fs: seq<Node>, axioms: seq<Node>, apps: set<Node>)
    requires forall f :: f in fs ==> NoUmod(f)
    requires Instances(axioms, apps) && forall m :: !Sat(axioms + AbstractAll(fs), m)
    ensures forall m :: !Sat(fs, m)
  {
    forall m ensures !Sat(fs, m) {
      if Sat(fs, m) {
        AbstractionRefines(fs, axioms, apps, m);
      }
    }
  }
}
