/** Splitting a script into context conjuncts and the goal disjunction. */
module ScriptSplitting {
  import opened Wrappers
  import opened Smt

  function Size(n: Node): (s: nat)
    ensures s >= 1
  {
    match n
    case App(_, args) => 1 + SizeAll(args)
    case _ => 1
  }

  function SizeAll(ns: seq<Node>): nat {
    if ns == [] then 0 else Size(ns[|ns| - 1]) + SizeAll(ns[..|ns| - 1])
  }

  lemma {:induction false} SizeConcat(a: seq<Node>, b: seq<Node>)
    ensures SizeAll(a + b) == SizeAll(a) + SizeAll(b)
  {
    if b == [] {
      assert a + b == a;
    } else {
      assert (a + b)[..|a + b| - 1] == a + b[..|b| - 1];
      SizeConcat(a, b[..|b| - 1]);
    }
  }

  function Reverse(ns: seq<Node>): (r: seq<Node>)
    ensures SizeAll(r) == SizeAll(ns)
    ensures forall n :: n in r <==> n in ns
  {
    if ns == [] then []
    else
      var k := |ns| - 1;
      SizeConcat([ns[k]], Reverse(ns[..k]));
      assert ns == ns[..k] + [ns[k]];
      [ns[k]] + Reverse(ns[..k])
  }

  predicate IsAnd(f: Node) {
    f.App? && f.op.AndOp?
  }

  predicate IsOr(f: Node) {
    f.App? && f.op.OrOp?
  }

  lemma AndMeansAll(f: Node, m: Model)
    requires IsAnd(f)
    ensures Holds(f, m) <==> Sat(f.args, m)
  {
    var vs := EvalAll(f.args, m);
    assert Eval(f, m) == Apply(AndOp, vs, m);
    forall i | 0 <= i < |vs| ensures AsBool(vs[i]) <==> Holds(f.args[i], m) {
    }
    if Sat(f.args, m) {
      forall i | 0 <= i < |vs| ensures AsBool(vs[i]) {
        assert f.args[i] in f.args;
      }
    }
  }

  ghost predicate SameModels(a: seq<Node>, b: seq<Node>) {
    forall m :: Sat(a, m) <==> Sat(b, m)
  }

  ghost predicate NoRepeats(fs: seq<Node>) {
    forall i, j :: 0 <= i < j < |fs| ==> fs[i] != fs[j]
  }

  lemma SameModelsTrans(a: seq<Node>, b: seq<Node>, c: seq<Node>)
    requires SameModels(a, b) && SameModels(b, c)
    ensures SameModels(a, c)
  {
  }

  /** Distinct conjuncts, none of them a conjunction. */
  ghost predicate Flat(fs: seq<Node>) {
    NoRepeats(fs) && forall f :: f in fs ==> !IsAnd(f)
  }

  /** Takes one formula off the stack. */
  method FlattenStep(conjuncts0: seq<Node>, stack0: seq<Node>) returns (conjuncts: seq<Node>, stack: seq<Node>)
    requires stack0 != [] && Flat(conjuncts0)
    ensures SameModels(conjuncts + stack, conjuncts0 + stack0) && Flat(conjuncts)
    ensures SizeAll(stack) < SizeAll(stack0)
  {
    var rest, f := stack0[..|stack0| - 1], stack0[|stack0| - 1];
    assert stack0 == rest + [f];
    conjuncts := conjuncts0;
    if IsAnd(f) {
      SizeConcat(rest, Reverse(f.args));
      Unfolded(conjuncts, rest, f);
      stack := rest + Reverse(f.args);
    } else {
      Moved(conjuncts, rest, f);
      if f !in conjuncts {
        conjuncts := conjuncts + [f];
      }
      stack := rest;
    }
  }

  /** Flattens one assertion through its conjunctions, keeping the first occurrence of every conjunct. */
  method FlattenOne(a: Node, conjuncts0: seq<Node>) returns (conjuncts: seq<Node>)
    requires Flat(conjuncts0)
    ensures SameModels(conjuncts, conjuncts0 + [a]) && Flat(conjuncts)
  {
    conjuncts := conjuncts0;
    var stack := [a];
    while stack != []
      invariant SameModels(conjuncts + stack, conjuncts0 + [a]) && Flat(conjuncts)
      decreases SizeAll(stack)
    {
      ghost var before := conjuncts + stack;
      conjuncts, stack := FlattenStep(conjuncts, stack);
      SameModelsTrans(conjuncts + stack, before, conjuncts0 + [a]);
    }
    assert conjuncts + [] == conjuncts;
  }

  lemma Unfolded(conjuncts: seq<Node>, rest: seq<Node>, f: Node)
    requires IsAnd(f)
    ensures SameModels(conjuncts + (rest + Reverse(f.args)), conjuncts + (rest + [f]))
  {
    forall m ensures Sat(conjuncts + (rest + Reverse(f.args)), m) <==> Sat(conjuncts + (rest + [f]), m) {
      AndMeansAll(f, m);
      SatConcat(conjuncts, rest + Reverse(f.args), m);
      SatConcat(rest, Reverse(f.args), m);
      SatConcat(conjuncts, rest + [f], m);
      SatMore(rest, f, m);
    }
  }

  lemma Moved(conjuncts: seq<Node>, rest: seq<Node>, f: Node)
    ensures SameModels(conjuncts + [f] + rest, conjuncts + (rest + [f]))
    ensures f in conjuncts ==> SameModels(conjuncts + rest, conjuncts + (rest + [f]))
  {
    forall m
      ensures Sat(conjuncts + [f] + rest, m) <==> Sat(conjuncts + (rest + [f]), m)
      ensures f in conjuncts ==> (Sat(conjuncts + rest, m) <==> Sat(conjuncts + (rest + [f]), m))
    {
      SatConcat(conjuncts + [f], rest, m);
      SatMore(conjuncts, f, m);
      SatConcat(conjuncts, rest, m);
      SatConcat(conjuncts, rest + [f], m);
      SatMore(rest, f, m);
    }
  }

  /** All conjuncts of the script. */
  method Flatten(asserts: seq<Node>) returns (conjuncts: seq<Node>)
    ensures SameModels(conjuncts, asserts) && Flat(conjuncts)
  {
    conjuncts := [];
    for i := 0 to |asserts|
      invariant SameModels(conjuncts, asserts[..i]) && Flat(conjuncts)
    {
      ghost var before := conjuncts;
      conjuncts := FlattenOne(asserts[i], conjuncts);
      assert asserts[..i + 1] == asserts[..i] + [asserts[i]];
      forall m ensures Sat(conjuncts, m) <==> Sat(asserts[..i + 1], m) {
        SatMore(before, asserts[i], m);
        SatMore(asserts[..i], asserts[i], m);
      }
    }
    assert asserts[..|asserts|] == asserts;
  }

  datatype Split = Split(ctx: seq<Node>, goal: Option<Node>)

  function Remove(fs: seq<Node>, g: Node): (r: seq<Node>)
    ensures forall f :: f in r <==> f in fs && f != g
  {
    if fs == [] then []
    else
      assert fs == [fs[0]] + fs[1..];
      (if fs[0] == g then [] else [fs[0]]) + Remove(fs[1..], g)
  }

  /** The largest disjunction becomes the goal, everything else the context; without a disjunction of at
      least two formulas there is no goal. */
  method SplitScript(asserts: seq<Node>) returns (r: Split)
    ensures r.goal.None? ==> SameModels(r.ctx, asserts) && forall f :: f in r.ctx && IsOr(f) ==> |f.args| < 2
    ensures r.goal.Some? ==> IsOr(r.goal.value) && |r.goal.value.args| >= 2 && r.goal.value !in r.ctx
    ensures r.goal.Some? ==> SameModels(r.ctx + [r.goal.value], asserts)
    ensures r.goal.Some? ==> forall f :: f in r.ctx && IsOr(f) ==> |f.args| <= |r.goal.value.args|
  {
    var conjuncts := Flatten(asserts);
    var goal: Option<Node>, size := None, 0;
    for i := 0 to |conjuncts|
      invariant goal.Some? ==> goal.value in conjuncts && IsOr(goal.value) && |goal.value.args| == size
      invariant goal.None? ==> size == 0
      invariant forall j :: 0 <= j < i && IsOr(conjuncts[j]) ==> |conjuncts[j].args| <= size
    {
      if IsOr(conjuncts[i]) && |conjuncts[i].args| > size {
        goal, size := Some(conjuncts[i]), |conjuncts[i].args|;
      }
    }
    if goal.None? || size < 2 {
      return Split(conjuncts, None);
    }
    r := Split(Remove(conjuncts, goal.value), goal);
    forall m ensures Sat(r.ctx + [goal.value], m) <==> Sat(conjuncts, m) {
      SatMore(r.ctx, goal.value, m);
    }
  }
}
