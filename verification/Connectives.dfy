/** Boolean connectives over terms, and the exactly-one constraint with its shortcuts. */
module Connectives {
  import opened Smt

  const TRUE := BoolConst(true)
  const FALSE := BoolConst(false)

  function And(fs: seq<Node>): Node { App(AndOp, fs) }
  function Or(fs: seq<Node>): Node { App(OrOp, fs) }
  function Implies(f: Node, g: Node): Node { App(ImpliesOp, [f, g]) }
  function Iff(f: Node, g: Node): Node { App(IffOp, [f, g]) }
  function Equals(a: Node, b: Node): Node { App(EqualsOp, [a, b]) }

  // ---- What the connectives mean ----

  lemma OrMeans(fs: seq<Node>, m: Model)
    ensures Holds(Or(fs), m) <==> exists i :: 0 <= i < |fs| && Holds(fs[i], m)
  {
    var vs := EvalAll(fs, m);
    assert Eval(Or(fs), m) == Apply(OrOp, vs, m);
    assert forall i :: 0 <= i < |fs| ==> (AsBool(vs[i]) <==> Holds(fs[i], m));
    if i :| 0 <= i < |fs| && Holds(fs[i], m) {
      assert AsBool(vs[i]);
    }
  }

  lemma AndMeans(fs: seq<Node>, m: Model)
    ensures Holds(And(fs), m) <==> forall i :: 0 <= i < |fs| ==> Holds(fs[i], m)
  {
    var vs := EvalAll(fs, m);
    assert Eval(And(fs), m) == Apply(AndOp, vs, m);
    assert forall i :: 0 <= i < |fs| ==> (AsBool(vs[i]) <==> Holds(fs[i], m));
    if Holds(And(fs), m) {
      forall i | 0 <= i < |fs| ensures Holds(fs[i], m) {
        assert AsBool(vs[i]);
      }
    }
  }

  lemma PairMeans(op: Op, f: Node, g: Node, m: Model)
    ensures Eval(App(op, [f, g]), m) == Apply(op, [Eval(f, m), Eval(g, m)], m)
  {
    assert EvalAll([f, g], m) == [Eval(f, m), Eval(g, m)];
  }

  lemma ImpliesMeans(f: Node, g: Node, m: Model)
    ensures Holds(Implies(f, g), m) <==> (Holds(f, m) ==> Holds(g, m))
  {
    PairMeans(ImpliesOp, f, g, m);
  }

  lemma IffMeans(f: Node, g: Node, m: Model)
    ensures Holds(Iff(f, g), m) <==> (Holds(f, m) <==> Holds(g, m))
  {
    PairMeans(IffOp, f, g, m);
  }

  function IntOf(n: Node, m: Model): int {
    AsInt(Eval(n, m))
  }

  lemma EqualsMeans(a: Node, b: Node, m: Model)
    ensures Holds(Equals(a, b), m) <==> IntOf(a, m) == IntOf(b, m)
  {
    PairMeans(EqualsOp, a, b, m);
  }

  lemma EqualsIntMeans(a: Node, k: int, m: Model)
    ensures Holds(Equals(a, IntConst(k)), m) <==> IntOf(a, m) == k
  {
    EqualsMeans(a, IntConst(k), m);
  }

  lemma And2Means(f: Node, g: Node, m: Model)
    ensures Holds(And([f, g]), m) <==> Holds(f, m) && Holds(g, m)
  {
    AndMeans([f, g], m);
    assert forall i :: 0 <= i < 2 ==> [f, g][i] == if i == 0 then f else g;
    assert [f, g][0] == f && [f, g][1] == g;
  }

  lemma Or3Means(f: Node, g: Node, h: Node, m: Model)
    ensures Holds(Or([f, g, h]), m) <==> Holds(f, m) || Holds(g, m) || Holds(h, m)
  {
    OrMeans([f, g, h], m);
    assert [f, g, h][0] == f && [f, g, h][1] == g && [f, g, h][2] == h;
  }

  // ---- Exactly one ----

  function CountTrue(fs: seq<Node>, m: Model): nat {
    if fs == [] then 0 else CountTrue(fs[..|fs| - 1], m) + (if Holds(fs[|fs| - 1], m) then 1 else 0)
  }

  lemma {:induction false} CountConcat(a: seq<Node>, b: seq<Node>, m: Model)
    ensures CountTrue(a + b, m) == CountTrue(a, m) + CountTrue(b, m)
  {
    if b == [] {
      assert a + b == a;
    } else {
      assert (a + b)[..|a + b| - 1] == a + b[..|b| - 1];
      CountConcat(a, b[..|b| - 1], m);
    }
  }

  lemma {:induction false} CountZero(fs: seq<Node>, m: Model)
    ensures CountTrue(fs, m) == 0 <==> forall i :: 0 <= i < |fs| ==> !Holds(fs[i], m)
  {
    if fs != [] {
      CountZero(fs[..|fs| - 1], m);
    }
  }

  /** Exactly one means: some literal holds, and no two do. */
  lemma {:induction false} CountOne(fs: seq<Node>, m: Model)
    ensures CountTrue(fs, m) <= 1 <==> forall i, j :: 0 <= i < j < |fs| ==> !(Holds(fs[i], m) && Holds(fs[j], m))
    ensures CountTrue(fs, m) >= 1 <==> exists i :: 0 <= i < |fs| && Holds(fs[i], m)
  {
    CountZero(fs, m);
    if fs != [] {
      var n := |fs| - 1;
      CountOne(fs[..n], m);
      CountZero(fs[..n], m);
      if Holds(fs[n], m) && CountTrue(fs[..n], m) >= 1 {
        var i :| 0 <= i < n && Holds(fs[i], m);
      }
    }
  }

  function NotBoth(f: Node, g: Node): Node {
    Not(And([f, g]))
  }

  lemma NotBothMeans(f: Node, g: Node, m: Model)
    ensures Holds(NotBoth(f, g), m) <==> !(Holds(f, m) && Holds(g, m))
  {
    NotHolds(And([f, g]), m);
    And2Means(f, g, m);
  }

  /** `f` excludes each of `gs`. */
  function Excludes(f: Node, gs: seq<Node>): seq<Node> {
    seq(|gs|, i requires 0 <= i < |gs| => NotBoth(gs[i], f))
  }

  function AtMostOne(fs: seq<Node>): seq<Node> {
    if fs == [] then [] else AtMostOne(fs[..|fs| - 1]) + Excludes(fs[|fs| - 1], fs[..|fs| - 1])
  }

  lemma ExcludesMeans(f: Node, gs: seq<Node>, m: Model)
    ensures Sat(Excludes(f, gs), m) <==> (Holds(f, m) ==> CountTrue(gs, m) == 0)
  {
    CountZero(gs, m);
    var es := Excludes(f, gs);
    forall i | 0 <= i < |gs| ensures Holds(es[i], m) <==> !(Holds(gs[i], m) && Holds(f, m)) {
      NotBothMeans(gs[i], f, m);
    }
    if Sat(es, m) && Holds(f, m) {
      forall i | 0 <= i < |gs| ensures !Holds(gs[i], m) {
        assert es[i] in es;
      }
    }
    if Holds(f, m) ==> CountTrue(gs, m) == 0 {
      forall e | e in es ensures Holds(e, m) {
        var i :| 0 <= i < |es| && es[i] == e;
      }
    }
  }

  lemma {:induction false} AtMostOneMeans(fs: seq<Node>, m: Model)
    ensures Sat(AtMostOne(fs), m) <==> CountTrue(fs, m) <= 1
  {
    if fs != [] {
      var n := |fs| - 1;
      AtMostOneMeans(fs[..n], m);
      ExcludesMeans(fs[n], fs[..n], m);
      SatConcat(AtMostOne(fs[..n]), Excludes(fs[n], fs[..n]), m);
    }
  }

  /** Exactly one, as a disjunction and pairwise exclusion. */
  function ExactlyOne(fs: seq<Node>): Node {
    And([Or(fs)] + AtMostOne(fs))
  }

  lemma ExactlyOneMeans(fs: seq<Node>, m: Model)
    ensures Holds(ExactlyOne(fs), m) <==> CountTrue(fs, m) == 1
  {
    var all := [Or(fs)] + AtMostOne(fs);
    AndMeansSat(all, m);
    SatConcat([Or(fs)], AtMostOne(fs), m);
    assert Sat([Or(fs)], m) <==> Holds(Or(fs), m) by {
      assert Or(fs) in [Or(fs)];
    }
    AtMostOneMeans(fs, m);
    OrMeans(fs, m);
    CountOne(fs, m);
  }

  lemma AndMeansSat(fs: seq<Node>, m: Model)
    ensures Holds(And(fs), m) <==> Sat(fs, m)
  {
    AndMeans(fs, m);
    if Holds(And(fs), m) {
      forall f | f in fs ensures Holds(f, m) {
        var i :| 0 <= i < |fs| && fs[i] == f;
      }
    }
    if Sat(fs, m) {
      forall i | 0 <= i < |fs| ensures Holds(fs[i], m) {
        assert fs[i] in fs;
      }
    }
  }

  function Live(fs: seq<Node>): seq<Node> {
    if fs == [] then [] else Live(fs[..|fs| - 1]) + (if fs[|fs| - 1] == FALSE then [] else [fs[|fs| - 1]])
  }

  function FixedTrue(fs: seq<Node>): nat {
    if fs == [] then 0 else FixedTrue(fs[..|fs| - 1]) + (if fs[|fs| - 1] == TRUE then 1 else 0)
  }

  function NegatedOthers(fs: seq<Node>): seq<Node> {
    if fs == [] then [] else NegatedOthers(fs[..|fs| - 1]) + (if fs[|fs| - 1] == TRUE then [] else [Not(fs[|fs| - 1])])
  }

  /** Exactly one over literals, with the shortcuts for literals already fixed. */
  function ExactlyOneMatch(literals: seq<Node>): Node {
    ExactlyOneOfLive(Live(literals))
  }

  function ExactlyOneOfLive(live: seq<Node>): Node {
    if live == [] then FALSE
    else if |live| == 1 then live[0]
    else if FixedTrue(live) > 1 then FALSE
    else if FixedTrue(live) == 1 then Chosen(NegatedOthers(live))
    else ExactlyOne(live)
  }

  function Chosen(others: seq<Node>): Node {
    if others == [] then TRUE else And([TRUE] + others)
  }

  lemma {:induction false} LiveCounts(fs: seq<Node>, m: Model)
    ensures CountTrue(Live(fs), m) == CountTrue(fs, m)
  {
    if fs != [] {
      var n := |fs| - 1;
      LiveCounts(fs[..n], m);
      CountConcat(Live(fs[..n]), if fs[n] == FALSE then [] else [fs[n]], m);
      assert fs[n] != FALSE ==> CountTrue([fs[n]], m) == if Holds(fs[n], m) then 1 else 0 by {
        assert [fs[n]][..0] == [];
      }
    }
  }

  lemma {:induction false} FixedCount(fs: seq<Node>, m: Model)
    ensures CountTrue(fs, m) >= FixedTrue(fs)
    ensures Sat(NegatedOthers(fs), m) <==> CountTrue(fs, m) == FixedTrue(fs)
  {
    if fs != [] {
      var n := |fs| - 1;
      FixedCount(fs[..n], m);
      SatConcat(NegatedOthers(fs[..n]), if fs[n] == TRUE then [] else [Not(fs[n])], m);
      NotHolds(fs[n], m);
      assert Not(fs[n]) in [Not(fs[n])];
    }
  }

  lemma ChosenMeans(others: seq<Node>, m: Model)
    ensures Holds(Chosen(others), m) <==> Sat(others, m)
  {
    if others != [] {
      AndMeansSat([TRUE] + others, m);
      SatConcat([TRUE], others, m);
    }
  }

  lemma SingleCount(f: Node, m: Model)
    ensures CountTrue([f], m) == 1 <==> Holds(f, m)
  {
    assert [f][..0] == [];
  }

  lemma ExactlyOneOfLiveMeans(live: seq<Node>, m: Model)
    ensures Holds(ExactlyOneOfLive(live), m) <==> CountTrue(live, m) == 1
  {
    if |live| == 1 {
      assert live == [live[0]];
      SingleCount(live[0], m);
    } else if live != [] {
      FixedCount(live, m);
      if FixedTrue(live) == 1 {
        ChosenMeans(NegatedOthers(live), m);
      } else if FixedTrue(live) == 0 {
        ExactlyOneMeans(live, m);
      }
    }
  }

  /** The shortcuts are exact: the constraint holds exactly when one of the given literals does. */
  lemma ExactlyOneMatchMeans(literals: seq<Node>, m: Model)
    ensures Holds(ExactlyOneMatch(literals), m) <==> CountTrue(literals, m) == 1
  {
    LiveCounts(literals, m);
    ExactlyOneOfLiveMeans(Live(literals), m);
  }
}
