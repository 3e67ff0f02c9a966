/** Solving one disjunct under a slice: incremental solver, model validation against the omitted
    constraints, and the refinement loop on slice models. */
module SlicedSolving {
  import opened Wrappers
  import opened Smt
  import opened ModAbstraction
  import opened ConeOfInfluence

  class Solver {
    const oracle: (nat, seq<Node>) -> Answer
    var calls: nat
    var assertions: seq<Node>
    var marks: seq<nat>

    ghost predicate Valid()
      reads this
    {
      && SoundOracle(oracle)
      && (forall i :: 0 <= i < |marks| ==> marks[i] <= |assertions|)
    }

    constructor (oracle: (nat, seq<Node>) -> Answer, calls: nat)
      requires SoundOracle(oracle)
      ensures Valid() && assertions == [] && marks == [] && this.oracle == oracle
    {
      this.oracle := oracle;
      this.calls, assertions, marks := calls, [], [];
    }

    method Add(f: Node)
      requires Valid()
      modifies this
      ensures Valid() && assertions == old(assertions) + [f] && marks == old(marks)
    {
      assertions := assertions + [f];
    }

    method Push()
      requires Valid()
      modifies this
      ensures Valid() && assertions == old(assertions) && marks == old(marks) + [|assertions|]
    {
      marks := marks + [|assertions|];
    }

    method Pop()
      requires Valid() && |marks| == 1
      modifies this
      ensures Valid() && marks == [] && assertions == old(assertions)[..old(marks)[0]]
    {
      assertions := assertions[..marks[0]];
      marks := [];
    }

    method Solve() returns (a: Answer)
      requires Valid()
      modifies this
      ensures Valid() && assertions == old(assertions) && marks == old(marks)
      ensures SoundAnswer(a, assertions)
      ensures (Decisive(oracle) ==> !a.UnknownAnswer?) && (Silent(oracle) ==> a.UnknownAnswer?)
      ensures exists n :: a == oracle(n, assertions)
    {
      a := oracle(calls, assertions);
      calls := calls + 1;
    }
  }

  datatype Budgets = Budgets(cegarIters: nat, cegarBatch: nat, smallSlice: nat, gcFactor: real, retryTactic: bool)

  /** The fixed data of a check: context, simplifier, model extraction and one-shot solver. */
  datatype Setup = Setup(
    ctx: seq<Node>, freeVars: seq<set<string>>, simplify: Node -> Node,
    extract: (nat, Model) -> map<string, Value>, oneShot: (nat, seq<Node>) -> Answer, budgets: Budgets)

  ghost predicate SoundSimplifier(simplify: Node -> Node) {
    forall n, m :: Eval(simplify(n), m) == Eval(n, m)
  }

  /** Extraction may miss symbols but never reports a value the model does not have. */
  ghost predicate SoundExtraction(extract: (nat, Model) -> map<string, Value>) {
    forall n, m :: Extracts(extract(n, m), m)
  }

  ghost predicate GoodSetup(e: Setup) {
    && e.freeVars == FreeVarsOf(e.ctx)
    && SoundSimplifier(e.simplify)
    && SoundExtraction(e.extract)
    && SoundOracle(e.oneShot)
    && (forall c :: c in e.ctx ==> NoUmod(c))
  }

  /** No model of the context satisfies `d`. */
  ghost predicate Refutes(ctx: seq<Node>, d: Node) {
    forall m :: Sat(ctx, m) ==> !Holds(d, m)
  }

  /** Every formula of `fs` holds in every model of the context with `d`. */
  ghost predicate Implied(ctx: seq<Node>, d: Node, fs: seq<Node>) {
    forall f :: f in fs ==> ImpliedOne(ctx, d, f)
  }

  ghost predicate ImpliedOne(ctx: seq<Node>, d: Node, f: Node) {
    forall m :: Sat(ctx, m) && Holds(d, m) ==> Holds(f, m)
  }

  lemma UnsatRefutes(ctx: seq<Node>, d: Node, fs: seq<Node>)
    requires Implied(ctx, d, fs) && forall m :: !Sat(fs, m)
    ensures Refutes(ctx, d)
  {
    forall m | Sat(ctx, m) ensures !Holds(d, m) {
      ImpliedHold(ctx, d, fs, m);
    }
  }

  lemma ImpliedHold(ctx: seq<Node>, d: Node, fs: seq<Node>, m: Model)
    requires Implied(ctx, d, fs)
    ensures Sat(ctx, m) && Holds(d, m) ==> Sat(fs, m)
  {
    if Sat(ctx, m) && Holds(d, m) {
      forall f | f in fs ensures Holds(f, m) {
        assert ImpliedOne(ctx, d, f);
      }
    }
  }

  lemma MemberImplied(ctx: seq<Node>, d: Node, i: int)
    requires 0 <= i < |ctx|
    ensures ImpliedOne(ctx, d, ctx[i])
  {
    assert ctx[i] in ctx;
  }

  datatype Strategy = Closed | ClosedInt | Tactic

  datatype Outcome =
    | Refuted(via: Option<Strategy>, viaCegar: bool)
    | SatCandidate
    | SatValidated(model: Model)
    | UnknownOutcome

  ghost predicate SoundOutcome(ctx: seq<Node>, d: Node, o: Outcome) {
    && (o.Refuted? ==> Refutes(ctx, d))
    && (o.SatValidated? ==> Sat(ctx, o.model) && Holds(d, o.model))
  }

  /** The constraints at `idx` are among the assertions. */
  ghost predicate Asserted(ctx: seq<Node>, idx: set<int>, fs: seq<Node>) {
    forall i :: i in idx ==> 0 <= i < |ctx| && ctx[i] in fs
  }

  // ---- Validating a slice model ----

  /** What the partial evaluation of the omitted constraints below `n` has established. */
  ghost predicate Classified(ctx: seq<Node>, considered: set<int>, subs: map<string, Value>, n: int, falsified: seq<int>, undetermined: nat) {
    && (forall i :: i in falsified ==> 0 <= i < |ctx| && i !in considered && forall m :: Extracts(subs, m) ==> !Holds(ctx[i], m))
    && (falsified == [] && undetermined == 0 ==>
          forall i, m :: 0 <= i < n && i < |ctx| && i !in considered && Extracts(subs, m) ==> Holds(ctx[i], m))
  }

  /** The constraint is omitted, the values touch it, and with them it simplifies to `b`. */
  ghost predicate Shows(e: Setup, subs: map<string, Value>, considered: set<int>, i: int, b: bool)
    requires |e.freeVars| == |e.ctx|
  {
    && 0 <= i < |e.ctx| && i !in considered && e.freeVars[i] * subs.Keys != {}
    && e.simplify(Substitute(e.ctx[i], subs)) == BoolConst(b)
  }

  /** Every omitted constraint simplifies to true. */
  ghost predicate AllTrue(e: Setup, subs: map<string, Value>, considered: set<int>)
    requires |e.freeVars| == |e.ctx|
  {
    forall i :: 0 <= i < |e.ctx| && i !in considered ==> Shows(e, subs, considered, i, true)
  }

  /** Below `n`: the falsified ones in order, all of them or as many as the batch takes, and without one a count that is
      zero exactly when all are true. */
  ghost predicate ClassifiedExactly(e: Setup, subs: map<string, Value>, considered: set<int>, n: int, falsified: seq<int>, undetermined: nat)
    requires |e.freeVars| == |e.ctx|
  {
    && (forall i :: i in falsified ==> i < n && Shows(e, subs, considered, i, false))
    && (forall i, j :: 0 <= i < j < |falsified| ==> falsified[i] < falsified[j])
    && (forall i :: i < n && Shows(e, subs, considered, i, false) ==>
          i in falsified || (falsified != [] && |falsified| >= e.budgets.cegarBatch && falsified[|falsified| - 1] < i))
    && (falsified == [] ==> (undetermined == 0 <==> forall i :: 0 <= i < n && i !in considered ==> Shows(e, subs, considered, i, true)))
  }

  lemma NoneClassified(e: Setup, subs: map<string, Value>, considered: set<int>)
    requires |e.freeVars| == |e.ctx|
    ensures ClassifiedExactly(e, subs, considered, 0, [], 0)
  {
  }

  lemma OneFalse(e: Setup, subs: map<string, Value>, considered: set<int>, i: int, falsified: seq<int>, undetermined: nat)
    requires |e.freeVars| == |e.ctx| && ClassifiedExactly(e, subs, considered, i, falsified, undetermined)
    requires Shows(e, subs, considered, i, false) && (falsified == [] || |falsified| < e.budgets.cegarBatch)
    ensures ClassifiedExactly(e, subs, considered, i + 1, falsified + [i], undetermined)
    ensures |falsified| + 1 >= e.budgets.cegarBatch ==> ClassifiedExactly(e, subs, considered, |e.ctx|, falsified + [i], undetermined)
  {
    hide Shows;
    var more := falsified + [i];
    assert forall k :: k in more <==> k in falsified || k == i;
    assert forall k :: 0 <= k < |falsified| ==> more[k] in falsified;
    ShowsInRange(e, subs, considered, i, false);
  }

  lemma ShowsInRange(e: Setup, subs: map<string, Value>, considered: set<int>, i: int, b: bool)
    requires |e.freeVars| == |e.ctx| && Shows(e, subs, considered, i, b)
    ensures 0 <= i < |e.ctx| && i !in considered && !Shows(e, subs, considered, i, !b)
  {
  }

  lemma OneMore(e: Setup, subs: map<string, Value>, considered: set<int>, i: int, falsified: seq<int>, undetermined: nat, more: nat)
    requires |e.freeVars| == |e.ctx| && 0 <= i < |e.ctx| && ClassifiedExactly(e, subs, considered, i, falsified, undetermined)
    requires !Shows(e, subs, considered, i, false)
    requires more == if i in considered || Shows(e, subs, considered, i, true) then undetermined else undetermined + 1
    ensures ClassifiedExactly(e, subs, considered, i + 1, falsified, more)
  {
    hide Shows;
    if falsified == [] && undetermined == 0 && more == 0 {
      forall k | 0 <= k < i + 1 && k !in considered ensures Shows(e, subs, considered, k, true) {
        assert k < i || k == i;
      }
    }
  }

  method ClassifyOmitted(e: Setup, subs: map<string, Value>, considered: set<int>) returns (falsified: seq<int>, undetermined: nat)
    requires GoodSetup(e)
    ensures Classified(e.ctx, considered, subs, |e.ctx|, falsified, undetermined)
    ensures ClassifiedExactly(e, subs, considered, |e.ctx|, falsified, undetermined)
    ensures AllTrue(e, subs, considered) <==> falsified == [] && undetermined == 0
  {
    falsified, undetermined := [], 0;
    NoneClassified(e, subs, considered);
    for i := 0 to |e.ctx|
      invariant Classified(e.ctx, considered, subs, i, falsified, undetermined)
      invariant ClassifiedExactly(e, subs, considered, i, falsified, undetermined)
      invariant falsified == [] || |falsified| < e.budgets.cegarBatch
    {
      hide ClassifiedExactly;
      ghost var before, count := falsified, undetermined;
      if i !in considered {
        if e.freeVars[i] !! subs.Keys {
          undetermined := undetermined + 1;
        } else {
          var val := e.simplify(Substitute(e.ctx[i], subs));
          ValueTells(e, subs, i, val);
          if val == BoolConst(false) {
            falsified := falsified + [i];
            OneFalse(e, subs, considered, i, before, undetermined);
            if |falsified| >= e.budgets.cegarBatch {
              SomeFalse(e, subs, considered, falsified, undetermined);
              return;
            }
          } else if val != BoolConst(true) {
            undetermined := undetermined + 1;
          }
        }
      }
      if falsified == before {
        OneMore(e, subs, considered, i, before, count, undetermined);
      }
    }
    SomeFalse(e, subs, considered, falsified, undetermined);
  }

  lemma SomeFalse(e: Setup, subs: map<string, Value>, considered: set<int>, falsified: seq<int>, undetermined: nat)
    requires |e.freeVars| == |e.ctx| && ClassifiedExactly(e, subs, considered, |e.ctx|, falsified, undetermined)
    ensures AllTrue(e, subs, considered) <==> falsified == [] && undetermined == 0
  {
    hide Shows;
    if falsified != [] {
      assert falsified[0] in falsified;
      ShowsInRange(e, subs, considered, falsified[0], false);
    }
  }

  lemma ValueTells(e: Setup, subs: map<string, Value>, i: nat, val: Node)
    requires GoodSetup(e) && i < |e.ctx| && val == e.simplify(Substitute(e.ctx[i], subs))
    ensures val == BoolConst(false) ==> forall m :: Extracts(subs, m) ==> !Holds(e.ctx[i], m)
    ensures val == BoolConst(true) ==> forall m :: Extracts(subs, m) ==> Holds(e.ctx[i], m)
  {
    forall m | Extracts(subs, m) ensures Eval(val, m) == Eval(e.ctx[i], m) {
      SubstituteMeans(e.ctx[i], subs, m);
      assert Eval(e.simplify(Substitute(e.ctx[i], subs)), m) == Eval(Substitute(e.ctx[i], subs), m);
    }
  }

  lemma ValidatedModel(ctx: seq<Node>, considered: set<int>, subs: map<string, Value>, fs: seq<Node>, m: Model)
    requires Classified(ctx, considered, subs, |ctx|, [], 0) && Extracts(subs, m)
    requires Asserted(ctx, considered, fs) && Sat(fs, m)
    ensures Sat(ctx, m)
  {
    forall c | c in ctx ensures Holds(c, m) {
      var i :| 0 <= i < |ctx| && ctx[i] == c;
    }
  }

  // ---- The refinement loop ----

  /** State of the push scope while a disjunct is being solved. */
  ghost predicate Scope(ctx: seq<Node>, d: Node, considered: set<int>, fs: seq<Node>) {
    d in fs && Implied(ctx, d, fs) && Asserted(ctx, considered, fs)
  }

  method AddFalsified(s: Solver, e: Setup, ghost d: Node, considered0: set<int>, falsified: seq<int>) returns (considered: set<int>)
    requires s.Valid() && Scope(e.ctx, d, considered0, s.assertions)
    requires forall i :: i in falsified ==> 0 <= i < |e.ctx|
    modifies s
    ensures s.Valid() && s.marks == old(s.marks) && old(s.assertions) <= s.assertions
    ensures Scope(e.ctx, d, considered, s.assertions)
    ensures forall i :: i in falsified ==> e.ctx[i] in s.assertions
  {
    considered := considered0;
    for k := 0 to |falsified|
      invariant s.Valid() && s.marks == old(s.marks) && old(s.assertions) <= s.assertions
      invariant Scope(e.ctx, d, considered, s.assertions)
      invariant forall i :: i in falsified[..k] ==> 0 <= i < |e.ctx| && e.ctx[i] in s.assertions
    {
      var i := falsified[k];
      assert i in falsified && falsified[..k + 1] == falsified[..k] + [i];
      MemberImplied(e.ctx, d, i);
      s.Add(e.ctx[i]);
      considered := considered + {i};
    }
  }

  /** The values falsify some omitted constraint, and with those reported added the solver refutes. */
  ghost predicate RefutesRefined(oracle: (nat, seq<Node>) -> Answer, e: Setup, subs: map<string, Value>, considered: set<int>, base: seq<Node>)
    requires |e.freeVars| == |e.ctx|
  {
    && (exists i :: Shows(e, subs, considered, i, false))
    && forall falsified, undetermined, calls, fs ::
         (ClassifiedExactly(e, subs, considered, |e.ctx|, falsified, undetermined) && base <= fs
          && forall i :: i in falsified && 0 <= i < |e.ctx| ==> e.ctx[i] in fs)
         ==> oracle(calls, fs).UnsatAnswer?
  }

  lemma NotRefined(oracle: (nat, seq<Node>) -> Answer, e: Setup, subs: map<string, Value>, considered: set<int>, base: seq<Node>,
                   falsified: seq<int>, undetermined: nat)
    requires |e.freeVars| == |e.ctx| && ClassifiedExactly(e, subs, considered, |e.ctx|, falsified, undetermined)
    ensures falsified == [] ==> !RefutesRefined(oracle, e, subs, considered, base)
  {
    hide Shows;
    if i :| falsified == [] && Shows(e, subs, considered, i, false) {
      ShowsInRange(e, subs, considered, i, false);
    }
  }

  lemma RefinedAnswer(oracle: (nat, seq<Node>) -> Answer, e: Setup, subs: map<string, Value>, considered: set<int>, base: seq<Node>,
                      falsified: seq<int>, undetermined: nat, fs: seq<Node>, a: Answer)
    requires |e.freeVars| == |e.ctx| && ClassifiedExactly(e, subs, considered, |e.ctx|, falsified, undetermined)
    requires base <= fs && (forall i :: i in falsified && 0 <= i < |e.ctx| ==> e.ctx[i] in fs) && exists n: nat :: a == oracle(n, fs)
    ensures RefutesRefined(oracle, e, subs, considered, base) ==> a.UnsatAnswer?
  {
  }

  /** Validates the slice model against the omitted constraints; asserts the falsified ones and solves
      again. */
  method RunCegar(s: Solver, e: Setup, d: Node, considered0: set<int>, model0: Model) returns (o: Outcome)
    requires s.Valid() && GoodSetup(e) && Scope(e.ctx, d, considered0, s.assertions) && Sat(s.assertions, model0)
    modifies s
    ensures s.Valid() && s.marks == old(s.marks) && old(s.assertions) <= s.assertions
    ensures SoundOutcome(e.ctx, d, o)
    ensures e.budgets.cegarIters > 0 && AllTrue(e, e.extract(0, model0), considered0) ==> o.SatValidated?
    ensures e.budgets.cegarIters > 0 && RefutesRefined(s.oracle, e, e.extract(0, model0), considered0, old(s.assertions)) ==> o.Refuted?
  {
    hide ClassifiedExactly, AllTrue, RefutesRefined;
    var considered, model := considered0, model0;
    for it := 0 to e.budgets.cegarIters
      invariant it > 0 ==> !RefutesRefined(s.oracle, e, e.extract(0, model0), considered0, old(s.assertions))
      invariant it == 0 ==> s.assertions == old(s.assertions)
      invariant it > 0 ==> !AllTrue(e, e.extract(0, model0), considered0)
      invariant it == 0 ==> considered == considered0 && model == model0
      invariant s.Valid() && s.marks == old(s.marks) && old(s.assertions) <= s.assertions
      invariant Scope(e.ctx, d, considered, s.assertions) && Sat(s.assertions, model)
    {
      var subs := e.extract(it, model);
      assert Extracts(subs, model);
      var falsified, undetermined := ClassifyOmitted(e, subs, considered);
      NotRefined(s.oracle, e, subs, considered, s.assertions, falsified, undetermined);
      if falsified != [] {
        ghost var base, before := s.assertions, considered;
        considered := AddFalsified(s, e, d, considered, falsified);
        var a := s.Solve();
        RefinedAnswer(s.oracle, e, subs, before, base, falsified, undetermined, s.assertions, a);
        if a.UnknownAnswer? {
          return UnknownOutcome;
        }
        if a.UnsatAnswer? {
          UnsatRefutes(e.ctx, d, s.assertions);
          return Refuted(None, true);
        }
        model := a.model;
      } else if undetermined == 0 {
        ValidatedModel(e.ctx, considered, subs, s.assertions, model);
        return SatValidated(model);
      } else {
        return SatCandidate;
      }
    }
    return SatCandidate;
  }
}
