/** The sliced disjunct checker: solvers that grow, restart and learn across disjuncts, and the ladder of
    rungs every disjunct climbs. */
module SlicedChecker {
  import opened Wrappers
  import opened Sets
  import opened Smt
  import opened ModAbstraction
  import opened ConeOfInfluence
  import opened SlicedSolving

  datatype Rung = Arith | Mem

  datatype Verdict = UnsatVerdict | SatVerdict(model: Model, disjunct: int) | UnknownVerdict | Aborted

  /** Disjuncts with one slice seed. */
  datatype Group = Group(seed: set<string>, members: seq<int>)

  datatype Batch = Batch(rung: Rung, slice: set<int>, members: seq<int>)

  function MembersOf(groups: seq<Group>): seq<int> {
    if groups == [] then [] else MembersOf(groups[..|groups| - 1]) + groups[|groups| - 1].members
  }

  lemma NoMembers()
    ensures MembersOf([]) == [] && BatchMembers([]) == []
  {
  }

  lemma MembersSnoc(groups: seq<Group>, g: nat)
    requires g < |groups|
    ensures MembersOf(groups[..g + 1]) == MembersOf(groups[..g]) + groups[g].members
  {
    assert groups[..g + 1][..g] == groups[..g];
  }

  function BatchMembers(bs: seq<Batch>): seq<int> {
    if bs == [] then [] else bs[0].members + BatchMembers(bs[1..])
  }

  /** Files disjunct `k` under its seed. */
  function File(groups: seq<Group>, seed: set<string>, k: int): (r: seq<Group>)
  {
    if groups == [] then [Group(seed, [k])]
    else
      var n := |groups| - 1;
      var front, last := groups[..n], groups[n];
      if last.seed == seed then front + [Group(seed, last.members + [k])] else File(front, seed, k) + [last]
  }

  lemma {:induction false} FileMembers(groups: seq<Group>, seed: set<string>, k: int)
    ensures multiset(MembersOf(File(groups, seed, k))) == multiset(MembersOf(groups)) + multiset{k}
  {
    if groups == [] {
      assert MembersOf([Group(seed, [k])]) == [k];
    } else {
      var n := |groups| - 1;
      var front, last := groups[..n], groups[n];
      if last.seed == seed {
        MembersLast(front, Group(seed, last.members + [k]));
        assert MembersOf(front) + (last.members + [k]) == MembersOf(groups) + [k];
      } else {
        FileMembers(front, seed, k);
        MembersLast(File(front, seed, k), last);
      }
    }
  }

  lemma MembersLast(front: seq<Group>, last: Group)
    ensures MembersOf(front + [last]) == MembersOf(front) + last.members
  {
    assert (front + [last])[..|front|] == front;
  }

  ghost predicate AscendingSizes(bs: seq<Batch>) {
    forall i, j :: 0 <= i < j < |bs| ==> |bs[i].slice| <= |bs[j].slice|
  }

  function InsertBatch(b: Batch, bs: seq<Batch>): (r: seq<Batch>)
    ensures forall x :: x in r <==> x == b || x in bs
  {
    if bs == [] then [b]
    else if |b.slice| < |bs[0].slice| then [b] + bs
    else
      assert bs == [bs[0]] + bs[1..];
      [bs[0]] + InsertBatch(b, bs[1..])
  }

  /** Inserting keeps the batches in ascending order of slice size. */
  lemma {:induction false} InsertAscends(b: Batch, bs: seq<Batch>)
    requires AscendingSizes(bs)
    ensures AscendingSizes(InsertBatch(b, bs))
  {
    if bs != [] && |b.slice| >= |bs[0].slice| {
      var rest := InsertBatch(b, bs[1..]);
      InsertAscends(b, bs[1..]);
      forall x | x in rest ensures |bs[0].slice| <= |x.slice| {
        if x != b {
          var i :| 0 <= i < |bs[1..]| && bs[1..][i] == x;
          assert bs[i + 1] == x;
        }
      }
      forall i, j | 0 <= i < j < |[bs[0]] + rest| ensures |([bs[0]] + rest)[i].slice| <= |([bs[0]] + rest)[j].slice| {
        if i == 0 {
          assert rest[j - 1] in rest;
        }
      }
    }
  }

  /** The batch goes behind all that are not larger and before all that are. */
  ghost predicate InsertedAt(b: Batch, bs: seq<Batch>, r: seq<Batch>, n: int) {
    && 0 <= n <= |bs| && r == bs[..n] + [b] + bs[n..]
    && (forall i :: 0 <= i < n ==> |bs[i].slice| <= |b.slice|) && (forall i :: n <= i < |bs| ==> |b.slice| < |bs[i].slice|)
  }

  /** Batches of one size keep their order. */
  lemma {:induction false} InsertStable(b: Batch, bs: seq<Batch>) returns (n: nat)
    requires AscendingSizes(bs)
    ensures InsertedAt(b, bs, InsertBatch(b, bs), n)
  {
    n := 0;
    if bs == [] {
      assert bs[..0] + [b] + bs[0..] == [b];
    } else if |b.slice| < |bs[0].slice| {
      assert bs[..0] + [b] + bs[0..] == [b] + bs;
    } else {
      var rest := bs[1..];
      var k := InsertStable(b, rest);
      n := k + 1;
      assert bs == [bs[0]] + rest;
      assert bs[..n] == [bs[0]] + rest[..k] && bs[n..] == rest[k..];
      assert bs[..n] + [b] + bs[n..] == [bs[0]] + (rest[..k] + [b] + rest[k..]);
      assert forall i :: 0 < i < |bs| ==> bs[i] == rest[i - 1];
    }
  }

  lemma {:induction false} InsertMembers(b: Batch, bs: seq<Batch>)
    ensures multiset(BatchMembers(InsertBatch(b, bs))) == multiset(BatchMembers(bs)) + multiset(b.members)
  {
    if bs == [] {
      assert BatchMembers([b]) == b.members + [];
    } else if |b.slice| < |bs[0].slice| {
      assert ([b] + bs)[1..] == bs;
    } else {
      InsertMembers(b, bs[1..]);
      assert ([bs[0]] + InsertBatch(b, bs[1..]))[1..] == InsertBatch(b, bs[1..]);
    }
  }

  function Formulas(ctx: seq<Node>, idx: set<int>, n: nat): (fs: seq<Node>)
    requires n <= |ctx|
    ensures forall f :: f in fs ==> exists i :: i in idx && 0 <= i < n && ctx[i] == f
    ensures forall i :: i in idx && 0 <= i < n ==> ctx[i] in fs
  {
    if n == 0 then []
    else Formulas(ctx, idx, n - 1) + (if n - 1 in idx then [ctx[n - 1]] else [])
  }

  /** Every assertion is a consequence of the context. */
  ghost predicate Consequences(ctx: seq<Node>, fs: seq<Node>) {
    forall f :: f in fs ==> Consequence(ctx, f)
  }

  ghost predicate Consequence(ctx: seq<Node>, f: Node) {
    forall m :: Sat(ctx, m) ==> Holds(f, m)
  }

  /** Just the constraints `idx`, beside learned negations. */
  ghost predicate Held(ctx: seq<Node>, idx: set<int>, fs: seq<Node>) {
    Asserted(ctx, idx, fs) && forall f :: f in fs ==> Own(ctx, idx, f)
  }

  /** At least the constraints `lo`, at most `hi`, beside learned negations. */
  ghost predicate Spans(ctx: seq<Node>, lo: set<int>, hi: set<int>, fs: seq<Node>) {
    Asserted(ctx, lo, fs) && forall f :: f in fs ==> Own(ctx, hi, f)
  }

  lemma SpansMore(ctx: seq<Node>, lo: set<int>, hi: set<int>, fs: seq<Node>, i: int)
    requires Spans(ctx, lo, hi, fs) && i in hi && 0 <= i < |ctx|
    ensures Spans(ctx, lo + {i}, hi, fs + [ctx[i]])
  {
    forall f | f in fs + [ctx[i]] ensures Own(ctx, hi, f) {
      assert f in fs || f == ctx[i];
    }
  }

  ghost predicate Own(ctx: seq<Node>, idx: set<int>, f: Node) {
    (exists i :: i in idx && 0 <= i < |ctx| && ctx[i] == f) || exists e :: f == Not(e)
  }

  /** The same with the disjunct on top. */
  ghost predicate OnTop(ctx: seq<Node>, idx: set<int>, d: Node, fs: seq<Node>) {
    Asserted(ctx, idx, fs) && d in fs && forall f :: f in fs ==> f == d || Own(ctx, idx, f)
  }

  /** The solver refutes the disjunct whenever it is given just the constraints `idx`, learned negations, and it. */
  ghost predicate RefutesOn(oracle: (nat, seq<Node>) -> Answer, ctx: seq<Node>, idx: set<int>, d: Node) {
    forall calls, fs :: OnTop(ctx, idx, d, fs) ==> oracle(calls, fs).UnsatAnswer?
  }

  /** Given those, it answers with a model whose values make all other constraints true. */
  ghost predicate ValidatesOn(oracle: (nat, seq<Node>) -> Answer, e: Setup, idx: set<int>, d: Node)
    requires |e.freeVars| == |e.ctx|
  {
    && e.budgets.cegarIters > 0
    && forall calls, fs :: OnTop(e.ctx, idx, d, fs) ==>
         oracle(calls, fs).SatAnswer? && AllTrue(e, e.extract(0, oracle(calls, fs).model), idx)
  }

  lemma HeldSpans(ctx: seq<Node>, idx: set<int>, fs: seq<Node>)
    requires Held(ctx, idx, fs)
    ensures Spans(ctx, idx - {}, idx, fs)
  {
    assert idx - {} == idx;
  }

  lemma HeldMore(ctx: seq<Node>, idx: set<int>, fs: seq<Node>, i: int)
    requires Held(ctx, idx, fs) && 0 <= i < |ctx|
    ensures Held(ctx, idx + {i}, fs + [ctx[i]])
  {
    forall f | f in fs + [ctx[i]] ensures Own(ctx, idx + {i}, f) {
      assert f in fs || f == ctx[i];
      assert f in fs ==> Own(ctx, idx, f);
    }
  }

  lemma SpansBelow(ctx: seq<Node>, idx: set<int>, fs: seq<Node>, d: Node)
    requires Spans(ctx, idx, idx, fs)
    ensures OnTop(ctx, idx, d, fs + [d])
  {
  }

  lemma ConsequencesMore(ctx: seq<Node>, fs: seq<Node>, i: int)
    requires Consequences(ctx, fs) && 0 <= i < |ctx|
    ensures Consequences(ctx, fs + [ctx[i]])
  {
    assert ctx[i] in ctx;
    assert Consequence(ctx, ctx[i]);
  }

  /** A solver at its base level: only consequences of the context, and at least the constraints `idx`. */
  ghost predicate BaseLevel(ctx: seq<Node>, s: Solver, idx: set<int>)
    reads s
  {
    s.Valid() && s.marks == [] && Consequences(ctx, s.assertions) && Held(ctx, idx, s.assertions)
  }

  function Below(n: nat): (s: set<int>)
    ensures forall i :: i in s <==> 0 <= i < n
  {
    if n == 0 then {} else Below(n - 1) + {n - 1}
  }

  // ---- Closed slices ----

  /** Witness variables carry a `!` in their name. */
  predicate IsWitness(x: string) {
    '!' in x
  }

  ghost function Allowed(fv: seq<set<string>>, dvars: set<string>): set<string> {
    dvars + set i, x | 0 <= i < |fv| && fv[i] * dvars != {} && x in fv[i] && IsWitness(x) :: x
  }

  /** The constraints over the variables of the disjunct and the witnesses occurring beside them. */
  ghost predicate IsClosedSlice(fv: seq<set<string>>, dvars: set<string>, slice: set<int>) {
    forall i :: i in slice <==> 0 <= i < |fv| && fv[i] != {} && fv[i] <= Allowed(fv, dvars)
  }

  /** Constraints mentioning one of `vs`. */
  method Touching(index: ConstraintIndex, vs: set<string>) returns (found: set<int>)
    requires index.Valid()
    ensures forall i :: i in found <==> 0 <= i < |index.freeVars| && index.freeVars[i] * vs != {}
  {
    found := {};
    var todo := vs;
    while todo != {}
      invariant todo <= vs
      invariant forall i :: i in found ==> 0 <= i < |index.freeVars| && index.freeVars[i] * vs != {}
      invariant forall v, i :: v in vs - todo && Mentions(index.freeVars, v, i) ==> i in found
      decreases |todo|
    {
      var v :| v in todo;
      var listed := if v in index.var2c then index.var2c[v] else [];
      var more := set k | 0 <= k < |listed| :: listed[k];
      forall i ensures i in more <==> Mentions(index.freeVars, v, i) {
        assert Has(index.var2c, v, i) <==> Mentions(index.freeVars, v, i);
        if i in listed {
          var k :| 0 <= k < |listed| && listed[k] == i;
        }
      }
      forall i | i in more ensures 0 <= i < |index.freeVars| && index.freeVars[i] * vs != {} {
        assert Mentions(index.freeVars, v, i) && v in index.freeVars[i] * vs;
      }
      found := found + more;
      todo := todo - {v};
    }
    forall i | 0 <= i < |index.freeVars| && index.freeVars[i] * vs != {} ensures i in found {
      var v :| v in index.freeVars[i] * vs;
      assert Mentions(index.freeVars, v, i);
    }
  }

  /** The witness variables of the constraints `idx`. */
  function WitnessesOf(fv: seq<set<string>>, idx: set<int>): (r: set<string>)
    requires forall i :: i in idx ==> 0 <= i < |fv|
    ensures forall x :: x in r <==> exists i :: i in idx && x in fv[i] && IsWitness(x)
  {
    set i, x | i in idx && x in fv[i] && IsWitness(x) :: x
  }

  method ComputeClosedSlice(index: ConstraintIndex, dvars: set<string>) returns (slice: set<int>)
    requires index.Valid()
    ensures IsClosedSlice(index.freeVars, dvars, slice)
  {
    hide Allowed, IsClosedSlice, IsWitness;
    var fv := index.freeVars;
    var beside := Touching(index, dvars);
    var witnesses := WitnessesOf(fv, beside);
    var further := Touching(index, witnesses);
    var allowed := dvars + witnesses;
    AllowedIs(fv, dvars, beside, witnesses);
    slice := set i | i in beside + further && fv[i] <= allowed;
    ClosedSliceIs(fv, dvars, witnesses, beside, further, slice);
  }

  lemma ClosedSliceIs(fv: seq<set<string>>, dvars: set<string>, witnesses: set<string>, beside: set<int>, further: set<int>, slice: set<int>)
    requires forall i :: i in beside <==> 0 <= i < |fv| && fv[i] * dvars != {}
    requires forall i :: i in further <==> 0 <= i < |fv| && fv[i] * witnesses != {}
    requires dvars + witnesses == Allowed(fv, dvars)
    requires forall i :: i in slice <==> (i in beside || i in further) && fv[i] <= dvars + witnesses
    ensures IsClosedSlice(fv, dvars, slice)
  {
    forall i ensures i in slice <==> 0 <= i < |fv| && fv[i] != {} && fv[i] <= Allowed(fv, dvars) {
      if 0 <= i < |fv| && fv[i] != {} && fv[i] <= dvars + witnesses {
        var x :| x in fv[i];
        assert x in fv[i] * dvars || x in fv[i] * witnesses;
      }
    }
  }

  lemma AllowedIs(fv: seq<set<string>>, dvars: set<string>, beside: set<int>, witnesses: set<string>)
    requires forall i :: i in beside <==> 0 <= i < |fv| && fv[i] * dvars != {}
    requires forall x :: x in witnesses <==> exists i :: i in beside && x in fv[i] && IsWitness(x)
    ensures dvars + witnesses == Allowed(fv, dvars)
  {
    forall x | x in Allowed(fv, dvars) ensures x in dvars + witnesses {
      if x !in dvars {
        var i :| 0 <= i < |fv| && fv[i] * dvars != {} && x in fv[i] && IsWitness(x);
        assert i in beside;
      }
    }
    forall x | x in witnesses ensures x in Allowed(fv, dvars) {
      var i :| i in beside && x in fv[i] && IsWitness(x);
    }
    SameSet(dvars + witnesses, Allowed(fv, dvars));
  }

  class Checker {
    const setup: Setup
    const oracle: (nat, seq<Node>) -> Answer
    const disjuncts: seq<Node>
    const index: ConstraintIndex
    const collectUnknowns: Option<int>
    var sliceCache: map<set<string>, set<int>>
    var closedCache: map<set<string>, set<int>>
    var refuted: set<Node>
    var unknowns: seq<int>
    var syntactic: nat
    var calls: nat
    var growSolver: Solver?
    var growResident: set<int>
    var memSolver: Solver?
    var fullSolver: Solver?

    ghost function Solvers(): set<object>
      reads this
    {
      (if growSolver != null then {growSolver} else {})
      + (if memSolver != null then {memSolver} else {})
      + (if fullSolver != null then {fullSolver} else {})
    }

    ghost predicate CachesOk()
      reads this
    {
      && (forall key :: key in sliceCache ==> IsCone(index.freeVars, key - index.boundary, index.Pass(), sliceCache[key]))
      && (forall key :: key in closedCache ==> IsClosedSlice(index.freeVars, key, closedCache[key]))
      && (forall d :: d in refuted ==> Refutes(setup.ctx, d))
    }

    ghost predicate SolversOk()
      reads this, index, Solvers()
    {
      && (growSolver != null ==> BaseLevel(setup.ctx, growSolver, growResident) && growSolver.oracle == oracle)
      && (growSolver == null ==> growResident == {})
      && (memSolver != null ==> BaseLevel(setup.ctx, memSolver, index.memIndices) && memSolver.oracle == oracle)
      && (fullSolver != null ==> BaseLevel(setup.ctx, fullSolver, All()) && fullSolver.oracle == oracle)
      && (growSolver != null ==> growSolver != memSolver && growSolver != fullSolver)
      && (memSolver != null ==> memSolver != fullSolver)
    }

    function All(): set<int> {
      Below(|setup.ctx|)
    }

    ghost predicate Wired()
      reads this, index
    {
      && GoodSetup(setup) && SoundOracle(oracle)
      && index.Valid() && index.constraints == setup.ctx
      && (forall d :: d in disjuncts ==> NoUmod(d))
    }

    /** No solver call of the checker ever decides. */
    ghost predicate Mute() {
      Silent(oracle) && Silent(setup.oneShot)
    }

    ghost predicate Ready()
      reads this, index
    {
      Wired() && CachesOk()
    }

    ghost predicate Valid()
      reads this, index, Solvers()
    {
      Ready() && SolversOk()
    }

    constructor (setup: Setup, oracle: (nat, seq<Node>) -> Answer, disjuncts: seq<Node>, boundary: set<string>, collectUnknowns: Option<int>)
      requires GoodSetup(setup) && SoundOracle(oracle) && forall d :: d in disjuncts ==> NoUmod(d)
      ensures Valid() && fresh(index) && fresh(Solvers())
      ensures this.setup == setup && this.disjuncts == disjuncts && this.collectUnknowns == collectUnknowns && this.oracle == oracle
      ensures refuted == {} && unknowns == [] && syntactic == 0
    {
      this.setup, this.oracle, this.disjuncts, this.collectUnknowns := setup, oracle, disjuncts, collectUnknowns;
      this.index := new ConstraintIndex(setup.ctx, boundary);
      sliceCache, closedCache, refuted, unknowns, syntactic, calls := map[], map[], {}, [], 0, 0;
      growSolver, growResident, memSolver, fullSolver := null, {}, null, null;
    }

    // ---- Solver management ----

    /** Asserts the constraints `idx` at the base level of `s`. */
    method AssertAll(s: Solver, idx: set<int>, ghost held: set<int>)
      requires GoodSetup(setup) && BaseLevel(setup.ctx, s, held) && idx <= All()
      modifies s
      ensures BaseLevel(setup.ctx, s, held + idx)
    {
      assert held + idx * Below(0) == held;
      for i := 0 to |setup.ctx|
        invariant BaseLevel(setup.ctx, s, held + idx * Below(i))
      {
        hide Held, Consequences, Below;
        BelowNext(held, idx, i);
        if i in idx {
          ConsequencesMore(setup.ctx, s.assertions, i);
          HeldMore(setup.ctx, held + idx * Below(i), s.assertions, i);
          s.Add(setup.ctx[i]);
        }
      }
      assert idx * Below(|setup.ctx|) == idx;
    }

    lemma BelowNext(held: set<int>, idx: set<int>, i: nat)
      ensures held + idx * Below(i + 1) == if i in idx then held + idx * Below(i) + {i} else held + idx * Below(i)
    {
    }

    method MemSolver() returns (s: Solver)
      requires Valid()
      modifies `memSolver
      ensures Valid() && memSolver == s && s in Solvers() && fresh(Solvers() - old(Solvers()))
      ensures old(memSolver) != null ==> s == old(memSolver)
      ensures old(memSolver) == null ==> fresh(s)
    {
      if memSolver == null {
        var m := new Solver(oracle, 0);
        MemInRange();
        AssertAll(m, index.memIndices, {});
        assert {} + index.memIndices == index.memIndices;
        memSolver := m;
      }
      s := memSolver;
    }

    lemma MemInRange()
      requires Wired()
      ensures index.memIndices <= All()
    {
    }

    method FullSolver() returns (s: Solver)
      requires Valid()
      modifies `fullSolver
      ensures Valid() && fullSolver == s
      ensures old(fullSolver) != null ==> s == old(fullSolver)
      ensures old(fullSolver) == null ==> fresh(s)
    {
      if fullSolver == null {
        var m := new Solver(oracle, 0);
        AssertAll(m, All(), {});
        assert {} + All() == All();
        fullSolver := m;
      }
      s := fullSolver;
    }

    /** The growing slice solver: asserts only what is missing, or restarts when what it holds has grown
        beyond `gcFactor` times the slice. */
    method GrowSolverFor(slice: set<int>) returns (s: Solver, considered: set<int>)
      requires Valid() && slice <= All()
      modifies `growSolver, `growResident, Solvers()
      ensures Valid() && growSolver == s && considered == growResident && s in Solvers() && fresh(Solvers() - old(Solvers()))
      ensures growSolver == old(growSolver) || fresh(s)
      ensures var all := old(growResident) + slice;
        considered == if old(growSolver) != null && |all| as real <= setup.budgets.gcFactor * |slice| as real then all else slice
    {
      CollectGarbage(slice);
      Grow(slice - growResident);
      s, considered := growSolver, growResident;
      GrownTo(old(growSolver) != null, old(growResident), slice, considered);
    }

    method Grow(missing: set<int>)
      requires Valid() && growSolver != null && missing <= All()
      modifies `growResident, growSolver
      ensures Valid() && growResident == old(growResident) + missing
    {
      AssertAll(growSolver, missing, growResident);
      growResident := growResident + missing;
    }

    lemma GrownTo(live: bool, before: set<int>, slice: set<int>, considered: set<int>)
      requires live || before == {}
      requires var kept := if Bloated(before, slice) then {} else before;
        considered == kept + (slice - kept)
      ensures considered == if live && !Bloated(before, slice) then before + slice else slice
    {
    }

    predicate Bloated(resident: set<int>, slice: set<int>) {
      |resident + slice| as real > setup.budgets.gcFactor * |slice| as real
    }

    /** Drops the growing solver when it holds too much for this slice; makes sure there is one. */
    method CollectGarbage(slice: set<int>)
      requires Valid()
      modifies `growSolver, `growResident
      ensures Valid() && growSolver != null
      ensures growSolver == old(growSolver) || fresh(growSolver)
      ensures growResident == if old(growSolver) != null && Bloated(old(growResident), slice) then {} else old(growResident)
    {
      if growSolver != null && Bloated(growResident, slice) {
        growSolver := null;
        growResident := {};
      }
      if growSolver == null {
        growSolver := new Solver(oracle, 0);
      }
    }

    // ---- Slices ----

    /** The slice of a seed; the cache is transparent. */
    method SliceFor(key: set<string>) returns (slice: set<int>)
      requires Valid()
      modifies `sliceCache
      ensures Valid() && IsCone(index.freeVars, key - index.boundary, index.Pass(), slice)
    {
      if key in sliceCache {
        slice := sliceCache[key];
      } else {
        slice := index.SliceIndices(key);
        sliceCache := sliceCache[key := slice];
      }
    }

    method ClosedSlice(d: Node) returns (slice: set<int>)
      requires Ready()
      modifies `closedCache
      ensures Ready() && IsClosedSlice(index.freeVars, FreeVars(d), slice)
    {
      var key := FreeVars(d);
      if key in closedCache {
        slice := closedCache[key];
      } else {
        slice := ComputeClosedSlice(index, key);
        closedCache := closedCache[key := slice];
      }
    }

    // ---- Fallback strategies ----

    /** What is satisfiable when a thorough solver does not refute the disjunct by the strategy. */
    ghost predicate Failed(strategy: Strategy, d: Node, tacticIndices: set<int>, extra: set<int>)
      reads index
    {
      match strategy
      case Closed => OpenAbstraction(d)
      case ClosedInt => OpenSlice(d)
      case Tactic => exists m :: Sat(Formulas(setup.ctx, tacticIndices, |setup.ctx|) + Formulas(setup.ctx, extra, |setup.ctx|) + [d], m)
    }

    /** The closed slice of the disjunct is empty, or its abstraction with the disjunct has a model. */
    ghost predicate OpenAbstraction(d: Node)
      reads index
    {
      exists slice :: IsClosedSlice(index.freeVars, FreeVars(d), slice)
        && (slice == {} || exists m :: OpenUnder(Formulas(setup.ctx, slice, |setup.ctx|) + [d], m))
    }

    /** The closed slice of the disjunct is empty, or has a model that satisfies it. */
    ghost predicate OpenSlice(d: Node)
      reads index
    {
      exists slice :: IsClosedSlice(index.freeVars, FreeVars(d), slice)
        && (slice == {} || exists m :: Sat(Formulas(setup.ctx, slice, |setup.ctx|) + [d], m))
    }

    /** One fallback strategy: does it refute the disjunct? */
    method TryStrategy(strategy: Strategy, d: Node, tacticIndices: set<int>, extra: set<int>) returns (proved: bool)
      requires Ready() && NoUmod(d)
      modifies `closedCache, `calls
      ensures Ready() && (proved ==> Refutes(setup.ctx, d)) && (Silent(setup.oneShot) ==> !proved)
      ensures Thorough(setup.oneShot) && !proved ==> Failed(strategy, d, tacticIndices, extra)
    {
      var ctx := setup.ctx;
      if strategy.Tactic? {
        proved := OneShot(Formulas(ctx, tacticIndices, |ctx|) + Formulas(ctx, extra, |ctx|) + [d], d);
      } else {
        var slice := ClosedSlice(d);
        if slice == {} {
          return false;
        }
        var fs := Formulas(ctx, slice, |ctx|) + [d];
        if strategy.ClosedInt? {
          proved := OneShot(fs, d);
        } else {
          assert Implied(ctx, d, fs);
          assert forall f :: f in fs ==> NoUmod(f);
          proved := ClosedAbstract(setup.oneShot, calls, fs, setup.budgets.cegarIters);
          calls := calls + setup.budgets.cegarIters + 1;
          if proved {
            UnsatRefutes(ctx, d, fs);
          }
        }
      }
    }

    /** A fresh solver run on `fs`. */
    method OneShot(fs: seq<Node>, ghost d: Node) returns (proved: bool)
      requires Ready() && Implied(setup.ctx, d, fs)
      modifies `calls
      ensures Ready() && (proved ==> Refutes(setup.ctx, d)) && (Silent(setup.oneShot) ==> !proved)
      ensures Thorough(setup.oneShot) && !proved ==> exists m :: Sat(fs, m)
    {
      var a := setup.oneShot(calls, fs);
      assert SoundAnswer(a, fs);
      calls := calls + 1;
      proved := a.UnsatAnswer?;
      if proved {
        UnsatRefutes(setup.ctx, d, fs);
      }
    }

    function Strategies(fallback: Option<Strategy>): seq<Strategy> {
      var all := [Closed, ClosedInt] + (if setup.budgets.retryTactic then [Tactic] else []);
      if fallback.Some? && fallback.value in all then [fallback.value] + Drop(all, fallback.value) else all
    }

    ghost predicate AllFailed(strategies: seq<Strategy>, tried: Option<Strategy>, d: Node, tacticIndices: set<int>, extra: set<int>)
      reads index
    {
      forall st :: st in strategies && tried != Some(st) ==> Failed(st, d, tacticIndices, extra)
    }

    /** The strategies left after an unknown answer, in order, skipping the one tried first. */
    method Retry(strategies: seq<Strategy>, tried: Option<Strategy>, d: Node, tacticIndices: set<int>, extra: set<int>)
      returns (via: Option<Strategy>)
      requires Ready() && NoUmod(d)
      modifies `closedCache, `calls
      ensures Ready() && (via.Some? ==> Refutes(setup.ctx, d)) && (Silent(setup.oneShot) ==> via.None?)
      ensures Thorough(setup.oneShot) && via.None? ==> AllFailed(strategies, tried, d, tacticIndices, extra)
    {
      for i := 0 to |strategies|
        invariant Ready()
        invariant Thorough(setup.oneShot) ==> AllFailed(strategies[..i], tried, d, tacticIndices, extra)
      {
        if tried != Some(strategies[i]) {
          var proved := TryStrategy(strategies[i], d, tacticIndices, extra);
          if proved {
            return Some(strategies[i]);
          }
        }
      }
      return None;
    }

    // ---- One disjunct ----

    /** Pushes `d` (and `extra`) on top of `s` and solves; refines on a slice model. */
    method SolveUnder(s: Solver, d: Node, considered: set<int>, fullCtx: bool, extra: set<int>,
                      prefer: Option<Strategy>, fallback: Option<Strategy>, tacticIndices: set<int>) returns (o: Outcome)
      requires Ready() && NoUmod(d) && extra <= All()
      requires s.Valid() && s.marks == [] && Consequences(setup.ctx, s.assertions)
      requires Spans(setup.ctx, considered - extra, considered, s.assertions) && extra <= considered
      requires fullCtx ==> considered == All() && extra == {}
      modifies s, `closedCache, `calls
      ensures Ready() && s.Valid() && s.assertions == old(s.assertions) && s.marks == []
      ensures SoundOutcome(setup.ctx, d, o) && (fullCtx ==> !o.SatCandidate?)
      ensures fullCtx && Decisive(s.oracle) ==> !o.UnknownOutcome?
      ensures Silent(s.oracle) && Silent(setup.oneShot) ==> o.UnknownOutcome?
      ensures RefutesOn(s.oracle, setup.ctx, considered, d) ==> o.Refuted?
      ensures ValidatesOn(s.oracle, setup, considered, d) ==> o.Refuted? || o.SatValidated?
      ensures fullCtx && prefer.None? && Thorough(setup.oneShot) && o.UnknownOutcome? ==>
        AllFailed(Strategies(fallback), None, d, tacticIndices, extra)
    {
      var strategies := Strategies(fallback);
      var tried: Option<Strategy> := None;
      if prefer.Some? && prefer.value in strategies {
        var proved := TryStrategy(prefer.value, d, tacticIndices, extra);
        tried := prefer;
        if proved {
          return Refuted(prefer, false);
        }
      }
      s.Push();
      OpenScope(s, d, considered, extra);
      o := SolveScope(s, d, considered, fullCtx, extra, strategies, tried, tacticIndices);
      s.Pop();
    }

    /** Solves inside the push scope; fallback strategies run on an unknown answer. */
    method SolveScope(s: Solver, d: Node, considered: set<int>, fullCtx: bool, extra: set<int>,
                      strategies: seq<Strategy>, tried: Option<Strategy>, tacticIndices: set<int>) returns (o: Outcome)
      requires Ready() && NoUmod(d) && s.Valid() && Scope(setup.ctx, d, considered, s.assertions) && OnTop(setup.ctx, considered, d, s.assertions)
      requires fullCtx ==> considered == All()
      modifies s, `closedCache, `calls
      ensures Ready() && s.Valid() && s.marks == old(s.marks) && old(s.assertions) <= s.assertions
      ensures SoundOutcome(setup.ctx, d, o) && (fullCtx ==> !o.SatCandidate?)
      ensures fullCtx && Decisive(s.oracle) ==> !o.UnknownOutcome?
      ensures Silent(s.oracle) && Silent(setup.oneShot) ==> o.UnknownOutcome?
      ensures RefutesOn(s.oracle, setup.ctx, considered, d) ==> o.Refuted?
      ensures ValidatesOn(s.oracle, setup, considered, d) ==> o.Refuted? || o.SatValidated?
      ensures fullCtx && Thorough(setup.oneShot) && o.UnknownOutcome? ==> AllFailed(strategies, tried, d, tacticIndices, extra)
    {
      var a := s.Solve();
      if a.UnknownAnswer? {
        var via := Retry(strategies, tried, d, tacticIndices, extra);
        o := if via.Some? then Refuted(via, false) else UnknownOutcome;
      } else if a.UnsatAnswer? {
        UnsatRefutes(setup.ctx, d, s.assertions);
        o := Refuted(None, false);
      } else if fullCtx {
        WholeContext(s, d, considered, a.model);
        o := SatValidated(a.model);
      } else {
        o := RunCegar(s, setup, d, considered, a.model);
      }
    }

    lemma WholeContext(s: Solver, d: Node, considered: set<int>, m: Model)
      requires considered == All() && Scope(setup.ctx, d, considered, s.assertions) && Sat(s.assertions, m)
      ensures Sat(setup.ctx, m) && Holds(d, m)
    {
      forall c | c in setup.ctx ensures Holds(c, m) {
        var i :| 0 <= i < |setup.ctx| && setup.ctx[i] == c;
        assert i in considered;
      }
    }

    lemma Reassembled(considered: set<int>, extra: set<int>)
      requires extra <= All() && extra <= considered
      ensures (considered - extra) + (extra * Below(|setup.ctx|)) == considered
    {
    }

    /** Asserts `extra` and the disjunct inside the push scope. */
    method OpenScope(s: Solver, d: Node, ghost considered: set<int>, extra: set<int>)
      requires GoodSetup(setup) && s.Valid() && extra <= All()
      requires Consequences(setup.ctx, s.assertions) && Spans(setup.ctx, considered - extra, considered, s.assertions) && extra <= considered
      modifies s
      ensures s.Valid() && s.marks == old(s.marks) && old(s.assertions) <= s.assertions
      ensures Scope(setup.ctx, d, considered, s.assertions) && OnTop(setup.ctx, considered, d, s.assertions)
    {
      for i := 0 to |setup.ctx|
        invariant s.Valid() && s.marks == old(s.marks) && old(s.assertions) <= s.assertions
        invariant Consequences(setup.ctx, s.assertions)
        invariant Spans(setup.ctx, (considered - extra) + (extra * Below(i)), considered, s.assertions)
      {
        if i in extra {
          assert setup.ctx[i] in setup.ctx;
          assert Consequence(setup.ctx, setup.ctx[i]);
          SpansMore(setup.ctx, (considered - extra) + (extra * Below(i)), considered, s.assertions, i);
          s.Add(setup.ctx[i]);
        }
        BelowNext(considered - extra, extra, i);
      }
      Reassembled(considered, extra);
      SpansBelow(setup.ctx, considered, s.assertions, d);
      s.Add(d);
      forall f | f in s.assertions ensures ImpliedOne(setup.ctx, d, f) {
        assert f != d ==> Consequence(setup.ctx, f);
      }
    }

    /** `SolveUnder` on one of the checker's own solvers. */
    method SolveOn(s: Solver, d: Node, considered: set<int>, fullCtx: bool, extra: set<int>,
                   prefer: Option<Strategy>, fallback: Option<Strategy>, tacticIndices: set<int>) returns (o: Outcome)
      requires Valid() && s in Solvers() && NoUmod(d) && extra <= All()
      requires Spans(setup.ctx, considered - extra, considered, s.assertions) && extra <= considered
      requires fullCtx ==> considered == All() && extra == {}
      modifies s, `closedCache, `calls
      ensures Valid() && s.assertions == old(s.assertions)
      ensures SoundOutcome(setup.ctx, d, o) && (fullCtx ==> !o.SatCandidate?)
      ensures fullCtx && Decisive(oracle) ==> !o.UnknownOutcome?
      ensures Silent(oracle) && Silent(setup.oneShot) ==> o.UnknownOutcome?
      ensures RefutesOn(oracle, setup.ctx, considered, d) ==> o.Refuted?
      ensures ValidatesOn(oracle, setup, considered, d) ==> o.Refuted? || o.SatValidated?
      ensures fullCtx && prefer.None? && Thorough(setup.oneShot) && o.UnknownOutcome? ==>
        AllFailed(Strategies(fallback), None, d, tacticIndices, extra)
    {
      o := SolveUnder(s, d, considered, fullCtx, extra, prefer, fallback, tacticIndices);
    }

    /** What the one-shot solver could not refute: the disjunct has a model in the whole context, where the retry tactic
        is on, and its closed slice is open, as is the abstraction of it. */
    ghost predicate Stubborn(d: Node)
      reads index
    {
      (setup.budgets.retryTactic ==> exists m :: Sat(setup.ctx, m) && Holds(d, m)) && OpenSlice(d) && OpenAbstraction(d)
    }

    /** A solver that always decides leaves no disjunct unknown, and one that never does leaves all; beside a thorough
        one-shot solver only stubborn disjuncts stay unknown. */
    ghost predicate Settled(o: Outcome, d: Node)
      reads index
    {
      && (Decisive(oracle) ==> !o.UnknownOutcome?) && (Mute() ==> o.UnknownOutcome?)
      && (Thorough(setup.oneShot) && o.UnknownOutcome? ==> Stubborn(d))
    }

    /** The solver decides the disjunct on none of its rungs; the primary one may hold more than the slice. */
    ghost predicate Exhausted(k: int)
      requires 0 <= k < |disjuncts|
      reads index
    {
      && |setup.freeVars| == |setup.ctx|
      && exists rung, considered, slice ::
           && Routed(k, rung, slice) && slice <= considered && (rung.Mem? ==> considered == slice)
           && OnEveryRung(UnknownOutcome, disjuncts[k], rung, considered, slice)
    }

    /** The disjuncts on which the ladder gave up: none beside a solver that always decides, only stubborn ones beside a
        thorough one-shot solver, and none that the solver decides on some rung. */
    ghost predicate GaveUpOn(left: seq<int>)
      reads index
    {
      && (Decisive(oracle) ==> left == [])
      && (forall i :: 0 <= i < |left| && 0 <= left[i] < |disjuncts| ==> Exhausted(left[i]))
      && (Thorough(setup.oneShot) ==> forall i :: 0 <= i < |left| && 0 <= left[i] < |disjuncts| ==> Stubborn(disjuncts[left[i]]))
    }

    lemma GaveUpOnBoth(a: seq<int>, b: seq<int>)
      requires GaveUpOn(a) && GaveUpOn(b)
      ensures GaveUpOn(a + b)
    {
      hide Stubborn, Exhausted;
    }

    lemma DecidedAll(left: seq<int>)
      requires GaveUpOn(left)
      ensures Decisive(oracle) ==> left == []
    {
    }

    lemma GaveUpOnNone()
      ensures GaveUpOn([])
    {
    }

    lemma LeftExhausted(o: Outcome, k: int, rung: Rung, considered: set<int>, slice: set<int>)
      requires 0 <= k < |disjuncts| && Settled(o, disjuncts[k]) && |setup.freeVars| == |setup.ctx| && OnEveryRung(o, disjuncts[k], rung, considered, slice)
      requires Routed(k, rung, slice) && slice <= considered && (rung.Mem? ==> considered == slice)
      ensures GaveUpOn(if o.UnknownOutcome? then [k] else [])
    {
      hide Stubborn, Undecided, Routed;
    }

    lemma AllFailedStubborn(d: Node)
      requires AllFailed(Strategies(None), None, d, All(), {})
      ensures Stubborn(d)
    {
      assert ClosedInt in Strategies(None) && Failed(ClosedInt, d, All(), {});
      assert Closed in Strategies(None) && Failed(Closed, d, All(), {});
      if setup.budgets.retryTactic {
        assert Tactic in Strategies(None) && Failed(Tactic, d, All(), {});
        var fs := Formulas(setup.ctx, All(), |setup.ctx|) + Formulas(setup.ctx, {}, |setup.ctx|) + [d];
        var m :| Sat(fs, m);
        assert d in fs;
        forall c | c in setup.ctx ensures Holds(c, m) {
          var i :| 0 <= i < |setup.ctx| && setup.ctx[i] == c;
          assert c in Formulas(setup.ctx, All(), |setup.ctx|) && c in fs;
        }
      }
    }

    /** Given just the constraints `idx`, learned negations and the disjunct, the solver neither refutes it nor comes with a
        model whose values make all else true. */
    ghost predicate Undecided(idx: set<int>, d: Node)
      requires |setup.freeVars| == |setup.ctx|
    {
      !RefutesOn(oracle, setup.ctx, idx, d) && !ValidatesOn(oracle, setup, idx, d)
    }

    /** Whatever stays unknown, the solver decides on none of the rungs: the primary one, the slice beside the memory
        argument if it is small, and the whole context. */
    ghost predicate OnEveryRung(o: Outcome, d: Node, rung: Rung, considered: set<int>, slice: set<int>)
      requires |setup.freeVars| == |setup.ctx|
      reads index
    {
      o.UnknownOutcome? ==>
        && Undecided(considered, d) && Undecided(All(), d)
        && (rung.Arith? && |slice| <= setup.budgets.smallSlice ==> OpenBesideMemory(d, slice))
    }

    /** Primary rung, then the slice on top of the memory argument, then the whole context. */
    method Ladder(group: Solver, d: Node, rung: Rung, considered: set<int>, slice: set<int>,
                  prefer: Option<Strategy>, fallback: Option<Strategy>) returns (o: Outcome)
      requires Valid() && group in Solvers() && NoUmod(d) && slice <= All()
      requires Held(setup.ctx, considered, group.assertions)
      modifies `closedCache, `calls, `memSolver, `fullSolver, Solvers()
      ensures Valid() && group in Solvers() && fresh(Solvers() - old(Solvers()))
      ensures group.assertions == old(group.assertions)
      ensures SoundOutcome(setup.ctx, d, o) && !o.SatCandidate? && Settled(o, d)
      ensures OnEveryRung(o, d, rung, considered, slice)
    {
      hide Consequences, SoundOutcome, CachesOk, NoUmod, RefutesOn, Held, Spans, Stubborn, Decisive, Silent, Thorough, OpenBesideMemory, SolversOk, Valid, Ready, Wired;
      HeldSpans(setup.ctx, considered, group.assertions);
      o := SolveOn(group, d, considered, false, {}, prefer, fallback, slice);
      if !o.Refuted? && !o.SatValidated? {
        o := Climb(group, d, rung, slice);
      }
    }

    /** The rungs above the primary one. */
    method Climb(ghost group: Solver, d: Node, rung: Rung, slice: set<int>) returns (o: Outcome)
      requires Valid() && group in Solvers() && NoUmod(d) && slice <= All()
      modifies `closedCache, `calls, `memSolver, `fullSolver, Solvers()
      ensures Valid() && group in Solvers() && fresh(Solvers() - old(Solvers()))
      ensures group.assertions == old(group.assertions)
      ensures SoundOutcome(setup.ctx, d, o) && !o.SatCandidate? && Settled(o, d)
      ensures o.UnknownOutcome? ==> Undecided(All(), d)
      ensures o.UnknownOutcome? && rung.Arith? && |slice| <= setup.budgets.smallSlice ==> OpenBesideMemory(d, slice)
    {
      hide Consequences, SoundOutcome, CachesOk, NoUmod, Held, RefutesOn, SolversOk, Valid, Ready, Wired, Settled, OpenBesideMemory;
      ghost var held := group.assertions;
      o := SmallRung(group, d, rung, slice);
      assert group.assertions == held;
      if !o.Refuted? && !o.SatValidated? {
        o := WholeRung(group, d);
        assert group.assertions == held;
      }
    }

    /** The escalated rung, where it applies. */
    method SmallRung(ghost group: Solver, d: Node, rung: Rung, slice: set<int>) returns (o: Outcome)
      requires Valid() && group in Solvers() && NoUmod(d) && slice <= All()
      modifies `closedCache, `calls, `memSolver, Solvers()
      ensures Valid() && group in Solvers() && fresh(Solvers() - old(Solvers()))
      ensures group.assertions == old(group.assertions)
      ensures SoundOutcome(setup.ctx, d, o)
      ensures if o.Refuted? || o.SatValidated? then Settled(o, d)
              else rung.Arith? && |slice| <= setup.budgets.smallSlice ==> OpenBesideMemory(d, slice)
    {
      hide Consequences, CachesOk, NoUmod, Held, RefutesOn, SolversOk, Valid, Ready, Wired, Settled, OpenBesideMemory;
      o := SatCandidate;
      if rung.Arith? && |slice| <= setup.budgets.smallSlice {
        o := Escalate(group, d, slice);
      }
    }

    /** The solver does not decide the disjunct on its slice beside the memory argument. */
    ghost predicate OpenBesideMemory(d: Node, slice: set<int>)
      requires |setup.freeVars| == |setup.ctx|
      reads index
    {
      Undecided(slice + index.memIndices, d)
    }

    method Escalate(ghost group: Solver, d: Node, slice: set<int>) returns (o: Outcome)
      requires Valid() && group in Solvers() && NoUmod(d) && slice <= All()
      modifies `closedCache, `calls, `memSolver, Solvers()
      ensures Valid() && group in Solvers() && fresh(Solvers() - old(Solvers()))
      ensures group.assertions == old(group.assertions)
      ensures SoundOutcome(setup.ctx, d, o)
      ensures if o.Refuted? || o.SatValidated? then Settled(o, d) else OpenBesideMemory(d, slice)
    {
      var mem := MemSolver();
      var considered := slice + index.memIndices;
      o := SolveOn(mem, d, considered, false, slice, None, None, considered);
    }

    method WholeRung(ghost group: Solver, d: Node) returns (o: Outcome)
      requires Valid() && group in Solvers() && NoUmod(d)
      modifies `closedCache, `calls, `fullSolver, Solvers()
      ensures Valid() && group in Solvers() && fresh(Solvers() - old(Solvers()))
      ensures group.assertions == old(group.assertions)
      ensures SoundOutcome(setup.ctx, d, o) && !o.SatCandidate? && Settled(o, d)
      ensures o.UnknownOutcome? ==> Undecided(All(), d)
    {
      var full := FullSolver();
      assert All() - {} == All();
      o := SolveOn(full, d, All(), true, {}, None, None, All());
      if Thorough(setup.oneShot) && o.UnknownOutcome? {
        AllFailedStubborn(d);
      }
    }

    /** Remembers a refutation and teaches its negation to the solver of the batch. */
    method Learn(group: Solver, d: Node)
      requires Valid() && group in Solvers() && Refutes(setup.ctx, d)
      modifies `refuted, group
      ensures Valid() && refuted == old(refuted) + {d} && group.assertions == old(group.assertions) + [Not(d)]
    {
      refuted := refuted + {d};
      forall m | Sat(setup.ctx, m) ensures Holds(Not(d), m) {
        NotHolds(d, m);
      }
      assert Consequence(setup.ctx, Not(d));
      group.Add(Not(d));
    }

    // ---- The run ----

    predicate SyntacticallyFalse(k: int)
      requires 0 <= k < |disjuncts|
    {
      setup.simplify(disjuncts[k]) == BoolConst(false)
    }

    lemma SyntacticRefutes(k: int)
      requires Wired() && 0 <= k < |disjuncts| && SyntacticallyFalse(k)
      ensures Refutes(setup.ctx, disjuncts[k])
    {
      forall m ensures !Holds(disjuncts[k], m) {
        assert Eval(setup.simplify(disjuncts[k]), m) == Eval(disjuncts[k], m);
      }
    }

    /** Only syntactically false disjuncts count as refuted so far. */
    ghost predicate Untaught()
      reads this
    {
      forall d :: d in refuted ==> setup.simplify(d) == BoolConst(false)
    }

    ghost predicate AllOpen(ks: seq<int>)
      requires Indices(ks)
    {
      forall i :: 0 <= i < |ks| ==> !SyntacticallyFalse(ks[i])
    }

    /** Disjunct indices below `n` that need solving. */
    ghost function Open(n: nat): (ks: seq<int>)
      requires n <= |disjuncts|
      ensures forall k :: k in ks <==> 0 <= k < n && !SyntacticallyFalse(k)
      ensures |ks| <= n
    {
      if n == 0 then [] else Open(n - 1) + (if SyntacticallyFalse(n - 1) then [] else [n - 1])
    }

    /** Every member is filed under its variables that are not at the boundary. */
    ghost predicate GoodGroups(groups: seq<Group>) {
      forall g :: 0 <= g < |groups| ==> GoodGroup(groups[g])
    }

    ghost predicate GoodGroup(g: Group) {
      && g.seed !! index.boundary
      && forall i :: 0 <= i < |g.members| ==> 0 <= g.members[i] < |disjuncts| && g.seed == FreeVars(disjuncts[g.members[i]]) - index.boundary
    }

    lemma {:induction false} FileKeeps(groups: seq<Group>, k: int)
      requires GoodGroups(groups) && 0 <= k < |disjuncts|
      ensures GoodGroups(File(groups, index.SliceSeed(disjuncts[k]), k))
    {
      var seed := index.SliceSeed(disjuncts[k]);
      if groups != [] {
        var n := |groups| - 1;
        if groups[n].seed != seed {
          FileKeeps(groups[..n], k);
        }
      }
    }

    /** The primary rung of a disjunct and what it must hold there: the slice of its variables, or the memory argument where
        that is empty. */
    ghost predicate Routed(k: int, rung: Rung, slice: set<int>)
      requires 0 <= k < |disjuncts|
      reads index
    {
      exists cone :: IsCone(index.freeVars, FreeVars(disjuncts[k]) - index.boundary, index.Pass(), cone)
        && if cone == {} then rung.Mem? && slice == index.memIndices else rung.Arith? && slice == cone
    }

    /** Discharges syntactically false disjuncts and groups the rest by slice seed. */
    method Classify() returns (groups: seq<Group>)
      requires Valid()
      modifies `refuted, `syntactic
      ensures Valid()
      ensures multiset(MembersOf(groups)) == multiset(Open(|disjuncts|)) && GoodGroups(groups)
      ensures syntactic == old(syntactic) + |disjuncts| - |Open(|disjuncts|)| && (old(Untaught()) ==> Untaught())
    {
      groups := [];
      for k := 0 to |disjuncts|
        invariant Valid() && GoodGroups(groups)
        invariant multiset(MembersOf(groups)) == multiset(Open(k))
        invariant syntactic == old(syntactic) + k - |Open(k)| && (old(Untaught()) ==> Untaught())
      {
        if SyntacticallyFalse(k) {
          Discharge(k);
        } else {
          FileMembers(groups, index.SliceSeed(disjuncts[k]), k);
          FileKeeps(groups, k);
          groups := File(groups, index.SliceSeed(disjuncts[k]), k);
        }
      }
    }

    method Discharge(k: nat)
      requires Valid() && k < |disjuncts| && SyntacticallyFalse(k)
      modifies `refuted, `syntactic
      ensures Valid() && syntactic == old(syntactic) + 1 && (old(Untaught()) ==> Untaught())
    {
      SyntacticRefutes(k);
      syntactic := syntactic + 1;
      refuted := refuted + {disjuncts[k]};
    }

    ghost predicate GoodBatch(b: Batch)
      reads index
    {
      && b.slice <= All()
      && (b.rung.Mem? ==> b.slice == index.memIndices)
      && forall i :: 0 <= i < |b.members| ==> 0 <= b.members[i] < |disjuncts| && Routed(b.members[i], b.rung, b.slice)
    }

    /** Slices per group, batched by ascending slice size; groups without a slice share the memory
        argument and come last. */
    method MakeBatches(groups: seq<Group>) returns (batches: seq<Batch>)
      requires Valid() && GoodGroups(groups)
      modifies `sliceCache
      ensures Valid()
      ensures GoodBatches(batches)
      ensures multiset(BatchMembers(batches)) == multiset(MembersOf(groups))
    {
      hide BatchMembers, MembersOf, InsertBatch;
      NoMembers();
      batches := [];
      var memMembers: seq<int> := [];
      for g := 0 to |groups|
        invariant Valid() && AscendingSizes(batches)
        invariant forall b :: b in batches ==> GoodBatch(b) && b.rung.Arith?
        invariant MemOnly(memMembers)
        invariant multiset(BatchMembers(batches)) + multiset(memMembers) == multiset(MembersOf(groups[..g]))
      {
        var slice := GroupSlice(groups[g].seed);
        MembersSnoc(groups, g);
        GroupRouted(groups[g], slice);
        if slice == {} {
          memMembers := memMembers + groups[g].members;
        } else {
          InsertAscends(Batch(Arith, slice, groups[g].members), batches);
          InsertMembers(Batch(Arith, slice, groups[g].members), batches);
          batches := InsertBatch(Batch(Arith, slice, groups[g].members), batches);
        }
      }
      assert groups[..|groups|] == groups;
      if memMembers != [] {
        MemInRange();
        AppendMembers(batches, Batch(Mem, index.memIndices, memMembers));
        batches := batches + [Batch(Mem, index.memIndices, memMembers)];
      }
    }

    ghost predicate MemOnly(ks: seq<int>)
      reads index
    {
      forall i :: 0 <= i < |ks| ==> 0 <= ks[i] < |disjuncts| && Routed(ks[i], Mem, index.memIndices)
    }

    lemma GroupRouted(g: Group, slice: set<int>)
      requires GoodGroup(g) && IsCone(index.freeVars, g.seed - index.boundary, index.Pass(), slice)
      ensures if slice == {} then MemOnly(g.members)
              else forall i :: 0 <= i < |g.members| ==> 0 <= g.members[i] < |disjuncts| && Routed(g.members[i], Arith, slice)
    {
      hide IsCone;
      assert g.seed - index.boundary == g.seed;
    }

    lemma NoCone()
      ensures IsCone(index.freeVars, {} - index.boundary, index.Pass(), {})
    {
      var fv: seq<set<string>>, none: set<string> := index.freeVars, {};
      assert {} - index.boundary == none;
      forall path: seq<int> ensures !Chain(fv, none, index.Pass(), path) {
        assert path != [] && 0 <= path[0] < |fv| ==> fv[path[0]] * none == {};
      }
    }

    /** The slice of a group; none for a seed without variables. */
    method GroupSlice(key: set<string>) returns (slice: set<int>)
      requires Valid()
      modifies `sliceCache
      ensures Valid() && slice <= All()
      ensures IsCone(index.freeVars, key - index.boundary, index.Pass(), slice)
    {
      slice := {};
      if key != {} {
        slice := SliceFor(key);
        ConeInRange(key, slice);
      } else {
        NoCone();
      }
    }

    lemma ConeInRange(key: set<string>, slice: set<int>)
      requires Wired() && IsCone(index.freeVars, key - index.boundary, index.Pass(), slice)
      ensures slice <= All()
    {
      forall i | i in slice ensures i in All() {
        assert InCone(index.freeVars, key - index.boundary, index.Pass(), i);
      }
    }

    ghost predicate SoundVerdict(v: Verdict) {
      && (v.SatVerdict? ==> 0 <= v.disjunct < |disjuncts| && Sat(setup.ctx, v.model) && Holds(disjuncts[v.disjunct], v.model))
      && (v.UnsatVerdict? ==> forall k :: 0 <= k < |disjuncts| ==> Refutes(setup.ctx, disjuncts[k]))
    }

    /** A verdict before all disjuncts are through: a model, or a first unknown that is not collected. */
    ghost predicate Early(v: Verdict) {
      SoundVerdict(v) && (v.SatVerdict? || (v.UnknownVerdict? && collectUnknowns.None?))
    }

    ghost predicate Indices(ks: seq<int>) {
      forall i :: 0 <= i < |ks| ==> 0 <= ks[i] < |disjuncts|
    }

    /** What processing `ks` without a verdict has established: `n` of them were refuted, and the ladder gave
        up on the others, `left` in turn, which is on record. */
    ghost predicate Tally(ks: seq<int>, n: int, left: seq<int>, recorded: bool) {
      && Indices(ks)
      && 0 <= n && n + |left| == |ks|
      && (forall i :: 0 <= i < |ks| ==> ks[i] in left || Refutes(setup.ctx, disjuncts[ks[i]]))
      && multiset(left) <= multiset(ks)
      && (left != [] ==> recorded)
    }

    /** How many of `n` more entries a record of `size` takes. */
    ghost function Room(size: nat, n: nat): (r: nat)
      ensures r <= n
    {
      match collectUnknowns
      case None => 0
      case Some(cap) => if cap < 0 || size + n <= cap then n else if size < cap then cap - size else 0
    }

    /** The record after the ladder gave up on `left`: all of them, or the first that there is room for. */
    ghost function Booked(record: seq<int>, left: seq<int>): seq<int> {
      record + left[..Room(|record|, |left|)]
    }

    lemma BookedTwice(record: seq<int>, a: seq<int>, b: seq<int>)
      ensures Booked(Booked(record, a), b) == Booked(record, a + b)
    {
      var m := Room(|record|, |a|);
      var n := Room(|record| + m, |b|);
      assert n > 0 ==> m == |a|;
      TakeTwice(record, a, b, m, n);
    }

    lemma TakeTwice(record: seq<int>, a: seq<int>, b: seq<int>, m: nat, n: nat)
      requires m <= |a| && n <= |b| && (n > 0 ==> m == |a|)
      ensures (record + a[..m]) + b[..n] == record + (a + b)[..m + n]
    {
      assert (a + b)[..m + n] == a[..m] + b[..n];
    }

    /** On an empty record: the given-up ones in turn, all of them, or the first that there is room for. */
    lemma FirstRecord(left: seq<int>)
      requires NoRepeats(left)
      ensures var u := Booked([], left);
        && NoRepeats(u) && u <= left
        && (collectUnknowns.None? ==> u == [])
        && (collectUnknowns.Some? && collectUnknowns.value < 0 ==> u == left)
        && (collectUnknowns.Some? && collectUnknowns.value >= 0 ==> |u| == if |left| <= collectUnknowns.value then |left| else collectUnknowns.value)
    {
      assert [] + left[..Room(0, |left|)] == left[..Room(0, |left|)];
    }

    lemma RecordEmpty(left: seq<int>)
      ensures Booked([], left) == [] <==> left == [] || collectUnknowns.None? || collectUnknowns == Some(0)
    {
    }

    lemma BookedNone(record: seq<int>)
      ensures Booked(record, []) == record
    {
    }

    /** Nothing is added to the record of unknowns. */
    ghost predicate Unrecording() {
      Decisive(oracle) || collectUnknowns == Some(0)
    }

    /** Some unknown disjunct is on record, unless nothing is ever recorded. */
    ghost predicate Recorded()
      reads this
    {
      unknowns != [] || collectUnknowns == Some(0)
    }

    /** Taken from `ks`, each place at most once. */
    ghost predicate Drawn(left: seq<int>, ks: seq<int>) {
      multiset(left) <= multiset(ks)
    }

    lemma DrawnTogether(left: seq<int>, ks: seq<int>, more: seq<int>, ms: seq<int>)
      requires Drawn(left, ks) && Drawn(more, ms)
      ensures Drawn(left + more, ks + ms)
    {
    }

    lemma DrawnFromPrefix(left: seq<int>, ks: seq<int>, n: nat)
      requires n <= |ks| && Drawn(left, ks[..n])
      ensures Drawn(left, ks)
    {
      assert ks == ks[..n] + ks[n..];
    }

    lemma DrawnMember(left: seq<int>, ks: seq<int>, i: nat, more: seq<int>)
      requires i < |ks| && Drawn(left, ks[..i]) && Drawn(more, [ks[i]])
      ensures Drawn(left + more, ks[..i + 1]) && Drawn(left + more, ks)
    {
      DrawnTogether(left, ks[..i], more, [ks[i]]);
      assert ks[..i + 1] == ks[..i] + [ks[i]];
      DrawnFromPrefix(left + more, ks, i + 1);
    }

    /** The disjunct itself, unless it was refuted or satisfied. */
    ghost function LeftOf(v: Option<Verdict>, proved: bool, k: int): seq<int> {
      if proved || (v.Some? && v.value.SatVerdict?) then [] else [k]
    }

    /** One disjunct of a batch: `None` means go on. */
    method RunDisjunct(group: Solver, k: int, rung: Rung, considered: set<int>, slice: set<int>,
                       prefer0: Option<Strategy>, sticky0: Option<Strategy>, routed: Option<Strategy>)
      returns (v: Option<Verdict>, proved: bool, prefer: Option<Strategy>, sticky: Option<Strategy>)
      requires Valid() && group in Solvers() && 0 <= k < |disjuncts| && slice <= All()
      requires Held(setup.ctx, considered, group.assertions)
      requires Routed(k, rung, slice) && slice <= considered && (rung.Mem? ==> considered == slice)
      modifies `closedCache, `calls, `memSolver, `fullSolver, `refuted, `unknowns, Solvers()
      ensures Valid() && group in Solvers() && fresh(Solvers() - old(Solvers()))
      ensures Held(setup.ctx, considered, group.assertions)
      ensures v.Some? ==> Early(v.value)
      ensures proved ==> Refutes(setup.ctx, disjuncts[k])
      ensures v.None? && !proved ==> Recorded()
      ensures unknowns == Booked(old(unknowns), LeftOf(v, proved, k)) && (proved ==> v.None?)
      ensures |unknowns| >= |old(unknowns)|
      ensures (Decisive(oracle) && v.Some? ==> v.value.SatVerdict?) && (Unrecording() ==> unknowns == old(unknowns))
      ensures (Decisive(oracle) ==> proved || v.Some?) && GaveUpOn(LeftOf(v, proved, k))
      ensures Mute() && old(Untaught()) && !SyntacticallyFalse(k) ==> Untaught() && !proved && (v.Some? ==> v.value.UnknownVerdict?)
      ensures disjuncts[k] in old(refuted) ==> proved
    {
      if disjuncts[k] in refuted {
        return None, true, prefer0, sticky0;
      }
      var via: Option<Strategy>;
      v, proved, via := SolveDisjunct(group, k, rung, considered, slice, if prefer0.Some? then prefer0 else routed, sticky0);
      prefer := via;
      sticky := if via.Some? then via else sticky0;
    }

    /** A disjunct not yet refuted climbs the ladder. */
    method SolveDisjunct(group: Solver, k: int, rung: Rung, considered: set<int>, slice: set<int>,
                         first: Option<Strategy>, sticky: Option<Strategy>)
      returns (v: Option<Verdict>, proved: bool, via: Option<Strategy>)
      requires Valid() && group in Solvers() && 0 <= k < |disjuncts| && slice <= All()
      requires Held(setup.ctx, considered, group.assertions)
      requires Routed(k, rung, slice) && slice <= considered && (rung.Mem? ==> considered == slice)
      modifies `closedCache, `calls, `memSolver, `fullSolver, `refuted, `unknowns, Solvers()
      ensures Valid() && group in Solvers() && fresh(Solvers() - old(Solvers()))
      ensures Held(setup.ctx, considered, group.assertions)
      ensures v.Some? ==> Early(v.value)
      ensures proved ==> Refutes(setup.ctx, disjuncts[k])
      ensures v.None? && !proved ==> Recorded()
      ensures unknowns == Booked(old(unknowns), LeftOf(v, proved, k)) && (proved ==> v.None?)
      ensures |unknowns| >= |old(unknowns)|
      ensures (Decisive(oracle) && v.Some? ==> v.value.SatVerdict?) && (Unrecording() ==> unknowns == old(unknowns))
      ensures (Decisive(oracle) ==> proved || v.Some?) && GaveUpOn(LeftOf(v, proved, k))
      ensures Mute() ==> !proved && refuted == old(refuted) && (v.Some? ==> v.value.UnknownVerdict?)
    {
      hide Consequences, SolversOk, CachesOk, Held, Early, Recorded, Routed, OnEveryRung, Exhausted, GaveUpOn, Undecided, Stubborn, Valid, Ready, Wired;
      DisjunctIsPlain(k);
      var o := Ladder(group, disjuncts[k], rung, considered, slice, first, sticky);
      LeftExhausted(o, k, rung, considered, slice);
      via := if o.Refuted? then o.via else None;
      proved := o.Refuted?;
      v := Settle(group, k, o, considered);
    }

    lemma DisjunctIsPlain(k: int)
      requires Valid() && 0 <= k < |disjuncts|
      ensures NoUmod(disjuncts[k]) && |setup.freeVars| == |setup.ctx|
    {
      assert disjuncts[k] in disjuncts;
    }

    /** Books the outcome of a disjunct. */
    method Settle(group: Solver, k: int, o: Outcome, ghost considered: set<int>) returns (v: Option<Verdict>)
      requires Valid() && group in Solvers() && 0 <= k < |disjuncts|
      requires SoundOutcome(setup.ctx, disjuncts[k], o) && !o.SatCandidate?
      requires Held(setup.ctx, considered, group.assertions)
      modifies `refuted, `unknowns, group
      ensures Valid() && Held(setup.ctx, considered, group.assertions)
      ensures v.Some? ==> Early(v.value)
      ensures v.None? && !o.Refuted? ==> Recorded()
      ensures o.Refuted? ==> v.None?
      ensures unknowns == Booked(old(unknowns), if o.UnknownOutcome? then [k] else [])
      ensures |unknowns| >= |old(unknowns)|
      ensures !o.UnknownOutcome? ==> (v.Some? ==> v.value.SatVerdict?) && unknowns == old(unknowns)
      ensures v.None? ==> o.Refuted? || o.UnknownOutcome?
      ensures o.UnknownOutcome? ==> (v.Some? ==> v.value.UnknownVerdict?) && refuted == old(refuted)
      ensures collectUnknowns == Some(0) ==> unknowns == old(unknowns)
    {
      v := None;
      if o.Refuted? {
        Learn(group, disjuncts[k]);
      } else if o.SatValidated? {
        v := Some(SatVerdict(o.model, k));
      } else if collectUnknowns.None? {
        v := Some(UnknownVerdict);
      } else if collectUnknowns.value < 0 || |unknowns| < collectUnknowns.value {
        unknowns := unknowns + [k];
      }
    }

    /** All disjuncts of a batch on its group solver. */
    method RunBatch(b: Batch, router: int -> Option<Strategy>) returns (v: Option<Verdict>, n: nat, ghost left: seq<int>)
      requires Valid() && GoodBatch(b) && Indices(b.members)
      modifies this, Solvers()
      ensures Valid() && fresh(Solvers() - old(Solvers()))
      ensures v.Some? ==> Early(v.value)
      ensures v.None? ==> Tally(b.members, n, left, Recorded())
      ensures |unknowns| >= |old(unknowns)| && syntactic == old(syntactic)
      ensures (Decisive(oracle) && v.Some? ==> v.value.SatVerdict?) && (Unrecording() ==> unknowns == old(unknowns))
      ensures v.Some? ==> b.members != []
      ensures unknowns == Booked(old(unknowns), left) && Drawn(left, b.members)
      ensures v.Some? && !v.value.SatVerdict? ==> left != []
      ensures GaveUpOn(left)
      ensures Mute() && old(Untaught()) && AllOpen(b.members) ==> NothingDecided(v, n)
    {
      hide Early, CachesOk, SolversOk, Tally, Held, GaveUpOn;
      var group, considered := GroupSolver(b);
      v, n, left := RunMembers(group, b, considered, router);
    }

    /** How far a check without any decision gets. */
    ghost predicate NothingDecided(v: Option<Verdict>, n: int)
      reads this
    {
      Untaught() && (if v.Some? then v.value.UnknownVerdict? else n == 0)
    }

    /** The solver of a batch and what it holds. */
    method GroupSolver(b: Batch) returns (group: Solver, considered: set<int>)
      requires Valid() && GoodBatch(b)
      modifies `growSolver, `growResident, `memSolver, Solvers()
      ensures Valid() && group in Solvers() && fresh(Solvers() - old(Solvers()))
      ensures Held(setup.ctx, considered, group.assertions) && b.slice <= considered && (b.rung.Mem? ==> considered == b.slice)
    {
      hide Early, CachesOk, SolversOk, Held, Solvers;
      if b.rung.Arith? {
        group, considered := GrowSolverFor(b.slice);
      } else {
        group := MemSolver();
        considered := b.slice;
      }
      ResidentAsserted();
    }

    lemma ResidentAsserted()
      requires Valid()
      ensures growSolver != null ==> Held(setup.ctx, growResident, growSolver.assertions)
      ensures memSolver != null ==> Held(setup.ctx, index.memIndices, memSolver.assertions)
    {
    }

    method RunMembers(group: Solver, b: Batch, considered: set<int>, router: int -> Option<Strategy>)
      returns (v: Option<Verdict>, n: nat, ghost left: seq<int>)
      requires Valid() && group in Solvers() && b.slice <= All() && Indices(b.members)
      requires Held(setup.ctx, considered, group.assertions)
      requires GoodBatch(b) && b.slice <= considered && (b.rung.Mem? ==> considered == b.slice)
      modifies `closedCache, `calls, `memSolver, `fullSolver, `refuted, `unknowns, Solvers()
      ensures Valid() && fresh(Solvers() - old(Solvers()))
      ensures v.Some? ==> Early(v.value)
      ensures v.None? ==> Tally(b.members, n, left, Recorded())
      ensures |unknowns| >= |old(unknowns)|
      ensures (Decisive(oracle) && v.Some? ==> v.value.SatVerdict?) && (Unrecording() ==> unknowns == old(unknowns))
      ensures v.Some? ==> b.members != []
      ensures unknowns == Booked(old(unknowns), left) && Drawn(left, b.members)
      ensures v.Some? && !v.value.SatVerdict? ==> left != []
      ensures GaveUpOn(left)
      ensures Mute() && old(Untaught()) && AllOpen(b.members) ==> NothingDecided(v, n)
    {
      hide Early, CachesOk, SolversOk, Held, Tally, Booked, Drawn, GaveUpOn, GoodBatch, Routed, Valid, Ready, Wired;
      v, n, left := None, 0, [];
      BookedNone(unknowns);
      GaveUpOnNone();
      NothingDrawn();
      var prefer: Option<Strategy>, sticky: Option<Strategy> := None, None;
      NothingTallied(Recorded());
      for i := 0 to |b.members|
        invariant Valid() && group in Solvers() && fresh(Solvers() - old(Solvers()))
        invariant Held(setup.ctx, considered, group.assertions) && v.None?
        invariant Tally(b.members[..i], n, left, Recorded()) && |unknowns| >= |old(unknowns)|
        invariant (Unrecording() ==> unknowns == old(unknowns)) && GaveUpOn(left)
        invariant unknowns == Booked(old(unknowns), left) && Drawn(left, b.members[..i])
        invariant Mute() && old(Untaught()) && AllOpen(b.members) ==> NothingDecided(v, n)
      {
        ghost var more;
        v, n, more, prefer, sticky := RunNext(group, b, i, n, left, considered, prefer, sticky, router);
        BookedTwice(old(unknowns), left, more);
        DrawnMember(left, b.members, i, more);
        GaveUpOnBoth(left, more);
        left := left + more;
        if v.Some? {
          return;
        }
      }
      assert b.members[..|b.members|] == b.members;
    }

    lemma NothingTallied(recorded: bool)
      ensures Tally([], 0, [], recorded)
    {
    }

    /** Member `i` of a batch, and the count of refuted members so far. */
    method RunNext(group: Solver, b: Batch, i: nat, n0: nat, ghost left0: seq<int>, considered: set<int>,
                   prefer0: Option<Strategy>, sticky0: Option<Strategy>, router: int -> Option<Strategy>)
      returns (v: Option<Verdict>, n: nat, ghost more: seq<int>, prefer: Option<Strategy>, sticky: Option<Strategy>)
      requires Valid() && group in Solvers() && b.slice <= All() && Indices(b.members) && i < |b.members|
      requires Held(setup.ctx, considered, group.assertions) && Tally(b.members[..i], n0, left0, Recorded())
      requires GoodBatch(b) && b.slice <= considered && (b.rung.Mem? ==> considered == b.slice)
      modifies `closedCache, `calls, `memSolver, `fullSolver, `refuted, `unknowns, Solvers()
      ensures Valid() && group in Solvers() && fresh(Solvers() - old(Solvers()))
      ensures Held(setup.ctx, considered, group.assertions)
      ensures v.Some? ==> Early(v.value)
      ensures v.None? ==> Tally(b.members[..i + 1], n, left0 + more, Recorded())
      ensures Drawn(more, [b.members[i]]) && (v.Some? && !v.value.SatVerdict? ==> more != [])
      ensures |unknowns| >= |old(unknowns)|
      ensures (Decisive(oracle) && v.Some? ==> v.value.SatVerdict?) && (Unrecording() ==> unknowns == old(unknowns))
      ensures Mute() && old(Untaught()) && AllOpen(b.members) && n0 == 0 ==> NothingDecided(v, n)
      ensures unknowns == Booked(old(unknowns), more)
      ensures GaveUpOn(more)
    {
      hide Early, CachesOk, SolversOk, Held, Tally, Booked, GaveUpOn, GoodBatch, Routed, Valid;
      MemberRouted(b, i);
      ghost var recorded := Recorded();
      var k, proved := b.members[i], false;
      v, proved, prefer, sticky := RunDisjunct(group, k, b.rung, considered, b.slice, prefer0, sticky0, router(k));
      n := if proved then n0 + 1 else n0;
      more := LeftOf(v, proved, k);
      assert b.members[..i + 1] == b.members[..i] + [k];
      if v.None? {
        OneMore(b.members[..i], n0, left0, recorded, k, proved, Recorded());
      }
    }

    lemma MemberRouted(b: Batch, i: nat)
      requires GoodBatch(b) && i < |b.members|
      ensures 0 <= b.members[i] < |disjuncts| && Routed(b.members[i], b.rung, b.slice)
    {
    }

    lemma OneMore(ks: seq<int>, n: int, left: seq<int>, before: bool, k: int, proved: bool, after: bool)
      requires Tally(ks, n, left, before) && 0 <= k < |disjuncts| && (before ==> after)
      requires if proved then Refutes(setup.ctx, disjuncts[k]) else after
      ensures Tally(ks + [k], if proved then n + 1 else n, left + if proved then [] else [k], after)
    {
      assert proved ==> left + [] == left;
    }

    lemma JoinTallies(flat: seq<int>, n: int, left: seq<int>, before: bool, more: seq<int>, n': int, left': seq<int>, after: bool)
      requires Tally(flat, n, left, before) && Tally(more, n', left', after) && (before ==> after)
      ensures Tally(flat + more, n + n', left + left', after)
    {
    }

    lemma MembersInRange(batches: seq<Batch>)
      requires multiset(BatchMembers(batches)) == multiset(Open(|disjuncts|))
      ensures Indices(BatchMembers(batches)) && |BatchMembers(batches)| == |Open(|disjuncts|)|
      ensures forall k :: 0 <= k < |disjuncts| && !SyntacticallyFalse(k) ==> k in BatchMembers(batches)
      ensures AllOpen(BatchMembers(batches))
    {
      var flat, open := BatchMembers(batches), Open(|disjuncts|);
      assert |flat| == |multiset(flat)| && |open| == |multiset(open)|;
      forall i | 0 <= i < |flat| ensures 0 <= flat[i] < |disjuncts| && !SyntacticallyFalse(flat[i]) {
        assert flat[i] in multiset(flat);
        assert flat[i] in open;
      }
      forall k | 0 <= k < |disjuncts| && !SyntacticallyFalse(k) ensures k in flat {
        assert k in open;
        assert k in multiset(open);
      }
    }

    /** Every disjunct was discharged syntactically, refuted in its batch, or left. */
    lemma AllRefuted(flat: seq<int>, n: int, left: seq<int>, recorded: bool)
      requires Wired() && Tally(flat, n, left, recorded)
      requires forall k :: 0 <= k < |disjuncts| && !SyntacticallyFalse(k) ==> k in flat
      ensures forall k :: 0 <= k < |disjuncts| ==> k in left || Refutes(setup.ctx, disjuncts[k])
    {
      forall k | 0 <= k < |disjuncts| ensures k in left || Refutes(setup.ctx, disjuncts[k]) {
        if SyntacticallyFalse(k) {
          SyntacticRefutes(k);
        } else {
          var i :| 0 <= i < |flat| && flat[i] == k;
        }
      }
    }

    /** The verdict in terms of the goal disjunction. */
    lemma VerdictOnGoal(v: Verdict)
      requires SoundVerdict(v)
      ensures v.UnsatVerdict? ==> Refutes(setup.ctx, App(OrOp, disjuncts))
      ensures v.SatVerdict? ==> Sat(setup.ctx, v.model) && Holds(App(OrOp, disjuncts), v.model)
    {
      forall m ensures Holds(App(OrOp, disjuncts), m) <==> exists k :: 0 <= k < |disjuncts| && Holds(disjuncts[k], m) {
        OrHolds(disjuncts, m);
      }
    }

    /** The checker has not run yet. */
    ghost predicate Unused()
      reads this
    {
      syntactic == 0 && unknowns == [] && refuted == {}
    }

    /** The verdict when no solver call ever decides. */
    ghost function MuteVerdict(): Verdict {
      if forall k :: 0 <= k < |disjuncts| ==> setup.simplify(disjuncts[k]) == BoolConst(false) then UnsatVerdict
      else if collectUnknowns == Some(0) then Aborted else UnknownVerdict
    }

    lemma {:induction false} OpenOnce(n: nat, k: int)
      requires n <= |disjuncts|
      ensures multiset(Open(n))[k] <= 1
    {
      if n > 0 {
        OpenOnce(n - 1, k);
        var ks, last := Open(n - 1), if SyntacticallyFalse(n - 1) then [] else [n - 1];
        assert Open(n) == ks + last && n - 1 !in ks;
        hide Open, SyntacticallyFalse;
        CountIn(ks, last, k);
      }
    }

    lemma CountIn(ks: seq<int>, last: seq<int>, k: int)
      requires |last| <= 1 && multiset(ks)[k] <= 1 && (k in last ==> k !in ks)
      ensures multiset(ks + last)[k] <= 1
    {
      assert k !in ks ==> multiset(ks)[k] == 0;
      assert last == [] || last == [last[0]];
    }

    /** None of these simplifies to false. */
    ghost predicate NoneDischarged(ks: seq<int>)
      requires Indices(ks)
    {
      forall i :: 0 <= i < |ks| ==> setup.simplify(disjuncts[ks[i]]) != BoolConst(false)
    }

    /** What the ladder gave up on are open disjuncts, each once. */
    lemma LeftAreOpen(left: seq<int>, flat: seq<int>)
      requires Drawn(left, flat) && multiset(flat) == multiset(Open(|disjuncts|))
      ensures NoRepeats(left) && Indices(left) && NoneDischarged(left)
    {
      var open := Open(|disjuncts|);
      forall i | 0 <= i < |left| ensures left[i] in open {
        assert left[i] in multiset(left);
        assert left[i] in multiset(open);
      }
      forall i, j | 0 <= i < j < |left| ensures left[i] != left[j] {
        OpenOnce(|disjuncts|, left[i]);
        if left[i] == left[j] {
          TwiceCounts(left, i, j);
        }
      }
    }

    /** The whole check.  A verdict is right on every run.  `left` are the disjuncts on which the ladder gave up, in turn,
        and the record of unknowns says just them, as far as it goes.  The abort stands for the failing count at the end:
        on a first run it comes exactly when some are left, none was satisfied, and none may be recorded.  With a solver
        that always decides a first run leaves none and decides; with a one-shot solver that refutes all it can, only
        stubborn disjuncts are left. */
    method Run(router: int -> Option<Strategy>) returns (v: Verdict, ghost left: seq<int>)
      requires Valid()
      modifies this, Solvers()
      ensures Valid() && fresh(Solvers() - old(Solvers()))
      ensures v.SatVerdict? ==> SoundVerdict(v)
      ensures v.UnsatVerdict? && (old(syntactic) == 0 || collectUnknowns != Some(0)) ==> SoundVerdict(v)
      ensures v.Aborted? ==> old(syntactic) > 0 || collectUnknowns == Some(0)
      ensures unknowns == Booked(old(unknowns), left) && NoRepeats(left) && Indices(left) && NoneDischarged(left)
      ensures old(Unused()) && !v.SatVerdict? ==>
        v == if left == [] then UnsatVerdict else if collectUnknowns == Some(0) then Aborted else UnknownVerdict
      ensures v.UnsatVerdict? || v.Aborted? ==> forall k :: 0 <= k < |disjuncts| ==> k in left || Refutes(setup.ctx, disjuncts[k])
      ensures GaveUpOn(left) && (Decisive(oracle) && old(unknowns) == [] ==> !v.UnknownVerdict?)
      ensures Decisive(oracle) && old(Unused()) ==> left == [] && (v.SatVerdict? || v.UnsatVerdict?)
      ensures Mute() && old(Unused()) ==> v == MuteVerdict()
    {
      hide SoundVerdict, CachesOk, SolversOk, Tally, SyntacticallyFalse, MuteVerdict, Drawn, NoRepeats, Booked, BatchMembers, Open, GaveUpOn, NoneDischarged, AllOpen, GoodBatches;
      var batches := PlanBatches();
      var r, n;
      r, n, left := RunBatches(batches, router);
      ghost var flat := BatchMembers(batches);
      MuteVerdictIs(flat);
      LeftAreOpen(left, flat);
      DecidedAll(left);
      RecordEmpty(left);
      if r.Some? {
        v := r.value;
      } else {
        LeftWhenNothingProved(flat, n, left, Recorded());
        v := Conclude(flat, n, left);
      }
    }

    lemma MuteVerdictIs(flat: seq<int>)
      requires Indices(flat) && AllOpen(flat) && forall k :: 0 <= k < |disjuncts| && !SyntacticallyFalse(k) ==> k in flat
      ensures MuteVerdict() == if flat == [] then UnsatVerdict else if collectUnknowns == Some(0) then Aborted else UnknownVerdict
    {
      forall k | 0 <= k < |disjuncts| && setup.simplify(disjuncts[k]) != BoolConst(false) ensures flat != [] {
        assert !SyntacticallyFalse(k);
      }
      if flat != [] {
        assert !SyntacticallyFalse(flat[0]);
      }
    }

    lemma LeftWhenNothingProved(flat: seq<int>, n: int, left: seq<int>, recorded: bool)
      requires Tally(flat, n, left, recorded)
      ensures n == 0 && flat != [] ==> left != [] && recorded
      ensures flat == [] && n >= 0 ==> left == []
      ensures left != [] ==> recorded
    {
    }

    /** Everything before the first solver call: which disjuncts are left, and in what order. */
    method PlanBatches() returns (batches: seq<Batch>)
      requires Valid()
      modifies `refuted, `syntactic, `sliceCache
      ensures Valid() && GoodBatches(batches) && Indices(BatchMembers(batches)) && AllOpen(BatchMembers(batches))
      ensures forall k :: 0 <= k < |disjuncts| && !SyntacticallyFalse(k) ==> k in BatchMembers(batches)
      ensures syntactic == old(syntactic) + |disjuncts| - |BatchMembers(batches)| && (old(Untaught()) ==> Untaught())
      ensures multiset(BatchMembers(batches)) == multiset(Open(|disjuncts|))
    {
      var groups := Classify();
      batches := MakeBatches(groups);
      MembersInRange(batches);
    }

    /** The verdict after all batches. */
    method Conclude(ghost flat: seq<int>, n: nat, ghost left: seq<int>) returns (v: Verdict)
      requires Wired() && Tally(flat, n, left, Recorded())
      requires forall k :: 0 <= k < |disjuncts| && !SyntacticallyFalse(k) ==> k in flat
      ensures !v.SatVerdict?
      ensures v.UnsatVerdict? && (syntactic + |flat| == |disjuncts| || collectUnknowns != Some(0)) ==> SoundVerdict(v)
      ensures v.Aborted? ==> syntactic + |flat| != |disjuncts| || collectUnknowns == Some(0)
      ensures syntactic + |flat| == |disjuncts| ==> (v.Aborted? <==> unknowns == [] && left != [])
      ensures forall k :: 0 <= k < |disjuncts| ==> k in left || Refutes(setup.ctx, disjuncts[k])
      ensures v.UnknownVerdict? <==> unknowns != []
    {
      AllRefuted(flat, n, left, Recorded());
      if unknowns != [] {
        v := UnknownVerdict;
      } else if syntactic + n == |disjuncts| {
        v := UnsatVerdict;
      } else {
        v := Aborted;
      }
    }

    ghost predicate GoodBatches(batches: seq<Batch>)
      reads index
    {
      forall i :: 0 <= i < |batches| ==> GoodBatch(batches[i])
    }

    method RunBatches(batches: seq<Batch>, router: int -> Option<Strategy>) returns (v: Option<Verdict>, n: nat, ghost left: seq<int>)
      requires Valid() && GoodBatches(batches) && Indices(BatchMembers(batches)) && AllOpen(BatchMembers(batches))
      modifies this, Solvers()
      ensures Valid() && fresh(Solvers() - old(Solvers())) && syntactic == old(syntactic)
      ensures v.Some? ==> Early(v.value)
      ensures v.None? ==> Tally(BatchMembers(batches), n, left, Recorded())
      ensures (Decisive(oracle) && v.Some? ==> v.value.SatVerdict?) && (Unrecording() ==> unknowns == old(unknowns))
      ensures v.Some? ==> BatchMembers(batches) != []
      ensures unknowns == Booked(old(unknowns), left) && Drawn(left, BatchMembers(batches))
      ensures v.Some? && !v.value.SatVerdict? ==> left != []
      ensures GaveUpOn(left)
      ensures Mute() && old(Untaught()) ==> NothingDecided(v, n)
    {
      hide Early, CachesOk, SolversOk, Tally, Booked, Drawn, BatchMembers, GaveUpOn;
      v, n, left := None, 0, [];
      BookedNone(unknowns);
      GaveUpOnNone();
      NoMembers();
      NothingDrawn();
      NothingTallied(Recorded());
      for i := 0 to |batches|
        invariant Valid() && fresh(Solvers() - old(Solvers())) && syntactic == old(syntactic) && v.None?
        invariant Tally(BatchMembers(batches[..i]), n, left, Recorded())
        invariant (Unrecording() ==> unknowns == old(unknowns)) && GaveUpOn(left)
        invariant unknowns == Booked(old(unknowns), left) && Drawn(left, BatchMembers(batches[..i]))
        invariant Mute() && old(Untaught()) ==> NothingDecided(v, n)
      {
        ghost var more;
        v, n, more := NextBatch(batches, i, n, left, router);
        BookedTwice(old(unknowns), left, more);
        DrawnThrough(left, batches, i, more);
        GaveUpOnBoth(left, more);
        left := left + more;
        if v.Some? {
          return;
        }
      }
      assert batches[..|batches|] == batches;
    }

    /** Batch `i`, and the count of refuted members so far. */
    method NextBatch(batches: seq<Batch>, i: nat, n0: nat, ghost left0: seq<int>, router: int -> Option<Strategy>)
      returns (v: Option<Verdict>, n: nat, ghost more: seq<int>)
      requires Valid() && GoodBatches(batches) && Indices(BatchMembers(batches)) && AllOpen(BatchMembers(batches)) && i < |batches|
      requires Tally(BatchMembers(batches[..i]), n0, left0, Recorded())
      modifies this, Solvers()
      ensures Valid() && fresh(Solvers() - old(Solvers())) && syntactic == old(syntactic)
      ensures v.Some? ==> Early(v.value)
      ensures v.None? ==> Tally(BatchMembers(batches[..i + 1]), n, left0 + more, Recorded())
      ensures Drawn(more, batches[i].members) && (v.Some? && !v.value.SatVerdict? ==> more != [])
      ensures (Decisive(oracle) && v.Some? ==> v.value.SatVerdict?) && (Unrecording() ==> unknowns == old(unknowns))
      ensures v.Some? ==> BatchMembers(batches) != []
      ensures unknowns == Booked(old(unknowns), more)
      ensures GaveUpOn(more)
      ensures Mute() && old(Untaught()) && n0 == 0 ==> NothingDecided(v, n)
    {
      hide Early, CachesOk, SolversOk, Tally, SyntacticallyFalse, Booked, Drawn, BatchMembers, GaveUpOn;
      ghost var recorded := Recorded();
      MembersWithin(batches, i);
      v, n, more := RunBatch(batches[i], router);
      if v.None? {
        assert batches[..i + 1] == batches[..i] + [batches[i]];
        AppendMembers(batches[..i], batches[i]);
        JoinTallies(BatchMembers(batches[..i]), n0, left0, recorded, batches[i].members, n, more, Recorded());
        n := n0 + n;
      }
    }

    lemma NothingDrawn()
      ensures Drawn([], [])
    {
    }

    lemma DrawnThrough(left: seq<int>, batches: seq<Batch>, i: nat, more: seq<int>)
      requires i < |batches| && Drawn(left, BatchMembers(batches[..i])) && Drawn(more, batches[i].members)
      ensures Drawn(left + more, BatchMembers(batches[..i + 1])) && Drawn(left + more, BatchMembers(batches))
    {
      hide BatchMembers;
      DrawnTogether(left, BatchMembers(batches[..i]), more, batches[i].members);
      assert batches[..i + 1] == batches[..i] + [batches[i]];
      AppendMembers(batches[..i], batches[i]);
      BatchSplits(batches, i);
      var pre, rest := BatchMembers(batches[..i]) + batches[i].members, BatchMembers(batches[i + 1..]);
      assert (pre + rest)[..|pre|] == pre;
      DrawnFromPrefix(left + more, pre + rest, |pre|);
    }

    lemma MembersWithin(batches: seq<Batch>, i: nat)
      requires i < |batches| && Indices(BatchMembers(batches)) && AllOpen(BatchMembers(batches))
      ensures Indices(batches[i].members) && AllOpen(batches[i].members)
      ensures batches[i].members != [] ==> BatchMembers(batches) != []
    {
      hide SyntacticallyFalse, BatchMembers;
      BatchSplits(batches, i);
      var all, pre, mid := BatchMembers(batches), BatchMembers(batches[..i]), batches[i].members;
      forall j | 0 <= j < |mid| ensures 0 <= mid[j] < |disjuncts| && !SyntacticallyFalse(mid[j]) {
        assert all[|pre| + j] == mid[j];
      }
    }
  }

  function GivesUp(calls: nat, fs: seq<Node>): Answer {
    UnknownAnswer
  }

  /** A first run that aborts: unknown disjuncts may not be recorded, and the solver gives up on one. */
  method CapZeroAborts() returns (v: Verdict)
    ensures v.Aborted?
  {
    var setup := Setup([], [], f => f, (n, m) => map[], GivesUp, Budgets(1, 1, 1, 2.0, false));
    var c := new Checker(setup, GivesUp, [Sym("x")], {}, Some(0));
    assert !c.SyntacticallyFalse(0);
    ghost var left;
    v, left := c.Run(k => None);
  }

  predicate NoRepeats(ks: seq<int>) {
    forall i, j :: 0 <= i < j < |ks| ==> ks[i] != ks[j]
  }

  lemma TwiceCounts(ks: seq<int>, i: nat, j: nat)
    requires i < j < |ks| && ks[i] == ks[j]
    ensures multiset(ks)[ks[i]] >= 2
  {
    assert ks == ks[..j] + ks[j..];
    assert ks[..j][i] == ks[i] && ks[j..][0] == ks[i];
    assert multiset(ks) == multiset(ks[..j]) + multiset(ks[j..]);
    assert ks[i] in ks[..j] && ks[i] in ks[j..];
  }

  function Drop(all: seq<Strategy>, st: Strategy): seq<Strategy> {
    if all == [] then [] else (if all[0] == st then [] else [all[0]]) + Drop(all[1..], st)
  }

  lemma {:induction false} AppendMembers(bs: seq<Batch>, b: Batch)
    ensures BatchMembers(bs + [b]) == BatchMembers(bs) + b.members
  {
    if bs == [] {
      assert bs + [b] == [b];
    } else {
      assert (bs + [b])[1..] == bs[1..] + [b];
      AppendMembers(bs[1..], b);
    }
  }

  lemma {:induction false} BatchSplits(bs: seq<Batch>, i: nat)
    requires i < |bs|
    ensures BatchMembers(bs) == BatchMembers(bs[..i]) + bs[i].members + BatchMembers(bs[i + 1..])
  {
    if i > 0 {
      BatchSplits(bs[1..], i - 1);
      assert bs[1..][..i - 1] == bs[..i][1..];
      assert bs[1..][i..] == bs[i + 1..];
    } else {
      assert bs[..0] == [];
    }
  }

  lemma OrHolds(fs: seq<Node>, m: Model)
    ensures Holds(App(OrOp, fs), m) <==> exists k :: 0 <= k < |fs| && Holds(fs[k], m)
  {
    var vs := EvalAll(fs, m);
    assert Eval(App(OrOp, fs), m) == Apply(OrOp, vs, m);
    if k :| 0 <= k < |fs| && Holds(fs[k], m) {
      assert AsBool(vs[k]);
    }
    if Holds(App(OrOp, fs), m) {
      var k :| 0 <= k < |vs| && AsBool(vs[k]);
      assert Holds(fs[k], m);
    }
  }
}
