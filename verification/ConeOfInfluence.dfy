/** Slices of a constraint list: the constraints a formula can influence without passing through
    boundary variables, by an index and by rescanning. */
module ConeOfInfluence {
  import opened Smt
  import opened Sets

  // ---- Specification: chains of constraints ----

  ghost predicate Share(fv: seq<set<string>>, pass: set<string>, i: int, j: int) {
    0 <= i < |fv| && 0 <= j < |fv| && fv[i] * fv[j] * pass != {}
  }

  /** `path` starts at a constraint mentioning a start variable and steps along passing variables. */
  ghost predicate Chain(fv: seq<set<string>>, start: set<string>, pass: set<string>, path: seq<int>) {
    && path != []
    && (forall k :: 0 <= k < |path| ==> 0 <= path[k] < |fv|)
    && fv[path[0]] * start != {}
    && (forall k :: 0 < k < |path| ==> Share(fv, pass, path[k - 1], path[k]))
  }

  ghost predicate InCone(fv: seq<set<string>>, start: set<string>, pass: set<string>, i: int) {
    exists path :: Chain(fv, start, pass, path) && path[|path| - 1] == i
  }

  ghost predicate ClosedCone(fv: seq<set<string>>, start: set<string>, pass: set<string>, picked: set<int>) {
    && (forall i :: 0 <= i < |fv| && fv[i] * start != {} ==> i in picked)
    && (forall i, j :: i in picked && Share(fv, pass, i, j) ==> j in picked)
  }

  /** `picked` is exactly the cone. */
  ghost predicate IsCone(fv: seq<set<string>>, start: set<string>, pass: set<string>, picked: set<int>) {
    forall i :: i in picked <==> InCone(fv, start, pass, i)
  }

  lemma {:induction false} ChainStays(fv: seq<set<string>>, start: set<string>, pass: set<string>, picked: set<int>, path: seq<int>)
    requires ClosedCone(fv, start, pass, picked) && Chain(fv, start, pass, path)
    ensures path[|path| - 1] in picked
  {
    if |path| > 1 {
      var shorter := path[..|path| - 1];
      assert forall k :: 0 < k < |shorter| ==> Share(fv, pass, shorter[k - 1], shorter[k]) by {
        forall k | 0 < k < |shorter| ensures Share(fv, pass, shorter[k - 1], shorter[k]) {
          assert Share(fv, pass, path[k - 1], path[k]);
        }
      }
      ChainStays(fv, start, pass, picked, shorter);
      assert Share(fv, pass, path[|path| - 2], path[|path| - 1]);
    }
  }

  lemma StartInCone(fv: seq<set<string>>, start: set<string>, pass: set<string>, i: int)
    requires 0 <= i < |fv| && fv[i] * start != {}
    ensures InCone(fv, start, pass, i)
  {
    assert Chain(fv, start, pass, [i]);
  }

  lemma StepInCone(fv: seq<set<string>>, start: set<string>, pass: set<string>, i: int, j: int)
    requires InCone(fv, start, pass, i) && Share(fv, pass, i, j)
    ensures InCone(fv, start, pass, j)
  {
    var path :| Chain(fv, start, pass, path) && path[|path| - 1] == i;
    var longer := path + [j];
    forall k | 0 < k < |longer| ensures Share(fv, pass, longer[k - 1], longer[k]) {
      assert k < |path| ==> Share(fv, pass, path[k - 1], path[k]);
    }
    assert Chain(fv, start, pass, longer) && longer[|longer| - 1] == j;
  }

  /** The cone is the least closed set. */
  lemma LeastClosedIsCone(fv: seq<set<string>>, start: set<string>, pass: set<string>, picked: set<int>)
    requires ClosedCone(fv, start, pass, picked)
    requires forall i :: i in picked ==> InCone(fv, start, pass, i)
    ensures IsCone(fv, start, pass, picked)
  {
    forall i | InCone(fv, start, pass, i) ensures i in picked {
      var path :| Chain(fv, start, pass, path) && path[|path| - 1] == i;
      ChainStays(fv, start, pass, picked, path);
    }
  }

  lemma ConeIsUnique(fv: seq<set<string>>, start: set<string>, pass: set<string>, a: set<int>, b: set<int>)
    requires IsCone(fv, start, pass, a) && IsCone(fv, start, pass, b)
    ensures a == b
  {
    forall i | i in a ensures i in b {
      assert InCone(fv, start, pass, i);
    }
    forall i | i in b ensures i in a {
      assert InCone(fv, start, pass, i);
    }
    SameSet(a, b);
  }

  function FreeVarsOf(cs: seq<Node>): (fv: seq<set<string>>)
    ensures |fv| == |cs|
  {
    seq(|cs|, i requires 0 <= i < |cs| => FreeVars(cs[i]))
  }

  function AllVars(fv: seq<set<string>>): set<string> {
    set i, x | 0 <= i < |fv| && x in fv[i] :: x
  }

  // ---- The inverted index ----

  predicate Has(var2c: map<string, seq<int>>, v: string, i: int) {
    v in var2c && i in var2c[v]
  }

  ghost predicate Mentions(fv: seq<set<string>>, v: string, i: int) {
    0 <= i < |fv| && v in fv[i]
  }

  /** The index lists, under every variable, the constraints below `n` that mention it. */
  ghost predicate Lists(fv: seq<set<string>>, var2c: map<string, seq<int>>, n: int) {
    && (forall v, i :: Has(var2c, v, i) ==> i < n && Mentions(fv, v, i))
    && (forall v, i :: i < n && Mentions(fv, v, i) ==> Has(var2c, v, i))
  }

  class ConstraintIndex {
    const constraints: seq<Node>
    const boundary: set<string>
    const freeVars: seq<set<string>>
    var var2c: map<string, seq<int>>
    var memIndices: set<int>

    ghost predicate Valid()
      reads this
    {
      && freeVars == FreeVarsOf(constraints)
      && Lists(freeVars, var2c, |freeVars|)
      && (forall i :: i in memIndices <==> 0 <= i < |freeVars| && freeVars[i] * boundary != {})
    }

    /** Variables the cone passes through. */
    ghost function Pass(): set<string> {
      AllVars(freeVars) - boundary
    }

    constructor (constraints: seq<Node>, boundary: set<string>)
      ensures Valid() && this.constraints == constraints && this.boundary == boundary
    {
      this.constraints, this.boundary := constraints, boundary;
      this.freeVars := FreeVarsOf(constraints);
      this.var2c, this.memIndices := map[], {};
      new;
      for i := 0 to |freeVars|
        invariant Lists(freeVars, this.var2c, i)
        invariant forall j :: j in this.memIndices <==> 0 <= j < i && freeVars[j] * boundary != {}
      {
        var index := AddEntries(freeVars, i, this.var2c);
        this.var2c := index;
        if freeVars[i] * boundary != {} {
          this.memIndices := this.memIndices + {i};
        }
      }
    }

    /** The variables of a formula that can expand a cone. */
    function SliceSeed(f: Node): set<string> {
      FreeVars(f) - boundary
    }

    /** The boundary-stopped cone of `seed`, by the index. */
    method SliceIndices(seed: set<string>) returns (picked: set<int>)
      requires Valid()
      ensures IsCone(freeVars, seed - boundary, Pass(), picked)
    {
      hide Grown, IsCone, AllVars;
      GrownBounds(freeVars, boundary, seed, Pass(), {}, seed);
      picked := {};
      var active := seed;
      var frontier := seed - boundary;
      while frontier != {}
        invariant Grown(freeVars, boundary, seed, Pass(), picked, active)
        invariant frontier <= active - boundary
        invariant Expanded(freeVars, picked, active - boundary - frontier)
        decreases |seed + AllVars(freeVars) - active|, |frontier|
      {
        ghost var before := active;
        var newFrontier: set<string> := {};
        var todo := frontier;
        while todo != {}
          invariant Grown(freeVars, boundary, seed, Pass(), picked, active)
          invariant todo <= frontier <= active - boundary && newFrontier <= active - boundary
          invariant before <= active && newFrontier <= active - before
          invariant Expanded(freeVars, picked, active - boundary - todo - newFrontier)
          decreases |todo|
        {
          var v :| v in todo;
          todo := todo - {v};
          picked, active, newFrontier := Visit(v, seed, picked, active, newFrontier);
        }
        GrownBounds(freeVars, boundary, seed, Pass(), picked, active);
        Progress(seed + AllVars(freeVars), before, active, newFrontier);
        frontier := newFrontier;
      }
      GrownIsCone(freeVars, boundary, seed, picked, active);
    }

    /** Picks the constraints mentioning `v`; their variables become active. */
    method Visit(v: string, ghost seed: set<string>, picked0: set<int>, active0: set<string>, new0: set<string>)
      returns (picked: set<int>, active: set<string>, newFrontier: set<string>)
      requires Valid() && v in active0 - boundary && new0 <= active0 - boundary
      requires Grown(freeVars, boundary, seed, Pass(), picked0, active0)
      ensures Grown(freeVars, boundary, seed, Pass(), picked, active)
      ensures picked0 <= picked && active0 <= active && newFrontier <= active - boundary
      ensures newFrontier == new0 + (active - active0 - boundary)
      ensures forall i :: Mentions(freeVars, v, i) ==> i in picked
    {
      picked, active, newFrontier := picked0, active0, new0;
      var listed := if v in var2c then var2c[v] else [];
      for k := 0 to |listed|
        invariant Grown(freeVars, boundary, seed, Pass(), picked, active)
        invariant picked0 <= picked && active0 <= active && newFrontier == new0 + (active - active0 - boundary)
        invariant forall j :: 0 <= j < k ==> listed[j] in picked
      {
        var i := listed[k];
        assert Has(var2c, v, i);
        if i !in picked {
          PickStep(freeVars, boundary, seed, picked, active, v, i);
          picked := picked + {i};
          newFrontier := newFrontier + (freeVars[i] - active - boundary);
          active := active + freeVars[i];
        }
      }
      forall i | Mentions(freeVars, v, i) ensures i in picked {
        assert Has(var2c, v, i);
        var j :| 0 <= j < |listed| && listed[j] == i;
      }
    }
  }

  lemma Progress(universe: set<string>, before: set<string>, active: set<string>, newFrontier: set<string>)
    requires before <= active <= universe && newFrontier <= active - before
    ensures newFrontier != {} ==> |universe - active| < |universe - before|
    ensures |universe - active| <= |universe - before|
  {
    assert universe - before == (universe - active) + (active - before);
    if newFrontier != {} {
      assert active - before != {};
    }
  }

  lemma PickStep(fv: seq<set<string>>, boundary: set<string>, seed: set<string>, picked: set<int>, active: set<string>, v: string, i: int)
    requires Grown(fv, boundary, seed, AllVars(fv) - boundary, picked, active)
    requires v in active - boundary && Mentions(fv, v, i)
    ensures Grown(fv, boundary, seed, AllVars(fv) - boundary, picked + {i}, active + fv[i])
  {
    var pass := AllVars(fv) - boundary;
    if v in seed {
      assert v in fv[i] * (seed - boundary);
      StartInCone(fv, seed - boundary, pass, i);
    } else {
      var j :| j in picked && v in fv[j];
      assert v in fv[j] * fv[i] * pass;
      StepInCone(fv, seed - boundary, pass, j, i);
    }
  }

  lemma GrownIsCone(fv: seq<set<string>>, boundary: set<string>, seed: set<string>, picked: set<int>, active: set<string>)
    requires Grown(fv, boundary, seed, AllVars(fv) - boundary, picked, active)
    requires Expanded(fv, picked, active - boundary)
    ensures IsCone(fv, seed - boundary, AllVars(fv) - boundary, picked)
  {
    var pass := AllVars(fv) - boundary;
    forall i | 0 <= i < |fv| && fv[i] * (seed - boundary) != {} ensures i in picked {
      var v :| v in fv[i] * (seed - boundary);
      assert Mentions(fv, v, i);
    }
    forall i, j | i in picked && Share(fv, pass, i, j) ensures j in picked {
      var v :| v in fv[i] * fv[j] * pass;
      assert Mentions(fv, v, j);
    }
    LeastClosedIsCone(fv, seed - boundary, pass, picked);
  }

  /** Enters constraint `i` under each of its variables. */
  method AddEntries(fv: seq<set<string>>, i: nat, before: map<string, seq<int>>) returns (var2c: map<string, seq<int>>)
    requires i < |fv| && Lists(fv, before, i)
    ensures Lists(fv, var2c, i + 1)
  {
    var2c := before;
    var todo := fv[i];
    while todo != {}
      invariant todo <= fv[i]
      invariant forall v, j :: Has(var2c, v, j) ==> Has(before, v, j) || (j == i && v in fv[i] - todo)
      invariant forall v, j :: Has(before, v, j) || (j == i && v in fv[i] - todo) ==> Has(var2c, v, j)
      decreases |todo|
    {
      var v :| v in todo;
      ghost var prior := var2c;
      var2c := var2c[v := (if v in var2c then var2c[v] else []) + [i]];
      todo := todo - {v};
      Entered(prior, var2c, v, i);
    }
  }

  lemma Entered(before: map<string, seq<int>>, after: map<string, seq<int>>, v: string, i: int)
    requires after == before[v := (if v in before then before[v] else []) + [i]]
    ensures forall w, j :: Has(after, w, j) <==> Has(before, w, j) || (w == v && j == i)
  {
    forall w, j ensures Has(after, w, j) <==> Has(before, w, j) || (w == v && j == i) {
      if w == v {
        assert after[v] == (if v in before then before[v] else []) + [i];
      }
    }
  }

  /** Active variables are the seed and those of the picked constraints, all of them inside the cone. */
  ghost predicate Grown(fv: seq<set<string>>, boundary: set<string>, seed: set<string>, pass: set<string>,
                        picked: set<int>, active: set<string>) {
    && (forall i :: i in picked ==> 0 <= i < |fv| && fv[i] <= active && InCone(fv, seed - boundary, pass, i))
    && (forall v :: v in active ==> v in seed || exists i :: i in picked && v in fv[i])
    && seed <= active <= seed + AllVars(fv)
  }

  lemma GrownBounds(fv: seq<set<string>>, boundary: set<string>, seed: set<string>, pass: set<string>,
                    picked: set<int>, active: set<string>)
    ensures Grown(fv, boundary, seed, pass, {}, seed)
    ensures Grown(fv, boundary, seed, pass, picked, active) ==> seed <= active <= seed + AllVars(fv)
  {
  }

  /** Every constraint mentioning one of `done` is picked. */
  ghost predicate Expanded(fv: seq<set<string>>, picked: set<int>, done: set<string>) {
    forall v, i :: v in done && Mentions(fv, v, i) ==> i in picked
  }

  /** The cone of a formula depends on its slice seed alone, so the seed is a complete cache key. */
  lemma SeedIsCacheKey(index: ConstraintIndex, f: Node, picked: set<int>)
    ensures IsCone(index.freeVars, FreeVars(f) - index.boundary, index.Pass(), picked) <==>
      IsCone(index.freeVars, index.SliceSeed(f) - index.boundary, index.Pass(), picked)
  {
    assert index.SliceSeed(f) - index.boundary == FreeVars(f) - index.boundary;
  }

  // ---- Rescanning instead of an index ----

  /** The constraints at the indices in `keep`, in order. */
  function Keep(cs: seq<Node>, keep: set<int>): seq<Node> {
    if cs == [] then []
    else Keep(cs[..|cs| - 1], keep) + (if |cs| - 1 in keep then [cs[|cs| - 1]] else [])
  }

  function KeepPicked(cs: seq<Node>, picked: set<Node>): seq<Node> {
    if cs == [] then []
    else KeepPicked(cs[..|cs| - 1], picked) + (if cs[|cs| - 1] in picked then [cs[|cs| - 1]] else [])
  }

  lemma {:induction false} KeepByIndex(cs: seq<Node>, picked: set<Node>, keep: set<int>)
    requires forall i :: 0 <= i < |cs| ==> (i in keep <==> cs[i] in picked)
    ensures KeepPicked(cs, picked) == Keep(cs, keep)
  {
    if cs != [] {
      KeepByIndex(cs[..|cs| - 1], picked, keep);
    }
  }

  /** State of the rescan: picked constraints lie in the cone, active variables are reached. */
  ghost predicate Scanned(cs: seq<Node>, seed: set<string>, frontier: set<string>, picked: set<Node>, active: set<string>) {
    var fv := FreeVarsOf(cs);
    && (forall i :: 0 <= i < |cs| && cs[i] in picked ==> fv[i] * frontier <= active && InCone(fv, seed, frontier, i))
    && (forall v :: v in active ==> v in seed || (v in frontier && exists i :: 0 <= i < |cs| && cs[i] in picked && v in fv[i]))
    && seed <= active <= seed + AllVars(fv)
  }

  ghost predicate PickedBelow(cs: seq<Node>, n: int, picked: set<Node>, active: set<string>) {
    forall i :: 0 <= i < n && i < |cs| && FreeVars(cs[i]) * active != {} ==> cs[i] in picked
  }

  /** Repeated passes over all constraints; the active set grows only by `frontier` variables. */
  method ConeViaFrontier(cs: seq<Node>, seed: set<string>, frontier: set<string>) returns (out: seq<Node>)
    ensures exists cone :: IsCone(FreeVarsOf(cs), seed, frontier, cone)
    ensures forall cone :: IsCone(FreeVarsOf(cs), seed, frontier, cone) ==> out == Keep(cs, cone)
  {
    var active := seed;
    var picked: set<Node> := {};
    var changed := true;
    ghost var universe := seed + AllVars(FreeVarsOf(cs));
    while changed
      invariant Scanned(cs, seed, frontier, picked, active)
      invariant !changed ==> PickedBelow(cs, |cs|, picked, active)
      decreases |universe - active|, changed
    {
      ghost var before := active;
      picked, active, changed := ScanPass(cs, seed, frontier, picked, active);
      assert active <= universe;
      Progress(universe, before, active, active - before);
    }
    out := KeepPicked(cs, picked);
    ghost var cone := set i | 0 <= i < |cs| && cs[i] in picked;
    KeepByIndex(cs, picked, cone);
    ScannedIsCone(cs, seed, frontier, picked, active, cone);
    forall other | IsCone(FreeVarsOf(cs), seed, frontier, other) ensures out == Keep(cs, other) {
      ConeIsUnique(FreeVarsOf(cs), seed, frontier, cone, other);
    }
  }

  /** One pass over the constraints. */
  method ScanPass(cs: seq<Node>, ghost seed: set<string>, frontier: set<string>, picked0: set<Node>, active0: set<string>)
    returns (picked: set<Node>, active: set<string>, changed: bool)
    requires Scanned(cs, seed, frontier, picked0, active0)
    ensures Scanned(cs, seed, frontier, picked, active)
    ensures active0 <= active && (changed ==> active0 != active)
    ensures !changed ==> PickedBelow(cs, |cs|, picked, active)
  {
    hide Scanned, FreeVars;
    picked, active, changed := picked0, active0, false;
    for i := 0 to |cs|
      invariant Scanned(cs, seed, frontier, picked, active)
      invariant active0 <= active && (changed ==> active0 != active)
      invariant !changed ==> active == active0 && PickedBelow(cs, i, picked, active)
    {
      if cs[i] !in picked && FreeVars(cs[i]) * active != {} {
        ScanStep(cs, seed, frontier, picked, active, i);
        picked := picked + {cs[i]};
        var newFrontier := FreeVars(cs[i]) * frontier - active;
        assert active + newFrontier == active + FreeVars(cs[i]) * frontier;
        assert newFrontier == {} ==> active + newFrontier == active;
        if newFrontier != {} {
          active := active + newFrontier;
          changed := true;
        }
      }
    }
  }

  lemma ScanStep(cs: seq<Node>, seed: set<string>, frontier: set<string>, picked: set<Node>, active: set<string>, i: nat)
    requires Scanned(cs, seed, frontier, picked, active) && i < |cs| && FreeVars(cs[i]) * active != {}
    ensures Scanned(cs, seed, frontier, picked + {cs[i]}, active + FreeVars(cs[i]) * frontier)
  {
    var fv := FreeVarsOf(cs);
    var v :| v in FreeVars(cs[i]) * active;
    forall k | 0 <= k < |cs| && cs[k] == cs[i] ensures InCone(fv, seed, frontier, k) {
      assert v in fv[k];
      if v in seed {
        assert v in fv[k] * seed;
        StartInCone(fv, seed, frontier, k);
      } else {
        var j :| 0 <= j < |cs| && cs[j] in picked && v in fv[j];
        assert v in fv[j] * fv[k] * frontier;
        StepInCone(fv, seed, frontier, j, k);
      }
    }
    forall w | w in active + FreeVars(cs[i]) * frontier
      ensures w in seed || (w in frontier && exists k :: 0 <= k < |cs| && cs[k] in picked + {cs[i]} && w in fv[k])
    {
      if w !in active {
        assert w in fv[i];
      } else if w !in seed {
        var k :| 0 <= k < |cs| && cs[k] in picked && w in fv[k];
      }
    }
  }

  lemma ScannedIsCone(cs: seq<Node>, seed: set<string>, frontier: set<string>, picked: set<Node>, active: set<string>, cone: set<int>)
    requires Scanned(cs, seed, frontier, picked, active) && PickedBelow(cs, |cs|, picked, active)
    requires forall i :: i in cone <==> 0 <= i < |cs| && cs[i] in picked
    ensures IsCone(FreeVarsOf(cs), seed, frontier, cone)
  {
    var fv := FreeVarsOf(cs);
    forall i | 0 <= i < |fv| && fv[i] * seed != {} ensures i in cone {
      var v :| v in fv[i] * seed;
      assert v in FreeVars(cs[i]) * active;
    }
    forall i, j | i in cone && Share(fv, frontier, i, j) ensures j in cone {
      var v :| v in fv[i] * fv[j] * frontier;
      assert v in fv[i] * frontier;
      assert v in FreeVars(cs[j]) * active;
    }
    LeastClosedIsCone(fv, seed, frontier, cone);
  }

  /** The index and the rescan agree exactly when every constraint mentioning a boundary variable of the
      seed is reachable from the rest of the seed; the rescan never picks less. */
  lemma IndexAgreesWithRescan(fv: seq<set<string>>, seed: set<string>, boundary: set<string>, slice: set<int>, rescan: set<int>)
    requires IsCone(fv, seed - boundary, AllVars(fv) - boundary, slice)
    requires IsCone(fv, seed, AllVars(fv) - boundary, rescan)
    ensures slice <= rescan
    ensures slice == rescan <==> forall i :: 0 <= i < |fv| && fv[i] * (seed * boundary) != {} ==>
      InCone(fv, seed - boundary, AllVars(fv) - boundary, i)
  {
    var pass := AllVars(fv) - boundary;
    assert forall i :: i in slice <==> InCone(fv, seed - boundary, pass, i);
    forall i | i in slice ensures i in rescan {
      assert InCone(fv, seed - boundary, pass, i);
      var path :| Chain(fv, seed - boundary, pass, path) && path[|path| - 1] == i;
      assert Chain(fv, seed, pass, path);
    }
    if forall i :: 0 <= i < |fv| && fv[i] * (seed * boundary) != {} ==> i in slice {
      ConeIsClosed(fv, seed - boundary, pass, slice);
      forall i | 0 <= i < |fv| && fv[i] * seed != {} ensures i in slice {
        var v :| v in fv[i] * seed;
        assert v in fv[i] * (seed * boundary) || v in fv[i] * (seed - boundary);
      }
      forall i | i in slice ensures InCone(fv, seed, pass, i) {
        assert i in rescan;
      }
      LeastClosedIsCone(fv, seed, pass, slice);
      ConeIsUnique(fv, seed, pass, slice, rescan);
    }
    if slice == rescan {
      forall i | 0 <= i < |fv| && fv[i] * (seed * boundary) != {} ensures i in slice {
        var v :| v in fv[i] * (seed * boundary);
        assert v in fv[i] * seed;
        StartInCone(fv, seed, pass, i);
      }
    }
  }

  lemma ConeIsClosed(fv: seq<set<string>>, start: set<string>, pass: set<string>, picked: set<int>)
    requires IsCone(fv, start, pass, picked)
    ensures ClosedCone(fv, start, pass, picked)
  {
    forall i | 0 <= i < |fv| && fv[i] * start != {} ensures i in picked {
      StartInCone(fv, start, pass, i);
    }
    forall i, j | i in picked && Share(fv, pass, i, j) ensures j in picked {
      assert InCone(fv, start, pass, i);
      StepInCone(fv, start, pass, i, j);
    }
  }

  /** A seed without boundary variables, as `SliceSeed` returns it, always agrees. */
  lemma SliceSeedAgrees(fv: seq<set<string>>, seed: set<string>, boundary: set<string>, slice: set<int>, rescan: set<int>)
    requires seed !! boundary
    requires IsCone(fv, seed - boundary, AllVars(fv) - boundary, slice)
    requires IsCone(fv, seed, AllVars(fv) - boundary, rescan)
    ensures slice == rescan
  {
    assert seed - boundary == seed;
    ConeIsUnique(fv, seed, AllVars(fv) - boundary, slice, rescan);
  }

  /** A boundary variable in the seed makes the two differ. */
  lemma BoundarySeedDiffers()
    ensures var fv, b := [{"b"}], {"b"};
      IsCone(fv, b - b, AllVars(fv) - b, {}) && IsCone(fv, b, AllVars(fv) - b, {0})
  {
    var fv, b := [{"b"}], {"b"};
    var none: set<string> := b - b;
    LeastClosedIsCone(fv, none, AllVars(fv) - b, {});
    assert "b" in fv[0] * b;
    StartInCone(fv, b, AllVars(fv) - b, 0);
    LeastClosedIsCone(fv, b, AllVars(fv) - b, {0});
  }
}
