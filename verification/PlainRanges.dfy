/** Range inference on the plain encoding: its models are the ones the inference is about. */
module PlainRanges {
  import opened Wrappers
  import opened Smt
  import opened PlainMemory
  import opened BusConservation
  import RI = RangeInference

  /** The accesses of the inference are the interactions of the encoding: the same arguments, and the
      multiplicity where it is constant. */
  ghost predicate SameRows(accesses: seq<RI.Access>, rows: seq<Interaction>, m: Model) {
    && |accesses| == |rows|
    && forall i :: 0 <= i < |rows| ==> (
      && rows[i].args == RI.Flat(accesses[i]) && |accesses[i].key| == 2
      && (accesses[i].mult.Some? ==> Mult(rows, i, m) == accesses[i].mult.value))
  }

  /** Records entering a cell are bytes. */
  ghost predicate InputsAreBytes(accesses: seq<RI.Access>, fl: Flags, p: int, m: Model)
    requires p > 0 && |fl.isInput| == |accesses|
  {
    forall i, k :: 0 <= i < |accesses| && 0 <= k < |accesses[i].data| && Holds(fl.isInput[i], m) ==>
      RI.Residue(accesses[i].data[k], p, m) <= RI.INPUT_BOUND
  }

  /** Only what was written before is read. */
  ghost predicate ReadAfterWritten(accesses: seq<RI.Access>, vars: MatchVars, p: int, m: Model)
    requires Complete(vars, |accesses|)
  {
    forall i, j :: 0 <= i < |accesses| && 0 <= j < |accesses| && i != j && Holds(Lit(vars, |accesses|, i, j), m) ==>
      !RI.OutOfTime(accesses[i], accesses[j], p)
  }

  lemma SameResidues(a: RI.Access, b: RI.Access, x: Interaction, y: Interaction, p: int, m: Model)
    requires p > 0 && x.args == RI.Flat(a) && y.args == RI.Flat(b) && ArgValues(x, m) == ArgValues(y, m) && |a.key| == |b.key|
    ensures |a.data| == |b.data|
    ensures forall k :: 0 <= k < |RI.Flat(a)| ==> RI.Residue(RI.Flat(a)[k], p, m) == RI.Residue(RI.Flat(b)[k], p, m)
    ensures forall k :: 0 <= k < |a.data| ==> RI.Residue(a.data[k], p, m) == RI.Residue(b.data[k], p, m)
  {
    assert |ArgValues(x, m)| == |RI.Flat(a)| && |ArgValues(y, m)| == |RI.Flat(b)|;
    forall k | 0 <= k < |RI.Flat(a)| ensures RI.Residue(RI.Flat(a)[k], p, m) == RI.Residue(RI.Flat(b)[k], p, m) {
      assert ArgValues(x, m)[k] == ArgValues(y, m)[k];
    }
    forall k | 0 <= k < |a.data| ensures RI.Residue(a.data[k], p, m) == RI.Residue(b.data[k], p, m) {
      var at := |a.key| + k;
      assert RI.Flat(a)[at] == a.data[k] && RI.Flat(b)[at] == b.data[k];
    }
  }

  /** In every model of the plain encoding a read takes a byte input or its partner's data. */
  lemma PlainModelsRead(simplify: Node -> Node, accesses: seq<RI.Access>, rows: seq<Interaction>, candidates: seq<seq<int>>, fl: Flags,
                        vars: MatchVars, p: int, name: (int, int) -> string, m: Model)
    requires RI.SoundOnTerms(simplify) && SameRows(accesses, rows, m)
    requires Setting(rows, candidates, fl, vars, p) && IsMatchVars(rows, candidates, p, name, vars) && Symmetric(candidates)
    requires PlainModel(rows, candidates, fl, vars, p, m)
    requires InputsAreBytes(accesses, fl, p, m) && ReadAfterWritten(accesses, vars, p, m)
    ensures RI.ReadsOk(simplify, accesses, p, m)
  {
    BuiltVarsListSelves(rows, candidates, p, name, vars, m);
    forall i | 0 <= i < |accesses| && accesses[i].mult == Some(p - 1) ensures RI.ReadOk(simplify, accesses, p, i, m) {
      var j := Partner(rows, candidates, fl, vars, p, m, i);
      if j == i {
        assert SelfOk(rows, fl, Lit(vars, |rows|, i, i), p, i, m);
        assert Holds(fl.isInput[i], m);
      } else {
        PartnerIsRead(simplify, accesses, rows, candidates, fl, vars, p, m, i, j);
      }
    }
  }

  lemma PartnerIsRead(simplify: Node -> Node, accesses: seq<RI.Access>, rows: seq<Interaction>, candidates: seq<seq<int>>, fl: Flags,
                      vars: MatchVars, p: int, m: Model, i: int, j: int)
    requires RI.SoundOnTerms(simplify) && SameRows(accesses, rows, m) && 0 <= i < |rows|
    requires Setting(rows, candidates, fl, vars, p) && PlainModel(rows, candidates, fl, vars, p, m) && Symmetric(candidates)
    requires ReadAfterWritten(accesses, vars, p, m) && j == Partner(rows, candidates, fl, vars, p, m, i) && j != i
    ensures RI.ReadsFrom(simplify, accesses, p, i, j, m)
  {
    PartnersBalance(rows, candidates, fl, vars, p, m, i);
    SameResidues(accesses[i], accesses[j], rows[i], rows[j], p, m);
    assert (p - 1 + 1) % p == 0 && (1 + (p - 1)) % p == 0;
    RI.MatchesAreNotExcluded(simplify, accesses[i], accesses[j], p, m);
  }

  /** What the inference emits is a consequence of the plain encoding with byte inputs and ordered reads. */
  lemma FactsAreConsequences(simplify: Node -> Node, constraints: seq<Node>, facts: seq<Node>, accesses: seq<RI.Access>, rows: seq<Interaction>,
                             candidates: seq<seq<int>>, fl: Flags, vars: MatchVars, p: int, name: (int, int) -> string, m: Model)
    requires RI.SoundOnTerms(simplify) && SameRows(accesses, rows, m)
    requires Setting(rows, candidates, fl, vars, p) && IsMatchVars(rows, candidates, p, name, vars) && Symmetric(candidates)
    requires forall m' :: Sat(constraints, m') && RI.ReadsOk(simplify, accesses, p, m') ==> Sat(facts, m')
    requires Sat(constraints, m) && PlainModel(rows, candidates, fl, vars, p, m)
    requires InputsAreBytes(accesses, fl, p, m) && ReadAfterWritten(accesses, vars, p, m)
    ensures Sat(facts, m)
  {
    PlainModelsRead(simplify, accesses, rows, candidates, fl, vars, p, name, m);
  }
}
