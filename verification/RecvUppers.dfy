/** All receive bounds of a machine, from its gated comparisons and its scaled range checks. */
module RecvUppers {
  import opened Wrappers
  import opened Residues
  import opened Primes
  import opened FieldForms
  import opened RangeEvidence
  import opened FieldBounds
  import opened FieldWindows
  import opened Propagation
  import opened FieldRewriting

  /** Every bound holds in every model. */
  ghost predicate AllUpper(fs: seq<RecvUpper>, m: Machine, pins: Pins, zeros: seq<LinForm>, rel: Aliases, bs: Bounds,
                           selector: Option<string>, p: int)
    requires p > 0
  {
    forall f, env :: f in fs && Model(m, pins, zeros, rel, bs, selector, p, env) ==> UpperHolds(f, env)
  }

  /** A model of the machine in which the bounds, the propagated facts and the timestamp aliases hold. */
  ghost predicate Model(m: Machine, pins: Pins, zeros: seq<LinForm>, rel: Aliases, bs: Bounds, selector: Option<string>, p: int, env: Env)
    requires p > 0
  {
    IsModel(m, selector, p, env) && BoundsHold(bs, env) && FactsHold(pins, zeros, rel, p, env)
  }

  method FromConstraints(m: Machine, pins: Pins, zeros: seq<LinForm>, rel: Aliases, clocks: set<string>, witnesses: set<string>,
                         bs: Bounds, ghost selector: Option<string>, p: int) returns (fs: seq<RecvUpper>)
    requires p > 0 && clocks !! witnesses
    ensures AllUpper(fs, m, pins, zeros, rel, bs, selector, p)
    ensures fs == GatedUppers(m.cons, pins, zeros, rel, clocks, witnesses, bs, p)
  {
    hide GatedComparison, GatedUpper;
    fs := [];
    for i := 0 to |m.cons|
      invariant AllUpper(fs, m, pins, zeros, rel, bs, selector, p)
      invariant fs == GatedUppers(m.cons[..i], pins, zeros, rel, clocks, witnesses, bs, p)
    {
      assert m.cons[..i + 1][..i] == m.cons[..i];
      var f := UpperFromGated(m.cons[i], pins, zeros, rel, clocks, witnesses, bs, p);
      if f.Some? {
        assert m.cons[i] in m.cons;
        fs := fs + [f.value];
      }
    }
    assert m.cons[..|m.cons|] == m.cons;
  }

  /** The bounds of the gated comparisons, in order. */
  ghost function GatedUppers(cons: seq<Expr>, pins: Pins, zeros: seq<LinForm>, rel: Aliases, clocks: set<string>, witnesses: set<string>,
                             bs: Bounds, p: int): seq<RecvUpper>
    requires p > 0
  {
    if cons == [] then []
    else
      var n := |cons| - 1;
      GatedUppers(cons[..n], pins, zeros, rel, clocks, witnesses, bs, p)
      + if GatedComparison(cons[n], pins, zeros, rel, clocks, witnesses, bs, p)
        then [GatedUpper(cons[n], pins, zeros, rel, clocks, witnesses, bs, p)] else []
  }

  /** In a machine with a model: a constraint of it that mentions a witness and, folded, has the comparison `core` behind
      factors shown to be one. */
  ghost predicate Offers(m: Machine, pins: Pins, zeros: seq<LinForm>, rel: Aliases, clocks: set<string>, witnesses: set<string>,
                         bs: Bounds, selector: Option<string>, p: int, con: Expr, core: Expr)
    requires p > 0
  {
    && con in m.cons && !(witnesses !! Names(con)) && (exists env :: Model(m, pins, zeros, rel, bs, selector, p, env))
    && Nested(FoldPins(con, pins, rel, p), core, pins, zeros, p)
    && ParseLin(core, p).Some? && Comparison(ParseLin(core, p).value, clocks, witnesses, bs, p)
  }

  lemma OfferedIsListed(m: Machine, pins: Pins, zeros: seq<LinForm>, rel: Aliases, clocks: set<string>, witnesses: set<string>,
                        bs: Bounds, selector: Option<string>, p: int, con: Expr, core: Expr)
    requires p > 1 && Offers(m, pins, zeros, rel, clocks, witnesses, bs, selector, p, con, core)
    ensures UpperOf(core, clocks, witnesses, bs, p) in GatedUppers(m.cons, pins, zeros, rel, clocks, witnesses, bs, p)
  {
    hide Comparison, ParseLin, FoldPins, UpperOf, Nested, Cong;
    var env :| Model(m, pins, zeros, rel, bs, selector, p, env);
    var folded := FoldPins(con, pins, rel, p);
    FoldPinsValue(con, pins, rel, p, env);
    Trans(EvalExpr(folded, env), EvalExpr(con, env), 0, p);
    NestedIsPeeled(folded, core, pins, zeros, p, env);
    OneCore(con, pins, zeros, rel, clocks, witnesses, bs, p, core);
    GatedIsListed(m.cons, pins, zeros, rel, clocks, witnesses, bs, p, con, core);
  }

  lemma {:induction false} GatedIsListed(cons: seq<Expr>, pins: Pins, zeros: seq<LinForm>, rel: Aliases, clocks: set<string>,
                                         witnesses: set<string>, bs: Bounds, p: int, con: Expr, core: Expr)
    requires p > 0 && con in cons && ComparisonBehind(con, pins, zeros, rel, clocks, witnesses, bs, p, core)
    ensures UpperOf(core, clocks, witnesses, bs, p) in GatedUppers(cons, pins, zeros, rel, clocks, witnesses, bs, p)
  {
    hide ComparisonBehind, UpperOf;
    var n := |cons| - 1;
    if cons[n] == con {
      OneUpper(con, pins, zeros, rel, clocks, witnesses, bs, p, core);
    } else {
      GatedIsListed(cons[..n], pins, zeros, rel, clocks, witnesses, bs, p, con, core);
    }
  }

  lemma OneUpper(con: Expr, pins: Pins, zeros: seq<LinForm>, rel: Aliases, clocks: set<string>, witnesses: set<string>,
                 bs: Bounds, p: int, core: Expr)
    requires p > 0 && ComparisonBehind(con, pins, zeros, rel, clocks, witnesses, bs, p, core)
    ensures ParseLin(core, p).Some? && Comparison(ParseLin(core, p).value, clocks, witnesses, bs, p)
    ensures GatedComparison(con, pins, zeros, rel, clocks, witnesses, bs, p)
    ensures GatedUpper(con, pins, zeros, rel, clocks, witnesses, bs, p) == UpperOf(core, clocks, witnesses, bs, p)
  {
    hide UpperOf, Behind, Comparison, FoldPins, ParseLin;
    forall c | ComparisonBehind(con, pins, zeros, rel, clocks, witnesses, bs, p, c) ensures c == core {
      UngateExactly(FoldPins(con, pins, rel, p), c, pins, zeros, p);
      UngateExactly(FoldPins(con, pins, rel, p), core, pins, zeros, p);
    }
  }

  lemma CheckedResidue(row: RangeRow, m: Machine, t: Tables, selector: Option<string>, p: int, env: Env)
    requires Prime(p) && TablesOf(t, m.cons, p) && IsModel(m, selector, p, env) && row in m.rows
    requires ScanEvidence(row.mult, t.forms, t.pins, t.singles, selector, p).Some?
    requires row.bus.VarRange? && |row.args| >= 2 && BitsOf(row.args[1]).Some? && ParseLin(row.args[0], p).Some?
    ensures FormValue(ParseLin(row.args[0], p).value, env) % p < Pow2(BitsOf(row.args[1]).value)
  {
    hide ScanEvidence, LinTerms, Make, FormValue;
    ProvenSent(row, m, t, selector, p, env);
    ParseLinValue(row.args[0], p, env);
  }

  method FromRangeChecks(m: Machine, t: Tables, ghost pins: Pins, ghost zeros: seq<LinForm>, ghost rel: Aliases, clocks: set<string>,
                         witnesses: set<string>, bs: Bounds, selector: Option<string>, p: int) returns (fs: seq<RecvUpper>)
    requires Prime(p) && TablesOf(t, m.cons, p) && clocks !! witnesses
    ensures AllUpper(fs, m, pins, zeros, rel, bs, selector, p)
    ensures forall row, f :: row in m.rows && RowGives(row, t, clocks, witnesses, bs, selector, p, f) ==> f in fs
  {
    hide RowGives, TablesOf;
    fs := [];
    for i := 0 to |m.rows|
      invariant AllUpper(fs, m, pins, zeros, rel, bs, selector, p)
      invariant forall j, f :: 0 <= j < i && RowGives(m.rows[j], t, clocks, witnesses, bs, selector, p, f) ==> f in fs
    {
      var f := FromRow(m.rows[i], m, t, clocks, witnesses, bs, selector, p);
      if f.Some? {
        fs := fs + [f.value];
      }
    }
  }

  /** A row proven sent whose check is accepted, with its bound. */
  ghost predicate RowGives(row: RangeRow, t: Tables, clocks: set<string>, witnesses: set<string>, bs: Bounds, selector: Option<string>,
                           p: int, f: RecvUpper)
    requires p > 1
  {
    && row.bus.VarRange? && |row.args| >= 2
    && ScanEvidence(row.mult, t.forms, t.pins, t.singles, selector, p).Some?
    && BitsOf(row.args[1]).Some? && ParseLin(row.args[0], p).Some?
    && var bits, lf := BitsOf(row.args[1]).value, ParseLin(row.args[0], p).value;
    && Pow2(bits) <= p && AcceptedCheck(lf, bits, clocks, witnesses, bs, p) && CheckUpper(lf, clocks, witnesses) == Some(f)
  }

  /** The bound of one row, once the row is proven sent. */
  method FromRow(row: RangeRow, ghost m: Machine, t: Tables, clocks: set<string>, witnesses: set<string>, bs: Bounds,
                 selector: Option<string>, p: int) returns (f: Option<RecvUpper>)
    requires Prime(p) && TablesOf(t, m.cons, p) && clocks !! witnesses && row in m.rows
    ensures f.Some? ==> forall env :: IsModel(m, selector, p, env) && BoundsHold(bs, env) ==> UpperHolds(f.value, env)
    ensures forall g :: RowGives(row, t, clocks, witnesses, bs, selector, p, g) ==> f == Some(g)
  {
    hide ScanEvidence, AcceptedCheck, CheckUpper;
    if !row.bus.VarRange? || |row.args| < 2 {
      return None;
    }
    ParsedCanonical(m.cons, p);
    var ev := RangeMultEvidence(row.mult, t.forms, t.pins, t.singles, t.index, selector, p);
    var bits, lf := BitsOf(row.args[1]), ParseLin(row.args[0], p);
    if ev.None? || bits.None? || lf.None? {
      return None;
    }
    ParseLinCanonical(row.args[0], p);
    f := UpperFromCheck(lf.value, bits.value, clocks, witnesses, bs, p);
    forall env | IsModel(m, selector, p, env) ensures FormValue(lf.value, env) % p < Pow2(bits.value) {
      CheckedResidue(row, m, t, selector, p, env);
    }
  }

  /** All receive bounds, the constraint forms first; each holds in every model, and none that the constraints or the
      range checks offer is missing. */
  method Collect(m: Machine, t: Tables, pins: Pins, zeros: seq<LinForm>, rel: Aliases, clocks: set<string>, witnesses: set<string>,
                 bs: Bounds, selector: Option<string>, p: int) returns (fs: seq<RecvUpper>)
    requires Prime(p) && TablesOf(t, m.cons, p) && clocks !! witnesses
    ensures AllUpper(fs, m, pins, zeros, rel, bs, selector, p)
    ensures GatedUppers(m.cons, pins, zeros, rel, clocks, witnesses, bs, p) <= fs
    ensures forall con, core :: Offers(m, pins, zeros, rel, clocks, witnesses, bs, selector, p, con, core) ==>
      UpperOf(core, clocks, witnesses, bs, p) in fs
    ensures forall row, f :: row in m.rows && RowGives(row, t, clocks, witnesses, bs, selector, p, f) ==> f in fs
  {
    var a := FromConstraints(m, pins, zeros, rel, clocks, witnesses, bs, selector, p);
    var b := FromRangeChecks(m, t, pins, zeros, rel, clocks, witnesses, bs, selector, p);
    fs := a + b;
    forall con, core | Offers(m, pins, zeros, rel, clocks, witnesses, bs, selector, p, con, core)
      ensures UpperOf(core, clocks, witnesses, bs, p) in fs
    {
      OfferedIsListed(m, pins, zeros, rel, clocks, witnesses, bs, selector, p, con, core);
    }
  }
}
