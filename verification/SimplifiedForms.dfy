/** The normal form simplification reaches: what is known is a number, what is linear is printed from its form. */
module SimplifiedForms {
  import opened Wrappers
  import opened Residues
  import opened Sums
  import opened FieldForms
  import opened LinearForms
  import opened Propagation
  import opened FieldRewriting

  // ---- Known values ----

  /** `v` is the signed residue of `n`. */
  ghost predicate Signed(n: int, p: int, v: int)
    requires p > 0
  {
    -p < 2 * v <= p && Cong(v, n, p)
  }

  lemma SignedExactly(n: int, p: int, v: int)
    requires p > 0
    ensures v == Canon(n, p) <==> Signed(n, p, v)
  {
    hide Cong, Canon;
    CanonResidue(n, p);
    if Signed(n, p, v) {
      CanonUnique(v, n, p);
      CanonFixed(v, p);
    }
  }

  /** The expression is a number, or the facts show its value. */
  ghost predicate Determined(e: Expr, pins: Pins, zeros: seq<LinForm>, p: int, v: int)
    requires p > 0
  {
    if e.Num? then Signed(e.value, p, v) else exists r :: Shown(e, pins, zeros, p, r) && Signed(r, p, v)
  }

  lemma ConstExactly(e: Expr, pins: Pins, zeros: seq<LinForm>, p: int, v: int)
    requires p > 0
    ensures EvalExprConst(e, pins, zeros, p) == Some(v) <==> Determined(e, pins, zeros, p, v)
  {
    hide ParseLin, EvalMult, Shown, Signed, Canon;
    if e.Num? {
      SignedExactly(e.value, p, v);
    } else {
      forall r ensures EvalFactor(e, pins, zeros, p) == Some(r) <==> Shown(e, pins, zeros, p, r) {
        EvalFactorExactly(e, pins, zeros, p, r);
      }
      var r := EvalFactor(e, pins, zeros, p);
      if r.Some? {
        SignedExactly(r.value, p, v);
      }
    }
  }

  // ---- Printing ----

  ghost predicate PrintedTerm(e: Expr, t: Term) {
    || (t.coeff == 1 && e == Col(t.name))
    || (t.coeff == -1 && e == Neg(Col(t.name)))
    || (t.coeff != 1 && t.coeff != -1 && e == Bin(Num(t.coeff), Times, Col(t.name)))
  }

  /** The terms from left to right, added up. */
  ghost predicate PrintedSum(e: Expr, ts: seq<Term>)
    decreases |ts|
  {
    if |ts| <= 1 then |ts| == 1 && PrintedTerm(e, ts[0])
    else e.Bin? && e.op.Plus? && PrintedSum(e.a, ts[..|ts| - 1]) && PrintedTerm(e.b, ts[|ts| - 1])
  }

  /** The terms, then the constant unless it is zero. */
  ghost predicate Printed(e: Expr, lf: LinForm) {
    if lf.terms == [] then e == Num(lf.constant)
    else if lf.constant == 0 then PrintedSum(e, lf.terms)
    else e.Bin? && e.op.Plus? && PrintedSum(e.a, lf.terms) && e.b == Num(lf.constant)
  }

  lemma {:induction false} SumExactly(e: Expr, ts: seq<Term>)
    requires ts != []
    ensures e == SumOf(ts) <==> PrintedSum(e, ts)
    decreases |ts|
  {
    if |ts| > 1 && e.Bin? {
      SumExactly(e.a, ts[..|ts| - 1]);
    }
  }

  lemma PrintExactly(e: Expr, lf: LinForm)
    ensures e == FormToExpr(lf) <==> Printed(e, lf)
  {
    if lf.terms != [] {
      SumExactly(e, lf.terms);
      if e.Bin? {
        SumExactly(e.a, lf.terms);
      }
    }
  }

  lemma PartIsLinear(t: Term)
    ensures Linear(PartOf(t)) && Names(PartOf(t)) == {t.name}
  {
  }

  lemma {:induction false} SumIsLinear(ts: seq<Term>)
    requires ts != []
    ensures Linear(SumOf(ts)) && Names(SumOf(ts)) == NamesOf(ts)
    decreases |ts|
  {
    var n := |ts| - 1;
    assert ts == ts[..n] + [ts[n]];
    NamesSnoc(ts[..n], ts[n]);
    PartIsLinear(ts[n]);
    if n > 0 {
      SumIsLinear(ts[..n]);
    } else {
      NoNames(ts[..n]);
    }
  }

  lemma PrintedIsLinear(lf: LinForm)
    ensures Linear(FormToExpr(lf)) && Names(FormToExpr(lf)) == Columns(lf)
  {
    if lf.terms != [] {
      SumIsLinear(lf.terms);
    } else {
      NoNames(lf.terms);
    }
  }

  /** Reading back what was printed gives the form. */
  lemma PrintedParses(lf: LinForm, p: int)
    requires p > 0 && CanonicalForm(lf, p)
    ensures ParseLin(FormToExpr(lf), p) == Some(lf)
  {
    hide ParseLin, FormToExpr, FormValue, CanonicalForm;
    PrintedIsLinear(lf);
    forall env ensures Cong(FormValue(lf, env), EvalExpr(FormToExpr(lf), env), p) {
      FormToExprValue(lf, env);
    }
    ParseLinExactly(FormToExpr(lf), p, lf);
  }

  // ---- Simplified expressions ----

  /** A canonical form without pinned columns, printed. */
  ghost predicate PrintedForm(r: Expr, pins: Pins, p: int) {
    exists lf :: CanonicalForm(lf, p) && Columns(lf) !! pins.Keys && Printed(r, lf)
  }

  /** No number, and nothing left to do: the facts show no value, every column is one that folding leaves, a linear
      expression is printed from its form, and in any other nothing is left to compute. */
  ghost predicate Reduced(e: Expr, r: Expr, pins: Pins, zeros: seq<LinForm>, rel: Aliases, p: int)
    requires p > 0
  {
    && (forall v :: !Determined(r, pins, zeros, p, v))
    && (forall x :: x in Names(r) ==> FoldedFrom(e, pins, rel, x))
    && if Linear(r) then PrintedForm(r, pins, p) else Computed(r)
  }

  /** A value the facts show is put in; else the result is a number or has nothing left to do. */
  ghost predicate Simplified(e: Expr, r: Expr, pins: Pins, zeros: seq<LinForm>, rel: Aliases, p: int)
    requires p > 0
  {
    && (forall v :: Determined(e, pins, zeros, p, v) ==> r == Num(v))
    && (r.Num? || Reduced(e, r, pins, zeros, rel, p))
  }

  /** Substituting pins twice is substituting them once. */
  lemma SubstTwice(lf: LinForm, pins: Pins, p: int)
    requires p > 0 && CanonicalForm(lf, p) && Columns(lf) !! pins.Keys
    ensures Subst(lf, pins, p) == lf
  {
    hide FormValue, CanonicalForm, Cong;
    SubstColumns(lf, pins, p);
    forall env ensures Cong(FormValue(Subst(lf, pins, p), env), FormValue(lf, env), p) {
      UnpinnedValue(lf, pins, p, env);
    }
    FormIsUnique(Subst(lf, pins, p), lf, p);
  }

  /** Without a pinned column nothing is substituted. */
  lemma UnpinnedValue(lf: LinForm, pins: Pins, p: int, env: Env)
    requires p > 0 && Columns(lf) !! pins.Keys
    ensures Cong(FormValue(Subst(lf, pins, p), env), FormValue(lf, env), p)
  {
    hide Cong, MakeTerms, Canon, TermsValue, KeptTerms, PinnedSum;
    forall t | t in lf.terms ensures t.name !in pins {
      assert t.name in Columns(lf);
    }
    NothingPinned(lf.terms, pins);
    assert Subst(lf, pins, p) == Make(lf.terms, lf.constant, p);
    hide Subst, Make;
    MakeValue(lf.terms, lf.constant, p, env);
  }

  lemma {:induction false} NothingPinned(ts: seq<Term>, pins: Pins)
    requires forall t :: t in ts ==> t.name !in pins
    ensures KeptTerms(ts, pins) == ts && PinnedSum(ts, pins) == 0
  {
    if ts != [] {
      var n := |ts| - 1;
      assert ts == ts[..n] + [ts[n]] && ts[n] in ts;
      NothingPinned(ts[..n], pins);
    }
  }

  /** The facts say the same of a printed form as of the form with its pins put in. */
  lemma PrintedKnowsNoMore(f: Expr, pins: Pins, zeros: seq<LinForm>, p: int)
    requires p > 0 && Linear(f)
    ensures var r := SimplifyLinear(f, pins, p);
      PrintedForm(r, pins, p) && Linear(r) && Names(r) <= Names(f)
      && forall v :: Shown(r, pins, zeros, p, v) <==> Shown(f, pins, zeros, p, v)
  {
    hide CanonicalForm, FormToExpr, ShownToBe, Make, LinTerms;
    LinTermsExactly(f);
    var own := ParseLin(f, p).value;
    var lf := Subst(own, pins, p);
    ParseLinCanonical(f, p);
    SubstColumns(own, pins, p);
    ParsedNames(f, p);
    PrintedIsLinear(lf);
    PrintedParses(lf, p);
    PrintExactly(FormToExpr(lf), lf);
    SubstTwice(lf, pins, p);
    forall v ensures ShownToBe(lf, pins, zeros, p, v) <==> ShownToBe(own, pins, zeros, p, v) {
      ShownAfterPins(own, pins, zeros, p, v);
    }
  }

  lemma ShownAfterPins(lf: LinForm, pins: Pins, zeros: seq<LinForm>, p: int, v: int)
    requires p > 0 && Subst(Subst(lf, pins, p), pins, p) == Subst(lf, pins, p)
    ensures ShownToBe(Subst(lf, pins, p), pins, zeros, p, v) <==> ShownToBe(lf, pins, zeros, p, v)
  {
    hide Subst, LastWith;
  }

  lemma ParsedNames(e: Expr, p: int)
    requires p > 0 && Linear(e) && ParseLin(e, p).Some?
    ensures Columns(ParseLin(e, p).value) <= Names(e)
  {
    LinTermsExactly(e);
    var ts := LinTerms(e).value.terms;
    forall x | x in Columns(ParseLin(e, p).value) ensures x in Names(e) {
      MakeTermsNames(ts, p, x);
      var i :| 0 <= i < |ts| && ts[i].name == x;
      assert ts[i] in ts && x in NamesOf(ts);
    }
  }

  /** Main result on simplification: the result is simplified. */
  lemma SimplifyExprExactly(e: Expr, pins: Pins, zeros: seq<LinForm>, rel: Aliases, p: int)
    requires p > 0
    ensures Simplified(e, SimplifyExpr(e, pins, zeros, rel, p), pins, zeros, rel, p)
  {
    hide Determined, FoldPins, EvalExprConst, Computed, FoldedFrom, SimplifyLinear, PrintedForm, Linear;
    forall v ensures EvalExprConst(e, pins, zeros, p) == Some(v) <==> Determined(e, pins, zeros, p, v) {
      ConstExactly(e, pins, zeros, p, v);
    }
    if EvalExprConst(e, pins, zeros, p).None? {
      var f := FoldPins(e, pins, rel, p);
      if !f.Num? && EvalExprConst(f, pins, zeros, p).None? {
        FoldPinsComplete(e, pins, rel, p);
        FoldedReduces(e, f, pins, zeros, rel, p);
      }
    }
  }

  lemma FoldedReduces(e: Expr, f: Expr, pins: Pins, zeros: seq<LinForm>, rel: Aliases, p: int)
    requires p > 0 && EvalExprConst(f, pins, zeros, p).None? && Computed(f) && forall x :: x in Names(f) ==> FoldedFrom(e, pins, rel, x)
    ensures var r := SimplifyLinear(f, pins, p); r.Num? || Reduced(e, r, pins, zeros, rel, p)
  {
    hide FoldedFrom, Computed, PrintedForm, Shown, EvalExprConst;
    forall v ensures !Determined(f, pins, zeros, p, v) {
      ConstExactly(f, pins, zeros, p, v);
    }
    LinTermsExactly(f);
    var r := SimplifyLinear(f, pins, p);
    if Linear(f) {
      PrintedKnowsNoMore(f, pins, zeros, p);
      NotANumber(f, pins, zeros, p);
    }
  }

  lemma NotANumber(f: Expr, pins: Pins, zeros: seq<LinForm>, p: int)
    requires p > 0 && forall v :: !Determined(f, pins, zeros, p, v)
    ensures !f.Num?
    ensures forall r :: !Shown(f, pins, zeros, p, r)
  {
    hide Shown, Determined;
    if f.Num? {
      NumberIsDetermined(f, pins, zeros, p);
    }
    forall r ensures !Shown(f, pins, zeros, p, r) {
      if Shown(f, pins, zeros, p, r) {
        ShownIsDetermined(f, pins, zeros, p, r);
      }
    }
  }

  lemma NumberIsDetermined(f: Expr, pins: Pins, zeros: seq<LinForm>, p: int)
    requires p > 0 && f.Num?
    ensures exists v :: Determined(f, pins, zeros, p, v)
  {
    SignedExactly(f.value, p, Canon(f.value, p));
    assert Determined(f, pins, zeros, p, Canon(f.value, p));
  }

  lemma ShownIsDetermined(f: Expr, pins: Pins, zeros: seq<LinForm>, p: int, r: int)
    requires p > 0 && Shown(f, pins, zeros, p, r)
    ensures exists v :: Determined(f, pins, zeros, p, v)
  {
    hide Shown;
    if f.Num? {
      NumberIsDetermined(f, pins, zeros, p);
    } else {
      SignedExactly(r, p, Canon(r, p));
      assert Determined(f, pins, zeros, p, Canon(r, p));
    }
  }

  // ---- Multiplicities and slots ----

  /** A multiplicity that does not parse stays; one whose value the facts show is that number; any other is printed from its
      form with the pins put in. */
  ghost predicate SimplifiedMult(e: Expr, r: Expr, pins: Pins, zeros: seq<LinForm>, p: int)
    requires p > 0
  {
    if !Linear(e) then r == e
    else if exists n :: Shown(e, pins, zeros, p, n) then exists n :: Shown(e, pins, zeros, p, n) && r.Num? && Signed(n, p, r.value)
    else PrintedForm(r, pins, p)
  }

  lemma SimplifyMultExactly(e: Expr, pins: Pins, zeros: seq<LinForm>, p: int)
    requires p > 0
    ensures SimplifiedMult(e, SimplifyMult(e, pins, zeros, p), pins, zeros, p)
  {
    hide Linear, Shown, EvalMult, LinTerms, Make, FormToExpr, PrintedForm, Canon;
    LinTermsExactly(e);
    if Linear(e) {
      var v := EvalFactor(e, pins, zeros, p);
      forall n ensures v == Some(n) <==> Shown(e, pins, zeros, p, n) {
        EvalFactorExactly(e, pins, zeros, p, n);
      }
      if v.Some? {
        SignedExactly(v.value, p, Canon(v.value, p));
      } else {
        PrintedKnowsNoMore(e, pins, zeros, p);
      }
    }
  }

  /** A slot `x + c` with an aliased `x` moves onto the base; any other stays. */
  ghost predicate Moved(e: Expr, r: Expr, rel: Aliases, p: int)
    requires p > 0
  {
    if x, c :| ParseLin(e, p) == Some(LinForm([Term(x, 1)], c)) && x in rel then
      var off := rel[x].1 + c;
      r == if off == 0 then Col(rel[x].0) else Bin(Col(rel[x].0), Plus, Num(off))
    else r == e
  }

  lemma RewriteSlotExactly(e: Expr, rel: Aliases, p: int)
    requires p > 0
    ensures Moved(e, RewriteSlot(e, rel, p), rel, p)
  {
    hide ParseLin;
    var lf := ParseLin(e, p);
    if lf.Some? && |lf.value.terms| == 1 && lf.value.terms[0].coeff == 1 {
      assert lf.value.terms == [Term(lf.value.terms[0].name, 1)];
      assert lf == Some(LinForm([Term(lf.value.terms[0].name, 1)], lf.value.constant));
    }
  }

  // ---- Rows ----

  /** Slot by slot; a pointer value found beforehand takes the pointer's place, and the data stay. */
  ghost predicate SimplifiedRow(row: MemRow, out: MemRow, ptr: Option<int>, pins: Pins, zeros: seq<LinForm>, rel: Aliases, p: int)
    requires p > 0
  {
    && SimplifiedMult(row.mult, out.mult, pins, zeros, p)
    && Simplified(row.space, out.space, pins, zeros, map[], p)
    && (if ptr.Some? then out.ptr == Num(ptr.value) else Simplified(row.ptr, out.ptr, pins, zeros, map[], p))
    && out.data == row.data
    && exists ts :: Simplified(row.ts, ts, pins, zeros, map[], p) && Moved(ts, out.ts, rel, p)
  }

  lemma SimplifyRowExactly(row: MemRow, ptr: Option<int>, pins: Pins, zeros: seq<LinForm>, rel: Aliases, p: int)
    requires p > 0
    ensures SimplifiedRow(row, SimplifyRow(row, ptr, pins, zeros, rel, p), ptr, pins, zeros, rel, p)
  {
    hide Simplified, SimplifiedMult, Moved, SimplifyExpr, SimplifyMult, RewriteSlot;
    SimplifyMultExactly(row.mult, pins, zeros, p);
    SimplifyExprExactly(row.space, pins, zeros, map[], p);
    SimplifyExprExactly(row.ptr, pins, zeros, map[], p);
    SimplifyExprExactly(row.ts, pins, zeros, map[], p);
    RewriteSlotExactly(SimplifyExpr(row.ts, pins, zeros, map[], p), rel, p);
  }
}
