/** Rewriting expressions and multiplicities with propagated facts. */
module FieldRewriting {
  import opened Wrappers
  import opened Residues
  import opened Sums
  import opened FieldForms
  import opened FieldGadgets
  import opened FieldBounds
  import opened FieldWindows
  import opened FlagEvaluation
  import opened Propagation

  ghost predicate ZerosVanish(zeros: seq<LinForm>, p: int, env: Env)
    requires p > 0
  {
    forall z :: z in zeros ==> Cong(FormValue(z, env), 0, p)
  }

  /** Pins, zeros and timestamp aliases hold modulo `p`. */
  ghost predicate FactsHold(pins: Pins, zeros: seq<LinForm>, rel: Aliases, p: int, env: Env)
    requires p > 0
  {
    PinsHold(pins, p, env) && ZerosVanish(zeros, p, env) && AliasesHold(rel, p, env)
  }

  // ---- Evaluating linear forms ----

  /** The last zero with these terms. */
  function LookupZero(zeros: seq<LinForm>, ts: seq<Term>): (r: Option<LinForm>)
    ensures r.Some? ==> r.value in zeros && r.value.terms == ts
  {
    if zeros == [] then None
    else if zeros[|zeros| - 1].terms == ts then Some(zeros[|zeros| - 1])
    else LookupZero(zeros[..|zeros| - 1], ts)
  }

  /** The residue of a form known from pins and one zero. */
  function EvalMult(mf: LinForm, pins: Pins, zeros: seq<LinForm>, p: int): (r: Option<int>)
    requires p > 0
    ensures r.Some? ==> 0 <= r.value < p
  {
    var lf := Subst(mf, pins, p);
    if lf.terms == [] then Some(lf.constant % p)
    else
      match LookupZero(zeros, lf.terms)
      case Some(z) => Some((lf.constant - z.constant) % p)
      case None =>
        match LookupZero(zeros, Scale(-1, lf.terms))
        case Some(z) => Some((lf.constant + z.constant) % p)
        case None => None
  }

  /** The evaluated residue is the form's residue in every model. */
  lemma EvalMultValue(mf: LinForm, pins: Pins, zeros: seq<LinForm>, p: int, env: Env)
    requires p > 0 && PinsHold(pins, p, env) && ZerosVanish(zeros, p, env) && EvalMult(mf, pins, zeros, p).Some?
    ensures Cong(EvalMult(mf, pins, zeros, p).value, FormValue(mf, env), p)
  {
    hide Cong, Subst;
    var lf := Subst(mf, pins, p);
    var r := EvalMult(mf, pins, zeros, p).value;
    var t := TermsValue(lf.terms, env.cols);
    SubstValue(mf, pins, p, env);
    if lf.terms == [] {
      ResidueCong(lf.constant, p);
    } else if LookupZero(zeros, lf.terms).Some? {
      SameTerms(t, lf.constant, LookupZero(zeros, lf.terms).value.constant, p);
    } else {
      var z := LookupZero(zeros, Scale(-1, lf.terms)).value;
      ScaleValue(-1, lf.terms, env.cols);
      OppositeTerms(t, lf.constant, z.constant, p);
    }
    Trans(r, FormValue(lf, env), FormValue(mf, env), p);
  }

  lemma SameTerms(t: int, c: int, d: int, p: int)
    requires p > 0 && Cong(t + d, 0, p)
    ensures Cong((c - d) % p, t + c, p)
  {
    ResidueCong(c - d, p);
    AddCong(t + d, 0, c - d, c - d, p);
  }

  lemma OppositeTerms(t: int, c: int, d: int, p: int)
    requires p > 0 && Cong(-t + d, 0, p)
    ensures Cong((c + d) % p, t + c, p)
  {
    ResidueCong(c + d, p);
    AddCong(-t + d, 0, t + c, t + c, p);
  }

  function EvalExprConst(e: Expr, pins: Pins, zeros: seq<LinForm>, p: int): Option<int>
    requires p > 0
  {
    if e.Num? then Some(Canon(e.value, p))
    else
      match ParseLin(e, p)
      case None => None
      case Some(lf) =>
        match EvalMult(lf, pins, zeros, p)
        case None => None
        case Some(v) => Some(Canon(v, p))
  }

  lemma EvalExprConstValue(e: Expr, pins: Pins, zeros: seq<LinForm>, p: int, env: Env)
    requires p > 0 && PinsHold(pins, p, env) && ZerosVanish(zeros, p, env) && EvalExprConst(e, pins, zeros, p).Some?
    ensures Cong(EvalExprConst(e, pins, zeros, p).value, EvalExpr(e, env), p)
  {
    hide Cong, Canon, EvalMult, LinTerms, Make;
    if e.Num? {
      CanonResidue(e.value, p);
    } else {
      var lf := ParseLin(e, p).value;
      var v := EvalMult(lf, pins, zeros, p).value;
      EvalMultValue(lf, pins, zeros, p, env);
      ParseLinValue(e, p, env);
      Trans(v, FormValue(lf, env), EvalExpr(e, env), p);
      CanonResidue(v, p);
      Trans(Canon(v, p), v, EvalExpr(e, env), p);
    }
  }

  // ---- Folding pins ----

  /** A timestamp column as an offset from a base column. */
  type Aliases = map<string, (string, int)>

  ghost predicate AliasesHold(rel: Aliases, p: int, env: Env)
    requires p > 0
  {
    forall x :: x in rel ==> Cong(env.cols(x), env.cols(rel[x].0) + rel[x].1, p)
  }

  /** One node over folded operands. */
  function FoldBin(a: Expr, op: BinOp, b: Expr, p: int): Expr
    requires p > 0
  {
    if a.Num? && b.Num? then Num(Canon(Arith(op, a.value, b.value), p))
    else if op.Times? && (a == Num(0) || b == Num(0)) then Num(0)
    else if op.Times? && a == Num(1) then b
    else if op.Times? && b == Num(1) then a
    else if op.Plus? && a == Num(0) then b
    else if op.Plus? && b == Num(0) then a
    else if op.Minus? && b == Num(0) then a
    else if op.Minus? && a == Num(0) then Neg(b)
    else Bin(a, op, b)
  }

  function FoldPins(e: Expr, pins: Pins, rel: Aliases, p: int): Expr
    requires p > 0
  {
    match e
    case Col(x) =>
      if x in pins then Num(pins[x])
      else if x in rel then (if rel[x].1 == 0 then Col(rel[x].0) else Bin(Col(rel[x].0), Plus, Num(rel[x].1)))
      else e
    case Neg(a) =>
      var b := FoldPins(a, pins, rel, p);
      if b.Num? then Num(Canon(-b.value, p)) else Neg(b)
    case Bin(a, op, b) => FoldBin(FoldPins(a, pins, rel, p), op, FoldPins(b, pins, rel, p), p)
    case _ => e
  }

  lemma FoldBinValue(a: Expr, op: BinOp, b: Expr, p: int, env: Env)
    requires p > 0
    ensures Cong(EvalExpr(FoldBin(a, op, b, p), env), Arith(op, EvalExpr(a, env), EvalExpr(b, env)), p)
  {
    hide Cong, Canon;
    var u, v := EvalExpr(a, env), EvalExpr(b, env);
    if a.Num? && b.Num? {
      CanonResidue(Arith(op, u, v), p);
    } else {
      ProductUnits(u, v);
      Refl(Arith(op, u, v), p);
    }
  }

  lemma ProductUnits(u: int, v: int)
    ensures u == 0 || v == 0 ==> u * v == 0
    ensures u == 1 ==> u * v == v
    ensures v == 1 ==> u * v == u
  {
  }

  /** Where a column of the folded expression comes from: neither pinned nor aliased, or the base of an alias. */
  ghost predicate FoldedFrom(e: Expr, pins: Pins, rel: Aliases, x: string) {
    || (x in Names(e) && x !in pins && x !in rel)
    || exists y :: y in Names(e) && y !in pins && y in rel && rel[y].0 == x
  }

  /** Nothing left to compute: no operation on constants, no unit or zero factor, no zero summand. */
  ghost predicate Computed(e: Expr) {
    match e
    case Neg(a) => Computed(a) && !a.Num?
    case Bin(a, op, b) =>
      && Computed(a) && Computed(b) && !(a.Num? && b.Num?) && a != Num(0) && b != Num(0)
      && (op.Times? ==> a != Num(1) && b != Num(1))
    case _ => true
  }

  /** Folding puts in every pin and alias and computes all there is to compute. */
  lemma {:induction false} FoldPinsComplete(e: Expr, pins: Pins, rel: Aliases, p: int)
    requires p > 0
    ensures Computed(FoldPins(e, pins, rel, p))
    ensures forall x :: x in Names(FoldPins(e, pins, rel, p)) ==> FoldedFrom(e, pins, rel, x)
  {
    hide Canon;
    match e
    case Neg(a) =>
      FoldPinsComplete(a, pins, rel, p);
    case Bin(a, op, b) =>
      FoldPinsComplete(a, pins, rel, p);
      FoldPinsComplete(b, pins, rel, p);
      FoldBinComplete(FoldPins(a, pins, rel, p), op, FoldPins(b, pins, rel, p), p);
      forall x | x in Names(FoldPins(e, pins, rel, p)) ensures FoldedFrom(e, pins, rel, x) {
        assert FoldedFrom(a, pins, rel, x) || FoldedFrom(b, pins, rel, x);
      }
    case _ =>
  }

  lemma FoldBinComplete(a: Expr, op: BinOp, b: Expr, p: int)
    requires p > 0 && Computed(a) && Computed(b)
    ensures Computed(FoldBin(a, op, b, p)) && Names(FoldBin(a, op, b, p)) <= Names(a) + Names(b)
  {
    hide Canon;
  }

  /** Folding keeps the residue in every model of the pins and aliases. */
  lemma {:induction false} FoldPinsValue(e: Expr, pins: Pins, rel: Aliases, p: int, env: Env)
    requires p > 0 && PinsHold(pins, p, env) && AliasesHold(rel, p, env)
    ensures Cong(EvalExpr(FoldPins(e, pins, rel, p), env), EvalExpr(e, env), p)
  {
    hide Cong, Canon, FoldBin;
    var r := EvalExpr(e, env);
    match e
    case Col(x) =>
      if x in pins {
        Sym(r, pins[x], p);
      } else if x in rel {
        Sym(r, env.cols(rel[x].0) + rel[x].1, p);
      } else {
        Refl(r, p);
      }
    case Neg(a) =>
      var b := FoldPins(a, pins, rel, p);
      FoldPinsValue(a, pins, rel, p, env);
      NegCong(EvalExpr(b, env), EvalExpr(a, env), p);
      if b.Num? {
        CanonResidue(-b.value, p);
        Trans(Canon(-b.value, p), -b.value, r, p);
      }
    case Bin(a, op, b) =>
      var fa, fb := FoldPins(a, pins, rel, p), FoldPins(b, pins, rel, p);
      FoldPinsValue(a, pins, rel, p, env);
      FoldPinsValue(b, pins, rel, p, env);
      ArithCong(op, EvalExpr(fa, env), EvalExpr(a, env), EvalExpr(fb, env), EvalExpr(b, env), p);
      FoldBinValue(fa, op, fb, p, env);
      Trans(EvalExpr(FoldBin(fa, op, fb, p), env), Arith(op, EvalExpr(fa, env), EvalExpr(fb, env)), r, p);
    case _ => Refl(r, p);
  }

  // ---- Back to expressions ----

  function PartOf(t: Term): Expr {
    if t.coeff == 1 then Col(t.name)
    else if t.coeff == -1 then Neg(Col(t.name))
    else Bin(Num(t.coeff), Times, Col(t.name))
  }

  /** Left-nested sum of the terms; not empty. */
  function SumOf(ts: seq<Term>): Expr
    requires ts != []
  {
    var t := ts[|ts| - 1];
    if |ts| == 1 then PartOf(t) else Bin(SumOf(ts[..|ts| - 1]), Plus, PartOf(t))
  }

  function FormToExpr(lf: LinForm): Expr {
    if lf.terms == [] then Num(lf.constant)
    else if lf.constant == 0 then SumOf(lf.terms)
    else Bin(SumOf(lf.terms), Plus, Num(lf.constant))
  }

  lemma PartValue(t: Term, env: Env)
    ensures EvalExpr(PartOf(t), env) == t.coeff * env.cols(t.name)
  {
  }

  lemma {:induction false} SumOfValue(ts: seq<Term>, env: Env)
    requires ts != []
    ensures EvalExpr(SumOf(ts), env) == TermsValue(ts, env.cols)
  {
    var n := |ts| - 1;
    PartValue(ts[n], env);
    if n == 0 {
      OneTerm(ts[0], env.cols);
      assert ts == [ts[0]];
    } else {
      SumOfValue(ts[..n], env);
    }
  }

  /** The printed form has the form's value. */
  lemma FormToExprValue(lf: LinForm, env: Env)
    ensures EvalExpr(FormToExpr(lf), env) == FormValue(lf, env)
  {
    if lf.terms != [] {
      SumOfValue(lf.terms, env);
    }
  }

  // ---- Simplification ----

  function SimplifyLinear(e: Expr, pins: Pins, p: int): Expr
    requires p > 0
  {
    match ParseLin(e, p)
    case None => e
    case Some(lf) => FormToExpr(Subst(lf, pins, p))
  }

  lemma SimplifyLinearValue(e: Expr, pins: Pins, p: int, env: Env)
    requires p > 0 && PinsHold(pins, p, env)
    ensures Cong(EvalExpr(SimplifyLinear(e, pins, p), env), EvalExpr(e, env), p)
  {
    hide Cong, LinTerms, Make, FormToExpr, PinnedSum, KeptTerms;
    if ParseLin(e, p).Some? {
      var lf := ParseLin(e, p).value;
      ParseLinValue(e, p, env);
      SubstValue(lf, pins, p, env);
      FormToExprValue(Subst(lf, pins, p), env);
      Trans(FormValue(Subst(lf, pins, p), env), FormValue(lf, env), EvalExpr(e, env), p);
    } else {
      Refl(EvalExpr(e, env), p);
    }
  }

  function SimplifyExpr(e: Expr, pins: Pins, zeros: seq<LinForm>, rel: Aliases, p: int): Expr
    requires p > 0
  {
    match EvalExprConst(e, pins, zeros, p)
    case Some(v) => Num(v)
    case None =>
      var folded := FoldPins(e, pins, rel, p);
      if folded.Num? then folded
      else
        match EvalExprConst(folded, pins, zeros, p)
        case Some(v) => Num(v)
        case None => SimplifyLinear(folded, pins, p)
  }

  /** A simplified expression is equal modulo `p` in every model. */
  lemma SimplifyExprValue(e: Expr, pins: Pins, zeros: seq<LinForm>, rel: Aliases, p: int, env: Env)
    requires p > 0 && FactsHold(pins, zeros, rel, p, env)
    ensures Cong(EvalExpr(SimplifyExpr(e, pins, zeros, rel, p), env), EvalExpr(e, env), p)
  {
    hide Cong, EvalExprConst, FoldPins, SimplifyLinear;
    if EvalExprConst(e, pins, zeros, p).Some? {
      EvalExprConstValue(e, pins, zeros, p, env);
    } else {
      var folded := FoldPins(e, pins, rel, p);
      FoldPinsValue(e, pins, rel, p, env);
      if !folded.Num? {
        var v := EvalExprConst(folded, pins, zeros, p);
        if v.Some? {
          EvalExprConstValue(folded, pins, zeros, p, env);
          Trans(v.value, EvalExpr(folded, env), EvalExpr(e, env), p);
        } else {
          SimplifyLinearValue(folded, pins, p, env);
          Trans(EvalExpr(SimplifyLinear(folded, pins, p), env), EvalExpr(folded, env), EvalExpr(e, env), p);
        }
      }
    }
  }

  function SimplifyMult(e: Expr, pins: Pins, zeros: seq<LinForm>, p: int): Expr
    requires p > 0
  {
    match ParseLin(e, p)
    case None => e
    case Some(lf) =>
      match EvalMult(lf, pins, zeros, p)
      case Some(v) => Num(Canon(v, p))
      case None => FormToExpr(Subst(lf, pins, p))
  }

  /** A simplified multiplicity is equal modulo `p` in every model. */
  lemma SimplifyMultValue(e: Expr, pins: Pins, zeros: seq<LinForm>, p: int, env: Env)
    requires p > 0 && PinsHold(pins, p, env) && ZerosVanish(zeros, p, env)
    ensures Cong(EvalExpr(SimplifyMult(e, pins, zeros, p), env), EvalExpr(e, env), p)
  {
    hide Cong, Canon, LinTerms, Make, EvalMult, FormToExpr, PinnedSum, KeptTerms;
    if ParseLin(e, p).None? {
      Refl(EvalExpr(e, env), p);
    } else {
      var lf := ParseLin(e, p).value;
      var v := EvalMult(lf, pins, zeros, p);
      if v.Some? {
        ParseLinValue(e, p, env);
        EvalMultValue(lf, pins, zeros, p, env);
        Trans(v.value, FormValue(lf, env), EvalExpr(e, env), p);
        CanonResidue(v.value, p);
        Trans(Canon(v.value, p), v.value, EvalExpr(e, env), p);
      } else {
        SimplifyLinearValue(e, pins, p, env);
      }
    }
  }

  // ---- Rewriting memory rows ----

  /** A timestamp slot `col + offset` moved onto the base of its column. */
  function RewriteSlot(e: Expr, rel: Aliases, p: int): Expr
    requires p > 0
  {
    match ParseLin(e, p)
    case None => e
    case Some(lf) =>
      if |lf.terms| != 1 || lf.terms[0].coeff != 1 || lf.terms[0].name !in rel then e
      else
        var (base, off) := rel[lf.terms[0].name];
        if off + lf.constant == 0 then Col(base) else Bin(Col(base), Plus, Num(off + lf.constant))
  }

  lemma RewriteSlotValue(e: Expr, rel: Aliases, p: int, env: Env)
    requires p > 0 && AliasesHold(rel, p, env)
    ensures Cong(EvalExpr(RewriteSlot(e, rel, p), env), EvalExpr(e, env), p)
  {
    hide Cong, LinTerms, Make;
    if RewriteSlot(e, rel, p) == e {
      Refl(EvalExpr(e, env), p);
    } else {
      var lf := ParseLin(e, p).value;
      var x := lf.terms[0].name;
      var moved := env.cols(rel[x].0) + rel[x].1;
      ParseLinValue(e, p, env);
      SingleValue(lf, env);
      Sym(env.cols(x), moved, p);
      Refl(lf.constant, p);
      AddCong(moved, env.cols(x), lf.constant, lf.constant, p);
      Trans(moved + lf.constant, FormValue(lf, env), EvalExpr(e, env), p);
    }
  }

  /** A memory row: address space, pointer, data, timestamp. */
  datatype MemRow = MemRow(mult: Expr, space: Expr, ptr: Expr, data: seq<Expr>, ts: Expr)

  /** Rows are simplified slot by slot; the pointer first tries the flag assignments of its access. */
  function SimplifyRow(row: MemRow, ptr: Option<int>, pins: Pins, zeros: seq<LinForm>, rel: Aliases, p: int): MemRow
    requires p > 0
  {
    MemRow(SimplifyMult(row.mult, pins, zeros, p),
           SimplifyExpr(row.space, pins, zeros, map[], p),
           if ptr.Some? then Num(ptr.value) else SimplifyExpr(row.ptr, pins, zeros, map[], p),
           row.data,
           RewriteSlot(SimplifyExpr(row.ts, pins, zeros, map[], p), rel, p))
  }

  ghost predicate SameRow(a: MemRow, b: MemRow, p: int, env: Env)
    requires p > 0
  {
    && Cong(EvalExpr(a.mult, env), EvalExpr(b.mult, env), p)
    && Cong(EvalExpr(a.space, env), EvalExpr(b.space, env), p)
    && Cong(EvalExpr(a.ptr, env), EvalExpr(b.ptr, env), p)
    && a.data == b.data
    && Cong(EvalExpr(a.ts, env), EvalExpr(b.ts, env), p)
  }

  /** A simplified row sends the same message in every model. */
  lemma SimplifyRowKeeps(row: MemRow, ptr: Option<int>, pins: Pins, zeros: seq<LinForm>, rel: Aliases, p: int, env: Env)
    requires p > 0 && FactsHold(pins, zeros, rel, p, env)
    requires ptr.Some? ==> Cong(EvalExpr(row.ptr, env), ptr.value, p)
    ensures SameRow(SimplifyRow(row, ptr, pins, zeros, rel, p), row, p, env)
  {
    hide Cong, SimplifyExpr, SimplifyMult, RewriteSlot;
    SimplifyMultValue(row.mult, pins, zeros, p, env);
    SimplifyExprValue(row.space, pins, zeros, map[], p, env);
    SimplifyExprValue(row.ptr, pins, zeros, map[], p, env);
    SimplifyExprValue(row.ts, pins, zeros, map[], p, env);
    var ts := SimplifyExpr(row.ts, pins, zeros, map[], p);
    RewriteSlotValue(ts, rel, p, env);
    Trans(EvalExpr(RewriteSlot(ts, rel, p), env), EvalExpr(ts, env), EvalExpr(row.ts, env), p);
    if ptr.Some? {
      Sym(EvalExpr(row.ptr, env), ptr.value, p);
    }
  }

  // ---- Gated constraints ----

  function EvalFactor(e: Expr, pins: Pins, zeros: seq<LinForm>, p: int): Option<int>
    requires p > 0
  {
    match ParseLin(e, p)
    case None => None
    case Some(lf) => EvalMult(lf, pins, zeros, p)
  }

  /** Drops top-level factors known to be one; `None` when a factor is known to be zero. */
  function Ungate(e: Expr, pins: Pins, zeros: seq<LinForm>, p: int): Option<Expr>
    requires p > 0
  {
    if e.Bin? && e.op.Times? then
      var va, vb := EvalFactor(e.a, pins, zeros, p), EvalFactor(e.b, pins, zeros, p);
      if va == Some(0) || vb == Some(0) then None
      else if va == Some(1) then Ungate(e.b, pins, zeros, p)
      else if vb == Some(1) then Ungate(e.a, pins, zeros, p)
      else Some(e)
    else Some(e)
  }

  // ---- What is peeled ----

  /** The last of the zeros with these terms. */
  ghost predicate LastWith(zeros: seq<LinForm>, ts: seq<Term>, i: int) {
    0 <= i < |zeros| && zeros[i].terms == ts && forall j :: i < j < |zeros| ==> zeros[j].terms != ts
  }

  /** With its pins put in, the form is the constant `v`, or has the terms of a zero, or else the opposite ones, which
      gives it the value `v`. */
  ghost predicate ShownToBe(mf: LinForm, pins: Pins, zeros: seq<LinForm>, p: int, v: int)
    requires p > 0
  {
    var lf := Subst(mf, pins, p);
    if lf.terms == [] then v == lf.constant % p
    else
      || (exists i :: LastWith(zeros, lf.terms, i) && v == (lf.constant - zeros[i].constant) % p)
      || ((forall i :: 0 <= i < |zeros| ==> zeros[i].terms != lf.terms)
          && exists i :: LastWith(zeros, Scale(-1, lf.terms), i) && v == (lf.constant + zeros[i].constant) % p)
  }

  lemma {:induction false} LookupIsLast(zeros: seq<LinForm>, ts: seq<Term>)
    ensures LookupZero(zeros, ts).None? <==> forall i :: 0 <= i < |zeros| ==> zeros[i].terms != ts
    ensures LookupZero(zeros, ts).Some? ==> exists i :: LastWith(zeros, ts, i) && zeros[i] == LookupZero(zeros, ts).value
    ensures forall i :: LastWith(zeros, ts, i) ==> LookupZero(zeros, ts) == Some(zeros[i])
  {
    if zeros != [] {
      var n := |zeros| - 1;
      LookupIsLast(zeros[..n], ts);
      if zeros[n].terms == ts {
        assert LastWith(zeros, ts, n);
      } else {
        forall i ensures LastWith(zeros, ts, i) <==> LastWith(zeros[..n], ts, i) {
        }
        if LookupZero(zeros[..n], ts).Some? {
          var i :| LastWith(zeros[..n], ts, i) && zeros[..n][i] == LookupZero(zeros[..n], ts).value;
          assert LastWith(zeros, ts, i);
        }
      }
    }
  }

  /** The evaluation finds exactly the value the facts show. */
  lemma EvalMultExactly(mf: LinForm, pins: Pins, zeros: seq<LinForm>, p: int, v: int)
    requires p > 0
    ensures EvalMult(mf, pins, zeros, p) == Some(v) <==> ShownToBe(mf, pins, zeros, p, v)
  {
    hide Subst, LookupZero, LastWith;
    var lf := Subst(mf, pins, p);
    LookupIsLast(zeros, lf.terms);
    LookupIsLast(zeros, Scale(-1, lf.terms));
  }

  /** The facts show the expression to be `v` modulo `p`. */
  ghost predicate Shown(e: Expr, pins: Pins, zeros: seq<LinForm>, p: int, v: int)
    requires p > 0
  {
    ParseLin(e, p).Some? && ShownToBe(ParseLin(e, p).value, pins, zeros, p, v)
  }

  lemma EvalFactorExactly(e: Expr, pins: Pins, zeros: seq<LinForm>, p: int, v: int)
    requires p > 0
    ensures EvalFactor(e, pins, zeros, p) == Some(v) <==> Shown(e, pins, zeros, p, v)
  {
    hide ParseLin, EvalMult, ShownToBe;
    if ParseLin(e, p).Some? {
      EvalMultExactly(ParseLin(e, p).value, pins, zeros, p, v);
    }
  }

  /** `core` is the body of the product `e` behind factors shown to be one, on either side; no part of the way is shown
      to be zero, and where both sides are shown to be one the way leads to the right. */
  ghost predicate Behind(e: Expr, core: Expr, pins: Pins, zeros: seq<LinForm>, p: int)
    requires p > 0
    decreases e
  {
    match e
    case Bin(a, Times, b) =>
      && !Shown(a, pins, zeros, p, 0) && !Shown(b, pins, zeros, p, 0)
      && (if Shown(a, pins, zeros, p, 1) then Behind(b, core, pins, zeros, p)
          else if Shown(b, pins, zeros, p, 1) then Behind(a, core, pins, zeros, p)
          else core == e)
    case _ => core == e
  }

  /** Main result on gates: what is left is exactly the body behind the factors shown to be one. */
  lemma {:induction false} UngateExactly(e: Expr, core: Expr, pins: Pins, zeros: seq<LinForm>, p: int)
    requires p > 0
    ensures Ungate(e, pins, zeros, p) == Some(core) <==> Behind(e, core, pins, zeros, p)
    decreases e
  {
    hide Shown, EvalFactor;
    if e.Bin? && e.op.Times? {
      EvalFactorExactly(e.a, pins, zeros, p, 0);
      EvalFactorExactly(e.a, pins, zeros, p, 1);
      EvalFactorExactly(e.b, pins, zeros, p, 0);
      EvalFactorExactly(e.b, pins, zeros, p, 1);
      UngateExactly(e.a, core, pins, zeros, p);
      UngateExactly(e.b, core, pins, zeros, p);
    }
  }

  /** `core` stands in a product of any nesting, each factor beside the way shown to be one, and nothing on the way shown
      to be zero. */
  ghost predicate Nested(e: Expr, core: Expr, pins: Pins, zeros: seq<LinForm>, p: int)
    requires p > 0
    decreases e
  {
    || (e == core && (core.Bin? && core.op.Times? ==> !Settles(core.a, pins, zeros, p) && !Settles(core.b, pins, zeros, p)))
    || (e.Bin? && e.op.Times? && Shown(e.a, pins, zeros, p, 1) && !Shown(e.b, pins, zeros, p, 0) && Nested(e.b, core, pins, zeros, p))
    || (e.Bin? && e.op.Times? && Shown(e.b, pins, zeros, p, 1) && !Shown(e.a, pins, zeros, p, 0) && Nested(e.a, core, pins, zeros, p))
  }

  ghost predicate Settles(e: Expr, pins: Pins, zeros: seq<LinForm>, p: int)
    requires p > 0
  {
    Shown(e, pins, zeros, p, 0) || Shown(e, pins, zeros, p, 1)
  }

  /** In a product that vanishes in some model of the facts, whatever stands behind factors shown to be one is found. */
  lemma {:induction false} NestedIsPeeled(e: Expr, core: Expr, pins: Pins, zeros: seq<LinForm>, p: int, env: Env)
    requires p > 1 && PinsHold(pins, p, env) && ZerosVanish(zeros, p, env) && Zero(e, p, env)
    requires Nested(e, core, pins, zeros, p)
    ensures Ungate(e, pins, zeros, p) == Some(core)
    decreases e
  {
    hide Shown, EvalFactor, Cong;
    if e.Bin? && e.op.Times? {
      var x, y := EvalExpr(e.a, env), EvalExpr(e.b, env);
      FactorShown(e.a, pins, zeros, p);
      FactorShown(e.b, pins, zeros, p);
      EvalFactorValue(e.a, pins, zeros, p, env);
      EvalFactorValue(e.b, pins, zeros, p, env);
      if e == core && !Settles(e.a, pins, zeros, p) && !Settles(e.b, pins, zeros, p) {
      } else if Shown(e.a, pins, zeros, p, 1) && !Shown(e.b, pins, zeros, p, 0) && Nested(e.b, core, pins, zeros, p) {
        FactorOut(x, y, 1, p);
        Trans(y, x * y, 0, p);
        NestedIsPeeled(e.b, core, pins, zeros, p, env);
      } else {
        FactorOut(y, x, 1, p);
        Trans(x, x * y, 0, p);
        OneIsNotZero(x, p);
        NestedIsPeeled(e.a, core, pins, zeros, p, env);
      }
    }
  }

  lemma OneIsNotZero(x: int, p: int)
    requires p > 1 && Cong(x, 0, p)
    ensures !Cong(x, 1, p)
  {
    Small(0, p);
    Small(1, p);
  }

  lemma FactorShown(e: Expr, pins: Pins, zeros: seq<LinForm>, p: int)
    requires p > 0
    ensures EvalFactor(e, pins, zeros, p) == Some(0) <==> Shown(e, pins, zeros, p, 0)
    ensures EvalFactor(e, pins, zeros, p) == Some(1) <==> Shown(e, pins, zeros, p, 1)
  {
    EvalFactorExactly(e, pins, zeros, p, 0);
    EvalFactorExactly(e, pins, zeros, p, 1);
  }

  lemma EvalFactorValue(e: Expr, pins: Pins, zeros: seq<LinForm>, p: int, env: Env)
    requires p > 0 && PinsHold(pins, p, env) && ZerosVanish(zeros, p, env)
    ensures EvalFactor(e, pins, zeros, p).Some? ==> Cong(EvalExpr(e, env), EvalFactor(e, pins, zeros, p).value, p)
  {
    hide Cong, LinTerms, Make, EvalMult;
    if EvalFactor(e, pins, zeros, p).Some? {
      var lf := ParseLin(e, p).value;
      var v := EvalMult(lf, pins, zeros, p).value;
      ParseLinValue(e, p, env);
      EvalMultValue(lf, pins, zeros, p, env);
      Trans(v, FormValue(lf, env), EvalExpr(e, env), p);
      Sym(v, EvalExpr(e, env), p);
    }
  }

  lemma FactorOut(x: int, y: int, v: int, p: int)
    requires p > 0 && Cong(x, v, p)
    ensures v == 0 ==> Cong(x * y, 0, p) && Cong(y * x, 0, p)
    ensures v == 1 ==> Cong(x * y, y, p) && Cong(y * x, y, p)
  {
    Refl(y, p);
    MulCong(x, v, y, y, p);
    assert v == 0 ==> v * y == 0;
    assert v == 1 ==> v * y == y;
    assert x * y == y * x;
  }

  /** Dropping factors known to be one keeps the residue; a dropped constraint holds anyway. */
  lemma {:induction false} UngateValue(e: Expr, pins: Pins, zeros: seq<LinForm>, p: int, env: Env)
    requires p > 0 && PinsHold(pins, p, env) && ZerosVanish(zeros, p, env)
    ensures var r := Ungate(e, pins, zeros, p);
      (r.Some? ==> Cong(EvalExpr(r.value, env), EvalExpr(e, env), p)) && (r.None? ==> Zero(e, p, env))
  {
    hide Cong, EvalFactor;
    if e.Bin? && e.op.Times? {
      var va, vb := EvalFactor(e.a, pins, zeros, p), EvalFactor(e.b, pins, zeros, p);
      var x, y := EvalExpr(e.a, env), EvalExpr(e.b, env);
      EvalFactorValue(e.a, pins, zeros, p, env);
      EvalFactorValue(e.b, pins, zeros, p, env);
      if va.Some? {
        FactorOut(x, y, va.value, p);
      }
      if vb.Some? {
        FactorOut(y, x, vb.value, p);
      }
      if va != Some(0) && vb != Some(0) {
        if va == Some(1) {
          UngateValue(e.b, pins, zeros, p, env);
          ThroughFactor(Ungate(e.b, pins, zeros, p), y, EvalExpr(e, env), p, env);
        } else if vb == Some(1) {
          UngateValue(e.a, pins, zeros, p, env);
          ThroughFactor(Ungate(e.a, pins, zeros, p), x, EvalExpr(e, env), p, env);
        } else {
          Refl(EvalExpr(e, env), p);
        }
      }
    } else {
      Refl(EvalExpr(e, env), p);
    }
  }

  lemma ThroughFactor(r: Option<Expr>, v: int, whole: int, p: int, env: Env)
    requires p > 0 && Cong(whole, v, p)
    requires (r.Some? ==> Cong(EvalExpr(r.value, env), v, p)) && (r.None? ==> Cong(v, 0, p))
    ensures (r.Some? ==> Cong(EvalExpr(r.value, env), whole, p)) && (r.None? ==> Cong(whole, 0, p))
  {
  }

  /** The constraint mentions a witness, and folded it has the comparison `core` behind its gates. */
  ghost predicate ComparisonBehind(con: Expr, pins: Pins, zeros: seq<LinForm>, rel: Aliases, clocks: set<string>, witnesses: set<string>,
                                   bs: Bounds, p: int, core: Expr)
    requires p > 0
  {
    && !(witnesses !! Names(con))
    && Behind(FoldPins(con, pins, rel, p), core, pins, zeros, p)
    && ParseLin(core, p).Some? && Comparison(ParseLin(core, p).value, clocks, witnesses, bs, p)
  }

  ghost predicate GatedComparison(con: Expr, pins: Pins, zeros: seq<LinForm>, rel: Aliases, clocks: set<string>, witnesses: set<string>,
                                  bs: Bounds, p: int)
    requires p > 0
  {
    exists core :: ComparisonBehind(con, pins, zeros, rel, clocks, witnesses, bs, p, core)
  }

  /** What a comparison says: `pv <= fs + constant`. */
  ghost function UpperOf(core: Expr, clocks: set<string>, witnesses: set<string>, bs: Bounds, p: int): RecvUpper
    requires p > 0 && ParseLin(core, p).Some? && Comparison(ParseLin(core, p).value, clocks, witnesses, bs, p)
  {
    var lf := ParseLin(core, p).value;
    RecvUpper(Selected(lf.terms, witnesses)[0].name, Selected(lf.terms, clocks)[0].name, lf.constant)
  }

  ghost function GatedUpper(con: Expr, pins: Pins, zeros: seq<LinForm>, rel: Aliases, clocks: set<string>, witnesses: set<string>,
                            bs: Bounds, p: int): RecvUpper
    requires p > 0 && GatedComparison(con, pins, zeros, rel, clocks, witnesses, bs, p)
  {
    var core :| ComparisonBehind(con, pins, zeros, rel, clocks, witnesses, bs, p, core);
    UpperOf(core, clocks, witnesses, bs, p)
  }

  lemma OneCore(con: Expr, pins: Pins, zeros: seq<LinForm>, rel: Aliases, clocks: set<string>, witnesses: set<string>,
                bs: Bounds, p: int, core: Expr)
    requires p > 0
    ensures ComparisonBehind(con, pins, zeros, rel, clocks, witnesses, bs, p, core) <==>
      (!(witnesses !! Names(con)) && Ungate(FoldPins(con, pins, rel, p), pins, zeros, p) == Some(core)
       && ParseLin(core, p).Some? && Comparison(ParseLin(core, p).value, clocks, witnesses, bs, p))
  {
    hide Comparison, ParseLin, FoldPins, Behind;
    UngateExactly(FoldPins(con, pins, rel, p), core, pins, zeros, p);
  }

  /** A receive bound from a gated comparison: fold, drop the gate, read the window. */
  method UpperFromGated(con: Expr, pins: Pins, zeros: seq<LinForm>, rel: Aliases, clocks: set<string>, witnesses: set<string>,
                        bs: Bounds, p: int) returns (f: Option<RecvUpper>)
    requires p > 0 && clocks !! witnesses
    ensures f.Some? ==> forall env :: FieldEnv(env, p) && BoundsHold(bs, env) && FactsHold(pins, zeros, rel, p, env) && Zero(con, p, env) ==>
      UpperHolds(f.value, env)
    ensures f.Some? <==> GatedComparison(con, pins, zeros, rel, clocks, witnesses, bs, p)
    ensures f.Some? ==> f.value == GatedUpper(con, pins, zeros, rel, clocks, witnesses, bs, p)
  {
    hide Comparison, ParseLin, FoldPins, Ungate, UpperOf;
    forall core ensures ComparisonBehind(con, pins, zeros, rel, clocks, witnesses, bs, p, core) <==>
      (!(witnesses !! Names(con)) && Ungate(FoldPins(con, pins, rel, p), pins, zeros, p) == Some(core)
       && ParseLin(core, p).Some? && Comparison(ParseLin(core, p).value, clocks, witnesses, bs, p))
    {
      OneCore(con, pins, zeros, rel, clocks, witnesses, bs, p, core);
    }
    if witnesses !! Names(con) {
      return None;
    }
    var body := Ungate(FoldPins(con, pins, rel, p), pins, zeros, p);
    if body.None? {
      return None;
    }
    var lf := ParseLin(body.value, p);
    if lf.None? {
      return None;
    }
    f := UpperFromConstraint(lf.value, clocks, witnesses, bs, p);
    forall env | FactsHold(pins, zeros, rel, p, env) && Zero(con, p, env) ensures Cong(FormValue(lf.value, env), 0, p) {
      BodyVanishes(con, pins, zeros, rel, p, env);
    }
    UpperIs(body.value, clocks, witnesses, bs, p, f);
  }

  lemma UpperIs(core: Expr, clocks: set<string>, witnesses: set<string>, bs: Bounds, p: int, f: Option<RecvUpper>)
    requires p > 0 && ParseLin(core, p).Some? && (f.Some? <==> Comparison(ParseLin(core, p).value, clocks, witnesses, bs, p))
    requires var lf := ParseLin(core, p).value;
      f.Some? ==> f.value == RecvUpper(Selected(lf.terms, witnesses)[0].name, Selected(lf.terms, clocks)[0].name, lf.constant)
    ensures f.Some? ==> f.value == UpperOf(core, clocks, witnesses, bs, p)
  {
  }

  lemma BodyVanishes(con: Expr, pins: Pins, zeros: seq<LinForm>, rel: Aliases, p: int, env: Env)
    requires p > 0 && FactsHold(pins, zeros, rel, p, env) && Zero(con, p, env)
    requires var body := Ungate(FoldPins(con, pins, rel, p), pins, zeros, p); body.Some? && ParseLin(body.value, p).Some?
    ensures Cong(FormValue(ParseLin(Ungate(FoldPins(con, pins, rel, p), pins, zeros, p).value, p).value, env), 0, p)
  {
    hide Cong, Ungate, FoldPins, ParseLin;
    var folded := FoldPins(con, pins, rel, p);
    var body := Ungate(folded, pins, zeros, p).value;
    var lf := ParseLin(body, p).value;
    FoldPinsValue(con, pins, rel, p, env);
    UngateValue(folded, pins, zeros, p, env);
    ParseLinValue(body, p, env);
    Trans(FormValue(lf, env), EvalExpr(body, env), EvalExpr(folded, env), p);
    Trans(FormValue(lf, env), EvalExpr(folded, env), EvalExpr(con, env), p);
    Trans(FormValue(lf, env), EvalExpr(con, env), 0, p);
  }
}
