/** Which expressions are linear, and that their form is determined by their values. */
module LinearForms {
  import opened Wrappers
  import opened Residues
  import opened Sums
  import opened FieldForms

  /** Every product has a side without columns, and every node is known. */
  ghost predicate Linear(e: Expr) {
    match e
    case Num(_) => true
    case Col(_) => true
    case Neg(a) => Linear(a)
    case Bin(a, op, b) => Linear(a) && Linear(b) && (op.Times? ==> Names(a) == {} || Names(b) == {})
    case Other(_) => false
  }

  // ---- Columns of the parse ----

  lemma {:induction false} AddScaledNames(ts: seq<Term>, s: int, more: seq<Term>)
    ensures NamesOf(AddScaled(ts, s, more)) == NamesOf(ts) + NamesOf(more)
  {
    hide NamesOf, Bump;
    if more == [] {
      NoNames(more);
    } else {
      var n := |more| - 1;
      AddScaledNames(ts, s, more[..n]);
      BumpNames(AddScaled(ts, s, more[..n]), more[n].name, s * more[n].coeff);
      NamesSnoc(more[..n], more[n]);
      assert more == more[..n] + [more[n]];
    }
  }

  lemma ScaleNames(s: int, ts: seq<Term>)
    ensures NamesOf(Scale(s, ts)) == NamesOf(ts)
  {
    forall x ensures x in NamesOf(Scale(s, ts)) <==> x in NamesOf(ts) {
      if t :| t in ts && t.name == x {
        var i :| 0 <= i < |ts| && ts[i] == t;
        assert Scale(s, ts)[i] in Scale(s, ts);
      }
      if t :| t in Scale(s, ts) && t.name == x {
        var i :| 0 <= i < |ts| && Scale(s, ts)[i] == t;
        assert ts[i] in ts;
      }
    }
  }

  lemma NoNames(ts: seq<Term>)
    ensures ts == [] <==> NamesOf(ts) == {}
  {
    if ts != [] {
      assert ts[0] in ts && ts[0].name in NamesOf(ts);
    }
  }

  /** Linear expressions are exactly those that parse, and no column is forgotten before reduction. */
  lemma {:induction false} LinTermsExactly(e: Expr)
    ensures LinTerms(e).Some? <==> Linear(e)
    ensures LinTerms(e).Some? ==> NamesOf(LinTerms(e).value.terms) == Names(e)
  {
    match e
    case Num(_) =>
    case Col(x) => NamesSnoc([], Term(x, 1)); assert [] + [Term(x, 1)] == [Term(x, 1)];
    case Other(_) =>
    case Neg(a) =>
      LinTermsExactly(a);
      if LinTerms(a).Some? {
        ScaleNames(-1, LinTerms(a).value.terms);
      }
    case Bin(a, op, b) =>
      LinTermsExactly(a);
      LinTermsExactly(b);
      if LinTerms(a).Some? && LinTerms(b).Some? {
        CombineNames(LinTerms(a).value, op, LinTerms(b).value);
      }
  }

  lemma CombineNames(x: Raw, op: BinOp, y: Raw)
    ensures Combine(x, op, y).Some? <==> (op.Times? ==> NamesOf(x.terms) == {} || NamesOf(y.terms) == {})
    ensures Combine(x, op, y).Some? ==> NamesOf(Combine(x, op, y).value.terms) == NamesOf(x.terms) + NamesOf(y.terms)
  {
    NoNames(x.terms);
    NoNames(y.terms);
    AddScaledNames(x.terms, 1, y.terms);
    AddScaledNames(x.terms, -1, y.terms);
    ScaleNames(x.constant, y.terms);
    ScaleNames(y.constant, x.terms);
  }

  // ---- One form per function ----

  /** All columns zero but `x`. */
  function UnitAt(x: string): string -> int {
    y => if y == x then 1 else 0
  }

  function CoeffAt(ts: seq<Term>, x: string): int {
    TermsValue(ts, UnitAt(x))
  }

  lemma {:induction false} ZeroValue(ts: seq<Term>)
    ensures TermsValue(ts, y => 0) == 0
  {
    if ts != [] {
      ZeroValue(ts[..|ts| - 1]);
    }
  }

  lemma {:induction false} AbsentAt(ts: seq<Term>, x: string)
    requires forall t :: t in ts ==> t.name != x
    ensures CoeffAt(ts, x) == 0
  {
    if ts != [] {
      var n := |ts| - 1;
      assert ts[n] in ts && forall t :: t in ts[..n] ==> t in ts;
      AbsentAt(ts[..n], x);
    }
  }

  lemma {:induction false} CoeffOfMember(ts: seq<Term>, t: Term)
    requires SortedNames(ts) && t in ts
    ensures CoeffAt(ts, t.name) == t.coeff
  {
    var n := |ts| - 1;
    forall i | 0 <= i < n ensures ts[i].name != ts[n].name {
      NameIrreflexive(ts[i].name);
    }
    if t == ts[n] {
      AbsentAt(ts[..n], t.name);
    } else {
      assert t in ts[..n];
      CoeffOfMember(ts[..n], t);
      var i :| 0 <= i < n && ts[i] == t;
      assert UnitAt(t.name)(ts[n].name) == 0;
    }
  }

  lemma CoefficientsAgree(f: LinForm, g: LinForm, p: int, t: Term)
    requires p > 0 && CanonicalForm(f, p) && CanonicalForm(g, p) && t in f.terms
    requires f.constant == g.constant && forall env :: Cong(FormValue(f, env), FormValue(g, env), p)
    ensures t in g.terms
  {
    var env := Env(UnitAt(t.name), id => 0);
    assert Cong(FormValue(f, env), FormValue(g, env), p);
    CoeffOfMember(f.terms, t);
    CongIff(FormValue(f, env), FormValue(g, env), p);
    var d := CoeffAt(g.terms, t.name);
    assert FormValue(f, env) - FormValue(g, env) == t.coeff - d;
    CongIff(t.coeff, d, p);
    if u :| u in g.terms && u.name == t.name {
      CoeffOfMember(g.terms, u);
      CongClose(t.coeff, d, p);
      assert u == t;
    } else {
      AbsentAt(g.terms, t.name);
      CongClose(t.coeff, 0, p);
    }
  }

  lemma ConstantsAgree(f: LinForm, g: LinForm, p: int)
    requires p > 0 && CanonicalForm(f, p) && CanonicalForm(g, p)
    requires forall env :: Cong(FormValue(f, env), FormValue(g, env), p)
    ensures f.constant == g.constant
  {
    var env := Env(y => 0, id => 0);
    assert Cong(FormValue(f, env), FormValue(g, env), p);
    ZeroValue(f.terms);
    ZeroValue(g.terms);
    assert FormValue(f, env) == TermsValue(f.terms, y => 0) + f.constant;
    assert FormValue(g, env) == TermsValue(g.terms, y => 0) + g.constant;
    CongClose(f.constant, g.constant, p);
  }

  /** Sorted sequences of the same terms are equal. */
  lemma {:induction false} SortedEqual(a: seq<Term>, b: seq<Term>)
    requires SortedNames(a) && SortedNames(b) && forall t :: t in a <==> t in b
    ensures a == b
  {
    assert (a != [] ==> a[0] in a) && (b != [] ==> b[0] in b);
    if a != [] {
      SameFirst(a, b);
      forall t ensures t in a[1..] <==> t in b[1..] {
        NotAgain(a, t);
        NotAgain(b, t);
      }
      SortedEqual(a[1..], b[1..]);
      assert a == [a[0]] + a[1..] && b == [b[0]] + b[1..];
    }
  }

  lemma SameFirst(a: seq<Term>, b: seq<Term>)
    requires a != [] && b != [] && SortedNames(a) && SortedNames(b) && a[0] in b && b[0] in a
    ensures a[0] == b[0]
  {
    if a[0] != b[0] {
      var i :| 0 <= i < |b| && b[i] == a[0];
      var j :| 0 <= j < |a| && a[j] == b[0];
      NameTotal(a[0].name, b[0].name);
    }
  }

  lemma NotAgain(a: seq<Term>, t: Term)
    requires a != [] && SortedNames(a)
    ensures t in a[1..] <==> t in a && t != a[0]
  {
    NameIrreflexive(a[0].name);
    assert a == [a[0]] + a[1..];
    if t in a[1..] {
      var i :| 0 <= i < |a[1..]| && a[1..][i] == t;
      assert a[i + 1] == t;
    }
  }

  /** Canonical forms with the same residues everywhere are the same form. */
  lemma FormIsUnique(f: LinForm, g: LinForm, p: int)
    requires p > 0 && CanonicalForm(f, p) && CanonicalForm(g, p)
    requires forall env :: Cong(FormValue(f, env), FormValue(g, env), p)
    ensures f == g
  {
    hide Cong, FormValue, CanonicalForm;
    ConstantsAgree(f, g, p);
    forall t ensures t in f.terms <==> t in g.terms {
      if t in f.terms {
        CoefficientsAgree(f, g, p, t);
      }
      if t in g.terms {
        CongSwap(f, g, p);
        CoefficientsAgree(g, f, p, t);
      }
    }
    CanonicalSorted(f, p);
    CanonicalSorted(g, p);
    SortedEqual(f.terms, g.terms);
  }

  lemma CanonicalSorted(f: LinForm, p: int)
    requires CanonicalForm(f, p)
    ensures SortedNames(f.terms)
  {
  }

  lemma CongSwap(f: LinForm, g: LinForm, p: int)
    requires p > 0 && forall env :: Cong(FormValue(f, env), FormValue(g, env), p)
    ensures forall env :: Cong(FormValue(g, env), FormValue(f, env), p)
  {
    hide FormValue;
  }

  lemma Through(a: int, b: int, c: int, p: int)
    requires p > 0 && Cong(a, b, p) && Cong(c, b, p)
    ensures Cong(a, c, p)
  {
  }

  /** The parse of an expression is the canonical form with its residues; there is one exactly for linear expressions. */
  lemma ParseLinExactly(e: Expr, p: int, lf: LinForm)
    requires p > 0
    ensures ParseLin(e, p) == Some(lf) <==>
      Linear(e) && CanonicalForm(lf, p) && forall env :: Cong(FormValue(lf, env), EvalExpr(e, env), p)
  {
    hide Cong, FormValue, CanonicalForm, LinTerms, Make;
    LinTermsExactly(e);
    if Linear(e) {
      var own := ParseLin(e, p).value;
      forall env ensures Cong(FormValue(own, env), EvalExpr(e, env), p) && CanonicalForm(own, p) {
        ParseLinValue(e, p, env);
      }
      ParseLinCanonical(e, p);
      if CanonicalForm(lf, p) && forall env :: Cong(FormValue(lf, env), EvalExpr(e, env), p) {
        forall env ensures Cong(FormValue(lf, env), FormValue(own, env), p) {
          Through(FormValue(lf, env), EvalExpr(e, env), FormValue(own, env), p);
        }
        FormIsUnique(lf, own, p);
      }
    }
  }
}
