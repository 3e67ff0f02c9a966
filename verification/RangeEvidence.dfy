/** The evidence search for a range-check row, by index, against a scan of every constraint. */
module RangeEvidence {
  import opened Wrappers
  import opened Residues
  import opened Primes
  import opened Sums
  import opened FieldForms
  import opened FieldGadgets
  import opened MultEvidence

  // ---- Proportional column parts ----

  function CoeffOf(ts: seq<Term>, x: string): int {
    if ts == [] then 0
    else if ts[|ts| - 1].name == x then ts[|ts| - 1].coeff
    else CoeffOf(ts[..|ts| - 1], x)
  }

  function Quotient(a: seq<Term>, t: Term, p: int): (k: int)
    requires p > 1
    ensures 0 <= k < p
  {
    (CoeffOf(a, t.name) * Inverse(t.coeff, p)) % p
  }

  /** The scalar taking `b` to `a`, if there is one. */
  function RatioOf(a: seq<Term>, b: seq<Term>, p: int): Option<int>
    requires p > 1
  {
    if b == [] || NamesOf(a) != NamesOf(b) then None
    else if forall t :: t in b ==> Quotient(a, t, p) == Quotient(a, b[0], p) then Some(Quotient(a, b[0], p))
    else None
  }

  method Proportional(a: seq<Term>, b: seq<Term>, p: int) returns (k: Option<int>)
    requires p > 1
    ensures k == RatioOf(a, b, p)
  {
    if b == [] || NamesOf(a) != NamesOf(b) {
      return None;
    }
    k := None;
    for i := 0 to |b|
      invariant k == if i == 0 then None else Some(Quotient(a, b[0], p))
      invariant forall j :: 0 <= j < i ==> Quotient(a, b[j], p) == Quotient(a, b[0], p)
    {
      var kk := Quotient(a, b[i], p);
      if k.None? {
        k := Some(kk);
      } else if k.value != kk {
        assert b[i] in b;
        return None;
      }
    }
  }

  ghost predicate Invertible(ts: seq<Term>, p: int)
    requires p > 0
  {
    forall t :: t in ts ==> t.coeff % p != 0
  }

  ghost predicate Multiple(a: seq<Term>, k: int, b: seq<Term>, p: int)
    requires p > 0
  {
    NamesOf(a) == NamesOf(b) && forall t :: t in b ==> Cong(CoeffOf(a, t.name), k * t.coeff, p)
  }

  lemma QuotientMeans(x: int, c: int, k: int, p: int)
    requires Prime(p) && c % p != 0 && 0 <= k < p
    ensures (x * Inverse(c, p)) % p == k <==> Cong(x, k * c, p)
  {
    var d := Inverse(c, p);
    LinearRoot(c, -x, k, p);
    assert c * k + -x == k * c - x && -(-x) * d == x * d;
    CongIff(k * c, x, p);
    Small(0, p);
    Small(k, p);
  }

  /** A ratio is found exactly when one vector is a field multiple of the other. */
  lemma RatioMeans(a: seq<Term>, b: seq<Term>, k: int, p: int)
    requires Prime(p) && Invertible(b, p) && 0 <= k < p
    ensures RatioOf(a, b, p) == Some(k) <==> b != [] && Multiple(a, k, b, p)
  {
    hide Cong, CoeffOf, Inverse;
    forall t | t in b ensures Quotient(a, t, p) == k <==> Cong(CoeffOf(a, t.name), k * t.coeff, p) {
      QuotientMeans(CoeffOf(a, t.name), t.coeff, k, p);
    }
    if b != [] {
      assert b[0] in b;
    }
  }

  lemma LastNames(a: seq<Term>, b: seq<Term>)
    requires SortedNames(a) && SortedNames(b) && b != [] && NamesOf(a) == NamesOf(b)
    ensures a != [] && a[|a| - 1].name == b[|b| - 1].name
    ensures NamesOf(a[..|a| - 1]) == NamesOf(b[..|b| - 1])
  {
    assert b[0].name in NamesOf(b);
    var x, y := a[|a| - 1], b[|b| - 1];
    assert x.name in NamesOf(a) && y.name in NamesOf(b);
    var s :| s in b && s.name == x.name;
    var t :| t in a && t.name == y.name;
    LastIsGreatest(a, t);
    LastIsGreatest(b, s);
    NameTotal(x.name, y.name);
    FrontNames(a);
    FrontNames(b);
  }

  lemma LastIsGreatest(ts: seq<Term>, t: Term)
    requires SortedNames(ts) && t in ts
    ensures t.name == ts[|ts| - 1].name || NameLess(t.name, ts[|ts| - 1].name)
  {
    var i :| 0 <= i < |ts| && ts[i] == t;
  }

  lemma FrontNames(ts: seq<Term>)
    requires SortedNames(ts) && ts != []
    ensures NamesOf(ts[..|ts| - 1]) == NamesOf(ts) - {ts[|ts| - 1].name}
  {
    SortedIsDistinct(ts);
    var n := |ts| - 1;
    forall x ensures x in NamesOf(ts[..n]) <==> x in NamesOf(ts) - {ts[n].name} {
      if x in NamesOf(ts) - {ts[n].name} {
        var t :| t in ts && t.name == x;
        assert t in ts[..n];
      }
      if x in NamesOf(ts[..n]) {
        var i :| 0 <= i < n && ts[..n][i].name == x;
        assert ts[i] in ts;
      }
    }
  }

  lemma FrontMultiple(a: seq<Term>, k: int, b: seq<Term>, p: int)
    requires p > 0 && SortedNames(a) && SortedNames(b) && b != [] && Multiple(a, k, b, p)
    ensures a != [] && a[|a| - 1].name == b[|b| - 1].name && Cong(a[|a| - 1].coeff, k * b[|b| - 1].coeff, p)
    ensures Multiple(a[..|a| - 1], k, b[..|b| - 1], p)
  {
    hide Cong;
    LastNames(a, b);
    SortedIsDistinct(b);
    assert b[|b| - 1] in b;
    forall t | t in b[..|b| - 1] ensures Cong(CoeffOf(a[..|a| - 1], t.name), k * t.coeff, p) {
      assert t in b && t.name != b[|b| - 1].name;
    }
  }

  /** Multiples of coefficient vectors have multiples as values. */
  lemma {:induction false} MultipleValue(a: seq<Term>, k: int, b: seq<Term>, p: int, env: string -> int)
    requires p > 0 && SortedNames(a) && SortedNames(b) && Multiple(a, k, b, p)
    ensures Cong(TermsValue(a, env), k * TermsValue(b, env), p)
  {
    hide Cong, Multiple;
    if b == [] {
      NoNames(a, k, b, p);
      Refl(0, p);
    } else {
      FrontMultiple(a, k, b, p);
      var x, y := a[|a| - 1], b[|b| - 1];
      var v := env(y.name);
      MultipleValue(a[..|a| - 1], k, b[..|b| - 1], p, env);
      Refl(v, p);
      MulCong(x.coeff, k * y.coeff, v, v, p);
      AddCong(TermsValue(a[..|a| - 1], env), k * TermsValue(b[..|b| - 1], env), x.coeff * v, k * y.coeff * v, p);
      ScaledSnoc(k, TermsValue(b[..|b| - 1], env), y.coeff, v);
    }
  }

  lemma NoNames(a: seq<Term>, k: int, b: seq<Term>, p: int)
    requires p > 0 && Multiple(a, k, b, p) && b == []
    ensures a == []
  {
    NamesInhabited(a);
  }

  lemma NamesInhabited(ts: seq<Term>)
    ensures ts != [] ==> NamesOf(ts) != {}
  {
    if ts != [] {
      assert ts[0].name in NamesOf(ts);
    }
  }

  // ---- The search ----

  datatype Evidence = Evidence(sources: seq<nat>, selector: bool)

  /** The constraint holds the residual at a nonzero constant. */
  predicate Qualifies(forms: Forms, subs: map<string, int>, resid: LinForm, p: int, i: nat)
    requires p > 1
  {
    && i < |forms| && forms[i].Some?
    && var lc := Subst(forms[i].value, subs, p);
    && var k := RatioOf(lc.terms, resid.terms, p);
    && k.Some? && (resid.constant - lc.constant * Inverse(k.value, p)) % p != 0
  }

  /** Linear scan in index order. */
  function Scan(forms: Forms, subs: map<string, int>, resid: LinForm, p: int, i: nat): (r: Option<nat>)
    requires p > 1 && i <= |forms|
    decreases |forms| - i
  {
    if i == |forms| then None
    else if Qualifies(forms, subs, resid, p, i) then Some(i)
    else Scan(forms, subs, resid, p, i + 1)
  }

  /** Only a constraint with the residual's support can qualify. */
  lemma QualifiedIsCandidate(forms: Forms, subs: map<string, int>, resid: LinForm, p: int, i: nat)
    requires Prime(p) && Canonical(forms, p) && Qualifies(forms, subs, resid, p, i)
    ensures i in Candidates(forms, subs.Keys, Columns(resid))
  {
    hide Subst, CanonicalForm;
    SubstColumns(forms[i].value, subs, p);
  }

  function CitedSubs(ts: seq<Term>, singles: map<string, (int, nat)>): map<string, int> {
    map t | t in ts && t.name in singles :: t.name := singles[t.name].0
  }

  function CitedSources(ts: seq<Term>, singles: map<string, (int, nat)>): seq<nat> {
    if ts == [] then []
    else
      var rest, x := CitedSources(ts[..|ts| - 1], singles), ts[|ts| - 1].name;
      if x in singles then rest + [singles[x].1] else rest
  }

  /** What the search finds when it scans every constraint. */
  ghost function ScanEvidence(mult: Option<Expr>, forms: Forms, pins: map<string, int>, singles: map<string, (int, nat)>,
                        selector: Option<string>, p: int): Option<Evidence>
    requires p > 1
  {
    if mult.None? then Some(Evidence([], false))
    else
      match ParseLin(mult.value, p)
      case None => None
      case Some(lf) =>
        var folded := Subst(lf, pins, p);
        if folded.terms == [] && folded.constant % p == 0 then None
        else
          var subs, srcs := CitedSubs(lf.terms, singles), CitedSources(lf.terms, singles);
          var resid := Subst(lf, subs, p);
          if resid.terms == [] then (if resid.constant % p != 0 then Some(Evidence(srcs, false)) else None)
          else if OnlySelector(resid, selector) then Some(Evidence(srcs, true))
          else
            match Scan(forms, subs, resid, p, 0)
            case None => None
            case Some(i) => Some(Evidence(srcs + [i], false))
  }

  predicate SelectsBlock(resid: LinForm, selector: Option<string>) {
    selector.Some? && resid.constant == 0 && |resid.terms| == 1 && resid.terms[0].name == selector.value
  }

  /** A multiple of the block selector. */
  ghost predicate OnlySelector(resid: LinForm, selector: Option<string>) {
    selector.Some? && exists c :: resid == LinForm([Term(selector.value, c)], 0)
  }

  lemma SelectsExactly(resid: LinForm, selector: Option<string>)
    ensures SelectsBlock(resid, selector) <==> OnlySelector(resid, selector)
  {
    if SelectsBlock(resid, selector) {
      assert resid == LinForm([Term(selector.value, resid.terms[0].coeff)], 0);
    }
  }

  method Cite(ts: seq<Term>, singles: map<string, (int, nat)>)
    returns (subs: map<string, int>, srcs: seq<nat>, pinned: seq<string>)
    ensures subs == CitedSubs(ts, singles) && srcs == CitedSources(ts, singles)
    ensures ToSet(pinned) == subs.Keys
  {
    subs, srcs, pinned := map[], [], [];
    for i := 0 to |ts|
      invariant subs == CitedSubs(ts[..i], singles) && srcs == CitedSources(ts[..i], singles)
      invariant ToSet(pinned) == subs.Keys
    {
      var x := ts[i].name;
      CiteStep(ts, singles, i);
      if x in singles {
        ghost var before := pinned;
        subs, srcs, pinned := subs[x := singles[x].0], srcs + [singles[x].1], pinned + [x];
        assert ToSet(pinned) == ToSet(before) + {x};
      }
    }
    assert ts[..|ts|] == ts;
  }

  lemma CiteStep(ts: seq<Term>, singles: map<string, (int, nat)>, i: nat)
    requires i < |ts|
    ensures var x := ts[i].name;
      && CitedSubs(ts[..i + 1], singles) == (if x in singles then CitedSubs(ts[..i], singles)[x := singles[x].0] else CitedSubs(ts[..i], singles))
      && CitedSources(ts[..i + 1], singles) == CitedSources(ts[..i], singles) + (if x in singles then [singles[x].1] else [])
  {
    assert ts[..i + 1] == ts[..i] + [ts[i]];
    assert ts[..i + 1][..i] == ts[..i];
  }

  method SearchIndex(forms: Forms, index: Index, subs: map<string, int>, pinned: seq<string>, resid: LinForm, p: int)
    returns (r: Option<nat>)
    requires Prime(p) && Canonical(forms, p) && ExactIndex(forms, index)
    requires ToSet(pinned) == subs.Keys && Columns(resid) !! subs.Keys
    ensures r == Scan(forms, subs, resid, p, 0)
  {
    var cand: set<nat>;
    if Pow2(|pinned|) <= |index| {
      cand := LookupSubsets(forms, index, pinned, Columns(resid));
    } else {
      cand := WalkIndex(forms, index, subs.Keys, Columns(resid));
    }
    r := ScanCandidates(forms, cand, subs, resid, p);
  }

  /** Visits the candidates in ascending order. */
  method ScanCandidates(forms: Forms, cand: set<nat>, subs: map<string, int>, resid: LinForm, p: int) returns (r: Option<nat>)
    requires Prime(p) && Canonical(forms, p) && cand == Candidates(forms, subs.Keys, Columns(resid))
    ensures r == Scan(forms, subs, resid, p, 0)
  {
    hide Subst, RatioOf, Inverse, Canonical;
    for i := 0 to |forms|
      invariant Scan(forms, subs, resid, p, 0) == Scan(forms, subs, resid, p, i)
    {
      if i in cand {
        var lc := Subst(forms[i].value, subs, p);
        var k := Proportional(lc.terms, resid.terms, p);
        if k.Some? && (resid.constant - lc.constant * Inverse(k.value, p)) % p != 0 {
          return Some(i);
        }
      } else if Qualifies(forms, subs, resid, p, i) {
        QualifiedIsCandidate(forms, subs, resid, p, i);
      }
    }
    return None;
  }

  function Pow2(n: nat): nat {
    if n == 0 then 1 else 2 * Pow2(n - 1)
  }

  /** The indexed search returns what the scan returns. */
  method RangeMultEvidence(mult: Option<Expr>, forms: Forms, pins: map<string, int>, singles: map<string, (int, nat)>,
                           index: Index, selector: Option<string>, p: int) returns (r: Option<Evidence>)
    requires Prime(p) && Canonical(forms, p) && ExactIndex(forms, index)
    ensures r == ScanEvidence(mult, forms, pins, singles, selector, p)
  {
    hide OnlySelector, SelectsBlock, Scan, CitedSubs, CitedSources, Canonical, ExactIndex;
    if mult.None? {
      return Some(Evidence([], false));
    }
    var parsed := ParseLin(mult.value, p);
    if parsed.None? {
      return None;
    }
    var lf := parsed.value;
    var folded := Subst(lf, pins, p);
    if folded.terms == [] && folded.constant % p == 0 {
      return None;
    }
    var subs, srcs, pinned := Cite(lf.terms, singles);
    var resid := Subst(lf, subs, p);
    if resid.terms == [] {
      return if resid.constant % p != 0 then Some(Evidence(srcs, false)) else None;
    }
    SelectsExactly(resid, selector);
    if SelectsBlock(resid, selector) {
      return Some(Evidence(srcs, true));
    }
    ParseLinCanonical(mult.value, p);
    SubstColumns(lf, subs, p);
    var found := SearchIndex(forms, index, subs, pinned, resid, p);
    r := if found.Some? then Some(Evidence(srcs + [found.value], false)) else None;
  }

  // ---- What the evidence proves ----

  lemma CitedHold(ts: seq<Term>, forms: Forms, singles: map<string, (int, nat)>, p: int, env: Env)
    requires Prime(p) && Canonical(forms, p) && FormsVanish(forms, p, env) && IsSingles(forms, singles, p)
    ensures PinsHold(CitedSubs(ts, singles), p, env)
  {
    hide Cong, FormValue, CanonicalForm, Inverse;
    forall x | x in CitedSubs(ts, singles) ensures Cong(env.cols(x), CitedSubs(ts, singles)[x], p) {
      assert IsSingle(forms, x, singles[x], p);
      SingleColExact(forms[singles[x].1].value, p, env);
    }
  }

  /** A qualifying constraint keeps the residual off zero. */
  lemma QualifiedNonzero(forms: Forms, subs: map<string, int>, resid: LinForm, p: int, i: nat, env: Env)
    requires Prime(p) && Canonical(forms, p) && FormsVanish(forms, p, env) && PinsHold(subs, p, env)
    requires CanonicalForm(resid, p) && Qualifies(forms, subs, resid, p, i)
    ensures !Cong(FormValue(resid, env), 0, p)
  {
    hide Cong, Subst, Inverse;
    var lc := Subst(forms[i].value, subs, p);
    var k := RatioOf(lc.terms, resid.terms, p).value;
    var lcValue, r := TermsValue(lc.terms, env.cols), TermsValue(resid.terms, env.cols);
    SubstColumns(forms[i].value, subs, p);
    SubstVanishes(forms[i].value, subs, p, env);
    CanonicalInvertible(resid, p);
    CanonicalInvertible(lc, p);
    RatioMeans(lc.terms, resid.terms, k, p);
    RatioNonzero(lc.terms, k, resid.terms, p);
    MultipleValue(lc.terms, k, resid.terms, p, env.cols);
    Shifted(lcValue, k * r, lc.constant, p);
    LinearRoot(k, lc.constant, r, p);
    OffZero(r, lc.constant, resid.constant, Inverse(k, p), p);
  }

  lemma Shifted(a: int, b: int, c: int, p: int)
    requires p > 0 && Cong(a, b, p) && Cong(a + c, 0, p)
    ensures Cong(b + c, 0, p)
  {
    CongAdd(a, b, c, c, p);
  }

  lemma OffZero(r: int, c: int, e: int, d: int, p: int)
    requires p > 0 && Cong(r, -c * d, p) && (e - c * d) % p != 0
    ensures !Cong(r + e, 0, p)
  {
    CongAdd(r, -c * d, e, e, p);
    assert -c * d + e == e - c * d;
    Small(0, p);
  }

  lemma CanonicalInvertible(lf: LinForm, p: int)
    requires p > 0 && CanonicalForm(lf, p)
    ensures Invertible(lf.terms, p)
  {
    forall t | t in lf.terms ensures t.coeff % p != 0 {
      CanonicalNonzero(t.coeff, p);
    }
  }

  lemma RatioNonzero(a: seq<Term>, k: int, b: seq<Term>, p: int)
    requires Prime(p) && b != [] && SortedNames(a) && SortedNames(b) && Invertible(a, p) && Multiple(a, k, b, p)
    ensures k % p != 0
  {
    FrontMultiple(a, k, b, p);
    var x, y := a[|a| - 1], b[|b| - 1];
    assert x in a;
    if k % p == 0 {
      ProductZero(k, y.coeff, p);
    }
  }

  /** Evidence proves the multiplicity nonzero in every model of the constraints; when it rests on the block
      selector, in every model where the selector is one. */
  lemma EvidenceProves(mult: Expr, cons: seq<Expr>, pins: map<string, int>, singles: map<string, (int, nat)>,
                       selector: Option<string>, p: int, env: Env)
    requires Prime(p) && AllZero(cons, p, env) && IsSingles(ParseAll(cons, p), singles, p)
    requires ScanEvidence(Some(mult), ParseAll(cons, p), pins, singles, selector, p).Some?
    requires ScanEvidence(Some(mult), ParseAll(cons, p), pins, singles, selector, p).value.selector ==>
      Cong(env.cols(selector.value), 1, p)
    ensures !Zero(mult, p, env)
  {
    hide Cong, Inverse, Scan, CanonicalForm, RatioOf, Qualifies, MakeTerms, PinnedSum, KeptTerms, ParseAll, LinTerms, AllZero;
    var forms := ParseAll(cons, p);
    ParsedVanish(cons, p, env);
    var lf := ParseLin(mult, p).value;
    var subs := CitedSubs(lf.terms, singles);
    var resid := Subst(lf, subs, p);
    CitedHold(lf.terms, forms, singles, p, env);
    ParseLinValue(mult, p, env);
    SubstColumns(lf, subs, p);
    SubstValue(lf, subs, p, env);
    Trans(FormValue(resid, env), FormValue(lf, env), EvalExpr(mult, env), p);
    ResidualNonzero(forms, subs, resid, selector, p, env);
    if Zero(mult, p, env) {
      Trans(FormValue(resid, env), EvalExpr(mult, env), 0, p);
    }
  }

  lemma ResidualNonzero(forms: Forms, subs: map<string, int>, resid: LinForm, selector: Option<string>, p: int, env: Env)
    requires Prime(p) && Canonical(forms, p) && FormsVanish(forms, p, env) && PinsHold(subs, p, env) && CanonicalForm(resid, p)
    requires resid.terms == [] ==> resid.constant % p != 0
    requires OnlySelector(resid, selector) ==> Cong(env.cols(selector.value), 1, p)
    requires resid.terms != [] && !OnlySelector(resid, selector) ==> Scan(forms, subs, resid, p, 0).Some?
    ensures !Cong(FormValue(resid, env), 0, p)
  {
    if resid.terms == [] {
      Small(0, p);
    } else if OnlySelector(resid, selector) {
      var k, v := resid.terms[0].coeff, env.cols(selector.value);
      SingleValue(resid, env);
      assert resid.terms[0] in resid.terms;
      CanonicalNonzero(k, p);
      CongMulLeft(v, 1, k, p);
      Small(0, p);
    } else {
      ScanFinds(forms, subs, resid, p, 0);
      QualifiedNonzero(forms, subs, resid, p, Scan(forms, subs, resid, p, 0).value, env);
    }
  }

  /** A row declined as disabled is never sent. */
  lemma DisabledIsZero(mult: Expr, forms: Forms, pins: map<string, int>, p: int, env: Env)
    requires Prime(p) && SoundPins(forms, pins, p) && FormsVanish(forms, p, env) && ParseLin(mult, p).Some?
    requires var folded := Subst(ParseLin(mult, p).value, pins, p); folded.terms == [] && folded.constant % p == 0
    ensures Zero(mult, p, env)
  {
    hide LinTerms, MakeTerms, KeptTerms, PinnedSum;
    var lf := ParseLin(mult, p).value;
    ParseLinValue(mult, p, env);
    SubstValue(lf, pins, p, env);
    Small(0, p);
  }

  /** The scan stops at the first qualifying constraint. */
  lemma {:induction false} ScanFinds(forms: Forms, subs: map<string, int>, resid: LinForm, p: int, i: nat)
    requires p > 1 && i <= |forms|
    ensures var r := Scan(forms, subs, resid, p, i);
      && (r.Some? ==> i <= r.value && Qualifies(forms, subs, resid, p, r.value))
      && (forall j: nat :: i <= j < (if r.Some? then r.value else |forms|) ==> !Qualifies(forms, subs, resid, p, j))
    decreases |forms| - i
  {
    hide Qualifies;
    if i < |forms| && !Qualifies(forms, subs, resid, p, i) {
      ScanFinds(forms, subs, resid, p, i + 1);
    }
  }
}
