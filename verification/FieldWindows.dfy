/** Window arguments: when a field equation has exactly one integer reading. */
module FieldWindows {
  import opened Wrappers
  import opened Residues
  import opened Primes
  import opened Sums
  import opened FieldForms
  import opened FieldGadgets
  import opened FieldBounds

  function Min0(x: int): int { if x < 0 then x else 0 }

  function Max0(x: int): int { if x > 0 then x else 0 }

  /** A column whose bound is usable in a window: finite and non-negative. */
  predicate Usable(bs: Bounds, x: string) {
    x in bs && bs[x].hi.Some? && bs[x].lo >= 0
  }

  /** The integer interval of `sum + constant`. */
  function WindowOf(ts: seq<Term>, constant: int, bs: Bounds): Option<(int, int)> {
    if ts == [] then Some((constant, constant))
    else
      var t := ts[|ts| - 1];
      match WindowOf(ts[..|ts| - 1], constant, bs)
      case None => None
      case Some(w) =>
        if !Usable(bs, t.name) then None
        else
          var top := bs[t.name].hi.value - 1;
          Some((w.0 + Min0(t.coeff * top), w.1 + Max0(t.coeff * top)))
  }

  lemma {:induction false} NoWindowStays(ts: seq<Term>, constant: int, bs: Bounds, i: nat)
    requires i <= |ts| && WindowOf(ts[..i], constant, bs).None?
    ensures WindowOf(ts, constant, bs).None?
    decreases |ts| - i
  {
    if i < |ts| {
      assert ts[..i + 1][..i] == ts[..i];
      NoWindowStays(ts, constant, bs, i + 1);
    } else {
      assert ts[..i] == ts;
    }
  }

  method Window(ts: seq<Term>, constant: int, bs: Bounds) returns (r: Option<(int, int)>)
    ensures r == WindowOf(ts, constant, bs)
  {
    var lo, hi := constant, constant;
    for i := 0 to |ts|
      invariant WindowOf(ts[..i], constant, bs) == Some((lo, hi))
    {
      var t := ts[i];
      assert ts[..i + 1][..i] == ts[..i];
      if !Usable(bs, t.name) {
        NoWindowStays(ts, constant, bs, i + 1);
        return None;
      }
      var top := bs[t.name].hi.value - 1;
      lo, hi := lo + Min0(t.coeff * top), hi + Max0(t.coeff * top);
    }
    assert ts[..|ts|] == ts;
    return Some((lo, hi));
  }

  lemma TermInWindow(c: int, v: int, top: int)
    requires 0 <= v <= top
    ensures Min0(c * top) <= c * v <= Max0(c * top)
  {
    if c >= 0 {
      ProductMonotone(c, v, top);
      ProductMonotone(c, 0, v);
    } else {
      ProductMonotone(-c, v, top);
      ProductMonotone(-c, 0, v);
    }
  }

  /** The value lies in its window in every model of the bounds. */
  lemma {:induction false} WindowHolds(ts: seq<Term>, constant: int, bs: Bounds, env: Env)
    requires WindowOf(ts, constant, bs).Some? && BoundsHold(bs, env)
    ensures var (lo, hi) := WindowOf(ts, constant, bs).value; lo <= TermsValue(ts, env.cols) + constant <= hi
  {
    if ts != [] {
      var t := ts[|ts| - 1];
      WindowHolds(ts[..|ts| - 1], constant, bs, env);
      assert Within(bs[t.name], env.cols(t.name));
      TermInWindow(t.coeff, env.cols(t.name), bs[t.name].hi.value - 1);
    }
  }

  // ---- The window is tight ----

  /** A column known to lie in a finite range without negative values. */
  ghost predicate Ranged(bs: Bounds, x: string) {
    x in bs && bs[x].hi.Some? && 0 <= bs[x].lo
  }

  /** Each column at the end of its range, zero or the last value, that makes its term least. */
  ghost predicate LeastAt(ts: seq<Term>, bs: Bounds, u: string -> int) {
    forall t :: t in ts ==>
      && Ranged(bs, t.name) && (u(t.name) == 0 || u(t.name) == bs[t.name].hi.value - 1)
      && t.coeff * u(t.name) <= 0 && t.coeff * u(t.name) <= t.coeff * (bs[t.name].hi.value - 1)
  }

  ghost predicate MostAt(ts: seq<Term>, bs: Bounds, u: string -> int) {
    forall t :: t in ts ==>
      && Ranged(bs, t.name) && (u(t.name) == 0 || u(t.name) == bs[t.name].hi.value - 1)
      && t.coeff * u(t.name) >= 0 && t.coeff * u(t.name) >= t.coeff * (bs[t.name].hi.value - 1)
  }

  lemma TermEnds(t: Term, top: int, u: int, v: int)
    requires (u == 0 || u == top) && t.coeff * u <= 0 && t.coeff * u <= t.coeff * top
    requires (v == 0 || v == top) && t.coeff * v >= 0 && t.coeff * v >= t.coeff * top
    ensures t.coeff * u == Min0(t.coeff * top) && t.coeff * v == Max0(t.coeff * top)
  {
  }

  /** The ends of the window are the values of the sum at those ends. */
  lemma {:induction false} WindowIsTight(ts: seq<Term>, constant: int, bs: Bounds, u: string -> int, v: string -> int)
    requires LeastAt(ts, bs, u) && MostAt(ts, bs, v)
    ensures WindowOf(ts, constant, bs) == Some((TermsValue(ts, u) + constant, TermsValue(ts, v) + constant))
  {
    if ts != [] {
      var n := |ts| - 1;
      EndsOfPrefix(ts, bs, u, v);
      WindowIsTight(ts[..n], constant, bs, u, v);
      assert ts[n] in [ts[n]];
      TermEnds(ts[n], bs[ts[n].name].hi.value - 1, u(ts[n].name), v(ts[n].name));
    }
  }

  lemma EndsOfPrefix(ts: seq<Term>, bs: Bounds, u: string -> int, v: string -> int)
    requires ts != [] && LeastAt(ts, bs, u) && MostAt(ts, bs, v)
    ensures LeastAt(ts[..|ts| - 1], bs, u) && MostAt(ts[..|ts| - 1], bs, v)
    ensures var t := ts[|ts| - 1]; LeastAt([t], bs, u) && MostAt([t], bs, v) && Usable(bs, t.name)
  {
    assert ts[|ts| - 1] in ts;
    assert forall t :: t in ts[..|ts| - 1] ==> t in ts;
  }

  /** There is none exactly when some column has no such range. */
  lemma {:induction false} NoWindowExactly(ts: seq<Term>, constant: int, bs: Bounds)
    ensures WindowOf(ts, constant, bs).None? <==> exists t :: t in ts && !Ranged(bs, t.name)
  {
    if ts != [] {
      var n := |ts| - 1;
      assert ts == ts[..n] + [ts[n]] && ts[n] in ts;
      NoWindowExactly(ts[..n], constant, bs);
      assert Ranged(bs, ts[n].name) <==> Usable(bs, ts[n].name);
      if t :| t in ts && !Ranged(bs, t.name) {
        assert t in ts[..n] || t == ts[n];
      }
      if t :| t in ts[..n] && !Ranged(bs, t.name) {
        assert t in ts;
      }
    }
  }

  predicate WindowSound(w: (int, int), p: int) {
    w.0 > -p && w.1 < p
  }

  /** Every column has a finite range without negative values, and at every choice of ends the sum stays strictly
      between `-p` and `p`. */
  ghost predicate Narrow(ts: seq<Term>, constant: int, bs: Bounds, p: int) {
    && (forall t :: t in ts ==> Ranged(bs, t.name))
    && (forall u: string -> int :: LeastAt(ts, bs, u) ==> -p < TermsValue(ts, u) + constant)
    && (forall v: string -> int :: MostAt(ts, bs, v) ==> TermsValue(ts, v) + constant < p)
  }

  lemma EndsExist(ts: seq<Term>, bs: Bounds) returns (u: string -> int, v: string -> int)
    requires DistinctNames(ts) && forall t :: t in ts ==> Ranged(bs, t.name)
    ensures LeastAt(ts, bs, u) && MostAt(ts, bs, v)
  {
    u := x => if exists t :: t in ts && t.name == x && t.coeff * (bs[x].hi.value - 1) < 0 then bs[x].hi.value - 1 else 0;
    v := x => if exists t :: t in ts && t.name == x && t.coeff * (bs[x].hi.value - 1) > 0 then bs[x].hi.value - 1 else 0;
    forall t, s | t in ts && s in ts && t.name == s.name ensures t == s {
    }
  }

  /** The test on the window is that the sum stays below `p` at both ends. */
  lemma NarrowExactly(ts: seq<Term>, constant: int, bs: Bounds, p: int)
    requires DistinctNames(ts)
    ensures (WindowOf(ts, constant, bs).Some? && WindowSound(WindowOf(ts, constant, bs).value, p)) <==> Narrow(ts, constant, bs, p)
  {
    NoWindowExactly(ts, constant, bs);
    if forall t :: t in ts ==> Ranged(bs, t.name) {
      var u, v := EndsExist(ts, bs);
      forall u', v' | LeastAt(ts, bs, u') && MostAt(ts, bs, v')
        ensures WindowOf(ts, constant, bs) == Some((TermsValue(ts, u') + constant, TermsValue(ts, v') + constant)) {
        WindowIsTight(ts, constant, bs, u', v');
      }
    }
  }

  /** In a sound window a field equation is an integer equation. */
  lemma WindowExact(ts: seq<Term>, constant: int, bs: Bounds, p: int, env: Env)
    requires p > 0 && WindowOf(ts, constant, bs).Some? && WindowSound(WindowOf(ts, constant, bs).value, p)
    requires BoundsHold(bs, env)
    ensures Cong(TermsValue(ts, env.cols) + constant, 0, p) <==> TermsValue(ts, env.cols) + constant == 0
  {
    var v := TermsValue(ts, env.cols) + constant;
    WindowHolds(ts, constant, bs, env);
    if Cong(v, 0, p) {
      CongClose(v, 0, p);
    }
  }

  // ---- Gaps ----

  /** `later == earlier + gap`. */
  datatype GapFact = GapFact(later: string, earlier: string, gap: int)

  function GapFactOf(g: ColGap, clocks: set<string>, bs: Bounds, p: int, tsMax: int): Option<GapFact> {
    if g.pos !in clocks || g.neg !in clocks then None
    else if g.pos !in bs || bs[g.pos].hi.None? || g.neg !in bs || bs[g.neg].hi.None? then None
    else if !WindowSound((g.constant - bs[g.neg].hi.value, g.constant + bs[g.pos].hi.value), p) then None
    else
      var gap := -g.constant;
      if gap == 0 || gap >= tsMax || -gap >= tsMax then None
      else Some(if gap > 0 then GapFact(g.pos, g.neg, gap) else GapFact(g.neg, g.pos, -gap))
  }

  /** A gap fact is positive and holds between integers. */
  lemma GapFactHolds(g: ColGap, clocks: set<string>, bs: Bounds, p: int, tsMax: int, env: Env)
    requires p > 0 && GapFactOf(g, clocks, bs, p, tsMax).Some?
    requires FieldEnv(env, p) && BoundsHold(bs, env) && GapHolds(g, p, env)
    ensures var f := GapFactOf(g, clocks, bs, p, tsMax).value;
      f.gap > 0 && env.cols(f.later) == env.cols(f.earlier) + f.gap
  {
    var v := env.cols(g.pos) - env.cols(g.neg) + g.constant;
    assert Within(bs[g.pos], env.cols(g.pos)) && Within(bs[g.neg], env.cols(g.neg));
    CongClose(v, 0, p);
  }

  // ---- Receive bounds ----

  /** `pv <= fs + constant`. */
  datatype RecvUpper = RecvUpper(pv: string, fs: string, constant: int)

  predicate UpperHolds(f: RecvUpper, env: Env) {
    env.cols(f.pv) <= env.cols(f.fs) + f.constant
  }

  /** Terms over columns of `keep`. */
  function Selected(ts: seq<Term>, keep: set<string>): (r: seq<Term>)
    ensures forall t :: t in r <==> t in ts && t.name in keep
  {
    if ts == [] then []
    else
      var front, last := ts[..|ts| - 1], ts[|ts| - 1];
      assert ts == front + [last];
      Selected(front, keep) + (if last.name in keep then [last] else [])
  }

  /** Terms over columns outside both sets. */
  function Remaining(ts: seq<Term>, a: set<string>, b: set<string>): (r: seq<Term>)
    ensures forall t :: t in r <==> t in ts && t.name !in a && t.name !in b
  {
    if ts == [] then []
    else
      var front, last := ts[..|ts| - 1], ts[|ts| - 1];
      assert ts == front + [last];
      Remaining(front, a, b) + (if last.name in a || last.name in b then [] else [last])
  }

  lemma SelectedLast(ts: seq<Term>, keep: set<string>, env: string -> int)
    requires ts != []
    ensures var front, t := ts[..|ts| - 1], ts[|ts| - 1];
      TermsValue(Selected(ts, keep), env)
        == TermsValue(Selected(front, keep), env) + if t.name in keep then t.coeff * env(t.name) else 0
  {
    hide TermsValue;
    var s, t := Selected(ts[..|ts| - 1], keep), ts[|ts| - 1];
    assert Selected(ts, keep) == if t.name in keep then s + [t] else s;
    SnocValue(s, t, env);
  }

  lemma RemainingLast(ts: seq<Term>, a: set<string>, b: set<string>, env: string -> int)
    requires ts != []
    ensures var front, t := ts[..|ts| - 1], ts[|ts| - 1];
      TermsValue(Remaining(ts, a, b), env)
        == TermsValue(Remaining(front, a, b), env) + if t.name in a || t.name in b then 0 else t.coeff * env(t.name)
  {
    hide TermsValue;
    var s, t := Remaining(ts[..|ts| - 1], a, b), ts[|ts| - 1];
    assert Remaining(ts, a, b) == if t.name in a || t.name in b then s else s + [t];
    SnocValue(s, t, env);
  }

  lemma {:induction false} SplitValue(ts: seq<Term>, a: set<string>, b: set<string>, env: string -> int)
    requires a !! b
    ensures TermsValue(ts, env)
         == TermsValue(Selected(ts, a), env) + TermsValue(Selected(ts, b), env) + TermsValue(Remaining(ts, a, b), env)
  {
    hide Selected, Remaining;
    if ts == [] {
      NothingSelected(a, b, env);
    } else {
      SplitValue(ts[..|ts| - 1], a, b, env);
      SelectedLast(ts, a, env);
      SelectedLast(ts, b, env);
      RemainingLast(ts, a, b, env);
    }
  }

  lemma NothingSelected(a: set<string>, b: set<string>, env: string -> int)
    ensures TermsValue(Selected([], a), env) == TermsValue(Selected([], b), env) == TermsValue(Remaining([], a, b), env) == 0
  {
  }

  lemma {:induction false} NegativeSum(ts: seq<Term>, env: Env)
    requires forall t :: t in ts ==> t.coeff < 0 && env.cols(t.name) >= 0
    ensures TermsValue(ts, env.cols) <= 0
  {
    if ts != [] {
      var t := ts[|ts| - 1];
      NegativeSum(ts[..|ts| - 1], env);
      ProductMonotone(-t.coeff, 0, env.cols(t.name));
    }
  }

  lemma OneTerm(t: Term, env: string -> int)
    ensures TermsValue([t], env) == t.coeff * env(t.name)
  {
    SnocValue([], t, env);
    assert [] + [t] == [t];
  }

  /** One clock with coefficient one, one witness with minus one, every limb counting against the witness, and a sound
      window. */
  ghost predicate Comparison(lf: LinForm, clocks: set<string>, witnesses: set<string>, bs: Bounds, p: int) {
    && |Selected(lf.terms, clocks)| == 1 && Selected(lf.terms, clocks)[0].coeff == 1
    && |Selected(lf.terms, witnesses)| == 1 && Selected(lf.terms, witnesses)[0].coeff == -1
    && (forall t :: t in Remaining(lf.terms, clocks, witnesses) ==> t.coeff < 0)
    && WindowOf(lf.terms, lf.constant, bs).Some? && WindowSound(WindowOf(lf.terms, lf.constant, bs).value, p)
  }

  /** `fs - pv - limbs + constant == 0` bounds `pv`; accepted exactly in the comparison shape. */
  method UpperFromConstraint(lf: LinForm, clocks: set<string>, witnesses: set<string>, bs: Bounds, p: int)
    returns (f: Option<RecvUpper>)
    requires p > 0 && clocks !! witnesses
    ensures f.Some? <==> Comparison(lf, clocks, witnesses, bs, p)
    ensures f.Some? ==> f.value == RecvUpper(Selected(lf.terms, witnesses)[0].name, Selected(lf.terms, clocks)[0].name, lf.constant)
    ensures f.Some? ==> forall env :: FieldEnv(env, p) && BoundsHold(bs, env) && Cong(FormValue(lf, env), 0, p) ==>
      UpperHolds(f.value, env)
  {
    var fs, pv := Selected(lf.terms, clocks), Selected(lf.terms, witnesses);
    var rest := Remaining(lf.terms, clocks, witnesses);
    if |fs| != 1 || |pv| != 1 || fs[0].coeff != 1 || pv[0].coeff != -1 {
      return None;
    }
    if exists t :: t in rest && t.coeff >= 0 {
      return None;
    }
    var win := Window(lf.terms, lf.constant, bs);
    if win.None? || !WindowSound(win.value, p) {
      return None;
    }
    forall env | FieldEnv(env, p) && BoundsHold(bs, env) && Cong(FormValue(lf, env), 0, p)
      ensures UpperHolds(RecvUpper(pv[0].name, fs[0].name, lf.constant), env)
    {
      ConstraintGivesUpper(lf, clocks, witnesses, bs, p, env);
    }
    return Some(RecvUpper(pv[0].name, fs[0].name, lf.constant));
  }

  lemma ConstraintGivesUpper(lf: LinForm, clocks: set<string>, witnesses: set<string>, bs: Bounds, p: int, env: Env)
    requires p > 0 && clocks !! witnesses && FieldEnv(env, p) && BoundsHold(bs, env) && Cong(FormValue(lf, env), 0, p)
    requires |Selected(lf.terms, clocks)| == 1 && |Selected(lf.terms, witnesses)| == 1
    requires Selected(lf.terms, clocks)[0].coeff == 1 && Selected(lf.terms, witnesses)[0].coeff == -1
    requires forall t :: t in Remaining(lf.terms, clocks, witnesses) ==> t.coeff < 0
    requires WindowOf(lf.terms, lf.constant, bs).Some? && WindowSound(WindowOf(lf.terms, lf.constant, bs).value, p)
    ensures env.cols(Selected(lf.terms, witnesses)[0].name) <= env.cols(Selected(lf.terms, clocks)[0].name) + lf.constant
  {
    hide Cong, Selected, Remaining, TermsValue, WindowOf;
    WindowExact(lf.terms, lf.constant, bs, p, env);
    SplitValue(lf.terms, clocks, witnesses, env.cols);
    NegativeSum(Remaining(lf.terms, clocks, witnesses), env);
    Singleton(Selected(lf.terms, clocks), env.cols);
    Singleton(Selected(lf.terms, witnesses), env.cols);
  }

  lemma Singleton(ts: seq<Term>, env: string -> int)
    requires |ts| == 1
    ensures TermsValue(ts, env) == ts[0].coeff * env(ts[0].name)
  {
    OneTerm(ts[0], env);
    assert ts == [ts[0]];
  }

  // ---- Receive bounds from scaled range checks ----

  /** `k == fs - pv + rest + constant`, where the checked argument is `scale * k`. */
  datatype Scaled = Scaled(fs: string, pv: string, rest: seq<Term>, constant: int, scale: int)

  function Abs(x: int): int { if x < 0 then -x else x }

  function DividedTerms(ts: seq<Term>, scale: int): (r: seq<Term>)
    requires scale != 0
    ensures |r| == |ts| && forall i :: 0 <= i < |ts| ==> r[i] == Term(ts[i].name, ts[i].coeff / scale)
  {
    seq(|ts|, i requires 0 <= i < |ts| => Term(ts[i].name, ts[i].coeff / scale))
  }

  /** Divides the argument by its scale; declines unless it divides and every limb counts against `pv`. */
  function Normalize(lf: LinForm, clocks: set<string>, witnesses: set<string>): Option<Scaled> {
    var fs, pv := Selected(lf.terms, clocks), Selected(lf.terms, witnesses);
    var rest := Remaining(lf.terms, clocks, witnesses);
    if |fs| != 1 || |pv| != 1 then None
    else
      var scale := fs[0].coeff;
      if scale != -pv[0].coeff || Abs(scale) in {0, 1} then None
      else if (exists t :: t in lf.terms && t.coeff % scale != 0) || lf.constant % scale != 0 then None
      else
        var limbs := DividedTerms(rest, scale);
        if exists t :: t in limbs && t.coeff >= 0 then None
        else Some(Scaled(fs[0].name, pv[0].name, limbs, lf.constant / scale, scale))
  }

  lemma MultipleOf(a: int, x: int)
    requires a != 0
    ensures (a * x) % a == 0 && (a * x) / a == x
  {
    var m := a * x;
    var q := m / a;
    assert m % a == m - a * q && 0 <= m % a < Abs(a);
    assert m % a == a * (x - q);
    if x > q {
      NotBetween(a, x - q);
    } else if x < q {
      NotBetween(a, x - q);
    }
  }

  lemma NotBetween(a: int, y: int)
    requires a != 0 && y != 0
    ensures a * y < 0 || a * y >= Abs(a)
  {
    if y > 0 {
      ProductMonotone(Abs(a), 1, y);
    } else {
      ProductMonotone(Abs(a), 1, -y);
    }
  }

  lemma ScaledDivides(c: int, ts: seq<Term>)
    requires c != 0
    ensures DividedTerms(Scale(c, ts), c) == ts
  {
    forall i | 0 <= i < |ts| ensures DividedTerms(Scale(c, ts), c)[i] == ts[i] {
      MultipleOf(c, ts[i].coeff);
    }
  }

  lemma DividedScales(c: int, ts: seq<Term>)
    requires c != 0 && forall t :: t in ts ==> t.coeff % -c == 0
    ensures Scale(c, DividedTerms(ts, c)) == ts
  {
    forall i | 0 <= i < |ts| ensures Scale(c, DividedTerms(ts, c))[i] == ts[i] {
      assert ts[i] in ts;
      ExactQuotient(ts[i].coeff, c);
    }
  }

  /** The argument is a scale, none of `0`, `1` and `-1`, times a clock less a witness, with limbs counting against the
      witness and a constant. */
  ghost predicate ScaledAs(lf: LinForm, clocks: set<string>, witnesses: set<string>, n: Scaled) {
    && Selected(lf.terms, clocks) == [Term(n.fs, n.scale)] && Selected(lf.terms, witnesses) == [Term(n.pv, -n.scale)]
    && (n.scale > 1 || n.scale < -1)
    && Remaining(lf.terms, clocks, witnesses) == Scale(n.scale, n.rest) && lf.constant == n.scale * n.constant
    && forall t :: t in n.rest ==> t.coeff < 0
  }

  lemma NormalizeExactly(lf: LinForm, clocks: set<string>, witnesses: set<string>, n: Scaled)
    requires clocks !! witnesses
    ensures Normalize(lf, clocks, witnesses) == Some(n) <==> ScaledAs(lf, clocks, witnesses, n)
  {
    if ScaledAs(lf, clocks, witnesses, n) {
      ScaledNormalizes(lf, clocks, witnesses, n);
    }
    if Normalize(lf, clocks, witnesses) == Some(n) {
      NormalizedScales(lf, clocks, witnesses, n);
    }
  }

  lemma ScaledNormalizes(lf: LinForm, clocks: set<string>, witnesses: set<string>, n: Scaled)
    requires clocks !! witnesses && ScaledAs(lf, clocks, witnesses, n)
    ensures Normalize(lf, clocks, witnesses) == Some(n)
  {
    hide Selected, Remaining;
    var rest := Remaining(lf.terms, clocks, witnesses);
    ScaledDivides(n.scale, n.rest);
    MultipleOf(n.scale, n.constant);
    MultipleOf(n.scale, 1);
    MultipleOf(n.scale, -1);
    forall t | t in lf.terms ensures t.coeff % n.scale == 0 {
      SplitMember(lf.terms, clocks, witnesses, t);
      if t in rest {
        var i :| 0 <= i < |rest| && rest[i] == t;
        MultipleOf(n.scale, n.rest[i].coeff);
      }
    }
  }

  lemma NormalizedScales(lf: LinForm, clocks: set<string>, witnesses: set<string>, n: Scaled)
    requires clocks !! witnesses && Normalize(lf, clocks, witnesses) == Some(n)
    ensures ScaledAs(lf, clocks, witnesses, n)
  {
    hide Selected, Remaining;
    var fs, pv, rest := Selected(lf.terms, clocks), Selected(lf.terms, witnesses), Remaining(lf.terms, clocks, witnesses);
    assert fs == [fs[0]] && pv == [pv[0]];
    forall t | t in rest ensures t.coeff % n.scale == 0 {
      SplitMember(lf.terms, clocks, witnesses, t);
    }
    SameDivisor(rest, n.scale);
    DividedScales(n.scale, rest);
    ExactQuotient(lf.constant, n.scale);
  }

  lemma SameDivisor(ts: seq<Term>, s: int)
    requires s != 0 && forall t :: t in ts ==> t.coeff % s == 0
    ensures forall t :: t in ts ==> t.coeff % -s == 0
  {
  }

  lemma {:induction false} SplitMember(ts: seq<Term>, a: set<string>, b: set<string>, t: Term)
    ensures t in ts <==> t in Selected(ts, a) || t in Selected(ts, b) || t in Remaining(ts, a, b)
  {
    if ts != [] {
      assert ts == ts[..|ts| - 1] + [ts[|ts| - 1]];
      SplitMember(ts[..|ts| - 1], a, b, t);
    }
  }

  function ScaledTerms(n: Scaled): seq<Term> {
    [Term(n.fs, 1), Term(n.pv, -1)] + n.rest
  }

  function ScaledValue(n: Scaled, env: Env): int {
    TermsValue(ScaledTerms(n), env.cols) + n.constant
  }

  lemma ScaledParts(n: Scaled, env: Env)
    ensures ScaledValue(n, env) == env.cols(n.fs) - env.cols(n.pv) + TermsValue(n.rest, env.cols) + n.constant
  {
    var a, b := Term(n.fs, 1), Term(n.pv, -1);
    ConcatValue([a, b], n.rest, env.cols);
    SnocValue([a], b, env.cols);
    OneTerm(a, env.cols);
    assert [a, b] == [a] + [b];
  }

  lemma ExactQuotient(v: int, s: int)
    requires s != 0 && v % s == 0
    ensures s * (v / s) == v
  {
  }

  lemma DividedValue(ts: seq<Term>, s: int, env: string -> int)
    requires s != 0 && forall t :: t in ts ==> t.coeff % s == 0
    ensures TermsValue(ts, env) == s * TermsValue(DividedTerms(ts, s), env)
  {
    ScaleValue(s, DividedTerms(ts, s), env);
    forall i | 0 <= i < |ts| ensures Scale(s, DividedTerms(ts, s))[i] == ts[i] {
      assert ts[i] in ts;
      ExactQuotient(ts[i].coeff, s);
    }
    assert Scale(s, DividedTerms(ts, s)) == ts;
  }

  /** The argument is the scale times the normalized value, as integers. */
  lemma NormalizedValue(lf: LinForm, clocks: set<string>, witnesses: set<string>, env: Env)
    requires clocks !! witnesses && Normalize(lf, clocks, witnesses).Some?
    ensures var n := Normalize(lf, clocks, witnesses).value; FormValue(lf, env) == n.scale * ScaledValue(n, env)
  {
    hide Selected, Remaining, TermsValue, DividedTerms;
    var n := Normalize(lf, clocks, witnesses).value;
    var fs, pv := Selected(lf.terms, clocks), Selected(lf.terms, witnesses);
    var rest := Remaining(lf.terms, clocks, witnesses);
    SplitValue(lf.terms, clocks, witnesses, env.cols);
    DividedValue(rest, n.scale, env.cols);
    Singleton(fs, env.cols);
    Singleton(pv, env.cols);
    ExactQuotient(lf.constant, n.scale);
    ScaledParts(n, env);
    FourParts(n.scale, env.cols(n.fs), env.cols(n.pv), TermsValue(n.rest, env.cols), n.constant);
  }

  lemma FourParts(s: int, a: int, b: int, c: int, d: int)
    ensures s * (a - b + c + d) == s * a + -s * b + s * c + s * d
  {
  }

  /** Every integer of the window whose multiple passes the check is non-negative. */
  ghost predicate OnlyNonNegative(scale: int, w: (int, int), top: int, p: int)
    requires p > 0
  {
    forall k :: w.0 <= k <= w.1 && (scale * k) % p < top ==> k >= 0
  }

  /** The two integers of `(-p, p)` with residue `k0`. */
  lemma TwoCandidates(k: int, k0: int, p: int)
    requires p > 0 && 0 <= k0 < p && -p < k < p
    ensures k % p == k0 <==> k == k0 || k == k0 - p
  {
    if k >= 0 {
      Small(k, p);
    } else {
      CongShift(k, p, 1);
      Small(k + p, p);
    }
  }

  lemma ResidueSolutions(scale: int, k: int, r: int, p: int)
    requires Prime(p) && scale % p != 0 && 0 <= r < p
    ensures (scale * k) % p == r <==> k % p == (Inverse(scale, p) * r) % p
  {
    LinearRoot(scale, -r, k, p);
    CongIff(scale * k, r, p);
    Small(r, p);
    Small(0, p);
    assert scale * k + -r == scale * k - r && -(-r) * Inverse(scale, p) == Inverse(scale, p) * r;
  }

  predicate NegativeInside(w: (int, int), k: int) {
    w.0 <= k <= w.1 && k < 0
  }

  /** The residue `r` admits no negative integer of the window. */
  predicate ResidueSafe(scale: int, w: (int, int), r: int, p: int)
    requires p > 1
  {
    var k0 := (Inverse(scale, p) * r) % p;
    !NegativeInside(w, k0) && !NegativeInside(w, k0 - p)
  }

  lemma ResidueSafeMeans(scale: int, w: (int, int), r: int, p: int)
    requires Prime(p) && scale % p != 0 && WindowSound(w, p) && 0 <= r < p
    ensures ResidueSafe(scale, w, r, p) <==> forall k :: w.0 <= k <= w.1 && (scale * k) % p == r ==> k >= 0
  {
    var k0 := (Inverse(scale, p) * r) % p;
    forall k | w.0 <= k <= w.1 ensures (scale * k) % p == r <==> k == k0 || k == k0 - p {
      ResidueSolutions(scale, k, r, p);
      TwoCandidates(k, k0, p);
    }
    if NegativeInside(w, k0 - p) {
      assert (scale * (k0 - p)) % p == r;
    }
  }

  /** Enumerates the residues the check admits. */
  method Enumerate(scale: int, w: (int, int), top: nat, p: int) returns (sound: bool)
    requires Prime(p) && scale % p != 0 && WindowSound(w, p)
    ensures sound ==> OnlyNonNegative(scale, w, top, p)
    ensures top <= p && OnlyNonNegative(scale, w, top, p) ==> sound
  {
    var inv := Inverse(scale, p);
    sound := true;
    var r := 0;
    while r < top && sound
      invariant 0 <= r <= top
      invariant sound ==> forall q :: 0 <= q < r ==> ResidueSafe(scale, w, q, p)
      invariant !sound ==> exists q :: 0 <= q < top && !ResidueSafe(scale, w, q, p)
      decreases top - r, sound
    {
      var k0 := (inv * r) % p;
      if NegativeInside(w, k0) || NegativeInside(w, k0 - p) {
        sound := false;
        assert !ResidueSafe(scale, w, r, p);
      } else {
        r := r + 1;
      }
    }
    if sound {
      AllResiduesSafe(scale, w, top, p);
    }
    if top <= p && !sound {
      var q :| 0 <= q < top && !ResidueSafe(scale, w, q, p);
      ResidueSafeMeans(scale, w, q, p);
    }
  }

  lemma AllResiduesSafe(scale: int, w: (int, int), top: nat, p: int)
    requires Prime(p) && scale % p != 0 && WindowSound(w, p)
    requires forall q :: 0 <= q < top ==> ResidueSafe(scale, w, q, p)
    ensures OnlyNonNegative(scale, w, top, p)
  {
    forall k | w.0 <= k <= w.1 && (scale * k) % p < top ensures k >= 0 {
      var r := (scale * k) % p;
      Division(scale * k, p);
      assert ResidueSafe(scale, w, r, p);
      ResidueSafeMeans(scale, w, r, p);
    }
  }

  const MAX_ENUM_BITS := 16

  /** A range check of a scaled combination bounds `pv`. Accepted exactly when the argument normalizes, its window is
      sound and no negative integer of the window passes the check. */
  method UpperFromCheck(lf: LinForm, bits: nat, clocks: set<string>, witnesses: set<string>, bs: Bounds, p: int)
    returns (f: Option<RecvUpper>)
    requires Prime(p) && CanonicalForm(lf, p) && clocks !! witnesses
    ensures f.Some? ==> forall env :: FieldEnv(env, p) && BoundsHold(bs, env) && FormValue(lf, env) % p < RangeEvidence.Pow2(bits) ==>
      UpperHolds(f.value, env)
    ensures f.Some? ==> f == CheckUpper(lf, clocks, witnesses)
    ensures RangeEvidence.Pow2(bits) <= p ==> (f.Some? <==> AcceptedCheck(lf, bits, clocks, witnesses, bs, p))
  {
    var norm := Normalize(lf, clocks, witnesses);
    if bits > MAX_ENUM_BITS || norm.None? {
      return None;
    }
    var n := norm.value;
    var win := Window(ScaledTerms(n), n.constant, bs);
    if win.None? || !WindowSound(win.value, p) {
      return None;
    }
    ScaleInvertible(lf, clocks, witnesses, p);
    var sound := Enumerate(n.scale, win.value, RangeEvidence.Pow2(bits), p);
    if !sound {
      return None;
    }
    forall env | FieldEnv(env, p) && BoundsHold(bs, env) && FormValue(lf, env) % p < RangeEvidence.Pow2(bits)
      ensures UpperHolds(RecvUpper(n.pv, n.fs, n.constant), env)
    {
      NonNegativeGivesUpper(lf, clocks, witnesses, bs, win.value, RangeEvidence.Pow2(bits), p, env);
    }
    return Some(RecvUpper(n.pv, n.fs, n.constant));
  }

  /** The bound a normalized argument stands for. */
  function CheckUpper(lf: LinForm, clocks: set<string>, witnesses: set<string>): Option<RecvUpper> {
    match Normalize(lf, clocks, witnesses)
    case None => None
    case Some(n) => Some(RecvUpper(n.pv, n.fs, n.constant))
  }

  ghost predicate AcceptedCheck(lf: LinForm, bits: nat, clocks: set<string>, witnesses: set<string>, bs: Bounds, p: int)
    requires p > 0
  {
    && bits <= 16 && Normalize(lf, clocks, witnesses).Some?
    && var n := Normalize(lf, clocks, witnesses).value;
    && WindowOf(ScaledTerms(n), n.constant, bs).Some?
    && var w := WindowOf(ScaledTerms(n), n.constant, bs).value;
    && WindowSound(w, p) && OnlyNonNegative(n.scale, w, RangeEvidence.Pow2(bits), p)
  }

  lemma ScaleInvertible(lf: LinForm, clocks: set<string>, witnesses: set<string>, p: int)
    requires p > 0 && CanonicalForm(lf, p) && Normalize(lf, clocks, witnesses).Some?
    ensures Normalize(lf, clocks, witnesses).value.scale % p != 0
  {
    var fs := Selected(lf.terms, clocks);
    assert fs[0] in fs;
    CanonicalNonzero(fs[0].coeff, p);
  }

  lemma NonNegativeGivesUpper(lf: LinForm, clocks: set<string>, witnesses: set<string>, bs: Bounds, w: (int, int), top: int,
                              p: int, env: Env)
    requires p > 0 && clocks !! witnesses && Normalize(lf, clocks, witnesses).Some? && FieldEnv(env, p) && BoundsHold(bs, env)
    requires var n := Normalize(lf, clocks, witnesses).value;
      WindowOf(ScaledTerms(n), n.constant, bs) == Some(w) && OnlyNonNegative(n.scale, w, top, p)
    requires FormValue(lf, env) % p < top
    ensures var n := Normalize(lf, clocks, witnesses).value; UpperHolds(RecvUpper(n.pv, n.fs, n.constant), env)
  {
    var n := Normalize(lf, clocks, witnesses).value;
    NormalizedValue(lf, clocks, witnesses, env);
    WindowHolds(ScaledTerms(n), n.constant, bs, env);
    assert ScaledValue(n, env) >= 0;
    ScaledParts(n, env);
    NegativeSum(n.rest, env);
  }
}
