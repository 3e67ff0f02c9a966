/** Evidence that a range-check row is sent: its multiplicity is nonzero in every model of the constraints. */
module MultEvidence {
  import opened Wrappers
  import opened Sets
  import opened Residues
  import opened Primes
  import opened FieldForms
  import opened FieldGadgets

  // ---- The linear constraints ----

  /** Parsed constraints by index; nonlinear ones are absent. */
  type Forms = seq<Option<LinForm>>

  function ParseAll(cons: seq<Expr>, p: int): (r: Forms)
    requires p > 0
    ensures |r| == |cons| && forall i :: 0 <= i < |cons| ==> r[i] == ParseLin(cons[i], p)
  {
    seq(|cons|, i requires 0 <= i < |cons| => ParseLin(cons[i], p))
  }

  ghost predicate AllZero(cons: seq<Expr>, p: int, env: Env)
    requires p > 0
  {
    forall c :: c in cons ==> Zero(c, p, env)
  }

  ghost predicate Canonical(forms: Forms, p: int) {
    forall i :: 0 <= i < |forms| && forms[i].Some? ==> CanonicalForm(forms[i].value, p)
  }

  ghost predicate FormsVanish(forms: Forms, p: int, env: Env)
    requires p > 0
  {
    forall i :: 0 <= i < |forms| && forms[i].Some? ==> Cong(FormValue(forms[i].value, env), 0, p)
  }

  lemma ParsedVanish(cons: seq<Expr>, p: int, env: Env)
    requires p > 0 && AllZero(cons, p, env)
    ensures Canonical(ParseAll(cons, p), p) && FormsVanish(ParseAll(cons, p), p, env)
  {
    hide Cong, FormValue;
    var forms := ParseAll(cons, p);
    forall i | 0 <= i < |forms| && forms[i].Some?
      ensures CanonicalForm(forms[i].value, p) && Cong(FormValue(forms[i].value, env), 0, p)
    {
      ParseLinValue(cons[i], p, env);
      assert Zero(cons[i], p, env);
      Trans(FormValue(forms[i].value, env), EvalExpr(cons[i], env), 0, p);
    }
  }

  // ---- Constant pins ----

  /** A constraint that pins a new column. */
  predicate Pinning(forms: Forms, pins: map<string, int>, p: int, i: nat)
    requires p > 1
  {
    && i < |forms| && forms[i].Some?
    && var r := SingleColResidue(Subst(forms[i].value, pins, p), p); r.Some? && r.value.0 !in pins
  }

  ghost predicate SoundPins(forms: Forms, pins: map<string, int>, p: int)
    requires p > 0
  {
    forall env :: FormsVanish(forms, p, env) ==> PinsHold(pins, p, env)
  }

  function ColumnsFrom(forms: Forms, i: nat): set<string>
    requires i <= |forms|
    decreases |forms| - i
  {
    if i == |forms| then {}
    else (if forms[i].Some? then Columns(forms[i].value) else {}) + ColumnsFrom(forms, i + 1)
  }

  lemma {:induction false} InColumns(forms: Forms, i: nat, j: nat)
    requires i <= j < |forms| && forms[j].Some?
    ensures Columns(forms[j].value) <= ColumnsFrom(forms, i)
    decreases j - i
  {
    if i < j {
      InColumns(forms, i + 1, j);
    }
  }

  lemma PinSound(forms: Forms, pins: map<string, int>, p: int, i: nat)
    requires Prime(p) && Canonical(forms, p) && SoundPins(forms, pins, p) && Pinning(forms, pins, p, i)
    ensures var r := SingleColResidue(Subst(forms[i].value, pins, p), p).value;
      SoundPins(forms, pins[r.0 := r.1], p) && r.0 in ColumnsFrom(forms, 0)
  {
    hide Cong, FormValue, Make, KeptTerms, PinnedSum, Inverse, CanonicalForm;
    var lf := Subst(forms[i].value, pins, p);
    var r := SingleColResidue(lf, p).value;
    SubstColumns(forms[i].value, pins, p);
    forall env | FormsVanish(forms, p, env) ensures PinsHold(pins[r.0 := r.1], p, env) {
      SubstVanishes(forms[i].value, pins, p, env);
      SingleColExact(lf, p, env);
    }
    assert lf.terms[0] in lf.terms;
    assert r.0 in Columns(lf);
    InColumns(forms, 0, i);
  }

  lemma SubstVanishes(lf: LinForm, pins: map<string, int>, p: int, env: Env)
    requires p > 0 && PinsHold(pins, p, env) && Cong(FormValue(lf, env), 0, p)
    ensures Cong(FormValue(Subst(lf, pins, p), env), 0, p)
  {
    hide Cong, FormValue, Subst;
    SubstValue(lf, pins, p, env);
    Trans(FormValue(Subst(lf, pins, p), env), FormValue(lf, env), 0, p);
  }

  /** The fixpoint of single-column constraints: substitute the pins known so far, repeat. */
  method ConstPins(forms: Forms, p: int) returns (pins: map<string, int>)
    requires Prime(p) && Canonical(forms, p)
    ensures SoundPins(forms, pins, p)
    ensures forall i: nat :: !Pinning(forms, pins, p, i)
  {
    pins := map[];
    var changed := true;
    while changed
      invariant SoundPins(forms, pins, p) && pins.Keys <= ColumnsFrom(forms, 0)
      invariant !changed ==> forall i: nat :: !Pinning(forms, pins, p, i)
      decreases |ColumnsFrom(forms, 0) - pins.Keys|, changed
    {
      pins, changed := PinPass(forms, pins, p);
    }
  }

  method PinPass(forms: Forms, before: map<string, int>, p: int) returns (pins: map<string, int>, changed: bool)
    requires Prime(p) && Canonical(forms, p) && SoundPins(forms, before, p) && before.Keys <= ColumnsFrom(forms, 0)
    ensures SoundPins(forms, pins, p) && before.Keys <= pins.Keys <= ColumnsFrom(forms, 0)
    ensures changed ==> |ColumnsFrom(forms, 0) - pins.Keys| < |ColumnsFrom(forms, 0) - before.Keys|
    ensures !changed ==> pins == before && forall i: nat :: !Pinning(forms, pins, p, i)
  {
    hide SoundPins, ColumnsFrom, Canonical, SingleColResidue, Subst;
    pins, changed := before, false;
    for i := 0 to |forms|
      invariant SoundPins(forms, pins, p) && before.Keys <= pins.Keys <= ColumnsFrom(forms, 0)
      invariant changed <==> before.Keys < pins.Keys
      invariant !changed ==> pins == before && forall j: nat :: j < i ==> !Pinning(forms, pins, p, j)
    {
      if Pinning(forms, pins, p, i) {
        var r := SingleColResidue(Subst(forms[i].value, pins, p), p).value;
        PinSound(forms, pins, p, i);
        assert r.0 in pins[r.0 := r.1].Keys;
        pins, changed := pins[r.0 := r.1], true;
      }
    }
    if changed {
      SmallerRest(ColumnsFrom(forms, 0), before.Keys, pins.Keys);
    }
  }

  /** The first constraint holding each column at a constant, with that constant. */
  method SingleSources(forms: Forms, p: int) returns (singles: map<string, (int, nat)>)
    requires p > 1
    ensures IsSingles(forms, singles, p)
    ensures forall x, i: nat :: SingleAt(forms, x, p, i) ==> x in singles && singles[x].1 <= i
  {
    hide SingleColResidue;
    singles := map[];
    for i := 0 to |forms|
      invariant forall x :: x in singles ==> singles[x].1 < i && IsSingle(forms, x, singles[x], p)
      invariant forall x, j: nat :: j < i && SingleAt(forms, x, p, j) ==> x in singles && singles[x].1 <= j
    {
      if forms[i].Some? {
        var r := SingleColResidue(forms[i].value, p);
        if r.Some? && r.value.0 !in singles {
          singles := singles[r.value.0 := (r.value.1, i)];
        }
        assert forall x :: SingleAt(forms, x, p, i) ==> x == r.value.0;
      }
    }
  }

  /** Constraint `i` holds column `x` at a constant. */
  predicate SingleAt(forms: Forms, x: string, p: int, i: nat)
    requires p > 1
  {
    && i < |forms| && forms[i].Some?
    && var r := SingleColResidue(forms[i].value, p); r.Some? && r.value.0 == x
  }

  predicate IsSingle(forms: Forms, x: string, s: (int, nat), p: int)
    requires p > 1
  {
    s.1 < |forms| && forms[s.1].Some? && SingleColResidue(forms[s.1].value, p) == Some((x, s.0))
  }

  ghost predicate IsSingles(forms: Forms, singles: map<string, (int, nat)>, p: int)
    requires p > 1
  {
    forall x :: x in singles ==> IsSingle(forms, x, singles[x], p)
  }

  // ---- The index by support ----

  type Index = map<set<string>, seq<nat>>

  predicate HasSupport(forms: Forms, sup: set<string>, i: nat) {
    i < |forms| && forms[i].Some? && Columns(forms[i].value) == sup
  }

  predicate Listed(index: Index, sup: set<string>, i: nat) {
    sup in index && i in index[sup]
  }

  /** The index lists exactly the constraints with each support. */
  ghost predicate ExactIndex(forms: Forms, index: Index) {
    forall sup, i: nat :: Listed(index, sup, i) <==> HasSupport(forms, sup, i)
  }

  method BuildIndex(forms: Forms) returns (index: Index)
    ensures ExactIndex(forms, index)
  {
    index := map[];
    for n := 0 to |forms|
      invariant forall sup, i: nat :: Listed(index, sup, i) <==> i < n && HasSupport(forms, sup, i)
    {
      if forms[n].Some? {
        var sup := Columns(forms[n].value);
        var listed := if sup in index then index[sup] else [];
        ghost var before := index;
        index := index[sup := listed + [n]];
        forall s, i: nat ensures Listed(index, s, i) <==> i < n + 1 && HasSupport(forms, s, i) {
          assert Listed(before, s, i) <==> i < n && HasSupport(forms, s, i);
        }
      }
    }
  }

  // ---- Candidates ----

  /** Constraints whose support is `want` once the pinned columns are gone. */
  ghost function Candidates(forms: Forms, pinned: set<string>, want: set<string>): set<nat> {
    set i: nat | i < |forms| && forms[i].Some? && Columns(forms[i].value) - pinned == want
  }

  function Subsets(xs: seq<string>): (r: seq<set<string>>)
    ensures |r| > 0
  {
    if xs == [] then [{}]
    else
      var rest := Subsets(xs[1..]);
      rest + seq(|rest|, i requires 0 <= i < |rest| => rest[i] + {xs[0]})
  }

  function ToSet(xs: seq<string>): set<string> {
    set x | x in xs
  }

  lemma WithMember(rest: seq<set<string>>, x: string, s: set<string>)
    ensures s in rest + seq(|rest|, i requires 0 <= i < |rest| => rest[i] + {x})
       <==> s in rest || exists i :: 0 <= i < |rest| && rest[i] + {x} == s
  {
    var more := seq(|rest|, i requires 0 <= i < |rest| => rest[i] + {x});
    if i :| 0 <= i < |rest| && rest[i] + {x} == s {
      assert more[i] == s;
    }
  }

  lemma {:induction false} SubsetsExact(xs: seq<string>, s: set<string>)
    ensures s in Subsets(xs) <==> s <= ToSet(xs)
  {
    if xs == [] {
      assert ToSet(xs) == {} && Subsets(xs) == [{}];
      assert Subsets(xs)[0] == {};
      assert s <= {} ==> s == {};
    } else {
      var rest, x := Subsets(xs[1..]), xs[0];
      assert ToSet(xs) == ToSet(xs[1..]) + {x} by { assert xs == [x] + xs[1..]; }
      SubsetsExact(xs[1..], s);
      SubsetsExact(xs[1..], s - {x});
      WithMember(rest, x, s);
      if x in s && s <= ToSet(xs) {
        var i :| 0 <= i < |rest| && rest[i] == s - {x};
        assert rest[i] + {x} == s;
      }
      if i :| 0 <= i < |rest| && rest[i] + {x} == s {
        SubsetsExact(xs[1..], rest[i]);
      }
    }
  }

  /** Looks up `want` joined with every subset of the pinned columns. */
  method LookupSubsets(forms: Forms, index: Index, pinned: seq<string>, want: set<string>) returns (cand: set<nat>)
    requires ExactIndex(forms, index) && want !! ToSet(pinned)
    ensures cand == Candidates(forms, ToSet(pinned), want)
  {
    hide ExactIndex;
    var subsets := Subsets(pinned);
    cand := {};
    for n := 0 to |subsets|
      invariant forall i: nat :: i in cand <==> ListedBelow(index, subsets, want, i, n)
    {
      ghost var before := cand;
      if want + subsets[n] in index {
        cand := cand + ToIndexSet(index[want + subsets[n]]);
      }
      forall i: nat ensures i in cand <==> ListedBelow(index, subsets, want, i, n + 1) {
        assert i in cand <==> i in before || Listed(index, want + subsets[n], i);
        ListedNext(index, subsets, want, i, n);
      }
    }
    forall i: nat ensures i in cand <==> i in Candidates(forms, ToSet(pinned), want) {
      ListedIsCandidate(forms, index, pinned, want, i);
    }
    SameSet(cand, Candidates(forms, ToSet(pinned), want));
  }

  /** One of the first `n` lookups lists constraint `i`. */
  ghost predicate ListedBelow(index: Index, subsets: seq<set<string>>, want: set<string>, i: nat, n: nat)
    requires n <= |subsets|
  {
    exists k :: 0 <= k < n && Listed(index, want + subsets[k], i)
  }

  lemma ListedNext(index: Index, subsets: seq<set<string>>, want: set<string>, i: nat, n: nat)
    requires n < |subsets|
    ensures ListedBelow(index, subsets, want, i, n + 1) <==> ListedBelow(index, subsets, want, i, n) || Listed(index, want + subsets[n], i)
  {
    if ListedBelow(index, subsets, want, i, n) {
      var k :| 0 <= k < n && Listed(index, want + subsets[k], i);
      assert k < n + 1 && Listed(index, want + subsets[k], i);
    }
  }

  lemma ListedIsCandidate(forms: Forms, index: Index, pinned: seq<string>, want: set<string>, i: nat)
    requires ExactIndex(forms, index) && want !! ToSet(pinned)
    ensures i in Candidates(forms, ToSet(pinned), want) <==> ListedBelow(index, Subsets(pinned), want, i, |Subsets(pinned)|)
  {
    var subsets := Subsets(pinned);
    if k :| 0 <= k < |subsets| && Listed(index, want + subsets[k], i) {
      assert HasSupport(forms, want + subsets[k], i);
      SupportMinusPinned(want + subsets[k], pinned, want);
    }
    if i in Candidates(forms, ToSet(pinned), want) {
      var sup := Columns(forms[i].value);
      SupportMinusPinned(sup, pinned, want);
      var k :| 0 <= k < |subsets| && want + subsets[k] == sup;
      assert HasSupport(forms, want + subsets[k], i);
      assert Listed(index, want + subsets[k], i);
    }
  }

  function ToIndexSet(xs: seq<nat>): set<nat> {
    set x | x in xs
  }

  lemma SupportMinusPinned(sup: set<string>, pinned: seq<string>, want: set<string>)
    requires want !! ToSet(pinned)
    ensures sup - ToSet(pinned) == want <==> exists k :: 0 <= k < |Subsets(pinned)| && want + Subsets(pinned)[k] == sup
  {
    if sup - ToSet(pinned) == want {
      SubsetsExact(pinned, sup * ToSet(pinned));
      var k :| 0 <= k < |Subsets(pinned)| && Subsets(pinned)[k] == sup * ToSet(pinned);
      assert want + Subsets(pinned)[k] == sup;
    }
    if k :| 0 <= k < |Subsets(pinned)| && want + Subsets(pinned)[k] == sup {
      SubsetsExact(pinned, Subsets(pinned)[k]);
      assert sup - ToSet(pinned) == want;
    }
  }

  /** Walks every support of the index. */
  method WalkIndex(forms: Forms, index: Index, pinned: set<string>, want: set<string>) returns (cand: set<nat>)
    requires ExactIndex(forms, index)
    ensures cand == Candidates(forms, pinned, want)
  {
    var todo := index.Keys;
    cand := {};
    while todo != {}
      invariant todo <= index.Keys
      invariant forall i: nat :: i in cand <==> exists sup :: sup in index.Keys - todo && sup - pinned == want && Listed(index, sup, i)
      decreases todo
    {
      var sup := AnyOf(todo);
      todo := todo - {sup};
      if sup - pinned == want {
        cand := cand + ToIndexSet(index[sup]);
      }
    }
    forall i: nat ensures i in cand <==> i in Candidates(forms, pinned, want) {
      if i < |forms| && forms[i].Some? && Columns(forms[i].value) - pinned == want {
        assert Listed(index, Columns(forms[i].value), i);
      }
    }
  }
}
