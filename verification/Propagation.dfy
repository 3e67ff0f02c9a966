/** Constant propagation over the constraints: window pins to a fixpoint, refuted selectors and flags, linear zeros. */
module Propagation {
  import opened Wrappers
  import opened Sets
  import opened Residues
  import opened Primes
  import opened Sums
  import opened FieldForms
  import opened FieldGadgets
  import opened MultEvidence
  import opened FieldBounds
  import opened FieldWindows
  import opened FlagEvaluation
  import opened FlagRefutation

  type Pins = map<string, int>

  /** Columns hold their pinned values as integers. */
  ghost predicate ExactPins(pins: Pins, env: Env) {
    forall x :: x in pins ==> env.cols(x) == pins[x]
  }

  // ---- Window pins ----

  /** The value of the single column of a vanishing form, when its window is sound and its coefficient a unit. */
  function TryPin(lf: LinForm, bs: Bounds, p: int): Option<(string, int)>
    requires p > 0
  {
    if |lf.terms| != 1 then None
    else
      match WindowOf(lf.terms, lf.constant, bs)
      case None => None
      case Some(w) =>
        if !WindowSound(w, p) then None
        else if lf.terms[0].coeff == 1 then Some((lf.terms[0].name, Canon(-lf.constant, p)))
        else if lf.terms[0].coeff == -1 then Some((lf.terms[0].name, Canon(lf.constant, p)))
        else None
  }

  lemma CanonFixed(x: int, p: int)
    requires p > 0 && -p < 2 * x <= p
    ensures Canon(x, p) == x
  {
    if x >= 0 {
      Small(x, p);
    } else {
      CongShift(x, p, 1);
      Small(x + p, p);
    }
  }

  /** A window pin is the column's integer value, exactly where the form vanishes. */
  lemma TryPinExact(lf: LinForm, bs: Bounds, p: int, env: Env)
    requires p > 0 && CanonicalForm(lf, p) && TryPin(lf, bs, p).Some? && FieldEnv(env, p) && BoundsHold(bs, env)
    requires Cong(FormValue(lf, env), 0, p)
    ensures var (x, v) := TryPin(lf, bs, p).value; env.cols(x) == v
  {
    hide Cong, Canon, WindowOf, TermsValue;
    var c, v := lf.constant, env.cols(lf.terms[0].name);
    WindowExact(lf.terms, c, bs, p, env);
    SingleValue(lf, env);
    if lf.terms[0].coeff == 1 {
      CanonFixed(-c, p);
    } else {
      CanonFixed(c, p);
    }
  }

  /** What pins: one column with coefficient one or minus one and a finite non-negative range, over which the form
      stays strictly between `-p` and `p`; the value is the signed residue where the form vanishes. */
  ghost predicate PinsTo(lf: LinForm, bs: Bounds, p: int, x: string, v: int)
    requires p > 0
  {
    exists c :: (c == 1 || c == -1) && lf.terms == [Term(x, c)] && PinnedAt(c, lf.constant, bs, p, x, v)
  }

  ghost predicate PinnedAt(c: int, constant: int, bs: Bounds, p: int, x: string, v: int)
    requires p > 0
  {
    && x in bs && bs[x].hi.Some? && 0 <= bs[x].lo
    && -p < constant < p && -p < c * (bs[x].hi.value - 1) + constant < p
    && Cong(c * v + constant, 0, p) && -p < 2 * v <= p
  }

  lemma TryPinExactly(lf: LinForm, bs: Bounds, p: int, x: string, v: int)
    requires p > 0
    ensures TryPin(lf, bs, p) == Some((x, v)) <==> PinsTo(lf, bs, p, x, v)
  {
    hide Cong, Canon;
    if |lf.terms| == 1 {
      var c, k := lf.terms[0].coeff, lf.constant;
      OneTermWindow(lf.terms, k, bs);
      if c == 1 || c == -1 {
        SignedRoot(c, k, p, v);
        if lf.terms[0].name == x {
          assert lf.terms == [Term(x, c)];
        }
      }
    }
  }

  lemma NegZero(x: int, p: int)
    requires p > 0
    ensures x % p == 0 <==> (-x) % p == 0
  {
    if x % p == 0 {
      CongNeg(x, 0, p);
    }
    if (-x) % p == 0 {
      CongNeg(-x, 0, p);
    }
  }

  lemma OneTermWindow(ts: seq<Term>, k: int, bs: Bounds)
    requires |ts| == 1
    ensures var t := ts[0];
      WindowOf(ts, k, bs) == if Usable(bs, t.name) then Some((k + Min0(t.coeff * (bs[t.name].hi.value - 1)), k + Max0(t.coeff * (bs[t.name].hi.value - 1)))) else None
  {
    assert WindowOf(ts[..0], k, bs) == Some((k, k));
  }

  lemma SignedRoot(c: int, k: int, p: int, v: int)
    requires p > 0 && (c == 1 || c == -1)
    ensures (Cong(c * v + k, 0, p) && -p < 2 * v <= p) <==> v == Canon(-(c * k), p)
  {
    var w := -(c * k);
    assert Cong(c * v + k, 0, p) <==> Cong(v, w, p) by {
      CongIff(c * v + k, 0, p);
      CongIff(v, w, p);
      if c == -1 {
        NegZero(v - k, p);
      }
    }
    CanonResidue(w, p);
    if -p < 2 * v <= p {
      CanonUnique(v, w, p);
      CanonFixed(v, p);
    }
  }

  predicate WindowPinning(forms: Forms, pins: Pins, bs: Bounds, p: int, i: nat)
    requires p > 0
  {
    && i < |forms| && forms[i].Some?
    && var r := TryPin(Subst(forms[i].value, pins, p), bs, p); r.Some? && r.value.0 !in pins
  }

  /** Some constraint still pins a column that has no pin. */
  ghost predicate StillPins(forms: Forms, pins: Pins, bs: Bounds, p: int)
    requires p > 0
  {
    exists i, x, v :: 0 <= i < |forms| && forms[i].Some? && x !in pins && PinsTo(Subst(forms[i].value, pins, p), bs, p, x, v)
  }

  lemma NothingPinsExactly(forms: Forms, pins: Pins, bs: Bounds, p: int)
    requires p > 0
    ensures StillPins(forms, pins, bs, p) <==> exists i: nat :: WindowPinning(forms, pins, bs, p, i)
  {
    hide PinsTo, TryPin, Subst;
    if StillPins(forms, pins, bs, p) {
      var i, x, v :| 0 <= i < |forms| && forms[i].Some? && x !in pins && PinsTo(Subst(forms[i].value, pins, p), bs, p, x, v);
      TryPinExactly(Subst(forms[i].value, pins, p), bs, p, x, v);
      assert WindowPinning(forms, pins, bs, p, i);
    }
    if i: nat :| WindowPinning(forms, pins, bs, p, i) {
      var r := TryPin(Subst(forms[i].value, pins, p), bs, p).value;
      TryPinExactly(Subst(forms[i].value, pins, p), bs, p, r.0, r.1);
    }
  }

  ghost predicate FormModel(forms: Forms, bs: Bounds, p: int, env: Env)
    requires p > 0
  {
    FieldEnv(env, p) && BoundsHold(bs, env) && FormsVanish(forms, p, env)
  }

  ghost predicate WindowPinned(forms: Forms, pins: Pins, bs: Bounds, p: int)
    requires p > 0
  {
    forall env :: FormModel(forms, bs, p, env) ==> ExactPins(pins, env)
  }

  lemma ExactPinsHold(pins: Pins, p: int, env: Env)
    requires p > 0 && ExactPins(pins, env)
    ensures PinsHold(pins, p, env)
  {
  }

  lemma WindowPinSound(forms: Forms, pins: Pins, bs: Bounds, p: int, i: nat)
    requires p > 0 && Canonical(forms, p) && WindowPinned(forms, pins, bs, p) && WindowPinning(forms, pins, bs, p, i)
    ensures var r := TryPin(Subst(forms[i].value, pins, p), bs, p).value;
      WindowPinned(forms, pins[r.0 := r.1], bs, p) && r.0 in ColumnsFrom(forms, 0)
  {
    hide Cong, FormValue, Make, KeptTerms, PinnedSum, CanonicalForm, Canon, WindowOf;
    var lf := Subst(forms[i].value, pins, p);
    var r := TryPin(lf, bs, p).value;
    SubstColumns(forms[i].value, pins, p);
    forall env | FormModel(forms, bs, p, env) ensures ExactPins(pins[r.0 := r.1], env) {
      ExactPinsHold(pins, p, env);
      SubstVanishes(forms[i].value, pins, p, env);
      TryPinExact(lf, bs, p, env);
    }
    assert lf.terms[0] in lf.terms;
    assert r.0 in Columns(lf);
    InColumns(forms, 0, i);
  }

  method WindowPass(forms: Forms, before: Pins, bs: Bounds, p: int) returns (pins: Pins, changed: bool)
    requires p > 0 && Canonical(forms, p) && WindowPinned(forms, before, bs, p) && before.Keys <= ColumnsFrom(forms, 0)
    ensures WindowPinned(forms, pins, bs, p) && before.Keys <= pins.Keys <= ColumnsFrom(forms, 0)
    ensures changed ==> |ColumnsFrom(forms, 0) - pins.Keys| < |ColumnsFrom(forms, 0) - before.Keys|
    ensures !changed ==> pins == before && forall i: nat :: !WindowPinning(forms, pins, bs, p, i)
  {
    hide TryPin, Subst, ColumnsFrom;
    pins, changed := before, false;
    for i := 0 to |forms|
      invariant WindowPinned(forms, pins, bs, p) && before.Keys <= pins.Keys <= ColumnsFrom(forms, 0)
      invariant changed <==> before.Keys < pins.Keys
      invariant !changed ==> pins == before && forall j: nat :: j < i ==> !WindowPinning(forms, pins, bs, p, j)
    {
      if WindowPinning(forms, pins, bs, p, i) {
        var r := TryPin(Subst(forms[i].value, pins, p), bs, p).value;
        WindowPinSound(forms, pins, bs, p, i);
        assert r.0 in pins[r.0 := r.1].Keys;
        pins, changed := pins[r.0 := r.1], true;
      }
    }
    if changed {
      SmallerRest(ColumnsFrom(forms, 0), before.Keys, pins.Keys);
    }
  }

  /** Every pin is the column's integer value, and no constraint is left that pins another column. */
  method WindowPins(forms: Forms, bs: Bounds, p: int) returns (pins: Pins)
    requires p > 0 && Canonical(forms, p)
    ensures WindowPinned(forms, pins, bs, p)
    ensures !StillPins(forms, pins, bs, p)
  {
    pins := map[];
    var changed := true;
    while changed
      invariant WindowPinned(forms, pins, bs, p) && pins.Keys <= ColumnsFrom(forms, 0)
      invariant !changed ==> forall i: nat :: !WindowPinning(forms, pins, bs, p, i)
      decreases |ColumnsFrom(forms, 0) - pins.Keys|, changed
    {
      pins, changed := WindowPass(forms, pins, bs, p);
    }
    NothingPinsExactly(forms, pins, bs, p);
  }

  // ---- Refuted pins ----

  /** A memory access: its number, its selector and its opcode flags. */
  datatype Group = Group(access: int, isLoad: string, flags: seq<string>)

  const MAX_FLAG_ENUM: int := 0x1_0000

  /** The proven domains of the flags, unless one is missing or there are too many assignments. */
  function FlagDomains(flags: seq<string>, bs: Bounds, size: int): (r: Option<Domains>)
    ensures Sane(bs) && r.Some? ==> DomainsOf(flags, r.value, bs)
  {
    if flags == [] then Some(map[])
    else
      var x := flags[0];
      if x !in bs || bs[x].lo != 0 || bs[x].hi.None? || size * bs[x].hi.value > MAX_FLAG_ENUM then None
      else
        match FlagDomains(flags[1..], bs, size * bs[x].hi.value)
        case None => None
        case Some(rest) =>
          FlagsSplit(flags);
          assert Sane(bs) ==> DomainsOf(flags, rest[x := bs[x].hi.value], bs);
          Some(rest[x := bs[x].hi.value])
  }

  /** Pins hold modulo `p` in every model, and all but the selectors' as integers. */
  ghost predicate PinsFollow(pins: Pins, loads: set<string>, cons: seq<Expr>, bs: Bounds, p: int)
    requires p > 0
  {
    forall env :: PropModel(cons, bs, p, env) ==> PinsHold(pins, p, env) && ExactPins(pins - loads, env)
  }

  /** What the refutation rests on: the selector enters its decode linearly. */
  ghost predicate AffineDecodes(cons: seq<Expr>, groups: seq<Group>) {
    forall g :: g in groups && MuxOf(cons, g.isLoad).Some? ==> AffineIn(MuxOf(cons, g.isLoad).value, g.isLoad)
  }

  /** One selector: pinned exactly when the flags are bounded and one value is reachable. */
  ghost predicate LoadStep(cons: seq<Expr>, g: Group, bs: Bounds, p: int, a: Pins, b: Pins)
    requires p > 1 && AllKnown(cons) && Sane(bs)
  {
    var dom := FlagDomains(g.flags, bs, 1);
    if g.isLoad in a || g.flags == [] || dom.None? then b == a
    else if LoadRefuted(cons, g, a, dom.value, p) then
      exists v :: ReachableLoads(cons, g.isLoad, g.flags, a, dom.value, p) == {v} && b == a[g.isLoad := Canon(v, p)]
    else b == a
  }

  ghost predicate LoadRefuted(cons: seq<Expr>, g: Group, pins: Pins, dom: Domains, p: int)
    requires p > 1 && AllKnown(cons) && forall f :: f in g.flags ==> f in dom && dom[f] >= 0
  {
    && LoadGuards(cons, g.isLoad, g.flags, pins, dom, p)
    && exists v :: ReachableLoads(cons, g.isLoad, g.flags, pins, dom, p) == {v}
  }

  /** The selectors in turn, each with the pins found before it. */
  ghost predicate LoadRun(cons: seq<Expr>, groups: seq<Group>, bs: Bounds, p: int, a: Pins, b: Pins)
    requires p > 1 && AllKnown(cons) && Sane(bs)
  {
    if groups == [] then a == b
    else
      var n := |groups| - 1;
      exists mid :: LoadRun(cons, groups[..n], bs, p, a, mid) && LoadStep(cons, groups[n], bs, p, mid, b)
  }

  method RefuteLoads(cons: seq<Expr>, groups: seq<Group>, before: Pins, bs: Bounds, p: int) returns (pins: Pins, ghost loads: set<string>)
    requires Prime(p) && AllKnown(cons) && AffineDecodes(cons, groups) && Sane(bs) && PinsFollow(before, {}, cons, bs, p)
    ensures PinsFollow(pins, loads, cons, bs, p) && pins.Keys == before.Keys + loads && loads !! before.Keys
    ensures forall x :: x in loads ==> exists g :: g in groups && g.isLoad == x
    ensures LoadRun(cons, groups, bs, p, before, pins)
  {
    hide PinsFollow, LoadStep;
    pins, loads := before, {};
    for i := 0 to |groups|
      invariant PinsFollow(pins, loads, cons, bs, p) && pins.Keys == before.Keys + loads && loads !! before.Keys
      invariant forall x :: x in loads ==> exists g :: g in groups && g.isLoad == x
      invariant LoadRun(cons, groups[..i], bs, p, before, pins)
    {
      assert groups[i] in groups;
      pins, loads := RefuteLoad(cons, groups[i], pins, loads, bs, p);
      assert groups[..i + 1][..i] == groups[..i];
    }
    assert groups[..|groups|] == groups;
  }

  method RefuteLoad(cons: seq<Expr>, g: Group, before: Pins, ghost known: set<string>, bs: Bounds, p: int) returns (pins: Pins, ghost loads: set<string>)
    requires Prime(p) && AllKnown(cons) && AffineDecodes(cons, [g]) && Sane(bs) && PinsFollow(before, known, cons, bs, p)
    ensures PinsFollow(pins, loads, cons, bs, p) && LoadStep(cons, g, bs, p, before, pins)
    ensures (pins == before && loads == known) || (g.isLoad !in before && pins.Keys == before.Keys + {g.isLoad} && loads == known + {g.isLoad})
  {
    hide ReachableLoads, MuxOf, Assignments, FlagDomains, PropModel, Covered, LoadSlope, Canon;
    pins, loads := before, known;
    if g.isLoad !in before && g.flags != [] {
      var dom := FlagDomains(g.flags, bs, 1);
      if dom.Some? {
        var v := RefuteIsLoad(cons, g.isLoad, g.flags, before, dom.value, p);
        if v.Some? {
          assert g in [g];
          LoadPinFollows(cons, g, before, known, dom.value, bs, p, v.value);
          pins, loads := before[g.isLoad := v.value], known + {g.isLoad};
        }
      }
    }
  }

  lemma LoadPinFollows(cons: seq<Expr>, g: Group, pins: Pins, loads: set<string>, dom: Domains, bs: Bounds, p: int, v: int)
    requires Prime(p) && AllKnown(cons) && DomainsOf(g.flags, dom, bs) && PinsFollow(pins, loads, cons, bs, p)
    requires LoadGuards(cons, g.isLoad, g.flags, pins, dom, p) && AffineIn(MuxOf(cons, g.isLoad).value, g.isLoad)
    requires exists u :: ReachableLoads(cons, g.isLoad, g.flags, pins, dom, p) == {u} && v == Canon(u, p)
    ensures PinsFollow(pins[g.isLoad := v], loads + {g.isLoad}, cons, bs, p)
  {
    hide Cong, ReachableLoads, MuxOf, Canon, PropModel, Covered, Assignments, LoadSlope;
    var u :| ReachableLoads(cons, g.isLoad, g.flags, pins, dom, p) == {u} && v == Canon(u, p);
    forall env | PropModel(cons, bs, p, env)
      ensures PinsHold(pins[g.isLoad := v], p, env) && ExactPins(pins[g.isLoad := v] - (loads + {g.isLoad}), env)
    {
      LoadPinHolds(cons, g.isLoad, g.flags, pins, dom, bs, p, u, env);
      forall x | x in pins[g.isLoad := v] - (loads + {g.isLoad}) ensures env.cols(x) == pins[g.isLoad := v][x] {
        assert x in pins - loads;
      }
    }
  }

  /** Pins flags of one access until nothing changes. */
  method RefuteFlags(cons: seq<Expr>, g: Group, before: Pins, ghost loads: set<string>, dom: Domains, bs: Bounds, p: int)
    returns (pins: Pins)
    requires Prime(p) && AllKnown(cons) && DomainsOf(g.flags, dom, bs) && PinsFollow(before, loads, cons, bs, p)
    ensures PinsFollow(pins, loads, cons, bs, p) && Extends(before, pins) && pins.Keys <= before.Keys + ToSet(g.flags)
    ensures forall x :: x in g.flags && x !in pins ==> !FlagRefuted(Deciding(cons, g.isLoad, g.flags, p), x, g.flags, pins, dom, p)
  {
    hide FlagRefuted, Deciding, PinsFollow;
    var deciding := Deciding(cons, g.isLoad, g.flags, p);
    pins := before;
    var changed := true;
    while changed
      invariant PinsFollow(pins, loads, cons, bs, p) && Extends(before, pins) && pins.Keys <= before.Keys + ToSet(g.flags)
      invariant !changed ==> forall x :: x in g.flags && x !in pins ==> !FlagRefuted(deciding, x, g.flags, pins, dom, p)
      decreases |before.Keys + ToSet(g.flags) - pins.Keys|, changed
    {
      ghost var start := pins;
      pins, changed := FlagPass(cons, deciding, g.flags, pins, loads, dom, bs, p);
      if changed {
        SmallerRest(before.Keys + ToSet(g.flags), start.Keys, pins.Keys);
      }
    }
  }

  method FlagPass(cons: seq<Expr>, deciding: seq<Expr>, flags: seq<string>, before: Pins, ghost loads: set<string>, dom: Domains,
                  bs: Bounds, p: int) returns (pins: Pins, changed: bool)
    requires Prime(p) && AllKnown(deciding) && DomainsOf(flags, dom, bs) && PinsFollow(before, loads, cons, bs, p)
    requires forall c :: c in deciding ==> c in cons
    ensures PinsFollow(pins, loads, cons, bs, p) && Extends(before, pins) && pins.Keys <= before.Keys + ToSet(flags)
    ensures changed <==> before.Keys < pins.Keys
    ensures !changed ==> pins == before && forall x :: x in flags && x !in pins ==> !FlagRefuted(deciding, x, flags, pins, dom, p)
  {
    hide SurvivingValues, Covered, PinsFollow;
    pins, changed := before, false;
    for i := 0 to |flags|
      invariant PinsFollow(pins, loads, cons, bs, p) && Extends(before, pins) && pins.Keys <= before.Keys + ToSet(flags)
      invariant changed <==> before.Keys < pins.Keys
      invariant !changed ==> pins == before
      invariant !changed ==> forall j :: 0 <= j < i && flags[j] !in pins ==> !FlagRefuted(deciding, flags[j], flags, pins, dom, p)
    {
      var x := flags[i];
      if x !in pins {
        var v := RefuteFlagValue(deciding, x, flags, pins, dom, p);
        if v.Some? {
          FlagPinFollows(cons, deciding, x, flags, pins, loads, dom, bs, p, v.value);
          assert x in pins[x := v.value].Keys;
          pins, changed := pins[x := v.value], true;
        }
      }
    }
  }

  ghost predicate FlagRefuted(deciding: seq<Expr>, x: string, flags: seq<string>, pins: Pins, dom: Domains, p: int)
    requires p > 0 && AllKnown(deciding) && x in dom && forall f :: f in flags ==> f in dom && dom[f] >= 0
  {
    Covered(deciding, ToSet(flags) + {x} + pins.Keys) && exists v :: SurvivingValues(deciding, x, flags, pins, dom, p) == {v}
  }

  lemma FlagPinFollows(cons: seq<Expr>, deciding: seq<Expr>, x: string, flags: seq<string>, pins: Pins, loads: set<string>,
                       dom: Domains, bs: Bounds, p: int, v: int)
    requires Prime(p) && AllKnown(deciding) && DomainsOf(flags, dom, bs) && x in flags && forall c :: c in deciding ==> c in cons
    requires Covered(deciding, ToSet(flags) + {x} + pins.Keys) && SurvivingValues(deciding, x, flags, pins, dom, p) == {v}
    requires PinsFollow(pins, loads, cons, bs, p)
    ensures PinsFollow(pins[x := v], loads, cons, bs, p)
  {
    hide Cong, SurvivingValues, PropModel;
    forall env | PropModel(cons, bs, p, env)
      ensures PinsHold(pins[x := v], p, env) && ExactPins(pins[x := v] - loads, env)
    {
      FlagPinHolds(deciding, cons, x, flags, pins, dom, bs, p, v, env);
      Refl(v, p);
      forall y | y in pins[x := v] - loads ensures env.cols(y) == pins[x := v][y] {
        if y != x {
          assert y in pins - loads;
        }
      }
    }
  }

  /** One access: its flags are pinned until none is refuted to one value; nothing else changes. */
  ghost predicate FlagStep(cons: seq<Expr>, g: Group, pinned: set<string>, bs: Bounds, p: int, a: Pins, b: Pins)
    requires p > 0 && AllKnown(cons) && Sane(bs)
  {
    var dom, deciding := FlagDomains(g.flags, bs, 1), Deciding(cons, g.isLoad, g.flags, p);
    if g.isLoad !in pinned || g.flags == [] || dom.None? || deciding == [] then b == a
    else
      && Extends(a, b) && b.Keys <= a.Keys + ToSet(g.flags)
      && forall x :: x in g.flags && x !in b ==> !FlagRefuted(deciding, x, g.flags, b, dom.value, p)
  }

  ghost predicate Extends(a: Pins, b: Pins) {
    forall x :: x in a ==> x in b && b[x] == a[x]
  }

  /** The accesses of the pinned selectors in turn. */
  ghost predicate FlagRun(cons: seq<Expr>, groups: seq<Group>, pinned: set<string>, bs: Bounds, p: int, a: Pins, b: Pins)
    requires p > 0 && AllKnown(cons) && Sane(bs)
  {
    if groups == [] then a == b
    else
      var n := |groups| - 1;
      exists mid :: FlagRun(cons, groups[..n], pinned, bs, p, a, mid) && FlagStep(cons, groups[n], pinned, bs, p, mid, b)
  }

  method RefuteAllFlags(cons: seq<Expr>, groups: seq<Group>, before: Pins, ghost loads: set<string>, bs: Bounds, p: int) returns (pins: Pins)
    requires Prime(p) && AllKnown(cons) && Sane(bs) && PinsFollow(before, loads, cons, bs, p)
    ensures PinsFollow(pins, loads, cons, bs, p) && FlagRun(cons, groups, before.Keys, bs, p, before, pins)
  {
    hide FlagDomains, Deciding, PinsFollow, FlagRefuted;
    pins := before;
    for i := 0 to |groups|
      invariant PinsFollow(pins, loads, cons, bs, p) && FlagRun(cons, groups[..i], before.Keys, bs, p, before, pins)
    {
      var g := groups[i];
      ghost var start := pins;
      if g.isLoad in before && g.flags != [] {
        var dom := FlagDomains(g.flags, bs, 1);
        if dom.Some? && Deciding(cons, g.isLoad, g.flags, p) != [] {
          pins := RefuteFlags(cons, g, pins, loads, dom.value, bs, p);
        }
      }
      assert FlagStep(cons, g, before.Keys, bs, p, start, pins);
      assert groups[..i + 1][..i] == groups[..i];
    }
    assert groups[..|groups|] == groups;
  }

  // ---- Linear zeros ----

  /** A residual constraint whose window makes it an integer identity. */
  predicate IsZero(forms: Forms, pins: Pins, bs: Bounds, p: int, i: nat)
    requires p > 0
  {
    && i < |forms| && forms[i].Some?
    && var lf := Subst(forms[i].value, pins, p);
    && lf.terms != []
    && var w := WindowOf(lf.terms, lf.constant, bs); w.Some? && WindowSound(w.value, p)
  }

  function ZerosUpto(forms: Forms, pins: Pins, bs: Bounds, p: int, n: nat): seq<LinForm>
    requires p > 0
  {
    if n == 0 then []
    else
      var rest := ZerosUpto(forms, pins, bs, p, n - 1);
      if IsZero(forms, pins, bs, p, n - 1) then rest + [Subst(forms[n - 1].value, pins, p)] else rest
  }

  method LinearZeros(forms: Forms, pins: Pins, bs: Bounds, p: int) returns (zeros: seq<LinForm>)
    requires p > 0
    ensures zeros == ZerosUpto(forms, pins, bs, p, |forms|)
  {
    zeros := [];
    for i := 0 to |forms|
      invariant zeros == ZerosUpto(forms, pins, bs, p, i)
    {
      if forms[i].Some? {
        var lf := Subst(forms[i].value, pins, p);
        if lf.terms != [] {
          var w := Window(lf.terms, lf.constant, bs);
          if w.Some? && WindowSound(w.value, p) {
            zeros := zeros + [lf];
          }
        }
      }
    }
  }

  /** A constraint that the pins leave a linear form in other columns, narrow enough to vanish as an integer. */
  ghost predicate LeftAsZero(forms: Forms, pins: Pins, bs: Bounds, p: int, i: int, z: LinForm)
    requires p > 0
  {
    && 0 <= i < |forms| && forms[i].Some? && z == Subst(forms[i].value, pins, p)
    && z.terms != [] && Narrow(z.terms, z.constant, bs, p)
  }

  lemma {:induction false} ZerosExactly(forms: Forms, pins: Pins, bs: Bounds, p: int, n: nat, z: LinForm)
    requires p > 0 && Canonical(forms, p) && n <= |forms|
    ensures z in ZerosUpto(forms, pins, bs, p, n) <==> exists i :: i < n && LeftAsZero(forms, pins, bs, p, i, z)
  {
    hide Narrow, WindowOf, Subst;
    if n > 0 {
      ZerosExactly(forms, pins, bs, p, n - 1, z);
      if forms[n - 1].Some? {
        var lf := Subst(forms[n - 1].value, pins, p);
        SubstColumns(forms[n - 1].value, pins, p);
        SortedIsDistinct(lf.terms);
        NarrowExactly(lf.terms, lf.constant, bs, p);
      }
      assert IsZero(forms, pins, bs, p, n - 1) && z == Subst(forms[n - 1].value, pins, p) <==> LeftAsZero(forms, pins, bs, p, n - 1, z);
      if i :| i < n && LeftAsZero(forms, pins, bs, p, i, z) {
        assert i == n - 1 || i < n - 1;
      }
    }
  }

  /** Every zero is an integer identity in every model of the pins. */
  lemma {:induction false} ZerosHold(forms: Forms, pins: Pins, bs: Bounds, p: int, n: nat, z: LinForm, env: Env)
    requires p > 0 && FormModel(forms, bs, p, env) && PinsHold(pins, p, env) && z in ZerosUpto(forms, pins, bs, p, n)
    ensures FormValue(z, env) == 0
  {
    hide Cong, Subst, WindowOf, TermsValue;
    if z !in ZerosUpto(forms, pins, bs, p, n - 1) {
      SubstVanishes(forms[n - 1].value, pins, p, env);
      WindowExact(z.terms, z.constant, bs, p, env);
    } else {
      ZerosHold(forms, pins, bs, p, n - 1, z, env);
    }
  }

  // ---- Propagation ----

  /** The three phases: window pins to a fixpoint, then the selectors, then the flags of the pinned selectors. */
  ghost predicate PropagationRun(cons: seq<Expr>, groups: seq<Group>, bs: Bounds, p: int, w: Pins, l: Pins, pins: Pins)
    requires p > 1 && AllKnown(cons) && Sane(bs)
  {
    && !StillPins(ParseAll(cons, p), w, bs, p)
    && LoadRun(cons, groups, bs, p, w, l)
    && FlagRun(cons, groups, l.Keys, bs, p, l, pins)
  }

  /** Every pin holds modulo `p`, every pin but the refuted selectors' as an integer, and every zero as an integer. */
  method Propagate(cons: seq<Expr>, groups: seq<Group>, bs: Bounds, p: int)
    returns (pins: Pins, zeros: seq<LinForm>, ghost loads: set<string>)
    requires Prime(p) && AllKnown(cons) && AffineDecodes(cons, groups) && Sane(bs)
    ensures forall env :: PropModel(cons, bs, p, env) ==> PinsHold(pins, p, env) && ExactPins(pins - loads, env)
    ensures forall z, env :: z in zeros && PropModel(cons, bs, p, env) ==> FormValue(z, env) == 0
    ensures forall x :: x in loads ==> exists g :: g in groups && g.isLoad == x
    ensures exists w, l :: PropagationRun(cons, groups, bs, p, w, l, pins)
    ensures zeros == ZerosUpto(ParseAll(cons, p), pins, bs, p, |cons|)
    ensures forall z :: z in zeros <==> exists i :: i < |cons| && LeftAsZero(ParseAll(cons, p), pins, bs, p, i, z)
  {
    hide ParseAll, ZerosUpto, LoadRun, FlagRun, StillPins, LeftAsZero, Canonical;
    var forms := ParseAll(cons, p);
    ParsedCanonical(cons, p);
    var w := WindowPins(forms, bs, p);
    WindowPinsFollow(cons, w, bs, p);
    var l, found := RefuteLoads(cons, groups, w, bs, p);
    pins := RefuteAllFlags(cons, groups, l, found, bs, p);
    loads := found;
    assert PropagationRun(cons, groups, bs, p, w, l, pins);
    zeros := LinearZeros(forms, pins, bs, p);
    forall z ensures z in zeros <==> exists i :: i < |cons| && LeftAsZero(forms, pins, bs, p, i, z) {
      ZerosExactly(forms, pins, bs, p, |cons|, z);
    }
    forall z, env | z in zeros && PropModel(cons, bs, p, env) ensures FormValue(z, env) == 0 {
      ParsedVanish(cons, p, env);
      ZerosHold(forms, pins, bs, p, |forms|, z, env);
    }
  }

  lemma WindowPinsFollow(cons: seq<Expr>, pins: Pins, bs: Bounds, p: int)
    requires p > 0 && WindowPinned(ParseAll(cons, p), pins, bs, p)
    ensures PinsFollow(pins, {}, cons, bs, p)
  {
    hide ParseAll, Cong;
    forall env | PropModel(cons, bs, p, env) ensures PinsHold(pins, p, env) && ExactPins(pins - {}, env) {
      ParsedVanish(cons, p, env);
      assert FormModel(ParseAll(cons, p), bs, p, env);
      ExactPinsHold(pins, p, env);
    }
  }
}
