/** Unit propagation over conjuncts, driven by occurrence lists. */
module BooleanPropagation {
  import opened Wrappers
  import opened Smt
  import opened Sets

  /** The simplifiers of the propagation, and which symbols are Boolean.  `rewrite` substitutes Boolean
      symbols and simplifies in one pass. */
  datatype Tools = Tools(isBool: string -> bool, simplify: Node -> Node, rewrite: (Node, map<string, bool>) -> Node)

  ghost predicate Agrees(m: Model, subs: map<string, bool>) {
    forall x :: x in subs ==> AsBool(VarOf(m, x)) == subs[x]
  }

  /** Both keep the meaning and introduce no symbol; substituted symbols disappear, and a literal of a
      substituted symbol becomes a constant. */
  ghost predicate SoundTools(t: Tools) {
    && (forall f, m :: Holds(t.simplify(f), m) == Holds(f, m))
    && (forall f :: FreeVars(t.simplify(f)) <= FreeVars(f))
    && (forall f, subs, m :: Agrees(m, subs) ==> Holds(t.rewrite(f, subs), m) == Holds(f, m))
    && (forall f, subs :: FreeVars(t.rewrite(f, subs)) <= FreeVars(f) - subs.Keys)
    && (forall x, v, subs :: x in subs ==> t.rewrite(UnitNode(x, v), subs) == BoolConst(v == subs[x]))
    && (forall b, subs :: t.rewrite(BoolConst(b), subs) == BoolConst(b))
  }

  /** A unit: a symbol with the value that makes its literal true. */
  datatype Unit = Unit(name: string, value: bool)

  function UnitNode(x: string, v: bool): Node {
    if v then Sym(x) else Not(Sym(x))
  }

  function AsUnit(t: Tools, f: Node): (u: Option<Unit>)
    ensures u.Some? ==> f == UnitNode(u.value.name, u.value.value) && t.isBool(u.value.name)
  {
    match f
    case Sym(x) => if t.isBool(x) then Some(Unit(x, true)) else None
    case App(NotOp, args) =>
      if |args| == 1 && args[0].Sym? && t.isBool(args[0].name) then
        assert args == [args[0]];
        Some(Unit(args[0].name, false))
      else None
    case _ => None
  }

  datatype State = State(
    literals: seq<Node>, seen: set<string>, remaining: map<int, Node>, occ: map<string, set<int>>, learned: map<string, bool>)

  function BoolVars(t: Tools, f: Node): set<string> {
    set x | x in FreeVars(f) && t.isBool(x)
  }

  // ---- Invariants ----

  /** Units over pairwise different symbols. */
  ghost predicate DistinctUnits(t: Tools, ls: seq<Node>) {
    forall i, j :: 0 <= i < j < |ls| && AsUnit(t, ls[i]).Some? && AsUnit(t, ls[j]).Some? ==>
      AsUnit(t, ls[i]).value.name != AsUnit(t, ls[j]).value.name
  }

  /** The literals are units over exactly the seen symbols, one each. */
  ghost predicate LiteralsOk(t: Tools, st: State) {
    && DistinctUnits(t, st.literals)
    && (forall l :: l in st.literals ==> AsUnit(t, l).Some? && AsUnit(t, l).value.name in st.seen)
    && (forall x :: x in st.learned ==> x in st.seen && UnitNode(x, st.learned[x]) in st.literals)
  }

  /** Every Boolean symbol of a remaining conjunct leads back to it. */
  ghost predicate Indexed(t: Tools, st: State) {
    forall i, x :: i in st.remaining && x in BoolVars(t, st.remaining[i]) ==> x in st.occ && i in st.occ[x]
  }

  /** Seen symbols of a remaining conjunct are still to be substituted, and a remaining unit is over a seen
      symbol; trues are dropped. */
  ghost predicate Pending(t: Tools, f: Node, seen: set<string>, learned: set<string>) {
    && f != BoolConst(true)
    && BoolVars(t, f) * seen <= learned
    && (AsUnit(t, f).Some? ==> AsUnit(t, f).value.name in seen)
  }

  ghost predicate AllPending(t: Tools, st: State) {
    forall i :: i in st.remaining ==> Pending(t, st.remaining[i], st.seen, st.learned.Keys)
  }

  ghost predicate Good(t: Tools, st: State) {
    LiteralsOk(t, st) && Indexed(t, st) && AllPending(t, st)
  }

  ghost predicate StateHolds(st: State, m: Model) {
    Sat(st.literals, m) && forall i :: i in st.remaining ==> Holds(st.remaining[i], m)
  }

  // ---- Placing a conjunct ----

  function AddOccurrences(occ: map<string, set<int>>, xs: set<string>, i: int): (r: map<string, set<int>>)
    ensures r.Keys == occ.Keys + xs
    ensures forall x :: x in r ==> r[x] == (if x in occ then occ[x] else {}) + (if x in xs then {i} else {})
  {
    map x | x in occ.Keys + xs :: (if x in occ then occ[x] else {}) + (if x in xs then {i} else {})
  }

  /** Learns a new unit, drops a true, keeps anything else. */
  function Place(t: Tools, st: State, i: int, f: Node): State {
    var u := AsUnit(t, f);
    if u.Some? && u.value.name !in st.seen then
      st.(seen := st.seen + {u.value.name}, literals := st.literals + [f], learned := st.learned[u.value.name := u.value.value])
    else if f == BoolConst(true) then st
    else st.(remaining := st.remaining[i := f], occ := AddOccurrences(st.occ, BoolVars(t, f), i))
  }

  lemma PlaceMeans(t: Tools, st: State, i: int, f: Node, m: Model)
    requires i !in st.remaining
    ensures StateHolds(Place(t, st, i, f), m) <==> StateHolds(st, m) && Holds(f, m)
  {
    var st' := Place(t, st, i, f);
    var u := AsUnit(t, f);
    if u.Some? && u.value.name !in st.seen {
      SatMore(st.literals, f, m);
    } else if f != BoolConst(true) {
      assert st'.remaining[i] == f;
      forall k | k in st.remaining ensures st'.remaining[k] == st.remaining[k] {
      }
    }
  }

  lemma PlaceGood(t: Tools, st: State, i: int, f: Node)
    requires Good(t, st) && i !in st.remaining && BoolVars(t, f) * st.seen <= st.learned.Keys
    ensures Good(t, Place(t, st, i, f))
  {
    PlaceLiterals(t, st, i, f);
    PlaceIndexed(t, st, i, f);
  }

  lemma PlaceLiterals(t: Tools, st: State, i: int, f: Node)
    requires LiteralsOk(t, st)
    ensures LiteralsOk(t, Place(t, st, i, f))
  {
  }

  lemma PlaceIndexed(t: Tools, st: State, i: int, f: Node)
    requires Indexed(t, st) && i !in st.remaining
    ensures Indexed(t, Place(t, st, i, f))
  {
  }

  // ---- One round ----

  /** The conjuncts that mention a symbol of `subs`, by the index. */
  function Affected(occ: map<string, set<int>>, subs: map<string, bool>): (found: set<int>)
    ensures forall i :: i in found <==> exists x :: x in subs && x in occ && i in occ[x]
  {
    set x, i | x in subs && x in occ && i in occ[x] :: i
  }

  function Discard(occ: map<string, set<int>>, xs: set<string>, i: int): (r: map<string, set<int>>)
    ensures r.Keys == occ.Keys
    ensures forall x :: x in r ==> r[x] == if x in xs then occ[x] - {i} else occ[x]
  {
    map x | x in occ :: if x in xs then occ[x] - {i} else occ[x]
  }

  ghost predicate RoundSubs(st: State, subs: map<string, bool>) {
    forall x :: x in subs ==> x in st.seen && UnitNode(x, subs[x]) in st.literals
  }

  ghost predicate RoundIndexed(t: Tools, st: State, subs: map<string, bool>) {
    forall i, x :: i in st.remaining && x in BoolVars(t, st.remaining[i]) && x !in subs ==> x in st.occ && i in st.occ[x]
  }

  ghost predicate RoundPending(t: Tools, st: State, subs: map<string, bool>, todo: set<int>) {
    forall i :: i in st.remaining ==> RoundPendingOne(t, st.remaining[i], st.seen, st.learned.Keys, subs.Keys, i in todo)
  }

  /** Symbols of this round's substitution may occur only in conjuncts still waiting for it. */
  ghost predicate RoundPendingOne(t: Tools, f: Node, seen: set<string>, learned: set<string>, subs: set<string>, waiting: bool) {
    if waiting then Pending(t, f, seen, subs + learned) else Pending(t, f, seen, learned) && BoolVars(t, f) !! subs
  }

  /** State while the conjuncts `todo` still wait for the substitution `subs`. */
  ghost predicate Round(t: Tools, st: State, subs: map<string, bool>, todo: set<int>) {
    LiteralsOk(t, st) && RoundSubs(st, subs) && RoundIndexed(t, st, subs) && RoundPending(t, st, subs, todo)
  }

  function StartRound(st: State): State {
    st.(occ := st.occ - st.learned.Keys, learned := map[])
  }

  lemma UnaffectedIsFree(t: Tools, st: State, i: int)
    requires Indexed(t, st) && i in st.remaining
    ensures i !in Affected(st.occ, st.learned) ==> BoolVars(t, st.remaining[i]) !! st.learned.Keys
  {
    if x :| x in BoolVars(t, st.remaining[i]) && x in st.learned {
      assert x in st.occ && i in st.occ[x];
    }
  }

  lemma RoundStarts(t: Tools, st: State)
    requires Good(t, st)
    ensures Round(t, StartRound(st), st.learned, Affected(st.occ, st.learned))
  {
    var subs, todo := st.learned, Affected(st.occ, st.learned);
    forall i | i in st.remaining
      ensures RoundPendingOne(t, st.remaining[i], st.seen, {}, subs.Keys, i in todo)
    {
      UnaffectedIsFree(t, st, i);
      assert Pending(t, st.remaining[i], st.seen, subs.Keys);
    }
    var st' := StartRound(st);
    forall i, x | i in st.remaining && x in BoolVars(t, st.remaining[i]) && x !in subs ensures x in st'.occ && i in st'.occ[x] {
      assert x in st.occ && i in st.occ[x];
    }
  }

  /** Takes conjunct `i` out, substitutes and places the result. */
  function Substituted(t: Tools, st: State, subs: map<string, bool>, i: int): State
    requires i in st.remaining
  {
    var f := st.remaining[i];
    var out := st.(remaining := st.remaining - {i}, occ := Discard(st.occ, FreeVars(f), i));
    Place(t, out, i, t.rewrite(f, subs))
  }

  lemma LiteralsGiveSubs(st: State, subs: map<string, bool>, m: Model)
    requires forall x :: x in subs ==> UnitNode(x, subs[x]) in st.literals
    requires Sat(st.literals, m)
    ensures Agrees(m, subs)
  {
    forall x | x in subs ensures AsBool(VarOf(m, x)) == subs[x] {
      assert Holds(UnitNode(x, subs[x]), m);
      NotHolds(Sym(x), m);
    }
  }

  lemma SubstitutedMeans(t: Tools, st: State, subs: map<string, bool>, i: int, m: Model)
    requires SoundTools(t) && i in st.remaining && forall x :: x in subs ==> UnitNode(x, subs[x]) in st.literals
    ensures StateHolds(Substituted(t, st, subs, i), m) <==> StateHolds(st, m)
  {
    var f := st.remaining[i];
    var out := st.(remaining := st.remaining - {i}, occ := Discard(st.occ, FreeVars(f), i));
    PlaceMeans(t, out, i, t.rewrite(f, subs), m);
    TakenOut(st, out, i, m);
    if Sat(st.literals, m) {
      LiteralsGiveSubs(st, subs, m);
      assert Holds(t.rewrite(f, subs), m) == Holds(f, m);
    }
  }

  lemma TakenOut(st: State, out: State, i: int, m: Model)
    requires i in st.remaining && out.literals == st.literals && out.remaining == st.remaining - {i}
    ensures StateHolds(st, m) <==> StateHolds(out, m) && Holds(st.remaining[i], m)
  {
    if StateHolds(out, m) && Holds(st.remaining[i], m) {
      forall k | k in st.remaining ensures Holds(st.remaining[k], m) {
        assert k == i || (k in out.remaining && out.remaining[k] == st.remaining[k]);
      }
    }
  }

  lemma SubstitutedRound(t: Tools, st: State, subs: map<string, bool>, todo: set<int>, i: int)
    requires SoundTools(t) && Round(t, st, subs, todo) && i in todo && i in st.remaining
    ensures Round(t, Substituted(t, st, subs, i), subs, todo - {i})
  {
    var f := st.remaining[i];
    var g := t.rewrite(f, subs);
    var out := st.(remaining := st.remaining - {i}, occ := Discard(st.occ, FreeVars(f), i));
    TakenOutRound(t, st, out, subs, todo, i);
    assert RoundPendingOne(t, f, st.seen, st.learned.Keys, subs.Keys, true);
    RewrittenVars(t, f, subs, st.seen, st.learned.Keys);
    PlaceRound(t, out, subs, todo - {i}, i, g);
  }

  lemma RewrittenVars(t: Tools, f: Node, subs: map<string, bool>, seen: set<string>, learned: set<string>)
    requires SoundTools(t) && BoolVars(t, f) * seen <= subs.Keys + learned
    ensures BoolVars(t, t.rewrite(f, subs)) * seen <= learned && BoolVars(t, t.rewrite(f, subs)) !! subs.Keys
  {
    hide FreeVars;
    var g := t.rewrite(f, subs);
    assert FreeVars(g) <= FreeVars(f) - subs.Keys;
    forall x | x in BoolVars(t, g) ensures x !in subs && (x in seen ==> x in learned) {
      assert x in FreeVars(f) - subs.Keys;
      assert x in BoolVars(t, f);
      assert x in seen ==> x in BoolVars(t, f) * seen;
    }
  }

  lemma TakenOutRound(t: Tools, st: State, out: State, subs: map<string, bool>, todo: set<int>, i: int)
    requires Round(t, st, subs, todo) && i in st.remaining
    requires out == st.(remaining := st.remaining - {i}, occ := Discard(st.occ, FreeVars(st.remaining[i]), i))
    ensures Round(t, out, subs, todo - {i})
  {
    forall k | k in out.remaining
      ensures RoundPendingOne(t, out.remaining[k], out.seen, out.learned.Keys, subs.Keys, k in todo - {i})
    {
      assert k in st.remaining && out.remaining[k] == st.remaining[k] && k != i;
    }
    forall k, x | k in out.remaining && x in BoolVars(t, out.remaining[k]) && x !in subs ensures x in out.occ && k in out.occ[x] {
      assert k in st.remaining && out.remaining[k] == st.remaining[k] && k != i;
      assert x in st.occ && k in st.occ[x];
    }
  }

  lemma PlaceRound(t: Tools, st: State, subs: map<string, bool>, todo: set<int>, i: int, g: Node)
    requires Round(t, st, subs, todo) && i !in st.remaining && i !in todo
    requires BoolVars(t, g) * st.seen <= st.learned.Keys && BoolVars(t, g) !! subs.Keys
    ensures Round(t, Place(t, st, i, g), subs, todo)
  {
    PlaceLiterals(t, st, i, g);
    PlaceRoundIndexed(t, st, subs, i, g);
    PlaceRoundPending(t, st, subs, todo, i, g);
    PlaceSubs(t, st, subs, i, g);
  }

  lemma PlaceSubs(t: Tools, st: State, subs: map<string, bool>, i: int, g: Node)
    requires RoundSubs(st, subs)
    ensures RoundSubs(Place(t, st, i, g), subs)
  {
  }

  lemma PlaceRoundIndexed(t: Tools, st: State, subs: map<string, bool>, i: int, g: Node)
    requires RoundIndexed(t, st, subs) && i !in st.remaining
    ensures RoundIndexed(t, Place(t, st, i, g), subs)
  {
  }

  lemma PlaceRoundPending(t: Tools, st: State, subs: map<string, bool>, todo: set<int>, i: int, g: Node)
    requires RoundPending(t, st, subs, todo) && i !in st.remaining && i !in todo
    requires BoolVars(t, g) * st.seen <= st.learned.Keys && BoolVars(t, g) !! subs.Keys
    ensures RoundPending(t, Place(t, st, i, g), subs, todo)
  {
    var st' := Place(t, st, i, g);
    forall k | k in st'.remaining
      ensures RoundPendingOne(t, st'.remaining[k], st'.seen, st'.learned.Keys, subs.Keys, k in todo)
    {
      if k in st.remaining {
        assert RoundPendingOne(t, st.remaining[k], st.seen, st.learned.Keys, subs.Keys, k in todo);
        StillPending(t, st.remaining[k], st, st', subs, k in todo);
      }
    }
  }

  /** Learning a symbol keeps what is known about the conjuncts already placed. */
  lemma StillPending(t: Tools, f: Node, st: State, st': State, subs: map<string, bool>, waiting: bool)
    requires RoundPendingOne(t, f, st.seen, st.learned.Keys, subs.Keys, waiting)
    requires st'.seen - st.seen <= st'.learned.Keys && st.seen <= st'.seen && st.learned.Keys <= st'.learned.Keys
    ensures RoundPendingOne(t, f, st'.seen, st'.learned.Keys, subs.Keys, waiting)
  {
  }

  lemma RoundEnds(t: Tools, st: State, subs: map<string, bool>)
    requires Round(t, st, subs, {})
    ensures Good(t, st)
  {
    forall i, x | i in st.remaining && x in BoolVars(t, st.remaining[i]) ensures x in st.occ && i in st.occ[x] {
      assert x !in subs;
    }
  }

  // ---- Termination and conflicts ----

  ghost predicate Within(st: State, universe: set<string>) {
    && st.seen <= universe && st.learned.Keys <= st.seen
    && forall i :: i in st.remaining ==> FreeVars(st.remaining[i]) <= universe
  }

  lemma PlaceWithin(t: Tools, st: State, i: int, f: Node, universe: set<string>)
    requires Within(st, universe) && FreeVars(f) <= universe
    ensures Within(Place(t, st, i, f), universe)
  {
    var u := AsUnit(t, f);
    if u.Some? {
      UnitVars(u.value.name, u.value.value);
    }
  }

  lemma UnitVars(x: string, v: bool)
    ensures FreeVars(UnitNode(x, v)) == {x}
  {
    if !v {
      var n := UnitNode(x, v);
      assert n.args[0] == Sym(x);
      assert FreeVars(n.args[0]) == {x};
      assert FreeVars(n) == set i, y | 0 <= i < |n.args| && y in FreeVars(n.args[i]) :: y;
    }
  }

  /** Conjunct `i` is false, or waits to become so: it contradicts a symbol about to be substituted. */
  ghost predicate DoomedAt(st: State, subs: map<string, bool>, waiting: bool, i: int) {
    && i in st.remaining
    && (st.remaining[i] == BoolConst(false)
        || (waiting && exists x :: x in subs && st.remaining[i] == UnitNode(x, !subs[x])))
  }

  ghost predicate Doomed(st: State) {
    exists i :: DoomedAt(st, st.learned, true, i)
  }

  /** The same during a round: a conjunct waits for this round's substitution, or was placed in it and waits
      for the next. */
  ghost predicate DoomedRound(st: State, subs: map<string, bool>, todo: set<int>) {
    exists i :: DoomedEither(st, subs, todo, i)
  }

  ghost predicate DoomedEither(st: State, subs: map<string, bool>, todo: set<int>, i: int) {
    DoomedAt(st, subs, i in todo, i) || DoomedAt(st, st.learned, i !in todo, i)
  }

  lemma PlaceStaysDoomed(t: Tools, st: State, i: int, f: Node)
    requires Doomed(st) && i !in st.remaining && st.learned.Keys <= st.seen
    ensures Doomed(Place(t, st, i, f))
  {
    var k :| DoomedAt(st, st.learned, true, k);
    var st' := Place(t, st, i, f);
    assert st'.remaining[k] == st.remaining[k];
    if st.remaining[k] != BoolConst(false) {
      var x :| x in st.learned && st.remaining[k] == UnitNode(x, !st.learned[x]);
      assert x in st'.learned && st'.learned[x] == st.learned[x];
    }
    assert DoomedAt(st', st'.learned, true, k);
  }

  lemma RoundStartsDoomed(t: Tools, st: State)
    requires Indexed(t, st) && LiteralsOk(t, st) && Doomed(st)
    ensures DoomedRound(StartRound(st), st.learned, Affected(st.occ, st.learned))
  {
    var i :| DoomedAt(st, st.learned, true, i);
    if st.remaining[i] != BoolConst(false) {
      var x :| x in st.learned && st.remaining[i] == UnitNode(x, !st.learned[x]);
      UnitVars(x, !st.learned[x]);
      assert AsUnit(t, UnitNode(x, st.learned[x])).Some?;
      UnitIsBool(t, x, st.learned[x]);
      assert x in BoolVars(t, st.remaining[i]);
      assert x in st.occ && i in st.occ[x];
    }
    assert DoomedEither(StartRound(st), st.learned, Affected(st.occ, st.learned), i);
  }

  lemma UnitIsBool(t: Tools, x: string, v: bool)
    requires AsUnit(t, UnitNode(x, v)).Some?
    ensures t.isBool(x)
  {
  }

  lemma SubstitutedStaysDoomed(t: Tools, st: State, subs: map<string, bool>, todo: set<int>, j: int)
    requires SoundTools(t) && j in todo && j in st.remaining && st.learned.Keys <= st.seen && DoomedRound(st, subs, todo)
    ensures DoomedRound(Substituted(t, st, subs, j), subs, todo - {j})
  {
    var i :| DoomedEither(st, subs, todo, i);
    var st' := Substituted(t, st, subs, j);
    if i == j {
      assert t.rewrite(st.remaining[i], subs) == BoolConst(false);
      assert st'.remaining[i] == BoolConst(false);
    } else {
      assert i in st'.remaining && st'.remaining[i] == st.remaining[i];
      if x :| x in st.learned && st.remaining[i] == UnitNode(x, !st.learned[x]) {
        assert x in st'.learned && st'.learned[x] == st.learned[x];
      }
    }
    assert DoomedEither(st', subs, todo - {j}, i);
  }

  // ---- The formulas that came up ----

  ghost predicate FromLiterals(subs: map<string, bool>, literals: seq<Node>) {
    forall x :: x in subs ==> UnitNode(x, subs[x]) in literals
  }

  /** Formula `k` of the trace is a conjunct, or an earlier formula with literals substituted. */
  ghost predicate Origin(t: Tools, presimplify: bool, fs: seq<Node>, trace: seq<Node>, literals: seq<Node>, k: int)
    requires 0 <= k < |trace|
  {
    || (exists i :: 0 <= i < |fs| && trace[k] == (if presimplify then t.simplify(fs[i]) else fs[i]))
    || (exists j, subs :: 0 <= j < k && FromLiterals(subs, literals) && trace[k] == t.rewrite(trace[j], subs))
  }

  /** The trace of a propagation: all conjuncts, and only what substituting literals makes of them. */
  ghost predicate Derivation(t: Tools, presimplify: bool, fs: seq<Node>, trace: seq<Node>, literals: seq<Node>) {
    && (forall i :: 0 <= i < |fs| ==> (if presimplify then t.simplify(fs[i]) else fs[i]) in trace)
    && (forall k :: 0 <= k < |trace| ==> Origin(t, presimplify, fs, trace, literals, k))
  }

  /** A unit that ever came up is a literal and no false came up, or else the conjuncts are doomed. */
  ghost predicate Kept(t: Tools, trace: seq<Node>, st: State, doomed: bool) {
    && (forall l :: l in st.literals ==> l in trace)
    && (forall i :: i in st.remaining ==> st.remaining[i] in trace)
    && (forall f :: f in trace ==> (AsUnit(t, f).Some? ==> f in st.literals || doomed) && (f == BoolConst(false) ==> doomed))
  }

  lemma {:induction false} OriginsStay(t: Tools, presimplify: bool, fs: seq<Node>, trace: seq<Node>, literals: seq<Node>, more: seq<Node>, g: Node)
    requires forall k :: 0 <= k < |trace| ==> Origin(t, presimplify, fs, trace, literals, k)
    requires literals <= more
    ensures forall k :: 0 <= k < |trace| ==> Origin(t, presimplify, fs, trace + [g], more, k)
  {
    forall k | 0 <= k < |trace| ensures Origin(t, presimplify, fs, trace + [g], more, k) {
      assert Origin(t, presimplify, fs, trace, literals, k);
      if j, subs :| 0 <= j < k && FromLiterals(subs, literals) && trace[k] == t.rewrite(trace[j], subs) {
        assert (trace + [g])[j] == trace[j] && FromLiterals(subs, more);
      } else {
        var i :| 0 <= i < |fs| && trace[k] == Prepared(t, presimplify, fs[i]);
      }
    }
  }

  /** A placed unit over a seen symbol repeats a literal or contradicts a value just learned. */
  lemma PlaceKept(t: Tools, trace: seq<Node>, st: State, i: int, g: Node, doomed: bool)
    requires LiteralsOk(t, st) && Kept(t, trace, st, doomed) && i !in st.remaining
    requires BoolVars(t, g) * st.seen <= st.learned.Keys && st.learned.Keys <= st.seen
    ensures Kept(t, trace + [g], Place(t, st, i, g), doomed || DoomedAt(Place(t, st, i, g), Place(t, st, i, g).learned, true, i))
  {
    var st' := Place(t, st, i, g);
    var u := AsUnit(t, g);
    forall l | l in st'.literals ensures l in trace + [g] {
      assert l in st.literals || l == g;
    }
    if u.Some? && u.value.name in st.seen {
      var x := u.value.name;
      UnitMentions(t, g);
      assert x in BoolVars(t, g) * st.seen;
      if st.learned[x] == u.value.value {
        assert g in st.literals;
      } else {
        assert st'.remaining[i] == UnitNode(x, !st'.learned[x]);
      }
    }
    forall f | f in trace + [g]
      ensures AsUnit(t, f).Some? ==> f in st'.literals || doomed || DoomedAt(st', st'.learned, true, i)
      ensures f == BoolConst(false) ==> doomed || DoomedAt(st', st'.learned, true, i)
    {
      assert f in trace || f == g;
    }
  }

  // ---- The loops ----

  /** One round: every affected conjunct is substituted and placed again. */
  method RunRound(t: Tools, st0: State, ghost universe: set<string>, ghost presimplify: bool, ghost fs: seq<Node>, ghost trace0: seq<Node>)
    returns (st: State, ghost trace: seq<Node>)
    requires SoundTools(t) && Good(t, st0) && Within(st0, universe)
    requires Derivation(t, presimplify, fs, trace0, st0.literals) && Kept(t, trace0, st0, Doomed(st0))
    ensures Good(t, st) && Within(st, universe)
    ensures forall m :: StateHolds(st, m) <==> StateHolds(st0, m)
    ensures st0.seen <= st.seen && st.learned.Keys <= st.seen - st0.seen
    ensures st0.literals <= st.literals && st.remaining.Keys <= st0.remaining.Keys
    ensures Derivation(t, presimplify, fs, trace, st.literals) && Kept(t, trace, st, Doomed(st))
  {
    hide Good, Round, Derivation, Kept, Doomed, DoomedRound, Within;
    var subs := st0.learned;
    var todo := Affected(st0.occ, subs);
    st, trace := StartRound(st0), trace0;
    RoundStarts(t, st0);
    RoundStartsKept(t, trace, st0, universe);
    while todo != {}
      invariant Round(t, st, subs, todo) && Within(st, universe)
      invariant forall m :: StateHolds(st, m) <==> StateHolds(st0, m)
      invariant st0.seen <= st.seen && st.learned.Keys <= st.seen - st0.seen && st0.literals <= st.literals
      invariant st.remaining.Keys <= st0.remaining.Keys
      invariant Derivation(t, presimplify, fs, trace, st.literals) && Kept(t, trace, st, DoomedRound(st, subs, todo))
      decreases |todo|
    {
      var i := AnyOf(todo);
      if i in st.remaining {
        st, trace := SubstituteOne(t, st, subs, todo, i, universe, presimplify, fs, trace);
      } else {
        SkipRound(t, st, subs, todo, i, trace);
      }
      todo := todo - {i};
    }
    RoundEnds(t, st, subs);
    RoundEndsKept(t, trace, st, subs);
  }

  lemma RoundStartsKept(t: Tools, trace: seq<Node>, st: State, universe: set<string>)
    requires Good(t, st) && Within(st, universe) && Kept(t, trace, st, Doomed(st))
    ensures Kept(t, trace, StartRound(st), DoomedRound(StartRound(st), st.learned, Affected(st.occ, st.learned)))
    ensures Within(StartRound(st), universe)
    ensures forall m :: StateHolds(StartRound(st), m) <==> StateHolds(st, m)
  {
    if Doomed(st) {
      RoundStartsDoomed(t, st);
    }
  }

  lemma RoundEndsKept(t: Tools, trace: seq<Node>, st: State, subs: map<string, bool>)
    requires Kept(t, trace, st, DoomedRound(st, subs, {}))
    ensures Kept(t, trace, st, Doomed(st))
  {
    if i :| DoomedEither(st, subs, {}, i) {
      assert DoomedAt(st, st.learned, true, i);
    }
  }

  lemma SkipRound(t: Tools, st: State, subs: map<string, bool>, todo: set<int>, i: int, trace: seq<Node>)
    requires Round(t, st, subs, todo) && i !in st.remaining && Kept(t, trace, st, DoomedRound(st, subs, todo))
    ensures Round(t, st, subs, todo - {i})
    ensures Kept(t, trace, st, DoomedRound(st, subs, todo - {i}))
  {
    forall k | k in st.remaining ensures RoundPendingOne(t, st.remaining[k], st.seen, st.learned.Keys, subs.Keys, k in todo - {i}) {
      assert RoundPendingOne(t, st.remaining[k], st.seen, st.learned.Keys, subs.Keys, k in todo);
    }
    if DoomedRound(st, subs, todo) {
      var k :| DoomedEither(st, subs, todo, k);
      assert DoomedEither(st, subs, todo - {i}, k);
    }
  }

  method SubstituteOne(t: Tools, st0: State, subs: map<string, bool>, ghost todo: set<int>, i: int, ghost universe: set<string>,
                       ghost presimplify: bool, ghost fs: seq<Node>, ghost trace0: seq<Node>)
    returns (st: State, ghost trace: seq<Node>)
    requires SoundTools(t) && Round(t, st0, subs, todo) && Within(st0, universe) && i in todo && i in st0.remaining
    requires Derivation(t, presimplify, fs, trace0, st0.literals) && Kept(t, trace0, st0, DoomedRound(st0, subs, todo))
    ensures Round(t, st, subs, todo - {i}) && Within(st, universe)
    ensures forall m :: StateHolds(st, m) <==> StateHolds(st0, m)
    ensures st0.seen <= st.seen && st.learned.Keys <= st0.learned.Keys + (st.seen - st0.seen) && st0.literals <= st.literals
    ensures st.remaining.Keys <= st0.remaining.Keys
    ensures Derivation(t, presimplify, fs, trace, st.literals) && Kept(t, trace, st, DoomedRound(st, subs, todo - {i}))
  {
    hide Derivation, Kept, DoomedRound, StateHolds;
    var f := st0.remaining[i];
    st := Substituted(t, st0, subs, i);
    trace := trace0 + [t.rewrite(f, subs)];
    SubstitutedRound(t, st0, subs, todo, i);
    forall m ensures StateHolds(st, m) <==> StateHolds(st0, m) {
      SubstitutedMeans(t, st0, subs, i, m);
    }
    assert FreeVars(t.rewrite(f, subs)) <= FreeVars(f) - subs.Keys;
    PlaceWithin(t, st0.(remaining := st0.remaining - {i}, occ := Discard(st0.occ, FreeVars(f), i)), i, t.rewrite(f, subs), universe);
    SubstitutedKept(t, trace0, st0, subs, todo, i);
    SubstitutedDerives(t, presimplify, fs, trace0, st0, subs, todo, i);
  }

  lemma SubstitutedDerives(t: Tools, presimplify: bool, fs: seq<Node>, trace: seq<Node>, st: State, subs: map<string, bool>, todo: set<int>, i: int)
    requires Round(t, st, subs, todo) && i in st.remaining && Derivation(t, presimplify, fs, trace, st.literals)
    requires Kept(t, trace, st, DoomedRound(st, subs, todo))
    ensures Derivation(t, presimplify, fs, trace + [t.rewrite(st.remaining[i], subs)], Substituted(t, st, subs, i).literals)
  {
    var g, after := t.rewrite(st.remaining[i], subs), Substituted(t, st, subs, i).literals;
    assert st.literals <= after;
    OriginsStay(t, presimplify, fs, trace, st.literals, after, g);
    assert st.remaining[i] in trace;
    var j :| 0 <= j < |trace| && trace[j] == st.remaining[i];
    assert FromLiterals(subs, after);
    assert (trace + [g])[|trace|] == g && (trace + [g])[j] == trace[j];
    assert Origin(t, presimplify, fs, trace + [g], after, |trace|);
  }

  lemma SubstitutedKept(t: Tools, trace: seq<Node>, st: State, subs: map<string, bool>, todo: set<int>, i: int)
    requires SoundTools(t) && Round(t, st, subs, todo) && st.learned.Keys <= st.seen && i in todo && i in st.remaining
    requires Kept(t, trace, st, DoomedRound(st, subs, todo))
    ensures Kept(t, trace + [t.rewrite(st.remaining[i], subs)], Substituted(t, st, subs, i), DoomedRound(Substituted(t, st, subs, i), subs, todo - {i}))
  {
    var f := st.remaining[i];
    var g, st' := t.rewrite(f, subs), Substituted(t, st, subs, i);
    var out := st.(remaining := st.remaining - {i}, occ := Discard(st.occ, FreeVars(f), i));
    assert RoundPendingOne(t, f, st.seen, st.learned.Keys, subs.Keys, true);
    RewrittenVars(t, f, subs, st.seen, st.learned.Keys);
    var doomed := DoomedRound(st, subs, todo);
    PlaceKept(t, trace, out, i, g, doomed);
    if doomed {
      SubstitutedStaysDoomed(t, st, subs, todo, i);
    } else if DoomedAt(st', st'.learned, true, i) {
      assert DoomedEither(st', subs, todo - {i}, i);
    }
  }

  function Prepared(t: Tools, presimplify: bool, f: Node): Node {
    if presimplify then t.simplify(f) else f
  }

  ghost function VarsOf(fs: seq<Node>): set<string> {
    set i, x | 0 <= i < |fs| && x in FreeVars(fs[i]) :: x
  }

  /** The first pass over the conjuncts. */
  method PlaceAll(t: Tools, presimplify: bool, fs: seq<Node>) returns (st: State, ghost trace: seq<Node>)
    requires SoundTools(t)
    ensures Good(t, st) && Within(st, VarsOf(fs))
    ensures forall m :: StateHolds(st, m) <==> Sat(fs, m)
    ensures forall i :: i in st.remaining ==> 0 <= i < |fs|
    ensures Derivation(t, presimplify, fs, trace, st.literals) && Kept(t, trace, st, Doomed(st))
  {
    hide PlacedSoFar, Good, Within, Derivation, Kept, Doomed;
    st, trace := State([], {}, map[], map[], map[]), [];
    NothingPlaced(t, presimplify, fs);
    for n := 0 to |fs|
      invariant PlacedSoFar(t, presimplify, fs, n, st, trace)
      invariant forall m :: StateHolds(st, m) <==> Sat(fs[..n], m)
    {
      st, trace := PlaceNext(t, presimplify, fs, n, st, trace);
    }
    assert fs[..|fs|] == fs;
    AllPlaced(t, presimplify, fs, st, trace);
  }

  lemma NothingPlaced(t: Tools, presimplify: bool, fs: seq<Node>)
    ensures PlacedSoFar(t, presimplify, fs, 0, State([], {}, map[], map[], map[]), [])
    ensures forall m :: StateHolds(State([], {}, map[], map[], map[]), m) <==> Sat(fs[..0], m)
  {
  }

  lemma AllPlaced(t: Tools, presimplify: bool, fs: seq<Node>, st: State, trace: seq<Node>)
    requires PlacedSoFar(t, presimplify, fs, |fs|, st, trace)
    ensures Good(t, st) && Within(st, VarsOf(fs)) && Derivation(t, presimplify, fs, trace, st.literals) && Kept(t, trace, st, Doomed(st))
    ensures forall i :: i in st.remaining ==> 0 <= i < |fs|
  {
    hide Good, Within, Kept, Doomed;
    forall i | 0 <= i < |fs| ensures (if presimplify then t.simplify(fs[i]) else fs[i]) in trace {
      assert trace[i] == Prepared(t, presimplify, fs[i]);
    }
    forall k | 0 <= k < |trace| ensures Origin(t, presimplify, fs, trace, st.literals, k) {
      assert trace[k] == Prepared(t, presimplify, fs[k]);
    }
  }

  ghost predicate PlacedSoFar(t: Tools, presimplify: bool, fs: seq<Node>, n: int, st: State, trace: seq<Node>) {
    && FirstPass(t, n, st, VarsOf(fs)) && Kept(t, trace, st, Doomed(st))
    && |trace| == n <= |fs| && forall i :: 0 <= i < n ==> trace[i] == Prepared(t, presimplify, fs[i])
  }

  method PlaceNext(t: Tools, presimplify: bool, fs: seq<Node>, n: nat, st0: State, ghost trace0: seq<Node>)
    returns (st: State, ghost trace: seq<Node>)
    requires SoundTools(t) && n < |fs| && PlacedSoFar(t, presimplify, fs, n, st0, trace0)
    requires forall m :: StateHolds(st0, m) <==> Sat(fs[..n], m)
    ensures PlacedSoFar(t, presimplify, fs, n + 1, st, trace)
    ensures forall m :: StateHolds(st, m) <==> Sat(fs[..n + 1], m)
  {
    st := Place(t, st0, n, Prepared(t, presimplify, fs[n]));
    trace := trace0 + [Prepared(t, presimplify, fs[n])];
    NextIsPlaced(t, presimplify, fs, n, st0, trace0);
    forall m ensures StateHolds(st, m) <==> Sat(fs[..n + 1], m) {
      NextMeans(t, presimplify, fs, n, st0, m);
    }
  }

  lemma NextIsPlaced(t: Tools, presimplify: bool, fs: seq<Node>, n: nat, st: State, trace: seq<Node>)
    requires SoundTools(t) && n < |fs| && PlacedSoFar(t, presimplify, fs, n, st, trace)
    ensures PlacedSoFar(t, presimplify, fs, n + 1, Place(t, st, n, Prepared(t, presimplify, fs[n])), trace + [Prepared(t, presimplify, fs[n])])
  {
    hide AsUnit;
    var g := Prepared(t, presimplify, fs[n]);
    PreparedWithin(t, presimplify, fs, n);
    FirstPassStep(t, st, n, g, VarsOf(fs));
    FirstKept(t, trace, st, n, g);
  }

  lemma FirstKept(t: Tools, trace: seq<Node>, st: State, n: nat, g: Node)
    requires LiteralsOk(t, st) && st.learned.Keys == st.seen && n !in st.remaining && Kept(t, trace, st, Doomed(st))
    ensures Kept(t, trace + [g], Place(t, st, n, g), Doomed(Place(t, st, n, g)))
  {
    var doomed := Doomed(st);
    PlaceKept(t, trace, st, n, g, doomed);
    if doomed {
      PlaceStaysDoomed(t, st, n, g);
    }
  }

  ghost predicate FirstPass(t: Tools, n: int, st: State, universe: set<string>) {
    Good(t, st) && Within(st, universe) && st.learned.Keys == st.seen && forall i :: i in st.remaining ==> 0 <= i < n
  }

  lemma FirstPassStep(t: Tools, st: State, n: nat, f: Node, universe: set<string>)
    requires FirstPass(t, n, st, universe) && FreeVars(f) <= universe
    ensures FirstPass(t, n + 1, Place(t, st, n, f), universe)
  {
    PlaceGood(t, st, n, f);
    PlaceWithin(t, st, n, f, universe);
    PlaceKeys(t, st, n, f);
  }

  lemma PlaceKeys(t: Tools, st: State, i: int, f: Node)
    requires st.learned.Keys == st.seen
    ensures Place(t, st, i, f).learned.Keys == Place(t, st, i, f).seen
    ensures Place(t, st, i, f).remaining.Keys <= st.remaining.Keys + {i}
  {
  }

  lemma NextMeans(t: Tools, presimplify: bool, fs: seq<Node>, n: nat, st: State, m: Model)
    requires SoundTools(t) && n < |fs| && n !in st.remaining && (StateHolds(st, m) <==> Sat(fs[..n], m))
    ensures StateHolds(Place(t, st, n, Prepared(t, presimplify, fs[n])), m) <==> Sat(fs[..n + 1], m)
  {
    PlaceMeans(t, st, n, Prepared(t, presimplify, fs[n]), m);
    assert fs[..n + 1] == fs[..n] + [fs[n]];
    SatMore(fs[..n], fs[n], m);
    PreparedMeans(t, presimplify, fs[n], m);
  }

  lemma PreparedMeans(t: Tools, presimplify: bool, f: Node, m: Model)
    requires SoundTools(t)
    ensures Holds(Prepared(t, presimplify, f), m) == Holds(f, m)
  {
  }

  lemma PreparedWithin(t: Tools, presimplify: bool, fs: seq<Node>, n: nat)
    requires SoundTools(t) && n < |fs|
    ensures FreeVars(Prepared(t, presimplify, fs[n])) <= VarsOf(fs)
  {
    assert FreeVars(t.simplify(fs[n])) <= FreeVars(fs[n]);
    forall x | x in FreeVars(fs[n]) ensures x in VarsOf(fs) {
    }
  }

  function InOrder(remaining: map<int, Node>, n: nat): (fs: seq<Node>)
    ensures forall f :: f in fs <==> exists i :: 0 <= i < n && i in remaining && remaining[i] == f
  {
    if n == 0 then [] else InOrder(remaining, n - 1) + (if n - 1 in remaining then [remaining[n - 1]] else [])
  }

  /** `rest` is at the fixpoint of the literals: it holds no unit, no true, and no symbol already decided. */
  ghost predicate Fixpoint(t: Tools, literals: seq<Node>, rest: seq<Node>) {
    && (forall l :: l in literals ==> AsUnit(t, l).Some?)
    && DistinctUnits(t, literals)
    && (forall f :: f in rest ==> AsUnit(t, f).None? && f != BoolConst(true))
    && (forall f, l :: f in rest && l in literals && AsUnit(t, l).Some? ==> AsUnit(t, l).value.name !in BoolVars(t, f))
  }

  /** Opposite units, or a false, came up in the trace. */
  ghost predicate Conflict(t: Tools, trace: seq<Node>) {
    BoolConst(false) in trace || exists x :: t.isBool(x) && UnitNode(x, true) in trace && UnitNode(x, false) in trace
  }

  /** Unit propagation to a fixpoint: the conjunction keeps its models.  All that comes up on the way is a
      conjunct or a conjunct with literals substituted; whenever opposite units are among it, a false is left. */
  method Propagate(t: Tools, conjuncts: seq<Node>, presimplify: bool) returns (out: seq<Node>, ghost n: nat, ghost trace: seq<Node>)
    requires SoundTools(t)
    ensures forall m :: Sat(out, m) <==> Sat(conjuncts, m)
    ensures n <= |out| && Fixpoint(t, out[..n], out[n..])
    ensures Derivation(t, presimplify, conjuncts, trace, out[..n]) && forall f :: f in out ==> f in trace
    ensures Conflict(t, trace) ==> BoolConst(false) in out
  {
    hide Good, Within, Derivation, Kept, Doomed;
    ghost var universe := VarsOf(conjuncts);
    var st: State;
    st, trace := PlaceAll(t, presimplify, conjuncts);
    while st.learned != map[]
      invariant Good(t, st) && Within(st, universe)
      invariant forall m :: StateHolds(st, m) <==> Sat(conjuncts, m)
      invariant forall i :: i in st.remaining ==> 0 <= i < |conjuncts|
      invariant Derivation(t, presimplify, conjuncts, trace, st.literals) && Kept(t, trace, st, Doomed(st))
      decreases |universe - st.seen|, |st.learned|
    {
      st, trace := NextRound(t, st, universe, |conjuncts|, presimplify, conjuncts, trace);
    }
    var rest := InOrder(st.remaining, |conjuncts|);
    out := st.literals + rest;
    n := |st.literals|;
    Finished(t, st, rest, |conjuncts|);
    assert out[..n] == st.literals && out[n..] == rest;
    FinishedKept(t, trace, st, rest, |conjuncts|);
  }

  lemma FinishedKept(t: Tools, trace: seq<Node>, st: State, rest: seq<Node>, n: nat)
    requires Good(t, st) && st.learned == map[] && rest == InOrder(st.remaining, n) && Kept(t, trace, st, Doomed(st))
    requires forall i :: i in st.remaining ==> 0 <= i < n
    ensures forall f :: f in st.literals + rest ==> f in trace
    ensures Conflict(t, trace) ==> BoolConst(false) in st.literals + rest
  {
    if Conflict(t, trace) {
      ConflictDooms(t, trace, st);
      var i :| DoomedAt(st, st.learned, true, i);
      assert st.remaining[i] in rest;
    }
  }

  lemma ConflictDooms(t: Tools, trace: seq<Node>, st: State)
    requires LiteralsOk(t, st) && Kept(t, trace, st, Doomed(st)) && Conflict(t, trace)
    ensures Doomed(st)
  {
    if BoolConst(false) !in trace {
      var x :| t.isBool(x) && UnitNode(x, true) in trace && UnitNode(x, false) in trace;
      var a, b := UnitNode(x, true), UnitNode(x, false);
      assert AsUnit(t, a) == Some(Unit(x, true)) && AsUnit(t, b) == Some(Unit(x, false));
    }
  }

  method NextRound(t: Tools, st0: State, ghost universe: set<string>, ghost n: nat, ghost presimplify: bool, ghost fs: seq<Node>, ghost trace0: seq<Node>)
    returns (st: State, ghost trace: seq<Node>)
    requires SoundTools(t) && Good(t, st0) && Within(st0, universe) && st0.learned != map[]
    requires Derivation(t, presimplify, fs, trace0, st0.literals) && Kept(t, trace0, st0, Doomed(st0))
    requires forall i :: i in st0.remaining ==> 0 <= i < n
    ensures Good(t, st) && Within(st, universe)
    ensures forall m :: StateHolds(st, m) <==> StateHolds(st0, m)
    ensures Derivation(t, presimplify, fs, trace, st.literals) && Kept(t, trace, st, Doomed(st))
    ensures forall i :: i in st.remaining ==> 0 <= i < n
    ensures |universe - st.seen| < |universe - st0.seen| || (|universe - st.seen| == |universe - st0.seen| && |st.learned| < |st0.learned|)
  {
    hide Good, Derivation, Kept, Doomed;
    st, trace := RunRound(t, st0, universe, presimplify, fs, trace0);
    LearnedShrinks(universe, st0.seen, st.seen, st.learned.Keys);
    assert |st.learned| == |st.learned.Keys|;
    assert |st0.learned| > 0;
  }

  lemma LearnedShrinks(universe: set<string>, before: set<string>, after: set<string>, learned: set<string>)
    requires before <= after <= universe && learned <= after - before
    ensures |universe - after| <= |universe - before|
    ensures learned != {} ==> |universe - after| < |universe - before|
  {
    assert universe - before == (universe - after) + (after - before);
    if learned != {} {
      assert after - before != {};
    }
  }

  lemma Finished(t: Tools, st: State, rest: seq<Node>, n: nat)
    requires Good(t, st) && st.learned == map[] && rest == InOrder(st.remaining, n)
    requires forall i :: i in st.remaining ==> 0 <= i < n
    ensures Fixpoint(t, st.literals, rest)
    ensures forall m :: Sat(st.literals + rest, m) <==> StateHolds(st, m)
  {
    forall f | f in rest ensures AsUnit(t, f).None? && f != BoolConst(true) && BoolVars(t, f) !! st.seen {
      var i :| 0 <= i < n && i in st.remaining && st.remaining[i] == f;
      assert Pending(t, f, st.seen, {});
      RestIsFree(t, f, st.seen);
    }
    forall m ensures Sat(st.literals + rest, m) <==> StateHolds(st, m) {
      SatConcat(st.literals, rest, m);
      if Sat(rest, m) {
        forall i | i in st.remaining ensures Holds(st.remaining[i], m) {
          assert st.remaining[i] in rest;
        }
      }
    }
  }

  lemma NoMeet(a: set<string>, b: set<string>, x: string)
    requires a * b <= {}
    ensures x in a ==> x !in b
  {
    assert x in a * b <==> x in a && x in b;
  }

  lemma UnitMentions(t: Tools, f: Node)
    ensures AsUnit(t, f).Some? ==> AsUnit(t, f).value.name in BoolVars(t, f)
  {
    var u := AsUnit(t, f);
    if u.Some? {
      UnitVars(u.value.name, u.value.value);
    }
  }

  lemma RestIsFree(t: Tools, f: Node, seen: set<string>)
    requires Pending(t, f, seen, {})
    ensures AsUnit(t, f).None? && BoolVars(t, f) !! seen
  {
    hide BoolVars, AsUnit;
    UnitMentions(t, f);
    forall x | x in BoolVars(t, f) ensures x !in seen {
      NoMeet(BoolVars(t, f), seen, x);
    }
  }
}