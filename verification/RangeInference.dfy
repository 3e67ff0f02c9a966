/** Ranges of memory data limbs: bounds read off the constraints, joined over possible match partners to
    a fixpoint. */
module RangeInference {
  import opened Wrappers
  import opened Smt
  import opened Connectives
  import opened Residues

  // ---- Syntactic bounds ----

  /** The tighter of a known bound and `hi`. */
  function Tighten(bounds: map<Node, int>, t: Node, hi: int): map<Node, int> {
    bounds[t := if t in bounds && bounds[t] < hi then bounds[t] else hi]
  }

  /** Bounds stated unconditionally by `f`: through conjunctions and implications with a true guard. */
  function Visit(simplify: Node -> Node, f: Node, bounds: map<Node, int>): map<Node, int> {
    match f
    case App(op, args) =>
      if op.AndOp? then VisitAll(simplify, args, bounds)
      else if op.ImpliesOp? && |args| == 2 then
        (if simplify(args[0]) == TRUE then Visit(simplify, args[1], bounds) else bounds)
      else if op.LeOp? && |args| == 2 && args[1].IntConst? then Tighten(bounds, args[0], args[1].i)
      else if op.LtOp? && |args| == 2 && args[1].IntConst? then Tighten(bounds, args[0], args[1].i - 1)
      else bounds
    case _ => bounds
  }

  function VisitAll(simplify: Node -> Node, fs: seq<Node>, bounds: map<Node, int>): map<Node, int> {
    if fs == [] then bounds else VisitAll(simplify, fs[1..], Visit(simplify, fs[0], bounds))
  }

  ghost predicate BoundsHold(bounds: map<Node, int>, m: Model) {
    forall t :: t in bounds ==> IntOf(t, m) <= bounds[t]
  }

  ghost predicate SoundSimplifier(simplify: Node -> Node) {
    forall f, m :: Holds(simplify(f), m) == Holds(f, m)
  }

  lemma {:induction false} VisitSound(simplify: Node -> Node, f: Node, bounds: map<Node, int>, m: Model)
    requires SoundSimplifier(simplify) && BoundsHold(bounds, m) && Holds(f, m)
    ensures BoundsHold(Visit(simplify, f, bounds), m)
    decreases f
  {
    if f.App? {
      var args := f.args;
      if f.op.AndOp? {
        AndMeansSat(args, m);
        VisitAllSound(simplify, args, bounds, m);
      } else if |args| == 2 {
        assert args == [args[0], args[1]];
        PairMeans(f.op, args[0], args[1], m);
        if f.op.ImpliesOp? && simplify(args[0]) == TRUE {
          assert Holds(simplify(args[0]), m) == Holds(args[0], m);
          VisitSound(simplify, args[1], bounds, m);
        }
      }
    }
  }

  lemma {:induction false} VisitAllSound(simplify: Node -> Node, fs: seq<Node>, bounds: map<Node, int>, m: Model)
    requires SoundSimplifier(simplify) && BoundsHold(bounds, m) && Sat(fs, m)
    ensures BoundsHold(VisitAll(simplify, fs, bounds), m)
    decreases fs
  {
    if fs != [] {
      assert fs[0] in fs;
      VisitSound(simplify, fs[0], bounds, m);
      assert forall f :: f in fs[1..] ==> f in fs;
      VisitAllSound(simplify, fs[1..], Visit(simplify, fs[0], bounds), m);
    }
  }

  // ---- What the table holds ----

  /** `f` states `t <= hi` whatever the model: as such or as `t < hi + 1`, in a conjunction, or under a guard that
      simplifies to true. */
  ghost predicate States(simplify: Node -> Node, f: Node, t: Node, hi: int) {
    match f
    case App(AndOp, args) => exists i :: 0 <= i < |args| && States(simplify, args[i], t, hi)
    case App(ImpliesOp, args) => |args| == 2 && simplify(args[0]) == TRUE && States(simplify, args[1], t, hi)
    case App(LeOp, args) => args == [t, IntConst(hi)]
    case App(LtOp, args) => args == [t, IntConst(hi + 1)]
    case _ => false
  }

  ghost predicate StatedIn(simplify: Node -> Node, fs: seq<Node>, t: Node, hi: int) {
    exists i :: 0 <= i < |fs| && States(simplify, fs[i], t, hi)
  }

  /** The entry of `t` after reading `fs`: the least of the bounds stated and the one there was. */
  ghost predicate LeastOf(simplify: Node -> Node, fs: seq<Node>, before: map<Node, int>, after: map<Node, int>, t: Node) {
    && (t in after <==> t in before || exists hi :: StatedIn(simplify, fs, t, hi))
    && (t in after ==> (t in before && after[t] == before[t]) || StatedIn(simplify, fs, t, after[t]))
    && (t in before ==> t in after && after[t] <= before[t])
    && forall hi :: StatedIn(simplify, fs, t, hi) ==> t in after && after[t] <= hi
  }

  lemma StatedByOne(simplify: Node -> Node, f: Node, t: Node, hi: int)
    ensures StatedIn(simplify, [f], t, hi) <==> States(simplify, f, t, hi)
  {
    assert [f][0] == f;
  }

  lemma StatedByBoth(simplify: Node -> Node, fs: seq<Node>, gs: seq<Node>, t: Node, hi: int)
    ensures StatedIn(simplify, fs + gs, t, hi) <==> StatedIn(simplify, fs, t, hi) || StatedIn(simplify, gs, t, hi)
  {
    if i :| 0 <= i < |fs| && States(simplify, fs[i], t, hi) {
      assert (fs + gs)[i] == fs[i];
    }
    if i :| 0 <= i < |gs| && States(simplify, gs[i], t, hi) {
      assert (fs + gs)[|fs| + i] == gs[i];
    }
  }

  lemma ReadBoth(simplify: Node -> Node, fs: seq<Node>, gs: seq<Node>, a: map<Node, int>, b: map<Node, int>, c: map<Node, int>, t: Node)
    requires LeastOf(simplify, fs, a, b, t) && LeastOf(simplify, gs, b, c, t)
    ensures LeastOf(simplify, fs + gs, a, c, t)
  {
    hide StatedIn;
    forall hi ensures StatedIn(simplify, fs + gs, t, hi) <==> StatedIn(simplify, fs, t, hi) || StatedIn(simplify, gs, t, hi) {
      StatedByBoth(simplify, fs, gs, t, hi);
    }
  }

  lemma ReadSame(simplify: Node -> Node, fs: seq<Node>, gs: seq<Node>, a: map<Node, int>, b: map<Node, int>, t: Node)
    requires LeastOf(simplify, fs, a, b, t) && forall hi :: StatedIn(simplify, gs, t, hi) <==> StatedIn(simplify, fs, t, hi)
    ensures LeastOf(simplify, gs, a, b, t)
  {
  }

  lemma NothingRead(simplify: Node -> Node, fs: seq<Node>, a: map<Node, int>, t: Node)
    requires forall hi :: !StatedIn(simplify, fs, t, hi)
    ensures LeastOf(simplify, fs, a, a, t)
  {
  }

  lemma {:induction false} VisitReads(simplify: Node -> Node, f: Node, bounds: map<Node, int>, t: Node)
    ensures LeastOf(simplify, [f], bounds, Visit(simplify, f, bounds), t)
    decreases f
  {
    hide StatedIn, LeastOf;
    forall hi ensures StatedIn(simplify, [f], t, hi) <==> States(simplify, f, t, hi) {
      StatedByOne(simplify, f, t, hi);
    }
    if f.App? && f.op.AndOp? {
      VisitAllReads(simplify, f.args, bounds, t);
      ConjunctsState(simplify, f, t);
      ReadSame(simplify, f.args, [f], bounds, Visit(simplify, f, bounds), t);
    } else if f.App? && f.op.ImpliesOp? && |f.args| == 2 && simplify(f.args[0]) == TRUE {
      VisitReads(simplify, f.args[1], bounds, t);
      forall hi ensures StatedIn(simplify, [f.args[1]], t, hi) <==> States(simplify, f, t, hi) {
        StatedByOne(simplify, f.args[1], t, hi);
      }
      ReadSame(simplify, [f.args[1]], [f], bounds, Visit(simplify, f, bounds), t);
    } else if f.App? && (f.op.LeOp? || f.op.LtOp?) && |f.args| == 2 && f.args[1].IntConst? {
      ComparisonReads(simplify, f, bounds, t);
    } else {
      NothingRead(simplify, [f], bounds, t);
    }
  }

  lemma ConjunctsState(simplify: Node -> Node, f: Node, t: Node)
    requires f.App? && f.op.AndOp?
    ensures forall hi :: States(simplify, f, t, hi) <==> StatedIn(simplify, f.args, t, hi)
  {
  }

  lemma ComparisonReads(simplify: Node -> Node, f: Node, bounds: map<Node, int>, t: Node)
    requires f.App? && (f.op.LeOp? || f.op.LtOp?) && |f.args| == 2 && f.args[1].IntConst?
    ensures LeastOf(simplify, [f], bounds, Visit(simplify, f, bounds), t)
  {
    hide StatedIn;
    var bound := if f.op.LeOp? then f.args[1].i else f.args[1].i - 1;
    forall hi ensures StatedIn(simplify, [f], t, hi) <==> t == f.args[0] && hi == bound {
      StatedByOne(simplify, f, t, hi);
      assert f.args == [f.args[0], f.args[1]];
    }
    assert Visit(simplify, f, bounds) == Tighten(bounds, f.args[0], bound);
    assert t == f.args[0] ==> StatedIn(simplify, [f], t, bound);
  }

  lemma {:induction false} VisitAllReads(simplify: Node -> Node, fs: seq<Node>, bounds: map<Node, int>, t: Node)
    ensures LeastOf(simplify, fs, bounds, VisitAll(simplify, fs, bounds), t)
    decreases fs
  {
    if fs == [] {
      NothingRead(simplify, fs, bounds, t);
    } else {
      hide LeastOf;
      var next := Visit(simplify, fs[0], bounds);
      VisitReads(simplify, fs[0], bounds, t);
      VisitAllReads(simplify, fs[1..], next, t);
      ReadBoth(simplify, [fs[0]], fs[1..], bounds, next, VisitAll(simplify, fs, bounds), t);
      assert fs == [fs[0]] + fs[1..];
    }
  }

  /** The table read off the constraints: an entry for exactly the terms with a stated bound, and the least of these. */
  ghost predicate IsTable(simplify: Node -> Node, constraints: seq<Node>, base: map<Node, int>) {
    forall t :: IsEntry(simplify, constraints, base, t)
  }

  ghost predicate IsEntry(simplify: Node -> Node, constraints: seq<Node>, base: map<Node, int>, t: Node) {
    if t in base then
      StatedIn(simplify, constraints, t, base[t]) && forall hi :: StatedIn(simplify, constraints, t, hi) ==> base[t] <= hi
    else forall hi :: !StatedIn(simplify, constraints, t, hi)
  }

  lemma TableIsLeast(simplify: Node -> Node, constraints: seq<Node>)
    ensures IsTable(simplify, constraints, VisitAll(simplify, constraints, map[]))
  {
    hide StatedIn, VisitAll;
    forall t ensures IsEntry(simplify, constraints, VisitAll(simplify, constraints, map[]), t) {
      VisitAllReads(simplify, constraints, map[], t);
    }
  }

  /** `f` states `0 <= t` whatever the model, in the same places. */
  ghost predicate StatesLow(simplify: Node -> Node, f: Node, t: Node) {
    match f
    case App(AndOp, args) => exists i :: 0 <= i < |args| && StatesLow(simplify, args[i], t)
    case App(ImpliesOp, args) => |args| == 2 && simplify(args[0]) == TRUE && StatesLow(simplify, args[1], t)
    case App(LeOp, args) => exists c :: c >= 0 && args == [IntConst(c), t]
    case _ => false
  }

  lemma {:induction false} StatesLowSound(simplify: Node -> Node, f: Node, t: Node, m: Model)
    requires SoundSimplifier(simplify) && StatesLow(simplify, f, t) && Holds(f, m)
    ensures IntOf(t, m) >= 0
    decreases f
  {
    var args := f.args;
    if f.op.AndOp? {
      AndMeansSat(args, m);
      var i :| 0 <= i < |args| && StatesLow(simplify, args[i], t);
      assert args[i] in args;
      StatesLowSound(simplify, args[i], t, m);
    } else {
      assert args == [args[0], args[1]];
      PairMeans(f.op, args[0], args[1], m);
      if f.op.ImpliesOp? {
        assert Holds(simplify(args[0]), m) == Holds(args[0], m);
        StatesLowSound(simplify, args[1], t, m);
      }
    }
  }

  // ---- Limbs ----

  /** One interaction: its multiplicity when that is constant, address space and pointer, data limbs,
      timestamp, and its time when known (exact for a send, an upper bound for a receive). */
  datatype Access = Access(mult: Option<int>, key: seq<Node>, data: seq<Node>, ts: Node, time: Option<int>)

  type Limits = seq<seq<Option<int>>>

  const INPUT_BOUND := 255

  function Wrap(d: Node, p: int): Node {
    App(ModOp, [d, IntConst(p)])
  }

  function Residue(d: Node, p: int, m: Model): int
    requires p > 0
  {
    IntOf(d, m) % p
  }

  lemma WrapMeans(d: Node, p: int, m: Model)
    requires p > 0
    ensures IntOf(Wrap(d, p), m) == Residue(d, p, m)
  {
    PairMeans(ModOp, d, IntConst(p), m);
  }

  /** The bound of a limb known beforehand: of its wrapped form, else of the limb itself; a constant bounds
      itself. */
  function BaseBound(base: map<Node, int>, d: Node, p: int): Option<int>
    requires p > 0
  {
    var b := if Wrap(d, p) in base then Some(base[Wrap(d, p)]) else if d in base then Some(base[d]) else None;
    if d.IntConst? then Meet(b, Some(d.i % p)) else b
  }

  /** `v` is at least what is known of the limb beforehand. */
  ghost predicate KnownBelow(base: map<Node, int>, d: Node, p: int, v: int)
    requires p > 0
  {
    || (d.IntConst? && d.i % p <= v)
    || (Wrap(d, p) in base && base[Wrap(d, p)] <= v)
    || (Wrap(d, p) !in base && d in base && base[d] <= v)
  }

  /** The base bound is the least there is. */
  lemma BaseBoundExactly(base: map<Node, int>, d: Node, p: int, v: int)
    requires p > 0
    ensures KnownBelow(base, d, p, v) <==> BaseBound(base, d, p).Some? && BaseBound(base, d, p).value <= v
  {
  }

  /** Tightest of two bounds. */
  function Meet(a: Option<int>, b: Option<int>): Option<int> {
    if b.None? then a else if a.None? then b else if a.value <= b.value then a else b
  }

  /** Bound holding in both cases. */
  function Join(a: Option<int>, b: Option<int>): Option<int> {
    if a.None? || b.None? then None else if a.value >= b.value then a else b
  }

  predicate Under(b: Option<int>, x: int) {
    b.Some? ==> x <= b.value
  }

  /** Limbs bounded without their wrapped form are non-negative; this is what a bound on the bare limb needs
      to bound its residue. */
  ghost predicate BareLimbsNonNegative(base: map<Node, int>, rows: seq<Access>, p: int, m: Model) {
    forall i, k :: 0 <= i < |rows| && 0 <= k < |rows[i].data| && Wrap(rows[i].data[k], p) !in base && rows[i].data[k] in base ==>
      IntOf(rows[i].data[k], m) >= 0
  }

  lemma BaseBoundHolds(base: map<Node, int>, d: Node, p: int, m: Model)
    requires p > 0 && BoundsHold(base, m)
    requires Wrap(d, p) !in base && d in base ==> IntOf(d, m) >= 0
    ensures Under(BaseBound(base, d, p), Residue(d, p, m))
  {
    WrapMeans(d, p, m);
    if Wrap(d, p) !in base && d in base {
      ResidueBelow(IntOf(d, m), p);
    }
  }

  lemma ResidueBelow(x: int, p: int)
    requires p > 0 && x >= 0
    ensures x % p <= x
  {
    Division(x, p);
    SmallMultiple(p, x / p);
  }

  /** Every limb bounded without its wrapped form is also stated to be non-negative. */
  ghost predicate GuardedLimbs(simplify: Node -> Node, constraints: seq<Node>, rows: seq<Access>, p: int) {
    var base := VisitAll(simplify, constraints, map[]);
    forall i, k :: 0 <= i < |rows| && 0 <= k < |rows[i].data| && Wrap(rows[i].data[k], p) !in base && rows[i].data[k] in base ==>
      exists c :: c in constraints && StatesLow(simplify, c, rows[i].data[k])
  }

  lemma GuardedAreNonNegative(simplify: Node -> Node, constraints: seq<Node>, rows: seq<Access>, p: int, m: Model)
    requires SoundSimplifier(simplify) && GuardedLimbs(simplify, constraints, rows, p) && Sat(constraints, m)
    ensures BareLimbsNonNegative(VisitAll(simplify, constraints, map[]), rows, p, m)
  {
    var base := VisitAll(simplify, constraints, map[]);
    forall i, k | 0 <= i < |rows| && 0 <= k < |rows[i].data| && Wrap(rows[i].data[k], p) !in base && rows[i].data[k] in base
      ensures IntOf(rows[i].data[k], m) >= 0
    {
      var c :| c in constraints && StatesLow(simplify, c, rows[i].data[k]);
      StatesLowSound(simplify, c, rows[i].data[k], m);
    }
  }

  // ---- Matches excluded statically ----

  function Flat(a: Access): seq<Node> {
    a.key + a.data + [a.ts]
  }

  /** A receive can only read a send strictly before its own bound. */
  predicate Severed(a: Access, b: Access, p: int) {
    var recv, send := if a.mult == Some(p - 1) then a else b, if a.mult == Some(p - 1) then b else a;
    && recv.mult == Some(p - 1) && send.mult == Some(1)
    && recv.time.Some? && send.time.Some? && send.time.value >= recv.time.value
  }

  /** Two arguments differ by a constant that is not zero modulo `p`. */
  predicate ApartBy(simplify: Node -> Node, x: Node, y: Node, p: int)
    requires p > 0
  {
    if x == y then false
    else if x.IntConst? && y.IntConst? then (x.i - y.i) % p != 0
    else if x.Sym? && y.Sym? then false
    else
      var d := simplify(Wrap(App(MinusOp, [x, y]), p));
      d.IntConst? && d.i % p != 0
  }

  predicate CannotMatch(simplify: Node -> Node, a: Access, b: Access, p: int)
    requires p > 0
  {
    || (a.mult.Some? && b.mult.Some? && (a.mult.value + b.mult.value) % p != 0)
    || Severed(a, b, p)
    || exists k :: 0 <= k < |Flat(a)| && k < |Flat(b)| && ApartBy(simplify, Flat(a)[k], Flat(b)[k], p)
  }

  // ---- What is excluded, by the fields ----

  /** `r` is a read, `s` a write, and the write is not before the read. */
  ghost predicate WrittenTooLate(r: Access, s: Access, p: int) {
    r.mult == Some(p - 1) && s.mult == Some(1) && r.time.Some? && s.time.Some? && r.time.value <= s.time.value
  }

  /** A read and a write in either order, out of time. */
  ghost predicate OutOfTime(a: Access, b: Access, p: int) {
    WrittenTooLate(a, b, p) || (a.mult != Some(p - 1) && WrittenTooLate(b, a, p))
  }

  /** Constants apart modulo `p`, or a difference that simplifies to such a constant and is not one of two symbols. */
  ghost predicate ArgsApart(simplify: Node -> Node, x: Node, y: Node, p: int)
    requires p > 0
  {
    && x != y
    && match (x, y)
       case (IntConst(i), IntConst(j)) => i % p != j % p
       case (Sym(_), Sym(_)) => false
       case _ => exists d :: simplify(App(ModOp, [App(MinusOp, [x, y]), IntConst(p)])) == IntConst(d) && d % p != 0
  }

  /** Two interactions that can be no match: known multiplicities that do not cancel, a read of a later write, or an
      argument apart. */
  ghost predicate Excluded(simplify: Node -> Node, a: Access, b: Access, p: int)
    requires p > 0
  {
    || (a.mult.Some? && b.mult.Some? && (a.mult.value + b.mult.value) % p != 0)
    || OutOfTime(a, b, p)
    || exists k :: 0 <= k && k < |a.key + a.data + [a.ts]| && k < |b.key + b.data + [b.ts]|
                   && ArgsApart(simplify, (a.key + a.data + [a.ts])[k], (b.key + b.data + [b.ts])[k], p)
  }

  lemma ApartExactly(simplify: Node -> Node, x: Node, y: Node, p: int)
    requires p > 0
    ensures ApartBy(simplify, x, y, p) <==> ArgsApart(simplify, x, y, p)
  {
    if x.IntConst? && y.IntConst? {
      CongIff(x.i, y.i, p);
    }
  }

  lemma ExcludedExactly(simplify: Node -> Node, a: Access, b: Access, p: int)
    requires p > 0
    ensures CannotMatch(simplify, a, b, p) <==> Excluded(simplify, a, b, p)
  {
    hide ApartBy, ArgsApart;
    assert Severed(a, b, p) <==> OutOfTime(a, b, p);
    var x, y := a.key + a.data + [a.ts], b.key + b.data + [b.ts];
    forall k | 0 <= k < |x| && k < |y|
      ensures ApartBy(simplify, Flat(a)[k], Flat(b)[k], p) <==> ArgsApart(simplify, x[k], y[k], p)
    {
      assert Flat(a) == x && Flat(b) == y;
      ApartExactly(simplify, x[k], y[k], p);
    }
    if CannotMatch(simplify, a, b, p) && !Severed(a, b, p) && !(a.mult.Some? && b.mult.Some? && (a.mult.value + b.mult.value) % p != 0) {
      var k :| 0 <= k < |Flat(a)| && k < |Flat(b)| && ApartBy(simplify, Flat(a)[k], Flat(b)[k], p);
      assert ArgsApart(simplify, x[k], y[k], p);
    }
  }

  ghost predicate SoundOnTerms(simplify: Node -> Node) {
    forall f, m :: IntOf(simplify(f), m) == IntOf(f, m)
  }

  lemma ApartDiffer(simplify: Node -> Node, x: Node, y: Node, p: int, m: Model)
    requires p > 0 && SoundOnTerms(simplify) && ApartBy(simplify, x, y, p)
    ensures Residue(x, p, m) != Residue(y, p, m)
  {
    var minus := App(MinusOp, [x, y]);
    PairMeans(MinusOp, x, y, m);
    WrapMeans(minus, p, m);
    assert IntOf(simplify(Wrap(minus, p)), m) == IntOf(Wrap(minus, p), m);
    CongIff(IntOf(x, m), IntOf(y, m), p);
    Small(0, p);
    assert IntOf(minus, m) == IntOf(x, m) - IntOf(y, m);
  }

  /** Matched interactions, multiplicities and all arguments agreeing as a match requires, and read after
      written, are never excluded. */
  lemma MatchesAreNotExcluded(simplify: Node -> Node, a: Access, b: Access, p: int, m: Model)
    requires p > 0 && SoundOnTerms(simplify)
    requires a.mult.Some? && b.mult.Some? ==> (a.mult.value + b.mult.value) % p == 0
    requires forall k :: 0 <= k < |Flat(a)| && k < |Flat(b)| ==> Residue(Flat(a)[k], p, m) == Residue(Flat(b)[k], p, m)
    requires !OutOfTime(a, b, p)
    ensures !Excluded(simplify, a, b, p)
  {
    ExcludedExactly(simplify, a, b, p);
    assert Severed(a, b, p) <==> OutOfTime(a, b, p);
    forall k | 0 <= k < |Flat(a)| && k < |Flat(b)| ensures !ApartBy(simplify, Flat(a)[k], Flat(b)[k], p) {
      if ApartBy(simplify, Flat(a)[k], Flat(b)[k], p) {
        ApartDiffer(simplify, Flat(a)[k], Flat(b)[k], p, m);
      }
    }
  }

  // ---- The case join ----

  ghost predicate ReadOk(simplify: Node -> Node, rows: seq<Access>, p: int, i: int, m: Model)
    requires p > 0 && 0 <= i < |rows|
  {
    || (forall k :: 0 <= k < |rows[i].data| ==> Residue(rows[i].data[k], p, m) <= INPUT_BOUND)
    || exists j :: 0 <= j < |rows| && j != i && ReadsFrom(simplify, rows, p, i, j, m)
  }

  ghost predicate ReadsFrom(simplify: Node -> Node, rows: seq<Access>, p: int, i: int, j: int, m: Model)
    requires p > 0 && 0 <= i < |rows| && 0 <= j < |rows|
  {
    && !Excluded(simplify, rows[i], rows[j], p)
    && forall k :: 0 <= k < |rows[i].data| && k < |rows[j].data| ==>
      Residue(rows[i].data[k], p, m) == Residue(rows[j].data[k], p, m)
  }

  /** Every read takes a byte input or the data of a partner that is not excluded. */
  ghost predicate ReadsOk(simplify: Node -> Node, rows: seq<Access>, p: int, m: Model)
    requires p > 0
  {
    forall i :: 0 <= i < |rows| && rows[i].mult == Some(p - 1) ==> ReadOk(simplify, rows, p, i, m)
  }

  predicate Shaped(rows: seq<Access>, bounds: Limits) {
    |bounds| == |rows| && forall i :: 0 <= i < |rows| ==> |bounds[i]| == |rows[i].data|
  }

  ghost predicate LimitsHold(rows: seq<Access>, bounds: Limits, p: int, m: Model)
    requires p > 0 && Shaped(rows, bounds)
  {
    forall i, k :: 0 <= i < |rows| && 0 <= k < |rows[i].data| ==> Under(bounds[i][k], Residue(rows[i].data[k], p, m))
  }

  /** The bound of limb `k` over the input case and the partners below `n`. */
  function Partners(simplify: Node -> Node, rows: seq<Access>, bounds: Limits, p: int, i: int, k: int, n: nat): Option<int>
    requires p > 0 && Shaped(rows, bounds) && 0 <= i < |rows| && 0 <= k < |rows[i].data| && n <= |rows|
  {
    if n == 0 then Some(INPUT_BOUND)
    else
      var rest := Partners(simplify, rows, bounds, p, i, k, n - 1);
      if n - 1 == i || CannotMatch(simplify, rows[i], rows[n - 1], p) then rest
      else Join(rest, if k < |rows[n - 1].data| then bounds[n - 1][k] else None)
  }

  lemma {:induction false} PartnersHold(simplify: Node -> Node, rows: seq<Access>, bounds: Limits, p: int, i: int, k: int, n: nat, m: Model)
    requires p > 0 && Shaped(rows, bounds) && 0 <= i < |rows| && 0 <= k < |rows[i].data| && n <= |rows|
    requires LimitsHold(rows, bounds, p, m)
    ensures Residue(rows[i].data[k], p, m) <= INPUT_BOUND ==> Under(Partners(simplify, rows, bounds, p, i, k, n), Residue(rows[i].data[k], p, m))
    ensures forall j :: 0 <= j < n && j != i && ReadsFrom(simplify, rows, p, i, j, m) ==>
      Under(Partners(simplify, rows, bounds, p, i, k, n), Residue(rows[i].data[k], p, m))
  {
    if n > 0 {
      PartnersHold(simplify, rows, bounds, p, i, k, n - 1, m);
      ExcludedExactly(simplify, rows[i], rows[n - 1], p);
    }
  }

  // ---- The worst case, by the cases ----

  /** Row `j` is a case of the read `i`. */
  ghost predicate IsCase(simplify: Node -> Node, rows: seq<Access>, p: int, i: int, j: int)
    requires p > 0 && 0 <= i < |rows|
  {
    0 <= j < |rows| && j != i && !Excluded(simplify, rows[i], rows[j], p)
  }

  ghost predicate CaseBelow(rows: seq<Access>, bounds: Limits, k: int, j: int, v: int)
    requires Shaped(rows, bounds) && 0 <= j < |rows| && 0 <= k
  {
    k < |rows[j].data| && bounds[j][k].Some? && bounds[j][k].value <= v
  }

  /** Over a byte input and the cases below `n`: `v` bounds them all. */
  ghost predicate BoundsCases(simplify: Node -> Node, rows: seq<Access>, bounds: Limits, p: int, i: int, k: int, n: nat, v: int)
    requires p > 0 && Shaped(rows, bounds) && 0 <= i < |rows| && 0 <= k
  {
    255 <= v && forall j :: IsCase(simplify, rows, p, i, j) && j < n ==> CaseBelow(rows, bounds, k, j, v)
  }

  /** The join is the least bound of all cases. */
  lemma {:induction false} PartnersExactly(simplify: Node -> Node, rows: seq<Access>, bounds: Limits, p: int, i: int, k: int, n: nat, v: int)
    requires p > 0 && Shaped(rows, bounds) && 0 <= i < |rows| && 0 <= k < |rows[i].data| && n <= |rows|
    ensures BoundsCases(simplify, rows, bounds, p, i, k, n, v) <==>
      (Partners(simplify, rows, bounds, p, i, k, n).Some? && Partners(simplify, rows, bounds, p, i, k, n).value <= v)
  {
    hide Excluded, CannotMatch;
    if n > 0 {
      PartnersExactly(simplify, rows, bounds, p, i, k, n - 1, v);
      ExcludedExactly(simplify, rows[i], rows[n - 1], p);
      var last := IsCase(simplify, rows, p, i, n - 1);
      assert BoundsCases(simplify, rows, bounds, p, i, k, n, v) <==>
        BoundsCases(simplify, rows, bounds, p, i, k, n - 1, v) && (last ==> CaseBelow(rows, bounds, k, n - 1, v)) by {
        if BoundsCases(simplify, rows, bounds, p, i, k, n - 1, v) && (last ==> CaseBelow(rows, bounds, k, n - 1, v)) {
          forall j | IsCase(simplify, rows, p, i, j) && j < n ensures CaseBelow(rows, bounds, k, j, v) {
            if j < n - 1 {} else { assert j == n - 1; }
          }
        }
      }
    }
  }

  /** A bound as tight as the worst case allows: not above any bound of all cases. */
  ghost predicate WithinCases(simplify: Node -> Node, rows: seq<Access>, bounds: Limits, p: int, i: int, k: int)
    requires p > 0 && Shaped(rows, bounds) && 0 <= i < |rows| && 0 <= k < |rows[i].data|
  {
    forall v :: BoundsCases(simplify, rows, bounds, p, i, k, |rows|, v) ==> bounds[i][k].Some? && bounds[i][k].value <= v
  }

  lemma WithinCasesExactly(simplify: Node -> Node, rows: seq<Access>, bounds: Limits, p: int, i: int, k: int)
    requires p > 0 && Shaped(rows, bounds) && 0 <= i < |rows| && 0 <= k < |rows[i].data|
    ensures WithinCases(simplify, rows, bounds, p, i, k) <==> AsTight(bounds[i][k], Partners(simplify, rows, bounds, p, i, k, |rows|))
  {
    hide BoundsCases, Partners;
    forall v ensures BoundsCases(simplify, rows, bounds, p, i, k, |rows|, v) <==>
      (Partners(simplify, rows, bounds, p, i, k, |rows|).Some? && Partners(simplify, rows, bounds, p, i, k, |rows|).value <= v)
    {
      PartnersExactly(simplify, rows, bounds, p, i, k, |rows|, v);
    }
    if Partners(simplify, rows, bounds, p, i, k, |rows|).Some? {
      assert BoundsCases(simplify, rows, bounds, p, i, k, |rows|, Partners(simplify, rows, bounds, p, i, k, |rows|).value);
    }
  }

  /** The next bound of a limb: what its term has elsewhere, and for a read the join over its cases. */
  function NextBound(simplify: Node -> Node, rows: seq<Access>, bounds: Limits, byTerm: map<Node, Option<int>>, p: int, i: int, k: int): Option<int>
    requires p > 0 && Shaped(rows, bounds) && 0 <= i < |rows| && 0 <= k < |rows[i].data|
  {
    var d := rows[i].data[k];
    var shared := Meet(bounds[i][k], if d in byTerm then byTerm[d] else None);
    if rows[i].mult == Some(p - 1) then Meet(shared, Partners(simplify, rows, bounds, p, i, k, |rows|)) else shared
  }

  ghost predicate TermsHold(byTerm: map<Node, Option<int>>, p: int, m: Model)
    requires p > 0
  {
    forall d :: d in byTerm ==> Under(byTerm[d], Residue(d, p, m))
  }

  lemma NextBoundHolds(simplify: Node -> Node, rows: seq<Access>, bounds: Limits, byTerm: map<Node, Option<int>>, p: int, i: int, k: int, m: Model)
    requires p > 0 && Shaped(rows, bounds) && 0 <= i < |rows| && 0 <= k < |rows[i].data|
    requires LimitsHold(rows, bounds, p, m) && TermsHold(byTerm, p, m) && ReadsOk(simplify, rows, p, m)
    ensures Under(NextBound(simplify, rows, bounds, byTerm, p, i, k), Residue(rows[i].data[k], p, m))
  {
    if rows[i].mult == Some(p - 1) {
      PartnersHold(simplify, rows, bounds, p, i, k, |rows|, m);
      assert ReadOk(simplify, rows, p, i, m);
    }
  }

  // ---- What the fixpoint is ----

  /** `a` is at least as tight as `b`. */
  predicate AsTight(a: Option<int>, b: Option<int>) {
    b.None? || (a.Some? && a.value <= b.value)
  }

  ghost predicate Inside(rows: seq<Access>, a: Limits, b: Limits)
    requires Shaped(rows, a) && Shaped(rows, b)
  {
    forall i, k :: 0 <= i < |rows| && 0 <= k < |rows[i].data| ==> AsTight(a[i][k], b[i][k])
  }

  /** A disabled interaction leaves its data unconstrained. */
  predicate Active(row: Access) {
    row.mult.Some? && row.mult.value != 0
  }

  ghost predicate SharesTerm(rows: seq<Access>, bounds: Limits, i: int, k: int)
    requires Shaped(rows, bounds) && 0 <= i < |rows| && 0 <= k < |rows[i].data|
  {
    forall j, l :: 0 <= j < |rows| && 0 <= l < |rows[j].data| && rows[j].data[l] == rows[i].data[k] ==> AsTight(bounds[i][k], bounds[j][l])
  }

  /** Every limb of an active interaction is bounded as tightly as its term is anywhere, and as the worst
      case of a read allows. */
  ghost predicate Stable(simplify: Node -> Node, rows: seq<Access>, bounds: Limits, p: int)
    requires p > 0 && Shaped(rows, bounds)
  {
    forall i, k :: 0 <= i < |rows| && 0 <= k < |rows[i].data| && rows[i].mult.Some? && rows[i].mult.value != 0 ==>
      StableAt(simplify, rows, bounds, p, i, k)
  }

  ghost predicate StableAt(simplify: Node -> Node, rows: seq<Access>, bounds: Limits, p: int, i: int, k: int)
    requires p > 0 && Shaped(rows, bounds) && 0 <= i < |rows| && 0 <= k < |rows[i].data|
  {
    && SharesTerm(rows, bounds, i, k)
    && (rows[i].mult == Some(p - 1) ==> WithinCases(simplify, rows, bounds, p, i, k))
  }

  /** `after` is tighter than `before`, but not below any stable bounds that `before` is not below. */
  ghost predicate Refined(simplify: Node -> Node, rows: seq<Access>, before: Limits, after: Limits, p: int)
    requires p > 0 && Shaped(rows, before) && Shaped(rows, after)
  {
    && Inside(rows, after, before)
    && forall c :: Shaped(rows, c) && Stable(simplify, rows, c, p) && Inside(rows, c, before) ==> Inside(rows, c, after)
  }

  /** The loosest stable bounds inside the given ones. */
  ghost predicate Loosest(simplify: Node -> Node, rows: seq<Access>, start: Limits, bounds: Limits, p: int)
    requires p > 0 && Shaped(rows, start)
  {
    Shaped(rows, bounds) && Stable(simplify, rows, bounds, p) && Refined(simplify, rows, start, bounds, p)
  }

  /** There is one such table, so the order in which limbs are revisited does not matter. */
  lemma LoosestIsUnique(simplify: Node -> Node, rows: seq<Access>, start: Limits, a: Limits, b: Limits, p: int)
    requires p > 0 && Shaped(rows, start) && Loosest(simplify, rows, start, a, p) && Loosest(simplify, rows, start, b, p)
    ensures a == b
  {
    assert Inside(rows, a, b) && Inside(rows, b, a);
    forall i | 0 <= i < |rows| ensures a[i] == b[i] {
      forall k | 0 <= k < |rows[i].data| ensures a[i][k] == b[i][k] {
        assert AsTight(a[i][k], b[i][k]) && AsTight(b[i][k], a[i][k]);
      }
    }
  }

  lemma {:induction false} PartnersMonotone(simplify: Node -> Node, rows: seq<Access>, c: Limits, bounds: Limits, p: int, i: int, k: int, n: nat)
    requires p > 0 && Shaped(rows, c) && Shaped(rows, bounds) && Inside(rows, c, bounds)
    requires 0 <= i < |rows| && 0 <= k < |rows[i].data| && n <= |rows|
    ensures AsTight(Partners(simplify, rows, c, p, i, k, n), Partners(simplify, rows, bounds, p, i, k, n))
  {
    if n > 0 {
      PartnersMonotone(simplify, rows, c, bounds, p, i, k, n - 1);
    }
  }

  // ---- The fixpoint ----

  /** Over the limbs before limb `k` of interaction `i`: each term has its tightest bound there. */
  ghost predicate TermsMeet(rows: seq<Access>, bounds: Limits, byTerm: map<Node, Option<int>>, i: int, k: int)
    requires Shaped(rows, bounds)
  {
    && (forall j, l :: 0 <= j < |rows| && 0 <= l < |rows[j].data| && (j < i || (j == i && l < k)) ==>
        rows[j].data[l] in byTerm && AsTight(byTerm[rows[j].data[l]], bounds[j][l]))
    && (forall d :: d in byTerm ==> Attained(rows, bounds, d, byTerm[d]))
  }

  ghost predicate Attained(rows: seq<Access>, bounds: Limits, d: Node, b: Option<int>)
    requires Shaped(rows, bounds)
  {
    exists j, l :: 0 <= j < |rows| && 0 <= l < |rows[j].data| && rows[j].data[l] == d && bounds[j][l] == b
  }

  /** No stable bounds are cut by a step. */
  lemma StepRefines(simplify: Node -> Node, rows: seq<Access>, start: Limits, bounds: Limits, byTerm: map<Node, Option<int>>, p: int, i: int, k: int, c: Limits)
    requires p > 0 && Shaped(rows, start) && Shaped(rows, bounds) && Shaped(rows, c) && TermsMeet(rows, start, byTerm, |rows|, 0)
    requires 0 <= i < |rows| && 0 <= k < |rows[i].data| && Active(rows[i])
    requires Stable(simplify, rows, c, p) && Inside(rows, c, start) && Inside(rows, c, bounds)
    ensures AsTight(c[i][k], NextBound(simplify, rows, bounds, byTerm, p, i, k))
  {
    var d := rows[i].data[k];
    hide WithinCases;
    assert StableAt(simplify, rows, c, p, i, k);
    WithinCasesExactly(simplify, rows, c, p, i, k);
    var j, l :| 0 <= j < |rows| && 0 <= l < |rows[j].data| && rows[j].data[l] == d && start[j][l] == byTerm[d];
    assert AsTight(c[j][l], start[j][l]);
    PartnersMonotone(simplify, rows, c, bounds, p, i, k, |rows|);
  }

  /** A step that changes nothing leaves its limb stable. */
  lemma QuietIsStable(simplify: Node -> Node, rows: seq<Access>, bounds: Limits, byTerm: map<Node, Option<int>>, p: int, i: int, k: int)
    requires p > 0 && Shaped(rows, bounds) && TermsMeet(rows, bounds, byTerm, |rows|, 0)
    requires 0 <= i < |rows| && 0 <= k < |rows[i].data|
    requires NextBound(simplify, rows, bounds, byTerm, p, i, k) == bounds[i][k]
    ensures StableAt(simplify, rows, bounds, p, i, k)
  {
    hide WithinCases;
    WithinCasesExactly(simplify, rows, bounds, p, i, k);
    forall j, l | 0 <= j < |rows| && 0 <= l < |rows[j].data| && rows[j].data[l] == rows[i].data[k]
      ensures AsTight(bounds[i][k], bounds[j][l])
    {
      assert AsTight(byTerm[rows[j].data[l]], bounds[j][l]);
    }
  }

  ghost predicate Between(b: Option<int>, lo: int, hi: int) {
    b.Some? ==> lo <= b.value <= hi
  }

  ghost predicate AllBetween(bounds: Limits, lo: int, hi: int) {
    forall i, k :: 0 <= i < |bounds| && 0 <= k < |bounds[i]| ==> Between(bounds[i][k], lo, hi)
  }

  /** How far a bound can still fall. */
  ghost function Rank(b: Option<int>, lo: int, hi: int): nat
    requires lo <= hi && Between(b, lo, hi)
  {
    if b.None? then hi - lo + 2 else b.value - lo + 1
  }

  ghost function RowRank(bs: seq<Option<int>>, lo: int, hi: int): nat
    requires lo <= hi && forall k :: 0 <= k < |bs| ==> Between(bs[k], lo, hi)
  {
    if bs == [] then 0 else Rank(bs[|bs| - 1], lo, hi) + RowRank(bs[..|bs| - 1], lo, hi)
  }

  ghost function TotalRank(bounds: Limits, lo: int, hi: int): nat
    requires lo <= hi && AllBetween(bounds, lo, hi)
  {
    if bounds == [] then 0 else RowRank(bounds[|bounds| - 1], lo, hi) + TotalRank(bounds[..|bounds| - 1], lo, hi)
  }

  lemma {:induction false} RowRankUpdate(bs: seq<Option<int>>, k: nat, b: Option<int>, lo: int, hi: int)
    requires lo <= hi && k < |bs| && Between(b, lo, hi) && forall l :: 0 <= l < |bs| ==> Between(bs[l], lo, hi)
    ensures RowRank(bs[k := b], lo, hi) == RowRank(bs, lo, hi) - Rank(bs[k], lo, hi) + Rank(b, lo, hi)
  {
    var n := |bs| - 1;
    if k < n {
      RowRankUpdate(bs[..n], k, b, lo, hi);
      assert bs[k := b][..n] == bs[..n][k := b];
    } else {
      assert bs[k := b][..n] == bs[..n];
    }
  }

  function Set(bounds: Limits, i: nat, k: nat, b: Option<int>): (r: Limits)
    requires i < |bounds| && k < |bounds[i]|
  {
    bounds[i := bounds[i][k := b]]
  }

  lemma {:induction false} TotalRankUpdate(bounds: Limits, i: nat, k: nat, b: Option<int>, lo: int, hi: int)
    requires lo <= hi && i < |bounds| && k < |bounds[i]| && AllBetween(bounds, lo, hi) && Between(b, lo, hi)
    ensures AllBetween(Set(bounds, i, k, b), lo, hi)
    ensures TotalRank(Set(bounds, i, k, b), lo, hi) == TotalRank(bounds, lo, hi) - Rank(bounds[i][k], lo, hi) + Rank(b, lo, hi)
  {
    var n, after := |bounds| - 1, Set(bounds, i, k, b);
    if i < n {
      TotalRankUpdate(bounds[..n], i, k, b, lo, hi);
      assert after[..n] == Set(bounds[..n], i, k, b);
    } else {
      RowRankUpdate(bounds[i], k, b, lo, hi);
      assert after[..n] == bounds[..n];
    }
  }

  ghost predicate TermsBetween(byTerm: map<Node, Option<int>>, lo: int, hi: int) {
    forall d :: d in byTerm ==> Between(byTerm[d], lo, hi)
  }

  /** The tightest bound every term has in any of its limbs. */
  method ByTerm(rows: seq<Access>, bounds: Limits) returns (byTerm: map<Node, Option<int>>)
    requires Shaped(rows, bounds)
    ensures TermsMeet(rows, bounds, byTerm, |rows|, 0)
  {
    byTerm := map[];
    for i := 0 to |rows|
      invariant TermsMeet(rows, bounds, byTerm, i, 0)
    {
      for k := 0 to |rows[i].data|
        invariant TermsMeet(rows, bounds, byTerm, i, k)
      {
        var d := rows[i].data[k];
        ghost var before := byTerm;
        byTerm := byTerm[d := Meet(if d in byTerm then byTerm[d] else None, bounds[i][k])];
        TermMet(rows, bounds, before, byTerm, i, k);
      }
    }
  }

  lemma TermMet(rows: seq<Access>, bounds: Limits, before: map<Node, Option<int>>, after: map<Node, Option<int>>, i: int, k: int)
    requires Shaped(rows, bounds) && 0 <= i < |rows| && 0 <= k < |rows[i].data| && TermsMeet(rows, bounds, before, i, k)
    requires var d := rows[i].data[k]; after == before[d := Meet(if d in before then before[d] else None, bounds[i][k])]
    ensures TermsMeet(rows, bounds, after, i, k + 1)
  {
    var d := rows[i].data[k];
    assert rows[i].data[k] == d;
    assert Attained(rows, bounds, d, bounds[i][k]);
    hide Attained;
    forall e | e in after ensures Attained(rows, bounds, e, after[e]) {
    }
  }

  lemma {:induction false} PartnersBetween(simplify: Node -> Node, rows: seq<Access>, bounds: Limits, p: int, i: int, k: int, n: nat, lo: int, hi: int)
    requires p > 0 && Shaped(rows, bounds) && 0 <= i < |rows| && 0 <= k < |rows[i].data| && n <= |rows|
    requires AllBetween(bounds, lo, hi) && lo <= INPUT_BOUND <= hi
    ensures Between(Partners(simplify, rows, bounds, p, i, k, n), lo, hi)
  {
    if n > 0 {
      PartnersBetween(simplify, rows, bounds, p, i, k, n - 1, lo, hi);
    }
  }

  /** A changed bound is a tighter one. */
  lemma NextBoundTightens(simplify: Node -> Node, rows: seq<Access>, bounds: Limits, byTerm: map<Node, Option<int>>, p: int, i: int, k: int, lo: int, hi: int)
    requires p > 0 && Shaped(rows, bounds) && 0 <= i < |rows| && 0 <= k < |rows[i].data|
    requires AllBetween(bounds, lo, hi) && TermsBetween(byTerm, lo, hi) && lo <= INPUT_BOUND <= hi
    ensures var b := NextBound(simplify, rows, bounds, byTerm, p, i, k);
      Between(b, lo, hi) && (b != bounds[i][k] ==> Rank(b, lo, hi) < Rank(bounds[i][k], lo, hi))
  {
    PartnersBetween(simplify, rows, bounds, p, i, k, |rows|, lo, hi);
  }

  ghost predicate GoodModel(simplify: Node -> Node, rows: seq<Access>, bounds: Limits, p: int, m: Model)
    requires p > 0 && Shaped(rows, bounds)
  {
    ReadsOk(simplify, rows, p, m) && LimitsHold(rows, bounds, p, m)
  }

  ghost predicate Keeps(simplify: Node -> Node, rows: seq<Access>, before: Limits, after: Limits, p: int)
    requires p > 0 && Shaped(rows, before) && Shaped(rows, after)
  {
    forall m :: GoodModel(simplify, rows, before, p, m) ==> LimitsHold(rows, after, p, m)
  }

  /** One limb of a pass. */
  method Tighter(simplify: Node -> Node, rows: seq<Access>, bounds0: Limits, byTerm: map<Node, Option<int>>, p: int, i: nat, k: nat,
                 ghost start: Limits, ghost lo: int, ghost hi: int) returns (bounds: Limits, changed: bool)
    requires p > 0 && Shaped(rows, bounds0) && Shaped(rows, start) && i < |rows| && k < |rows[i].data|
    requires Active(rows[i]) && TermsMeet(rows, start, byTerm, |rows|, 0)
    requires AllBetween(start, lo, hi) && AllBetween(bounds0, lo, hi) && lo <= INPUT_BOUND <= hi
    requires Keeps(simplify, rows, start, bounds0, p) && Refined(simplify, rows, start, bounds0, p)
    ensures Shaped(rows, bounds) && AllBetween(bounds, lo, hi) && Keeps(simplify, rows, start, bounds, p)
    ensures Refined(simplify, rows, start, bounds, p)
    ensures if changed then TotalRank(bounds, lo, hi) < TotalRank(bounds0, lo, hi) else bounds == bounds0
    ensures !changed && bounds0 == start ==> StableAt(simplify, rows, start, p, i, k)
  {
    hide Keeps, Refined, TermsMeet, StableAt, NextBound, TotalRank;
    TermsFollow(rows, start, byTerm, p, lo, hi);
    bounds := bounds0;
    var b := NextBound(simplify, rows, bounds, byTerm, p, i, k);
    changed := b != bounds[i][k];
    if changed {
      NextBoundTightens(simplify, rows, bounds0, byTerm, p, i, k, lo, hi);
      TotalRankUpdate(bounds0, i, k, b, lo, hi);
      bounds := Set(bounds, i, k, b);
      StepKeeps(simplify, rows, start, bounds0, byTerm, p, i, k);
      StepStaysRefined(simplify, rows, start, bounds0, byTerm, p, i, k);
    } else if bounds0 == start {
      QuietIsStable(simplify, rows, start, byTerm, p, i, k);
    }
  }

  lemma StepKeeps(simplify: Node -> Node, rows: seq<Access>, start: Limits, bounds: Limits, byTerm: map<Node, Option<int>>, p: int, i: nat, k: nat)
    requires p > 0 && Shaped(rows, start) && Shaped(rows, bounds) && i < |rows| && k < |rows[i].data|
    requires Keeps(simplify, rows, start, bounds, p) && forall m :: LimitsHold(rows, start, p, m) ==> TermsHold(byTerm, p, m)
    ensures var after := Set(bounds, i, k, NextBound(simplify, rows, bounds, byTerm, p, i, k));
      Shaped(rows, after) && Keeps(simplify, rows, start, after, p)
  {
    hide NextBound, TermsHold;
    var after := Set(bounds, i, k, NextBound(simplify, rows, bounds, byTerm, p, i, k));
    forall m | GoodModel(simplify, rows, start, p, m) ensures LimitsHold(rows, after, p, m) {
      NextBoundHolds(simplify, rows, bounds, byTerm, p, i, k, m);
    }
  }

  lemma StepStaysRefined(simplify: Node -> Node, rows: seq<Access>, start: Limits, bounds: Limits, byTerm: map<Node, Option<int>>, p: int, i: nat, k: nat)
    requires p > 0 && Shaped(rows, start) && Shaped(rows, bounds) && i < |rows| && k < |rows[i].data| && Active(rows[i])
    requires TermsMeet(rows, start, byTerm, |rows|, 0) && Refined(simplify, rows, start, bounds, p)
    ensures var after := Set(bounds, i, k, NextBound(simplify, rows, bounds, byTerm, p, i, k));
      Shaped(rows, after) && Refined(simplify, rows, start, after, p)
  {
    hide TermsMeet, Stable;
    var b := NextBound(simplify, rows, bounds, byTerm, p, i, k);
    assert AsTight(b, bounds[i][k]) by { NextBoundFalls(simplify, rows, bounds, byTerm, p, i, k); }
    hide NextBound;
    var after := Set(bounds, i, k, b);
    forall c | Shaped(rows, c) && Stable(simplify, rows, c, p) && Inside(rows, c, start) ensures Inside(rows, c, after) {
      StepRefines(simplify, rows, start, bounds, byTerm, p, i, k, c);
    }
  }

  lemma NextBoundFalls(simplify: Node -> Node, rows: seq<Access>, bounds: Limits, byTerm: map<Node, Option<int>>, p: int, i: int, k: int)
    requires p > 0 && Shaped(rows, bounds) && 0 <= i < |rows| && 0 <= k < |rows[i].data|
    ensures AsTight(NextBound(simplify, rows, bounds, byTerm, p, i, k), bounds[i][k])
  {
    hide Partners;
  }

  /** The term bounds hold with the limbs' own, and lie in the same interval. */
  lemma TermsFollow(rows: seq<Access>, bounds: Limits, byTerm: map<Node, Option<int>>, p: int, lo: int, hi: int)
    requires p > 0 && Shaped(rows, bounds) && AllBetween(bounds, lo, hi) && TermsMeet(rows, bounds, byTerm, |rows|, 0)
    ensures TermsBetween(byTerm, lo, hi)
    ensures forall m :: LimitsHold(rows, bounds, p, m) ==> TermsHold(byTerm, p, m)
  {
  }

  /** One pass over all limbs of certainly active interactions. */
  method Pass(simplify: Node -> Node, rows: seq<Access>, bounds0: Limits, p: int, ghost lo: int, ghost hi: int)
    returns (bounds: Limits, changed: bool)
    requires p > 0 && Shaped(rows, bounds0) && AllBetween(bounds0, lo, hi) && lo <= INPUT_BOUND <= hi
    ensures Shaped(rows, bounds) && AllBetween(bounds, lo, hi) && Keeps(simplify, rows, bounds0, bounds, p)
    ensures Refined(simplify, rows, bounds0, bounds, p)
    ensures if changed then TotalRank(bounds, lo, hi) < TotalRank(bounds0, lo, hi) else bounds == bounds0
    ensures !changed ==> Stable(simplify, rows, bounds0, p)
  {
    hide Keeps, Refined, TermsMeet, StableAt, AllBetween, TotalRank;
    var byTerm := ByTerm(rows, bounds0);
    bounds, changed := bounds0, false;
    Unrefined(simplify, rows, bounds0, p);
    for i := 0 to |rows|
      invariant Shaped(rows, bounds) && AllBetween(bounds, lo, hi) && Keeps(simplify, rows, bounds0, bounds, p)
      invariant Refined(simplify, rows, bounds0, bounds, p)
      invariant if changed then TotalRank(bounds, lo, hi) < TotalRank(bounds0, lo, hi) else bounds == bounds0
      invariant !changed ==> forall j, l :: 0 <= j < i && 0 <= l < |rows[j].data| && Active(rows[j]) ==> StableAt(simplify, rows, bounds0, p, j, l)
    {
      if Active(rows[i]) {
        for k := 0 to |rows[i].data|
          invariant Shaped(rows, bounds) && AllBetween(bounds, lo, hi) && Keeps(simplify, rows, bounds0, bounds, p)
          invariant Refined(simplify, rows, bounds0, bounds, p)
          invariant if changed then TotalRank(bounds, lo, hi) < TotalRank(bounds0, lo, hi) else bounds == bounds0
          invariant !changed ==> forall j, l :: 0 <= j < i && 0 <= l < |rows[j].data| && Active(rows[j]) ==> StableAt(simplify, rows, bounds0, p, j, l)
          invariant !changed ==> forall l :: 0 <= l < k ==> StableAt(simplify, rows, bounds0, p, i, l)
        {
          var more: bool;
          bounds, more := Tighter(simplify, rows, bounds, byTerm, p, i, k, bounds0, lo, hi);
          changed := changed || more;
        }
      }
    }
  }

  lemma Unrefined(simplify: Node -> Node, rows: seq<Access>, bounds: Limits, p: int)
    requires p > 0 && Shaped(rows, bounds)
    ensures Keeps(simplify, rows, bounds, bounds, p) && Refined(simplify, rows, bounds, bounds, p)
  {
  }

  lemma ThenRefined(simplify: Node -> Node, rows: seq<Access>, a: Limits, b: Limits, c: Limits, p: int)
    requires p > 0 && Shaped(rows, a) && Shaped(rows, b) && Shaped(rows, c)
    requires Keeps(simplify, rows, a, b, p) && Keeps(simplify, rows, b, c, p)
    requires Refined(simplify, rows, a, b, p) && Refined(simplify, rows, b, c, p)
    ensures Keeps(simplify, rows, a, c, p) && Refined(simplify, rows, a, c, p)
  {
    forall m | GoodModel(simplify, rows, a, p, m) ensures LimitsHold(rows, c, p, m) {
      assert GoodModel(simplify, rows, b, p, m);
    }
    forall i, k | 0 <= i < |rows| && 0 <= k < |rows[i].data| ensures AsTight(c[i][k], a[i][k]) {
      assert AsTight(b[i][k], a[i][k]) && AsTight(c[i][k], b[i][k]);
    }
  }

  /** Passes until nothing changes: the loosest stable bounds inside the given ones, and at every pass bounds
      that hold in every model whose reads are inputs or take a partner's data. */
  method Fixpoint(simplify: Node -> Node, rows: seq<Access>, bounds0: Limits, p: int, ghost lo: int, ghost hi: int) returns (bounds: Limits)
    requires p > 0 && Shaped(rows, bounds0) && AllBetween(bounds0, lo, hi) && lo <= INPUT_BOUND <= hi
    ensures Loosest(simplify, rows, bounds0, bounds, p) && Keeps(simplify, rows, bounds0, bounds, p)
  {
    hide Keeps, Refined, Stable, AllBetween, TotalRank;
    bounds := bounds0;
    var changed := true;
    Unrefined(simplify, rows, bounds0, p);
    while changed
      invariant Shaped(rows, bounds) && AllBetween(bounds, lo, hi) && Keeps(simplify, rows, bounds0, bounds, p)
      invariant Refined(simplify, rows, bounds0, bounds, p)
      invariant !changed ==> Stable(simplify, rows, bounds, p)
      decreases TotalRank(bounds, lo, hi), changed
    {
      ghost var before := bounds;
      bounds, changed := Pass(simplify, rows, bounds, p, lo, hi);
      ThenRefined(simplify, rows, bounds0, before, bounds, p);
    }
  }

  // ---- Base bounds and emitted facts ----

  ghost predicate StartBelow(base: map<Node, int>, rows: seq<Access>, p: int, i: int, k: int, v: int)
    requires p > 0 && 0 <= i < |rows| && 0 <= k < |rows[i].data|
  {
    KnownBelow(base, rows[i].data[k], p, v)
  }

  /** Every limb has the least of what is known of it beforehand. */
  ghost predicate StartsFrom(base: map<Node, int>, rows: seq<Access>, p: int, bounds: Limits)
    requires p > 0 && Shaped(rows, bounds)
  {
    forall i, k, v :: 0 <= i < |rows| && 0 <= k < |rows[i].data| ==>
      (StartBelow(base, rows, p, i, k, v) <==> bounds[i][k].Some? && bounds[i][k].value <= v)
  }

  function BaseLimits(base: map<Node, int>, rows: seq<Access>, p: int): (bounds: Limits)
    requires p > 0
    ensures Shaped(rows, bounds)
    ensures forall i, k :: 0 <= i < |rows| && 0 <= k < |rows[i].data| ==> bounds[i][k] == BaseBound(base, rows[i].data[k], p)
    ensures StartsFrom(base, rows, p, bounds)
  {
    assert forall i, k, v :: 0 <= i < |rows| && 0 <= k < |rows[i].data| && StartBelow(base, rows, p, i, k, v) ==>
      BaseBound(base, rows[i].data[k], p).Some? && BaseBound(base, rows[i].data[k], p).value <= v;
    seq(|rows|, i requires 0 <= i < |rows| =>
      seq(|rows[i].data|, k requires 0 <= k < |rows[i].data| => BaseBound(base, rows[i].data[k], p)))
  }

  lemma {:induction false} RowRange(bs: seq<Option<int>>) returns (lo: int, hi: int)
    ensures lo <= INPUT_BOUND <= hi && forall k :: 0 <= k < |bs| ==> Between(bs[k], lo, hi)
  {
    if bs == [] {
      lo, hi := INPUT_BOUND, INPUT_BOUND;
    } else {
      var n := |bs| - 1;
      lo, hi := RowRange(bs[..n]);
      assert forall k :: 0 <= k < n ==> bs[..n][k] == bs[k];
      if bs[n].Some? {
        lo := if bs[n].value < lo then bs[n].value else lo;
        hi := if bs[n].value > hi then bs[n].value else hi;
      }
    }
  }

  /** Finitely many bounds lie in some interval. */
  lemma {:induction false} LimitsRange(bounds: Limits) returns (lo: int, hi: int)
    ensures lo <= INPUT_BOUND <= hi && AllBetween(bounds, lo, hi)
  {
    if bounds == [] {
      lo, hi := INPUT_BOUND, INPUT_BOUND;
    } else {
      var n := |bounds| - 1;
      var a, b := LimitsRange(bounds[..n]);
      var c, d := RowRange(bounds[n]);
      lo, hi := if a < c then a else c, if b > d then b else d;
      forall i, k | 0 <= i < |bounds| && 0 <= k < |bounds[i]| ensures Between(bounds[i][k], lo, hi) {
        assert i < n ==> bounds[..n][i] == bounds[i];
        assert i < n ==> Between(bounds[..n][i][k], a, b);
      }
    }
  }

  /** The emitted fact: the wrapped limb lies in `[0, hi]`. */
  function RangeFact(d: Node, p: int, hi: int): Node {
    App(AndOp, [App(LeOp, [IntConst(0), Wrap(d, p)]), App(LeOp, [Wrap(d, p), IntConst(hi)])])
  }

  lemma RangeFactMeans(d: Node, p: int, hi: int, m: Model)
    requires p > 0
    ensures Holds(RangeFact(d, p, hi), m) <==> Residue(d, p, m) <= hi
  {
    var w := Wrap(d, p);
    WrapMeans(d, p, m);
    Division(IntOf(d, m), p);
    PairMeans(LeOp, IntConst(0), w, m);
    PairMeans(LeOp, w, IntConst(hi), m);
    And2Means(App(LeOp, [IntConst(0), w]), App(LeOp, [w, IntConst(hi)]), m);
  }

  /** A bound on `d` follows from what is emitted, from its base bound, or from residues being below `p`. */
  ghost predicate Told(base: map<Node, int>, facts: seq<Node>, d: Node, p: int, hi: int)
    requires p > 0
  {
    || d.IntConst? || hi >= p
    || KnownBelow(base, d, p, hi)
    || exists h :: h <= hi && RangeFact(d, p, h) in facts
  }

  ghost predicate EmittedIs(emitted: map<Node, int>, facts: seq<Node>, p: int) {
    forall d :: d in emitted ==> RangeFact(d, p, emitted[d]) in facts
  }

  method EmitLimb(base: map<Node, int>, d: Node, b: Option<int>, p: int, facts0: seq<Node>, emitted0: map<Node, int>)
    returns (facts: seq<Node>, emitted: map<Node, int>)
    requires p > 0 && EmittedIs(emitted0, facts0, p)
    ensures EmittedIs(emitted, facts, p) && facts0 <= facts
    ensures forall m :: Sat(facts0, m) && Under(b, Residue(d, p, m)) ==> Sat(facts, m)
    ensures b.Some? ==> Told(base, facts, d, p, b.value)
  {
    facts, emitted := facts0, emitted0;
    if b.None? || d.IntConst? {
      return;
    }
    var known := BaseBound(base, d, p);
    BaseBoundExactly(base, d, p, b.value);
    if known.Some? && known.value <= b.value {
      return;
    }
    if (if d in emitted then emitted[d] else p) <= b.value {
      return;
    }
    emitted := emitted[d := b.value];
    facts := facts + [RangeFact(d, p, b.value)];
    forall m | Sat(facts0, m) && Under(b, Residue(d, p, m)) ensures Sat(facts, m) {
      SatMore(facts0, RangeFact(d, p, b.value), m);
      RangeFactMeans(d, p, b.value, m);
    }
    assert RangeFact(d, p, b.value) in facts;
  }

  lemma ToldStays(base: map<Node, int>, facts: seq<Node>, more: seq<Node>, d: Node, p: int, hi: int)
    requires p > 0 && Told(base, facts, d, p, hi) && facts <= more
    ensures Told(base, more, d, p, hi)
  {
    if h :| h <= hi && RangeFact(d, p, h) in facts {
      assert RangeFact(d, p, h) in more;
    }
  }

  ghost predicate AllTold(base: map<Node, int>, facts: seq<Node>, data: seq<Node>, bs: seq<Option<int>>, n: nat, p: int)
    requires p > 0 && n <= |data| == |bs|
  {
    forall k :: 0 <= k < n && bs[k].Some? ==> Told(base, facts, data[k], p, bs[k].value)
  }

  method EmitRow(base: map<Node, int>, data: seq<Node>, bs: seq<Option<int>>, p: int, facts0: seq<Node>, emitted0: map<Node, int>)
    returns (facts: seq<Node>, emitted: map<Node, int>)
    requires p > 0 && |data| == |bs| && EmittedIs(emitted0, facts0, p)
    ensures EmittedIs(emitted, facts, p) && facts0 <= facts
    ensures forall m :: Sat(facts0, m) && (forall k :: 0 <= k < |data| ==> Under(bs[k], Residue(data[k], p, m))) ==> Sat(facts, m)
    ensures AllTold(base, facts, data, bs, |data|, p)
  {
    facts, emitted := facts0, emitted0;
    for k := 0 to |data|
      invariant EmittedIs(emitted, facts, p) && facts0 <= facts
      invariant forall m :: Sat(facts0, m) && (forall l :: 0 <= l < k ==> Under(bs[l], Residue(data[l], p, m))) ==> Sat(facts, m)
      invariant AllTold(base, facts, data, bs, k, p)
    {
      ghost var before := facts;
      facts, emitted := EmitLimb(base, data[k], bs[k], p, facts, emitted);
      forall l | 0 <= l < k && bs[l].Some? ensures Told(base, facts, data[l], p, bs[l].value) {
        ToldStays(base, before, facts, data[l], p, bs[l].value);
      }
    }
  }

  /** Every bound of the table follows from the facts and the base bounds. */
  ghost predicate TableTold(base: map<Node, int>, facts: seq<Node>, rows: seq<Access>, bounds: Limits, p: int)
    requires p > 0
  {
    Shaped(rows, bounds) && forall i :: 0 <= i < |rows| ==> AllTold(base, facts, rows[i].data, bounds[i], |rows[i].data|, p)
  }

  /** The models the inference is about. */
  ghost predicate IntendedModel(simplify: Node -> Node, constraints: seq<Node>, rows: seq<Access>, p: int, m: Model)
    requires p > 0
  {
    Sat(constraints, m) && ReadsOk(simplify, rows, p, m) && BareLimbsNonNegative(VisitAll(simplify, constraints, map[]), rows, p, m)
  }

  /** The facts the inference adds: consequences in every model of the constraints whose reads are byte
      inputs or take a partner's data, and together with the base bounds as tight as the fixpoint. */
  method Infer(simplify: Node -> Node, constraints: seq<Node>, rows: seq<Access>, p: int)
    returns (facts: seq<Node>, base: map<Node, int>)
    requires p > 0 && SoundSimplifier(simplify)
    ensures base == VisitAll(simplify, constraints, map[]) && IsTable(simplify, constraints, base)
    ensures forall m :: IntendedModel(simplify, constraints, rows, p, m) ==> Sat(facts, m)
    ensures GuardedLimbs(simplify, constraints, rows, p) ==>
      forall m :: Sat(constraints, m) && ReadsOk(simplify, rows, p, m) ==> Sat(facts, m)
    ensures exists bounds ::
      && Loosest(simplify, rows, BaseLimits(base, rows, p), bounds, p)
      && TableTold(base, facts, rows, bounds, p)
      && forall m :: IntendedModel(simplify, constraints, rows, p, m) ==> LimitsHold(rows, bounds, p, m)
  {
    hide Loosest, Keeps, AllTold, EmittedIs, IsTable, VisitAll;
    base := VisitAll(simplify, constraints, map[]);
    TableIsLeast(simplify, constraints);
    var start := BaseLimits(base, rows, p);
    ghost var lo, hi := LimitsRange(start);
    var limits := Fixpoint(simplify, rows, start, p, lo, hi);
    LoosestShaped(simplify, rows, start, limits, p);
    facts := [];
    var emitted: map<Node, int> := map[];
    NothingEmitted(p);
    for i := 0 to |rows|
      invariant EmittedIs(emitted, facts, p)
      invariant forall m :: LimitsHold(rows, limits, p, m) ==> Sat(facts, m)
      invariant forall j :: 0 <= j < i ==> AllTold(base, facts, rows[j].data, limits[j], |rows[j].data|, p)
    {
      ghost var before := facts;
      facts, emitted := EmitRow(base, rows[i].data, limits[i], p, facts, emitted);
      forall j | 0 <= j < i ensures AllTold(base, facts, rows[j].data, limits[j], |rows[j].data|, p) {
        RowToldStays(base, before, facts, rows[j].data, limits[j], p);
      }
    }
    forall m | IntendedModel(simplify, constraints, rows, p, m) ensures Sat(facts, m) && LimitsHold(rows, limits, p, m) {
      VisitAllSound(simplify, constraints, map[], m);
      BaseLimitsHold(base, rows, p, m);
      KeptLimits(simplify, rows, start, limits, p, m);
    }
    assert TableTold(base, facts, rows, limits, p);
    forall m | GuardedLimbs(simplify, constraints, rows, p) && Sat(constraints, m) && ReadsOk(simplify, rows, p, m) ensures Sat(facts, m) {
      GuardedAreNonNegative(simplify, constraints, rows, p, m);
      assert IntendedModel(simplify, constraints, rows, p, m);
    }
  }

  // ---- Without the guard ----

  const ESCAPE_P := 2013265921
  /** A bound on the bare limb `x`, without `0 <= x`. */
  const ESCAPE_CONSTRAINTS := [App(LeOp, [Sym("x"), IntConst(5)])]
  /** A read of `y` beside a write of `x`. */
  const ESCAPE_ROWS := [Access(Some(2013265920), [], [Sym("y")], Sym("t"), None), Access(Some(1), [], [Sym("x")], Sym("t"), None)]

  /** Both limbs are minus one. */
  function EscapeModel(): Model {
    Model(map["x" := IntV(-1), "y" := IntV(-1)], (f, vs) => IntV(0), x => 0)
  }

  /** The inference emits a range of `y` that fails in a model of the constraints in which the read takes the written data. */
  method NegativeLimbEscapes() returns (facts: seq<Node>)
    ensures Sat(ESCAPE_CONSTRAINTS, EscapeModel()) && ReadsOk(f => f, ESCAPE_ROWS, ESCAPE_P, EscapeModel())
    ensures !Sat(facts, EscapeModel())
  {
    hide Loosest, ReadsOk, IntendedModel;
    var base;
    facts, base := Infer(f => f, ESCAPE_CONSTRAINTS, ESCAPE_ROWS, ESCAPE_P);
    ghost var bounds :| Loosest(f => f, ESCAPE_ROWS, BaseLimits(base, ESCAPE_ROWS, ESCAPE_P), bounds, ESCAPE_P)
      && TableTold(base, facts, ESCAPE_ROWS, bounds, ESCAPE_P);
    EscapeBase();
    EscapeIsModel();
    EscapeBound(base, bounds);
    EscapeFact(base, facts, bounds);
  }

  lemma EscapeBase()
    ensures VisitAll(f => f, ESCAPE_CONSTRAINTS, map[]) == map[Sym("x") := 5]
  {
    var c := ESCAPE_CONSTRAINTS[0];
    assert ESCAPE_CONSTRAINTS[1..] == [];
    assert Visit(f => f, c, map[]) == Tighten(map[], Sym("x"), 5);
  }

  lemma EscapeIsModel()
    ensures Sat(ESCAPE_CONSTRAINTS, EscapeModel()) && ReadsOk(f => f, ESCAPE_ROWS, ESCAPE_P, EscapeModel())
    ensures Residue(Sym("y"), ESCAPE_P, EscapeModel()) == ESCAPE_P - 1
  {
    var m, a, b := EscapeModel(), ESCAPE_ROWS[0], ESCAPE_ROWS[1];
    PairMeans(LeOp, Sym("x"), IntConst(5), m);
    assert IntOf(Sym("x"), m) == -1 && IntOf(Sym("y"), m) == -1;
    EscapeMatch();
    assert ReadsFrom(f => f, ESCAPE_ROWS, ESCAPE_P, 0, 1, m);
    assert ReadOk(f => f, ESCAPE_ROWS, ESCAPE_P, 0, m);
  }

  lemma EscapeMatch()
    ensures !CannotMatch(f => f, ESCAPE_ROWS[0], ESCAPE_ROWS[1], ESCAPE_P)
    ensures !Excluded(f => f, ESCAPE_ROWS[0], ESCAPE_ROWS[1], ESCAPE_P)
  {
    var a, b := ESCAPE_ROWS[0], ESCAPE_ROWS[1];
    assert Flat(a) == [Sym("y"), Sym("t")] && Flat(b) == [Sym("x"), Sym("t")];
    ExcludedExactly(f => f, a, b, ESCAPE_P);
  }

  /** The read is bounded by the worst of an input byte and the written limb. */
  lemma EscapeBound(base: map<Node, int>, bounds: Limits)
    requires base == map[Sym("x") := 5]
    requires Loosest(f => f, ESCAPE_ROWS, BaseLimits(base, ESCAPE_ROWS, ESCAPE_P), bounds, ESCAPE_P)
    ensures Shaped(ESCAPE_ROWS, bounds) && bounds[0][0].Some? && bounds[0][0].value <= 255
  {
    var start := BaseLimits(base, ESCAPE_ROWS, ESCAPE_P);
    assert |ESCAPE_ROWS[0].data| == 1 && |ESCAPE_ROWS[1].data| == 1;
    assert start[1][0] == Some(5) by {
      assert Wrap(Sym("x"), ESCAPE_P) != Sym("x");
    }
    assert AsTight(bounds[1][0], start[1][0]);
    EscapeMatch();
    assert Partners(f => f, ESCAPE_ROWS, bounds, ESCAPE_P, 0, 0, 1) == Some(INPUT_BOUND);
    assert Partners(f => f, ESCAPE_ROWS, bounds, ESCAPE_P, 0, 0, 2) == Join(Some(INPUT_BOUND), bounds[1][0]);
    WithinCasesExactly(f => f, ESCAPE_ROWS, bounds, ESCAPE_P, 0, 0);
    assert StableAt(f => f, ESCAPE_ROWS, bounds, ESCAPE_P, 0, 0);
  }

  lemma EscapeFact(base: map<Node, int>, facts: seq<Node>, bounds: Limits)
    requires base == map[Sym("x") := 5] && Shaped(ESCAPE_ROWS, bounds) && bounds[0][0].Some? && bounds[0][0].value <= 255
    requires TableTold(base, facts, ESCAPE_ROWS, bounds, ESCAPE_P) && Residue(Sym("y"), ESCAPE_P, EscapeModel()) == ESCAPE_P - 1
    ensures !Sat(facts, EscapeModel())
  {
    var y, m := Sym("y"), EscapeModel();
    assert |ESCAPE_ROWS[0].data| == 1 && ESCAPE_ROWS[0].data[0] == y;
    assert AllTold(base, facts, ESCAPE_ROWS[0].data, bounds[0], 1, ESCAPE_P);
    assert Told(base, facts, y, ESCAPE_P, bounds[0][0].value);
    assert Wrap(y, ESCAPE_P) != Sym("x");
    var h :| h <= bounds[0][0].value && RangeFact(y, ESCAPE_P, h) in facts;
    RangeFactMeans(y, ESCAPE_P, h, m);
  }

  lemma LoosestShaped(simplify: Node -> Node, rows: seq<Access>, start: Limits, bounds: Limits, p: int)
    requires p > 0 && Shaped(rows, start) && Loosest(simplify, rows, start, bounds, p)
    ensures Shaped(rows, bounds)
  {
  }

  lemma NothingEmitted(p: int)
    requires p > 0
    ensures EmittedIs(map[], [], p)
  {
  }

  lemma KeptLimits(simplify: Node -> Node, rows: seq<Access>, before: Limits, after: Limits, p: int, m: Model)
    requires p > 0 && Shaped(rows, before) && Shaped(rows, after) && Keeps(simplify, rows, before, after, p)
    requires ReadsOk(simplify, rows, p, m) && LimitsHold(rows, before, p, m)
    ensures LimitsHold(rows, after, p, m)
  {
    assert GoodModel(simplify, rows, before, p, m);
  }

  lemma RowToldStays(base: map<Node, int>, facts: seq<Node>, more: seq<Node>, data: seq<Node>, bs: seq<Option<int>>, p: int)
    requires p > 0 && |data| == |bs| && AllTold(base, facts, data, bs, |data|, p) && facts <= more
    ensures AllTold(base, more, data, bs, |data|, p)
  {
    forall l | 0 <= l < |data| && bs[l].Some? ensures Told(base, more, data[l], p, bs[l].value) {
      ToldStays(base, facts, more, data[l], p, bs[l].value);
    }
  }

  lemma BaseLimitsHold(base: map<Node, int>, rows: seq<Access>, p: int, m: Model)
    requires p > 0 && BoundsHold(base, m) && BareLimbsNonNegative(base, rows, p, m)
    ensures LimitsHold(rows, BaseLimits(base, rows, p), p, m)
  {
    forall i, k | 0 <= i < |rows| && 0 <= k < |rows[i].data|
      ensures Under(BaseLimits(base, rows, p)[i][k], Residue(rows[i].data[k], p, m))
    {
      BaseBoundHolds(base, rows[i].data[k], p, m);
    }
  }
}
