/** Integer bounds of columns: seeds from range checks and constraints, closed over two-column equations. */
module FieldBounds {
  import opened Wrappers
  import opened Residues
  import opened Primes
  import opened Sums
  import opened FieldForms
  import opened FieldGadgets
  import opened MultEvidence
  import opened RangeEvidence

  /** `lo <= col < hi`; without `hi` only the lower end is known. */
  datatype Bound = Bound(lo: int, hi: Option<int>)

  type Bounds = map<string, Bound>

  ghost predicate Within(b: Bound, v: int) {
    b.lo <= v && (b.hi.Some? ==> v < b.hi.value)
  }

  ghost predicate BoundsHold(bs: Bounds, env: Env) {
    forall x :: x in bs ==> Within(bs[x], env.cols(x))
  }

  ghost predicate Sane(bs: Bounds) {
    forall x :: x in bs ==> 0 <= bs[x].lo && (bs[x].hi.Some? ==> bs[x].lo < bs[x].hi.value)
  }

  /** Keeps the tighter upper end; the lower ends are not compared. */
  function Put(bs: Bounds, x: string, b: Bound): Bounds {
    if x !in bs then bs[x := b]
    else if b.hi.Some? && (bs[x].hi.None? || b.hi.value < bs[x].hi.value) then bs[x := b]
    else bs
  }

  /** Seeds put one after the other. */
  function PutSeeds(bs: Bounds, seeds: seq<(string, Bound)>): Bounds {
    if seeds == [] then bs
    else
      var n := |seeds| - 1;
      Put(PutSeeds(bs, seeds[..n]), seeds[n].0, seeds[n].1)
  }

  lemma PutSnoc(bs: Bounds, seeds: seq<(string, Bound)>, s: (string, Bound))
    ensures PutSeeds(bs, seeds + [s]) == Put(PutSeeds(bs, seeds), s.0, s.1)
  {
    assert (seeds + [s])[..|seeds|] == seeds;
  }

  lemma {:induction false} PutConcat(bs: Bounds, a: seq<(string, Bound)>, b: seq<(string, Bound)>)
    ensures PutSeeds(PutSeeds(bs, a), b) == PutSeeds(bs, a + b)
  {
    if b == [] {
      assert a + b == a;
    } else {
      var n := |b| - 1;
      PutConcat(bs, a, b[..n]);
      assert a + b == (a + b[..n]) + [b[n]];
      PutSnoc(bs, a + b[..n], b[n]);
    }
  }

  /** `b`'s upper end is respected. */
  ghost predicate Covers(bs: Bounds, x: string, b: Bound) {
    x in bs && (b.hi.Some? ==> bs[x].hi.Some? && bs[x].hi.value <= b.hi.value)
  }

  /** No bound is lost and no upper end raised. */
  ghost predicate Tighter(bs: Bounds, before: Bounds) {
    forall x :: x in before ==> Covers(bs, x, before[x])
  }

  // ---- Range-check rows ----

  datatype Bus = VarRange | Bitwise | TupleRange

  datatype RangeRow = RangeRow(bus: Bus, args: seq<Expr>, mult: Option<Expr>)

  /** A bit width is a constant below 31. */
  function BitsOf(arg: Expr): (r: Option<nat>) {
    if arg.Num? && 0 <= arg.value < 31 then Some(arg.value) else None
  }

  ghost predicate Sent(row: RangeRow, p: int, env: Env)
    requires p > 0
  {
    row.mult.Some? ==> !Zero(row.mult.value, p, env)
  }

  /** What a sent row guarantees of its arguments. */
  ghost predicate RowChecked(row: RangeRow, p: int, env: Env)
    requires p > 0
  {
    match row.bus
    case VarRange => |row.args| >= 2 && BitsOf(row.args[1]).Some? ==> EvalExpr(row.args[0], env) % p < Pow2(BitsOf(row.args[1]).value)
    case Bitwise => forall k :: 0 <= k < |row.args| && k < 2 ==> EvalExpr(row.args[k], env) % p < 256
    case TupleRange => true
  }

  datatype Machine = Machine(cons: seq<Expr>, rows: seq<RangeRow>)

  /** Columns are field elements, constraints vanish, sent rows are checked, and the block selector is one. */
  ghost predicate IsModel(m: Machine, selector: Option<string>, p: int, env: Env)
    requires p > 0
  {
    && FieldEnv(env, p)
    && AllZero(m.cons, p, env)
    && (forall row :: row in m.rows && Sent(row, p, env) ==> RowChecked(row, p, env))
    && (selector.Some? ==> Cong(env.cols(selector.value), 1, p))
  }

  /** Tables over the constraints, each computed once. */
  datatype Tables = Tables(forms: Forms, pins: map<string, int>, singles: map<string, (int, nat)>, index: Index)

  ghost predicate TablesOf(t: Tables, cons: seq<Expr>, p: int)
    requires p > 1
  {
    && t.forms == ParseAll(cons, p)
    && IsSingles(t.forms, t.singles, p)
    && ExactIndex(t.forms, t.index)
  }

  method BuildTables(cons: seq<Expr>, p: int) returns (t: Tables)
    requires Prime(p)
    ensures TablesOf(t, cons, p) && SoundPins(t.forms, t.pins, p)
  {
    var forms := ParseAll(cons, p);
    ParsedCanonical(cons, p);
    var pins := ConstPins(forms, p);
    var singles := SingleSources(forms, p);
    var index := BuildIndex(forms);
    t := Tables(forms, pins, singles, index);
  }

  // ---- Sound seeds ----

  ghost predicate GrantedHold(granted: seq<(string, Bound)>, env: Env) {
    forall s :: s in granted ==> Within(s.1, env.cols(s.0))
  }

  /** `b` holds of `x` in every model in which the granted bounds hold. */
  ghost predicate Follows(m: Machine, granted: seq<(string, Bound)>, selector: Option<string>, p: int, x: string, b: Bound)
    requires p > 0
  {
    forall env :: IsModel(m, selector, p, env) && GrantedHold(granted, env) ==> Within(b, env.cols(x))
  }

  ghost predicate SoundBounds(bs: Bounds, m: Machine, granted: seq<(string, Bound)>, selector: Option<string>, p: int)
    requires p > 0
  {
    Sane(bs) && forall x :: x in bs ==> Follows(m, granted, selector, p, x, bs[x])
  }

  ghost predicate SaneBound(b: Bound) {
    0 <= b.lo && (b.hi.Some? ==> b.lo < b.hi.value)
  }

  /** The bound read off the value argument of a variable range check. */
  function ValueBound(arg: Expr, bits: nat, p: int): Option<(string, Bound)>
    requires p > 1
  {
    match ParseLin(arg, p)
    case None => None
    case Some(lf) =>
      if lf.constant != 0 || |lf.terms| != 1 then None
      else
        var x, c := lf.terms[0].name, lf.terms[0].coeff;
        if c == 1 then Some((x, Bound(0, Some(Pow2(bits)))))
        else if Inverse(c, p) * Pow2(bits) < p then Some((x, Bound(0, Some(Inverse(c, p) * Pow2(bits)))))
        else None
  }

  lemma {:induction false} Pow2Positive(n: nat)
    ensures Pow2(n) >= 1
  {
    if n > 0 {
      Pow2Positive(n - 1);
    }
  }

  lemma ValueBoundSound(arg: Expr, bits: nat, p: int, env: Env)
    requires Prime(p) && FieldEnv(env, p) && EvalExpr(arg, env) % p < Pow2(bits)
    requires ValueBound(arg, bits, p).Some?
    ensures var (x, b) := ValueBound(arg, bits, p).value; SaneBound(b) && Within(b, env.cols(x))
  {
    hide LinTerms, MakeTerms;
    var lf := ParseLin(arg, p).value;
    var c, v := lf.terms[0].coeff, env.cols(lf.terms[0].name);
    ParseLinValue(arg, p, env);
    SingleValue(lf, env);
    Pow2Positive(bits);
    assert lf.terms[0] in lf.terms;
    CanonicalNonzero(c, p);
    if c == 1 {
      Small(v, p);
    } else {
      InverseIsInverse(c, p);
      ScaledStrict(c, v, Pow2(bits), p);
    }
  }

  lemma ScaledStrict(c: int, v: int, top: int, p: int)
    requires Prime(p) && c % p != 0 && 0 <= v < p && top >= 1
    requires (c * v) % p < top && Inverse(c, p) * top < p
    ensures 0 < Inverse(c, p) * top && v < Inverse(c, p) * top
  {
    var s := Inverse(c, p);
    InverseIsInverse(c, p);
    Distribute(s, top - 1, 1);
    ProductMonotone(s, 0, top - 1);
    ScaledBound(c, v, top - 1, p);
  }

  /** Seeds of one row whose sending is proven. */
  function RowSeeds(row: RangeRow, p: int): seq<(string, Bound)>
    requires p > 1
  {
    match row.bus
    case VarRange =>
      if |row.args| < 2 || BitsOf(row.args[1]).None? then []
      else
        (match ValueBound(row.args[0], BitsOf(row.args[1]).value, p)
         case None => []
         case Some(s) => [s])
    case Bitwise => ColumnSeeds(if |row.args| <= 2 then row.args else row.args[..2], Bound(0, Some(256)))
    case TupleRange => ColumnSeeds(row.args, Bound(0, None))
  }

  function ColumnSeeds(args: seq<Expr>, b: Bound): (r: seq<(string, Bound)>)
    ensures forall s :: s in r ==> s.1 == b && Col(s.0) in args
  {
    if args == [] then []
    else (if args[0].Col? then [(args[0].name, b)] else []) + ColumnSeeds(args[1..], b)
  }

  lemma RowSeedsSound(row: RangeRow, p: int, s: (string, Bound), env: Env)
    requires Prime(p) && FieldEnv(env, p) && RowChecked(row, p, env) && s in RowSeeds(row, p)
    ensures SaneBound(s.1) && Within(s.1, env.cols(s.0))
  {
    hide ValueBound;
    match row.bus
    case VarRange => ValueBoundSound(row.args[0], BitsOf(row.args[1]).value, p, env);
    case Bitwise =>
      var k :| 0 <= k < |row.args| && k < 2 && row.args[k] == Col(s.0);
      Small(env.cols(s.0), p);
    case TupleRange =>
  }

  lemma RowSeedsSane(row: RangeRow, p: int, s: (string, Bound))
    requires Prime(p) && s in RowSeeds(row, p)
    ensures SaneBound(s.1)
  {
    if row.bus.VarRange? {
      var bits, lf := BitsOf(row.args[1]).value, ParseLin(row.args[0], p).value;
      var c := lf.terms[0].coeff;
      Pow2Positive(bits);
      ParseLinCanonical(row.args[0], p);
      assert lf.terms[0] in lf.terms;
      CanonicalNonzero(c, p);
      InverseIsInverse(c, p);
      ProductMonotone(Inverse(c, p), 1, Pow2(bits));
    }
  }

  // ---- Which operands are seeded ----

  /** What a sent row says of a column: a variable range check of a scaled column bounds it by the scaled power of two
      when that stays below `p`; a bitwise row makes each of its first two operands a byte; a tuple check makes each
      operand non-negative. */
  ghost predicate Shows(row: RangeRow, p: int, x: string, b: Bound)
    requires p > 1
  {
    match row.bus
    case VarRange =>
      && |row.args| >= 2 && row.args[1].Num? && 0 <= row.args[1].value < 31
      && exists c :: ParseLin(row.args[0], p) == Some(LinForm([Term(x, c)], 0)) && ScaledTo(c, Pow2(row.args[1].value), p, b)
    case Bitwise => b == Bound(0, Some(0x100)) && exists k :: 0 <= k < |row.args| && k < 2 && row.args[k] == Col(x)
    case TupleRange => b == Bound(0, None) && exists k :: 0 <= k < |row.args| && row.args[k] == Col(x)
  }

  /** From `c * x` below `top`. */
  ghost predicate ScaledTo(c: int, top: int, p: int, b: Bound)
    requires p > 1
  {
    b.lo == 0 && b.hi.Some?
    && if c == 1 then b.hi.value == top
       else exists s :: 0 < s < p && Cong(s * c, 1, p) && s * top < p && b.hi.value == s * top
  }

  lemma {:induction false} ColumnSeedsExactly(args: seq<Expr>, b: Bound, s: (string, Bound))
    ensures s in ColumnSeeds(args, b) <==> s.1 == b && Col(s.0) in args
  {
    if args != [] {
      ColumnSeedsExactly(args[1..], b, s);
      assert args == [args[0]] + args[1..];
    }
  }

  lemma ValueBoundExactly(arg: Expr, n: nat, p: int, x: string, b: Bound)
    requires Prime(p)
    ensures ValueBound(arg, n, p) == Some((x, b)) <==>
      exists c :: ParseLin(arg, p) == Some(LinForm([Term(x, c)], 0)) && ScaledTo(c, Pow2(n), p, b)
  {
    hide ParseLin, Inverse, ScaledTo, Pow2;
    if c :| ParseLin(arg, p) == Some(LinForm([Term(x, c)], 0)) && ScaledTo(c, Pow2(n), p, b) {
      UnitCoefficient(arg, x, c, p);
      ScaledExactly(c, Pow2(n), p, b);
    }
    if ValueBound(arg, n, p) == Some((x, b)) {
      var lf := ParseLin(arg, p).value;
      var c := lf.terms[0].coeff;
      assert lf.terms == [Term(x, c)];
      assert ParseLin(arg, p) == Some(LinForm([Term(x, c)], 0));
      UnitCoefficient(arg, x, c, p);
      ScaledExactly(c, Pow2(n), p, b);
    }
  }

  lemma UnitCoefficient(arg: Expr, x: string, c: int, p: int)
    requires Prime(p) && ParseLin(arg, p) == Some(LinForm([Term(x, c)], 0))
    ensures c % p != 0
  {
    ParseLinCanonical(arg, p);
    assert ParseLin(arg, p).value.terms[0] == Term(x, c) && Term(x, c) in ParseLin(arg, p).value.terms;
    CanonicalNonzero(c, p);
  }

  lemma ScaledExactly(c: int, top: int, p: int, b: Bound)
    requires Prime(p) && c % p != 0
    ensures ScaledTo(c, top, p, b) <==>
      b.lo == 0 && b.hi.Some? && if c == 1 then b.hi.value == top else Inverse(c, p) * top < p && b.hi.value == Inverse(c, p) * top
  {
    hide Inverse, Cong;
    InverseIsInverse(c, p);
    InverseCong(c, p);
    if s :| 0 < s < p && Cong(s * c, 1, p) && s * top < p && b.hi.Some? && b.hi.value == s * top {
      InverseUnique(c, s, Inverse(c, p), p);
    }
  }

  lemma RowSeedsExactly(row: RangeRow, p: int, x: string, b: Bound)
    requires Prime(p)
    ensures (x, b) in RowSeeds(row, p) <==> Shows(row, p, x, b)
  {
    hide ValueBound, ColumnSeeds;
    match row.bus
    case VarRange =>
      if |row.args| >= 2 && BitsOf(row.args[1]).Some? {
        ValueBoundExactly(row.args[0], row.args[1].value, p, x, b);
      }
    case Bitwise =>
      var args := if |row.args| <= 2 then row.args else row.args[..2];
      ColumnSeedsExactly(args, Bound(0, Some(256)), (x, b));
    case TupleRange =>
      ColumnSeedsExactly(row.args, Bound(0, None), (x, b));
  }

  // ---- Constraint seeds ----

  /** What one constraint says about one column: the residue of a single-column equation, else the domain of a gadget,
      else a boolean product. */
  ghost predicate IsSeed(con: Expr, p: int, s: (string, Bound))
    requires p > 1
  {
    if ParseLin(con, p).Some? && |ParseLin(con, p).value.terms| == 1 then
      var r := SingleColResidue(ParseLin(con, p).value, p).value; s == (r.0, Bound(r.1, Some(r.1 + 1)))
    else if exists d :: DomainShape(con, d) then
      exists d :: DomainShape(con, d) && s == (d.col, Bound(0, Some(d.size)))
    else
      && ParseProduct(con, p).Some? && IsBooleanProduct(ParseProduct(con, p).value)
      && s == (ParseProduct(con, p).value.left.terms[0].name, Bound(0, Some(2)))
  }

  /** The bound a constraint gives one column by itself. */
  method ConstraintSeed(con: Expr, p: int) returns (r: Option<(string, Bound)>)
    requires Prime(p)
    ensures r.Some? ==> SaneBound(r.value.1)
    ensures forall s :: IsSeed(con, p, s) <==> r == Some(s)
    ensures r.Some? ==> forall env :: FieldEnv(env, p) && Zero(con, p, env) ==> Within(r.value.1, env.cols(r.value.0))
  {
    var lf := ParseLin(con, p);
    if lf.Some? && |lf.value.terms| == 1 {
      var s := SingleColResidue(lf.value, p).value;
      forall env | FieldEnv(env, p) && Zero(con, p, env) ensures env.cols(s.0) == s.1 {
        PinnedExactly(con, p, env);
      }
      return Some((s.0, Bound(s.1, Some(s.1 + 1))));
    }
    var dg := DomainGadget(con);
    if dg.Some? {
      forall env | FieldEnv(env, p) && Zero(con, p, env) ensures env.cols(dg.value.col) < dg.value.size {
        DomainMeans(con, dg.value, p, env);
      }
      DomainInhabited(con, dg.value);
      forall d | DomainShape(con, d) ensures d == dg.value {
        OneDomain(con, d, dg.value);
      }
      return Some((dg.value.col, Bound(0, Some(dg.value.size))));
    }
    var pr := ParseProduct(con, p);
    if pr.Some? && IsBooleanProduct(pr.value) {
      forall env | FieldEnv(env, p) && Zero(con, p, env) ensures env.cols(pr.value.left.terms[0].name) < 2 {
        BooleanProductMeans(con, p, env);
      }
      return Some((pr.value.left.terms[0].name, Bound(0, Some(2))));
    }
    return None;
  }

  lemma DomainInhabited(e: Expr, d: Domain)
    requires DomainShape(e, d)
    ensures d.size >= 1
  {
    FactorsNonempty(e);
    assert |multiset(Upto(d.size))| == d.size;
  }

  lemma PinnedExactly(con: Expr, p: int, env: Env)
    requires Prime(p) && FieldEnv(env, p) && Zero(con, p, env)
    requires ParseLin(con, p).Some? && |ParseLin(con, p).value.terms| == 1
    ensures var s := SingleColResidue(ParseLin(con, p).value, p).value; env.cols(s.0) == s.1
  {
    hide LinTerms, MakeTerms, FormValue, Inverse, CanonicalForm;
    var lf := ParseLin(con, p).value;
    ParseLinValue(con, p, env);
    Trans(FormValue(lf, env), EvalExpr(con, env), 0, p);
    SingleColExact(lf, p, env);
    CongClose(env.cols(lf.terms[0].name), SingleColResidue(lf, p).value.1, p);
  }

  // ---- Two-column equations ----

  /** `src + d` and `dst` are equal modulo `p`. */
  datatype Link = Link(src: string, dst: string, d: int)

  datatype ColGap = ColGap(idx: nat, pos: string, neg: string, constant: int)

  /** `pos - neg + constant`. */
  function GapOf(lf: LinForm, i: nat): Option<ColGap> {
    if |lf.terms| != 2 then None
    else
      var a, b := lf.terms[0], lf.terms[1];
      if a.coeff == 1 && b.coeff == -1 then Some(ColGap(i, a.name, b.name, lf.constant))
      else if a.coeff == -1 && b.coeff == 1 then Some(ColGap(i, b.name, a.name, lf.constant))
      else None
  }

  function GapsFrom(forms: Forms, i: nat): seq<ColGap>
    requires i <= |forms|
    decreases |forms| - i
  {
    if i == |forms| then []
    else
      var rest := GapsFrom(forms, i + 1);
      if forms[i].Some? && GapOf(forms[i].value, i).Some? then [GapOf(forms[i].value, i).value] + rest else rest
  }

  ghost predicate GapHolds(g: ColGap, p: int, env: Env)
    requires p > 0
  {
    Cong(env.cols(g.pos) - env.cols(g.neg) + g.constant, 0, p)
  }

  lemma GapValue(lf: LinForm, i: nat, env: Env)
    requires GapOf(lf, i).Some?
    ensures var g := GapOf(lf, i).value; FormValue(lf, env) == env.cols(g.pos) - env.cols(g.neg) + g.constant
  {
    var a, b := lf.terms[0], lf.terms[1];
    SnocValue([], a, env.cols);
    SnocValue([a], b, env.cols);
    assert [] + [a] == [a] && lf.terms == [a] + [b];
  }

  lemma {:induction false} GapsHold(forms: Forms, i: nat, p: int, g: ColGap, env: Env)
    requires p > 0 && i <= |forms| && FormsVanish(forms, p, env) && g in GapsFrom(forms, i)
    ensures GapHolds(g, p, env)
    decreases |forms| - i
  {
    hide Cong;
    if forms[i].Some? && GapOf(forms[i].value, i) == Some(g) {
      GapValue(forms[i].value, i, env);
    } else {
      GapsHold(forms, i + 1, p, g, env);
    }
  }

  /** Both readings of each equation, in order. */
  function LinksOf(gs: seq<ColGap>): seq<Link> {
    if gs == [] then []
    else LinksOf(gs[..|gs| - 1]) + LinkPair(gs[|gs| - 1])
  }

  function LinkPair(g: ColGap): seq<Link> {
    [Link(g.neg, g.pos, -g.constant), Link(g.pos, g.neg, g.constant)]
  }

  ghost predicate LinkHolds(l: Link, p: int, env: Env)
    requires p > 0
  {
    Cong(env.cols(l.dst), env.cols(l.src) + l.d, p)
  }

  lemma {:induction false} LinksHold(gs: seq<ColGap>, l: Link, p: int, env: Env)
    requires p > 0 && l in LinksOf(gs) && forall g :: g in gs ==> GapHolds(g, p, env)
    ensures LinkHolds(l, p, env)
  {
    var g := gs[|gs| - 1];
    if l in LinkPair(g) {
      assert g in gs;
      CongIff(env.cols(g.pos), env.cols(g.neg) - g.constant, p);
      CongIff(env.cols(g.neg), env.cols(g.pos) + g.constant, p);
      Small(0, p);
      NegCong(env.cols(g.pos) - env.cols(g.neg) + g.constant, 0, p);
    } else {
      LinksHold(gs[..|gs| - 1], l, p, env);
    }
  }

  /** The form says that `y` is `x + d`: two columns with coefficients one and minus one, in either order. */
  ghost predicate Relates(lf: LinForm, x: string, y: string, d: int) {
    || ((lf.terms == [Term(y, 1), Term(x, -1)] || lf.terms == [Term(x, -1), Term(y, 1)]) && d == -lf.constant)
    || ((lf.terms == [Term(y, -1), Term(x, 1)] || lf.terms == [Term(x, 1), Term(y, -1)]) && d == lf.constant)
  }

  ghost predicate RelatedBy(forms: Forms, i: int, l: Link) {
    0 <= i < |forms| && forms[i].Some? && Relates(forms[i].value, l.src, l.dst, l.d)
  }

  lemma PairExactly(lf: LinForm, i: nat, l: Link)
    ensures (GapOf(lf, i).Some? && l in LinkPair(GapOf(lf, i).value)) <==> Relates(lf, l.src, l.dst, l.d)
  {
    if |lf.terms| == 2 {
      assert lf.terms == [lf.terms[0], lf.terms[1]];
    }
  }

  lemma {:induction false} LinksConcat(a: seq<ColGap>, b: seq<ColGap>)
    ensures LinksOf(a + b) == LinksOf(a) + LinksOf(b)
  {
    if b == [] {
      assert a + b == a;
    } else {
      var n := |b| - 1;
      assert (a + b)[..|a + b| - 1] == a + b[..n];
      LinksConcat(a, b[..n]);
    }
  }

  lemma OneLinkPair(g: ColGap)
    ensures LinksOf([g]) == LinkPair(g)
  {
    assert LinksOf([g][..0]) == [];
  }

  /** The links are exactly the equations between two columns, read both ways. */
  lemma {:induction false} LinksExactly(forms: Forms, i: nat, l: Link)
    requires i <= |forms|
    ensures l in LinksOf(GapsFrom(forms, i)) <==> exists j :: i <= j && RelatedBy(forms, j, l)
    decreases |forms| - i
  {
    hide GapOf, LinkPair, Relates;
    if i < |forms| {
      LinksExactly(forms, i + 1, l);
      if forms[i].Some? {
        PairExactly(forms[i].value, i, l);
        if GapOf(forms[i].value, i).Some? {
          LinksConcat([GapOf(forms[i].value, i).value], GapsFrom(forms, i + 1));
          OneLinkPair(GapOf(forms[i].value, i).value);
        }
      }
      if j :| i <= j && RelatedBy(forms, j, l) {
        assert j == i || i + 1 <= j;
      }
      if l in LinksOf(GapsFrom(forms, i + 1)) {
        var j :| i + 1 <= j && RelatedBy(forms, j, l);
        assert i <= j;
      }
      assert forms[i].Some? && Relates(forms[i].value, l.src, l.dst, l.d) ==> RelatedBy(forms, i, l);
    }
  }

  /** A bound moves along a link when the moved interval stays inside one period. */
  lemma ShiftWithin(b: Bound, l: Link, p: int, env: Env)
    requires p > 0 && FieldEnv(env, p) && LinkHolds(l, p, env)
    requires Within(b, env.cols(l.src)) && b.hi.Some? && b.lo + l.d >= 0 && b.hi.value + l.d <= p
    ensures env.cols(l.dst) == env.cols(l.src) + l.d
  {
    CongClose(env.cols(l.dst), env.cols(l.src) + l.d, p);
  }

  // ---- Closure ----

  predicate Improves(bs: Bounds, l: Link, p: int) {
    && l.src in bs && bs[l.src].hi.Some?
    && bs[l.src].lo + l.d >= 0 && bs[l.src].hi.value + l.d <= p
    && (l.dst !in bs || bs[l.dst].hi.None? || bs[l.src].hi.value + l.d < bs[l.dst].hi.value)
  }

  function Shifted(bs: Bounds, l: Link): Bounds
    requires l.src in bs && bs[l.src].hi.Some?
  {
    bs[l.dst := Bound(bs[l.src].lo + l.d, Some(bs[l.src].hi.value + l.d))]
  }

  function Top(bs: Bounds, x: string, p: int): int {
    if x in bs && bs[x].hi.Some? then bs[x].hi.value else p + 1
  }

  /** Total of the upper ends the closure may lower. */
  function Weight(bs: Bounds, ls: seq<Link>, p: int): int {
    if ls == [] then 0 else Weight(bs, ls[1..], p) + Top(bs, ls[0].dst, p)
  }

  lemma {:induction false} WeightBound(bs: Bounds, ls: seq<Link>, p: int)
    requires p > 0 && Sane(bs)
    ensures Weight(bs, ls, p) >= 0
  {
    if ls != [] {
      WeightBound(bs, ls[1..], p);
    }
  }

  lemma {:induction false} WeightDrops(a: Bounds, b: Bounds, ls: seq<Link>, p: int, l: Link)
    requires forall x :: Top(b, x, p) <= Top(a, x, p)
    ensures Weight(b, ls, p) <= Weight(a, ls, p)
    ensures l in ls && Top(b, l.dst, p) < Top(a, l.dst, p) ==> Weight(b, ls, p) < Weight(a, ls, p)
  {
    if ls != [] {
      WeightDrops(a, b, ls[1..], p, l);
      assert l in ls ==> l == ls[0] || l in ls[1..];
    }
  }

  /** No link improves a bound. */
  ghost predicate Closed(bs: Bounds, ls: seq<Link>, p: int) {
    forall l :: l in ls ==> !Improves(bs, l, p)
  }

  /** `src`'s interval, moved by `d`, stays inside one period and has a lower end above than `dst`'s. */
  ghost predicate Carries(bs: Bounds, l: Link, p: int) {
    && l.src in bs && bs[l.src].hi.Some?
    && 0 <= bs[l.src].lo + l.d && bs[l.src].hi.value + l.d <= p
    && forall h :: l.dst in bs && bs[l.dst].hi == Some(h) ==> bs[l.src].hi.value + l.d < h
  }

  /** What one sweep over the links makes of the bounds: each link in turn moves an interval that is lower. */
  ghost predicate Sweep(a: Bounds, b: Bounds, ls: seq<Link>, p: int)
    decreases |ls|
  {
    if ls == [] then a == b
    else
      var l := ls[|ls| - 1];
      exists c :: Sweep(a, c, ls[..|ls| - 1], p) &&
        if Carries(c, l, p) then
          && b.Keys == c.Keys + {l.dst} && (forall x :: x in c && x != l.dst ==> b[x] == c[x])
          && b[l.dst].lo == c[l.src].lo + l.d && b[l.dst].hi == Some(c[l.src].hi.value + l.d)
        else b == c
  }

  /** Sweep after sweep. */
  ghost predicate Sweeps(a: Bounds, b: Bounds, ls: seq<Link>, p: int, n: nat)
    decreases n
  {
    if n == 0 then a == b else exists c :: Sweeps(a, c, ls, p, n - 1) && Sweep(c, b, ls, p)
  }

  lemma SweepStep(a: Bounds, c: Bounds, ls: seq<Link>, p: int, i: nat)
    requires i < |ls| && Sweep(a, c, ls[..i], p)
    ensures Sweep(a, if Improves(c, ls[i], p) then Shifted(c, ls[i]) else c, ls[..i + 1], p)
  {
    assert ls[..i + 1][..i] == ls[..i];
    var l := ls[i];
    assert Carries(c, l, p) <==> Improves(c, l, p);
    if Improves(c, l, p) {
      assert Shifted(c, l).Keys == c.Keys + {l.dst};
    }
  }

  lemma StepSound(bs: Bounds, l: Link, m: Machine, granted: seq<(string, Bound)>, selector: Option<string>, p: int)
    requires p > 0 && SoundBounds(bs, m, granted, selector, p) && Improves(bs, l, p)
    requires forall env :: IsModel(m, selector, p, env) ==> LinkHolds(l, p, env)
    ensures SoundBounds(Shifted(bs, l), m, granted, selector, p)
  {
    hide LinkHolds;
    var after := Shifted(bs, l);
    forall x | x in after ensures Follows(m, granted, selector, p, x, after[x]) {
      forall env | IsModel(m, selector, p, env) && GrantedHold(granted, env) ensures Within(after[x], env.cols(x)) {
        assert Follows(m, granted, selector, p, l.src, bs[l.src]);
        assert x in bs ==> Follows(m, granted, selector, p, x, bs[x]);
        ShiftWithin(bs[l.src], l, p, env);
      }
    }
  }

  method Pass(before: Bounds, ls: seq<Link>, ghost m: Machine, ghost granted: seq<(string, Bound)>, ghost selector: Option<string>, p: int)
    returns (bs: Bounds, changed: bool)
    requires p > 0 && SoundBounds(before, m, granted, selector, p)
    requires forall l, env :: l in ls && IsModel(m, selector, p, env) ==> LinkHolds(l, p, env)
    ensures SoundBounds(bs, m, granted, selector, p) && Tighter(bs, before)
    ensures forall x :: Top(bs, x, p) <= Top(before, x, p)
    ensures changed ==> Weight(bs, ls, p) < Weight(before, ls, p)
    ensures !changed ==> bs == before && Closed(bs, ls, p)
    ensures Closed(before, ls, p) ==> !changed
    ensures Sweep(before, bs, ls, p)
  {
    hide Sweep, Weight, SoundBounds, IsModel, LinkHolds;
    bs, changed := before, false;
    NoSweep(before, p);
    for i := 0 to |ls|
      invariant Sweep(before, bs, ls[..i], p)
      invariant SoundBounds(bs, m, granted, selector, p) && Tighter(bs, before)
      invariant forall x :: Top(bs, x, p) <= Top(before, x, p)
      invariant changed ==> Weight(bs, ls, p) < Weight(before, ls, p)
      invariant !changed ==> bs == before && forall j :: 0 <= j < i ==> !Improves(bs, ls[j], p)
      invariant Closed(before, ls, p) ==> !changed
    {
      SweepStep(before, bs, ls, p, i);
      if Improves(bs, ls[i], p) {
        assert ls[i] in ls;
        StepSound(bs, ls[i], m, granted, selector, p);
        WeightDrops(bs, Shifted(bs, ls[i]), ls, p, ls[i]);
        WeightDrops(before, bs, ls, p, ls[i]);
        bs, changed := Shifted(bs, ls[i]), true;
      }
    }
    assert ls[..|ls|] == ls;
  }

  lemma NoSweep(bs: Bounds, p: int)
    ensures Sweep(bs, bs, [], p)
  {
  }

  /** Closes bounds over the links: sound, nothing left to improve, and no upper end raised. Each pass that
      changes anything lowers the total of the upper ends. */
  method Close(seeds: Bounds, ls: seq<Link>, ghost m: Machine, ghost granted: seq<(string, Bound)>, ghost selector: Option<string>, p: int)
    returns (bs: Bounds)
    requires p > 0 && SoundBounds(seeds, m, granted, selector, p)
    requires forall l, env :: l in ls && IsModel(m, selector, p, env) ==> LinkHolds(l, p, env)
    ensures SoundBounds(bs, m, granted, selector, p) && Closed(bs, ls, p) && Tighter(bs, seeds)
    ensures Closed(seeds, ls, p) ==> bs == seeds
    ensures exists n: nat :: Sweeps(seeds, bs, ls, p, n)
  {
    hide Sweep;
    bs := seeds;
    var changed := true;
    ghost var n := 0;
    WeightBound(bs, ls, p);
    while changed
      invariant SoundBounds(bs, m, granted, selector, p) && Weight(bs, ls, p) >= 0 && Tighter(bs, seeds)
      invariant (!changed ==> Closed(bs, ls, p)) && (Closed(seeds, ls, p) ==> bs == seeds)
      invariant Sweeps(seeds, bs, ls, p, n)
      decreases Weight(bs, ls, p), changed
    {
      bs, changed := Pass(bs, ls, m, granted, selector, p);
      n := n + 1;
      WeightBound(bs, ls, p);
    }
  }

  // ---- The bound oracle ----

  lemma PutSound(bs: Bounds, x: string, b: Bound, m: Machine, granted: seq<(string, Bound)>, selector: Option<string>, p: int)
    requires p > 0 && SoundBounds(bs, m, granted, selector, p) && SaneBound(b) && Follows(m, granted, selector, p, x, b)
    ensures SoundBounds(Put(bs, x, b), m, granted, selector, p)
    ensures Tighter(Put(bs, x, b), bs) && Covers(Put(bs, x, b), x, b)
  {
  }

  method PutAll(before: Bounds, seeds: seq<(string, Bound)>, ghost m: Machine, ghost granted: seq<(string, Bound)>,
                ghost selector: Option<string>, p: int) returns (bs: Bounds)
    requires p > 0 && SoundBounds(before, m, granted, selector, p)
    requires forall s :: s in seeds ==> SaneBound(s.1) && Follows(m, granted, selector, p, s.0, s.1)
    ensures SoundBounds(bs, m, granted, selector, p) && Tighter(bs, before) && bs == PutSeeds(before, seeds)
    ensures forall s :: s in seeds ==> Covers(bs, s.0, s.1)
  {
    hide SoundBounds, Put, Follows;
    bs := before;
    for i := 0 to |seeds|
      invariant SoundBounds(bs, m, granted, selector, p) && Tighter(bs, before)
      invariant forall j :: 0 <= j < i ==> Covers(bs, seeds[j].0, seeds[j].1)
      invariant bs == PutSeeds(before, seeds[..i])
    {
      assert seeds[i] in seeds;
      assert seeds[..i + 1] == seeds[..i] + [seeds[i]];
      PutSnoc(before, seeds[..i], seeds[i]);
      PutSound(bs, seeds[i].0, seeds[i].1, m, granted, selector, p);
      bs := Put(bs, seeds[i].0, seeds[i].1);
    }
    assert seeds[..|seeds|] == seeds;
  }

  lemma ProvenSent(row: RangeRow, m: Machine, t: Tables, selector: Option<string>, p: int, env: Env)
    requires Prime(p) && TablesOf(t, m.cons, p) && IsModel(m, selector, p, env)
    requires ScanEvidence(row.mult, t.forms, t.pins, t.singles, selector, p).Some?
    ensures Sent(row, p, env)
  {
    hide ScanEvidence, ParseAll;
    if row.mult.Some? {
      SelectorCited(row.mult.value, t, selector, p);
      EvidenceProves(row.mult.value, m.cons, t.pins, t.singles, selector, p, env);
    }
  }

  lemma SelectorCited(mult: Expr, t: Tables, selector: Option<string>, p: int)
    requires p > 1 && ScanEvidence(Some(mult), t.forms, t.pins, t.singles, selector, p).Some?
    ensures ScanEvidence(Some(mult), t.forms, t.pins, t.singles, selector, p).value.selector ==> selector.Some?
  {
    hide Subst, Scan, CitedSubs, CitedSources, ParseLin;
  }

  method RangeSeeds(m: Machine, t: Tables, ghost granted: seq<(string, Bound)>, selector: Option<string>, p: int) returns (bs: Bounds)
    requires Prime(p) && TablesOf(t, m.cons, p)
    ensures SoundBounds(bs, m, granted, selector, p) && bs == PutSeeds(map[], SentSeeds(m.rows, t, selector, p))
    ensures forall row, s :: row in m.rows && SeedOfRow(row, t, selector, p, s) ==> Covers(bs, s.0, s.1)
  {
    hide SoundBounds, RowSeeds, ScanEvidence, PutSeeds;
    bs := map[];
    NoSeedsPut();
    NothingSound(m, granted, selector, p);
    for i := 0 to |m.rows|
      invariant SoundBounds(bs, m, granted, selector, p)
      invariant forall j, s :: 0 <= j < i && SeedOfRow(m.rows[j], t, selector, p, s) ==> Covers(bs, s.0, s.1)
      invariant bs == PutSeeds(map[], SentSeeds(m.rows[..i], t, selector, p))
    {
      var row := m.rows[i];
      assert m.rows[..i + 1][..i] == m.rows[..i];
      PutConcat(map[], SentSeeds(m.rows[..i], t, selector, p), RowSeeds(row, p));
      ParsedCanonical(m.cons, p);
      var ev := RangeMultEvidence(row.mult, t.forms, t.pins, t.singles, t.index, selector, p);
      if ev.Some? {
        SentSeedsFollow(row, m, t, granted, selector, p);
        bs := PutAll(bs, RowSeeds(row, p), m, granted, selector, p);
      } else {
        assert SentSeeds(m.rows[..i], t, selector, p) + [] == SentSeeds(m.rows[..i], t, selector, p);
      }
    }
    assert m.rows[..|m.rows|] == m.rows;
  }

  lemma NoSeedsPut()
    ensures PutSeeds(map[], []) == map[]
  {
  }

  /** The seeds of the rows proven sent, in order. */
  ghost function SentSeeds(rows: seq<RangeRow>, t: Tables, selector: Option<string>, p: int): seq<(string, Bound)>
    requires p > 1
  {
    if rows == [] then []
    else
      var n := |rows| - 1;
      SentSeeds(rows[..n], t, selector, p)
      + (if ScanEvidence(rows[n].mult, t.forms, t.pins, t.singles, selector, p).Some? then RowSeeds(rows[n], p) else [])
  }

  /** The seeds of the constraints, in order. */
  ghost function ConstraintSeedsOf(cons: seq<Expr>, p: int): seq<(string, Bound)>
    requires p > 1
  {
    if cons == [] then []
    else
      var n := |cons| - 1;
      ConstraintSeedsOf(cons[..n], p) + (if s :| IsSeed(cons[n], p, s) then [s] else [])
  }

  /** All seeds in the order in which they are put: sent rows, granted bounds, constraints. */
  ghost function AllSeeds(m: Machine, t: Tables, granted: seq<(string, Bound)>, selector: Option<string>, p: int): seq<(string, Bound)>
    requires p > 1
  {
    SentSeeds(m.rows, t, selector, p) + granted + ConstraintSeedsOf(m.cons, p)
  }

  /** A seed of a row proven sent. */
  ghost predicate SeedOfRow(row: RangeRow, t: Tables, selector: Option<string>, p: int, s: (string, Bound))
    requires p > 1
  {
    ScanEvidence(row.mult, t.forms, t.pins, t.singles, selector, p).Some? && s in RowSeeds(row, p)
  }

  lemma NothingSound(m: Machine, granted: seq<(string, Bound)>, selector: Option<string>, p: int)
    requires p > 0
    ensures SoundBounds(map[], m, granted, selector, p)
  {
  }

  lemma ParsedCanonical(cons: seq<Expr>, p: int)
    requires p > 0
    ensures Canonical(ParseAll(cons, p), p)
  {
    forall i | 0 <= i < |cons| && ParseAll(cons, p)[i].Some? ensures CanonicalForm(ParseAll(cons, p)[i].value, p) {
      ParseLinCanonical(cons[i], p);
    }
  }

  lemma SentSeedsFollow(row: RangeRow, m: Machine, t: Tables, granted: seq<(string, Bound)>, selector: Option<string>, p: int)
    requires Prime(p) && TablesOf(t, m.cons, p) && row in m.rows
    requires ScanEvidence(row.mult, t.forms, t.pins, t.singles, selector, p).Some?
    ensures forall s :: s in RowSeeds(row, p) ==> SaneBound(s.1) && Follows(m, granted, selector, p, s.0, s.1)
  {
    hide ScanEvidence, RowSeeds, RowChecked, TablesOf;
    forall s | s in RowSeeds(row, p) ensures SaneBound(s.1) && Follows(m, granted, selector, p, s.0, s.1) {
      RowSeedsSane(row, p, s);
      forall env | IsModel(m, selector, p, env) && GrantedHold(granted, env) ensures Within(s.1, env.cols(s.0)) {
        ProvenSent(row, m, t, selector, p, env);
        RowSeedsSound(row, p, s, env);
      }
    }
  }

  method ConstraintSeeds(before: Bounds, m: Machine, ghost granted: seq<(string, Bound)>, ghost selector: Option<string>, p: int)
    returns (bs: Bounds)
    requires Prime(p) && SoundBounds(before, m, granted, selector, p)
    ensures SoundBounds(bs, m, granted, selector, p) && Tighter(bs, before) && bs == PutSeeds(before, ConstraintSeedsOf(m.cons, p))
    ensures forall con, s :: con in m.cons && IsSeed(con, p, s) ==> Covers(bs, s.0, s.1)
  {
    hide SoundBounds, Put, IsSeed;
    bs := before;
    for i := 0 to |m.cons|
      invariant SoundBounds(bs, m, granted, selector, p) && Tighter(bs, before)
      invariant forall j, s :: 0 <= j < i && IsSeed(m.cons[j], p, s) ==> Covers(bs, s.0, s.1)
      invariant bs == PutSeeds(before, ConstraintSeedsOf(m.cons[..i], p))
    {
      var seed := ConstraintSeed(m.cons[i], p);
      ConstraintSeedsSnoc(m.cons, i, p, seed);
      if seed.Some? {
        var (x, b) := seed.value;
        PutSnoc(before, ConstraintSeedsOf(m.cons[..i], p), seed.value);
        assert m.cons[i] in m.cons;
        assert Follows(m, granted, selector, p, x, b);
        PutSound(bs, x, b, m, granted, selector, p);
        bs := Put(bs, x, b);
      } else {
        assert ConstraintSeedsOf(m.cons[..i], p) + [] == ConstraintSeedsOf(m.cons[..i], p);
      }
    }
    assert m.cons[..|m.cons|] == m.cons;
  }

  lemma ConstraintSeedsSnoc(cons: seq<Expr>, i: nat, p: int, seed: Option<(string, Bound)>)
    requires p > 1 && i < |cons| && forall s :: IsSeed(cons[i], p, s) <==> seed == Some(s)
    ensures ConstraintSeedsOf(cons[..i + 1], p) == ConstraintSeedsOf(cons[..i], p) + (if seed.Some? then [seed.value] else [])
  {
    hide IsSeed;
    assert cons[..i + 1][..i] == cons[..i];
    assert seed.Some? ==> IsSeed(cons[i], p, seed.value);
  }

  /** The bound oracle. `granted` lists the bounds read off classified memory rows; they are assumptions. Every
      bound holds in every model in which the granted ones do, and the closure has nothing left to propagate. */
  method ComputeBounds(m: Machine, t: Tables, granted: seq<(string, Bound)>, selector: Option<string>, p: int)
    returns (bs: Bounds)
    requires Prime(p) && TablesOf(t, m.cons, p)
    requires forall s :: s in granted ==> SaneBound(s.1)
    ensures Sane(bs) && Closed(bs, LinksOf(GapsFrom(t.forms, 0)), p)
    ensures forall row, s :: row in m.rows && SeedOfRow(row, t, selector, p, s) ==> Covers(bs, s.0, s.1)
    ensures forall s :: s in granted ==> Covers(bs, s.0, s.1)
    ensures forall con, s :: con in m.cons && IsSeed(con, p, s) ==> Covers(bs, s.0, s.1)
    ensures forall env :: IsModel(m, selector, p, env) && GrantedHold(granted, env) ==> BoundsHold(bs, env)
    ensures var seeds := PutSeeds(map[], AllSeeds(m, t, granted, selector, p));
      && Tighter(bs, seeds) && (Closed(seeds, LinksOf(GapsFrom(t.forms, 0)), p) ==> bs == seeds)
      && exists n: nat :: Sweeps(seeds, bs, LinksOf(GapsFrom(t.forms, 0)), p, n)
  {
    hide IsSeed, SeedOfRow, TablesOf, Closed, SentSeeds, ConstraintSeedsOf, Sweeps;
    PutConcat(map[], SentSeeds(m.rows, t, selector, p), granted);
    PutConcat(map[], SentSeeds(m.rows, t, selector, p) + granted, ConstraintSeedsOf(m.cons, p));
    bs := RangeSeeds(m, t, granted, selector, p);
    bs := PutAll(bs, granted, m, granted, selector, p);
    bs := ConstraintSeeds(bs, m, granted, selector, p);
    var ls := LinksOf(GapsFrom(t.forms, 0));
    forall l, env | l in ls && IsModel(m, selector, p, env) ensures LinkHolds(l, p, env) {
      ModelLinks(m, t, l, selector, p, env);
    }
    bs := Close(bs, ls, m, granted, selector, p);
    forall env | IsModel(m, selector, p, env) && GrantedHold(granted, env) ensures BoundsHold(bs, env) {
      forall x | x in bs ensures Within(bs[x], env.cols(x)) {
        assert Follows(m, granted, selector, p, x, bs[x]);
      }
    }
  }

  lemma ModelLinks(m: Machine, t: Tables, l: Link, selector: Option<string>, p: int, env: Env)
    requires Prime(p) && TablesOf(t, m.cons, p) && l in LinksOf(GapsFrom(t.forms, 0)) && IsModel(m, selector, p, env)
    ensures LinkHolds(l, p, env)
  {
    hide Cong, LinksOf, GapsFrom, ParseAll;
    ParsedVanish(m.cons, p, env);
    forall g | g in GapsFrom(t.forms, 0) ensures GapHolds(g, p, env) {
      GapsHold(t.forms, 0, p, g, env);
    }
    LinksHold(GapsFrom(t.forms, 0), l, p, env);
  }
}
