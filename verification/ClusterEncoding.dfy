/** The open-aliasing encoding of a cluster: formulas, solver and the meaning of what is asserted. */
module ClusterEncoding {
  import opened Wrappers
  import opened MemoryWorlds

  datatype IntVar = Clock | Base(name: string) | Pv(recv: int)
  datatype BoolVar = In(recv: int) | Match(recv: int, send: int) | Out(send: int)

  /** A variable (or nothing) plus a constant. */
  datatype Lin = Lin(v: Option<IntVar>, c: int)

  datatype Formula =
    | Le(a: Lin, b: Lin)
    | Less(a: Lin, b: Lin)
    | Eq(a: Lin, b: Lin)
    | Lit(x: BoolVar)
    | Not(f: Formula)
    | And(f: Formula, g: Formula)
    | Implies(f: Formula, g: Formula)
    | Iff(f: Formula, g: Formula)
    | AnyOf(xs: seq<BoolVar>)
    | AtMostOne(xs: seq<BoolVar>)
    | AtLeastOne(xs: seq<BoolVar>)
    | SameCount(xs: seq<BoolVar>, ys: seq<BoolVar>)

  datatype Valuation = Valuation(ints: map<IntVar, int>, trues: set<BoolVar>)

  function IntOf(v: Valuation, x: IntVar): int {
    if x in v.ints then v.ints[x] else 0
  }

  function LinOf(v: Valuation, l: Lin): int {
    (if l.v.Some? then IntOf(v, l.v.value) else 0) + l.c
  }

  function Count(xs: seq<BoolVar>, v: Valuation): (n: nat)
    ensures n <= |xs|
  {
    if xs == [] then 0
    else Count(xs[..|xs| - 1], v) + (if xs[|xs| - 1] in v.trues then 1 else 0)
  }

  predicate Holds(f: Formula, v: Valuation) {
    match f
    case Le(a, b) => LinOf(v, a) <= LinOf(v, b)
    case Less(a, b) => LinOf(v, a) < LinOf(v, b)
    case Eq(a, b) => LinOf(v, a) == LinOf(v, b)
    case Lit(x) => x in v.trues
    case Not(g) => !Holds(g, v)
    case And(g, h) => Holds(g, v) && Holds(h, v)
    case Implies(g, h) => Holds(g, v) ==> Holds(h, v)
    case Iff(g, h) => Holds(g, v) <==> Holds(h, v)
    case AnyOf(xs) => Count(xs, v) >= 1
    case AtMostOne(xs) => Count(xs, v) <= 1
    case AtLeastOne(xs) => Count(xs, v) >= 1
    case SameCount(xs, ys) => Count(xs, v) == Count(ys, v)
  }

  ghost predicate Sat(fs: seq<Formula>, v: Valuation) {
    forall i :: 0 <= i < |fs| ==> Holds(fs[i], v)
  }

  lemma SatAdd(fs: seq<Formula>, f: Formula, v: Valuation)
    ensures Sat(fs + [f], v) <==> Sat(fs, v) && Holds(f, v)
  {
    var all := fs + [f];
    assert forall i :: 0 <= i < |fs| ==> all[i] == fs[i];
    assert all[|fs|] == f;
  }

  // ---- The solver: an oracle over the asserted formulas ----

  datatype Answer = SatAnswer | UnsatAnswer | UnknownAnswer

  /** An arbitrary solver: the answer may depend on how often it was called, `unsat` is only given
      when no valuation satisfies the assertions and `sat` only when one does. */
  ghost predicate SoundOracle(oracle: (nat, seq<Formula>) -> Answer) {
    forall n, fs :: (oracle(n, fs).UnsatAnswer? ==> forall v :: !Sat(fs, v))
                    && (oracle(n, fs).SatAnswer? ==> exists v :: Sat(fs, v))
  }

  /** A solver that always decides. */
  ghost predicate Decisive(oracle: (nat, seq<Formula>) -> Answer) {
    forall n, fs :: !oracle(n, fs).UnknownAnswer?
  }

  class Solver {
    const oracle: (nat, seq<Formula>) -> Answer
    var calls: nat
    var assertions: seq<Formula>
    var marks: seq<nat>

    ghost predicate Valid()
      reads this
    {
      SoundOracle(oracle) && forall i :: 0 <= i < |marks| ==> marks[i] <= |assertions|
    }

    constructor (oracle: (nat, seq<Formula>) -> Answer, calls: nat)
      requires SoundOracle(oracle)
      ensures Valid() && assertions == [] && marks == [] && this.oracle == oracle
    {
      this.oracle := oracle;
      this.calls, assertions, marks := calls, [], [];
    }

    method Add(f: Formula)
      requires Valid()
      modifies this
      ensures Valid() && assertions == old(assertions) + [f] && marks == old(marks)
    {
      assertions := assertions + [f];
    }

    method Push()
      requires Valid()
      modifies this
      ensures Valid() && assertions == old(assertions) && marks == old(marks) + [|assertions|]
    {
      marks := marks + [|assertions|];
    }

    method Pop()
      requires Valid() && marks != []
      requires forall i :: 0 <= i < |marks| - 1 ==> marks[i] <= marks[|marks| - 1]
      modifies this
      ensures Valid() && marks == old(marks)[..|old(marks)| - 1]
      ensures assertions == old(assertions)[..old(marks)[|old(marks)| - 1]]
    {
      assertions := assertions[..marks[|marks| - 1]];
      marks := marks[..|marks| - 1];
    }

    method Check() returns (a: Answer)
      requires Valid()
      modifies this
      ensures Valid() && assertions == old(assertions) && marks == old(marks)
      ensures a.UnsatAnswer? ==> forall v :: !Sat(assertions, v)
      ensures a.SatAnswer? ==> exists v :: Sat(assertions, v)
      ensures Decisive(oracle) ==> !a.UnknownAnswer?
    {
      a := oracle(calls, assertions);
      calls := calls + 1;
    }
  }

  /** The literal of a claim. */
  function LitOf(claim: Claim): BoolVar {
    match claim
    case EdgeClaim(r, s) => Match(r, s)
    case InputClaim(r) => In(r)
    case OutputClaim(s) => Out(s)
  }

  // ---- What the encoding says about a valuation ----

  predicate CouldAlias(uncertain: map<int, set<int>>, g1: int, g2: int) {
    g1 == g2 || (g1 in uncertain && g2 in uncertain[g1])
  }

  function PtrLin(row: EngineRow): Lin {
    match row.base
    case None => Lin(None, row.offset)
    case Some(b) => Lin(Some(Base(b)), row.offset)
  }

  /** A match variable exists: the send is early enough and the groups may share a cell. */
  predicate Admits(uncertain: map<int, set<int>>, r: Member, s: Member) {
    s.row.time <= r.row.time && CouldAlias(uncertain, r.group, s.group)
  }

  function Options(uncertain: map<int, set<int>>, sends: seq<Member>, r: Member): seq<BoolVar> {
    if sends == [] then [In(r.row.ord)]
    else
      var n := |sends| - 1;
      Options(uncertain, sends[..n], r) + (if Admits(uncertain, r, sends[n]) then [Match(r.row.ord, sends[n].row.ord)] else [])
  }

  function Readers(uncertain: map<int, set<int>>, recvs: seq<Member>, s: Member): seq<BoolVar> {
    if recvs == [] then []
    else
      var n := |recvs| - 1;
      Readers(uncertain, recvs[..n], s) + (if Admits(uncertain, recvs[n], s) then [Match(recvs[n].row.ord, s.row.ord)] else [])
  }

  ghost predicate MatchHolds(r: Member, s: Member, v: Valuation) {
    Match(r.row.ord, s.row.ord) in v.trues ==>
      && IntOf(v, Pv(r.row.ord)) == IntOf(v, Clock) + s.row.time
      && (r.group != s.group ==> LinOf(v, PtrLin(r.row)) == LinOf(v, PtrLin(s.row)))
  }

  ghost predicate WitnessHolds(r: Member, v: Valuation) {
    && IntOf(v, Pv(r.row.ord)) <= IntOf(v, Clock) + r.row.time
    && (In(r.row.ord) in v.trues ==> IntOf(v, Pv(r.row.ord)) < IntOf(v, Clock))
  }

  ghost predicate RecvHolds(uncertain: map<int, set<int>>, sends: seq<Member>, r: Member, v: Valuation) {
    && WitnessHolds(r, v)
    && (forall j :: 0 <= j < |sends| ==> Admits(uncertain, r, sends[j]) ==> MatchHolds(r, sends[j], v))
    && Count(Options(uncertain, sends, r), v) == 1
  }

  ghost predicate SendHolds(uncertain: map<int, set<int>>, recvs: seq<Member>, s: Member, v: Valuation) {
    && Count(Readers(uncertain, recvs, s), v) <= 1
    && (Out(s.row.ord) in v.trues <==> Count(Readers(uncertain, recvs, s), v) == 0)
  }

  function Boundary(a: Member): BoolVar {
    if a.row.kind.Recv? then In(a.row.ord) else Out(a.row.ord)
  }

  /** Two inputs (or two outputs) never share a pointer. */
  ghost predicate PairHolds(uncertain: map<int, set<int>>, a: Member, b: Member, v: Valuation) {
    CouldAlias(uncertain, a.group, b.group) && Boundary(a) in v.trues && Boundary(b) in v.trues ==>
      a.group != b.group && LinOf(v, PtrLin(a.row)) != LinOf(v, PtrLin(b.row))
  }

  function Boundaries(rows: seq<Member>): seq<BoolVar> {
    seq(|rows|, i requires 0 <= i < |rows| => Boundary(rows[i]))
  }

  ghost predicate PairsHold(uncertain: map<int, set<int>>, rows: seq<Member>, v: Valuation) {
    forall i, j :: 0 <= i < j < |rows| ==> PairHolds(uncertain, rows[i], rows[j], v)
  }

  /** The models of the cluster encoding. */
  ghost predicate ClusterModel(uncertain: map<int, set<int>>, recvs: seq<Member>, sends: seq<Member>, v: Valuation) {
    && (forall i :: 0 <= i < |recvs| ==> RecvHolds(uncertain, sends, recvs[i], v))
    && (forall j :: 0 <= j < |sends| ==> SendHolds(uncertain, recvs, sends[j], v))
    && PairsHold(uncertain, recvs, v)
    && PairsHold(uncertain, sends, v)
    && Count(Boundaries(recvs), v) == Count(Boundaries(sends), v)
  }

  // ---- Building the encoding ----

  /** The constraints of one receive; also extends the reader lists of the sends it may take. */
  method EncodeRecv(s: Solver, uncertain: map<int, set<int>>, sends: seq<Member>, r: Member,
                    earlier: map<int, seq<BoolVar>>) returns (readers: map<int, seq<BoolVar>>)
    requires s.Valid() && s.marks == []
    requires forall j :: 0 <= j < |sends| ==> sends[j].row.ord in earlier
    requires forall i, j :: 0 <= i < j < |sends| ==> sends[i].row.ord != sends[j].row.ord
    modifies s
    ensures s.Valid() && s.marks == []
    ensures forall v :: Sat(s.assertions, v) <==> Sat(old(s.assertions), v) && RecvHolds(uncertain, sends, r, v)
    ensures forall j :: 0 <= j < |sends| ==> (
      && sends[j].row.ord in readers
      && readers[sends[j].row.ord] == earlier[sends[j].row.ord]
           + (if Admits(uncertain, r, sends[j]) then [Match(r.row.ord, sends[j].row.ord)] else []))
  {
    ghost var before := s.assertions;
    var pv, t := Lin(Some(Pv(r.row.ord)), 0), r.row.time;
    s.Add(Le(pv, Lin(Some(Clock), t)));
    s.Add(Implies(Lit(In(r.row.ord)), Less(pv, Lin(Some(Clock), 0))));
    WitnessEncoded(before, r);
    var options := [In(r.row.ord)];
    readers := earlier;
    for j := 0 to |sends|
      invariant s.Valid() && s.marks == []
      invariant options == Options(uncertain, sends[..j], r)
      invariant forall v :: Sat(s.assertions, v) <==> (
        Sat(before, v) && WitnessHolds(r, v)
        && forall l :: 0 <= l < j ==> Admits(uncertain, r, sends[l]) ==> MatchHolds(r, sends[l], v))
      invariant forall l :: 0 <= l < |sends| ==> sends[l].row.ord in readers
      invariant forall l :: 0 <= l < j ==> (
        readers[sends[l].row.ord] == earlier[sends[l].row.ord]
           + (if Admits(uncertain, r, sends[l]) then [Match(r.row.ord, sends[l].row.ord)] else []))
      invariant forall l :: j <= l < |sends| ==> readers[sends[l].row.ord] == earlier[sends[l].row.ord]
    {
      var snd := sends[j];
      assert sends[..j + 1][..j] == sends[..j];
      if Admits(uncertain, r, snd) {
        var mv := Match(r.row.ord, snd.row.ord);
        var stamp := Eq(pv, Lin(Some(Clock), snd.row.time));
        var eqs := if r.group != snd.group then And(stamp, Eq(PtrLin(r.row), PtrLin(snd.row))) else stamp;
        ghost var mid := s.assertions;
        s.Add(Implies(Lit(mv), eqs));
        MatchEncoded(mid, r, snd);
        options := options + [mv];
        readers := readers[snd.row.ord := readers[snd.row.ord] + [mv]];
      }
    }
    assert sends[..|sends|] == sends;
    ghost var mid := s.assertions;
    s.Add(AtMostOne(options));
    s.Add(AtLeastOne(options));
    ExactlyOneEncoded(mid, options);
  }

  lemma WitnessEncoded(before: seq<Formula>, r: Member)
    ensures var pv := Lin(Some(Pv(r.row.ord)), 0);
      forall v :: Sat(before + [Le(pv, Lin(Some(Clock), r.row.time))] + [Implies(Lit(In(r.row.ord)), Less(pv, Lin(Some(Clock), 0)))], v)
                  <==> Sat(before, v) && WitnessHolds(r, v)
  {
    var pv := Lin(Some(Pv(r.row.ord)), 0);
    var f, g := Le(pv, Lin(Some(Clock), r.row.time)), Implies(Lit(In(r.row.ord)), Less(pv, Lin(Some(Clock), 0)));
    forall v ensures Sat(before + [f] + [g], v) <==> Sat(before, v) && WitnessHolds(r, v) {
      SatAdd(before, f, v);
      SatAdd(before + [f], g, v);
      assert Holds(Lit(In(r.row.ord)), v) <==> In(r.row.ord) in v.trues;
    }
  }

  function MatchFormula(r: Member, s: Member): Formula {
    var stamp := Eq(Lin(Some(Pv(r.row.ord)), 0), Lin(Some(Clock), s.row.time));
    Implies(Lit(Match(r.row.ord, s.row.ord)), if r.group != s.group then And(stamp, Eq(PtrLin(r.row), PtrLin(s.row))) else stamp)
  }

  lemma MatchFormulaMeans(r: Member, s: Member, v: Valuation)
    ensures Holds(MatchFormula(r, s), v) <==> MatchHolds(r, s, v)
  {
    var stamp := Eq(Lin(Some(Pv(r.row.ord)), 0), Lin(Some(Clock), s.row.time));
    var same := Eq(PtrLin(r.row), PtrLin(s.row));
    assert Holds(stamp, v) <==> IntOf(v, Pv(r.row.ord)) == IntOf(v, Clock) + s.row.time;
    assert Holds(And(stamp, same), v) <==> Holds(stamp, v) && Holds(same, v);
    assert Holds(Lit(Match(r.row.ord, s.row.ord)), v) <==> Match(r.row.ord, s.row.ord) in v.trues;
  }

  lemma MatchEncoded(before: seq<Formula>, r: Member, s: Member)
    ensures forall v :: Sat(before + [MatchFormula(r, s)], v) <==> Sat(before, v) && MatchHolds(r, s, v)
  {
    forall v ensures Sat(before + [MatchFormula(r, s)], v) <==> Sat(before, v) && MatchHolds(r, s, v) {
      SatAdd(before, MatchFormula(r, s), v);
      MatchFormulaMeans(r, s, v);
    }
  }

  lemma ExactlyOneEncoded(before: seq<Formula>, xs: seq<BoolVar>)
    ensures forall v :: Sat(before + [AtMostOne(xs)] + [AtLeastOne(xs)], v) <==> Sat(before, v) && Count(xs, v) == 1
  {
    forall v ensures Sat(before + [AtMostOne(xs)] + [AtLeastOne(xs)], v) <==> Sat(before, v) && Count(xs, v) == 1 {
      SatAdd(before, AtMostOne(xs), v);
      SatAdd(before + [AtMostOne(xs)], AtLeastOne(xs), v);
    }
  }

  /** The constraints of one send, given the match variables that may read it. */
  method EncodeSend(s: Solver, rd: seq<BoolVar>, snd: Member)
    requires s.Valid() && s.marks == []
    modifies s
    ensures s.Valid() && s.marks == []
    ensures forall v :: Sat(s.assertions, v) <==> (
      Sat(old(s.assertions), v) && Count(rd, v) <= 1 && (Out(snd.row.ord) in v.trues <==> Count(rd, v) == 0))
  {
    ghost var before := s.assertions;
    if rd != [] {
      s.Add(AtMostOne(rd));
    }
    ghost var mid := s.assertions;
    var f := Iff(Lit(Out(snd.row.ord)), Not(AnyOf(rd)));
    s.Add(f);
    forall v ensures Sat(s.assertions, v) <==>
      Sat(before, v) && Count(rd, v) <= 1 && (Out(snd.row.ord) in v.trues <==> Count(rd, v) == 0)
    {
      SatAdd(before, AtMostOne(rd), v);
      SatAdd(mid, f, v);
      assert Holds(Not(AnyOf(rd)), v) <==> Count(rd, v) == 0;
      assert Holds(f, v) <==> (Holds(Lit(Out(snd.row.ord)), v) <==> Holds(Not(AnyOf(rd)), v));
    }
  }

  function PairFormula(a: Member, b: Member): Formula {
    var both := And(Lit(Boundary(a)), Lit(Boundary(b)));
    if a.group == b.group then Not(both) else Implies(both, Not(Eq(PtrLin(a.row), PtrLin(b.row))))
  }

  lemma PairFormulaMeans(uncertain: map<int, set<int>>, a: Member, b: Member, v: Valuation)
    requires CouldAlias(uncertain, a.group, b.group)
    ensures Holds(PairFormula(a, b), v) <==> PairHolds(uncertain, a, b, v)
  {
    var both := And(Lit(Boundary(a)), Lit(Boundary(b)));
    var same := Eq(PtrLin(a.row), PtrLin(b.row));
    assert Holds(Lit(Boundary(a)), v) && Holds(Lit(Boundary(b)), v) <==> Holds(both, v);
    assert Holds(Not(same), v) <==> !Holds(same, v);
  }

  lemma PairEncoded(before: seq<Formula>, uncertain: map<int, set<int>>, a: Member, b: Member)
    requires CouldAlias(uncertain, a.group, b.group)
    ensures forall v :: Sat(before + [PairFormula(a, b)], v) <==> Sat(before, v) && PairHolds(uncertain, a, b, v)
  {
    forall v ensures Sat(before + [PairFormula(a, b)], v) <==> Sat(before, v) && PairHolds(uncertain, a, b, v) {
      SatAdd(before, PairFormula(a, b), v);
      PairFormulaMeans(uncertain, a, b, v);
    }
  }

  /** One entry record and one exit record per cell. */
  method EncodePairs(s: Solver, uncertain: map<int, set<int>>, rows: seq<Member>)
    requires s.Valid() && s.marks == []
    modifies s
    ensures s.Valid() && s.marks == []
    ensures forall v :: Sat(s.assertions, v) <==> Sat(old(s.assertions), v) && PairsHold(uncertain, rows, v)
  {
    ghost var before := s.assertions;
    for i := 0 to |rows|
      invariant s.Valid() && s.marks == []
      invariant forall v :: Sat(s.assertions, v) <==> Sat(before, v) && PairsFrom(uncertain, rows, i, |rows|, v)
    {
      for j := i + 1 to |rows|
        invariant s.Valid() && s.marks == []
        invariant forall v :: Sat(s.assertions, v) <==> (
          Sat(before, v) && PairsFrom(uncertain, rows, i, |rows|, v)
          && forall l :: i < l < j ==> PairHolds(uncertain, rows[i], rows[l], v))
      {
        if CouldAlias(uncertain, rows[i].group, rows[j].group) {
          ghost var mid := s.assertions;
          s.Add(PairFormula(rows[i], rows[j]));
          PairEncoded(mid, uncertain, rows[i], rows[j]);
        }
      }
      forall v ensures PairsFrom(uncertain, rows, i + 1, |rows|, v) <==>
        PairsFrom(uncertain, rows, i, |rows|, v) && forall l :: i < l < |rows| ==> PairHolds(uncertain, rows[i], rows[l], v) {
      }
    }
    forall v ensures PairsFrom(uncertain, rows, |rows|, |rows|, v) <==> PairsHold(uncertain, rows, v) {
    }
  }

  ghost predicate PairsFrom(uncertain: map<int, set<int>>, rows: seq<Member>, n: nat, m: nat, v: Valuation)
    requires n <= |rows| && m <= |rows|
  {
    forall i, j :: 0 <= i < n && i < j < m ==> PairHolds(uncertain, rows[i], rows[j], v)
  }

  /** Receives (or sends) of a cluster, in order. */
  function OfKind(cluster: seq<Member>, kind: Kind): (rows: seq<Member>)
    ensures forall a :: a in rows <==> a in cluster && a.row.kind == kind
  {
    if cluster == [] then []
    else
      var n := |cluster| - 1;
      assert cluster == cluster[..n] + [cluster[n]];
      OfKind(cluster[..n], kind) + (if cluster[n].row.kind == kind then [cluster[n]] else [])
  }

  ghost predicate DistinctRows(rows: seq<Member>) {
    forall i, j :: 0 <= i < j < |rows| ==> rows[i].row.ord != rows[j].row.ord
  }

  lemma {:induction false} OfKindDistinct(cluster: seq<Member>, kind: Kind)
    requires DistinctRows(cluster)
    ensures DistinctRows(OfKind(cluster, kind))
  {
    if cluster != [] {
      var n := |cluster| - 1;
      OfKindDistinct(cluster[..n], kind);
      var rest := OfKind(cluster[..n], kind);
      forall i | 0 <= i < |rest| ensures rest[i].row.ord != cluster[n].row.ord {
        assert rest[i] in cluster[..n];
      }
    }
  }

  ghost predicate RecvsHold(uncertain: map<int, set<int>>, sends: seq<Member>, recvs: seq<Member>, n: nat, v: Valuation)
    requires n <= |recvs|
  {
    forall i :: 0 <= i < n ==> RecvHolds(uncertain, sends, recvs[i], v)
  }

  ghost predicate SendsHold(uncertain: map<int, set<int>>, recvs: seq<Member>, sends: seq<Member>, n: nat, v: Valuation)
    requires n <= |sends|
  {
    forall j :: 0 <= j < n ==> SendHolds(uncertain, recvs, sends[j], v)
  }

  function RowOrds(rows: seq<Member>): set<int> {
    set j | 0 <= j < |rows| :: rows[j].row.ord
  }

  ghost predicate ReadersKnown(uncertain: map<int, set<int>>, recvs: seq<Member>, sends: seq<Member>,
                               readers: map<int, seq<BoolVar>>) {
    forall j :: 0 <= j < |sends| ==>
      sends[j].row.ord in readers && readers[sends[j].row.ord] == Readers(uncertain, recvs, sends[j])
  }

  lemma ReadersStep(uncertain: map<int, set<int>>, recvs: seq<Member>, i: nat, sends: seq<Member>,
                    earlier: map<int, seq<BoolVar>>, readers: map<int, seq<BoolVar>>)
    requires i < |recvs| && ReadersKnown(uncertain, recvs[..i], sends, earlier)
    requires forall j :: 0 <= j < |sends| ==> (
      && sends[j].row.ord in readers
      && readers[sends[j].row.ord] == earlier[sends[j].row.ord]
           + (if Admits(uncertain, recvs[i], sends[j]) then [Match(recvs[i].row.ord, sends[j].row.ord)] else []))
    ensures ReadersKnown(uncertain, recvs[..i + 1], sends, readers)
  {
    assert recvs[..i + 1][..i] == recvs[..i];
    forall j | 0 <= j < |sends| ensures readers[sends[j].row.ord] == Readers(uncertain, recvs[..i + 1], sends[j]) {
      assert earlier[sends[j].row.ord] == Readers(uncertain, recvs[..i], sends[j]);
    }
  }

  method EncodeRecvs(s: Solver, uncertain: map<int, set<int>>, recvs: seq<Member>, sends: seq<Member>)
    returns (readers: map<int, seq<BoolVar>>)
    requires s.Valid() && s.marks == [] && s.assertions == []
    requires DistinctRows(sends)
    modifies s
    ensures s.Valid() && s.marks == []
    ensures ReadersKnown(uncertain, recvs, sends, readers)
    ensures forall v :: Sat(s.assertions, v) <==> RecvsHold(uncertain, sends, recvs, |recvs|, v)
  {
    readers := map o | o in RowOrds(sends) :: [];
    for i := 0 to |recvs|
      invariant s.Valid() && s.marks == []
      invariant ReadersKnown(uncertain, recvs[..i], sends, readers)
      invariant forall v :: Sat(s.assertions, v) <==> RecvsHold(uncertain, sends, recvs, i, v)
    {
      ghost var before, earlier := s.assertions, readers;
      readers := EncodeRecv(s, uncertain, sends, recvs[i], readers);
      ReadersStep(uncertain, recvs, i, sends, earlier, readers);
      forall v ensures Sat(s.assertions, v) <==> RecvsHold(uncertain, sends, recvs, i + 1, v) {
        assert Sat(s.assertions, v) <==> Sat(before, v) && RecvHolds(uncertain, sends, recvs[i], v);
      }
    }
    assert recvs[..|recvs|] == recvs;
  }

  method EncodeSends(s: Solver, uncertain: map<int, set<int>>, recvs: seq<Member>, sends: seq<Member>,
                     readers: map<int, seq<BoolVar>>)
    requires s.Valid() && s.marks == []
    requires ReadersKnown(uncertain, recvs, sends, readers)
    modifies s
    ensures s.Valid() && s.marks == []
    ensures forall v :: Sat(s.assertions, v) <==> Sat(old(s.assertions), v) && SendsHold(uncertain, recvs, sends, |sends|, v)
  {
    ghost var base := s.assertions;
    for j := 0 to |sends|
      invariant s.Valid() && s.marks == []
      invariant forall v :: Sat(s.assertions, v) <==> Sat(base, v) && SendsHold(uncertain, recvs, sends, j, v)
    {
      ghost var before := s.assertions;
      EncodeSend(s, readers[sends[j].row.ord], sends[j]);
      forall v ensures Sat(s.assertions, v) <==> Sat(base, v) && SendsHold(uncertain, recvs, sends, j + 1, v) {
        assert Sat(s.assertions, v) <==> Sat(before, v) && SendHolds(uncertain, recvs, sends[j], v);
      }
    }
  }

  /** Asserts the whole encoding: its models are exactly the cluster models. */
  method Encode(s: Solver, uncertain: map<int, set<int>>, recvs: seq<Member>, sends: seq<Member>)
    requires s.Valid() && s.marks == [] && s.assertions == []
    requires DistinctRows(sends)
    modifies s
    ensures s.Valid() && s.marks == []
    ensures forall v :: Sat(s.assertions, v) <==> ClusterModel(uncertain, recvs, sends, v)
  {
    var readers := EncodeRecvs(s, uncertain, recvs, sends);
    EncodeSends(s, uncertain, recvs, sends, readers);
    EncodePairs(s, uncertain, recvs);
    EncodePairs(s, uncertain, sends);
    ghost var last := s.assertions;
    var f := SameCount(Boundaries(recvs), Boundaries(sends));
    s.Add(f);
    forall v ensures Sat(s.assertions, v) <==> ClusterModel(uncertain, recvs, sends, v) {
      SatAdd(last, f, v);
    }
  }
}
