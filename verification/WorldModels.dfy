/** The models of the encoding of a set of rows are exactly its valid worlds. */
module WorldModels {
  import opened Sets
  import opened CellChain
  import opened MemoryWorlds
  import opened PointerSpread
  import opened ClusterEncoding

  /** Rows that may share a cell are not treated as disjoint by the encoding. */
  ghost predicate AliasComplete(bus: map<int, Member>, uncertain: map<int, set<int>>, cells: map<int, int>) {
    forall x, y :: x in bus && y in bus && CellOf(cells, bus[x]) == CellOf(cells, bus[y]) ==>
      CouldAlias(uncertain, bus[x].group, bus[y].group)
  }

  function IntVars(w: World): set<IntVar> {
    {Clock} + (set n | n in w.bases :: Base(n)) + (set r | r in w.stamp :: Pv(r))
  }

  /** The valuation a world induces on the variables of the encoding. */
  function ValuationOf(recvs: set<int>, sends: set<int>, w: World): Valuation {
    Valuation(
      map x | x in IntVars(w) ::
        match x
        case Clock => w.clock
        case Base(n) => (if n in w.bases then w.bases[n] else 0)
        case Pv(r) => (if r in w.stamp then w.stamp[r] else 0),
      (set r | r in recvs && r !in w.src :: In(r))
      + (set r | r in w.src :: Match(r, w.src[r]))
      + (set s | s in sends && s !in w.src.Values :: Out(s)))
  }

  /** `v` reads the clock, pointers, witnesses and routing off the world. */
  ghost predicate Realizes(v: Valuation, bus: map<int, Member>, w: World) {
    && IntOf(v, Clock) == w.clock
    && (forall r :: r in w.stamp ==> IntOf(v, Pv(r)) == w.stamp[r])
    && (forall o :: o in bus ==> LinOf(v, PtrLin(bus[o].row)) == CellOf(w.cells, bus[o]))
    && (forall r :: In(r) in v.trues <==> r in Ords(bus, Recv) && r !in w.src)
    && (forall s :: Out(s) in v.trues <==> s in Ords(bus, Send) && s !in w.src.Values)
    && (forall r, s :: Match(r, s) in v.trues <==> r in w.src && w.src[r] == s)
  }

  lemma ValuationRealizes(bus: map<int, Member>, w: World)
    requires Expressed(bus, w)
    ensures Realizes(ValuationOf(Ords(bus, Recv), Ords(bus, Send), w), bus, w)
  {
    var v := ValuationOf(Ords(bus, Recv), Ords(bus, Send), w);
    assert Clock in IntVars(w);
    forall r | r in w.stamp ensures IntOf(v, Pv(r)) == w.stamp[r] {
      assert Pv(r) in IntVars(w);
    }
    forall o | o in bus ensures LinOf(v, PtrLin(bus[o].row)) == CellOf(w.cells, bus[o]) {
      var row := bus[o].row;
      if row.base.Some? {
        assert row.base.value in w.bases <==> Base(row.base.value) in IntVars(w);
      }
    }
  }

  // ---- Counting literals ----

  /** Receive `r` may and does take send `s`. */
  predicate Takes(v: Valuation, uncertain: map<int, set<int>>, r: Member, s: Member) {
    Admits(uncertain, r, s) && Match(r.row.ord, s.row.ord) in v.trues
  }

  ghost predicate TakesSome(v: Valuation, uncertain: map<int, set<int>>, sends: seq<Member>, r: Member) {
    exists j :: 0 <= j < |sends| && Takes(v, uncertain, r, sends[j])
  }

  ghost predicate TakenBySome(v: Valuation, uncertain: map<int, set<int>>, recvs: seq<Member>, s: Member) {
    exists j :: 0 <= j < |recvs| && Takes(v, uncertain, recvs[j], s)
  }

  lemma {:induction false} CountOptions(v: Valuation, uncertain: map<int, set<int>>, sends: seq<Member>, r: Member)
    requires forall i, j :: 0 <= i < j < |sends| ==> !(Takes(v, uncertain, r, sends[i]) && Takes(v, uncertain, r, sends[j]))
    ensures Count(Options(uncertain, sends, r), v) ==
      (if In(r.row.ord) in v.trues then 1 else 0) + (if TakesSome(v, uncertain, sends, r) then 1 else 0)
  {
    if sends == [] {
      CountSnoc([], In(r.row.ord), v);
      assert [In(r.row.ord)] == [] + [In(r.row.ord)];
    } else {
      var n := |sends| - 1;
      var front := sends[..n];
      assert forall j :: 0 <= j < n ==> front[j] == sends[j];
      CountOptions(v, uncertain, front, r);
      CountSnoc(Options(uncertain, front, r), Match(r.row.ord, sends[n].row.ord), v);
      assert TakesSome(v, uncertain, sends, r) <==> TakesSome(v, uncertain, front, r) || Takes(v, uncertain, r, sends[n]) by {
        if TakesSome(v, uncertain, front, r) {
          var j :| 0 <= j < n && Takes(v, uncertain, r, front[j]);
          assert Takes(v, uncertain, r, sends[j]);
        }
      }
      var opts := Options(uncertain, front, r);
      assert opts + [] == opts;
      assert !(TakesSome(v, uncertain, front, r) && Takes(v, uncertain, r, sends[n]));
    }
  }

  lemma CountSnoc(xs: seq<BoolVar>, x: BoolVar, v: Valuation)
    ensures Count(xs + [x], v) == Count(xs, v) + (if x in v.trues then 1 else 0)
  {
    assert (xs + [x])[..|xs|] == xs;
  }

  lemma {:induction false} CountReaders(v: Valuation, uncertain: map<int, set<int>>, recvs: seq<Member>, s: Member)
    requires forall i, j :: 0 <= i < j < |recvs| ==> !(Takes(v, uncertain, recvs[i], s) && Takes(v, uncertain, recvs[j], s))
    ensures Count(Readers(uncertain, recvs, s), v) == if TakenBySome(v, uncertain, recvs, s) then 1 else 0
  {
    if recvs != [] {
      var n := |recvs| - 1;
      var front := recvs[..n];
      assert forall j :: 0 <= j < n ==> front[j] == recvs[j];
      CountReaders(v, uncertain, front, s);
      CountSnoc(Readers(uncertain, front, s), Match(recvs[n].row.ord, s.row.ord), v);
      assert TakenBySome(v, uncertain, recvs, s) <==> TakenBySome(v, uncertain, front, s) || Takes(v, uncertain, recvs[n], s) by {
        if TakenBySome(v, uncertain, front, s) {
          var j :| 0 <= j < n && Takes(v, uncertain, front[j], s);
          assert Takes(v, uncertain, recvs[j], s);
        }
      }
      var rd := Readers(uncertain, front, s);
      assert rd + [] == rd;
      assert !(TakenBySome(v, uncertain, front, s) && Takes(v, uncertain, recvs[n], s));
    }
  }

  ghost function TrueBoundaries(rows: seq<Member>, v: Valuation): set<int> {
    set i | 0 <= i < |rows| && Boundary(rows[i]) in v.trues :: rows[i].row.ord
  }

  lemma {:induction false} CountBoundaries(rows: seq<Member>, v: Valuation)
    requires DistinctRows(rows)
    ensures Count(Boundaries(rows), v) == |TrueBoundaries(rows, v)|
  {
    if rows != [] {
      var n := |rows| - 1;
      CountBoundaries(rows[..n], v);
      assert Boundaries(rows) == Boundaries(rows[..n]) + [Boundary(rows[n])];
      CountSnoc(Boundaries(rows[..n]), Boundary(rows[n]), v);
      var before := TrueBoundaries(rows[..n], v);
      assert forall i :: 0 <= i < n ==> rows[..n][i] == rows[i];
      assert rows[n].row.ord !in before;
      if Boundary(rows[n]) in v.trues {
        assert TrueBoundaries(rows, v) == before + {rows[n].row.ord};
      } else {
        assert TrueBoundaries(rows, v) == before;
      }
    }
  }

  // ---- The main step ----

  /** `rows` lists the rows of one kind of `bus`, each once. */
  ghost predicate Lists(bus: map<int, Member>, kind: Kind, rows: seq<Member>) {
    && DistinctRows(rows)
    && (forall i :: 0 <= i < |rows| ==> rows[i].row.ord in Ords(bus, kind) && bus[rows[i].row.ord] == rows[i])
    && (forall o :: o in Ords(bus, kind) ==> exists i :: 0 <= i < |rows| && rows[i].row.ord == o)
  }

  lemma WorldRecv(bus: map<int, Member>, uncertain: map<int, set<int>>, sends: seq<Member>, w: World, v: Valuation, r: int)
    requires Realizes(v, bus, w) && Indexed(bus) && Lists(bus, Send, sends)
    requires ReadsWell(bus, w) && WitnessesBounded(bus, w) && AliasComplete(bus, uncertain, w.cells)
    requires r in Ords(bus, Recv)
    ensures RecvHolds(uncertain, sends, bus[r], v)
  {
    forall j | 0 <= j < |sends| ensures MatchHolds(bus[r], sends[j], v) {
      WorldMatch(bus, w, v, r, sends[j].row.ord);
    }
    WorldTakes(bus, uncertain, sends, w, v, r);
  }

  lemma WorldMatch(bus: map<int, Member>, w: World, v: Valuation, r: int, s: int)
    requires Realizes(v, bus, w) && ReadsWell(bus, w) && Indexed(bus)
    requires r in bus && s in bus
    ensures MatchHolds(bus[r], bus[s], v)
  {
  }

  lemma WorldTakes(bus: map<int, Member>, uncertain: map<int, set<int>>, sends: seq<Member>, w: World, v: Valuation, r: int)
    requires Realizes(v, bus, w) && Indexed(bus) && Lists(bus, Send, sends)
    requires ReadsWell(bus, w) && WitnessesBounded(bus, w) && AliasComplete(bus, uncertain, w.cells)
    requires r in Ords(bus, Recv)
    ensures Count(Options(uncertain, sends, bus[r]), v) == 1
  {
    var a := bus[r];
    forall i, j | 0 <= i < j < |sends| ensures !(Takes(v, uncertain, a, sends[i]) && Takes(v, uncertain, a, sends[j])) {
      assert sends[i].row.ord != sends[j].row.ord;
    }
    CountOptions(v, uncertain, sends, a);
    if r in w.src {
      ReadSend(bus, uncertain, w, r);
      var s := w.src[r];
      assert s in Ords(bus, Send);
      var j :| 0 <= j < |sends| && sends[j].row.ord == s;
      assert Takes(v, uncertain, a, sends[j]);
    }
  }

  /** The encoding lets a receive take the send it reads. */
  lemma ReadSend(bus: map<int, Member>, uncertain: map<int, set<int>>, w: World, r: int)
    requires ReadsWell(bus, w) && WitnessesBounded(bus, w) && AliasComplete(bus, uncertain, w.cells)
    requires r in w.src
    ensures r in Ords(bus, Recv) && w.src[r] in Ords(bus, Send) && Admits(uncertain, bus[r], bus[w.src[r]])
  {
    ValueOf(w.src, r);
    var s := w.src[r];
    assert r in w.src.Keys && s in bus;
    assert CouldAlias(uncertain, bus[r].group, bus[s].group);
  }

  lemma WorldSend(bus: map<int, Member>, uncertain: map<int, set<int>>, recvs: seq<Member>, w: World, v: Valuation, s: int)
    requires Realizes(v, bus, w) && Indexed(bus) && Lists(bus, Recv, recvs)
    requires ReadsWell(bus, w) && WitnessesBounded(bus, w) && AliasComplete(bus, uncertain, w.cells)
    requires s in Ords(bus, Send)
    ensures SendHolds(uncertain, recvs, bus[s], v)
  {
    WorldTakenIff(bus, uncertain, recvs, w, v, s);
    forall i, l | 0 <= i < l < |recvs| ensures !(Takes(v, uncertain, recvs[i], bus[s]) && Takes(v, uncertain, recvs[l], bus[s])) {
      assert recvs[i].row.ord != recvs[l].row.ord;
    }
    CountReaders(v, uncertain, recvs, bus[s]);
  }

  lemma WorldTakenIff(bus: map<int, Member>, uncertain: map<int, set<int>>, recvs: seq<Member>, w: World, v: Valuation, s: int)
    requires Realizes(v, bus, w) && Indexed(bus) && Lists(bus, Recv, recvs)
    requires ReadsWell(bus, w) && WitnessesBounded(bus, w) && AliasComplete(bus, uncertain, w.cells)
    requires s in Ords(bus, Send)
    ensures TakenBySome(v, uncertain, recvs, bus[s]) <==> s in w.src.Values
  {
    if s in w.src.Values {
      var r := KeyOf(w.src, s);
      ReadSend(bus, uncertain, w, r);
      var i :| 0 <= i < |recvs| && recvs[i].row.ord == r;
      assert Takes(v, uncertain, recvs[i], bus[s]);
    }
    forall i | 0 <= i < |recvs| && Takes(v, uncertain, recvs[i], bus[s]) ensures s in w.src.Values {
      ValueOf(w.src, recvs[i].row.ord);
    }
  }

  lemma WorldPairs(bus: map<int, Member>, uncertain: map<int, set<int>>,
                   rows: seq<Member>, kind: Kind, w: World, v: Valuation)
    requires Realizes(v, bus, w) && Indexed(bus) && Lists(bus, kind, rows)
    requires OneInput(bus, w) && OneOutput(bus, w)
    ensures PairsHold(uncertain, rows, v)
  {
    forall i, j | 0 <= i < j < |rows| ensures PairHolds(uncertain, rows[i], rows[j], v) {
      WorldPair(bus, uncertain, w, v, rows[i].row.ord, rows[j].row.ord);
    }
  }

  lemma WorldPair(bus: map<int, Member>, uncertain: map<int, set<int>>,
                  w: World, v: Valuation, x: int, y: int)
    requires Realizes(v, bus, w) && Indexed(bus)
    requires OneInput(bus, w) && OneOutput(bus, w)
    requires x in bus && y in bus && bus[x].row.kind == bus[y].row.kind && x != y
    ensures PairHolds(uncertain, bus[x], bus[y], v)
  {
  }

  lemma WorldCounts(bus: map<int, Member>, recvs: seq<Member>, sends: seq<Member>, w: World, v: Valuation)
    requires Realizes(v, bus, w) && Indexed(bus) && Lists(bus, Recv, recvs) && Lists(bus, Send, sends)
    requires ReadsWell(bus, w)
    requires |Ords(bus, Recv)| == |Ords(bus, Send)|
    ensures Count(Boundaries(recvs), v) == Count(Boundaries(sends), v)
  {
    BoundaryCount(bus, recvs, Recv, v, w.src.Keys);
    BoundaryCount(bus, sends, Send, v, w.src.Values);
    InjectiveSize(w.src);
  }

  lemma BoundaryCount(bus: map<int, Member>, rows: seq<Member>, kind: Kind, v: Valuation, taken: set<int>)
    requires Indexed(bus) && Lists(bus, kind, rows) && taken <= Ords(bus, kind)
    requires forall o :: o in Ords(bus, kind) ==> (Boundary(bus[o]) in v.trues <==> o !in taken)
    ensures Count(Boundaries(rows), v) == |Ords(bus, kind)| - |taken|
  {
    CountBoundaries(rows, v);
    forall o | o in Ords(bus, kind) - taken ensures o in TrueBoundaries(rows, v) {
      var i :| 0 <= i < |rows| && rows[i].row.ord == o;
      assert Boundary(rows[i]) in v.trues;
    }
    assert TrueBoundaries(rows, v) == Ords(bus, kind) - taken;
    SetMinus(Ords(bus, kind), taken);
  }

  lemma SetMinus<T>(a: set<T>, b: set<T>)
    requires b <= a
    ensures |a - b| == |a| - |b|
  {
    assert a == (a - b) + b;
  }

  /** A valid world with as many receives as sends satisfies the whole encoding of its rows. */
  lemma WorldIsModel(bus: map<int, Member>, uncertain: map<int, set<int>>,
                     recvs: seq<Member>, sends: seq<Member>, w: World)
    requires Indexed(bus) && Lists(bus, Recv, recvs) && Lists(bus, Send, sends)
    requires ValidWorld(bus, w) && Expressed(bus, w) && AliasComplete(bus, uncertain, w.cells)
    requires |Ords(bus, Recv)| == |Ords(bus, Send)|
    ensures ClusterModel(uncertain, recvs, sends, ValuationOf(Ords(bus, Recv), Ords(bus, Send), w))
  {
    var v := ValuationOf(Ords(bus, Recv), Ords(bus, Send), w);
    ValuationRealizes(bus, w);
    forall i | 0 <= i < |recvs| ensures RecvHolds(uncertain, sends, recvs[i], v) {
      WorldRecv(bus, uncertain, sends, w, v, recvs[i].row.ord);
    }
    forall j | 0 <= j < |sends| ensures SendHolds(uncertain, recvs, sends[j], v) {
      WorldSend(bus, uncertain, recvs, w, v, sends[j].row.ord);
    }
    WorldPairs(bus, uncertain, recvs, Recv, w, v);
    WorldPairs(bus, uncertain, sends, Send, w, v);
    WorldCounts(bus, recvs, sends, w, v);
  }

  // ---- Models are worlds ----

  lemma {:induction false} TrueCounts(xs: seq<BoolVar>, v: Valuation, x: BoolVar)
    requires x in xs && x in v.trues
    ensures Count(xs, v) >= 1
  {
    var n := |xs| - 1;
    assert xs == xs[..n] + [xs[n]];
    if xs[n] != x {
      TrueCounts(xs[..n], v, x);
    }
  }

  lemma {:induction false} TwoTrueCount(xs: seq<BoolVar>, v: Valuation, x: BoolVar, y: BoolVar)
    requires x in xs && y in xs && x != y && x in v.trues && y in v.trues
    ensures Count(xs, v) >= 2
  {
    var n := |xs| - 1;
    assert xs == xs[..n] + [xs[n]];
    if xs[n] == x {
      TrueCounts(xs[..n], v, y);
    } else if xs[n] == y {
      TrueCounts(xs[..n], v, x);
    } else {
      TwoTrueCount(xs[..n], v, x, y);
    }
  }

  lemma {:induction false} SomeTrue(xs: seq<BoolVar>, v: Valuation) returns (x: BoolVar)
    requires Count(xs, v) >= 1
    ensures x in xs && x in v.trues
  {
    var n := |xs| - 1;
    if xs[n] in v.trues {
      x := xs[n];
    } else {
      x := SomeTrue(xs[..n], v);
    }
  }

  lemma {:induction false} OptionsHas(uncertain: map<int, set<int>>, sends: seq<Member>, r: Member, x: BoolVar)
    ensures x in Options(uncertain, sends, r) <==>
      x == In(r.row.ord) || exists j :: 0 <= j < |sends| && Admits(uncertain, r, sends[j]) && x == Match(r.row.ord, sends[j].row.ord)
  {
    if sends != [] {
      var n := |sends| - 1;
      OptionsHas(uncertain, sends[..n], r, x);
      if j :| 0 <= j < |sends| && Admits(uncertain, r, sends[j]) && x == Match(r.row.ord, sends[j].row.ord) {
        assert j < n ==> sends[..n][j] == sends[j];
      }
    }
  }

  lemma {:induction false} ReadersHas(uncertain: map<int, set<int>>, recvs: seq<Member>, s: Member, x: BoolVar)
    ensures x in Readers(uncertain, recvs, s) <==>
      exists j :: 0 <= j < |recvs| && Admits(uncertain, recvs[j], s) && x == Match(recvs[j].row.ord, s.row.ord)
  {
    if recvs != [] {
      var n := |recvs| - 1;
      ReadersHas(uncertain, recvs[..n], s, x);
      if j :| 0 <= j < |recvs| && Admits(uncertain, recvs[j], s) && x == Match(recvs[j].row.ord, s.row.ord) {
        assert j < n ==> recvs[..n][j] == recvs[j];
      }
    }
  }

  /** In the model, receive `r` takes send `s`. */
  ghost predicate TakesSend(bus: map<int, Member>, uncertain: map<int, set<int>>, v: Valuation, r: int, s: int) {
    r in Ords(bus, Recv) && s in Ords(bus, Send) && Takes(v, uncertain, bus[r], bus[s])
  }

  lemma OptionOf(bus: map<int, Member>, uncertain: map<int, set<int>>, sends: seq<Member>, v: Valuation, r: int, s: int)
    requires Indexed(bus) && Lists(bus, Send, sends) && TakesSend(bus, uncertain, v, r, s)
    ensures Match(r, s) in Options(uncertain, sends, bus[r]) && Match(r, s) in v.trues
  {
    var j :| 0 <= j < |sends| && sends[j].row.ord == s;
    OptionsHas(uncertain, sends, bus[r], Match(r, s));
  }

  /** A receive is an input or takes exactly one send. */
  lemma ModelRecv(bus: map<int, Member>, uncertain: map<int, set<int>>, sends: seq<Member>, v: Valuation, r: int)
    requires Indexed(bus) && Lists(bus, Send, sends) && r in Ords(bus, Recv) && RecvHolds(uncertain, sends, bus[r], v)
    ensures In(r) in v.trues <==> forall s :: !TakesSend(bus, uncertain, v, r, s)
    ensures forall s, t :: TakesSend(bus, uncertain, v, r, s) && TakesSend(bus, uncertain, v, r, t) ==> s == t
  {
    var opts := Options(uncertain, sends, bus[r]);
    OptionsHas(uncertain, sends, bus[r], In(r));
    forall s, t | TakesSend(bus, uncertain, v, r, s) && TakesSend(bus, uncertain, v, r, t) ensures s == t {
      OptionOf(bus, uncertain, sends, v, r, s);
      OptionOf(bus, uncertain, sends, v, r, t);
      if s != t {
        TwoTrueCount(opts, v, Match(r, s), Match(r, t));
      }
    }
    if s :| In(r) in v.trues && TakesSend(bus, uncertain, v, r, s) {
      OptionOf(bus, uncertain, sends, v, r, s);
      TwoTrueCount(opts, v, In(r), Match(r, s));
    }
    var x := SomeTrue(opts, v);
    OptionsHas(uncertain, sends, bus[r], x);
    if x != In(r) {
      var j :| 0 <= j < |sends| && Admits(uncertain, bus[r], sends[j]) && x == Match(r, sends[j].row.ord);
      assert TakesSend(bus, uncertain, v, r, sends[j].row.ord);
    }
  }

  lemma ReaderOf(bus: map<int, Member>, uncertain: map<int, set<int>>, recvs: seq<Member>, v: Valuation, r: int, s: int)
    requires Indexed(bus) && Lists(bus, Recv, recvs) && TakesSend(bus, uncertain, v, r, s)
    ensures Match(r, s) in Readers(uncertain, recvs, bus[s]) && Match(r, s) in v.trues
  {
    var j :| 0 <= j < |recvs| && recvs[j].row.ord == r;
    ReadersHas(uncertain, recvs, bus[s], Match(r, s));
  }

  /** A send is an output or taken by exactly one receive. */
  lemma ModelSend(bus: map<int, Member>, uncertain: map<int, set<int>>, recvs: seq<Member>, v: Valuation, s: int)
    requires Indexed(bus) && Lists(bus, Recv, recvs) && s in Ords(bus, Send) && SendHolds(uncertain, recvs, bus[s], v)
    ensures Out(s) in v.trues <==> forall r :: !TakesSend(bus, uncertain, v, r, s)
    ensures forall r, t :: TakesSend(bus, uncertain, v, r, s) && TakesSend(bus, uncertain, v, t, s) ==> r == t
  {
    var rd := Readers(uncertain, recvs, bus[s]);
    forall r, t | TakesSend(bus, uncertain, v, r, s) && TakesSend(bus, uncertain, v, t, s) ensures r == t {
      ReaderOf(bus, uncertain, recvs, v, r, s);
      ReaderOf(bus, uncertain, recvs, v, t, s);
      if r != t {
        TwoTrueCount(rd, v, Match(r, s), Match(t, s));
      }
    }
    if r :| TakesSend(bus, uncertain, v, r, s) {
      ReaderOf(bus, uncertain, recvs, v, r, s);
      TrueCounts(rd, v, Match(r, s));
    }
    if Count(rd, v) >= 1 {
      var x := SomeTrue(rd, v);
      ReadersHas(uncertain, recvs, bus[s], x);
      var j :| 0 <= j < |recvs| && Admits(uncertain, recvs[j], bus[s]) && x == Match(recvs[j].row.ord, s);
      assert TakesSend(bus, uncertain, v, recvs[j].row.ord, s);
    }
  }

  /** The base values of a valuation. */
  ghost function BasesOf(v: Valuation): map<string, int> {
    map x | x in v.ints && x.Base? :: x.name := v.ints[x]
  }

  ghost function SrcOf(bus: map<int, Member>, uncertain: map<int, set<int>>, v: Valuation): (src: map<int, int>)
    ensures forall r :: r in src <==> r in Ords(bus, Recv) && exists s :: TakesSend(bus, uncertain, v, r, s)
    ensures forall r :: r in src ==> TakesSend(bus, uncertain, v, r, src[r])
  {
    map r | r in Ords(bus, Recv) && exists s :: TakesSend(bus, uncertain, v, r, s) ::
      var s :| TakesSend(bus, uncertain, v, r, s); s
  }

  /** The world a model describes. */
  ghost function ModelWorld(bus: map<int, Member>, uncertain: map<int, set<int>>, keys: map<int, PointerKey>, v: Valuation): World {
    World(IntOf(v, Clock), BasesOf(v), Encoded(keys, BasesOf(v)), SrcOf(bus, uncertain, v),
          map r | r in Ords(bus, Recv) :: IntOf(v, Pv(r)))
  }

  lemma ModelPointer(bus: map<int, Member>, keys: map<int, PointerKey>, v: Valuation, o: int)
    requires OneKeyPerGroup(bus, keys) && o in bus
    ensures LinOf(v, PtrLin(bus[o].row)) == CellOf(Encoded(keys, BasesOf(v)), bus[o])
  {
    EncodedAt(bus, keys, BasesOf(v), o);
    var row := bus[o].row;
    if row.base.Some? {
      assert Base(row.base.value) in v.ints <==> row.base.value in BasesOf(v);
    }
  }

  /** The setting of a cluster and one of its models. */
  ghost predicate ModelSetting(bus: map<int, Member>, uncertain: map<int, set<int>>, keys: map<int, PointerKey>,
                               recvs: seq<Member>, sends: seq<Member>, v: Valuation) {
    && Indexed(bus) && OneKeyPerGroup(bus, keys) && Lists(bus, Recv, recvs) && Lists(bus, Send, sends)
    && AliasComplete(bus, uncertain, Encoded(keys, BasesOf(v))) && ClusterModel(uncertain, recvs, sends, v)
  }

  lemma ModelFits(bus: map<int, Member>, uncertain: map<int, set<int>>, keys: map<int, PointerKey>,
                  recvs: seq<Member>, sends: seq<Member>, v: Valuation, r: int)
    requires ModelSetting(bus, uncertain, keys, recvs, sends, v) && r in Ords(bus, Recv)
    ensures ReceiveFits(bus, ModelWorld(bus, uncertain, keys, v), r)
    ensures In(r) in v.trues <==> r !in SrcOf(bus, uncertain, v)
  {
    var i :| 0 <= i < |recvs| && recvs[i].row.ord == r;
    assert RecvHolds(uncertain, sends, bus[r], v);
    ModelRecv(bus, uncertain, sends, v, r);
    var src := SrcOf(bus, uncertain, v);
    if r in src {
      var s := src[r];
      var j :| 0 <= j < |sends| && sends[j].row.ord == s;
      assert MatchHolds(bus[r], sends[j], v);
      ModelPointer(bus, keys, v, r);
      ModelPointer(bus, keys, v, s);
    }
  }

  lemma ModelUnread(bus: map<int, Member>, uncertain: map<int, set<int>>, keys: map<int, PointerKey>,
                    recvs: seq<Member>, sends: seq<Member>, v: Valuation, s: int)
    requires ModelSetting(bus, uncertain, keys, recvs, sends, v) && s in Ords(bus, Send)
    ensures Out(s) in v.trues <==> s !in SrcOf(bus, uncertain, v).Values
    ensures forall r, t :: TakesSend(bus, uncertain, v, r, s) && TakesSend(bus, uncertain, v, t, s) ==> r == t
  {
    var src := SrcOf(bus, uncertain, v);
    var j :| 0 <= j < |sends| && sends[j].row.ord == s;
    assert SendHolds(uncertain, recvs, bus[s], v);
    ModelSend(bus, uncertain, recvs, v, s);
    if s in src.Values {
      var r := KeyOf(src, s);
      assert TakesSend(bus, uncertain, v, r, s);
    }
    if r :| TakesSend(bus, uncertain, v, r, s) {
      ModelTakes(bus, uncertain, keys, recvs, sends, v, r, s);
      ValueOf(src, r);
    }
  }

  lemma ModelTakes(bus: map<int, Member>, uncertain: map<int, set<int>>, keys: map<int, PointerKey>,
                   recvs: seq<Member>, sends: seq<Member>, v: Valuation, r: int, s: int)
    requires ModelSetting(bus, uncertain, keys, recvs, sends, v) && r in Ords(bus, Recv)
    ensures TakesSend(bus, uncertain, v, r, s) <==> r in SrcOf(bus, uncertain, v) && SrcOf(bus, uncertain, v)[r] == s
  {
    var i :| 0 <= i < |recvs| && recvs[i].row.ord == r;
    assert RecvHolds(uncertain, sends, bus[r], v);
    ModelRecv(bus, uncertain, sends, v, r);
  }

  /** Two boundary rows of one kind have different pointers. */
  lemma ModelPair(bus: map<int, Member>, uncertain: map<int, set<int>>, keys: map<int, PointerKey>, rows: seq<Member>, kind: Kind,
                  v: Valuation, x: int, y: int)
    requires Indexed(bus) && OneKeyPerGroup(bus, keys) && Lists(bus, kind, rows) && PairsHold(uncertain, rows, v)
    requires AliasComplete(bus, uncertain, Encoded(keys, BasesOf(v)))
    requires x in Ords(bus, kind) && y in Ords(bus, kind) && x != y && Boundary(bus[x]) in v.trues && Boundary(bus[y]) in v.trues
    ensures CellOf(Encoded(keys, BasesOf(v)), bus[x]) != CellOf(Encoded(keys, BasesOf(v)), bus[y])
  {
    var i :| 0 <= i < |rows| && rows[i].row.ord == x;
    var j :| 0 <= j < |rows| && rows[j].row.ord == y;
    ModelPointer(bus, keys, v, x);
    ModelPointer(bus, keys, v, y);
  }

  /** Conversely, every model of the encoding describes a valid world whose cells are its pointers, and its literals
      are that world's claims. */
  lemma ModelIsWorld(bus: map<int, Member>, uncertain: map<int, set<int>>, keys: map<int, PointerKey>,
                     recvs: seq<Member>, sends: seq<Member>, v: Valuation)
    requires ModelSetting(bus, uncertain, keys, recvs, sends, v)
    ensures var u := ModelWorld(bus, uncertain, keys, v);
      && ValidWorld(bus, u)
      && (forall r :: r in Ords(bus, Recv) ==> (In(r) in v.trues <==> ClaimHolds(u, InputClaim(r))))
      && (forall s :: s in Ords(bus, Send) ==> (Out(s) in v.trues <==> ClaimHolds(u, OutputClaim(s))))
      && (forall r, s :: r in Ords(bus, Recv) && s in Ords(bus, Send) && Admits(uncertain, bus[r], bus[s]) ==>
            (Match(r, s) in v.trues <==> ClaimHolds(u, EdgeClaim(r, s))))
  {
    hide ModelSetting, ModelWorld, ReadsWell, WitnessesBounded, OneInput, OneOutput;
    ModelReads(bus, uncertain, keys, recvs, sends, v);
    ModelInputs(bus, uncertain, keys, recvs, sends, v);
    ModelOutputs(bus, uncertain, keys, recvs, sends, v);
    ModelEdges(bus, uncertain, keys, recvs, sends, v);
    ModelEnds(bus, uncertain, keys, recvs, sends, v);
  }

  lemma ModelReads(bus: map<int, Member>, uncertain: map<int, set<int>>, keys: map<int, PointerKey>,
                   recvs: seq<Member>, sends: seq<Member>, v: Valuation)
    requires ModelSetting(bus, uncertain, keys, recvs, sends, v)
    ensures ReadsWell(bus, ModelWorld(bus, uncertain, keys, v)) && WitnessesBounded(bus, ModelWorld(bus, uncertain, keys, v))
  {
    hide ModelSetting, ReceiveFits, ReadsWell, WitnessesBounded;
    var u := ModelWorld(bus, uncertain, keys, v);
    ModelInjects(bus, uncertain, keys, recvs, sends, v);
    forall r | r in Ords(bus, Recv) ensures ReceiveFits(bus, u, r) {
      ModelFits(bus, uncertain, keys, recvs, sends, v, r);
    }
    FitsReadsWell(bus, u);
  }

  lemma ModelEdges(bus: map<int, Member>, uncertain: map<int, set<int>>, keys: map<int, PointerKey>,
                   recvs: seq<Member>, sends: seq<Member>, v: Valuation)
    requires ModelSetting(bus, uncertain, keys, recvs, sends, v)
    ensures forall r, s :: r in Ords(bus, Recv) && s in Ords(bus, Send) && Admits(uncertain, bus[r], bus[s]) ==>
      (Match(r, s) in v.trues <==> ClaimHolds(ModelWorld(bus, uncertain, keys, v), EdgeClaim(r, s)))
  {
    hide ModelSetting;
    forall r, s | r in Ords(bus, Recv) && s in Ords(bus, Send) && Admits(uncertain, bus[r], bus[s])
      ensures Match(r, s) in v.trues <==> ClaimHolds(ModelWorld(bus, uncertain, keys, v), EdgeClaim(r, s))
    {
      ModelTakes(bus, uncertain, keys, recvs, sends, v, r, s);
      ModelRowOrds(bus, uncertain, keys, recvs, sends, v, r, s);
    }
  }

  lemma ModelEnds(bus: map<int, Member>, uncertain: map<int, set<int>>, keys: map<int, PointerKey>,
                  recvs: seq<Member>, sends: seq<Member>, v: Valuation)
    requires ModelSetting(bus, uncertain, keys, recvs, sends, v)
    ensures forall r :: r in Ords(bus, Recv) ==> (In(r) in v.trues <==> ClaimHolds(ModelWorld(bus, uncertain, keys, v), InputClaim(r)))
    ensures forall s :: s in Ords(bus, Send) ==> (Out(s) in v.trues <==> ClaimHolds(ModelWorld(bus, uncertain, keys, v), OutputClaim(s)))
  {
    hide ModelSetting, ReceiveFits;
    forall r | r in Ords(bus, Recv) ensures In(r) in v.trues <==> ClaimHolds(ModelWorld(bus, uncertain, keys, v), InputClaim(r)) {
      ModelFits(bus, uncertain, keys, recvs, sends, v, r);
    }
    forall s | s in Ords(bus, Send) ensures Out(s) in v.trues <==> ClaimHolds(ModelWorld(bus, uncertain, keys, v), OutputClaim(s)) {
      ModelUnread(bus, uncertain, keys, recvs, sends, v, s);
    }
  }

  lemma ModelRowOrds(bus: map<int, Member>, uncertain: map<int, set<int>>, keys: map<int, PointerKey>,
                     recvs: seq<Member>, sends: seq<Member>, v: Valuation, r: int, s: int)
    requires ModelSetting(bus, uncertain, keys, recvs, sends, v) && r in bus && s in bus
    ensures bus[r].row.ord == r && bus[s].row.ord == s
  {
  }

  lemma ModelInjects(bus: map<int, Member>, uncertain: map<int, set<int>>, keys: map<int, PointerKey>,
                     recvs: seq<Member>, sends: seq<Member>, v: Valuation)
    requires ModelSetting(bus, uncertain, keys, recvs, sends, v)
    ensures var src := SrcOf(bus, uncertain, v); forall r, t :: r in src && t in src && r != t ==> src[r] != src[t]
  {
    hide ModelSetting;
    var src := SrcOf(bus, uncertain, v);
    forall r, t | r in src && t in src && r != t ensures src[r] != src[t] {
      assert TakesSend(bus, uncertain, v, r, src[r]) && TakesSend(bus, uncertain, v, t, src[t]);
      ModelUnread(bus, uncertain, keys, recvs, sends, v, src[r]);
    }
  }

  lemma ModelInputs(bus: map<int, Member>, uncertain: map<int, set<int>>, keys: map<int, PointerKey>,
                    recvs: seq<Member>, sends: seq<Member>, v: Valuation)
    requires ModelSetting(bus, uncertain, keys, recvs, sends, v)
    ensures OneInput(bus, ModelWorld(bus, uncertain, keys, v))
  {
    hide ModelSetting, ReceiveFits, CellOf;
    var u := ModelWorld(bus, uncertain, keys, v);
    forall x, y | x in Ords(bus, Recv) && y in Ords(bus, Recv) && x != y && x !in u.src && y !in u.src
      ensures CellOf(u.cells, bus[x]) != CellOf(u.cells, bus[y])
    {
      ModelFits(bus, uncertain, keys, recvs, sends, v, x);
      ModelFits(bus, uncertain, keys, recvs, sends, v, y);
      ModelBoundaryPair(bus, uncertain, keys, recvs, sends, Recv, v, x, y);
    }
  }

  lemma ModelOutputs(bus: map<int, Member>, uncertain: map<int, set<int>>, keys: map<int, PointerKey>,
                     recvs: seq<Member>, sends: seq<Member>, v: Valuation)
    requires ModelSetting(bus, uncertain, keys, recvs, sends, v)
    ensures OneOutput(bus, ModelWorld(bus, uncertain, keys, v))
  {
    hide ModelSetting, CellOf;
    var u := ModelWorld(bus, uncertain, keys, v);
    forall x, y | x in Ords(bus, Send) && y in Ords(bus, Send) && x != y && x !in u.src.Values && y !in u.src.Values
      ensures CellOf(u.cells, bus[x]) != CellOf(u.cells, bus[y])
    {
      ModelUnread(bus, uncertain, keys, recvs, sends, v, x);
      ModelUnread(bus, uncertain, keys, recvs, sends, v, y);
      ModelBoundaryPair(bus, uncertain, keys, recvs, sends, Send, v, x, y);
    }
  }

  lemma ModelBoundaryPair(bus: map<int, Member>, uncertain: map<int, set<int>>, keys: map<int, PointerKey>,
                          recvs: seq<Member>, sends: seq<Member>, kind: Kind, v: Valuation, x: int, y: int)
    requires ModelSetting(bus, uncertain, keys, recvs, sends, v)
    requires x in Ords(bus, kind) && y in Ords(bus, kind) && x != y
    requires if kind.Recv? then In(x) in v.trues && In(y) in v.trues else Out(x) in v.trues && Out(y) in v.trues
    ensures CellOf(Encoded(keys, BasesOf(v)), bus[x]) != CellOf(Encoded(keys, BasesOf(v)), bus[y])
  {
    ModelRowOrds(bus, uncertain, keys, recvs, sends, v, x, y);
    ModelPair(bus, uncertain, keys, if kind.Recv? then recvs else sends, kind, v, x, y);
  }
}
