/** Forcing the claims of a group, and the symbolic solve that uses it. */
module Forcing {
  import opened MemoryWorlds
  import opened PointerSpread
  import opened AccessWorlds
  import opened ClusterEncoding
  import opened WorldModels
  import opened ForcingCover

  /** Outcome of forcing one group: a verdict per claim, or one of the two reported errors. */
  datatype ForceResult = Forced(forced: map<Claim, bool>) | NoMatching | Disagreement

  // ---- Rows of groups ----

  function Tag(g: int, rows: seq<EngineRow>): seq<Member> {
    seq(|rows|, i requires 0 <= i < |rows| => Member(g, rows[i]))
  }

  /** Ordinals identify interactions across all groups. */
  ghost predicate DistinctGroups(groups: seq<seq<EngineRow>>) {
    forall g, i, h, j ::
      (0 <= g < |groups| && 0 <= i < |groups[g]| && 0 <= h < |groups| && 0 <= j < |groups[h]| && (g != h || i != j))
      ==> groups[g][i].ord != groups[h][j].ord
  }

  /** Tagged rows of the first `n` groups that `chosen` selects, in group order. */
  function Selected(groups: seq<seq<EngineRow>>, chosen: set<int>, n: nat): (ms: seq<Member>)
    requires n <= |groups|
  {
    if n == 0 then []
    else Selected(groups, chosen, n - 1) + (if n - 1 in chosen then Tag(n - 1, groups[n - 1]) else [])
  }

  ghost predicate RowOfGroups(groups: seq<seq<EngineRow>>, a: Member) {
    0 <= a.group < |groups| && exists i :: 0 <= i < |groups[a.group]| && groups[a.group][i] == a.row
  }

  lemma {:induction false} SelectedHas(groups: seq<seq<EngineRow>>, chosen: set<int>, n: nat, a: Member)
    requires n <= |groups|
    ensures a in Selected(groups, chosen, n) <==> RowOfGroups(groups, a) && a.group in chosen && a.group < n
  {
    if n > 0 {
      SelectedHas(groups, chosen, n - 1, a);
      TagHas(n - 1, groups[n - 1], a);
    }
  }

  lemma TagHas(g: int, rows: seq<EngineRow>, a: Member)
    ensures a in Tag(g, rows) <==> a.group == g && exists i :: 0 <= i < |rows| && rows[i] == a.row
  {
    if a.group == g && exists i :: 0 <= i < |rows| && rows[i] == a.row {
      var i :| 0 <= i < |rows| && rows[i] == a.row;
      assert Tag(g, rows)[i] == a;
    }
  }

  lemma OtherGroupOtherOrd(groups: seq<seq<EngineRow>>, a: Member, b: Member)
    requires DistinctGroups(groups) && RowOfGroups(groups, a) && RowOfGroups(groups, b) && a.group != b.group
    ensures a.row.ord != b.row.ord
  {
    var i :| 0 <= i < |groups[a.group]| && groups[a.group][i] == a.row;
    var j :| 0 <= j < |groups[b.group]| && groups[b.group][j] == b.row;
  }

  lemma {:induction false} SelectedDistinct(groups: seq<seq<EngineRow>>, chosen: set<int>, n: nat)
    requires n <= |groups| && DistinctGroups(groups)
    ensures DistinctRows(Selected(groups, chosen, n))
  {
    if n > 0 {
      SelectedDistinct(groups, chosen, n - 1);
      TagDistinct(groups, n - 1);
      if n - 1 in chosen {
        var front, last := Selected(groups, chosen, n - 1), Tag(n - 1, groups[n - 1]);
        forall i, j | 0 <= i < |front| && 0 <= j < |last| ensures front[i].row.ord != last[j].row.ord {
          SelectedHas(groups, chosen, n - 1, front[i]);
          TagHas(n - 1, groups[n - 1], last[j]);
          OtherGroupOtherOrd(groups, front[i], last[j]);
        }
        JoinDistinct(front, last);
      }
    }
  }

  lemma TagDistinct(groups: seq<seq<EngineRow>>, g: nat)
    requires DistinctGroups(groups) && g < |groups|
    ensures DistinctRows(Tag(g, groups[g]))
  {
    var t := Tag(g, groups[g]);
    forall i, j | 0 <= i < j < |t| ensures t[i].row.ord != t[j].row.ord {
      assert groups[g][i].ord != groups[g][j].ord;
    }
  }

  lemma JoinDistinct(a: seq<Member>, b: seq<Member>)
    requires DistinctRows(a) && DistinctRows(b)
    requires forall i, j :: 0 <= i < |a| && 0 <= j < |b| ==> a[i].row.ord != b[j].row.ord
    ensures DistinctRows(a + b)
  {
    var c := a + b;
    forall i, j | 0 <= i < j < |c| ensures c[i].row.ord != c[j].row.ord {
      if i < |a| && j >= |a| {
        assert a[i].row.ord != b[j - |a|].row.ord;
      } else if i >= |a| {
        assert b[i - |a|].row.ord != b[j - |a|].row.ord;
      }
    }
  }

  function UncertainOf(uncertain: map<int, set<int>>, g: int): set<int> {
    if g in uncertain then uncertain[g] else {}
  }

  /** The cluster of a group: its own rows, then those of every group not provably disjoint. */
  function ClusterRows(groups: seq<seq<EngineRow>>, uncertain: map<int, set<int>>, gi: nat): seq<Member>
    requires gi < |groups|
  {
    Tag(gi, groups[gi]) + Selected(groups, UncertainOf(uncertain, gi), |groups|)
  }

  lemma ClusterRowsHas(groups: seq<seq<EngineRow>>, uncertain: map<int, set<int>>, gi: nat, a: Member)
    requires gi < |groups|
    ensures a in ClusterRows(groups, uncertain, gi) <==> RowOfGroups(groups, a) && CouldAlias(uncertain, gi, a.group)
  {
    TagHas(gi, groups[gi], a);
    SelectedHas(groups, UncertainOf(uncertain, gi), |groups|, a);
  }

  lemma ClusterRowsDistinct(groups: seq<seq<EngineRow>>, uncertain: map<int, set<int>>, gi: nat)
    requires gi < |groups| && DistinctGroups(groups) && gi !in UncertainOf(uncertain, gi)
    ensures DistinctRows(ClusterRows(groups, uncertain, gi))
  {
    var us := UncertainOf(uncertain, gi);
    var a, b := Tag(gi, groups[gi]), Selected(groups, us, |groups|);
    TagDistinct(groups, gi);
    SelectedDistinct(groups, us, |groups|);
    forall i, j | 0 <= i < |a| && 0 <= j < |b| ensures a[i].row.ord != b[j].row.ord {
      TagHas(gi, groups[gi], a[i]);
      SelectedHas(groups, us, |groups|, b[j]);
      OtherGroupOtherOrd(groups, a[i], b[j]);
    }
    JoinDistinct(a, b);
  }

  /** `bus` holds exactly the rows of `groups`. */
  ghost predicate IsBus(groups: seq<seq<EngineRow>>, bus: map<int, Member>) {
    && Indexed(bus)
    && (forall a :: RowOfGroups(groups, a) ==> a.row.ord in bus && bus[a.row.ord] == a)
    && (forall o :: o in bus ==> RowOfGroups(groups, bus[o]))
  }

  ghost function BusOf(ms: seq<Member>): (bus: map<int, Member>)
    ensures Indexed(bus)
    ensures forall o :: o in bus ==> bus[o] in ms
  {
    if ms == [] then map[]
    else
      var n := |ms| - 1;
      assert forall a :: a in ms[..n] ==> a in ms;
      BusOf(ms[..n])[ms[n].row.ord := ms[n]]
  }

  lemma {:induction false} BusOfAt(ms: seq<Member>, i: nat)
    requires DistinctRows(ms) && i < |ms|
    ensures ms[i].row.ord in BusOf(ms) && BusOf(ms)[ms[i].row.ord] == ms[i]
  {
    var n := |ms| - 1;
    if i < n {
      BusOfAt(ms[..n], i);
    }
  }

  function UpTo(n: nat): (s: set<int>)
    ensures forall g :: g in s <==> 0 <= g < n
  {
    if n == 0 then {} else UpTo(n - 1) + {n - 1}
  }

  lemma BusExists(groups: seq<seq<EngineRow>>) returns (bus: map<int, Member>)
    requires DistinctGroups(groups)
    ensures IsBus(groups, bus)
  {
    var all := UpTo(|groups|);
    var ms := Selected(groups, all, |groups|);
    SelectedDistinct(groups, all, |groups|);
    bus := BusOf(ms);
    forall a | RowOfGroups(groups, a) ensures a.row.ord in bus && bus[a.row.ord] == a {
      SelectedHas(groups, all, |groups|, a);
      var i :| 0 <= i < |ms| && ms[i] == a;
      BusOfAt(ms, i);
    }
    forall o | o in bus ensures RowOfGroups(groups, bus[o]) {
      SelectedHas(groups, all, |groups|, bus[o]);
    }
  }

  lemma ClusterListed(groups: seq<seq<EngineRow>>, uncertain: map<int, set<int>>, gi: nat, bus: map<int, Member>, kind: Kind)
    requires gi < |groups| && DistinctGroups(groups) && gi !in UncertainOf(uncertain, gi) && IsBus(groups, bus)
    ensures Lists(Cluster(bus, uncertain, gi), kind, OfKind(ClusterRows(groups, uncertain, gi), kind))
  {
    var rows, cluster := ClusterRows(groups, uncertain, gi), Cluster(bus, uncertain, gi);
    var ks := OfKind(rows, kind);
    ClusterRowsDistinct(groups, uncertain, gi);
    OfKindDistinct(rows, kind);
    forall i | 0 <= i < |ks| ensures ks[i].row.ord in Ords(cluster, kind) && cluster[ks[i].row.ord] == ks[i] {
      assert ks[i] in ks;
      ClusterRowsHas(groups, uncertain, gi, ks[i]);
    }
    forall o | o in Ords(cluster, kind) ensures exists i :: 0 <= i < |ks| && ks[i].row.ord == o {
      ClusterRowsHas(groups, uncertain, gi, cluster[o]);
      assert cluster[o] in ks;
      var i :| 0 <= i < |ks| && ks[i] == cluster[o];
      assert ks[i].row.ord == o;
    }
  }

  // ---- Forcing one group ----

  function Claims(claims: map<int, seq<Claim>>, g: int): seq<Claim> {
    if g in claims then claims[g] else []
  }

  ghost predicate AllLits(cs: seq<Claim>, v: Valuation) {
    forall i :: 0 <= i < |cs| ==> LitOf(cs[i]) in v.trues
  }

  /** Every claim of every group of the cluster. */
  ghost predicate ClusterClaimsHold(uncertain: map<int, set<int>>, gi: int, claims: map<int, seq<Claim>>, n: nat, v: Valuation) {
    forall h: int :: 0 <= h < n && CouldAlias(uncertain, gi, h) ==> AllLits(Claims(claims, h), v)
  }

  /** Asserts the literals of some claims. */
  method AddClaims(s: Solver, cs: seq<Claim>)
    requires s.Valid()
    modifies s
    ensures s.Valid() && s.marks == old(s.marks)
    ensures |s.assertions| >= |old(s.assertions)| && s.assertions[..|old(s.assertions)|] == old(s.assertions)
    ensures forall v :: Sat(s.assertions, v) <==> Sat(old(s.assertions), v) && AllLits(cs, v)
  {
    ghost var before := s.assertions;
    for i := 0 to |cs|
      invariant s.Valid() && s.marks == old(s.marks)
      invariant |s.assertions| >= |before| && s.assertions[..|before|] == before
      invariant forall v :: Sat(s.assertions, v) <==> Sat(before, v) && AllLits(cs[..i], v)
    {
      ghost var mid := s.assertions;
      s.Add(Lit(LitOf(cs[i])));
      forall v ensures Sat(s.assertions, v) <==> Sat(before, v) && AllLits(cs[..i + 1], v) {
        SatAdd(mid, Lit(LitOf(cs[i])), v);
        assert cs[..i + 1] == cs[..i] + [cs[i]];
      }
    }
    assert cs[..|cs|] == cs;
  }

  /** The feasibility query: is the mined pre-solution of the whole cluster a model? */
  method CheckPresolution(s: Solver, uncertain: map<int, set<int>>, gi: int, n: nat, claims: map<int, seq<Claim>>)
    returns (a: Answer)
    requires s.Valid() && s.marks == []
    modifies s
    ensures s.Valid() && s.marks == [] && s.assertions == old(s.assertions)
    ensures a.UnsatAnswer? ==> forall v :: !(Sat(s.assertions, v) && ClusterClaimsHold(uncertain, gi, claims, n, v))
    ensures a.SatAnswer? ==> exists v :: Sat(s.assertions, v) && ClusterClaimsHold(uncertain, gi, claims, n, v)
    ensures Decisive(s.oracle) ==> !a.UnknownAnswer?
  {
    hide Decisive, SoundOracle, Sat, ClusterClaimsHold;
    ghost var base := s.assertions;
    s.Push();
    NoClaims(uncertain, gi, claims);
    for h := 0 to n
      invariant s.Valid() && s.marks == [|base|]
      invariant |s.assertions| >= |base| && s.assertions[..|base|] == base
      invariant forall v :: Sat(s.assertions, v) <==> Sat(base, v) && ClusterClaimsHold(uncertain, gi, claims, h, v)
    {
      OneMoreGroup(uncertain, gi, claims, h);
      if CouldAlias(uncertain, gi, h) {
        AddClaims(s, Claims(claims, h));
      }
    }
    a := s.Check();
    ghost var all := s.assertions;
    s.Pop();
    assert a.UnsatAnswer? ==> forall v :: !Sat(all, v);
    assert a.SatAnswer? ==> exists v :: Sat(all, v);
  }

  lemma NoClaims(uncertain: map<int, set<int>>, gi: int, claims: map<int, seq<Claim>>)
    ensures forall v :: ClusterClaimsHold(uncertain, gi, claims, 0, v)
  {
  }

  lemma OneMoreGroup(uncertain: map<int, set<int>>, gi: int, claims: map<int, seq<Claim>>, h: nat)
    ensures forall v :: ClusterClaimsHold(uncertain, gi, claims, h + 1, v) <==>
      (ClusterClaimsHold(uncertain, gi, claims, h, v) && (CouldAlias(uncertain, gi, h) ==> AllLits(Claims(claims, h), v)))
  {
  }

  /** One flip: does the encoding refute the negated claim? */
  method Flip(s: Solver, c: Claim) returns (forced: bool)
    requires s.Valid() && s.marks == []
    modifies s
    ensures s.Valid() && s.marks == [] && s.assertions == old(s.assertions)
    ensures forced ==> forall v :: Sat(s.assertions, v) ==> LitOf(c) in v.trues
    ensures Decisive(s.oracle) && !forced ==> exists v :: Sat(s.assertions, v) && LitOf(c) !in v.trues
  {
    ghost var base := s.assertions;
    s.Push();
    s.Add(Not(Lit(LitOf(c))));
    var a := s.Check();
    ghost var all := s.assertions;
    s.Pop();
    forced := a.UnsatAnswer?;
    if a.SatAnswer? {
      ghost var v :| Sat(all, v);
      SatAdd(base, Not(Lit(LitOf(c))), v);
      assert Holds(Lit(LitOf(c)), v) <==> LitOf(c) in v.trues;
    }
    forall v | forced && Sat(s.assertions, v) ensures LitOf(c) in v.trues {
      SatAdd(base, Not(Lit(LitOf(c))), v);
      assert Holds(Lit(LitOf(c)), v) <==> LitOf(c) in v.trues;
    }
  }

  ghost predicate ModelOf(groups: seq<seq<EngineRow>>, uncertain: map<int, set<int>>, gi: nat, v: Valuation)
    requires gi < |groups|
  {
    var rows := ClusterRows(groups, uncertain, gi);
    ClusterModel(uncertain, OfKind(rows, Recv), OfKind(rows, Send), v)
  }

  /** A model of the cluster encoding in which all mined claims of the cluster hold together. */
  ghost predicate Agrees(groups: seq<seq<EngineRow>>, uncertain: map<int, set<int>>, gi: nat, claims: map<int, seq<Claim>>, v: Valuation)
    requires gi < |groups|
  {
    ModelOf(groups, uncertain, gi, v) && ClusterClaimsHold(uncertain, gi, claims, |groups|, v)
  }

  /** The claim holds in every model of the cluster encoding. */
  ghost predicate Entailed(groups: seq<seq<EngineRow>>, uncertain: map<int, set<int>>, gi: nat, c: Claim)
    requires gi < |groups|
  {
    forall v :: ModelOf(groups, uncertain, gi, v) ==> LitOf(c) in v.trues
  }

  /** Forces the claims of group `gi` against its cluster with aliasing open; a solver that always decides makes every
      outcome exact. */
  method ForceGroup(s: Solver, groups: seq<seq<EngineRow>>, uncertain: map<int, set<int>>, gi: nat, claims: map<int, seq<Claim>>)
    returns (r: ForceResult)
    requires s.Valid() && s.marks == [] && s.assertions == []
    requires gi < |groups| && DistinctGroups(groups) && gi !in UncertainOf(uncertain, gi)
    modifies s
    ensures r.Forced? ==> forall c :: c in r.forced <==> c in Claims(claims, gi)
    ensures r.Forced? ==> forall c :: c in r.forced && r.forced[c] ==> Entailed(groups, uncertain, gi, c)
    ensures r.NoMatching? ==> forall v :: !ModelOf(groups, uncertain, gi, v)
    ensures r.Disagreement? ==> forall v :: !Agrees(groups, uncertain, gi, claims, v)
    ensures Decisive(s.oracle) && r.Forced? ==> forall c :: c in r.forced ==> (r.forced[c] <==> Entailed(groups, uncertain, gi, c))
    ensures Decisive(s.oracle) ==> (r.NoMatching? <==> forall v :: !ModelOf(groups, uncertain, gi, v))
    ensures Decisive(s.oracle) ==> (r.Forced? <==> exists v :: Agrees(groups, uncertain, gi, claims, v))
  {
    var cluster := ClusterRows(groups, uncertain, gi);
    var recvs, sends := OfKind(cluster, Recv), OfKind(cluster, Send);
    ClusterRowsDistinct(groups, uncertain, gi);
    OfKindDistinct(cluster, Send);
    Encode(s, uncertain, recvs, sends);
    assert forall v :: Sat(s.assertions, v) <==> ModelOf(groups, uncertain, gi, v);
    var res := CheckPresolution(s, uncertain, gi, |groups|, claims);
    if res.UnsatAnswer? {
      var open := s.Check();
      if open.UnsatAnswer? {
        return NoMatching;
      }
      if open.SatAnswer? {
        ghost var v :| Sat(s.assertions, v);
        assert ModelOf(groups, uncertain, gi, v);
      }
      return Disagreement;
    }
    if res.UnknownAnswer? {
      return Forced(map c | c in Claims(claims, gi) :: false);
    }
    ghost var v :| Sat(s.assertions, v) && ClusterClaimsHold(uncertain, gi, claims, |groups|, v);
    assert Agrees(groups, uncertain, gi, claims, v);
    var forced := FlipAll(s, groups, uncertain, gi, Claims(claims, gi));
    return Forced(forced);
  }

  /** Flips the claims one after the other. */
  method FlipAll(s: Solver, ghost groups: seq<seq<EngineRow>>, ghost uncertain: map<int, set<int>>, ghost gi: nat, mine: seq<Claim>)
    returns (forced: map<Claim, bool>)
    requires s.Valid() && s.marks == [] && gi < |groups|
    requires forall v :: Sat(s.assertions, v) <==> ModelOf(groups, uncertain, gi, v)
    modifies s
    ensures forall c :: c in forced <==> c in mine
    ensures forall c :: c in forced && forced[c] ==> Entailed(groups, uncertain, gi, c)
    ensures Decisive(s.oracle) ==> forall c :: c in forced ==> (forced[c] <==> Entailed(groups, uncertain, gi, c))
  {
    hide ModelOf, Decisive;
    forced := map[];
    for i := 0 to |mine|
      invariant s.Valid() && s.marks == []
      invariant forall v :: Sat(s.assertions, v) <==> ModelOf(groups, uncertain, gi, v)
      invariant forall c :: c in forced <==> c in mine[..i]
      invariant forall c :: c in forced && forced[c] ==> Entailed(groups, uncertain, gi, c)
      invariant Decisive(s.oracle) ==> forall c :: c in forced ==> (forced[c] <==> Entailed(groups, uncertain, gi, c))
    {
      var f := Flip(s, mine[i]);
      assert mine[..i + 1] == mine[..i] + [mine[i]];
      assert f ==> Entailed(groups, uncertain, gi, mine[i]);
      forced := forced[mine[i] := f];
    }
    assert mine[..|mine|] == mine;
  }

  /** The rows of a cluster as the encoding lists them. */
  lemma ClusterRowsListed(groups: seq<seq<EngineRow>>, uncertain: map<int, set<int>>, gi: nat, bus: map<int, Member>)
    requires gi < |groups| && DistinctGroups(groups) && gi !in UncertainOf(uncertain, gi) && IsBus(groups, bus)
    ensures var rows, cluster := ClusterRows(groups, uncertain, gi), Cluster(bus, uncertain, gi);
      Lists(cluster, Recv, OfKind(rows, Recv)) && Lists(cluster, Send, OfKind(rows, Send))
  {
    ClusterListed(groups, uncertain, gi, bus, Recv);
    ClusterListed(groups, uncertain, gi, bus, Send);
  }

  /** A claim is entailed exactly when no access of the cluster that blocks it has a pointer that can meet the group's. */
  lemma EntailedExactly(groups: seq<seq<EngineRow>>, uncertain: map<int, set<int>>, gi: nat, bus: map<int, Member>,
                        keys: map<int, PointerKey>, mate: map<int, int>, c: Claim)
    requires gi < |groups| && DistinctGroups(groups) && gi !in UncertainOf(uncertain, gi) && IsBus(groups, bus)
    requires Encodable(bus, keys, mate, uncertain) && ClaimOf(bus, gi, c)
    ensures Entailed(groups, uncertain, gi, c) <==> forall z :: !PointerBlocks(bus, keys, mate, uncertain, gi, c, z)
  {
    hide Encodable, ClusterRows, DistinctGroups, IsBus, PointerBlocks, ClusterModel;
    var rows := ClusterRows(groups, uncertain, gi);
    ClusterRowsListed(groups, uncertain, gi, bus);
    ForcedExactly(bus, keys, mate, uncertain, gi, OfKind(rows, Recv), OfKind(rows, Send), c);
    assert forall v :: ModelOf(groups, uncertain, gi, v) <==> ClusterModel(uncertain, OfKind(rows, Recv), OfKind(rows, Send), v);
  }

  /** Where rows at the group's cell have pointers that can meet the group's, an entailed claim holds in the world. */
  lemma EntailedHolds(groups: seq<seq<EngineRow>>, uncertain: map<int, set<int>>, gi: nat, bus: map<int, Member>,
                      keys: map<int, PointerKey>, mate: map<int, int>, w: World, c: Claim)
    requires gi < |groups| && DistinctGroups(groups) && gi !in UncertainOf(uncertain, gi) && IsBus(groups, bus)
    requires Encodable(bus, keys, mate, uncertain) && ClaimOf(bus, gi, c) && gi in keys
    requires ValidWorld(bus, w) && AliasComplete(bus, uncertain, w.cells)
    requires MeetsOnlyMeeting(bus, keys, gi, w)
    requires Entailed(groups, uncertain, gi, c)
    ensures ClaimHolds(w, c)
  {
    hide Entailed, PointerBlocks, BlockedBy, DistinctGroups, ValidWorld;
    EntailedExactly(groups, uncertain, gi, bus, keys, mate, c);
    WorldBlockersMeet(bus, keys, mate, uncertain, gi, w, c);
    ClaimExactly(bus, mate, w, gi, c);
  }

  /** Rows at the group's cell have pointers that can meet the group's. */
  ghost predicate MeetsOnlyMeeting(bus: map<int, Member>, keys: map<int, PointerKey>, gi: int, w: World)
    requires gi in keys
  {
    forall z ::
      (z in bus && CellOf(w.cells, bus[z]) == CellAt(w.cells, gi) && bus[z].group in keys && keys[bus[z].group].0 == keys[gi].0) ==>
      keys[bus[z].group].1 == keys[gi].1
  }

  lemma WorldBlockersMeet(bus: map<int, Member>, keys: map<int, PointerKey>, mate: map<int, int>, uncertain: map<int, set<int>>,
                          gi: int, w: World, c: Claim)
    requires Encodable(bus, keys, mate, uncertain) && ClaimOf(bus, gi, c) && gi in keys
    requires AliasComplete(bus, uncertain, w.cells) && MeetsOnlyMeeting(bus, keys, gi, w)
    ensures forall z :: BlockedBy(bus, mate, w.cells, gi, c, z) ==> PointerBlocks(bus, keys, mate, uncertain, gi, c, z)
  {
    hide Blocks, Accesses;
    var o := if c.OutputClaim? then c.send else c.recv;
    assert o in bus && bus[o].group == gi;
    forall z | BlockedBy(bus, mate, w.cells, gi, c, z) ensures PointerBlocks(bus, keys, mate, uncertain, gi, c, z) {
      assert CellOf(w.cells, bus[o]) == CellOf(w.cells, bus[z]);
      assert z in Cluster(bus, uncertain, gi);
    }
  }
}
