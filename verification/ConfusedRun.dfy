/** A run of the solve that marks a claim forced although a world falsifies it. */
module ConfusedRun {
  import opened Wrappers
  import opened Sets
  import opened Rows
  import opened CellMatching
  import opened MemoryWorlds
  import opened KeyMeeting
  import opened ClusterEncoding
  import opened Forcing
  import opened SymbolicSolve
  import opened ForcingExact

  /** A key known modulo 65536 and an exact one of the same base. */
  const MIXED: seq<Key> := [BaseOffset("b", 65532, Some(65536)), BaseOffset("b", -4, None)]

  lemma MixedAreConfusable(p: int)
    requires p > 0
    ensures GoodKeyList(MIXED, p) && Confusable(MIXED[0], MIXED[1])
    ensures var bases := map["b" := 65536];
      && Addresses(MIXED[0], p, BaseValue(MIXED[0], bases), 65532) && Addresses(MIXED[1], p, BaseValue(MIXED[1], bases), 65532)
  {
    AddressOf(MIXED[0], p, 65536, -1);
    AddressOf(MIXED[1], p, 65536, 0);
    CommonMeets(MIXED[0], MIXED[1], p, 65536, 65532);
  }

  // ---- The rows: three accesses of the first key around two of the second ----

  lemma TwoGroupTimes(h: int)
    requires h == 0 || h == 1
    ensures TimesOfGroup(0, 1, 1, h, TIMES) == if h == 0 then [1, 5, 9] else [3, 7]
  {
    hide TimesOfGroup;
    NoTimes(h);
    OneTime(h, 9, [], [9], []);
    OneTime(h, 7, [9], [7, 9], if h == 0 then [9] else []);
    OneTime(h, 5, [7, 9], [5, 7, 9], if h == 0 then [9] else [7]);
    OneTime(h, 3, [5, 7, 9], [3, 5, 7, 9], if h == 0 then [5, 9] else [7]);
    OneTime(h, 1, [3, 5, 7, 9], TIMES, if h == 0 then [5, 9] else [3, 7]);
  }

  lemma OneTime(h: int, t: int, rest: seq<int>, all: seq<int>, of: seq<int>)
    requires TimesOfGroup(0, 1, 1, h, rest) == of && all == [t] + rest
    ensures TimesOfGroup(0, 1, 1, h, all) == if GroupAt(0, 1, 1, t) == h then [t] + of else of
  {
    assert all[1..] == rest && [] + of == of;
  }

  lemma NoTimes(h: int)
    ensures TimesOfGroup(0, 1, 1, h, []) == []
  {
  }

  function Self(ts: seq<int>): map<int, int> {
    map t | t in ts :: t
  }

  /** Rows numbered by their times. */
  lemma TimesTable(rows: seq<Timed>, ts: seq<int>)
    requires |rows| == |ts| && forall i :: 0 <= i < |ts| ==> rows[i] == Timed(ts[i], ts[i])
    requires forall i, j :: 0 <= i < j < |ts| ==> ts[i] < ts[j]
    ensures DistinctTimes(rows) && Table(rows) == Self(ts)
  {
    assert DistinctOrds(rows);
    forall o | o in Table(rows).Keys ensures o in ts && Table(rows)[o] == o {
      var i :| 0 <= i < |rows| && rows[i].ord == o;
      TableAt(rows, i);
    }
    forall o | o in ts ensures o in Table(rows) {
      var i :| 0 <= i < |ts| && ts[i] == o;
      TableAt(rows, i);
    }
    SameMap(Table(rows), Self(ts));
  }

  lemma MixedTables(g: nat)
    requires g < 2
    ensures DistinctTimes(FiveGroups(MIXED, 0, 1, 1)[g].sends)
    ensures Table(FiveGroups(MIXED, 0, 1, 1)[g].sends) == Self(if g == 0 then [1, 5, 9] else [3, 7])
    ensures Table(FiveGroups(MIXED, 0, 1, 1)[g].recvs) == Self(if g == 0 then [0, 4, 8] else [2, 6])
  {
    hide TimesOfGroup, DistinctTimes, Table, Self;
    TwoGroupTimes(g);
    var k := FiveGroups(MIXED, 0, 1, 1)[g];
    if g == 0 {
      assert k == FiveGroup(MIXED[0], [1, 5, 9]);
      TimesTable(k.sends, [1, 5, 9]);
      TimesTable(k.recvs, [0, 4, 8]);
    } else {
      assert k == FiveGroup(MIXED[1], [3, 7]);
      TimesTable(k.sends, [3, 7]);
      TimesTable(k.recvs, [2, 6]);
    }
  }

  // ---- Every matching of the two cells ----

  lemma SolvableIsClean(sends: map<int, int>, recvs: map<int, int>, c: CellMatch, b: int, m: map<int, int>)
    requires Correct(sends, recvs, c) && |sends| == |recvs|
    requires b in CellMatching.Boundary(sends, recvs) && IsSolution(sends, recvs, b, m)
    ensures c.note.Clean?
  {
    forall r | r in CellMatching.Boundary(sends, recvs) ensures r == b {
      if r in m {
        NotBoundary(sends, recvs, r, m[r]);
      }
    }
    assert CellMatching.Boundary(sends, recvs) == {b};
  }

  lemma SelfSize(ts: seq<int>, all: set<int>)
    requires forall t :: t in all <==> t in ts
    ensures |Self(ts)| == |all| && Self(ts).Keys == all
  {
    forall t ensures t in Self(ts).Keys <==> t in all {
    }
    assert Self(ts).Keys == all;
  }

  lemma FirstCellClean(c: CellMatch)
    requires Correct(Self([1, 5, 9]), Self([0, 4, 8]), c)
    ensures c.note.Clean?
  {
    hide Correct;
    var sends, recvs, m: map<int, int> := Self([1, 5, 9]), Self([0, 4, 8]), map[4 := 1, 8 := 5];
    SelfSize([1, 5, 9], {1, 5, 9});
    SelfSize([0, 4, 8], {0, 4, 8});
    assert m.Keys == {4, 8} == recvs.Keys - {0};
    SolvableIsClean(sends, recvs, c, 0, m);
  }

  lemma SecondCellClean(c: CellMatch)
    requires Correct(Self([3, 7]), Self([2, 6]), c)
    ensures c.note.Clean?
  {
    hide Correct;
    var sends, recvs, m: map<int, int> := Self([3, 7]), Self([2, 6]), map[6 := 3];
    SelfSize([3, 7], {3, 7});
    SelfSize([2, 6], {2, 6});
    assert m.Keys == {6} == recvs.Keys - {2};
    SolvableIsClean(sends, recvs, c, 2, m);
  }

  /** The second access of the first cell can only read the first. */
  lemma FirstCellReads(b: int, m: map<int, int>)
    requires b in CellMatching.Boundary(Self([1, 5, 9]), Self([0, 4, 8])) && IsSolution(Self([1, 5, 9]), Self([0, 4, 8]), b, m)
    ensures 4 in m && m[4] == 1
  {
    hide Injective;
    FirstCellInput(b);
    assert m.Keys == Self([0, 4, 8]).Keys - {0};
    assert 4 in Self([0, 4, 8]).Keys;
    assert m[4] in {1, 5, 9} && m[4] <= 4;
  }

  lemma FirstCellInput(b: int)
    requires b in CellMatching.Boundary(Self([1, 5, 9]), Self([0, 4, 8]))
    ensures b == 0
  {
    var sends, recvs := Self([1, 5, 9]), Self([0, 4, 8]);
    if b != 0 {
      NotBoundary(sends, recvs, b, 1);
    }
  }

  lemma ReadingIsMined(sends: map<int, int>, c: CellMatch, r: int)
    requires EdgesMatch(sends, c.edges, Reading(c.edges)) && r in Reading(c.edges)
    ensures EdgeClaim(r, Reading(c.edges)[r]) in MinedClaims(c)
  {
    var i :| 0 <= i < |c.edges| && c.edges[i].recv == r;
    assert c.edges[i] in c.edges;
    assert MinedClaims(c)[i] == EdgeClaim(r, Reading(c.edges)[r]);
  }

  lemma FirstEdgeMined(c: CellMatch)
    requires Correct(Self([1, 5, 9]), Self([0, 4, 8]), c)
    ensures c.note.Clean? && EdgeClaim(4, 1) in MinedClaims(c)
  {
    hide IsSolution, Self, OnlySolution, Solvable, EdgesMatch, MinedClaims, CellMatching.Boundary, Reading;
    FirstCellClean(c);
    FirstCellReads(c.input.value, Reading(c.edges));
    ReadingIsMined(Self([1, 5, 9]), c, 4);
  }

  // ---- The run ----

  lemma MixedLength(p: int, g: nat)
    requires p > 0 && g < 2
    ensures |AllGroups(FiveGroups(MIXED, 0, 1, 1), p)[g]| <= 6
  {
    hide TimesOfGroup;
    TwoGroupTimes(g);
    assert |FiveGroups(MIXED, 0, 1, 1)[g].sends| == |FiveGroups(MIXED, 0, 1, 1)[g].recvs| <= 3;
  }

  lemma MixedCluster(uncertain: map<int, set<int>>, p: int)
    requires p > 0 && UncertainIs(FiveGroups(MIXED, 0, 1, 1), uncertain)
    ensures WithinCap(FiveGroups(MIXED, 0, 1, 1), p, uncertain, 0) && !Lone(FiveGroups(MIXED, 0, 1, 1), 0)
  {
    hide FiveGroups, TimesOfGroup, UncertainIs;
    var gs := FiveGroups(MIXED, 0, 1, 1);
    assert !ProvablyDisjoint(gs[0].key, gs[1].key);
    MixedLength(p, 0);
    MixedLength(p, 1);
    SelectedLength(AllGroups(gs, p), UncertainOf(uncertain, 0));
  }

  lemma SelectedLength(groups: seq<seq<EngineRow>>, chosen: set<int>)
    requires |groups| == 2
    ensures |Selected(groups, chosen, 2)| <= |groups[0]| + |groups[1]|
  {
    assert Selected(groups, chosen, 1) == Selected(groups, chosen, 0) + (if 0 in chosen then Tag(0, groups[0]) else []);
  }

  /** Clean groups, and different offsets: no engine disagreement. */
  lemma MixedCleanCluster(matches: seq<CellMatch>, g: nat)
    requires AllCorrect(FiveGroups(MIXED, 0, 1, 1), matches) && g < 2
    ensures matches[0].note.Clean? && EdgeClaim(4, 1) in MinedClaims(matches[0])
    ensures CleanCluster(FiveGroups(MIXED, 0, 1, 1), matches, g)
  {
    hide Correct, MinedClaims, DistinctTimes, Self, Table, FiveGroups;
    MixedTables(0);
    MixedTables(1);
    assert Correct(Table(FiveGroups(MIXED, 0, 1, 1)[1].sends), Table(FiveGroups(MIXED, 0, 1, 1)[1].recvs), matches[1]);
    FirstEdgeMined(matches[0]);
    SecondCellClean(matches[1]);
  }

  /** No condition of a failing solve is met. */
  lemma MixedNeverFails(p: int)
    requires p > 0 && exists bus :: IsBus(AllGroups(FiveGroups(MIXED, 0, 1, 1), p), bus) && PairedAccesses(bus, MATES)
    ensures var gs := FiveGroups(MIXED, 0, 1, 1);
      && !Unpairable(gs, p) && (!exists g :: 0 <= g < |gs| && !DistinctTimes(gs[g].sends))
      && !exists matches: seq<CellMatch>, g: nat ::
        AllCorrect(gs, matches) && g < |gs| && matches[g].note.Clean? && !Lone(gs, g) && !CleanCluster(gs, matches, g)
  {
    hide FiveGroups, Correct, CleanCluster, Lone, IsBus, PairedAccesses, DistinctTimes, Self, Table;
    MixedTables(0);
    MixedTables(1);
    forall matches: seq<CellMatch>, g: nat | AllCorrect(FiveGroups(MIXED, 0, 1, 1), matches) && g < 2
      ensures CleanCluster(FiveGroups(MIXED, 0, 1, 1), matches, g)
    {
      MixedCleanCluster(matches, g);
    }
  }

  lemma MixedRows(p: int) returns (uncertain: map<int, set<int>>, bus: map<int, Member>, w: World)
    requires p > 0
    ensures GoodKeys(FiveGroups(MIXED, 0, 1, 1), p) && DistinctGroups(AllGroups(FiveGroups(MIXED, 0, 1, 1), p))
    ensures UncertainIs(FiveGroups(MIXED, 0, 1, 1), uncertain)
    ensures Entailed(AllGroups(FiveGroups(MIXED, 0, 1, 1), p), uncertain, 0, EdgeClaim(4, 1))
    ensures ForcedClaimFails(p, bus, w, EdgeClaim(4, 1))
  {
    hide InWindow, Entailed, RealWorld, PairedAccesses, IsBus, FiveGroups, FiveBus, UncertainIs, ClaimHolds, DistinctGroups, GoodKeyList, GoodKeys, Confusable;
    MixedAreConfusable(p);
    KeysAreGood(FiveGroups(MIXED, 0, 1, 1), MIXED, p);
    uncertain, w := ConfusedRows(MIXED, p, 0, 1);
    bus := FiveBus(MIXED, p, 0, 1, 1);
  }

  /** A verdict on the claim is that it is forced. */
  lemma MixedIsForced(p: int, uncertain: map<int, set<int>>, matches: seq<CellMatch>, forced: map<Claim, bool>)
    requires p > 0 && AllCorrect(FiveGroups(MIXED, 0, 1, 1), matches) && UncertainIs(FiveGroups(MIXED, 0, 1, 1), uncertain)
    requires GroupDone(FiveGroups(MIXED, 0, 1, 1), p, matches, 0, forced)
    requires Entailed(AllGroups(FiveGroups(MIXED, 0, 1, 1), p), uncertain, 0, EdgeClaim(4, 1))
    ensures ExactlyForced(FiveGroups(MIXED, 0, 1, 1), p, uncertain, matches, 0) && EdgeClaim(4, 1) in forced
  {
    hide FiveGroups, UncertainIs, Correct, Entailed, CleanCluster, Lone, WithinCap, MinedClaims, ForcedSoundly;
    MixedCleanCluster(matches, 0);
    MixedCluster(uncertain, p);
  }

  /** The solve of these rows always succeeds and marks the claim that the second access of the first key reads its
      first one as forced; in a world where both keys address one cell it reads the other key's access. */
  method MixedModuliForceFalsely(oracle: (nat, seq<Formula>) -> Answer, p: int) returns (r: SymbolicResult)
    requires SoundOracle(oracle) && Decisive(oracle) && p > 0
    ensures r.Solution? && |r.forced| == 2 && EdgeClaim(4, 1) in r.forced[0] && r.forced[0][EdgeClaim(4, 1)]
    ensures exists bus, w :: ForcedClaimFails(p, bus, w, EdgeClaim(4, 1))
  {
    hide CleanCluster, Correct, DistinctTimes, Lone, Entailed, RealWorld, PairedAccesses, IsBus, FiveGroups, Unpairable, ForcedSoundly, ExactlyForced,
      UncertainIs, ClaimHolds, GoodKeys, DistinctGroups;
    var gs := FiveGroups(MIXED, 0, 1, 1);
    ghost var uncertain, bus, w := MixedRows(p);
    MixedNeverFails(p);
    r := SolveSymbolic(oracle, p, gs);
    match r
    case Failed(SameTimeWrites) => assert false;
    case Failed(ClusterUnmatched) => assert false;
    case Failed(EngineDisagreement) => assert false;
    case Solution(_, _) =>
      MixedIsForced(p, uncertain, r.matches, r.forced[0]);
  }

  /** A world of the rows within the window, in paired accesses, with the claim false. */
  ghost predicate ForcedClaimFails(p: int, bus: map<int, Member>, w: World, c: Claim)
    requires p > 0
  {
    var gs := FiveGroups(MIXED, 0, 1, 1);
    IsBus(AllGroups(gs, p), bus) && PairedAccesses(bus, MATES) && RealWorld(gs, p, bus, w) && InWindow(bus, p, w) && !ClaimHolds(w, c)
  }
}
