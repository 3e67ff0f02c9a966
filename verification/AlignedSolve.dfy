/** Alignment together with the solve it rests on: an accepted alignment changes no world of the bus. */
module AlignedSolve {
  import opened Wrappers
  import opened Sets
  import opened Rows
  import opened CellMatching
  import opened MemoryWorlds
  import opened ClusterEncoding
  import opened Forcing
  import opened SymbolicSolve
  import opened SolvedRows
  import opened Removal
  import opened SafeAlignment
  import opened AlignSpaces
  import Align

  /** The groups hold exactly the active rows of the bus, by direction. */
  ghost predicate GroupsRows(gs: seq<KeyGroup>, before: seq<Align.BusRow>) {
    forall b :: b in before ==> (
      && (b.ord in OrdsOf(gs, |gs|) <==> !b.effect.Disabled?)
      && (forall g :: 0 <= g < |gs| && b.ord in RowNumbers(gs[g].recvs) ==> b.effect.Receives?)
      && (forall g :: 0 <= g < |gs| && b.ord in RowNumbers(gs[g].sends) ==> b.effect.Sends?))
  }

  /** Every cell is uniquely matched and aliases with no other. */
  predicate AllUnique(gs: seq<KeyGroup>, matches: seq<CellMatch>)
    requires |matches| == |gs|
  {
    forall g :: 0 <= g < |gs| ==> matches[g].note.Clean? && matches[g].unique && Lone(gs, g)
  }

  ghost predicate AllLone(gs: seq<KeyGroup>) {
    forall g :: 0 <= g < |gs| ==> Lone(gs, g)
  }

  /** Accesses are paired by `mate` and no confusable key is at the cell of a touched group, or no cells may alias. */
  ghost predicate Accessed(gs: seq<KeyGroup>, bus: map<int, Member>, mate: map<int, int>, removed: set<int>, w: World) {
    (PairedAccesses(bus, mate) && UnmetWhere(gs, removed, w)) || AllLone(gs)
  }

  /** In every such world the removal leaves the rest intact. */
  ghost predicate SafeWhereUnmet(gs: seq<KeyGroup>, p: int, removed: set<int>)
    requires p > 0
  {
    forall bus, mate, w ::
      (IsBus(AllGroups(gs, p), bus) && RealWorld(gs, p, bus, w) && Accessed(gs, bus, mate, removed, w))
      ==> LeavesWorldIntact(gs, p, bus, w, removed)
  }

  /** Keys that ensure this: no key may meet a touched group's cell unseen by the encoding. */
  predicate TouchedUnconfused(gs: seq<KeyGroup>, removed: set<int>) {
    forall g :: 0 <= g < |gs| && Touched(gs, removed, g) ==> Unconfused(gs, g)
  }

  /** In every world of paired accesses the removal leaves the rest intact. */
  ghost predicate SafeInEveryWorld(gs: seq<KeyGroup>, p: int, removed: set<int>)
    requires p > 0
  {
    forall bus, mate, w :: IsBus(AllGroups(gs, p), bus) && RealWorld(gs, p, bus, w) && PairedAccesses(bus, mate) ==>
      LeavesWorldIntact(gs, p, bus, w, removed)
  }

  lemma UnconfusedIsSafe(gs: seq<KeyGroup>, p: int, removed: set<int>)
    requires p > 0 && SafeWhereUnmet(gs, p, removed) && TouchedUnconfused(gs, removed)
    ensures SafeInEveryWorld(gs, p, removed)
  {
    hide RealWorld, LeavesWorldIntact, PairedAccesses, IsBus;
    forall bus, mate, w | IsBus(AllGroups(gs, p), bus) && RealWorld(gs, p, bus, w) && PairedAccesses(bus, mate)
      ensures LeavesWorldIntact(gs, p, bus, w, removed)
    {
      forall g | 0 <= g < |gs| && Touched(gs, removed, g) ensures Unmet(gs, g, w) {
        assert Unconfused(gs, g);
      }
      assert Accessed(gs, bus, mate, removed, w);
    }
  }

  /** What a solution gives the alignment. */
  ghost predicate SolvedSpace(gs: seq<KeyGroup>, p: int, view: map<int, SolvedRow>, matches: seq<CellMatch>, forced: seq<map<Claim, bool>>)
    requires p > 0
  {
    && Covered(gs, matches, forced) && SpaceTells(gs, matches, forced, |gs|, view) && view.Keys == OrdsOf(gs, |gs|)
    && forall g :: 0 <= g < |gs| ==> GroupDone(gs, p, matches, g, forced[g])
  }

  /** What the solve reports: a failure has its cause in the cells, a solution is right and its verdicts hold, exactly
      so where the solver decides. */
  ghost predicate Reports(oracle: (nat, seq<Formula>) -> Answer, gs: seq<KeyGroup>, p: int, sol: SymbolicResult)
    requires p > 0
  {
    && (sol == Failed(SameTimeWrites) <==> exists g :: 0 <= g < |gs| && !DistinctTimes(gs[g].sends))
    && (sol == Failed(ClusterUnmatched) ==> Unpairable(gs, p))
    && (sol == Failed(EngineDisagreement) ==>
          exists matches: seq<CellMatch>, g: nat :: AllCorrect(gs, matches) && g < |gs| && matches[g].note.Clean? && !Lone(gs, g) && !CleanCluster(gs, matches, g))
    && (sol.Solution? ==> Covered(gs, sol.matches, sol.forced) && forall g :: 0 <= g < |gs| ==> GroupDone(gs, p, sol.matches, g, sol.forced[g]))
    && (Decisive(oracle) && sol.Solution? ==>
          forall uncertain, g :: ExactlyForced(gs, p, uncertain, sol.matches, g) ==> ExactVerdicts(gs, p, uncertain, g, sol.forced[g]))
    && (sol.Solution? ==> forall uncertain, g :: OverCap(gs, p, uncertain, sol.matches, g) ==> NoneForced(sol.forced[g]))
  }

  /** The removal stands: only disabled rows went outside the first space, or each cell's removed receives read, by
      forced edges, its removed sends, every cell being unique in the first space. */
  ghost predicate Stands(gs: seq<KeyGroup>, firstSpace: bool, before: seq<Align.BusRow>, removed: set<int>, sol: SymbolicResult) {
    || (!firstSpace && !ActiveRemoved(before, removed))
    || (sol.Solution? && |gs| == |sol.matches| == |sol.forced| && (firstSpace ==> AllUnique(gs, sol.matches))
        && AllPairedOff(gs, sol.matches, sol.forced, removed))
  }

  /** Solves the space for the alignment; nothing when the solve fails. */
  method Solve(oracle: (nat, seq<Formula>) -> Answer, p: int, gs: seq<KeyGroup>, ghost before: seq<Align.BusRow>)
    returns (s: Option<Space>, ghost sol: SymbolicResult)
    requires SoundOracle(oracle) && p > 0 && GoodKeys(gs, p) && DistinctGroups(AllGroups(gs, p)) && GroupsRows(gs, before)
    ensures Reports(oracle, gs, p, sol) && (s.Some? <==> sol.Solution?)
    ensures s.Some? ==> Fits(before, s.value.view) && SolvedSpace(gs, p, s.value.view, sol.matches, sol.forced)
    ensures s.Some? ==> (s.value.unique <==> AllUnique(gs, sol.matches))
  {
    hide GoodKeys, GroupDone, Correct, DistinctGroups, ExactlyForced, ExactVerdicts, OverCap, NoneForced, Unpairable, DistinctTimes, CleanCluster, CoversMined;
    var solved := SolveSymbolic(oracle, p, gs);
    sol := solved;
    if solved.Failed? {
      return None, sol;
    }
    GroupsAreSeparate(gs, p);
    CoveredByDone(gs, p, solved.matches, solved.forced);
    var view := BuildRows(gs, solved.matches, solved.forced);
    ViewFits(gs, solved.matches, solved.forced, view, before);
    s := Some(Space(view, AllUnique(gs, solved.matches)));
  }

  lemma CoveredByDone(gs: seq<KeyGroup>, p: int, matches: seq<CellMatch>, forced: seq<map<Claim, bool>>)
    requires p > 0 && AllCorrect(gs, matches) && |forced| == |gs|
    requires forall g :: 0 <= g < |gs| ==> GroupDone(gs, p, matches, g, forced[g])
    ensures Covered(gs, matches, forced)
  {
    hide Correct, CoversMined;
  }

  lemma ViewFits(gs: seq<KeyGroup>, matches: seq<CellMatch>, forced: seq<map<Claim, bool>>, view: map<int, SolvedRow>, before: seq<Align.BusRow>)
    requires SeparateGroups(gs) && |gs| == |matches| == |forced| && SpaceTells(gs, matches, forced, |gs|, view)
    requires view.Keys == OrdsOf(gs, |gs|) && GroupsRows(gs, before)
    ensures Fits(before, view)
  {
    hide SeparateGroups, Tells;
    forall b | b in before && b.ord in view ensures view[b.ord].kind.Recv? <==> b.effect.Receives? {
      var g := GroupOfRow(gs, |gs|, b.ord);
      KindOfRow(gs[g], matches[g], forced[g], view, b.ord);
    }
  }

  /** Main result on alignment: whatever is removed by an accepted alignment, the rest of the bus is left as it was in
      every world of paired accesses, given that no key may meet a touched group's cell unseen by the encoding. In the
      first space neither is needed, because an accepted solution there has no aliasing cells. It is rejected exactly
      when the rows do not match up or the removal does not stand. */
  method Run(oracle: (nat, seq<Formula>) -> Answer, p: int, gs: seq<KeyGroup>, firstSpace: bool,
             before: seq<Align.BusRow>, after: seq<Align.BusRow>) returns (r: Outcome, ghost sol: SymbolicResult)
    requires SoundOracle(oracle) && p > 0 && GoodKeys(gs, p) && DistinctGroups(AllGroups(gs, p))
    requires Align.DistinctRows(before) && Align.DistinctRows(after) && GroupsRows(gs, before)
    requires forall o :: o in OrdsOf(gs, |gs|) ==> o in Align.Ordinals(before)
    ensures Reports(oracle, gs, p, sol)
    ensures r.Rejected? <==>
      || before == [] || Align.Ambiguous(before, after) || Added(before, after)
      || exists kept :: Align.KeptOf(before, after, kept) && !Stands(gs, firstSpace, before, Align.Ordinals(before) - kept.Keys, sol)
    ensures r.Aligned? ==> Align.KeptOf(before, after, r.a.kept) && r.a.removed == Align.Ordinals(before) - r.a.kept.Keys
    ensures r.Aligned? ==> SafeWhereUnmet(gs, p, r.a.removed)
    ensures r.Aligned? && TouchedUnconfused(gs, r.a.removed) ==> SafeInEveryWorld(gs, p, r.a.removed)
    ensures r.Aligned? && firstSpace ==> AllLone(gs)
  {
    hide GoodKeys, DistinctGroups, GroupsRows, SolvedSpace, Fits, Balanced, Reports, Added, AllPairedOff, AllUnique;
    var s;
    s, sol := Solve(oracle, p, gs, before);
    r := Compute(firstSpace, before, after, s);
    forall removed ensures Acceptable(firstSpace, before, removed, s) <==> Stands(gs, firstSpace, before, removed, sol) {
      AcceptableIffStands(gs, p, firstSpace, before, removed, s, sol);
    }
    if r.Aligned? {
      assert Acceptable(firstSpace, before, r.a.removed, s);
      if s.Some? && (firstSpace ==> s.value.unique) && Balanced(r.a.removed, s.value.view) {
        BalancedIsSafe(gs, p, s.value.view, sol.matches, sol.forced, r.a.removed);
      } else {
        InertIsSafe(gs, p, before, r.a.removed);
      }
      if TouchedUnconfused(gs, r.a.removed) {
        UnconfusedIsSafe(gs, p, r.a.removed);
      }
      if firstSpace {
        UniqueAreLone(gs, sol.matches);
      }
    }
  }

  lemma UniqueAreLone(gs: seq<KeyGroup>, matches: seq<CellMatch>)
    requires |gs| == |matches| && AllUnique(gs, matches)
    ensures AllLone(gs)
  {
  }

  lemma AcceptableIffStands(gs: seq<KeyGroup>, p: int, firstSpace: bool, before: seq<Align.BusRow>, removed: set<int>,
                            s: Option<Space>, sol: SymbolicResult)
    requires p > 0 && GoodKeys(gs, p) && DistinctGroups(AllGroups(gs, p)) && (s.Some? <==> sol.Solution?)
    requires s.Some? ==> SolvedSpace(gs, p, s.value.view, sol.matches, sol.forced) && (s.value.unique <==> AllUnique(gs, sol.matches))
    ensures Acceptable(firstSpace, before, removed, s) <==> Stands(gs, firstSpace, before, removed, sol)
  {
    hide GoodKeys, DistinctGroups, Covered, SpaceTells, Balanced, AllPairedOff, AllUnique, GroupDone;
    if s.Some? {
      GroupsAreSeparate(gs, p);
      BalancedExactly(gs, sol.matches, sol.forced, s.value.view, removed);
      CoveredAlign(gs, sol.matches, sol.forced);
    }
  }

  lemma CoveredAlign(gs: seq<KeyGroup>, matches: seq<CellMatch>, forced: seq<map<Claim, bool>>)
    requires Covered(gs, matches, forced)
    ensures |gs| == |matches| == |forced|
  {
  }

  lemma BalancedIsSafe(gs: seq<KeyGroup>, p: int, view: map<int, SolvedRow>, matches: seq<CellMatch>, forced: seq<map<Claim, bool>>, removed: set<int>)
    requires p > 0 && GoodKeys(gs, p) && DistinctGroups(AllGroups(gs, p))
    requires SolvedSpace(gs, p, view, matches, forced) && Balanced(removed, view)
    ensures SafeWhereUnmet(gs, p, removed)
  {
    hide GoodKeys, DistinctGroups, GroupDone, Correct, LeavesWorldIntact, RealWorld;
    forall bus, mate, w | IsBus(AllGroups(gs, p), bus) && RealWorld(gs, p, bus, w) && Accessed(gs, bus, mate, removed, w)
      ensures LeavesWorldIntact(gs, p, bus, w, removed)
    {
      SafeRemoval(gs, p, matches, forced, view, bus, mate, w, removed);
    }
  }

  /** Taking out disabled rows touches nothing of the bus. */
  lemma InertIsSafe(gs: seq<KeyGroup>, p: int, before: seq<Align.BusRow>, removed: set<int>)
    requires p > 0 && DistinctGroups(AllGroups(gs, p)) && GroupsRows(gs, before)
    requires forall o :: o in OrdsOf(gs, |gs|) ==> o in Align.Ordinals(before)
    requires !ActiveRemoved(before, removed)
    ensures SafeWhereUnmet(gs, p, removed)
  {
    hide DistinctGroups, GroupsRows, LeavesWorldIntact, RealWorld;
    forall bus, w | IsBus(AllGroups(gs, p), bus) && RealWorld(gs, p, bus, w) ensures LeavesWorldIntact(gs, p, bus, w, removed) {
      forall o | o in bus ensures o !in removed {
        RowOnBus(gs, p, bus, o);
        RemovedIsInert(gs, before, removed, o);
      }
      UntouchedIntact(gs, p, bus, w, removed);
    }
  }

  lemma RemovedIsInert(gs: seq<KeyGroup>, before: seq<Align.BusRow>, removed: set<int>, o: int)
    requires GroupsRows(gs, before) && !ActiveRemoved(before, removed) && o in OrdsOf(gs, |gs|) && o in Align.Ordinals(before)
    ensures o !in removed
  {
    var b :| b in before && b.ord == o;
  }

  lemma UntouchedIntact(gs: seq<KeyGroup>, p: int, bus: map<int, Member>, w: World, removed: set<int>)
    requires p > 0 && Indexed(bus) && RealWorld(gs, p, bus, w) && forall o :: o in bus ==> o !in removed
    ensures LeavesWorldIntact(gs, p, bus, w, removed)
  {
    hide ValidWorld, Placed, WorldPairsOff, Survivors, Indexed;
    ValidReads(bus, w);
    NothingPairsOff(bus, w, removed);
    RemovalKeepsWorld(bus, w, removed);
    PlacedStays(gs, p, w, RestWorld(w, removed));
  }

  lemma RowOnBus(gs: seq<KeyGroup>, p: int, bus: map<int, Member>, o: int)
    requires p > 0 && DistinctGroups(AllGroups(gs, p)) && IsBus(AllGroups(gs, p), bus) && o in bus
    ensures o in OrdsOf(gs, |gs|)
  {
    RowInTable(gs, p, bus, o);
    var g := bus[o].group;
    assert o in RowNumbers(TimedOf(gs[g], bus[o].row.kind));
    GroupInOrds(gs, |gs|, g, o);
  }

  lemma {:induction false} GroupInOrds(gs: seq<KeyGroup>, n: nat, g: nat, o: int)
    requires g < n <= |gs| && o in GroupOrds(gs[g])
    ensures o in OrdsOf(gs, n)
  {
    if g < n - 1 {
      GroupInOrds(gs, n - 1, g, o);
    }
  }

  lemma NothingPairsOff(bus: map<int, Member>, w: World, removed: set<int>)
    requires ReadsWell(bus, w) && forall o :: o in bus ==> o !in removed
    ensures WorldPairsOff(bus, w, removed)
  {
    forall r | r in w.src ensures w.src[r] !in removed {
      ValueOf(w.src, r);
      var s := w.src[r];
      assert s in Ords(bus, Send) && s in bus;
    }
  }
}
