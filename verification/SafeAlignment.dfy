/** Alignment as a safe removal: pairs in the solution, pairs in every world, and the alignment itself. */
module SafeAlignment {
  import opened Wrappers
  import opened Sets
  import opened Rows
  import opened CellMatching
  import opened CellChain
  import opened MemoryWorlds
  import opened Forcing
  import opened SymbolicSolve
  import opened SolvedRows
  import opened Removal
  import Presolution

  // ---- Removing pairs from a world ----

  ghost function Survivors(bus: map<int, Member>, removed: set<int>): map<int, Member> {
    map o | o in bus && o !in removed :: bus[o]
  }

  ghost function RestWorld(w: World, removed: set<int>): World {
    World(w.clock, w.bases, w.cells, Minus(w.src, removed), Minus(w.stamp, removed))
  }

  /** In the world `w` the removed receives read exactly the removed sends. */
  ghost predicate WorldPairsOff(bus: map<int, Member>, w: World, removed: set<int>) {
    && (forall r :: r in Ords(bus, Recv) && r in removed ==> r in w.src && w.src[r] in removed)
    && (forall r :: r in w.src && w.src[r] in removed ==> r in removed)
    && (forall s :: s in Ords(bus, Send) && s in removed ==> s in w.src.Values)
  }

  lemma RestReads(bus: map<int, Member>, w: World, removed: set<int>)
    requires Indexed(bus) && ReadsWell(bus, w) && WorldPairsOff(bus, w, removed)
    ensures ReadsWell(Survivors(bus, removed), RestWorld(w, removed))
  {
    var bus', w' := Survivors(bus, removed), RestWorld(w, removed);
    forall r | r in w'.src.Keys ensures r in Ords(bus', Recv) {
      assert r in w.src.Keys;
    }
    forall s | s in w'.src.Values ensures s in Ords(bus', Send) {
      var r := KeyOf(w'.src, s);
      ValueOf(w.src, r);
    }
  }

  lemma RestUnread(bus: map<int, Member>, w: World, removed: set<int>)
    requires ReadsWell(bus, w) && WorldPairsOff(bus, w, removed)
    ensures Ords(Survivors(bus, removed), Recv) - RestWorld(w, removed).src.Keys == Ords(bus, Recv) - w.src.Keys
    ensures Ords(Survivors(bus, removed), Send) - RestWorld(w, removed).src.Values == Ords(bus, Send) - w.src.Values
  {
    var bus', w' := Survivors(bus, removed), RestWorld(w, removed);
    forall r | r in Ords(bus, Recv) - w.src.Keys ensures r in Ords(bus', Recv) - w'.src.Keys {
      assert r in bus' && bus'[r].row.kind.Recv?;
    }
    forall r | r in Ords(bus', Recv) - w'.src.Keys ensures r in Ords(bus, Recv) - w.src.Keys {
      assert r in w.src.Keys ==> r in w'.src.Keys;
    }
    SameSet(Ords(bus', Recv) - w'.src.Keys, Ords(bus, Recv) - w.src.Keys);
    forall s | s in Ords(bus', Send) - w'.src.Values ensures s in Ords(bus, Send) - w.src.Values {
      if s in w.src.Values {
        var r := KeyOf(w.src, s);
        KeptRead(bus, w, removed, r);
      }
    }
    forall s | s in Ords(bus, Send) - w.src.Values ensures s in Ords(bus', Send) - w'.src.Values {
      if s in w'.src.Values {
        var r := KeyOf(w'.src, s);
        ValueOf(w.src, r);
      }
    }
    SameSet(Ords(bus', Send) - w'.src.Values, Ords(bus, Send) - w.src.Values);
  }

  lemma KeptRead(bus: map<int, Member>, w: World, removed: set<int>, r: int)
    requires ReadsWell(bus, w) && WorldPairsOff(bus, w, removed) && r in w.src
    ensures w.src[r] !in removed ==> w.src[r] in RestWorld(w, removed).src.Values
  {
    assert r in w.src.Keys;
    if w.src[r] !in removed {
      assert r !in removed;
      ValueOf(RestWorld(w, removed).src, r);
    }
  }

  /** Removing pairs leaves a valid world in which the same receives read the entry values, the same
      sends escape and every other receive reads what it read. */
  lemma RemovalKeepsWorld(bus: map<int, Member>, w: World, removed: set<int>)
    requires Indexed(bus) && ValidWorld(bus, w) && WorldPairsOff(bus, w, removed)
    ensures ValidWorld(Survivors(bus, removed), RestWorld(w, removed))
    ensures Ords(Survivors(bus, removed), Recv) - RestWorld(w, removed).src.Keys == Ords(bus, Recv) - w.src.Keys
    ensures Ords(Survivors(bus, removed), Send) - RestWorld(w, removed).src.Values == Ords(bus, Send) - w.src.Values
    ensures forall r :: r in RestWorld(w, removed).src ==> r in w.src && RestWorld(w, removed).src[r] == w.src[r]
  {
    RestReads(bus, w, removed);
    RestUnread(bus, w, removed);
    RestBoundaries(bus, w, removed);
  }

  lemma RestBoundaries(bus: map<int, Member>, w: World, removed: set<int>)
    requires Indexed(bus) && ValidWorld(bus, w) && WorldPairsOff(bus, w, removed)
    ensures WitnessesBounded(Survivors(bus, removed), RestWorld(w, removed))
    ensures OneInput(Survivors(bus, removed), RestWorld(w, removed))
    ensures OneOutput(Survivors(bus, removed), RestWorld(w, removed))
  {
    var bus', w' := Survivors(bus, removed), RestWorld(w, removed);
    RestUnread(bus, w, removed);
    forall x, y | x in Ords(bus', Recv) && y in Ords(bus', Recv) && x != y && x !in w'.src && y !in w'.src
      ensures CellOf(w.cells, bus'[x]) != CellOf(w.cells, bus'[y])
    {
      assert x in Ords(bus, Recv) - w.src.Keys && y in Ords(bus, Recv) - w.src.Keys;
    }
    forall x, y | x in Ords(bus', Send) && y in Ords(bus', Send) && x != y && x !in w'.src.Values && y !in w'.src.Values
      ensures CellOf(w.cells, bus'[x]) != CellOf(w.cells, bus'[y])
    {
      assert x in Ords(bus', Send) - w'.src.Values && y in Ords(bus', Send) - w'.src.Values;
    }
  }

  // ---- From the check to the worlds ----

  ghost predicate AllPairedOff(gs: seq<KeyGroup>, matches: seq<CellMatch>, forced: seq<map<Claim, bool>>, removed: set<int>)
    requires |gs| == |matches| == |forced|
  {
    forall g :: 0 <= g < |gs| ==> PairedOff(Table(gs[g].sends), Table(gs[g].recvs), matches[g], forced[g], removed)
  }

  lemma SpacePairsOff(gs: seq<KeyGroup>, matches: seq<CellMatch>, forced: seq<map<Claim, bool>>, view: map<int, SolvedRow>, removed: set<int>)
    requires SeparateGroups(gs) && Covered(gs, matches, forced) && SpaceTells(gs, matches, forced, |gs|, view)
    requires Balanced(removed, view)
    ensures AllPairedOff(gs, matches, forced, removed)
  {
    forall g | 0 <= g < |gs| ensures PairedOff(Table(gs[g].sends), Table(gs[g].recvs), matches[g], forced[g], removed) {
      GroupIsSeparate(gs, g);
      CellPairsOff(gs[g].sends, gs[g].recvs, matches[g], forced[g], view, removed);
    }
  }

  /** The self-balance check accepts a removal exactly when every cell's removed receives read, by forced edges, its
      removed sends. */
  lemma BalancedExactly(gs: seq<KeyGroup>, matches: seq<CellMatch>, forced: seq<map<Claim, bool>>, view: map<int, SolvedRow>, removed: set<int>)
    requires SeparateGroups(gs) && Covered(gs, matches, forced) && SpaceTells(gs, matches, forced, |gs|, view)
    requires view.Keys == OrdsOf(gs, |gs|)
    ensures Balanced(removed, view) <==> AllPairedOff(gs, matches, forced, removed)
  {
    hide Correct, PairedOff, Justified, AllTell, CoversMined;
    if Balanced(removed, view) {
      SpacePairsOff(gs, matches, forced, view, removed);
    }
    if AllPairedOff(gs, matches, forced, removed) {
      forall o | o in removed && o in view ensures Justified(removed, view[o]) {
        var g := GroupOfRow(gs, |gs|, o);
        GroupIsSeparate(gs, g);
        PairedOffBalances(gs[g].sends, gs[g].recvs, matches[g], forced[g], view, removed);
      }
    }
  }

  /** The removal takes rows of the group. */
  predicate Touched(gs: seq<KeyGroup>, removed: set<int>, g: nat)
    requires g < |gs|
  {
    GroupOrds(gs[g]) * removed != {}
  }

  /** The forced claims of the groups the removal touches hold. */
  ghost predicate AllHold(gs: seq<KeyGroup>, forced: seq<map<Claim, bool>>, removed: set<int>, w: World)
    requires |gs| == |forced|
  {
    forall g :: 0 <= g < |gs| && Touched(gs, removed, g) ==> AllForcedHold(forced[g], w)
  }

  /** No confusable key is at the cell of a group the removal touches. */
  ghost predicate UnmetWhere(gs: seq<KeyGroup>, removed: set<int>, w: World) {
    forall g :: 0 <= g < |gs| && Touched(gs, removed, g) ==> Unmet(gs, g, w)
  }

  lemma RowInTable(gs: seq<KeyGroup>, p: int, bus: map<int, Member>, o: int)
    requires p > 0 && DistinctGroups(AllGroups(gs, p)) && IsBus(AllGroups(gs, p), bus) && o in bus
    ensures 0 <= bus[o].group < |gs|
    ensures o in Table(TimedOf(gs[bus[o].group], bus[o].row.kind)) && o in GroupOrds(gs[bus[o].group])
  {
    TimesAreTable(gs, p, bus, bus[o].group, bus[o].row.kind);
    assert o in Presolution.TimesOf(bus, bus[o].group, bus[o].row.kind).Keys;
  }

  lemma RemovedReceive(gs: seq<KeyGroup>, p: int, matches: seq<CellMatch>, forced: seq<map<Claim, bool>>, bus: map<int, Member>,
                       w: World, removed: set<int>, r: int)
    requires p > 0 && DistinctGroups(AllGroups(gs, p)) && IsBus(AllGroups(gs, p), bus)
    requires |gs| == |matches| == |forced| && AllPairedOff(gs, matches, forced, removed) && AllHold(gs, forced, removed, w)
    requires r in Ords(bus, Recv) && r in removed
    ensures r in w.src && w.src[r] in removed
  {
    RowInTable(gs, p, bus, r);
    var g := bus[r].group;
    var s := Reading(matches[g].edges)[r];
    assert r in GroupOrds(gs[g]) * removed;
    assert Says(forced[g], EdgeClaim(r, s));
    assert AllForcedHold(forced[g], w);
    assert ClaimHolds(w, EdgeClaim(r, s));
  }

  lemma RemovedSend(gs: seq<KeyGroup>, p: int, matches: seq<CellMatch>, forced: seq<map<Claim, bool>>, bus: map<int, Member>,
                    w: World, removed: set<int>, s: int) returns (r: int)
    requires p > 0 && DistinctGroups(AllGroups(gs, p)) && IsBus(AllGroups(gs, p), bus) && AllCorrect(gs, matches)
    requires |gs| == |matches| == |forced| && AllPairedOff(gs, matches, forced, removed) && AllHold(gs, forced, removed, w)
    requires s in Ords(bus, Send) && s in removed
    ensures r in removed && r in w.src && w.src[r] == s
  {
    RowInTable(gs, p, bus, s);
    var g := bus[s].group;
    r := KeyOf(Reading(matches[g].edges), s);
    ReaderRemoved(Table(gs[g].sends), Table(gs[g].recvs), matches[g], forced[g], removed, r);
    assert s in GroupOrds(gs[g]) * removed;
    assert AllForcedHold(forced[g], w);
    assert ClaimHolds(w, EdgeClaim(r, s));
  }

  lemma ReaderRemoved(sends: map<int, int>, recvs: map<int, int>, c: CellMatch, f: map<Claim, bool>, removed: set<int>, r: int)
    requires Correct(sends, recvs, c) && c.note.Clean? && PairedOff(sends, recvs, c, f, removed)
    requires r in Reading(c.edges) && Reading(c.edges)[r] in removed
    ensures r in removed && Says(f, EdgeClaim(r, Reading(c.edges)[r]))
  {
    assert r in Reading(c.edges).Keys;
    assert r in recvs;
  }

  /** In every world where the forced claims hold, a self-balanced removal pairs off. */
  lemma RemovalPairsOff(gs: seq<KeyGroup>, p: int, matches: seq<CellMatch>, forced: seq<map<Claim, bool>>, bus: map<int, Member>,
                        w: World, removed: set<int>)
    requires p > 0 && DistinctGroups(AllGroups(gs, p)) && IsBus(AllGroups(gs, p), bus) && AllCorrect(gs, matches)
    requires |gs| == |matches| == |forced| && AllPairedOff(gs, matches, forced, removed) && AllHold(gs, forced, removed, w)
    requires ReadsWell(bus, w)
    ensures WorldPairsOff(bus, w, removed)
  {
    forall r | r in Ords(bus, Recv) && r in removed ensures r in w.src && w.src[r] in removed {
      RemovedReceive(gs, p, matches, forced, bus, w, removed, r);
    }
    forall s | s in Ords(bus, Send) && s in removed ensures s in w.src.Values {
      var r := RemovedSend(gs, p, matches, forced, bus, w, removed, s);
      ValueOf(w.src, r);
    }
    forall r | r in w.src && w.src[r] in removed ensures r in removed {
      ValueOf(w.src, r);
      var r' := RemovedSend(gs, p, matches, forced, bus, w, removed, w.src[r]);
    }
  }

  /** What is left is a world of the survivors with the same entry reads, the same escaping sends and the same
      reads in between. */
  ghost predicate LeavesWorldIntact(gs: seq<KeyGroup>, p: int, bus: map<int, Member>, w: World, removed: set<int>)
    requires p > 0
  {
    var bus', w' := Survivors(bus, removed), RestWorld(w, removed);
    && RealWorld(gs, p, bus', w')
    && Ords(bus', Recv) - w'.src.Keys == Ords(bus, Recv) - w.src.Keys
    && Ords(bus', Send) - w'.src.Values == Ords(bus, Send) - w.src.Values
    && forall r :: r in w'.src ==> r in w.src && w'.src[r] == w.src[r]
  }

  /** Main result on removal: taking a self-balanced set of rows out of a world leaves the world otherwise intact, if no
      confusable key is at the cell of a group it touches. */
  lemma SafeRemoval(gs: seq<KeyGroup>, p: int, matches: seq<CellMatch>, forced: seq<map<Claim, bool>>, view: map<int, SolvedRow>,
                    bus: map<int, Member>, mate: map<int, int>, w: World, removed: set<int>)
    requires p > 0 && GoodKeys(gs, p) && DistinctGroups(AllGroups(gs, p))
    requires Covered(gs, matches, forced) && SpaceTells(gs, matches, forced, |gs|, view) && Balanced(removed, view)
    requires forall g :: 0 <= g < |gs| ==> GroupDone(gs, p, matches, g, forced[g])
    requires IsBus(AllGroups(gs, p), bus) && RealWorld(gs, p, bus, w)
    requires (PairedAccesses(bus, mate) && UnmetWhere(gs, removed, w)) || forall g :: 0 <= g < |gs| ==> Lone(gs, g)
    ensures LeavesWorldIntact(gs, p, bus, w, removed)
  {
    hide GoodKeys, DistinctGroups, SeparateGroups, SpaceTells, Balanced, Correct, PairedOff, ValidWorld, PlacedAt;
    GroupsAreSeparate(gs, p);
    SpacePairsOff(gs, matches, forced, view, removed);
    ForcedAllHold(gs, p, matches, forced, bus, mate, w, removed);
    CoveredCorrect(gs, matches, forced);
    ValidReads(bus, w);
    RemovalPairsOff(gs, p, matches, forced, bus, w, removed);
    RemovalKeepsWorld(bus, w, removed);
    PlacedStays(gs, p, w, RestWorld(w, removed));
  }

  lemma ValidReads(bus: map<int, Member>, w: World)
    requires ValidWorld(bus, w)
    ensures ReadsWell(bus, w)
  {
  }

  lemma CoveredCorrect(gs: seq<KeyGroup>, matches: seq<CellMatch>, forced: seq<map<Claim, bool>>)
    requires Covered(gs, matches, forced)
    ensures AllCorrect(gs, matches)
  {
    hide Correct, CoversMined;
  }

  lemma ForcedAllHold(gs: seq<KeyGroup>, p: int, matches: seq<CellMatch>, forced: seq<map<Claim, bool>>, bus: map<int, Member>,
                      mate: map<int, int>, w: World, removed: set<int>)
    requires p > 0 && |gs| == |matches| == |forced| && forall g :: 0 <= g < |gs| ==> GroupDone(gs, p, matches, g, forced[g])
    requires IsBus(AllGroups(gs, p), bus) && RealWorld(gs, p, bus, w)
    requires (PairedAccesses(bus, mate) && UnmetWhere(gs, removed, w)) || forall g :: 0 <= g < |gs| ==> Lone(gs, g)
    ensures AllHold(gs, forced, removed, w)
  {
    hide Lone, Unmet, PairedAccesses, RealWorld, IsBus, CoversMined, Touched, AllForcedHold;
    forall g | 0 <= g < |gs| && Touched(gs, removed, g) ensures AllForcedHold(forced[g], w) {
      assert GroupDone(gs, p, matches, g, forced[g]);
      assert ForcedSoundly(gs, p, g, Lone(gs, g), forced[g]);
      assert Lone(gs, g) || (PairedAccesses(bus, mate) && Unmet(gs, g, w));
    }
  }

  lemma PlacedStays(gs: seq<KeyGroup>, p: int, w: World, w': World)
    requires p > 0 && Placed(gs, p, w) && w'.cells == w.cells && w'.bases == w.bases
    ensures Placed(gs, p, w')
  {
  }

  lemma GroupsAreSeparate(gs: seq<KeyGroup>, p: int)
    requires p > 0 && DistinctGroups(AllGroups(gs, p))
    ensures SeparateGroups(gs)
  {
    forall g | 0 <= g < |gs|
      ensures DistinctOrds(gs[g].sends) && DistinctOrds(gs[g].recvs) && RowNumbers(gs[g].sends) !! RowNumbers(gs[g].recvs)
    {
      GroupRowsDistinct(gs, p, g);
      forall o | o in RowNumbers(gs[g].sends) && o in RowNumbers(gs[g].recvs) ensures false {
        KindsDiffer(gs, p, g, g, Send, Recv, o);
      }
    }
    forall g, h | 0 <= g < h < |gs| ensures GroupOrds(gs[g]) !! GroupOrds(gs[h]) {
      forall o | o in GroupOrds(gs[g]) && o in GroupOrds(gs[h]) ensures false {
        var k := if o in RowNumbers(gs[g].sends) then Send else Recv;
        var l := if o in RowNumbers(gs[h].sends) then Send else Recv;
        KindsDiffer(gs, p, g, h, k, l, o);
      }
    }
  }

  lemma KindsDiffer(gs: seq<KeyGroup>, p: int, g: nat, h: nat, k: Kind, l: Kind, o: int)
    requires p > 0 && DistinctGroups(AllGroups(gs, p)) && g < |gs| && h < |gs| && (g != h || k != l)
    requires o in RowNumbers(TimedOf(gs[g], k))
    ensures o !in RowNumbers(TimedOf(gs[h], l))
  {
    if o in RowNumbers(TimedOf(gs[h], l)) {
      var i :| 0 <= i < |TimedOf(gs[g], k)| && TimedOf(gs[g], k)[i].ord == o;
      var j :| 0 <= j < |TimedOf(gs[h], l)| && TimedOf(gs[h], l)[j].ord == o;
      var a := if k.Send? then i else |gs[g].sends| + i;
      var b := if l.Send? then j else |gs[h].sends| + j;
      DifferentPlaces(AllGroups(gs, p), g, a, h, b);
    }
  }

  lemma DifferentPlaces(groups: seq<seq<EngineRow>>, g: nat, i: nat, h: nat, j: nat)
    requires DistinctGroups(groups) && g < |groups| && h < |groups| && i < |groups[g]| && j < |groups[h]| && (g != h || i != j)
    ensures groups[g][i].ord != groups[h][j].ord
  {
  }

  // ---- Counting the removed pairs ----

  function RemovedOf(kind: Kind, removed: set<int>, view: map<int, SolvedRow>): set<int> {
    set o | o in removed && o in view && view[o].kind == kind
  }

  /** The receive and the send of a removed pair name each other. */
  ghost predicate Mutual(view: map<int, SolvedRow>, r: int, s: int) {
    r in view && s in view && view[r].kind.Recv? && view[s].kind.Send? && view[r].readsFrom == Some(s) && view[s].readBy == [r]
  }

  lemma ReadingIsMutual(sends: seq<Timed>, recvs: seq<Timed>, c: CellMatch, f: map<Claim, bool>, view: map<int, SolvedRow>, r: int)
    requires DistinctOrds(sends) && DistinctOrds(recvs) && Correct(Table(sends), Table(recvs), c) && c.note.Clean?
    requires AllTell(c, f, Send, sends, view) && AllTell(c, f, Recv, recvs, view)
    requires r in Reading(c.edges)
    ensures Mutual(view, r, Reading(c.edges)[r])
  {
    var m, s := Reading(c.edges), Reading(c.edges)[r];
    assert r in m.Keys && r in Table(recvs) && s in Table(sends);
    var i :| 0 <= i < |recvs| && recvs[i].ord == r;
    var j :| 0 <= j < |sends| && sends[j].ord == s;
    assert Tells(c, f, Recv, r, view[r]) && Tells(c, f, Send, s, view[s]);
    assert c.input != Some(r);
  }

  lemma {:induction false} GroupOfRow(gs: seq<KeyGroup>, n: nat, o: int) returns (g: nat)
    requires n <= |gs| && o in OrdsOf(gs, n)
    ensures g < n && o in GroupOrds(gs[g])
  {
    if o in GroupOrds(gs[n - 1]) {
      g := n - 1;
    } else {
      g := GroupOfRow(gs, n - 1, o);
    }
  }

  lemma RemovedReceivesHavePartners(gs: seq<KeyGroup>, matches: seq<CellMatch>, forced: seq<map<Claim, bool>>, view: map<int, SolvedRow>,
                                    removed: set<int>, r: int)
    requires SeparateGroups(gs) && Covered(gs, matches, forced) && SpaceTells(gs, matches, forced, |gs|, view)
    requires view.Keys == OrdsOf(gs, |gs|) && Balanced(removed, view) && AllPairedOff(gs, matches, forced, removed)
    requires r in RemovedOf(Recv, removed, view)
    ensures view[r].readsFrom.Some? && view[r].readsFrom.value in removed && Mutual(view, r, view[r].readsFrom.value)
  {
    var g := GroupOfRow(gs, |gs|, r);
    GroupIsSeparate(gs, g);
    KindOfRow(gs[g], matches[g], forced[g], view, r);
    assert r in Table(gs[g].recvs);
    ReadingIsMutual(gs[g].sends, gs[g].recvs, matches[g], forced[g], view, r);
  }

  lemma KindOfRow(g: KeyGroup, c: CellMatch, f: map<Claim, bool>, view: map<int, SolvedRow>, o: int)
    requires AllTell(c, f, Send, g.sends, view) && AllTell(c, f, Recv, g.recvs, view)
    requires o in GroupOrds(g)
    ensures o in view && o in RowNumbers(TimedOf(g, view[o].kind))
  {
    if o in RowNumbers(g.sends) {
      var i :| 0 <= i < |g.sends| && g.sends[i].ord == o;
      assert Tells(c, f, Send, o, view[o]);
    } else {
      var i :| 0 <= i < |g.recvs| && g.recvs[i].ord == o;
      assert Tells(c, f, Recv, o, view[o]);
    }
  }

  lemma RemovedSendsHavePartners(gs: seq<KeyGroup>, matches: seq<CellMatch>, forced: seq<map<Claim, bool>>, view: map<int, SolvedRow>,
                                 removed: set<int>, s: int) returns (r: int)
    requires SeparateGroups(gs) && Covered(gs, matches, forced) && SpaceTells(gs, matches, forced, |gs|, view)
    requires view.Keys == OrdsOf(gs, |gs|) && Balanced(removed, view) && AllPairedOff(gs, matches, forced, removed)
    requires s in RemovedOf(Send, removed, view)
    ensures r in removed && Mutual(view, r, s)
  {
    var g := GroupOfRow(gs, |gs|, s);
    GroupIsSeparate(gs, g);
    KindOfRow(gs[g], matches[g], forced[g], view, s);
    assert s in Table(gs[g].sends);
    r := KeyOf(Reading(matches[g].edges), s);
    ReadingIsMutual(gs[g].sends, gs[g].recvs, matches[g], forced[g], view, r);
    ReaderRemoved(Table(gs[g].sends), Table(gs[g].recvs), matches[g], forced[g], removed, r);
  }

  ghost function PairMap(removed: set<int>, view: map<int, SolvedRow>): map<int, int>
  {
    map r | r in RemovedOf(Recv, removed, view) && view[r].readsFrom.Some? :: view[r].readsFrom.value
  }

  /** A self-balanced removal takes as many receives as sends. */
  lemma RemovedPairsCount(gs: seq<KeyGroup>, matches: seq<CellMatch>, forced: seq<map<Claim, bool>>, view: map<int, SolvedRow>, removed: set<int>)
    requires SeparateGroups(gs) && Covered(gs, matches, forced) && SpaceTells(gs, matches, forced, |gs|, view)
    requires view.Keys == OrdsOf(gs, |gs|) && Balanced(removed, view)
    ensures |RemovedOf(Recv, removed, view)| == |RemovedOf(Send, removed, view)|
  {
    SpacePairsOff(gs, matches, forced, view, removed);
    var pairs := PairMap(removed, view);
    forall r | r in RemovedOf(Recv, removed, view)
      ensures view[r].readsFrom.Some? && view[r].readsFrom.value in removed && Mutual(view, r, view[r].readsFrom.value)
    {
      RemovedReceivesHavePartners(gs, matches, forced, view, removed, r);
    }
    forall s | s in RemovedOf(Send, removed, view) ensures s in pairs.Values {
      var r := RemovedSendsHavePartners(gs, matches, forced, view, removed, s);
      ValueOf(pairs, r);
    }
    PairsAreBijection(removed, view, pairs);
  }

  lemma PairsAreBijection(removed: set<int>, view: map<int, SolvedRow>, pairs: map<int, int>)
    requires pairs == PairMap(removed, view)
    requires forall r :: r in RemovedOf(Recv, removed, view) ==>
      view[r].readsFrom.Some? && view[r].readsFrom.value in removed && Mutual(view, r, view[r].readsFrom.value)
    requires forall s :: s in RemovedOf(Send, removed, view) ==> s in pairs.Values
    ensures |RemovedOf(Recv, removed, view)| == |RemovedOf(Send, removed, view)|
  {
    forall x, y | x in pairs && y in pairs && x != y ensures pairs[x] != pairs[y] {
      assert Mutual(view, x, pairs[x]) && Mutual(view, y, pairs[y]);
    }
    InjectiveSize(pairs);
    forall r | r in RemovedOf(Recv, removed, view) ensures r in pairs.Keys {
      assert view[r].readsFrom.Some?;
    }
    forall r | r in pairs.Keys ensures r in RemovedOf(Recv, removed, view) {
    }
    SameSet(pairs.Keys, RemovedOf(Recv, removed, view));
    forall s | s in RemovedOf(Send, removed, view) ensures s in pairs.Values {
    }
    forall s | s in pairs.Values ensures s in RemovedOf(Send, removed, view) {
      var r := KeyOf(pairs, s);
      assert Mutual(view, r, s);
    }
    SameSet(pairs.Values, RemovedOf(Send, removed, view));
  }
}