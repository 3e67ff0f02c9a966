/** When taking rows out leaves a world intact, and when taking forced pairs out leaves every world intact. */
module RemovalExact {
  import opened Sets
  import opened MemoryWorlds
  import opened KeyMeeting
  import opened AccessWorlds
  import opened ClusterEncoding
  import opened Forcing
  import opened SymbolicSolve
  import opened SafeAlignment
  import opened ForcingExact

  /** Main result on a world: it stays intact without some rows exactly when the removed receives read exactly the
      removed sends there. */
  lemma IntactExactly(gs: seq<KeyGroup>, p: int, bus: map<int, Member>, w: World, removed: set<int>)
    requires p > 0 && Indexed(bus) && RealWorld(gs, p, bus, w)
    ensures LeavesWorldIntact(gs, p, bus, w, removed) <==> WorldPairsOff(bus, w, removed)
  {
    if WorldPairsOff(bus, w, removed) {
      PairedOffLeaves(gs, p, bus, w, removed);
    }
    if LeavesWorldIntact(gs, p, bus, w, removed) {
      IntactPairsOff(gs, p, bus, w, removed);
    }
  }

  lemma PairedOffLeaves(gs: seq<KeyGroup>, p: int, bus: map<int, Member>, w: World, removed: set<int>)
    requires p > 0 && Indexed(bus) && RealWorld(gs, p, bus, w) && WorldPairsOff(bus, w, removed)
    ensures LeavesWorldIntact(gs, p, bus, w, removed)
  {
    hide ValidWorld, PlacedAt;
    RemovalKeepsWorld(bus, w, removed);
    PlacedStays(gs, p, w, RestWorld(w, removed));
  }

  lemma IntactPairsOff(gs: seq<KeyGroup>, p: int, bus: map<int, Member>, w: World, removed: set<int>)
    requires p > 0 && RealWorld(gs, p, bus, w) && LeavesWorldIntact(gs, p, bus, w, removed)
    ensures WorldPairsOff(bus, w, removed)
  {
    forall r | r in w.src && w.src[r] in removed ensures r in removed {
      IntactReader(gs, p, bus, w, removed, r);
    }
    forall s | s in Ords(bus, Send) && s in removed ensures s in w.src.Values {
      IntactSend(gs, p, bus, w, removed, s);
    }
    forall r | r in Ords(bus, Recv) && r in removed ensures r in w.src && w.src[r] in removed {
      IntactReceive(gs, p, bus, w, removed, r);
    }
  }

  lemma IntactReader(gs: seq<KeyGroup>, p: int, bus: map<int, Member>, w: World, removed: set<int>, r: int)
    requires p > 0 && LeavesWorldIntact(gs, p, bus, w, removed) && r in w.src && w.src[r] in removed
    ensures r in removed
  {
    var bus', w' := Survivors(bus, removed), RestWorld(w, removed);
    if r !in removed {
      ValueOf(w'.src, r);
    }
  }

  lemma IntactSend(gs: seq<KeyGroup>, p: int, bus: map<int, Member>, w: World, removed: set<int>, s: int)
    requires p > 0 && LeavesWorldIntact(gs, p, bus, w, removed) && s in Ords(bus, Send) && s in removed
    ensures s in w.src.Values
  {
    hide RealWorld;
    SameDifference(Ords(Survivors(bus, removed), Send), RestWorld(w, removed).src.Values, Ords(bus, Send), w.src.Values, s);
  }

  lemma SameDifference(a: set<int>, b: set<int>, c: set<int>, d: set<int>, x: int)
    requires a - b == c - d && x in c && (x !in a || x in b)
    ensures x in d
  {
    assert x in c - d <==> x in a - b;
  }

  lemma IntactReceive(gs: seq<KeyGroup>, p: int, bus: map<int, Member>, w: World, removed: set<int>, r: int)
    requires p > 0 && RealWorld(gs, p, bus, w) && LeavesWorldIntact(gs, p, bus, w, removed) && r in Ords(bus, Recv) && r in removed
    ensures r in w.src && w.src[r] in removed
  {
    var bus', w' := Survivors(bus, removed), RestWorld(w, removed);
    SameDifference(Ords(bus', Recv), w'.src.Keys, Ords(bus, Recv), w.src.Keys, r);
    var y := w.src[r];
    ValueOf(w.src, r);
    if y !in removed {
      SameDifference(Ords(bus, Send), w.src.Values, Ords(bus', Send), w'.src.Values, y);
      var x := KeyOf(w'.src, y);
    }
  }

  /** For one receive and one send: exactly when the one reads the other. */
  lemma PairRemovalExactly(gs: seq<KeyGroup>, p: int, bus: map<int, Member>, w: World, r: int, s: int)
    requires p > 0 && Indexed(bus) && RealWorld(gs, p, bus, w) && r in Ords(bus, Recv) && s in Ords(bus, Send)
    ensures LeavesWorldIntact(gs, p, bus, w, {r, s}) <==> ClaimHolds(w, EdgeClaim(r, s))
  {
    hide RealWorld, LeavesWorldIntact;
    IntactExactly(gs, p, bus, w, {r, s});
    ReadPairsOff(gs, p, bus, w, r, s);
  }

  lemma ReadPairsOff(gs: seq<KeyGroup>, p: int, bus: map<int, Member>, w: World, r: int, s: int)
    requires p > 0 && RealWorld(gs, p, bus, w) && r in Ords(bus, Recv) && s in Ords(bus, Send)
    ensures WorldPairsOff(bus, w, {r, s}) <==> ClaimHolds(w, EdgeClaim(r, s))
  {
    if r in w.src && w.src[r] in {r, s} {
      ValueOf(w.src, r);
      assert w.src[r] in Ords(bus, Send);
    }
  }

  /** Whatever the rows, taking a pair out whose edge the encoding entails leaves every world intact, or at least every
      world within the window. */
  ghost predicate RemovalSound(ks: seq<Key>, p: int, g: nat, windowed: bool)
    requires p > 0 && g < |ks|
  {
    forall gs, uncertain, bus, mate, r, s, w ::
      (RowsFor(ks, p, gs, uncertain, bus, mate) && ClaimOf(bus, g, EdgeClaim(r, s))
       && Entailed(AllGroups(gs, p), uncertain, g, EdgeClaim(r, s)) && RealWorld(gs, p, bus, w)
       && (windowed ==> InWindow(bus, p, w)))
      ==> LeavesWorldIntact(gs, p, bus, w, {r, s})
  }

  /** Main result on removal: over all rows, taking forced pairs out is safe exactly when no key is confusable with the
      group's, with or without the window premise. */
  lemma RemovalSoundExactly(ks: seq<Key>, p: int, g: nat, windowed: bool)
    requires p > 0 && GoodKeyList(ks, p) && g < |ks|
    ensures RemovalSound(ks, p, g, windowed) <==> forall h :: 0 <= h < |ks| ==> !Confusable(ks[g], ks[h])
  {
    hide InWindow, Entailed, RealWorld, ClaimOf, ClaimHolds, LeavesWorldIntact, Confusable, GoodKeyList, UncertainIs, IsBus, PairedAccesses, DistinctGroups;
    if forall h :: 0 <= h < |ks| ==> !Confusable(ks[g], ks[h]) {
      forall gs, uncertain, bus, mate, r, s, w |
        RowsFor(ks, p, gs, uncertain, bus, mate) && ClaimOf(bus, g, EdgeClaim(r, s))
        && Entailed(AllGroups(gs, p), uncertain, g, EdgeClaim(r, s)) && RealWorld(gs, p, bus, w)
        && (windowed ==> InWindow(bus, p, w))
        ensures LeavesWorldIntact(gs, p, bus, w, {r, s})
      {
        UnconfusedHolds(ks, p, g, gs, uncertain, bus, mate, EdgeClaim(r, s), w);
        PairOfRows(ks, p, g, gs, uncertain, bus, mate, r, s);
        PairRemovalExactly(gs, p, bus, w, r, s);
      }
    }
    if h: nat :| h < |ks| && Confusable(ks[g], ks[h]) {
      ConfusedRemoval(ks, p, g, h, windowed);
    }
  }

  lemma PairOfRows(ks: seq<Key>, p: int, g: nat, gs: seq<KeyGroup>, uncertain: map<int, set<int>>, bus: map<int, Member>, mate: map<int, int>,
                   r: int, s: int)
    requires p > 0 && RowsFor(ks, p, gs, uncertain, bus, mate) && ClaimOf(bus, g, EdgeClaim(r, s))
    ensures Indexed(bus) && r in Ords(bus, Recv) && s in Ords(bus, Send)
  {
    BusIndexed(gs, p, bus);
  }

  lemma ConfusedRemoval(ks: seq<Key>, p: int, g: nat, h: nat, windowed: bool)
    requires p > 0 && GoodKeyList(ks, p) && g < |ks| && h < |ks| && Confusable(ks[g], ks[h])
    ensures !RemovalSound(ks, p, g, windowed)
  {
    hide InWindow, RowsFor, Entailed, RealWorld, ClaimOf, ClaimHolds, LeavesWorldIntact, Confusable, GoodKeyList;
    var uncertain, w := ConfusedRows(ks, p, g, h);
    var gs, bus := FiveGroups(ks, g, h, h), FiveBus(ks, p, g, h, h);
    PairOfRows(ks, p, g, gs, uncertain, bus, MATES, 4, 1);
    PairRemovalExactly(gs, p, bus, w, 4, 1);
  }
}
