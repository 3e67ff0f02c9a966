/** When every world has a model of the encoding that agrees on all claims of a group. */
module CoverExact {
  import opened Rows
  import opened MemoryWorlds
  import opened KeyMeeting
  import opened PointerSpread
  import opened AccessWorlds
  import opened ClusterEncoding
  import opened WorldModels
  import opened ForcingCover
  import opened Forcing
  import opened SymbolicSolve
  import opened ForcingExact

  /** Two keys of one base and different moduli that can address one cell, and a cell of `g` at that. */
  predicate Splits(ks: seq<Key>, g: nat, h: nat, k: nat)
    requires g < |ks| && h < |ks| && k < |ks|
  {
    && SameBase(ks[h], ks[k]) && ks[h].mod != ks[k].mod && OffsetsMeet(ks[h], ks[k])
    && (h == g || !SameBase(ks[g], ks[h]))
  }

  predicate Repeatable(ks: seq<Key>, g: nat)
    requires g < |ks|
  {
    forall h, k :: 0 <= h < |ks| && 0 <= k < |ks| ==> !Splits(ks, g, h, k)
  }

  // ---- Enough ----

  lemma PairRepeats(ks: seq<Key>, gs: seq<KeyGroup>, p: int, w: World, g: nat, a: nat, b: nat)
    requires p > 0 && GoodKeyList(ks, p) && HasKeys(gs, ks) && Placed(gs, p, w) && g < |ks| && a < |ks| && b < |ks| && Repeatable(ks, g)
    requires KeyBase(ks[a]) == KeyBase(ks[b]) && CellAt(w.cells, a) == CellAt(w.cells, g)
    ensures KeyOffset(ks[a], p) == KeyOffset(ks[b], p) <==> CellAt(w.cells, b) == CellAt(w.cells, g)
  {
    if ks[a].BaseOffset? && a != b {
      assert if a < b then ks[a] != ks[b] else ks[b] != ks[a];
      assert !Splits(ks, g, a, b) && !Splits(ks, g, g, a);
      if ks[a].mod == ks[b].mod {
        DisjointIsSound(ks[a], ks[b], p, w.bases, w.cells[a], w.cells[b]);
      } else if a == g || !SameBase(ks[g], ks[a]) {
        NeverMeets(ks[a], ks[b], p, w.bases, w.cells[a], w.cells[b]);
      } else {
        assert if a < g then ks[a] != ks[g] else ks[g] != ks[a];
        MeetsOrNot(ks[g], ks[a], p, w.bases, w.cells[a]);
      }
    }
  }

  lemma NeverMeets(k: Key, l: Key, p: int, bases: map<string, int>, a: int, b: int)
    requires p > 0 && CanonicalKey(k, p) && CanonicalKey(l, p) && SameBase(k, l) && !OffsetsMeet(k, l)
    requires Addresses(k, p, BaseValue(k, bases), a) && Addresses(l, p, BaseValue(l, bases), b)
    ensures a != b && k.offset != l.offset
  {
    if a == b {
      CommonMeets(k, l, p, BaseValue(k, bases), a);
    }
    if k.offset == l.offset {
      AddressOf(k, p, 0, 0);
      AddressOf(l, p, 0, 0);
      CommonMeets(k, l, p, 0, k.offset);
    }
  }

  lemma MeetsOrNot(k: Key, l: Key, p: int, bases: map<string, int>, a: int)
    requires p > 0 && CanonicalKey(k, p) && CanonicalKey(l, p) && SameBase(k, l) && k != l
    requires Addresses(k, p, BaseValue(k, bases), a) && Addresses(l, p, BaseValue(l, bases), a)
    ensures k.mod != l.mod && OffsetsMeet(k, l)
  {
    CommonMeets(k, l, p, BaseValue(k, bases), a);
    if k.mod == l.mod {
      OneModulusNeverMeets(k, l, p);
    }
  }

  lemma RepeatableIsComparable(ks: seq<Key>, gs: seq<KeyGroup>, p: int, w: World, g: nat, groups: set<int>)
    requires p > 0 && GoodKeyList(ks, p) && HasKeys(gs, ks) && Placed(gs, p, w) && g < |ks| && Repeatable(ks, g)
    ensures Comparable(groups, PointerKeys(gs, p), w.cells, CellAt(w.cells, g))
  {
    hide Repeatable, GoodKeyList, PlacedAt;
    var keys := PointerKeys(gs, p);
    forall a, b | a in groups && b in groups && a in keys && b in keys && keys[a].0 == keys[b].0 && CellAt(w.cells, a) == CellAt(w.cells, g)
      ensures keys[a].1 == keys[b].1 <==> CellAt(w.cells, b) == CellAt(w.cells, g)
    {
      PairRepeats(ks, gs, p, w, g, a, b);
    }
  }

  /** A model of the group's encoding that agrees with the world on every claim about the group. */
  ghost predicate Covered(gs: seq<KeyGroup>, p: int, uncertain: map<int, set<int>>, g: nat, bus: map<int, Member>, w: World)
    requires p > 0 && g < |gs|
  {
    exists v :: ModelOf(AllGroups(gs, p), uncertain, g, v) && Agreeing(bus, g, w, v)
  }

  lemma RepeatableCovers(ks: seq<Key>, p: int, g: nat, gs: seq<KeyGroup>, uncertain: map<int, set<int>>, bus: map<int, Member>,
                         mate: map<int, int>, w: World)
    requires p > 0 && GoodKeyList(ks, p) && g < |ks| && Repeatable(ks, g)
    requires RowsFor(ks, p, gs, uncertain, bus, mate) && RealWorld(gs, p, bus, w)
    ensures Covered(gs, p, uncertain, g, bus, w)
  {
    hide Repeatable, GoodKeyList, GoodKeys, Encodable, ClusterModel, Agreeing, DistinctGroups, UncertainIs, PlacedAt, PairedAccesses;
    var keys, rows := PointerKeys(gs, p), ClusterRows(AllGroups(gs, p), uncertain, g);
    KeysAreGood(gs, ks, p);
    NotItsOwnAlias(gs, uncertain, g);
    BusEncodable(gs, p, uncertain, bus, mate);
    BusHasKeys(gs, p, bus);
    PlacedIsComplete(gs, p, uncertain, bus, w);
    RepeatableIsComparable(ks, gs, p, w, g, GroupsOf(Cluster(bus, uncertain, g)) + {g});
    var bases := BasesAlike(bus, keys, uncertain, g, w);
    ClusterRowsListed(AllGroups(gs, p), uncertain, g, bus);
    CoverWorld(bus, keys, mate, uncertain, g, OfKind(rows, Recv), OfKind(rows, Send), w, bases);
    var v :| ClusterModel(uncertain, OfKind(rows, Recv), OfKind(rows, Send), v) && Agreeing(bus, g, w, v);
    assert ModelOf(AllGroups(gs, p), uncertain, g, v);
  }

  // ---- Needed ----

  /** Keys that can meet, at one cell exactly when their pointers are different expressions. */
  lemma CrossedAddresses(k: Key, l: Key, p: int) returns (a: int, b: int)
    requires p > 0 && CanonicalKey(k, p) && CanonicalKey(l, p) && SameBase(k, l) && k.mod != l.mod && OffsetsMeet(k, l)
    ensures Addresses(k, p, 0, a) && Addresses(l, p, 0, b) && (a == b <==> k.offset != l.offset)
  {
    if k.offset != l.offset {
      a := CommonAddress(k, l, p, 0);
      b := a;
    } else {
      var q, r := if ModulusOf(l) > 0 then 0 else 1, if ModulusOf(l) > 0 then 1 else 0;
      AddressOf(k, p, 0, q);
      AddressOf(l, p, 0, r);
      a, b := k.offset + ModulusOf(k) * q, l.offset + ModulusOf(l) * r;
    }
  }

  lemma SplitCells(ks: seq<Key>, gs: seq<KeyGroup>, p: int, g: nat, h: nat, k: nat) returns (bases: map<string, int>, cells: map<int, int>)
    requires p > 0 && GoodKeyList(ks, p) && HasKeys(gs, ks) && g < |ks| && h < |ks| && k < |ks| && Splits(ks, g, h, k)
    ensures PlacedAt(gs, p, bases, cells) && CellAt(cells, h) == CellAt(cells, g)
    ensures CellAt(cells, k) == CellAt(cells, g) <==> ks[h].offset != ks[k].offset
  {
    hide GoodKeyList, OffsetsMeet, CanonicalKey, Addresses;
    KeysAreGood(gs, ks, p);
    var at, c;
    bases, at, c := SplitAddresses(ks[g], ks[h], ks[k], p, h == g);
    DefaultPlaced(gs, p, bases);
    cells := DefaultCells(gs, p, bases)[g := at][h := at][k := c];
  }

  /** The first two keys at one cell, the third at that cell exactly when its offset is not the second's. */
  lemma SplitAddresses(g: Key, h: Key, k: Key, p: int, same: bool) returns (bases: map<string, int>, at: int, c: int)
    requires p > 0 && CanonicalKey(g, p) && CanonicalKey(h, p) && CanonicalKey(k, p)
    requires SameBase(h, k) && h.mod != k.mod && OffsetsMeet(h, k) && (if same then h == g else !SameBase(g, h))
    ensures Addresses(g, p, BaseValue(g, bases), at) && Addresses(h, p, BaseValue(h, bases), at)
    ensures Addresses(k, p, BaseValue(k, bases), c) && (c == at <==> h.offset != k.offset)
  {
    hide OffsetsMeet, CanonicalKey;
    var a, b := CrossedAddresses(h, k, p);
    at := if same then a else if g.Const? then g.value % p else g.offset;
    bases, c := map[h.base := at - a], b + at - a;
    Shifted(h, p, a, at - a);
    Shifted(k, p, b, at - a);
    if !same {
      DefaultAddress(g, p, bases);
    }
  }

  /** The claim across time `t` in a model: true exactly when the pointer of the group between does not meet. */
  lemma FiveModelClaim(ks: seq<Key>, p: int, g: nat, h: nat, k: nat, uncertain: map<int, set<int>>, v: Valuation, t: int)
    requires p > 0 && GoodKeyList(ks, p) && g < |ks| && h < |ks| && k < |ks| && (t == 3 || t == 7)
    requires UncertainIs(FiveGroups(ks, g, h, k), uncertain) && ModelOf(AllGroups(FiveGroups(ks, g, h, k), p), uncertain, g, v)
    requires CouldAlias(uncertain, g, if t == 3 then h else k)
    ensures var keys, l := PointerKeys(FiveGroups(ks, g, h, k), p), if t == 3 then h else k;
      l in keys && g in keys
      && (LitOf(EdgeClaim(t + 1, t - 2)) in v.trues <==> KeyPointer(keys[l], BasesOf(v)) != KeyPointer(keys[g], BasesOf(v)))
  {
    hide GoodKeyList, Encodable, Accesses, ClusterModel, DistinctGroups, UncertainIs, FiveGroups, FiveBus, Blocks, BlockedBy, IsBus, LitOf, MATES, Ords;
    var gs, bus, c := FiveGroups(ks, g, h, k), FiveBus(ks, p, g, h, k), EdgeClaim(t + 1, t - 2);
    var keys, rows, part := PointerKeys(gs, p), ClusterRows(AllGroups(gs, p), uncertain, g), Cluster(bus, uncertain, g);
    FiveEncoded(ks, p, g, h, k, uncertain);
    ClusterRowsListed(AllGroups(gs, p), uncertain, g, bus);
    FiveBlocks(ks, p, g, h, k, t, t - 1);
    FiveTimes(ks, p, g, h, k, t);
    PartEncodable(bus, keys, MATES, uncertain, g);
    ClaimInCluster(bus, keys, MATES, uncertain, g, c);
    ModelClaim(part, keys, MatesIn(part, MATES), uncertain, OfKind(rows, Recv), OfKind(rows, Send), v, g, c);
    FiveBlocked(ks, p, g, h, k, uncertain, Encoded(keys, BasesOf(v)), t);
  }

  lemma FiveEncoded(ks: seq<Key>, p: int, g: nat, h: nat, k: nat, uncertain: map<int, set<int>>)
    requires p > 0 && GoodKeyList(ks, p) && g < |ks| && h < |ks| && k < |ks| && UncertainIs(FiveGroups(ks, g, h, k), uncertain)
    ensures var gs, bus := FiveGroups(ks, g, h, k), FiveBus(ks, p, g, h, k);
      && IsBus(AllGroups(gs, p), bus) && DistinctGroups(AllGroups(gs, p)) && g !in UncertainOf(uncertain, g)
      && Encodable(bus, PointerKeys(gs, p), MATES, uncertain) && Accesses(bus, MATES)
  {
    hide GoodKeyList, GoodKeys, Encodable, Accesses, DistinctGroups, UncertainIs, PairedAccesses, FiveGroups, FiveBus, IsBus, PointerKeys;
    var gs, bus := FiveGroups(ks, g, h, k), FiveBus(ks, p, g, h, k);
    FiveIsBus(ks, p, g, h, k);
    FiveDistinct(ks, p, g, h, k);
    KeysAreGood(gs, ks, p);
    NotItsOwnAlias(gs, uncertain, g);
    BusEncodable(gs, p, uncertain, bus, MATES);
    PairedIsAccesses(gs, p, bus, MATES);
  }

  lemma FiveTimes(ks: seq<Key>, p: int, g: nat, h: nat, k: nat, t: int)
    requires p > 0 && g < |ks| && h < |ks| && k < |ks| && (t == 3 || t == 7)
    ensures var bus := FiveBus(ks, p, g, h, k); t - 2 in bus && t + 1 in bus && bus[t - 2].row.time <= bus[t + 1].row.time
  {
  }

  ghost predicate Unblocked(part: map<int, Member>, mate: map<int, int>, cells: map<int, int>, g: int, claim: Claim) {
    forall z :: !BlockedBy(part, mate, cells, g, claim, z)
  }

  /** In the cluster, the claim across time `t` is blocked exactly when the group between is at the cell. */
  lemma FiveBlocked(ks: seq<Key>, p: int, g: nat, h: nat, k: nat, uncertain: map<int, set<int>>, cells: map<int, int>, t: int)
    requires p > 0 && g < |ks| && h < |ks| && k < |ks| && (t == 3 || t == 7)
    requires CouldAlias(uncertain, g, if t == 3 then h else k)
    requires Accesses(FiveBus(ks, p, g, h, k), MATES)
    ensures Unblocked(Cluster(FiveBus(ks, p, g, h, k), uncertain, g), MatesIn(Cluster(FiveBus(ks, p, g, h, k), uncertain, g), MATES),
                      cells, g, EdgeClaim(t + 1, t - 2))
      <==> CellAt(cells, if t == 3 then h else k) != CellAt(cells, g)
  {
    hide Blocks, Accesses, FiveBus, MATES;
    var bus, c := FiveBus(ks, p, g, h, k), EdgeClaim(t + 1, t - 2);
    var part := Cluster(bus, uncertain, g);
    var mate := MatesIn(part, MATES);
    ClusterWhole(bus, uncertain, g);
    FiveBlocks(ks, p, g, h, k, t, t - 1);
    FiveTimes(ks, p, g, h, k, t);
    assert ClaimOf(part, g, c);
    assert CellOf(cells, part[t - 1]) == CellAt(cells, if t == 3 then h else k);
    PartBlocks(part, bus, MATES, g, c, t - 1);
    if CellAt(cells, if t == 3 then h else k) == CellAt(cells, g) {
      assert BlockedBy(part, mate, cells, g, c, t - 1);
    } else {
      forall z ensures !BlockedBy(part, mate, cells, g, c, z) {
        if z in Ords(part, Recv) && z != t - 1 {
          PartBlocks(part, bus, MATES, g, c, z);
          FiveBlocks(ks, p, g, h, k, t, z);
        }
      }
    }
  }

  /** The claim across time `t` in a world. */
  lemma FiveWorldClaim(ks: seq<Key>, p: int, g: nat, h: nat, k: nat, w: World, t: int)
    requires p > 0 && g < |ks| && h < |ks| && k < |ks| && (t == 3 || t == 7)
    requires ValidWorld(FiveBus(ks, p, g, h, k), w) && Accesses(FiveBus(ks, p, g, h, k), MATES)
    ensures ClaimHolds(w, EdgeClaim(t + 1, t - 2)) <==> CellAt(w.cells, if t == 3 then h else k) != CellAt(w.cells, g)
  {
    hide Blocks, Accesses, FiveBus, ClaimHolds, ValidWorld;
    var bus, c := FiveBus(ks, p, g, h, k), EdgeClaim(t + 1, t - 2);
    FiveBlocks(ks, p, g, h, k, t, t - 1);
    ClaimExactly(bus, MATES, w, g, c);
    forall z | z in Ords(bus, Recv) ensures Blocks(bus, MATES, c, z) <==> z == t - 1 {
      FiveBlocks(ks, p, g, h, k, t, z);
    }
    if CellAt(w.cells, if t == 3 then h else k) == CellAt(w.cells, g) {
      assert BlockedBy(bus, MATES, w.cells, g, c, t - 1);
    }
  }

  /** Whatever the rows, every world has an agreeing model. */
  ghost predicate CoverSound(ks: seq<Key>, p: int, g: nat)
    requires p > 0 && g < |ks|
  {
    forall gs, uncertain, bus, mate, w ::
      RowsFor(ks, p, gs, uncertain, bus, mate) && RealWorld(gs, p, bus, w) ==> Covered(gs, p, uncertain, g, bus, w)
  }

  lemma SplitFails(ks: seq<Key>, p: int, g: nat, h: nat, k: nat)
    requires p > 0 && GoodKeyList(ks, p) && g < |ks| && h < |ks| && k < |ks| && Splits(ks, g, h, k)
    ensures !CoverSound(ks, p, g)
  {
    hide GoodKeyList, GoodKeys, DistinctGroups, UncertainIs, PairedAccesses, FiveGroups, FiveBus, IsBus, PlacedAt, ValidWorld, ChainWorld, Splits, ModelOf;
    var gs, bus := FiveGroups(ks, g, h, k), FiveBus(ks, p, g, h, k);
    var uncertain := UncertainExists(gs);
    FiveIsBus(ks, p, g, h, k);
    FiveDistinct(ks, p, g, h, k);
    KeysAreGood(gs, ks, p);
    var bases, cells := SplitCells(ks, gs, p, g, h, k);
    var w := ChainWorld(bus, MATES, 0, bases, cells);
    PairedIsAccesses(gs, p, bus, MATES);
    ChainWorldCells(bus, MATES, 0, bases, cells);
    ChainWorldValid(bus, MATES, 0, bases, cells);
    assert RowsFor(ks, p, gs, uncertain, bus, MATES) && RealWorld(gs, p, bus, w);
    NoAgreement(ks, p, g, h, k, uncertain, w);
  }

  lemma NoAgreement(ks: seq<Key>, p: int, g: nat, h: nat, k: nat, uncertain: map<int, set<int>>, w: World)
    requires p > 0 && GoodKeyList(ks, p) && g < |ks| && h < |ks| && k < |ks| && Splits(ks, g, h, k)
    requires UncertainIs(FiveGroups(ks, g, h, k), uncertain)
    requires ValidWorld(FiveBus(ks, p, g, h, k), w) && CellAt(w.cells, h) == CellAt(w.cells, g)
    requires CellAt(w.cells, k) == CellAt(w.cells, g) <==> ks[h].offset != ks[k].offset
    ensures !Covered(FiveGroups(ks, g, h, k), p, uncertain, g, FiveBus(ks, p, g, h, k), w)
  {
    hide GoodKeyList, UncertainIs, FiveBus, FiveGroups, IsBus, ValidWorld, ModelOf, Agreeing, PointerKeys;
    var gs, bus := FiveGroups(ks, g, h, k), FiveBus(ks, p, g, h, k);
    if v :| ModelOf(AllGroups(gs, p), uncertain, g, v) && Agreeing(bus, g, w, v) {
      SplitsInCluster(ks, gs, g, h, k, uncertain);
      AgreementAcross(ks, p, g, h, k, uncertain, w, v, 3);
      AgreementAcross(ks, p, g, h, k, uncertain, w, v, 7);
      SplitPointers(ks, gs, p, g, h, k, BasesOf(v));
    }
  }

  /** An agreeing model has the group between at time `t` at the cell exactly when the world has. */
  lemma AgreementAcross(ks: seq<Key>, p: int, g: nat, h: nat, k: nat, uncertain: map<int, set<int>>, w: World, v: Valuation, t: int)
    requires p > 0 && GoodKeyList(ks, p) && g < |ks| && h < |ks| && k < |ks| && (t == 3 || t == 7)
    requires UncertainIs(FiveGroups(ks, g, h, k), uncertain) && CouldAlias(uncertain, g, if t == 3 then h else k)
    requires ValidWorld(FiveBus(ks, p, g, h, k), w)
    requires ModelOf(AllGroups(FiveGroups(ks, g, h, k), p), uncertain, g, v) && Agreeing(FiveBus(ks, p, g, h, k), g, w, v)
    ensures var keys, l := PointerKeys(FiveGroups(ks, g, h, k), p), if t == 3 then h else k;
      l in keys && g in keys
      && (KeyPointer(keys[l], BasesOf(v)) != KeyPointer(keys[g], BasesOf(v)) <==> CellAt(w.cells, l) != CellAt(w.cells, g))
  {
    hide GoodKeyList, UncertainIs, FiveBus, FiveGroups, IsBus, ValidWorld, ModelOf, PairedAccesses, ClaimHolds, ClaimOf, PointerKeys, Blocks;
    FiveIsBus(ks, p, g, h, k);
    PairedIsAccesses(FiveGroups(ks, g, h, k), p, FiveBus(ks, p, g, h, k), MATES);
    FiveBlocks(ks, p, g, h, k, t, t - 1);
    FiveWorldClaim(ks, p, g, h, k, w, t);
    FiveModelClaim(ks, p, g, h, k, uncertain, v, t);
  }

  lemma SplitPointers(ks: seq<Key>, gs: seq<KeyGroup>, p: int, g: nat, h: nat, k: nat, bases: map<string, int>)
    requires p > 0 && HasKeys(gs, ks) && g < |ks| && h < |ks| && k < |ks| && Splits(ks, g, h, k)
    ensures var keys := PointerKeys(gs, p);
      h in keys && k in keys && (KeyPointer(keys[h], bases) == KeyPointer(keys[k], bases) <==> ks[h].offset == ks[k].offset)
  {
  }

  lemma SplitsInCluster(ks: seq<Key>, gs: seq<KeyGroup>, g: nat, h: nat, k: nat, uncertain: map<int, set<int>>)
    requires g < |ks| && h < |ks| && k < |ks| && Splits(ks, g, h, k) && HasKeys(gs, ks) && UncertainIs(gs, uncertain)
    ensures CouldAlias(uncertain, g, h) && CouldAlias(uncertain, g, k)
  {
    UncertainMember(gs, uncertain, g, h);
    UncertainMember(gs, uncertain, g, k);
  }

  /** Main result on coverage: over all rows, every world has a model of the encoding that gives every claim about the
      group its truth value there exactly when no two keys of one base with different moduli and congruent offsets can
      share a cell with the group. */
  lemma CoverSoundExactly(ks: seq<Key>, p: int, g: nat)
    requires p > 0 && GoodKeyList(ks, p) && g < |ks|
    ensures CoverSound(ks, p, g) <==> Repeatable(ks, g)
  {
    hide RowsFor, RealWorld, Splits, GoodKeyList;
    if Repeatable(ks, g) {
      ReachAll(ks, p, g);
    }
    if h: nat, k: nat :| h < |ks| && k < |ks| && Splits(ks, g, h, k) {
      SplitFails(ks, p, g, h, k);
    }
  }

  lemma ReachAll(ks: seq<Key>, p: int, g: nat)
    requires p > 0 && GoodKeyList(ks, p) && g < |ks| && Repeatable(ks, g)
    ensures CoverSound(ks, p, g)
  {
    hide RealWorld, Repeatable, GoodKeyList, UncertainIs, IsBus, PairedAccesses, DistinctGroups;
    forall gs, uncertain, bus, mate, w | RowsFor(ks, p, gs, uncertain, bus, mate) && RealWorld(gs, p, bus, w)
      ensures Covered(gs, p, uncertain, g, bus, w)
    {
      RepeatableCovers(ks, p, g, gs, uncertain, bus, mate, w);
    }
  }
}
