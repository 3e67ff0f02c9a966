/** What the encoding of one group's cluster forces, by the accesses that block a claim.

    A claim about a group is decided by the accesses at the group's cell. The encoding can put an access there
    exactly when its pointer can meet the group's, and a world exactly when its address can. */
module ForcingCover {
  import opened MemoryWorlds
  import opened PointerSpread
  import opened AccessWorlds
  import opened ClusterEncoding
  import opened WorldModels

  ghost function Cluster(bus: map<int, Member>, uncertain: map<int, set<int>>, gi: int): map<int, Member> {
    map o | o in bus && CouldAlias(uncertain, gi, bus[o].group) :: bus[o]
  }

  lemma ClusterWhole(bus: map<int, Member>, uncertain: map<int, set<int>>, gi: int)
    ensures WholeGroups(Cluster(bus, uncertain, gi), bus)
  {
  }

  /** Paired accesses of groups with one pointer each, of which the encoding keeps apart only what never meets in it. */
  ghost predicate Encodable(bus: map<int, Member>, keys: map<int, PointerKey>, mate: map<int, int>, uncertain: map<int, set<int>>) {
    && Accesses(bus, mate) && OneKeyPerGroup(bus, keys)
    && forall bases :: AliasComplete(bus, uncertain, Encoded(keys, bases))
  }

  lemma SubBus(bus: map<int, Member>, keys: map<int, PointerKey>, uncertain: map<int, set<int>>,
               part: map<int, Member>, cells: map<int, int>)
    requires Indexed(bus) && OneKeyPerGroup(bus, keys) && AliasComplete(bus, uncertain, cells)
    requires WholeGroups(part, bus)
    ensures Indexed(part) && OneKeyPerGroup(part, keys) && AliasComplete(part, uncertain, cells)
  {
  }

  lemma PartEncodable(bus: map<int, Member>, keys: map<int, PointerKey>, mate: map<int, int>, uncertain: map<int, set<int>>, gi: int)
    requires Encodable(bus, keys, mate, uncertain)
    ensures Encodable(Cluster(bus, uncertain, gi), keys, MatesIn(Cluster(bus, uncertain, gi), mate), uncertain)
  {
    var part := Cluster(bus, uncertain, gi);
    ClusterWhole(bus, uncertain, gi);
    PartAccesses(part, bus, mate);
    forall bases ensures AliasComplete(part, uncertain, Encoded(keys, bases)) {
      SubBus(bus, keys, uncertain, part, Encoded(keys, bases));
    }
    SubBus(bus, keys, uncertain, part, Encoded(keys, map[]));
  }

  // ---- Models from base values, and back ----

  /** The valuation of the world that base values give. */
  ghost function BasesValuation(bus: map<int, Member>, keys: map<int, PointerKey>, mate: map<int, int>, clock: int, bases: map<string, int>): Valuation {
    ValuationOf(Ords(bus, Recv), Ords(bus, Send), ChainWorld(bus, mate, clock, bases, Encoded(keys, bases)))
  }

  /** Every choice of base values is a model, in which the claims are decided by the pointers that meet. */
  lemma BasesGiveModel(bus: map<int, Member>, keys: map<int, PointerKey>, mate: map<int, int>, uncertain: map<int, set<int>>,
                       recvs: seq<Member>, sends: seq<Member>, clock: int, bases: map<string, int>)
    requires Encodable(bus, keys, mate, uncertain) && Lists(bus, Recv, recvs) && Lists(bus, Send, sends)
    ensures var v := BasesValuation(bus, keys, mate, clock, bases);
      && ClusterModel(uncertain, recvs, sends, v)
      && forall g, claim :: ClaimOf(bus, g, claim) ==>
           (LitOf(claim) in v.trues <==> forall z :: !BlockedBy(bus, mate, Encoded(keys, bases), g, claim, z))
  {
    var w := ChainWorld(bus, mate, clock, bases, Encoded(keys, bases));
    var v := BasesValuation(bus, keys, mate, clock, bases);
    ChainWorldValid(bus, mate, clock, bases, Encoded(keys, bases));
    EncodedExpressed(bus, keys, w);
    AccessesBalanced(bus, mate);
    WorldIsModel(bus, uncertain, recvs, sends, w);
    ValuationRealizes(bus, w);
    forall g, claim | ClaimOf(bus, g, claim)
      ensures LitOf(claim) in v.trues <==> forall z :: !BlockedBy(bus, mate, Encoded(keys, bases), g, claim, z)
    {
      ClaimExactly(bus, mate, w, g, claim);
      LitIsClaim(bus, w, v, g, claim);
    }
  }

  lemma LitIsClaim(bus: map<int, Member>, w: World, v: Valuation, g: int, claim: Claim)
    requires Realizes(v, bus, w) && ClaimOf(bus, g, claim)
    ensures LitOf(claim) in v.trues <==> ClaimHolds(w, claim)
  {
  }

  lemma EncodedExpressed(bus: map<int, Member>, keys: map<int, PointerKey>, w: World)
    requires OneKeyPerGroup(bus, keys) && w.cells == Encoded(keys, w.bases)
    ensures Expressed(bus, w)
  {
    forall o | o in bus ensures Pointer(bus[o].row, w.bases) == CellOf(w.cells, bus[o]) {
      EncodedAt(bus, keys, w.bases, o);
    }
  }

  /** In every model an unblocked claim is true. */
  lemma UnblockedIsTrue(bus: map<int, Member>, keys: map<int, PointerKey>, mate: map<int, int>, uncertain: map<int, set<int>>,
                        recvs: seq<Member>, sends: seq<Member>, v: Valuation, g: int, claim: Claim)
    requires Encodable(bus, keys, mate, uncertain) && Lists(bus, Recv, recvs) && Lists(bus, Send, sends)
    requires ClusterModel(uncertain, recvs, sends, v) && ClaimOf(bus, g, claim)
    requires forall z :: !BlockedBy(bus, mate, Encoded(keys, BasesOf(v)), g, claim, z)
    ensures LitOf(claim) in v.trues
  {
    hide Encodable, Lists, ClusterModel;
    ModelIsSet(bus, keys, mate, uncertain, recvs, sends, v);
    ModelIsWorld(bus, uncertain, keys, recvs, sends, v);
    var u := ModelWorld(bus, uncertain, keys, v);
    EncodableAccesses(bus, keys, mate, uncertain);
    ClaimExactly(bus, mate, u, g, claim);
    if claim.EdgeClaim? {
      EdgeAdmits(bus, uncertain, u, claim.recv, claim.send);
    }
  }

  /** The literal of a claim is decided by what blocks it; match literals exist only where times admit them. */
  lemma ModelClaim(bus: map<int, Member>, keys: map<int, PointerKey>, mate: map<int, int>, uncertain: map<int, set<int>>,
                   recvs: seq<Member>, sends: seq<Member>, v: Valuation, g: int, claim: Claim)
    requires Encodable(bus, keys, mate, uncertain) && Lists(bus, Recv, recvs) && Lists(bus, Send, sends)
    requires ClusterModel(uncertain, recvs, sends, v) && ClaimOf(bus, g, claim)
    requires claim.EdgeClaim? ==> bus[claim.send].row.time <= bus[claim.recv].row.time
    ensures LitOf(claim) in v.trues <==> forall z :: !BlockedBy(bus, mate, Encoded(keys, BasesOf(v)), g, claim, z)
  {
    hide Encodable, Lists, ClusterModel, BlockedBy;
    ModelIsSet(bus, keys, mate, uncertain, recvs, sends, v);
    ModelIsWorld(bus, uncertain, keys, recvs, sends, v);
    EncodableAccesses(bus, keys, mate, uncertain);
    ClaimExactly(bus, mate, ModelWorld(bus, uncertain, keys, v), g, claim);
  }

  lemma EncodableAccesses(bus: map<int, Member>, keys: map<int, PointerKey>, mate: map<int, int>, uncertain: map<int, set<int>>)
    requires Encodable(bus, keys, mate, uncertain)
    ensures Accesses(bus, mate)
  {
  }

  lemma ModelIsSet(bus: map<int, Member>, keys: map<int, PointerKey>, mate: map<int, int>, uncertain: map<int, set<int>>,
                   recvs: seq<Member>, sends: seq<Member>, v: Valuation)
    requires Encodable(bus, keys, mate, uncertain) && Lists(bus, Recv, recvs) && Lists(bus, Send, sends)
    requires ClusterModel(uncertain, recvs, sends, v)
    ensures ModelSetting(bus, uncertain, keys, recvs, sends, v)
  {
  }

  lemma EdgeAdmits(bus: map<int, Member>, uncertain: map<int, set<int>>, u: World, r: int, s: int)
    requires ValidWorld(bus, u) && ClaimHolds(u, EdgeClaim(r, s)) && r in bus && s in bus && bus[r].group == bus[s].group
    requires bus[r].row.kind.Recv?
    ensures Admits(uncertain, bus[r], bus[s])
  {
  }

  // ---- What is forced ----

  /** An access of the cluster that blocks the claim and whose pointer can be made to meet the group's. */
  ghost predicate PointerBlocks(bus: map<int, Member>, keys: map<int, PointerKey>, mate: map<int, int>, uncertain: map<int, set<int>>,
                                gi: int, claim: Claim, z: int) {
    && z in Ords(Cluster(bus, uncertain, gi), Recv) && Blocks(bus, mate, claim, z)
    && bus[z].group in keys && gi in keys
    && (keys[bus[z].group].0 == keys[gi].0 ==> keys[bus[z].group].1 == keys[gi].1)
  }

  /** The encoding forces a claim exactly when no access that blocks it has a pointer that can meet the group's. */
  lemma ForcedExactly(bus: map<int, Member>, keys: map<int, PointerKey>, mate: map<int, int>, uncertain: map<int, set<int>>, gi: int,
                      recvs: seq<Member>, sends: seq<Member>, claim: Claim)
    requires Encodable(bus, keys, mate, uncertain) && ClaimOf(bus, gi, claim)
    requires Lists(Cluster(bus, uncertain, gi), Recv, recvs) && Lists(Cluster(bus, uncertain, gi), Send, sends)
    ensures (forall v :: ClusterModel(uncertain, recvs, sends, v) ==> LitOf(claim) in v.trues) <==>
      forall z :: !PointerBlocks(bus, keys, mate, uncertain, gi, claim, z)
  {
    hide Encodable, Lists, ClusterModel, Blocks, ClaimOf, Cluster;
    PartEncodable(bus, keys, mate, uncertain, gi);
    ClaimInCluster(bus, keys, mate, uncertain, gi, claim);
    if forall z :: !PointerBlocks(bus, keys, mate, uncertain, gi, claim, z) {
      forall v | ClusterModel(uncertain, recvs, sends, v) ensures LitOf(claim) in v.trues {
        BlockersMeet(bus, keys, mate, uncertain, gi, claim, BasesOf(v));
        UnblockedIsTrue(Cluster(bus, uncertain, gi), keys, MatesIn(Cluster(bus, uncertain, gi), mate), uncertain, recvs, sends, v, gi, claim);
      }
    }
    if z :| PointerBlocks(bus, keys, mate, uncertain, gi, claim, z) {
      var v := BlockedModel(bus, keys, mate, uncertain, gi, recvs, sends, claim, z);
    }
  }

  lemma ClaimInCluster(bus: map<int, Member>, keys: map<int, PointerKey>, mate: map<int, int>, uncertain: map<int, set<int>>, gi: int, claim: Claim)
    requires Encodable(bus, keys, mate, uncertain) && ClaimOf(bus, gi, claim)
    ensures ClaimOf(Cluster(bus, uncertain, gi), gi, claim) && gi in keys
  {
  }

  /** What blocks the claim under some base values has a pointer that can meet the group's. */
  lemma BlockersMeet(bus: map<int, Member>, keys: map<int, PointerKey>, mate: map<int, int>, uncertain: map<int, set<int>>, gi: int,
                     claim: Claim, bases: map<string, int>)
    requires Encodable(bus, keys, mate, uncertain) && ClaimOf(bus, gi, claim) && gi in keys
    ensures var part := Cluster(bus, uncertain, gi);
      forall z :: BlockedBy(part, MatesIn(part, mate), Encoded(keys, bases), gi, claim, z) ==>
        PointerBlocks(bus, keys, mate, uncertain, gi, claim, z)
  {
    var part := Cluster(bus, uncertain, gi);
    ClusterWhole(bus, uncertain, gi);
    ClaimInCluster(bus, keys, mate, uncertain, gi, claim);
    forall z | BlockedBy(part, MatesIn(part, mate), Encoded(keys, bases), gi, claim, z)
      ensures PointerBlocks(bus, keys, mate, uncertain, gi, claim, z)
    {
      PartBlocks(part, bus, mate, gi, claim, z);
      EncodedAt(bus, keys, bases, z);
      PointersMeet(keys[bus[z].group], keys[gi]);
    }
  }

  /** Base values that put a blocking access at the group's cell refute the claim. */
  lemma BlockedModel(bus: map<int, Member>, keys: map<int, PointerKey>, mate: map<int, int>, uncertain: map<int, set<int>>, gi: int,
                     recvs: seq<Member>, sends: seq<Member>, claim: Claim, z: int) returns (v: Valuation)
    requires Encodable(bus, keys, mate, uncertain) && ClaimOf(bus, gi, claim) && gi in keys
    requires Lists(Cluster(bus, uncertain, gi), Recv, recvs) && Lists(Cluster(bus, uncertain, gi), Send, sends)
    requires PointerBlocks(bus, keys, mate, uncertain, gi, claim, z)
    ensures ClusterModel(uncertain, recvs, sends, v) && LitOf(claim) !in v.trues
  {
    hide Lists, ClusterModel, AliasComplete;
    var part := Cluster(bus, uncertain, gi);
    var m := MatesIn(part, mate);
    ClusterWhole(bus, uncertain, gi);
    PartEncodable(bus, keys, mate, uncertain, gi);
    ClaimInCluster(bus, keys, mate, uncertain, gi, claim);
    PointersMeet(keys[bus[z].group], keys[gi]);
    var bases :| KeyPointer(keys[bus[z].group], bases) == KeyPointer(keys[gi], bases);
    EncodedAt(bus, keys, bases, z);
    PartBlocks(part, bus, mate, gi, claim, z);
    v := BasesValuation(part, keys, m, 0, bases);
    BasesGiveModel(part, keys, m, uncertain, recvs, sends, 0, bases);
    assert BlockedBy(part, m, Encoded(keys, bases), gi, claim, z);
  }

  /** The encoding of paired accesses always has a model. */
  lemma ClusterHasModel(bus: map<int, Member>, keys: map<int, PointerKey>, mate: map<int, int>, uncertain: map<int, set<int>>, gi: int,
                        recvs: seq<Member>, sends: seq<Member>)
    requires Encodable(bus, keys, mate, uncertain)
    requires Lists(Cluster(bus, uncertain, gi), Recv, recvs) && Lists(Cluster(bus, uncertain, gi), Send, sends)
    ensures exists v :: ClusterModel(uncertain, recvs, sends, v)
  {
    PartEncodable(bus, keys, mate, uncertain, gi);
    var part := Cluster(bus, uncertain, gi);
    BasesGiveModel(part, keys, MatesIn(part, mate), uncertain, recvs, sends, 0, map[]);
  }

  // ---- Agreeing with a world on every claim ----

  function GroupsOf(cluster: map<int, Member>): set<int> {
    set o | o in cluster :: cluster[o].group
  }

  /** Base values under which the pointers of the cluster meet the group's exactly where the world's cells do. */
  ghost predicate MeetsAlike(bus: map<int, Member>, keys: map<int, PointerKey>, uncertain: map<int, set<int>>, gi: int, w: World, bases: map<string, int>) {
    forall z :: z in Cluster(bus, uncertain, gi) ==>
      (CellOf(Encoded(keys, bases), bus[z]) == CellAt(Encoded(keys, bases), gi) <==> CellOf(w.cells, bus[z]) == CellAt(w.cells, gi))
  }

  /** The model gives every claim about the group its truth value in the world. */
  ghost predicate Agreeing(bus: map<int, Member>, gi: int, w: World, v: Valuation) {
    forall claim :: ClaimOf(bus, gi, claim) ==> (LitOf(claim) in v.trues <==> ClaimHolds(w, claim))
  }

  /** Cover: a world whose meetings at the group's cell base values can repeat yields a model that gives every claim
      about the group its truth value in that world. */
  lemma CoverWorld(bus: map<int, Member>, keys: map<int, PointerKey>, mate: map<int, int>, uncertain: map<int, set<int>>, gi: int,
                   recvs: seq<Member>, sends: seq<Member>, w: World, bases: map<string, int>)
    requires Encodable(bus, keys, mate, uncertain) && ValidWorld(bus, w) && AliasComplete(bus, uncertain, w.cells)
    requires Lists(Cluster(bus, uncertain, gi), Recv, recvs) && Lists(Cluster(bus, uncertain, gi), Send, sends)
    requires MeetsAlike(bus, keys, uncertain, gi, w, bases)
    ensures exists v :: ClusterModel(uncertain, recvs, sends, v) && Agreeing(bus, gi, w, v)
  {
    hide Encodable, Lists, ClusterModel;
    var part := Cluster(bus, uncertain, gi);
    var m := MatesIn(part, mate);
    PartEncodable(bus, keys, mate, uncertain, gi);
    BasesGiveModel(part, keys, m, uncertain, recvs, sends, 0, bases);
    var v := BasesValuation(part, keys, m, 0, bases);
    EncodableAccesses(bus, keys, mate, uncertain);
    forall claim | ClaimOf(bus, gi, claim) ensures LitOf(claim) in v.trues <==> ClaimHolds(w, claim) {
      ClaimInCluster(bus, keys, mate, uncertain, gi, claim);
      ClaimExactly(bus, mate, w, gi, claim);
      SameBlockers(bus, keys, mate, uncertain, gi, w, bases, claim);
    }
  }

  lemma SameBlockers(bus: map<int, Member>, keys: map<int, PointerKey>, mate: map<int, int>, uncertain: map<int, set<int>>, gi: int,
                     w: World, bases: map<string, int>, claim: Claim)
    requires Accesses(bus, mate) && AliasComplete(bus, uncertain, w.cells) && ClaimOf(bus, gi, claim)
    requires ClaimOf(Cluster(bus, uncertain, gi), gi, claim) && MeetsAlike(bus, keys, uncertain, gi, w, bases)
    ensures var part := Cluster(bus, uncertain, gi);
      (forall z :: !BlockedBy(part, MatesIn(part, mate), Encoded(keys, bases), gi, claim, z)) <==>
      (forall z :: !BlockedBy(bus, mate, w.cells, gi, claim, z))
  {
    hide Accesses, Blocks;
    var part := Cluster(bus, uncertain, gi);
    var o := if claim.OutputClaim? then claim.send else claim.recv;
    assert o in bus && bus[o].group == gi;
    forall z ensures BlockedBy(part, MatesIn(part, mate), Encoded(keys, bases), gi, claim, z) <==> BlockedBy(bus, mate, w.cells, gi, claim, z) {
      if z in Ords(bus, Recv) && CellOf(w.cells, bus[z]) == CellAt(w.cells, gi) {
        assert CellOf(w.cells, bus[o]) == CellOf(w.cells, bus[z]);
        assert z in part;
      }
      if z in part {
        ClusterWhole(bus, uncertain, gi);
        PartBlocks(part, bus, mate, gi, claim, z);
      }
    }
  }

  /** Comparable pointers at the group's cell are enough for such base values. */
  lemma BasesAlike(bus: map<int, Member>, keys: map<int, PointerKey>, uncertain: map<int, set<int>>, gi: int, w: World)
    returns (bases: map<string, int>)
    requires OneKeyPerGroup(bus, keys) && gi in keys
    requires Comparable(GroupsOf(Cluster(bus, uncertain, gi)) + {gi}, keys, w.cells, CellAt(w.cells, gi))
    ensures MeetsAlike(bus, keys, uncertain, gi, w, bases)
  {
    var cluster := Cluster(bus, uncertain, gi);
    var groups := GroupsOf(cluster) + {gi};
    forall g | g in groups ensures g in keys {
      if g != gi {
        var o :| o in cluster && cluster[o].group == g;
      }
    }
    var a: int;
    bases, a := BasesMeeting(groups, keys, w.cells, CellAt(w.cells, gi));
    forall z | z in cluster
      ensures CellOf(Encoded(keys, bases), bus[z]) == CellAt(Encoded(keys, bases), gi) <==> CellOf(w.cells, bus[z]) == CellAt(w.cells, gi)
    {
      assert cluster[z].group in groups;
      EncodedAt(bus, keys, bases, z);
    }
  }
}
