/** The no-alias pre-solution of a cluster and the encoding: they agree exactly when no two groups of
    the cluster carry the same pointer. */
module Presolution {
  import opened Wrappers
  import opened Sets
  import opened CellChain
  import opened CellMatching
  import opened MemoryWorlds
  import opened PointerSpread
  import opened ClusterEncoding
  import opened WorldModels

  /** A matching of one group: the receive that reads the entry value and what the others read. */
  datatype Solved = Solved(input: int, m: map<int, int>, output: int)

  function TimesOf(bus: map<int, Member>, g: int, kind: Kind): (t: map<int, int>)
    ensures t.Keys == set o | o in bus && bus[o].group == g && bus[o].row.kind == kind
  {
    map o | o in bus && bus[o].group == g && bus[o].row.kind == kind :: bus[o].row.time
  }

  lemma TimesAt(bus: map<int, Member>, g: int, kind: Kind, o: int)
    requires o in TimesOf(bus, g, kind)
    ensures o in Ords(bus, kind) && bus[o].group == g && TimesOf(bus, g, kind)[o] == bus[o].row.time
  {
  }

  /** Every group of the bus has a clean matching. */
  ghost predicate AllSolved(bus: map<int, Member>, sols: map<int, Solved>) {
    && (forall g :: g in sols ==>
          && IsSolution(TimesOf(bus, g, Send), TimesOf(bus, g, Recv), sols[g].input, sols[g].m)
          && TimesOf(bus, g, Send).Keys - sols[g].m.Values == {sols[g].output})
    && (forall o :: o in bus ==> bus[o].group in sols)
  }

  // ---- The no-alias world ----

  ghost function JoinedSrc(bus: map<int, Member>, sols: map<int, Solved>): map<int, int> {
    map r | r in Ords(bus, Recv) && bus[r].group in sols && r in sols[bus[r].group].m :: sols[bus[r].group].m[r]
  }

  ghost function JoinedStamps(bus: map<int, Member>, src: map<int, int>): map<int, int> {
    map r | r in Ords(bus, Recv) ::
      if r in src && src[r] in bus then bus[src[r]].row.time else if bus[r].row.time < -1 then bus[r].row.time else -1
  }

  ghost function NoAliasWorld(bus: map<int, Member>, keys: map<int, PointerKey>, sols: map<int, Solved>, bases: map<string, int>): World {
    World(0, bases, Encoded(keys, bases), JoinedSrc(bus, sols), JoinedStamps(bus, JoinedSrc(bus, sols)))
  }

  /** Group by group, the joined routing is the group's own matching. */
  lemma JoinedAt(bus: map<int, Member>, sols: map<int, Solved>, r: int)
    requires AllSolved(bus, sols) && r in Ords(bus, Recv)
    ensures var g, src := bus[r].group, JoinedSrc(bus, sols);
      && g in sols
      && (r in src <==> r != sols[g].input)
      && (r in src ==>
            && r in sols[g].m && src[r] == sols[g].m[r]
            && src[r] in Ords(bus, Send) && bus[src[r]].group == g && bus[src[r]].row.time <= bus[r].row.time)
  {
    var g, src := bus[r].group, JoinedSrc(bus, sols);
    var m := sols[g].m;
    assert r in TimesOf(bus, g, Recv).Keys;
    assert r in m.Keys <==> r != sols[g].input;
    assert r in src.Keys <==> r in m.Keys;
    if r in m.Keys {
      var s := m[r];
      assert src[r] == s && s in TimesOf(bus, g, Send).Keys;
      TimesAt(bus, g, Send, s);
      TimesAt(bus, g, Recv, r);
    }
  }

  lemma JoinedInjective(bus: map<int, Member>, sols: map<int, Solved>, r: int, r': int)
    requires AllSolved(bus, sols) && r in JoinedSrc(bus, sols) && r' in JoinedSrc(bus, sols) && r != r'
    ensures JoinedSrc(bus, sols)[r] != JoinedSrc(bus, sols)[r']
  {
    JoinedAt(bus, sols, r);
    JoinedAt(bus, sols, r');
  }

  lemma JoinedAllInjective(bus: map<int, Member>, sols: map<int, Solved>)
    requires AllSolved(bus, sols)
    ensures var src := JoinedSrc(bus, sols);
      forall r, r' :: r in src && r' in src && r != r' ==> src[r] != src[r']
  {
    var src := JoinedSrc(bus, sols);
    forall r, r' | r in src && r' in src && r != r' ensures src[r] != src[r'] {
      JoinedInjective(bus, sols, r, r');
    }
  }

  /** The one send of a group that stays unread. */
  lemma JoinedUnread(bus: map<int, Member>, sols: map<int, Solved>, s: int)
    requires AllSolved(bus, sols) && s in Ords(bus, Send)
    ensures bus[s].group in sols
    ensures s in JoinedSrc(bus, sols).Values <==> s != sols[bus[s].group].output
  {
    var g, src := bus[s].group, JoinedSrc(bus, sols);
    assert s in TimesOf(bus, g, Send).Keys;
    if s in src.Values {
      var r := KeyOf(src, s);
      JoinedAt(bus, sols, r);
      ValueOf(sols[g].m, r);
      assert s !in TimesOf(bus, g, Send).Keys - sols[g].m.Values;
    } else {
      if s in sols[g].m.Values {
        var r := KeyOf(sols[g].m, s);
        assert r in TimesOf(bus, g, Recv).Keys;
        JoinedAt(bus, sols, r);
        ValueOf(src, r);
      } else {
        assert s in TimesOf(bus, g, Send).Keys - sols[g].m.Values;
      }
    }
  }

  lemma NoAliasRead(bus: map<int, Member>, keys: map<int, PointerKey>, sols: map<int, Solved>, bases: map<string, int>, r: int)
    requires Indexed(bus) && OneKeyPerGroup(bus, keys) && AllSolved(bus, sols) && r in Ords(bus, Recv)
    ensures ReceiveFits(bus, NoAliasWorld(bus, keys, sols, bases), r)
  {
    JoinedAt(bus, sols, r);
    EncodedAt(bus, keys, bases, r);
    if r in JoinedSrc(bus, sols) {
      EncodedAt(bus, keys, bases, JoinedSrc(bus, sols)[r]);
    }
  }

  lemma NoAliasReads(bus: map<int, Member>, keys: map<int, PointerKey>, sols: map<int, Solved>, bases: map<string, int>)
    requires Indexed(bus) && OneKeyPerGroup(bus, keys) && AllSolved(bus, sols)
    ensures ReadsWell(bus, NoAliasWorld(bus, keys, sols, bases)) && WitnessesBounded(bus, NoAliasWorld(bus, keys, sols, bases))
  {
    JoinedAllInjective(bus, sols);
    NoAliasAllFit(bus, keys, sols, bases);
    FitsReadsWell(bus, NoAliasWorld(bus, keys, sols, bases));
  }

  lemma NoAliasAllFit(bus: map<int, Member>, keys: map<int, PointerKey>, sols: map<int, Solved>, bases: map<string, int>)
    requires Indexed(bus) && OneKeyPerGroup(bus, keys) && AllSolved(bus, sols)
    ensures JoinedSrc(bus, sols).Keys <= Ords(bus, Recv)
    ensures forall r :: r in Ords(bus, Recv) ==> ReceiveFits(bus, NoAliasWorld(bus, keys, sols, bases), r)
  {
    forall r | r in Ords(bus, Recv) ensures ReceiveFits(bus, NoAliasWorld(bus, keys, sols, bases), r) {
      NoAliasRead(bus, keys, sols, bases, r);
    }
  }

  lemma OtherGroupOtherPointer(bus: map<int, Member>, keys: map<int, PointerKey>, bases: map<string, int>, groups: set<int>, x: int, y: int)
    requires OneKeyPerGroup(bus, keys) && DistinctPointers(groups, keys, bases) && x in bus && y in bus
    requires bus[x].group in groups && bus[y].group in groups && bus[x].group != bus[y].group
    ensures CellOf(Encoded(keys, bases), bus[x]) != CellOf(Encoded(keys, bases), bus[y])
  {
    EncodedAt(bus, keys, bases, x);
    EncodedAt(bus, keys, bases, y);
  }

  lemma NoAliasBoundaries(bus: map<int, Member>, keys: map<int, PointerKey>, sols: map<int, Solved>, bases: map<string, int>)
    requires Indexed(bus) && OneKeyPerGroup(bus, keys) && AllSolved(bus, sols)
    requires DistinctPointers(sols.Keys, keys, bases)
    ensures OneInput(bus, NoAliasWorld(bus, keys, sols, bases)) && OneOutput(bus, NoAliasWorld(bus, keys, sols, bases))
  {
    hide Indexed, OneKeyPerGroup, AllSolved, Encoded, DistinctPointers, JoinedSrc;
    var w := NoAliasWorld(bus, keys, sols, bases);
    forall x, y | x in Ords(bus, Recv) && y in Ords(bus, Recv) && x != y && x !in w.src && y !in w.src
      ensures CellOf(Encoded(keys, bases), bus[x]) != CellOf(Encoded(keys, bases), bus[y])
    {
      JoinedAt(bus, sols, x);
      JoinedAt(bus, sols, y);
      OtherGroupOtherPointer(bus, keys, bases, sols.Keys, x, y);
    }
    forall x, y | x in Ords(bus, Send) && y in Ords(bus, Send) && x != y && x !in w.src.Values && y !in w.src.Values
      ensures CellOf(Encoded(keys, bases), bus[x]) != CellOf(Encoded(keys, bases), bus[y])
    {
      JoinedUnread(bus, sols, x);
      JoinedUnread(bus, sols, y);
      OtherGroupOtherPointer(bus, keys, bases, sols.Keys, x, y);
    }
  }

  /** One input and one output per group, so as many receives as sends. */
  lemma SolvedBalanced(bus: map<int, Member>, sols: map<int, Solved>)
    requires AllSolved(bus, sols)
    ensures |Ords(bus, Recv)| == |Ords(bus, Send)|
  {
    var src := JoinedSrc(bus, sols);
    JoinedAllInjective(bus, sols);
    InjectiveSize(src);
    InputsPerGroup(bus, sols);
    OutputsPerGroup(bus, sols);
    SetMinus(Ords(bus, Recv), src.Keys);
    forall s | s in src.Values ensures s in Ords(bus, Send) {
      var r := KeyOf(src, s);
      JoinedAt(bus, sols, r);
    }
    SetMinus(Ords(bus, Send), src.Values);
  }

  lemma InputsPerGroup(bus: map<int, Member>, sols: map<int, Solved>)
    requires AllSolved(bus, sols)
    ensures |Ords(bus, Recv) - JoinedSrc(bus, sols).Keys| == |sols|
  {
    var inputs := map g | g in sols :: sols[g].input;
    var open := Ords(bus, Recv) - JoinedSrc(bus, sols).Keys;
    forall g | g in sols ensures sols[g].input in open && bus[sols[g].input].group == g {
      TimesAt(bus, g, Recv, sols[g].input);
      JoinedAt(bus, sols, sols[g].input);
    }
    InjectiveSize(inputs);
    forall r | r in open ensures r in inputs.Values {
      JoinedAt(bus, sols, r);
      ValueOf(inputs, bus[r].group);
    }
    forall r | r in inputs.Values ensures r in open {
      var g := KeyOf(inputs, r);
    }
    SameSet(inputs.Values, open);
    SameSet(inputs.Keys, sols.Keys);
  }

  lemma OutputsPerGroup(bus: map<int, Member>, sols: map<int, Solved>)
    requires AllSolved(bus, sols)
    ensures |Ords(bus, Send) - JoinedSrc(bus, sols).Values| == |sols|
  {
    var outputs := map g | g in sols :: sols[g].output;
    var open := Ords(bus, Send) - JoinedSrc(bus, sols).Values;
    forall g | g in sols ensures sols[g].output in open && bus[sols[g].output].group == g {
      OutputIsSend(bus, sols, g);
      JoinedUnread(bus, sols, sols[g].output);
    }
    InjectiveSize(outputs);
    forall s | s in open ensures s in outputs.Values {
      JoinedUnread(bus, sols, s);
      ValueOf(outputs, bus[s].group);
    }
    forall s | s in outputs.Values ensures s in open {
      var g := KeyOf(outputs, s);
    }
    SameSet(outputs.Values, open);
    SameSet(outputs.Keys, sols.Keys);
  }

  lemma OutputIsSend(bus: map<int, Member>, sols: map<int, Solved>, g: int)
    requires AllSolved(bus, sols) && g in sols
    ensures sols[g].output in Ords(bus, Send) && bus[sols[g].output].group == g
  {
    assert sols[g].output in TimesOf(bus, g, Send).Keys - sols[g].m.Values;
    TimesAt(bus, g, Send, sols[g].output);
  }

  // ---- The claims of the pre-solution ----

  /** A claim mined from the group's matching. */
  ghost predicate Mined(sol: Solved, claim: Claim) {
    match claim
    case EdgeClaim(r, s) => r in sol.m && sol.m[r] == s
    case InputClaim(r) => r == sol.input
    case OutputClaim(s) => s == sol.output
  }

  ghost predicate AllMinedHold(sols: map<int, Solved>, v: Valuation) {
    forall g, claim :: g in sols && Mined(sols[g], claim) ==> LitOf(claim) in v.trues
  }

  lemma MinedHolds(bus: map<int, Member>, keys: map<int, PointerKey>, sols: map<int, Solved>, bases: map<string, int>, v: Valuation, g: int, claim: Claim)
    requires AllSolved(bus, sols) && g in sols && Mined(sols[g], claim)
    requires Realizes(v, bus, NoAliasWorld(bus, keys, sols, bases))
    ensures LitOf(claim) in v.trues
  {
    match claim
    case EdgeClaim(r, s) =>
      assert r in TimesOf(bus, g, Recv).Keys;
      TimesAt(bus, g, Recv, r);
      JoinedAt(bus, sols, r);
    case InputClaim(r) =>
      TimesAt(bus, g, Recv, r);
      JoinedAt(bus, sols, r);
    case OutputClaim(s) =>
      OutputIsSend(bus, sols, g);
      JoinedUnread(bus, sols, s);
  }

  /** With distinct keys the spread-out bases give a model of the encoding in which every mined claim
      of every group holds. */
  lemma NoAliasExpressed(bus: map<int, Member>, keys: map<int, PointerKey>, sols: map<int, Solved>, bases: map<string, int>)
    requires OneKeyPerGroup(bus, keys)
    ensures Expressed(bus, NoAliasWorld(bus, keys, sols, bases))
  {
  }

  lemma DistinctKeysAdmitPresolution(bus: map<int, Member>, keys: map<int, PointerKey>, uncertain: map<int, set<int>>,
                                     recvs: seq<Member>, sends: seq<Member>, sols: map<int, Solved>)
    returns (v: Valuation)
    requires Indexed(bus) && OneKeyPerGroup(bus, keys) && AllSolved(bus, sols) && sols.Keys <= keys.Keys
    requires Lists(bus, Recv, recvs) && Lists(bus, Send, sends)
    requires forall bases :: AliasComplete(bus, uncertain, Encoded(keys, bases))
    requires forall g, h :: g in sols && h in sols && g != h ==> keys[g] != keys[h]
    ensures ClusterModel(uncertain, recvs, sends, v) && AllMinedHold(sols, v)
  {
    hide AllSolved, ClusterModel, Lists, Realizes, OneInput, OneOutput, ReadsWell, WitnessesBounded, AliasComplete, DistinctPointers, Mined, Ords,
      ValuationOf, Encoded, JoinedSrc, JoinedStamps;
    var bases := BasesSeparate(sols.Keys, keys);
    var w := NoAliasWorld(bus, keys, sols, bases);
    NoAliasReads(bus, keys, sols, bases);
    NoAliasBoundaries(bus, keys, sols, bases);
    SolvedBalanced(bus, sols);
    NoAliasExpressed(bus, keys, sols, bases);
    WorldIsModel(bus, uncertain, recvs, sends, w);
    v := ValuationOf(Ords(bus, Recv), Ords(bus, Send), w);
    ValuationRealizes(bus, w);
    forall g, claim | g in sols && Mined(sols[g], claim) ensures LitOf(claim) in v.trues {
      MinedHolds(bus, keys, sols, bases, v, g, claim);
    }
  }

  /** Two groups with one pointer leave the pre-solution without any model: both inputs would be the
      entry record of one cell. */
  lemma SharedPointerRefutes(bus: map<int, Member>, keys: map<int, PointerKey>, uncertain: map<int, set<int>>,
                             recvs: seq<Member>, sends: seq<Member>, sols: map<int, Solved>, g: int, h: int, v: Valuation)
    requires Indexed(bus) && OneKeyPerGroup(bus, keys) && AllSolved(bus, sols)
    requires Lists(bus, Recv, recvs)
    requires AliasComplete(bus, uncertain, Encoded(keys, map[]))
    requires g in sols && h in sols && g != h && g in keys && h in keys && keys[g] == keys[h]
    ensures !(ClusterModel(uncertain, recvs, sends, v) && AllMinedHold(sols, v))
  {
    var x, y := sols[g].input, sols[h].input;
    TimesAt(bus, g, Recv, x);
    TimesAt(bus, h, Recv, y);
    SharedPointerPair(bus, keys, uncertain, recvs, x, y, v);
    MinedInput(sols, v, g);
    MinedInput(sols, v, h);
  }

  lemma SharedPointerPair(bus: map<int, Member>, keys: map<int, PointerKey>, uncertain: map<int, set<int>>,
                          recvs: seq<Member>, x: int, y: int, v: Valuation)
    requires Indexed(bus) && OneKeyPerGroup(bus, keys) && Lists(bus, Recv, recvs)
    requires AliasComplete(bus, uncertain, Encoded(keys, map[]))
    requires x in Ords(bus, Recv) && y in Ords(bus, Recv) && bus[x].group != bus[y].group
    requires keys[bus[x].group] == keys[bus[y].group]
    ensures PairsHold(uncertain, recvs, v) ==> !(In(x) in v.trues && In(y) in v.trues)
  {
    EncodedAt(bus, keys, map[], x);
    EncodedAt(bus, keys, map[], y);
    assert CouldAlias(uncertain, bus[x].group, bus[y].group) && CouldAlias(uncertain, bus[y].group, bus[x].group);
    var i :| 0 <= i < |recvs| && recvs[i].row.ord == x;
    var j :| 0 <= j < |recvs| && recvs[j].row.ord == y;
    SamePtrLin(recvs[i], recvs[j], v);
    var a, b := if i < j then recvs[i] else recvs[j], if i < j then recvs[j] else recvs[i];
    assert PairsHold(uncertain, recvs, v) ==> PairHolds(uncertain, a, b, v);
  }

  lemma MinedInput(sols: map<int, Solved>, v: Valuation, g: int)
    requires g in sols
    ensures AllMinedHold(sols, v) ==> In(sols[g].input) in v.trues
  {
    assert Mined(sols[g], InputClaim(sols[g].input));
    assert LitOf(InputClaim(sols[g].input)) == In(sols[g].input);
  }

  lemma SamePtrLin(a: Member, b: Member, v: Valuation)
    requires a.row.base == b.row.base && a.row.offset == b.row.offset
    ensures LinOf(v, PtrLin(a.row)) == LinOf(v, PtrLin(b.row))
  {
  }

  /** The pre-solution of solved groups is a model of the encoding exactly when their pointers are
      pairwise different expressions; then the disagreement error cannot be reached. */
  lemma PresolutionIffDistinctKeys(bus: map<int, Member>, keys: map<int, PointerKey>, uncertain: map<int, set<int>>,
                                   recvs: seq<Member>, sends: seq<Member>, sols: map<int, Solved>)
    requires Indexed(bus) && OneKeyPerGroup(bus, keys) && AllSolved(bus, sols) && sols.Keys <= keys.Keys
    requires Lists(bus, Recv, recvs) && Lists(bus, Send, sends)
    requires forall bases :: AliasComplete(bus, uncertain, Encoded(keys, bases))
    ensures (exists v :: ClusterModel(uncertain, recvs, sends, v) && AllMinedHold(sols, v))
            <==> (forall g, h :: g in sols && h in sols && g != h ==> keys[g] != keys[h])
  {
    if forall g, h :: g in sols && h in sols && g != h ==> keys[g] != keys[h] {
      var v := DistinctKeysAdmitPresolution(bus, keys, uncertain, recvs, sends, sols);
    } else {
      var g, h :| g in sols && h in sols && g != h && keys[g] == keys[h];
      assert AliasComplete(bus, uncertain, Encoded(keys, map[]));
      forall v ensures !(ClusterModel(uncertain, recvs, sends, v) && AllMinedHold(sols, v)) {
        SharedPointerRefutes(bus, keys, uncertain, recvs, sends, sols, g, h, v);
      }
    }
  }

  /** One modulus per base and offset keeps the pointers of different keys different. */
  lemma OneModulusPerPointer(k1: Key, k2: Key, p: int)
    requires p > 0 && CanonicalKey(k1, p) && CanonicalKey(k2, p) && k1 != k2
    requires k1.BaseOffset? && k2.BaseOffset? && k1.base == k2.base && k1.offset == k2.offset ==> k1.mod == k2.mod
    ensures (KeyBase(k1), KeyOffset(k1, p)) != (KeyBase(k2), KeyOffset(k2, p))
  {
    if k1.Const? && k2.Const? {
      SignedResiduesDiffer(k1.value, k2.value, p);
    }
  }

  /** Two keys of one base with different moduli share one pointer expression, although they may address different
      cells: by `SharedPointerRefutes`, solved groups of such keys have no pre-solution. */
  lemma MixedModuliShareAPointer(p: int, bases: map<string, int>)
    requires p > 0 && "b" in bases
    ensures var k, l := BaseOffset("b", 0, None), BaseOffset("b", 0, Some(65536));
      && k != l && CanonicalKey(k, p) && CanonicalKey(l, p) && !ProvablyDisjoint(k, l)
      && (KeyBase(k), KeyOffset(k, p)) == (KeyBase(l), KeyOffset(l, p))
      && Addresses(k, p, bases["b"], bases["b"]) && Addresses(l, p, bases["b"], bases["b"] + 65536)
  {
    assert bases["b"] + 65536 == bases["b"] + 0 + 65536 * 1;
  }
}
