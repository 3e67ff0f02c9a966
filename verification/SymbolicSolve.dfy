/** Solving a symbolic-key address space: graph matchings per key, then forcing. */
module SymbolicSolve {
  import opened Wrappers
  import opened Sets
  import opened Rows
  import opened CellMatching
  import opened MemoryWorlds
  import opened PointerSpread
  import opened KeyMeeting
  import opened AccessWorlds
  import opened ClusterEncoding
  import opened WorldModels
  import opened ForcingCover
  import opened Forcing
  import Presolution

  /** One key group with its resolved send times and receive thresholds. */
  datatype KeyGroup = KeyGroup(key: Key, sends: seq<Timed>, recvs: seq<Timed>)

  function EngineRows(k: Key, p: int, rows: seq<Timed>, kind: Kind): seq<EngineRow>
    requires p > 0
  {
    seq(|rows|, i requires 0 <= i < |rows| => EngineRow(rows[i].ord, kind, KeyBase(k), KeyOffset(k, p), rows[i].time))
  }

  function GroupRows(g: KeyGroup, p: int): seq<EngineRow>
    requires p > 0
  {
    EngineRows(g.key, p, g.sends, Send) + EngineRows(g.key, p, g.recvs, Recv)
  }

  function AllGroups(gs: seq<KeyGroup>, p: int): (rows: seq<seq<EngineRow>>)
    requires p > 0
    ensures |rows| == |gs|
  {
    seq(|gs|, i requires 0 <= i < |gs| => GroupRows(gs[i], p))
  }

  /** The keys are the distinct canonical keys of a dictionary. */
  ghost predicate GoodKeys(gs: seq<KeyGroup>, p: int) {
    && (forall i :: 0 <= i < |gs| ==> CanonicalKey(gs[i].key, p))
    && (forall i, j :: 0 <= i < j < |gs| ==> gs[i].key != gs[j].key)
  }

  function MinedClaims(c: CellMatch): seq<Claim> {
    seq(|c.edges|, i requires 0 <= i < |c.edges| => EdgeClaim(c.edges[i].recv, c.edges[i].send))
    + (if c.input.Some? then [InputClaim(c.input.value)] else [])
    + (if c.output.Some? then [OutputClaim(c.output.value)] else [])
  }

  /** A cluster: the group and all that are not provably disjoint from it. */
  predicate InCluster(gs: seq<KeyGroup>, g: nat, h: nat)
    requires g < |gs| && h < |gs|
  {
    h == g || !ProvablyDisjoint(gs[g].key, gs[h].key)
  }

  /** The cells are possible pointers of the keys, exact ones or known modulo a number only. */
  ghost predicate PlacedAt(gs: seq<KeyGroup>, p: int, bases: map<string, int>, cells: map<int, int>)
    requires p > 0
  {
    forall g :: 0 <= g < |gs| ==> g in cells && Addresses(gs[g].key, p, BaseValue(gs[g].key, bases), cells[g])
  }

  ghost predicate Placed(gs: seq<KeyGroup>, p: int, w: World)
    requires p > 0
  {
    PlacedAt(gs, p, w.bases, w.cells)
  }

  /** No key may address the cell of `g` although the encoding keeps their pointers apart. */
  predicate Unconfused(gs: seq<KeyGroup>, g: nat)
    requires g < |gs|
  {
    forall h :: 0 <= h < |gs| ==> !Confusable(gs[g].key, gs[h].key)
  }

  /** In this world none does. */
  ghost predicate Unmet(gs: seq<KeyGroup>, g: nat, w: World)
    requires g < |gs|
  {
    forall h :: 0 <= h < |gs| && Confusable(gs[g].key, gs[h].key) ==> CellAt(w.cells, h) != CellAt(w.cells, g)
  }

  // ---- Rows of a group and the tables of its matching ----

  lemma GroupRowsDistinct(gs: seq<KeyGroup>, p: int, g: nat)
    requires p > 0 && DistinctGroups(AllGroups(gs, p)) && g < |gs|
    ensures DistinctOrds(gs[g].sends) && DistinctOrds(gs[g].recvs)
  {
    var rows := AllGroups(gs, p)[g];
    forall i, j | 0 <= i < j < |gs[g].sends| ensures gs[g].sends[i].ord != gs[g].sends[j].ord {
      assert rows[i].ord != rows[j].ord;
    }
    var n := |gs[g].sends|;
    forall i, j | 0 <= i < j < |gs[g].recvs| ensures gs[g].recvs[i].ord != gs[g].recvs[j].ord {
      assert rows[n + i].ord != rows[n + j].ord;
    }
  }

  function TimedOf(g: KeyGroup, kind: Kind): seq<Timed> {
    if kind.Send? then g.sends else g.recvs
  }

  /** The rows of a group on the bus are the rows handed to its matching. */
  lemma TimesAreTable(gs: seq<KeyGroup>, p: int, bus: map<int, Member>, g: nat, kind: Kind)
    requires p > 0 && DistinctGroups(AllGroups(gs, p)) && IsBus(AllGroups(gs, p), bus) && g < |gs|
    ensures Presolution.TimesOf(bus, g, kind) == Table(TimedOf(gs[g], kind))
  {
    GroupRowsDistinct(gs, p, g);
    var t, table, ts := Presolution.TimesOf(bus, g, kind), Table(TimedOf(gs[g], kind)), TimedOf(gs[g], kind);
    forall o | o in table.Keys ensures o in t && t[o] == table[o] {
      var i :| 0 <= i < |ts| && ts[i].ord == o;
      TableAt(ts, i);
      TimedIsRow(gs, p, g, kind, i);
      var a := Member(g, EngineRow(ts[i].ord, kind, KeyBase(gs[g].key), KeyOffset(gs[g].key, p), ts[i].time));
      assert bus[a.row.ord] == a;
    }
    forall o | o in t.Keys ensures o in table.Keys {
      var i := RowIsTimed(gs, p, bus[o]);
    }
    SameMap(t, table);
  }

  lemma TimedIsRow(gs: seq<KeyGroup>, p: int, g: nat, kind: Kind, i: nat)
    requires p > 0 && g < |gs| && i < |TimedOf(gs[g], kind)|
    ensures var t := TimedOf(gs[g], kind)[i];
      RowOfGroups(AllGroups(gs, p), Member(g, EngineRow(t.ord, kind, KeyBase(gs[g].key), KeyOffset(gs[g].key, p), t.time)))
  {
    var rows, t := AllGroups(gs, p)[g], TimedOf(gs[g], kind)[i];
    var j := if kind.Send? then i else |gs[g].sends| + i;
    assert rows[j] == EngineRow(t.ord, kind, KeyBase(gs[g].key), KeyOffset(gs[g].key, p), t.time);
  }

  lemma RowIsTimed(gs: seq<KeyGroup>, p: int, a: Member) returns (i: nat)
    requires p > 0 && RowOfGroups(AllGroups(gs, p), a)
    ensures i < |TimedOf(gs[a.group], a.row.kind)|
    ensures var t := TimedOf(gs[a.group], a.row.kind)[i];
      a.row == EngineRow(t.ord, a.row.kind, KeyBase(gs[a.group].key), KeyOffset(gs[a.group].key, p), t.time)
  {
    var rows, n := AllGroups(gs, p)[a.group], |gs[a.group].sends|;
    var j :| 0 <= j < |rows| && rows[j] == a.row;
    i := if j < n then j else j - n;
  }

  ghost function PointerKeys(gs: seq<KeyGroup>, p: int): map<int, PointerKey>
    requires p > 0
  {
    map g: int | 0 <= g < |gs| :: (KeyBase(gs[g].key), KeyOffset(gs[g].key, p))
  }

  lemma BusHasKeys(gs: seq<KeyGroup>, p: int, bus: map<int, Member>)
    requires p > 0 && IsBus(AllGroups(gs, p), bus)
    ensures OneKeyPerGroup(bus, PointerKeys(gs, p))
  {
    forall o | o in bus
      ensures bus[o].group in PointerKeys(gs, p)
      ensures bus[o].row.base == PointerKeys(gs, p)[bus[o].group].0
      ensures bus[o].row.offset == PointerKeys(gs, p)[bus[o].group].1
    {
      var i := RowIsTimed(gs, p, bus[o]);
    }
  }

  // ---- Potential aliasing ----

  /** `uncertain` relates exactly the groups whose keys are not provably disjoint. */
  ghost predicate UncertainIs(gs: seq<KeyGroup>, uncertain: map<int, set<int>>) {
    && uncertain.Keys == UpTo(|gs|)
    && forall g: int, h: int :: 0 <= g < |gs| && g in uncertain ==> PairListed(gs, uncertain, g, h)
  }

  ghost predicate PairListed(gs: seq<KeyGroup>, uncertain: map<int, set<int>>, g: int, h: int)
    requires 0 <= g < |gs| && g in uncertain
  {
    h in uncertain[g] <==> 0 <= h < |gs| && h != g && !ProvablyDisjoint(gs[g].key, gs[h].key)
  }

  lemma UncertainMember(gs: seq<KeyGroup>, uncertain: map<int, set<int>>, g: nat, h: int)
    requires UncertainIs(gs, uncertain) && g < |gs|
    ensures g in uncertain
    ensures h in uncertain[g] <==> 0 <= h < |gs| && h != g && !ProvablyDisjoint(gs[g].key, gs[h].key)
  {
    assert g in UpTo(|gs|);
    assert PairListed(gs, uncertain, g, h);
  }

  lemma NotItsOwnAlias(gs: seq<KeyGroup>, uncertain: map<int, set<int>>, g: nat)
    requires UncertainIs(gs, uncertain) && g < |gs|
    ensures g in uncertain && g !in UncertainOf(uncertain, g)
  {
    UncertainMember(gs, uncertain, g, g);
  }

  lemma DisjointKeysDiffer(k1: Key, k2: Key, p: int, bases: map<string, int>)
    requires p > 0 && CanonicalKey(k1, p) && CanonicalKey(k2, p) && ProvablyDisjoint(k1, k2)
    ensures KeyPointer((KeyBase(k1), KeyOffset(k1, p)), bases) != KeyPointer((KeyBase(k2), KeyOffset(k2, p)), bases)
  {
    if k1.Const? {
      SignedResiduesDiffer(k1.value, k2.value, p);
    }
  }

  /** Whatever the bases, rows at one pointer of the encoding belong to groups it lets alias. */
  lemma UncertainIsComplete(gs: seq<KeyGroup>, p: int, uncertain: map<int, set<int>>, bus: map<int, Member>)
    requires p > 0 && GoodKeys(gs, p) && UncertainIs(gs, uncertain) && IsBus(AllGroups(gs, p), bus)
    ensures forall bases :: AliasComplete(bus, uncertain, Encoded(PointerKeys(gs, p), bases))
  {
    forall bases ensures AliasComplete(bus, uncertain, Encoded(PointerKeys(gs, p), bases)) {
      var cells := Encoded(PointerKeys(gs, p), bases);
      forall x, y | x in bus && y in bus && CellOf(cells, bus[x]) == CellOf(cells, bus[y])
        ensures CouldAlias(uncertain, bus[x].group, bus[y].group)
      {
        var g, h := bus[x].group, bus[y].group;
        assert RowOfGroups(AllGroups(gs, p), bus[x]) && RowOfGroups(AllGroups(gs, p), bus[y]);
        UncertainMember(gs, uncertain, g, h);
        if g != h && ProvablyDisjoint(gs[g].key, gs[h].key) {
          DisjointKeysDiffer(gs[g].key, gs[h].key, p, bases);
        }
      }
    }
  }

  /** In a world too, groups at one cell are related: disjointness is sound for keys known modulo a number. */
  lemma PlacedIsComplete(gs: seq<KeyGroup>, p: int, uncertain: map<int, set<int>>, bus: map<int, Member>, w: World)
    requires p > 0 && GoodKeys(gs, p) && UncertainIs(gs, uncertain) && IsBus(AllGroups(gs, p), bus) && Placed(gs, p, w)
    ensures AliasComplete(bus, uncertain, w.cells)
  {
    forall x, y | x in bus && y in bus && CellOf(w.cells, bus[x]) == CellOf(w.cells, bus[y])
      ensures CouldAlias(uncertain, bus[x].group, bus[y].group)
    {
      var g, h := bus[x].group, bus[y].group;
      assert RowOfGroups(AllGroups(gs, p), bus[x]) && RowOfGroups(AllGroups(gs, p), bus[y]);
      UncertainMember(gs, uncertain, g, h);
      if g != h && ProvablyDisjoint(gs[g].key, gs[h].key) {
        DisjointIsSound(gs[g].key, gs[h].key, p, w.bases, w.cells[g], w.cells[h]);
      }
    }
  }

  /** Keys that share a cell of the world share their base only with one pointer, unless they are confusable. */
  lemma SharedCell(gs: seq<KeyGroup>, p: int, w: World, g: nat, h: nat)
    requires p > 0 && GoodKeys(gs, p) && Placed(gs, p, w) && g < |gs| && h < |gs|
    requires KeyBase(gs[g].key) == KeyBase(gs[h].key) && CellAt(w.cells, g) == CellAt(w.cells, h)
    ensures KeyOffset(gs[g].key, p) == KeyOffset(gs[h].key, p) || Confusable(gs[g].key, gs[h].key)
  {
    var k, l := gs[g].key, gs[h].key;
    if k.BaseOffset? && k != l {
      if k.mod == l.mod {
        DisjointIsSound(k, l, p, w.bases, w.cells[g], w.cells[h]);
      } else {
        CommonMeets(k, l, p, BaseValue(k, w.bases), w.cells[g]);
      }
    }
  }

  lemma UnmetMeets(gs: seq<KeyGroup>, p: int, bus: map<int, Member>, w: World, g: nat)
    requires p > 0 && GoodKeys(gs, p) && Placed(gs, p, w) && g < |gs| && Unmet(gs, g, w)
    ensures MeetsOnlyMeeting(bus, PointerKeys(gs, p), g, w)
  {
    var keys := PointerKeys(gs, p);
    forall z | z in bus && CellOf(w.cells, bus[z]) == CellAt(w.cells, g) && bus[z].group in keys && keys[bus[z].group].0 == keys[g].0
      ensures keys[bus[z].group].1 == keys[g].1
    {
      SharedCell(gs, p, w, g, bus[z].group);
    }
  }

  /** The pairs compared before row `i`, column `j`. */
  predicate Compared(g: int, h: int, i: int, j: int) {
    var lo, hi := if g < h then g else h, if g < h then h else g;
    lo < i || (lo == i && hi < j)
  }

  /** `h` is listed for `g` exactly when the pair was compared and is not provably disjoint. */
  ghost predicate PairSoFar(gs: seq<KeyGroup>, uncertain: map<int, set<int>>, g: int, h: int, i: int, j: int)
    requires 0 <= g < |gs| && g in uncertain
  {
    h in uncertain[g] <==> 0 <= h < |gs| && h != g && Compared(g, h, i, j) && !ProvablyDisjoint(gs[g].key, gs[h].key)
  }

  ghost predicate UncertainSoFar(gs: seq<KeyGroup>, uncertain: map<int, set<int>>, i: int, j: int) {
    && uncertain.Keys == UpTo(|gs|)
    && forall g: int, h: int :: 0 <= g < |gs| && g in uncertain ==> PairSoFar(gs, uncertain, g, h, i, j)
  }

  /** Compares every two keys once. */
  method ComputeUncertain(gs: seq<KeyGroup>) returns (uncertain: map<int, set<int>>)
    ensures UncertainIs(gs, uncertain)
  {
    uncertain := map g | g in UpTo(|gs|) :: {};
    for i := 0 to |gs|
      invariant UncertainSoFar(gs, uncertain, i, i + 1)
    {
      for j := i + 1 to |gs|
        invariant UncertainSoFar(gs, uncertain, i, j)
      {
        ghost var before := uncertain;
        if !ProvablyDisjoint(gs[i].key, gs[j].key) {
          uncertain := uncertain[i := uncertain[i] + {j}];
          uncertain := uncertain[j := uncertain[j] + {i}];
        }
        ComparedStep(gs, before, uncertain, i, j);
      }
      RowDone(gs, uncertain, i);
    }
    AllCompared(gs, uncertain);
  }

  lemma AllCompared(gs: seq<KeyGroup>, uncertain: map<int, set<int>>)
    requires UncertainSoFar(gs, uncertain, |gs|, |gs| + 1)
    ensures UncertainIs(gs, uncertain)
  {
    forall g: int, h: int | 0 <= g < |gs| && g in uncertain ensures PairListed(gs, uncertain, g, h) {
      assert PairSoFar(gs, uncertain, g, h, |gs|, |gs| + 1);
    }
  }

  lemma ComparedStep(gs: seq<KeyGroup>, before: map<int, set<int>>, after: map<int, set<int>>, i: nat, j: nat)
    requires i < j < |gs| && UncertainSoFar(gs, before, i, j)
    requires i in before && j in before
    requires after == if ProvablyDisjoint(gs[i].key, gs[j].key) then before
                      else before[i := before[i] + {j}][j := before[j] + {i}]
    ensures UncertainSoFar(gs, after, i, j + 1)
  {
    assert after.Keys == before.Keys;
    var next := j + 1;
    forall g: int, h: int | 0 <= g < |gs| && g in after ensures PairSoFar(gs, after, g, h, i, next) {
      assert PairSoFar(gs, before, g, h, i, j);
      assert Compared(g, h, i, next) && g != h <==> (Compared(g, h, i, j) || (g == i && h == j) || (g == j && h == i)) && g != h;
    }
  }

  lemma RowDone(gs: seq<KeyGroup>, uncertain: map<int, set<int>>, i: nat)
    requires i < |gs| && UncertainSoFar(gs, uncertain, i, |gs|)
    ensures UncertainSoFar(gs, uncertain, i + 1, i + 2)
  {
    var row, col := i + 1, i + 2;
    forall g: int, h: int | 0 <= g < |gs| && g in uncertain ensures PairSoFar(gs, uncertain, g, h, row, col) {
      assert PairSoFar(gs, uncertain, g, h, i, |gs|);
      assert 0 <= h < |gs| && h != g ==> (Compared(g, h, row, col) <==> Compared(g, h, i, |gs|));
    }
  }

  // ---- A cell without potential aliasing ----

  ghost function Restrict(src: map<int, int>, rs: set<int>): map<int, int> {
    map r | r in src && r in rs :: src[r]
  }

  /** In any world, a group that aliases with no other group is matched within itself. */
  lemma LoneGroupSolution(bus: map<int, Member>, uncertain: map<int, set<int>>, g: int, w: World, b: int)
    requires Indexed(bus) && ValidWorld(bus, w) && AliasComplete(bus, uncertain, w.cells)
    requires forall h :: CouldAlias(uncertain, g, h) ==> h == g
    requires b in CellMatching.Boundary(Presolution.TimesOf(bus, g, Send), Presolution.TimesOf(bus, g, Recv))
    ensures b !in w.src
    ensures IsSolution(Presolution.TimesOf(bus, g, Send), Presolution.TimesOf(bus, g, Recv), b,
                       Restrict(w.src, Presolution.TimesOf(bus, g, Recv).Keys))
  {
    hide AliasComplete, WitnessesBounded;
    var S, R := Presolution.TimesOf(bus, g, Send), Presolution.TimesOf(bus, g, Recv);
    var m := Restrict(w.src, R.Keys);
    forall r | r in R && r in w.src ensures w.src[r] in S && S[w.src[r]] <= R[r] {
      LoneRead(bus, uncertain, g, w, r);
    }
    forall r | r in R && r in w.src ensures r !in CellMatching.Boundary(S, R) {
      NotBoundary(S, R, r, w.src[r]);
    }
    forall r | r in R.Keys - {b} ensures r in w.src {
      assert r in Ords(bus, Recv) && b in Ords(bus, Recv) && bus[r].group == bus[b].group;
    }
    SameSet(m.Keys, R.Keys - {b});
  }

  lemma LoneRead(bus: map<int, Member>, uncertain: map<int, set<int>>, g: int, w: World, r: int)
    requires Indexed(bus) && ReadsWell(bus, w) && WitnessesBounded(bus, w) && AliasComplete(bus, uncertain, w.cells)
    requires forall h :: CouldAlias(uncertain, g, h) ==> h == g
    requires r in Presolution.TimesOf(bus, g, Recv) && r in w.src
    ensures var S := Presolution.TimesOf(bus, g, Send);
      w.src[r] in S && S[w.src[r]] <= Presolution.TimesOf(bus, g, Recv)[r]
  {
    ValueOf(w.src, r);
    var s := w.src[r];
    assert s in Ords(bus, Send);
    assert CouldAlias(uncertain, bus[r].group, bus[s].group);
    assert s in Presolution.TimesOf(bus, g, Send).Keys;
  }

  /** Uniqueness of such a cell entails every claim of its matching, in every world. */
  lemma UniqueCellIsForced(bus: map<int, Member>, uncertain: map<int, set<int>>, g: int,
                           w: World, c: CellMatch, claim: Claim)
    requires Indexed(bus) && ValidWorld(bus, w) && AliasComplete(bus, uncertain, w.cells)
    requires forall h :: CouldAlias(uncertain, g, h) ==> h == g
    requires Correct(Presolution.TimesOf(bus, g, Send), Presolution.TimesOf(bus, g, Recv), c) && c.note.Clean? && c.unique
    requires claim in MinedClaims(c)
    ensures ClaimHolds(w, claim)
  {
    LoneReading(bus, uncertain, g, w, c);
    var R, m := Presolution.TimesOf(bus, g, Recv), Restrict(w.src, Presolution.TimesOf(bus, g, Recv).Keys);
    MinedFromReading(Presolution.TimesOf(bus, g, Send), R, c, m, claim);
    if claim.OutputClaim? {
      LoneUnread(bus, uncertain, g, w, claim.send);
    }
  }

  lemma LoneReading(bus: map<int, Member>, uncertain: map<int, set<int>>, g: int,
                    w: World, c: CellMatch)
    requires Indexed(bus) && ValidWorld(bus, w) && AliasComplete(bus, uncertain, w.cells)
    requires forall h :: CouldAlias(uncertain, g, h) ==> h == g
    requires Correct(Presolution.TimesOf(bus, g, Send), Presolution.TimesOf(bus, g, Recv), c) && c.note.Clean? && c.unique
    ensures var S, R := Presolution.TimesOf(bus, g, Send), Presolution.TimesOf(bus, g, Recv);
      DescribesReading(S, R, c, Restrict(w.src, R.Keys)) && c.input.value !in w.src
  {
    var S, R := Presolution.TimesOf(bus, g, Send), Presolution.TimesOf(bus, g, Recv);
    LoneGroupSolution(bus, uncertain, g, w, c.input.value);
    assert OnlySolution(S, R, c.input.value, Reading(c.edges));
  }

  lemma MinedFromReading(sends: map<int, int>, recvs: map<int, int>, c: CellMatch, m: map<int, int>, claim: Claim)
    requires DescribesReading(sends, recvs, c, m) && claim in MinedClaims(c)
    ensures claim.EdgeClaim? ==> claim.recv in m && m[claim.recv] == claim.send
    ensures claim.InputClaim? ==> claim.recv == c.input.value
    ensures claim.OutputClaim? ==> claim.send in sends && claim.send !in m.Values
  {
    MinedCases(c, claim);
    if claim.EdgeClaim? {
      var i :| 0 <= i < |c.edges| && c.edges[i].recv == claim.recv && c.edges[i].send == claim.send;
      assert c.edges[i] in c.edges;
    } else if claim.OutputClaim? {
      assert claim.send in sends.Keys - m.Values;
    }
  }

  /** What a mined claim says about the matching. */
  lemma MinedCases(c: CellMatch, claim: Claim)
    requires claim in MinedClaims(c)
    ensures match claim
      case EdgeClaim(r, s) => exists i :: 0 <= i < |c.edges| && c.edges[i].recv == r && c.edges[i].send == s
      case InputClaim(r) => c.input == Some(r)
      case OutputClaim(s) => c.output == Some(s)
  {
  }

  lemma LoneUnread(bus: map<int, Member>, uncertain: map<int, set<int>>, g: int, w: World, s: int)
    requires Indexed(bus) && ReadsWell(bus, w) && AliasComplete(bus, uncertain, w.cells)
    requires forall h :: CouldAlias(uncertain, g, h) ==> h == g
    requires s in Presolution.TimesOf(bus, g, Send)
    requires s !in Restrict(w.src, Presolution.TimesOf(bus, g, Recv).Keys).Values
    ensures s !in w.src.Values
  {
    if s in w.src.Values {
      var r := KeyOf(w.src, s);
      LoneReader(bus, uncertain, g, w, r);
      ValueOf(Restrict(w.src, Presolution.TimesOf(bus, g, Recv).Keys), r);
    }
  }

  lemma LoneReader(bus: map<int, Member>, uncertain: map<int, set<int>>, g: int, w: World, r: int)
    requires Indexed(bus) && ReadsWell(bus, w) && AliasComplete(bus, uncertain, w.cells)
    requires forall h :: CouldAlias(uncertain, g, h) ==> h == g
    requires r in w.src && w.src[r] in Presolution.TimesOf(bus, g, Send)
    ensures r in Presolution.TimesOf(bus, g, Recv)
  {
    var s := w.src[r];
    assert r in Ords(bus, Recv);
    assert CouldAlias(uncertain, bus[s].group, bus[r].group);
  }

  // ---- The solve ----

  /** Errors of the solve: two writes of one cell at one time, or one of the forcing errors. */
  datatype Failure = SameTimeWrites | ClusterUnmatched | EngineDisagreement

  datatype SymbolicResult =
    | Failed(reason: Failure)
    | Solution(matches: seq<CellMatch>, forced: seq<map<Claim, bool>>)

  const DEFAULT_CLUSTER_CAP: nat := 128

  /** The claims of a group marked forced hold in every valid world of the bus: outright when the group aliases with no
      other, and otherwise for paired accesses wherever no confusable key is at the group's cell. */
  ghost predicate ForcedSoundly(gs: seq<KeyGroup>, p: int, g: nat, lone: bool, forced: map<Claim, bool>)
    requires p > 0 && g < |gs|
  {
    forall bus, w, mate ::
      (IsBus(AllGroups(gs, p), bus) && RealWorld(gs, p, bus, w) && (lone || (PairedAccesses(bus, mate) && Unmet(gs, g, w))))
      ==> AllForcedHold(forced, w)
  }

  ghost predicate RealWorld(gs: seq<KeyGroup>, p: int, bus: map<int, Member>, w: World)
    requires p > 0
  {
    ValidWorld(bus, w) && Placed(gs, p, w)
  }

  ghost predicate PairedAccesses(bus: map<int, Member>, mate: map<int, int>) {
    Paired(bus, mate) && DistinctAccessTimes(bus)
  }

  ghost predicate AllForcedHold(forced: map<Claim, bool>, w: World) {
    forall c :: c in forced && forced[c] ==> ClaimHolds(w, c)
  }

  predicate Lone(gs: seq<KeyGroup>, g: nat)
    requires g < |gs|
  {
    forall h :: 0 <= h < |gs| && h != g ==> ProvablyDisjoint(gs[g].key, gs[h].key)
  }

  /** Matches every group; `None` when some group has two writes at one time. */
  method MatchGroups(gs: seq<KeyGroup>, ghost p: int) returns (matches: Option<seq<CellMatch>>)
    requires p > 0 && DistinctGroups(AllGroups(gs, p))
    ensures matches.Some? ==> |matches.value| == |gs|
    ensures matches.Some? ==>
      forall g :: 0 <= g < |gs| ==> Correct(Table(gs[g].sends), Table(gs[g].recvs), matches.value[g])
    ensures matches.None? <==> exists g :: 0 <= g < |gs| && !DistinctTimes(gs[g].sends)
  {
    hide Correct, DistinctGroups, DistinctTimes, DistinctOrds, Table, AllGroups;
    var ms: seq<CellMatch> := [];
    for i := 0 to |gs|
      invariant |ms| == i && forall g :: 0 <= g < i ==> DistinctTimes(gs[g].sends)
      invariant forall g :: 0 <= g < i ==> Correct(Table(gs[g].sends), Table(gs[g].recvs), ms[g])
    {
      GroupRowsDistinct(gs, p, i);
      var m := PrefixMatching(gs[i].sends, gs[i].recvs);
      if m.None? {
        return None;
      }
      ms := ms + [m.value];
    }
    matches := Some(ms);
  }

  function ClaimsByGroup(matches: seq<CellMatch>): map<int, seq<Claim>> {
    map g: int | 0 <= g < |matches| && matches[g].note.Clean? :: MinedClaims(matches[g])
  }

  function Constant(cs: seq<Claim>, b: bool): map<Claim, bool> {
    map c | c in cs :: b
  }

  ghost predicate AllCorrect(gs: seq<KeyGroup>, matches: seq<CellMatch>) {
    && |matches| == |gs|
    && forall g :: 0 <= g < |gs| ==> Correct(Table(gs[g].sends), Table(gs[g].recvs), matches[g])
  }

  /** A mined claim speaks about rows of its own group. */
  lemma MinedIsClaimOf(gs: seq<KeyGroup>, p: int, bus: map<int, Member>, matches: seq<CellMatch>, g: nat, c: Claim)
    requires p > 0 && DistinctGroups(AllGroups(gs, p)) && IsBus(AllGroups(gs, p), bus)
    requires AllCorrect(gs, matches) && g < |gs| && matches[g].note.Clean? && c in MinedClaims(matches[g])
    ensures ClaimOf(bus, g, c)
  {
    TimesAreTable(gs, p, bus, g, Send);
    TimesAreTable(gs, p, bus, g, Recv);
    var S, R := Presolution.TimesOf(bus, g, Send), Presolution.TimesOf(bus, g, Recv);
    MinedFromReading(S, R, matches[g], Reading(matches[g].edges), c);
    match c
    case EdgeClaim(r, s) =>
      assert r in R.Keys && s in S.Keys;
    case InputClaim(r) =>
      assert r in R.Keys;
    case OutputClaim(s) =>
      assert s in S.Keys;
  }

  lemma NotAliased(gs: seq<KeyGroup>, uncertain: map<int, set<int>>, g: nat)
    requires UncertainIs(gs, uncertain) && g < |gs|
    ensures g in uncertain && (uncertain[g] == {} ==> forall h :: CouldAlias(uncertain, g, h) ==> h == g)
  {
    NotItsOwnAlias(gs, uncertain, g);
  }

  lemma BusIndexed(gs: seq<KeyGroup>, p: int, bus: map<int, Member>)
    requires p > 0 && IsBus(AllGroups(gs, p), bus)
    ensures Indexed(bus)
  {
  }

  lemma LoneForcedSoundly(gs: seq<KeyGroup>, p: int, uncertain: map<int, set<int>>, matches: seq<CellMatch>, g: nat)
    requires p > 0 && GoodKeys(gs, p) && DistinctGroups(AllGroups(gs, p)) && UncertainIs(gs, uncertain)
    requires AllCorrect(gs, matches) && g < |gs| && matches[g].note.Clean? && uncertain[g] == {}
    ensures ForcedSoundly(gs, p, g, true, Constant(MinedClaims(matches[g]), matches[g].unique))
  {
    hide GoodKeys, DistinctGroups, UncertainIs, Correct, AliasComplete, MinedClaims, PairedAccesses, IsBus;
    var forced := Constant(MinedClaims(matches[g]), matches[g].unique);
    NotAliased(gs, uncertain, g);
    forall bus, w | IsBus(AllGroups(gs, p), bus) && RealWorld(gs, p, bus, w) ensures AllForcedHold(forced, w) {
      TimesAreTable(gs, p, bus, g, Send);
      TimesAreTable(gs, p, bus, g, Recv);
      PlacedIsComplete(gs, p, uncertain, bus, w);
      BusIndexed(gs, p, bus);
      forall c | c in forced && forced[c] ensures ClaimHolds(w, c) {
        UniqueCellIsForced(bus, uncertain, g, w, matches[g], c);
      }
    }
  }

  lemma ClusterForcedSoundly(gs: seq<KeyGroup>, p: int, uncertain: map<int, set<int>>, matches: seq<CellMatch>, g: nat,
                             forced: map<Claim, bool>)
    requires p > 0 && GoodKeys(gs, p) && DistinctGroups(AllGroups(gs, p)) && UncertainIs(gs, uncertain)
    requires AllCorrect(gs, matches) && g < |gs| && matches[g].note.Clean?
    requires forall c :: c in forced ==> c in MinedClaims(matches[g])
    requires forall c :: c in forced && forced[c] ==> Entailed(AllGroups(gs, p), uncertain, g, c)
    ensures ForcedSoundly(gs, p, g, false, forced)
  {
    hide GoodKeys, DistinctGroups, UncertainIs, Encodable, Correct, Entailed, RealWorld, Unmet, AliasComplete, PairedAccesses;
    NotItsOwnAlias(gs, uncertain, g);
    forall bus, w, mate | IsBus(AllGroups(gs, p), bus) && RealWorld(gs, p, bus, w) && PairedAccesses(bus, mate) && Unmet(gs, g, w)
      ensures AllForcedHold(forced, w)
    {
      forall c | c in forced && forced[c] ensures ClaimHolds(w, c) {
        MinedIsClaimOf(gs, p, bus, matches, g, c);
        EntailedHoldsHere(gs, p, uncertain, g, bus, mate, w, c);
      }
    }
  }

  /** An entailed claim holds wherever no confusable key is at the group's cell. */
  lemma EntailedHoldsHere(gs: seq<KeyGroup>, p: int, uncertain: map<int, set<int>>, g: nat, bus: map<int, Member>, mate: map<int, int>,
                          w: World, c: Claim)
    requires p > 0 && GoodKeys(gs, p) && DistinctGroups(AllGroups(gs, p)) && UncertainIs(gs, uncertain) && g < |gs|
    requires IsBus(AllGroups(gs, p), bus) && PairedAccesses(bus, mate) && ClaimOf(bus, g, c)
    requires RealWorld(gs, p, bus, w) && Unmet(gs, g, w) && Entailed(AllGroups(gs, p), uncertain, g, c)
    ensures ClaimHolds(w, c)
  {
    hide GoodKeys, DistinctGroups, UncertainIs, IsBus, Encodable, Entailed, Unmet, AliasComplete, PairedAccesses;
    NotItsOwnAlias(gs, uncertain, g);
    BusEncodable(gs, p, uncertain, bus, mate);
    PlacedIsComplete(gs, p, uncertain, bus, w);
    UnmetMeets(gs, p, bus, w, g);
    EntailedHolds(AllGroups(gs, p), uncertain, g, bus, PointerKeys(gs, p), mate, w, c);
  }

  lemma BusEncodable(gs: seq<KeyGroup>, p: int, uncertain: map<int, set<int>>, bus: map<int, Member>, mate: map<int, int>)
    requires p > 0 && GoodKeys(gs, p) && UncertainIs(gs, uncertain) && IsBus(AllGroups(gs, p), bus) && PairedAccesses(bus, mate)
    ensures Encodable(bus, PointerKeys(gs, p), mate, uncertain)
  {
    hide GoodKeys, UncertainIs, AliasComplete, Paired, DistinctAccessTimes;
    BusHasKeys(gs, p, bus);
    UncertainIsComplete(gs, p, uncertain, bus);
  }

  lemma NothingForcedSoundly(gs: seq<KeyGroup>, p: int, g: nat, lone: bool, forced: map<Claim, bool>)
    requires p > 0 && g < |gs| && forall c :: c in forced ==> !forced[c]
    ensures ForcedSoundly(gs, p, g, lone, forced)
  {
  }

  // ---- The disagreement error ----

  /** Every group of the cluster of `g` is clean, and no two of its keys share base and offset. */
  ghost predicate CleanCluster(gs: seq<KeyGroup>, matches: seq<CellMatch>, g: nat)
    requires g < |gs| == |matches|
  {
    && (forall h :: 0 <= h < |gs| && InCluster(gs, g, h) ==> matches[h].note.Clean?)
    && (forall h, k ::
          (0 <= h < |gs| && 0 <= k < |gs| && InCluster(gs, g, h) && InCluster(gs, g, k) && SameBase(gs[h].key, gs[k].key)
           && gs[h].key.offset == gs[k].key.offset) ==>
          gs[h].key.mod == gs[k].key.mod)
  }

  ghost function Sols(matches: seq<CellMatch>, groups: set<int>): map<int, Presolution.Solved>
    requires forall g :: g in groups ==> 0 <= g < |matches| && matches[g].input.Some? && matches[g].output.Some?
  {
    map g | g in groups :: Presolution.Solved(matches[g].input.value, Reading(matches[g].edges), matches[g].output.value)
  }

  lemma ClusterTimes(bus: map<int, Member>, uncertain: map<int, set<int>>, gi: int, h: int, kind: Kind)
    requires h in GroupsOf(Cluster(bus, uncertain, gi))
    ensures Presolution.TimesOf(Cluster(bus, uncertain, gi), h, kind) == Presolution.TimesOf(bus, h, kind)
  {
    var cluster := Cluster(bus, uncertain, gi);
    var a, b := Presolution.TimesOf(cluster, h, kind), Presolution.TimesOf(bus, h, kind);
    var o :| o in cluster && cluster[o].group == h;
    SameMap(a, b);
  }

  ghost predicate FromMatches(matches: seq<CellMatch>, sols: map<int, Presolution.Solved>) {
    forall h :: h in sols ==> (
      && 0 <= h < |matches| && matches[h].input.Some? && matches[h].output.Some?
      && sols[h] == Presolution.Solved(matches[h].input.value, Reading(matches[h].edges), matches[h].output.value))
  }

  lemma SolvedGroup(gs: seq<KeyGroup>, p: int, bus: map<int, Member>, uncertain: map<int, set<int>>, matches: seq<CellMatch>, gi: nat, h: int)
    requires p > 0 && DistinctGroups(AllGroups(gs, p)) && IsBus(AllGroups(gs, p), bus)
    requires AllCorrect(gs, matches) && 0 <= h < |gs| && matches[h].note.Clean?
    requires h in GroupsOf(Cluster(bus, uncertain, gi))
    ensures matches[h].input.Some? && matches[h].output.Some?
    ensures SolvedBy(Cluster(bus, uncertain, gi), h, matches[h])
  {
    ClusterTimes(bus, uncertain, gi, h, Send);
    ClusterTimes(bus, uncertain, gi, h, Recv);
    TimesAreTable(gs, p, bus, h, Send);
    TimesAreTable(gs, p, bus, h, Recv);
  }

  /** The joined matchings of a clean cluster. */
  lemma ClusterSolved(gs: seq<KeyGroup>, p: int, bus: map<int, Member>, uncertain: map<int, set<int>>, matches: seq<CellMatch>, gi: nat)
    returns (sols: map<int, Presolution.Solved>)
    requires p > 0 && DistinctGroups(AllGroups(gs, p)) && IsBus(AllGroups(gs, p), bus)
    requires AllCorrect(gs, matches) && gi < |gs| && CleanCluster(gs, matches, gi) && UncertainIs(gs, uncertain)
    ensures sols.Keys == GroupsOf(Cluster(bus, uncertain, gi))
    ensures Presolution.AllSolved(Cluster(bus, uncertain, gi), sols)
    ensures FromMatches(matches, sols)
  {
    var groups := GroupsOf(Cluster(bus, uncertain, gi));
    GroupsBelow(gs, p, bus, uncertain, gi);
    forall h | h in groups
      ensures 0 <= h < |gs| && matches[h].note.Clean?
      ensures matches[h].input.Some? && matches[h].output.Some?
      ensures SolvedBy(Cluster(bus, uncertain, gi), h, matches[h])
    {
      GroupInCluster(gs, bus, uncertain, gi, h);
      SolvedGroup(gs, p, bus, uncertain, matches, gi, h);
    }
    sols := Sols(matches, groups);
    SolvedByAll(Cluster(bus, uncertain, gi), matches, sols);
  }

  ghost predicate SolvedBy(cluster: map<int, Member>, h: int, c: CellMatch)
    requires c.input.Some? && c.output.Some?
  {
    && IsSolution(Presolution.TimesOf(cluster, h, Send), Presolution.TimesOf(cluster, h, Recv), c.input.value, Reading(c.edges))
    && Presolution.TimesOf(cluster, h, Send).Keys - Reading(c.edges).Values == {c.output.value}
  }

  lemma SolvedByAll(cluster: map<int, Member>, matches: seq<CellMatch>, sols: map<int, Presolution.Solved>)
    requires sols.Keys == GroupsOf(cluster) && FromMatches(matches, sols)
    requires forall h :: h in sols ==> SolvedBy(cluster, h, matches[h])
    ensures Presolution.AllSolved(cluster, sols)
  {
    forall o | o in cluster ensures cluster[o].group in sols {
      assert cluster[o].group in GroupsOf(cluster);
    }
  }

  lemma MinedInSols(c: CellMatch, claim: Claim)
    requires c.input.Some? && c.output.Some? && claim in MinedClaims(c)
    requires forall e :: e in c.edges ==> e.recv in Reading(c.edges) && Reading(c.edges)[e.recv] == e.send
    ensures Presolution.Mined(Presolution.Solved(c.input.value, Reading(c.edges), c.output.value), claim)
  {
    MinedCases(c, claim);
    if claim.EdgeClaim? {
      var i :| 0 <= i < |c.edges| && c.edges[i].recv == claim.recv && c.edges[i].send == claim.send;
      assert c.edges[i] in c.edges;
    }
  }

  /** A clean cluster with one modulus per base and offset: its mined claims have a common model, so the engines cannot
      disagree on it, whatever the rest of the space is like. */
  lemma NoDisagreement(gs: seq<KeyGroup>, p: int, uncertain: map<int, set<int>>, matches: seq<CellMatch>, gi: nat)
    requires p > 0 && GoodKeys(gs, p) && DistinctGroups(AllGroups(gs, p)) && UncertainIs(gs, uncertain)
    requires AllCorrect(gs, matches) && gi < |gs|
    ensures CleanCluster(gs, matches, gi) ==>
      exists v :: Agrees(AllGroups(gs, p), uncertain, gi, ClaimsByGroup(matches), v)
  {
    if CleanCluster(gs, matches, gi) {
      var groups := AllGroups(gs, p);
      var bus := BusExists(groups);
      var sols := ClusterSolved(gs, p, bus, uncertain, matches, gi);
      var v := ClusterPresolution(gs, p, uncertain, matches, gi, bus, sols);
      PresolutionClaims(gs, p, uncertain, matches, gi, bus, sols, v);
      assert Agrees(groups, uncertain, gi, ClaimsByGroup(matches), v);
    }
  }

  lemma GroupInCluster(gs: seq<KeyGroup>, bus: map<int, Member>, uncertain: map<int, set<int>>, gi: nat, h: int)
    requires UncertainIs(gs, uncertain) && gi < |gs| && 0 <= h < |gs|
    requires h in GroupsOf(Cluster(bus, uncertain, gi)) || CouldAlias(uncertain, gi, h)
    ensures InCluster(gs, gi, h)
  {
    UncertainMember(gs, uncertain, gi, h);
  }

  /** One modulus per base and offset keeps the pointers of a cluster apart. */
  lemma ClusterApart(gs: seq<KeyGroup>, p: int, bus: map<int, Member>, uncertain: map<int, set<int>>, matches: seq<CellMatch>, gi: nat)
    requires p > 0 && GoodKeys(gs, p) && UncertainIs(gs, uncertain) && IsBus(AllGroups(gs, p), bus)
    requires gi < |gs| == |matches| && CleanCluster(gs, matches, gi)
    ensures var groups, keys := GroupsOf(Cluster(bus, uncertain, gi)), PointerKeys(gs, p);
      forall g, h :: g in groups && h in groups && g != h ==> g in keys && h in keys && keys[g] != keys[h]
  {
    var groups, keys := GroupsOf(Cluster(bus, uncertain, gi)), PointerKeys(gs, p);
    GroupsBelow(gs, p, bus, uncertain, gi);
    forall g, h | g in groups && h in groups && g != h ensures g in keys && h in keys && keys[g] != keys[h] {
      GroupInCluster(gs, bus, uncertain, gi, g);
      GroupInCluster(gs, bus, uncertain, gi, h);
      assert if g < h then gs[g].key != gs[h].key else gs[h].key != gs[g].key;
      Presolution.OneModulusPerPointer(gs[g].key, gs[h].key, p);
    }
  }

  lemma ClusterPresolution(gs: seq<KeyGroup>, p: int, uncertain: map<int, set<int>>, matches: seq<CellMatch>, gi: nat,
                           bus: map<int, Member>, sols: map<int, Presolution.Solved>) returns (v: Valuation)
    requires p > 0 && GoodKeys(gs, p) && DistinctGroups(AllGroups(gs, p)) && UncertainIs(gs, uncertain)
    requires gi < |gs| == |matches| && CleanCluster(gs, matches, gi) && IsBus(AllGroups(gs, p), bus)
    requires sols.Keys == GroupsOf(Cluster(bus, uncertain, gi)) && Presolution.AllSolved(Cluster(bus, uncertain, gi), sols)
    ensures ModelOf(AllGroups(gs, p), uncertain, gi, v) && Presolution.AllMinedHold(sols, v)
  {
    hide GoodKeys, CleanCluster, Presolution.AllSolved;
    var cluster, rows := Cluster(bus, uncertain, gi), ClusterRows(AllGroups(gs, p), uncertain, gi);
    NotItsOwnAlias(gs, uncertain, gi);
    ClusterListed(AllGroups(gs, p), uncertain, gi, bus, Recv);
    ClusterListed(AllGroups(gs, p), uncertain, gi, bus, Send);
    ClusterKeys(gs, p, uncertain, gi, bus);
    GroupsBelow(gs, p, bus, uncertain, gi);
    ClusterApart(gs, p, bus, uncertain, matches, gi);
    v := Presolution.DistinctKeysAdmitPresolution(cluster, PointerKeys(gs, p), uncertain, OfKind(rows, Recv), OfKind(rows, Send), sols);
  }

  lemma GroupsBelow(gs: seq<KeyGroup>, p: int, bus: map<int, Member>, uncertain: map<int, set<int>>, gi: nat)
    requires p > 0 && IsBus(AllGroups(gs, p), bus)
    ensures forall g :: g in GroupsOf(Cluster(bus, uncertain, gi)) ==> 0 <= g < |gs|
  {
    var cluster := Cluster(bus, uncertain, gi);
    forall g | g in GroupsOf(cluster) ensures 0 <= g < |gs| {
      var o :| o in cluster && cluster[o].group == g;
      assert RowOfGroups(AllGroups(gs, p), bus[o]);
    }
  }

  lemma ClusterKeys(gs: seq<KeyGroup>, p: int, uncertain: map<int, set<int>>, gi: nat, bus: map<int, Member>)
    requires p > 0 && GoodKeys(gs, p) && UncertainIs(gs, uncertain) && gi < |gs| && IsBus(AllGroups(gs, p), bus)
    ensures var cluster := Cluster(bus, uncertain, gi);
      && Indexed(cluster) && OneKeyPerGroup(cluster, PointerKeys(gs, p))
      && forall bases :: AliasComplete(cluster, uncertain, Encoded(PointerKeys(gs, p), bases))
  {
    var cluster := Cluster(bus, uncertain, gi);
    BusHasKeys(gs, p, bus);
    ClusterWhole(bus, uncertain, gi);
    UncertainIsComplete(gs, p, uncertain, bus);
    forall bases ensures AliasComplete(cluster, uncertain, Encoded(PointerKeys(gs, p), bases)) {
      SubBus(bus, PointerKeys(gs, p), uncertain, cluster, Encoded(PointerKeys(gs, p), bases));
    }
    SubBus(bus, PointerKeys(gs, p), uncertain, cluster, Encoded(PointerKeys(gs, p), map[]));
  }

  lemma PresolutionClaims(gs: seq<KeyGroup>, p: int, uncertain: map<int, set<int>>, matches: seq<CellMatch>, gi: nat,
                          bus: map<int, Member>, sols: map<int, Presolution.Solved>, v: Valuation)
    requires p > 0 && DistinctGroups(AllGroups(gs, p)) && IsBus(AllGroups(gs, p), bus)
    requires AllCorrect(gs, matches) && gi < |gs| && CleanCluster(gs, matches, gi) && UncertainIs(gs, uncertain)
    requires sols.Keys == GroupsOf(Cluster(bus, uncertain, gi))
    requires FromMatches(matches, sols)
    requires Presolution.AllMinedHold(sols, v)
    ensures ClusterClaimsHold(uncertain, gi, ClaimsByGroup(matches), |gs|, v)
  {
    forall h: int | 0 <= h < |gs| && CouldAlias(uncertain, gi, h)
      ensures AllLits(Claims(ClaimsByGroup(matches), h), v)
    {
      GroupInCluster(gs, bus, uncertain, gi, h);
      GroupHasRows(gs, p, bus, uncertain, matches, gi, h);
      var cs := MinedClaims(matches[h]);
      forall i | 0 <= i < |cs| ensures LitOf(cs[i]) in v.trues {
        MinedInSols(matches[h], cs[i]);
        assert Presolution.Mined(sols[h], cs[i]);
      }
    }
  }

  /** A clean group has at least one row, so it shows up in the cluster it belongs to. */
  lemma GroupHasRows(gs: seq<KeyGroup>, p: int, bus: map<int, Member>, uncertain: map<int, set<int>>, matches: seq<CellMatch>, gi: nat, h: nat)
    requires p > 0 && DistinctGroups(AllGroups(gs, p)) && IsBus(AllGroups(gs, p), bus)
    requires AllCorrect(gs, matches) && h < |gs| && matches[h].note.Clean? && CouldAlias(uncertain, gi, h)
    ensures h in GroupsOf(Cluster(bus, uncertain, gi))
  {
    TimesAreTable(gs, p, bus, h, Recv);
    var o := matches[h].input.value;
    assert o in Presolution.TimesOf(bus, h, Recv).Keys;
    assert o in Cluster(bus, uncertain, gi) && Cluster(bus, uncertain, gi)[o].group == h;
  }

  ghost predicate GroupDone(gs: seq<KeyGroup>, p: int, matches: seq<CellMatch>, g: nat, forced: map<Claim, bool>)
    requires p > 0 && g < |gs| == |matches|
  {
    && ForcedSoundly(gs, p, g, Lone(gs, g), forced)
    && (matches[g].note.Clean? ==> CoversMined(matches[g], forced))
    && (matches[g].note.Clean? && Lone(gs, g) ==> forall c :: c in forced ==> forced[c] == matches[g].unique)
  }

  /** Exactly the mined claims get a verdict. */
  ghost predicate CoversMined(m: CellMatch, forced: map<Claim, bool>) {
    forall c :: c in forced <==> c in MinedClaims(m)
  }

  lemma NotLone(gs: seq<KeyGroup>, uncertain: map<int, set<int>>, g: nat)
    requires UncertainIs(gs, uncertain) && g < |gs| && g in uncertain && uncertain[g] != {}
    ensures !Lone(gs, g)
  {
    var h := Pick(uncertain[g]);
    UncertainMember(gs, uncertain, g, h);
  }

  lemma IsLone(gs: seq<KeyGroup>, uncertain: map<int, set<int>>, g: nat)
    requires UncertainIs(gs, uncertain) && g < |gs| && g in uncertain && uncertain[g] == {}
    ensures Lone(gs, g)
  {
    forall h | 0 <= h < |gs| && h != g ensures ProvablyDisjoint(gs[g].key, gs[h].key) {
      UncertainMember(gs, uncertain, g, h);
    }
  }

  lemma ForcedLoneAnyway(gs: seq<KeyGroup>, p: int, g: nat, lone: bool, forced: map<Claim, bool>)
    requires p > 0 && g < |gs| && ForcedSoundly(gs, p, g, true, forced)
    ensures ForcedSoundly(gs, p, g, lone, forced)
  {
    forall bus, w | IsBus(AllGroups(gs, p), bus) && RealWorld(gs, p, bus, w) ensures AllForcedHold(forced, w) {
      var mate: map<int, int> := map[];
      assert PairedAccesses(bus, mate) || !PairedAccesses(bus, mate);
    }
  }

  lemma LoneGroupDone(gs: seq<KeyGroup>, p: int, uncertain: map<int, set<int>>, matches: seq<CellMatch>, g: nat)
    requires p > 0 && GoodKeys(gs, p) && DistinctGroups(AllGroups(gs, p)) && UncertainIs(gs, uncertain)
    requires AllCorrect(gs, matches) && g < |gs| && matches[g].note.Clean? && uncertain[g] == {}
    ensures GroupDone(gs, p, matches, g, Constant(MinedClaims(matches[g]), matches[g].unique))
  {
    var forced := Constant(MinedClaims(matches[g]), matches[g].unique);
    LoneForcedSoundly(gs, p, uncertain, matches, g);
    ForcedLoneAnyway(gs, p, g, Lone(gs, g), forced);
  }

  lemma UncleanGroupDone(gs: seq<KeyGroup>, p: int, matches: seq<CellMatch>, g: nat)
    requires p > 0 && g < |gs| == |matches| && !matches[g].note.Clean?
    ensures GroupDone(gs, p, matches, g, map[])
  {
    var none: map<Claim, bool> := map[];
    NothingForcedSoundly(gs, p, g, Lone(gs, g), none);
  }

  /** Nothing forced, or every claim of an unaliased unique cell. */
  method ForceOne(oracle: (nat, seq<Formula>) -> Answer, p: int, gs: seq<KeyGroup>, uncertain: map<int, set<int>>,
                  matches: seq<CellMatch>, g: nat) returns (r: ForceResult)
    requires SoundOracle(oracle) && p > 0 && GoodKeys(gs, p) && DistinctGroups(AllGroups(gs, p)) && UncertainIs(gs, uncertain)
    requires AllCorrect(gs, matches) && g < |gs|
    ensures r.Forced? ==> GroupDone(gs, p, matches, g, r.forced)
    ensures r.Disagreement? ==> matches[g].note.Clean? && !Lone(gs, g) && !CleanCluster(gs, matches, g)
    ensures r.NoMatching? ==> Unpairable(gs, p)
    ensures Decisive(oracle) && matches[g].note.Clean? && !Lone(gs, g) && WithinCap(gs, p, uncertain, g) ==>
      ForcedExactlyBy(gs, p, uncertain, g, r, matches)
    ensures matches[g].note.Clean? && !Lone(gs, g) && !WithinCap(gs, p, uncertain, g) ==> r.Forced? && NoneForced(r.forced)
  {
    hide CleanCluster, Unpairable, GoodKeys, Correct, ForcedExactlyBy, WithinCap;
    if !matches[g].note.Clean? {
      r := Forced(map[]);
      UncleanGroupDone(gs, p, matches, g);
    } else if uncertain[g] == {} {
      r := Forced(Constant(MinedClaims(matches[g]), matches[g].unique));
      LoneGroupDone(gs, p, uncertain, matches, g);
      IsLone(gs, uncertain, g);
    } else {
      r := ForceCluster(oracle, p, gs, uncertain, matches, g);
      NotLone(gs, uncertain, g);
    }
  }

  /** The rows do not come in paired accesses. */
  ghost predicate Unpairable(gs: seq<KeyGroup>, p: int)
    requires p > 0
  {
    forall bus, mate :: IsBus(AllGroups(gs, p), bus) ==> !PairedAccesses(bus, mate)
  }

  /** With a solver that always decides, verdicts of a cluster within the size limit are exact, and an outcome other
      than a verdict means that the pre-solution is no model. */
  ghost predicate ForcedExactlyBy(gs: seq<KeyGroup>, p: int, uncertain: map<int, set<int>>, g: nat, r: ForceResult, matches: seq<CellMatch>)
    requires p > 0 && g < |gs| == |matches|
  {
    && (r.Forced? ==> ExactVerdicts(gs, p, uncertain, g, r.forced))
    && ((exists claims, v :: CleanClaims(matches, claims) && Agrees(AllGroups(gs, p), uncertain, g, claims, v)) ==> r.Forced?)
  }

  /** The mined claims of the clean groups. */
  ghost predicate CleanClaims(matches: seq<CellMatch>, claims: map<int, seq<Claim>>) {
    && (forall g: int :: g in claims <==> 0 <= g < |matches| && matches[g].note.Clean?)
    && (forall g :: g in claims ==> claims[g] == MinedClaims(matches[g]))
  }

  lemma CleanClaimsOnly(matches: seq<CellMatch>, claims: map<int, seq<Claim>>)
    ensures CleanClaims(matches, claims) <==> claims == ClaimsByGroup(matches)
  {
    if CleanClaims(matches, claims) {
      assert claims.Keys == ClaimsByGroup(matches).Keys;
    }
  }

  /** At most 128 rows in the cluster. */
  ghost predicate WithinCap(gs: seq<KeyGroup>, p: int, uncertain: map<int, set<int>>, g: nat)
    requires p > 0 && g < |gs|
  {
    |ClusterRows(AllGroups(gs, p), uncertain, g)| <= 128
  }

  ghost predicate NoneForced(forced: map<Claim, bool>) {
    forall c :: c in forced ==> !forced[c]
  }

  method ForceCluster(oracle: (nat, seq<Formula>) -> Answer, p: int, gs: seq<KeyGroup>, uncertain: map<int, set<int>>,
                      matches: seq<CellMatch>, g: nat) returns (r: ForceResult)
    requires SoundOracle(oracle) && p > 0 && GoodKeys(gs, p) && DistinctGroups(AllGroups(gs, p)) && UncertainIs(gs, uncertain)
    requires AllCorrect(gs, matches) && g < |gs| && matches[g].note.Clean? && uncertain[g] != {}
    ensures r.Forced? ==> GroupDone(gs, p, matches, g, r.forced)
    ensures r.Disagreement? ==> !CleanCluster(gs, matches, g)
    ensures r.NoMatching? ==> Unpairable(gs, p)
    ensures Decisive(oracle) && WithinCap(gs, p, uncertain, g) ==> ForcedExactlyBy(gs, p, uncertain, g, r, matches)
    ensures !WithinCap(gs, p, uncertain, g) ==> r.Forced? && NoneForced(r.forced)
  {
    hide CleanCluster, Unpairable, GoodKeys, Correct, DistinctGroups, Entailed, ModelOf, Agrees, CleanClaims;
    var groups := AllGroups(gs, p);
    NotLone(gs, uncertain, g);
    NotItsOwnAlias(gs, uncertain, g);
    if |ClusterRows(groups, uncertain, g)| > DEFAULT_CLUSTER_CAP {
      r := Forced(Constant(MinedClaims(matches[g]), false));
      NothingForcedSoundly(gs, p, g, false, r.forced);
    } else {
      var s := new Solver(oracle, g);
      r := ForceGroup(s, groups, uncertain, g, ClaimsByGroup(matches));
      forall claims ensures CleanClaims(matches, claims) <==> claims == ClaimsByGroup(matches) {
        CleanClaimsOnly(matches, claims);
      }
      if r.Forced? {
        ClusterForcedSoundly(gs, p, uncertain, matches, g, r.forced);
      } else if r.Disagreement? {
        NoDisagreement(gs, p, uncertain, matches, g);
      } else {
        UnmatchedMeansUnpaired(gs, p, uncertain, g);
      }
    }
  }

  /** The encoding of paired accesses always has a model, so an infeasible one means that the rows are not paired. */
  lemma UnmatchedMeansUnpaired(gs: seq<KeyGroup>, p: int, uncertain: map<int, set<int>>, g: nat)
    requires p > 0 && GoodKeys(gs, p) && DistinctGroups(AllGroups(gs, p)) && UncertainIs(gs, uncertain) && g < |gs|
    requires forall v :: !ModelOf(AllGroups(gs, p), uncertain, g, v)
    ensures Unpairable(gs, p)
  {
    forall bus, mate | IsBus(AllGroups(gs, p), bus) ensures !PairedAccesses(bus, mate) {
      if PairedAccesses(bus, mate) {
        PairedHasModel(gs, p, uncertain, g, bus, mate);
      }
    }
  }

  lemma PairedHasModel(gs: seq<KeyGroup>, p: int, uncertain: map<int, set<int>>, g: nat, bus: map<int, Member>, mate: map<int, int>)
    requires p > 0 && GoodKeys(gs, p) && DistinctGroups(AllGroups(gs, p)) && UncertainIs(gs, uncertain) && g < |gs|
    requires IsBus(AllGroups(gs, p), bus) && PairedAccesses(bus, mate)
    ensures exists v :: ModelOf(AllGroups(gs, p), uncertain, g, v)
  {
    hide GoodKeys, DistinctGroups, UncertainIs, ClusterModel, PairedAccesses;
    var rows := ClusterRows(AllGroups(gs, p), uncertain, g);
    NotItsOwnAlias(gs, uncertain, g);
    BusEncodable(gs, p, uncertain, bus, mate);
    ClusterRowsListed(AllGroups(gs, p), uncertain, g, bus);
    ClusterHasModel(bus, PointerKeys(gs, p), mate, uncertain, g, OfKind(rows, Recv), OfKind(rows, Send));
    var v :| ClusterModel(uncertain, OfKind(rows, Recv), OfKind(rows, Send), v);
    assert ModelOf(AllGroups(gs, p), uncertain, g, v);
  }

  /** Solves the address space: a matching per key, and for every clean group which of its claims its
      cluster entails. */
  method SolveSymbolic(oracle: (nat, seq<Formula>) -> Answer, p: int, gs: seq<KeyGroup>) returns (r: SymbolicResult)
    requires SoundOracle(oracle) && p > 0 && GoodKeys(gs, p) && DistinctGroups(AllGroups(gs, p))
    ensures r.Solution? ==> AllCorrect(gs, r.matches) && |r.forced| == |gs|
    ensures r.Solution? ==> forall g :: 0 <= g < |gs| ==> GroupDone(gs, p, r.matches, g, r.forced[g])
    ensures Decisive(oracle) && r.Solution? ==> forall uncertain, g :: ExactlyForced(gs, p, uncertain, r.matches, g) ==>
      ExactVerdicts(gs, p, uncertain, g, r.forced[g])
    ensures r.Solution? ==> forall uncertain, g :: OverCap(gs, p, uncertain, r.matches, g) ==> NoneForced(r.forced[g])
    ensures r == Failed(SameTimeWrites) <==> exists g :: 0 <= g < |gs| && !DistinctTimes(gs[g].sends)
    ensures r == Failed(ClusterUnmatched) ==> Unpairable(gs, p)
    ensures r == Failed(EngineDisagreement) ==>
      exists matches: seq<CellMatch>, g: nat :: AllCorrect(gs, matches) && g < |gs| && matches[g].note.Clean? && !Lone(gs, g) && !CleanCluster(gs, matches, g)
  {
    hide GroupDone, ExactVerdicts, ExactlyForced, OverCap, NoneForced, Correct, Lone, WithinCap, CleanCluster, Unpairable, DistinctTimes, GoodKeys, DistinctGroups, UncertainIs;
    var ms := MatchGroups(gs, p);
    if ms.None? {
      return Failed(SameTimeWrites);
    }
    var matches := ms.value;
    assert AllCorrect(gs, matches);
    var uncertain := ComputeUncertain(gs);
    var forced: seq<map<Claim, bool>> := [];
    for g := 0 to |gs|
      invariant |forced| == g
      invariant forall h :: 0 <= h < g ==> GroupDone(gs, p, matches, h, forced[h])
      invariant Decisive(oracle) ==> forall h :: 0 <= h < g && ExactlyForced(gs, p, uncertain, matches, h) ==>
        ExactVerdicts(gs, p, uncertain, h, forced[h])
      invariant forall h :: 0 <= h < g && OverCap(gs, p, uncertain, matches, h) ==> NoneForced(forced[h])
    {
      var f := ForceOne(oracle, p, gs, uncertain, matches, g);
      if f.NoMatching? {
        return Failed(ClusterUnmatched);
      }
      if f.Disagreement? {
        return Failed(EngineDisagreement);
      }
      VerdictsExact(oracle, gs, p, uncertain, matches, g, f);
      OverCapIs(gs, p, uncertain, matches, g);
      forced := forced + [f.forced];
    }
    r := Solution(matches, forced);
    InRange(gs, p, matches);
    forall u | UncertainIs(gs, u) ensures u == uncertain {
      UncertainUnique(gs, u, uncertain);
    }
  }

  /** A clean group that may alias, with a cluster within the size limit. */
  ghost predicate ExactlyForced(gs: seq<KeyGroup>, p: int, uncertain: map<int, set<int>>, matches: seq<CellMatch>, g: int)
    requires p > 0
  {
    && 0 <= g < |gs| == |matches| && UncertainIs(gs, uncertain)
    && matches[g].note.Clean? && !Lone(gs, g) && WithinCap(gs, p, uncertain, g)
  }

  /** One with a larger cluster. */
  ghost predicate OverCap(gs: seq<KeyGroup>, p: int, uncertain: map<int, set<int>>, matches: seq<CellMatch>, g: int)
    requires p > 0
  {
    && 0 <= g < |gs| == |matches| && UncertainIs(gs, uncertain)
    && matches[g].note.Clean? && !Lone(gs, g) && !WithinCap(gs, p, uncertain, g)
  }

  lemma OverCapIs(gs: seq<KeyGroup>, p: int, uncertain: map<int, set<int>>, matches: seq<CellMatch>, g: nat)
    requires p > 0
    ensures OverCap(gs, p, uncertain, matches, g) ==>
      g < |gs| == |matches| && matches[g].note.Clean? && !Lone(gs, g) && !WithinCap(gs, p, uncertain, g)
  {
  }

  /** A claim is forced exactly when the encoding entails it. */
  ghost predicate ExactVerdicts(gs: seq<KeyGroup>, p: int, uncertain: map<int, set<int>>, g: int, forced: map<Claim, bool>)
    requires p > 0 && 0 <= g < |gs|
  {
    forall c :: c in forced ==> (forced[c] <==> Entailed(AllGroups(gs, p), uncertain, g, c))
  }

  lemma VerdictsExact(oracle: (nat, seq<Formula>) -> Answer, gs: seq<KeyGroup>, p: int, uncertain: map<int, set<int>>, matches: seq<CellMatch>,
                      g: nat, r: ForceResult)
    requires p > 0 && g < |gs| == |matches| && r.Forced?
    requires Decisive(oracle) && matches[g].note.Clean? && !Lone(gs, g) && WithinCap(gs, p, uncertain, g) ==>
      ForcedExactlyBy(gs, p, uncertain, g, r, matches)
    ensures Decisive(oracle) && ExactlyForced(gs, p, uncertain, matches, g) ==> ExactVerdicts(gs, p, uncertain, g, r.forced)
  {
  }

  lemma InRange(gs: seq<KeyGroup>, p: int, matches: seq<CellMatch>)
    requires p > 0 && |matches| == |gs|
    ensures forall u, g :: ExactlyForced(gs, p, u, matches, g) || OverCap(gs, p, u, matches, g) ==> 0 <= g < |gs| && UncertainIs(gs, u)
  {
  }

  lemma UncertainUnique(gs: seq<KeyGroup>, u: map<int, set<int>>, v: map<int, set<int>>)
    requires UncertainIs(gs, u) && UncertainIs(gs, v)
    ensures u == v
  {
    forall g | g in u.Keys ensures u[g] == v[g] {
      assert g in UpTo(|gs|);
      forall h ensures h in u[g] <==> h in v[g] {
        UncertainMember(gs, u, g, h);
        UncertainMember(gs, v, g, h);
      }
    }
    SameMap(u, v);
  }

  /** A space of constant keys commits the alias partition: there uniqueness alone entails every claim,
      in every world and without pairing the accesses. */
  lemma ConstantCellsForced(gs: seq<KeyGroup>, p: int, matches: seq<CellMatch>, g: nat)
    requires p > 0 && GoodKeys(gs, p) && DistinctGroups(AllGroups(gs, p)) && AllCorrect(gs, matches)
    requires forall h :: 0 <= h < |gs| ==> gs[h].key.Const?
    requires g < |gs| && matches[g].note.Clean?
    ensures ForcedSoundly(gs, p, g, true, Constant(MinedClaims(matches[g]), matches[g].unique))
  {
    hide ForcedSoundly, Correct, DistinctGroups, CanonicalKey;
    var uncertain := map h: int | h in UpTo(|gs|) :: {};
    forall h: int, k: int | 0 <= h < |gs| && h in uncertain ensures PairListed(gs, uncertain, h, k) {
      if 0 <= k < h {
        assert gs[k].key != gs[h].key;
      } else if h < k < |gs| {
        assert gs[h].key != gs[k].key;
      }
    }
    assert uncertain.Keys == UpTo(|gs|);
    LoneForcedSoundly(gs, p, uncertain, matches, g);
  }
}
