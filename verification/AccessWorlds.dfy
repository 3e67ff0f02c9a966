/** Worlds of paired accesses: which accesses meet decides every claim, and every choice of cells has a world. */
module AccessWorlds {
  import opened Sets
  import opened CellChain
  import opened MemoryWorlds

  ghost function AccessBus(bus: map<int, Member>, cells: map<int, int>): Bus {
    Bus(map r | r in Ords(bus, Recv) :: bus[r].row.time,
        map r | r in Ords(bus, Recv) :: CellOf(cells, bus[r]))
  }

  /** Every receive has its own send, and no two accesses fall together. */
  ghost predicate Accesses(bus: map<int, Member>, mate: map<int, int>) {
    Indexed(bus) && Paired(bus, mate) && DistinctAccessTimes(bus)
  }

  /** A receive and its own send address the same cell. */
  lemma MatePointer(bus: map<int, Member>, mate: map<int, int>, cells: map<int, int>, r: int)
    requires Accesses(bus, mate) && r in mate
    ensures r in Ords(bus, Recv) && mate[r] in Ords(bus, Send)
    ensures bus[r].group == bus[mate[r]].group && bus[mate[r]].row.time == bus[r].row.time + 1
    ensures CellOf(cells, bus[r]) == CellOf(cells, bus[mate[r]])
  {
    ValueOf(mate, r);
  }

  /** Whom each access reads, by the receive that owns the send. */
  ghost function AccessSrc(mate: map<int, int>, src: map<int, int>): (c: map<int, int>)
    requires src.Values <= mate.Values
    ensures c.Keys == src.Keys
    ensures forall r :: r in src ==> c[r] in mate && mate[c[r]] == src[r]
  {
    map r | r in src :: (ValueOf(src, r); Owner(mate, src[r]))
  }

  lemma WorldRoutes(bus: map<int, Member>, mate: map<int, int>, w: World)
    requires Accesses(bus, mate) && ValidWorld(bus, w)
    ensures WellFormed(AccessBus(bus, w.cells)) && w.src.Values <= mate.Values
    ensures Routes(AccessBus(bus, w.cells), Ords(bus, Recv), AccessSrc(mate, w.src))
  {
    MateSets(bus, mate);
    ReadsAllBack(bus, mate, w, AccessSrc(mate, w.src));
    UnreadAllDiffer(bus, mate, w);
    RoutesFromParts(bus, w, AccessSrc(mate, w.src));
  }

  lemma RoutesFromParts(bus: map<int, Member>, w: World, c: map<int, int>)
    requires DistinctAccessTimes(bus) && OneInput(bus, w) && c.Keys == w.src.Keys && w.src.Keys <= Ords(bus, Recv)
    requires forall x :: x in c ==> Earlier(AccessBus(bus, w.cells), Ords(bus, Recv), c[x], x)
    requires forall x, y :: x in c && y in c && x != y ==> c[x] != c[y]
    requires forall x, y :: x in Ords(bus, Recv) && y in Ords(bus, Recv) && x !in c.Values && y !in c.Values && x != y ==>
      AccessBus(bus, w.cells).addr[x] != AccessBus(bus, w.cells).addr[y]
    ensures WellFormed(AccessBus(bus, w.cells))
    ensures Routes(AccessBus(bus, w.cells), Ords(bus, Recv), c)
  {
    assert forall x :: x in w.src.Keys <==> x in c.Keys;
  }

  lemma SourcesDiffer(bus: map<int, Member>, w: World)
    requires ReadsWell(bus, w)
    ensures forall x, y :: x in w.src && y in w.src && x != y ==> w.src[x] != w.src[y]
  {
  }

  lemma ReadsAllBack(bus: map<int, Member>, mate: map<int, int>, w: World, c: map<int, int>)
    requires Accesses(bus, mate) && ReadsWell(bus, w) && WitnessesBounded(bus, w)
    requires w.src.Values <= mate.Values && c == AccessSrc(mate, w.src)
    ensures forall x :: x in c ==> Earlier(AccessBus(bus, w.cells), Ords(bus, Recv), c[x], x)
    ensures forall x, y :: x in c && y in c && x != y ==> c[x] != c[y]
  {
    hide Accesses, WitnessesBounded, Earlier, ReadsWell, Ords, CellOf;
    SourcesDiffer(bus, w);
    forall x | x in c ensures Earlier(AccessBus(bus, w.cells), Ords(bus, Recv), c[x], x) {
      ReadsBack(bus, mate, w, x);
    }
    forall x, y | x in c && y in c && x != y ensures c[x] != c[y] {
      assert w.src[x] != w.src[y];
    }
  }

  lemma MateSets(bus: map<int, Member>, mate: map<int, int>)
    requires Accesses(bus, mate)
    ensures mate.Keys == Ords(bus, Recv) && mate.Values == Ords(bus, Send)
  {
  }

  lemma UnreadAllDiffer(bus: map<int, Member>, mate: map<int, int>, w: World)
    requires Accesses(bus, mate) && OneOutput(bus, w) && w.src.Values <= mate.Values
    ensures var b, c := AccessBus(bus, w.cells), AccessSrc(mate, w.src);
      forall x, y :: x in Ords(bus, Recv) && y in Ords(bus, Recv) && x !in c.Values && y !in c.Values && x != y ==>
        b.addr[x] != b.addr[y]
  {
    var b, c := AccessBus(bus, w.cells), AccessSrc(mate, w.src);
    forall x, y | x in Ords(bus, Recv) && y in Ords(bus, Recv) && x !in c.Values && y !in c.Values && x != y
      ensures b.addr[x] != b.addr[y]
    {
      UnreadDiffer(bus, mate, w, x, y);
    }
  }

  lemma ReadsBack(bus: map<int, Member>, mate: map<int, int>, w: World, x: int)
    requires Accesses(bus, mate) && ReadsWell(bus, w) && WitnessesBounded(bus, w)
    requires w.src.Values <= mate.Values && x in w.src
    ensures Earlier(AccessBus(bus, w.cells), Ords(bus, Recv), AccessSrc(mate, w.src)[x], x)
  {
    MatePointer(bus, mate, w.cells, AccessSrc(mate, w.src)[x]);
  }

  lemma UnreadDiffer(bus: map<int, Member>, mate: map<int, int>, w: World, x: int, y: int)
    requires Accesses(bus, mate) && OneOutput(bus, w)
    requires w.src.Values <= mate.Values && x in mate && y in mate && x != y
    requires x !in AccessSrc(mate, w.src).Values && y !in AccessSrc(mate, w.src).Values
    ensures x in Ords(bus, Recv) && y in Ords(bus, Recv)
    ensures AccessBus(bus, w.cells).addr[x] != AccessBus(bus, w.cells).addr[y]
  {
    SrcValues(mate, w.src, x);
    SrcValues(mate, w.src, y);
    MatePointer(bus, mate, w.cells, x);
    MatePointer(bus, mate, w.cells, y);
  }

  lemma SrcValues(mate: map<int, int>, src: map<int, int>, x: int)
    requires src.Values <= mate.Values && x in mate
    requires forall r, r' :: r in mate && r' in mate && r != r' ==> mate[r] != mate[r']
    ensures x in AccessSrc(mate, src).Values <==> mate[x] in src.Values
  {
    var c := AccessSrc(mate, src);
    if x in c.Values {
      var r := KeyOf(c, x);
      ValueOf(src, r);
    }
    if mate[x] in src.Values {
      var r := KeyOf(src, mate[x]);
      assert c[r] == x;
      ValueOf(c, r);
    }
  }

  // ---- A world for any cells ----

  /** The time a receive reads, or any time before the block for an input. */
  ghost function Stamps(bus: map<int, Member>, clock: int, src: map<int, int>): map<int, int> {
    map r | r in Ords(bus, Recv) ::
      if r in src && src[r] in bus then clock + bus[src[r]].row.time
      else if bus[r].row.time < -1 then clock + bus[r].row.time else clock - 1
  }

  ghost function Chain(bus: map<int, Member>, cells: map<int, int>): map<int, int> {
    ChainOf(AccessBus(bus, cells), Ords(bus, Recv))
  }

  /** Every access reads the last one before it at its cell. */
  ghost function ChainWorld(bus: map<int, Member>, mate: map<int, int>, clock: int, bases: map<string, int>, cells: map<int, int>): World {
    var c := Chain(bus, cells);
    var src := map r | r in c && c[r] in mate :: mate[c[r]];
    World(clock, bases, cells, src, Stamps(bus, clock, src))
  }

  lemma ChainRoutesBus(bus: map<int, Member>, mate: map<int, int>, cells: map<int, int>)
    requires Accesses(bus, mate)
    ensures WellFormed(AccessBus(bus, cells)) && Routes(AccessBus(bus, cells), Ords(bus, Recv), Chain(bus, cells))
    ensures forall r :: r in Chain(bus, cells) ==> r in Ords(bus, Recv) && Chain(bus, cells)[r] in mate
  {
    var b, k, c := AccessBus(bus, cells), Ords(bus, Recv), Chain(bus, cells);
    ChainRoutes(b, k);
    forall r | r in c ensures c[r] in mate {
      assert Earlier(b, k, c[r], r);
    }
  }

  lemma ChainRead(bus: map<int, Member>, mate: map<int, int>, clock: int, bases: map<string, int>, cells: map<int, int>, r: int)
    requires Accesses(bus, mate) && r in Chain(bus, cells)
    ensures var w, y := ChainWorld(bus, mate, clock, bases, cells), Chain(bus, cells)[r];
      && r in Ords(bus, Recv) && r in w.src && y in mate && w.src[r] == mate[y] && mate[y] in Ords(bus, Send)
      && CellOf(cells, bus[r]) == CellOf(cells, bus[mate[y]]) && bus[mate[y]].row.time <= bus[r].row.time
  {
    ChainRoutesBus(bus, mate, cells);
    var y := Chain(bus, cells)[r];
    assert Earlier(AccessBus(bus, cells), Ords(bus, Recv), y, r);
    MatePointer(bus, mate, cells, y);
  }

  lemma ChainUnread(bus: map<int, Member>, mate: map<int, int>, clock: int, bases: map<string, int>, cells: map<int, int>, s: int)
    requires Accesses(bus, mate) && s in Ords(bus, Send)
    ensures s in mate.Values && Owner(mate, s) in Ords(bus, Recv)
    ensures CellOf(cells, bus[Owner(mate, s)]) == CellOf(cells, bus[s])
    ensures s !in ChainWorld(bus, mate, clock, bases, cells).src.Values ==> Owner(mate, s) !in Chain(bus, cells).Values
  {
    var c, w, y := Chain(bus, cells), ChainWorld(bus, mate, clock, bases, cells), Owner(mate, s);
    MatePointer(bus, mate, cells, y);
    if y in c.Values {
      var r := KeyOf(c, y);
      ChainRead(bus, mate, clock, bases, cells, r);
      ValueOf(w.src, r);
    }
  }

  /** Whatever cells the groups address, there is a valid world in which they do. */
  lemma ChainWorldValid(bus: map<int, Member>, mate: map<int, int>, clock: int, bases: map<string, int>, cells: map<int, int>)
    requires Accesses(bus, mate)
    ensures ValidWorld(bus, ChainWorld(bus, mate, clock, bases, cells))
  {
    ChainReadsWell(bus, mate, clock, bases, cells);
    ChainBoundaries(bus, mate, clock, bases, cells);
  }

  lemma ChainReadsWell(bus: map<int, Member>, mate: map<int, int>, clock: int, bases: map<string, int>, cells: map<int, int>)
    requires Accesses(bus, mate)
    ensures ReadsWell(bus, ChainWorld(bus, mate, clock, bases, cells))
    ensures WitnessesBounded(bus, ChainWorld(bus, mate, clock, bases, cells))
  {
    hide Accesses, Chain, ReceiveFits;
    var w := ChainWorld(bus, mate, clock, bases, cells);
    forall r | r in w.src.Keys ensures r in Ords(bus, Recv) {
      ChainRead(bus, mate, clock, bases, cells, r);
    }
    forall r | r in Ords(bus, Recv) ensures ReceiveFits(bus, w, r) {
      ChainFits(bus, mate, clock, bases, cells, r);
    }
    ChainInjects(bus, mate, clock, bases, cells);
    FitsReadsWell(bus, w);
  }

  lemma ChainFits(bus: map<int, Member>, mate: map<int, int>, clock: int, bases: map<string, int>, cells: map<int, int>, r: int)
    requires Accesses(bus, mate) && r in Ords(bus, Recv)
    ensures ReceiveFits(bus, ChainWorld(bus, mate, clock, bases, cells), r)
  {
    hide Accesses, Chain;
    if r in Chain(bus, cells) {
      ChainRead(bus, mate, clock, bases, cells, r);
    }
  }

  lemma ChainInjects(bus: map<int, Member>, mate: map<int, int>, clock: int, bases: map<string, int>, cells: map<int, int>)
    requires Accesses(bus, mate)
    ensures var w := ChainWorld(bus, mate, clock, bases, cells);
      forall r, r' :: r in w.src && r' in w.src && r != r' ==> w.src[r] != w.src[r']
  {
    hide Chain, Accesses;
    MatesDiffer(bus, mate);
    ChainRoutesBus(bus, mate, cells);
  }

  lemma MatesDiffer(bus: map<int, Member>, mate: map<int, int>)
    requires Accesses(bus, mate)
    ensures forall r, r' :: r in mate && r' in mate && r != r' ==> mate[r] != mate[r']
  {
  }

  lemma ChainBoundaries(bus: map<int, Member>, mate: map<int, int>, clock: int, bases: map<string, int>, cells: map<int, int>)
    requires Accesses(bus, mate)
    ensures OneInput(bus, ChainWorld(bus, mate, clock, bases, cells))
    ensures OneOutput(bus, ChainWorld(bus, mate, clock, bases, cells))
  {
    hide Accesses, Chain;
    var w, c, b := ChainWorld(bus, mate, clock, bases, cells), Chain(bus, cells), AccessBus(bus, cells);
    ChainRoutesBus(bus, mate, cells);
    forall x, y | x in Ords(bus, Recv) && y in Ords(bus, Recv) && x != y && x !in w.src && y !in w.src
      ensures CellOf(cells, bus[x]) != CellOf(cells, bus[y])
    {
      assert x !in c && y !in c;
      assert b.addr[x] != b.addr[y];
    }
    forall x, y | x in Ords(bus, Send) && y in Ords(bus, Send) && x != y && x !in w.src.Values && y !in w.src.Values
      ensures CellOf(cells, bus[x]) != CellOf(cells, bus[y])
    {
      ChainUnread(bus, mate, clock, bases, cells, x);
      ChainUnread(bus, mate, clock, bases, cells, y);
      assert b.addr[Owner(mate, x)] != b.addr[Owner(mate, y)];
    }
  }

  // ---- Claims, by the accesses that block them ----

  ghost predicate ClaimOf(bus: map<int, Member>, g: int, claim: Claim) {
    match claim
    case EdgeClaim(r, s) => r in Ords(bus, Recv) && s in Ords(bus, Send) && bus[r].group == g && bus[s].group == g
    case InputClaim(r) => r in Ords(bus, Recv) && bus[r].group == g
    case OutputClaim(s) => s in Ords(bus, Send) && bus[s].group == g
  }

  /** Access `z` at the cell of the claim makes it false: it comes between, before or after. */
  ghost predicate Blocks(bus: map<int, Member>, mate: map<int, int>, claim: Claim, z: int)
    requires z in bus
  {
    match claim
    case EdgeClaim(r, s) =>
      r in bus && s in mate.Values && Owner(mate, s) in bus
      && var y := bus[Owner(mate, s)].row.time; (y >= bus[r].row.time || y < bus[z].row.time < bus[r].row.time)
    case InputClaim(r) => r in bus && bus[z].row.time < bus[r].row.time
    case OutputClaim(s) => s in mate.Values && Owner(mate, s) in bus && bus[z].row.time > bus[Owner(mate, s)].row.time
  }

  /** `z` is at the cell of group `g` and blocks the claim. */
  ghost predicate BlockedBy(bus: map<int, Member>, mate: map<int, int>, cells: map<int, int>, g: int, claim: Claim, z: int) {
    z in Ords(bus, Recv) && CellOf(cells, bus[z]) == CellAt(cells, g) && Blocks(bus, mate, claim, z)
  }

  /** In every valid world a claim about a group holds exactly when no access at the group's cell blocks it. */
  lemma ClaimExactly(bus: map<int, Member>, mate: map<int, int>, w: World, g: int, claim: Claim)
    requires Accesses(bus, mate) && ValidWorld(bus, w) && ClaimOf(bus, g, claim)
    ensures ClaimHolds(w, claim) <==> forall z :: !BlockedBy(bus, mate, w.cells, g, claim, z)
  {
    WorldRoutes(bus, mate, w);
    match claim
    case EdgeClaim(r, s) => EdgeClaimExactly(bus, mate, w, g, r, s);
    case InputClaim(r) => InputClaimExactly(bus, mate, w, g, r);
    case OutputClaim(s) => OutputClaimExactly(bus, mate, w, g, s);
  }

  lemma EdgeClaimExactly(bus: map<int, Member>, mate: map<int, int>, w: World, g: int, r: int, s: int)
    requires Accesses(bus, mate) && ClaimOf(bus, g, EdgeClaim(r, s))
    requires WellFormed(AccessBus(bus, w.cells)) && w.src.Values <= mate.Values
    requires Routes(AccessBus(bus, w.cells), Ords(bus, Recv), AccessSrc(mate, w.src))
    ensures ClaimHolds(w, EdgeClaim(r, s)) <==> forall z :: !BlockedBy(bus, mate, w.cells, g, EdgeClaim(r, s), z)
  {
    var y, c, b := Owner(mate, s), AccessSrc(mate, w.src), AccessBus(bus, w.cells);
    MatePointer(bus, mate, w.cells, y);
    EdgeExactly(b, Ords(bus, Recv), c, r, y);
    MatesDiffer(bus, mate);
    assert ClaimHolds(w, EdgeClaim(r, s)) <==> r in c && c[r] == y;
    if forall z :: !BlockedBy(bus, mate, w.cells, g, EdgeClaim(r, s), z) {
      assert !BlockedBy(bus, mate, w.cells, g, EdgeClaim(r, s), r);
      forall z | z in Ords(bus, Recv) && b.addr[z] == b.addr[r] ensures !(b.time[y] < b.time[z] < b.time[r]) {
        assert !BlockedBy(bus, mate, w.cells, g, EdgeClaim(r, s), z);
      }
    }
  }

  lemma InputClaimExactly(bus: map<int, Member>, mate: map<int, int>, w: World, g: int, r: int)
    requires Accesses(bus, mate) && ClaimOf(bus, g, InputClaim(r))
    requires WellFormed(AccessBus(bus, w.cells)) && w.src.Values <= mate.Values
    requires Routes(AccessBus(bus, w.cells), Ords(bus, Recv), AccessSrc(mate, w.src))
    ensures ClaimHolds(w, InputClaim(r)) <==> forall z :: !BlockedBy(bus, mate, w.cells, g, InputClaim(r), z)
  {
    var b := AccessBus(bus, w.cells);
    InputExactly(b, Ords(bus, Recv), AccessSrc(mate, w.src), r);
    assert r in AccessSrc(mate, w.src).Keys <==> r in w.src.Keys;
    if forall z :: !BlockedBy(bus, mate, w.cells, g, InputClaim(r), z) {
      forall z | z in Ords(bus, Recv) && b.addr[z] == b.addr[r] ensures b.time[z] >= b.time[r] {
        assert !BlockedBy(bus, mate, w.cells, g, InputClaim(r), z);
      }
    }
  }

  lemma OutputClaimExactly(bus: map<int, Member>, mate: map<int, int>, w: World, g: int, s: int)
    requires Accesses(bus, mate) && ClaimOf(bus, g, OutputClaim(s))
    requires WellFormed(AccessBus(bus, w.cells)) && w.src.Values <= mate.Values
    requires Routes(AccessBus(bus, w.cells), Ords(bus, Recv), AccessSrc(mate, w.src))
    ensures ClaimHolds(w, OutputClaim(s)) <==> forall z :: !BlockedBy(bus, mate, w.cells, g, OutputClaim(s), z)
  {
    var y, b := Owner(mate, s), AccessBus(bus, w.cells);
    MatePointer(bus, mate, w.cells, y);
    MatesDiffer(bus, mate);
    SrcValues(mate, w.src, y);
    OutputExactly(b, Ords(bus, Recv), AccessSrc(mate, w.src), y);
    if forall z :: !BlockedBy(bus, mate, w.cells, g, OutputClaim(s), z) {
      forall z | z in Ords(bus, Recv) && b.addr[z] == b.addr[y] ensures b.time[z] <= b.time[y] {
        assert !BlockedBy(bus, mate, w.cells, g, OutputClaim(s), z);
      }
    }
  }

  // ---- Part of a bus ----

  /** `part` is made of whole groups of `bus`. */
  ghost predicate WholeGroups(part: map<int, Member>, bus: map<int, Member>) {
    && (forall o :: o in part ==> o in bus && part[o] == bus[o])
    && (forall x, y :: x in part && y in bus && bus[y].group == part[x].group ==> y in part)
  }

  ghost function MatesIn(part: map<int, Member>, mate: map<int, int>): map<int, int> {
    map r | r in mate && r in part :: mate[r]
  }

  lemma PartAccesses(part: map<int, Member>, bus: map<int, Member>, mate: map<int, int>)
    requires Accesses(bus, mate) && WholeGroups(part, bus)
    ensures Accesses(part, MatesIn(part, mate))
  {
    var m := MatesIn(part, mate);
    forall r | r in Ords(part, Recv) ensures r in m && m[r] in Ords(part, Send) && part[m[r]] == bus[mate[r]] {
      assert r in Ords(bus, Recv);
      MatePointer(bus, mate, map[], r);
      var s := mate[r];
      assert s in bus && bus[s].group == part[r].group;
    }
    forall s | s in Ords(part, Send) ensures s in m.Values {
      var r := Owner(mate, s);
      MatePointer(bus, mate, map[], r);
      assert r in bus && bus[r].group == part[s].group;
      assert r in m && m[r] == s;
      ValueOf(m, r);
    }
    forall r | r in m.Keys ensures r in Ords(part, Recv) {
      assert r in Ords(bus, Recv);
    }
    forall s | s in m.Values ensures s in Ords(part, Send) {
      var r := KeyOf(m, s);
      assert r in Ords(part, Recv);
    }
    SameSet(m.Keys, Ords(part, Recv));
    SameSet(m.Values, Ords(part, Send));
  }

  /** Blocking is about times only, so a part sees the same. */
  lemma PartBlocks(part: map<int, Member>, bus: map<int, Member>, mate: map<int, int>, g: int, claim: Claim, z: int)
    requires Accesses(bus, mate) && WholeGroups(part, bus) && z in part && ClaimOf(part, g, claim)
    ensures Blocks(part, MatesIn(part, mate), claim, z) <==> Blocks(bus, mate, claim, z)
  {
    var m := MatesIn(part, mate);
    PartAccesses(part, bus, mate);
    if !claim.InputClaim? {
      var s := if claim.EdgeClaim? then claim.send else claim.send;
      assert s in m.Values;
      var y := Owner(m, s);
      assert y in mate && mate[y] == s;
      OwnerIs(bus, mate, s, y);
    }
  }

  lemma OwnerIs(bus: map<int, Member>, mate: map<int, int>, s: int, y: int)
    requires Accesses(bus, mate) && y in mate && mate[y] == s && s in mate.Values
    ensures Owner(mate, s) == y
  {
  }

  /** As many receives as sends. */
  lemma AccessesBalanced(bus: map<int, Member>, mate: map<int, int>)
    requires Accesses(bus, mate)
    ensures |Ords(bus, Recv)| == |Ords(bus, Send)|
  {
    InjectiveSize(mate);
  }
}
