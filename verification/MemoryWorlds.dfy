/** Memory interactions with symbolic pointers, and the worlds in which aliasing is resolved. */
module MemoryWorlds {
  import opened Wrappers
  import opened Sets
  import opened CellChain
  import opened Residues

  datatype Kind = Send | Recv

  /** One active interaction: `base` is the base class of its pointer (none for a constant pointer),
      `time` the exact write time of a send or the witness threshold of a receive. */
  datatype EngineRow = EngineRow(ord: int, kind: Kind, base: Option<string>, offset: int, time: int)

  datatype Member = Member(group: int, row: EngineRow)

  datatype Claim = EdgeClaim(recv: int, send: int) | InputClaim(recv: int) | OutputClaim(send: int)

  /** A bus: its rows by ordinal. */
  ghost predicate Indexed(bus: map<int, Member>) {
    forall o :: o in bus ==> bus[o].row.ord == o
  }

  function Pointer(row: EngineRow, bases: map<string, int>): int {
    match row.base
    case None => row.offset
    case Some(b) => (if b in bases then bases[b] else 0) + row.offset
  }

  /** One group is one key: all its rows carry the same pointer. */
  ghost predicate OneKeyPerGroup(bus: map<int, Member>, keys: map<int, (Option<string>, int)>) {
    forall o :: o in bus ==>
      && bus[o].group in keys
      && bus[o].row.base == keys[bus[o].group].0
      && bus[o].row.offset == keys[bus[o].group].1
  }

  function Ords(bus: map<int, Member>, kind: Kind): set<int> {
    set o | o in bus && bus[o].row.kind == kind
  }

  /** A resolution of the bus: block clock, base values, the cell every group addresses, which send each
      receive reads, and the previous-timestamp witness of each receive.  A receive outside `src` reads the
      entry value. */
  datatype World = World(clock: int, bases: map<string, int>, cells: map<int, int>, src: map<int, int>, stamp: map<int, int>)

  function CellAt(cells: map<int, int>, g: int): int {
    if g in cells then cells[g] else 0
  }

  /** The cell of a row: that of its group. */
  function CellOf(cells: map<int, int>, a: Member): int {
    CellAt(cells, a.group)
  }

  ghost predicate ReadsWell(bus: map<int, Member>, w: World) {
    && w.src.Keys <= Ords(bus, Recv)
    && w.src.Values <= Ords(bus, Send)
    && (forall r :: r in w.src ==>
          && r in bus && w.src[r] in bus
          && CellOf(w.cells, bus[r]) == CellOf(w.cells, bus[w.src[r]])
          && r in w.stamp && w.stamp[r] == w.clock + bus[w.src[r]].row.time)
    && (forall r, r' :: r in w.src && r' in w.src && r != r' ==> w.src[r] != w.src[r'])
  }

  ghost predicate WitnessesBounded(bus: map<int, Member>, w: World) {
    forall r :: r in bus && bus[r].row.kind.Recv? ==>
      && r in w.stamp
      && w.stamp[r] <= w.clock + bus[r].row.time
      && (r !in w.src ==> w.stamp[r] < w.clock)
  }

  /** What the last two predicates say of one receive. */
  ghost predicate ReceiveFits(bus: map<int, Member>, w: World, r: int)
    requires r in bus
  {
    && r in w.stamp && w.stamp[r] <= w.clock + bus[r].row.time
    && (r !in w.src ==> w.stamp[r] < w.clock)
    && (r in w.src ==>
          && w.src[r] in Ords(bus, Send)
          && CellOf(w.cells, bus[r]) == CellOf(w.cells, bus[w.src[r]])
          && w.stamp[r] == w.clock + bus[w.src[r]].row.time)
  }

  lemma FitsReadsWell(bus: map<int, Member>, w: World)
    requires w.src.Keys <= Ords(bus, Recv)
    requires forall r :: r in Ords(bus, Recv) ==> ReceiveFits(bus, w, r)
    requires forall r, r' :: r in w.src && r' in w.src && r != r' ==> w.src[r] != w.src[r']
    ensures ReadsWell(bus, w) && WitnessesBounded(bus, w)
  {
    forall v | v in w.src.Values ensures v in Ords(bus, Send) {
      var r := KeyOf(w.src, v);
      assert r in Ords(bus, Recv);
    }
    forall r | r in w.src ensures r in Ords(bus, Recv) && ReceiveFits(bus, w, r) {
    }
    forall r | r in bus && bus[r].row.kind.Recv? ensures ReceiveFits(bus, w, r) {
      assert r in Ords(bus, Recv);
    }
  }

  ghost predicate OneInput(bus: map<int, Member>, w: World) {
    forall x, y :: x in Ords(bus, Recv) && y in Ords(bus, Recv) && x != y && x !in w.src && y !in w.src ==>
      CellOf(w.cells, bus[x]) != CellOf(w.cells, bus[y])
  }

  ghost predicate OneOutput(bus: map<int, Member>, w: World) {
    forall x, y :: x in Ords(bus, Send) && y in Ords(bus, Send) && x != y && x !in w.src.Values && y !in w.src.Values ==>
      CellOf(w.cells, bus[x]) != CellOf(w.cells, bus[y])
  }

  /** A matching that respects pointers, times and thresholds, with at most one entry and one exit
      record per cell. */
  ghost predicate ValidWorld(bus: map<int, Member>, w: World) {
    ReadsWell(bus, w) && WitnessesBounded(bus, w) && OneInput(bus, w) && OneOutput(bus, w)
  }

  ghost predicate ClaimHolds(w: World, c: Claim) {
    match c
    case EdgeClaim(r, s) => r in w.src && w.src[r] == s
    case InputClaim(r) => r !in w.src
    case OutputClaim(s) => s !in w.src.Values
  }

  // ---- Keys and provable disjointness ----

  datatype Key = Const(value: int) | BaseOffset(base: string, offset: int, mod: Option<int>)

  /** Distinct constants, or distinct offsets under one base and one modulus. */
  predicate ProvablyDisjoint(k1: Key, k2: Key) {
    if k1.Const? && k2.Const? then k1.value != k2.value
    else if k1.BaseOffset? && k2.BaseOffset? && k1.base == k2.base && k1.mod == k2.mod then k1.offset != k2.offset
    else false
  }

  /** Constants are signed residues of the field; offsets lie in `[0, mod)`. */
  ghost predicate CanonicalKey(k: Key, p: int) {
    && (k.Const? ==> -p < 2 * k.value <= p)
    && (k.BaseOffset? && k.mod.Some? ==> 0 <= k.offset < k.mod.value)
  }

  /** The pointer form handed to the encoding. */
  function KeyBase(k: Key): Option<string> {
    if k.Const? then None else Some(k.base)
  }

  function KeyOffset(k: Key, p: int): int
    requires p > 0
  {
    if k.Const? then k.value % p else k.offset
  }

  /** `address` is a possible pointer of `k`, whose base class holds `b`. */
  ghost predicate Addresses(k: Key, p: int, b: int, address: int)
    requires p > 0
  {
    match k
    case Const(v) => address == v % p
    case BaseOffset(_, o, None) => address == b + o
    case BaseOffset(_, o, Some(m)) => m > 0 && exists q :: address == b + o + m * q
  }

  function BaseValue(k: Key, bases: map<string, int>): int {
    if k.BaseOffset? && k.base in bases then bases[k.base] else 0
  }

  /** Provably disjoint keys never address the same cell, also when a key only fixes its address
      modulo `mod`. */
  lemma DisjointIsSound(k1: Key, k2: Key, p: int, bases: map<string, int>, a1: int, a2: int)
    requires p > 0 && CanonicalKey(k1, p) && CanonicalKey(k2, p) && ProvablyDisjoint(k1, k2)
    requires Addresses(k1, p, BaseValue(k1, bases), a1) && Addresses(k2, p, BaseValue(k2, bases), a2)
    ensures a1 != a2
  {
    if k1.Const? {
      SignedResiduesDiffer(k1.value, k2.value, p);
    } else if k1.mod.Some? {
      var m, b := k1.mod.value, BaseValue(k1, bases);
      var q1 :| a1 == b + k1.offset + m * q1;
      var q2 :| a2 == b + k2.offset + m * q2;
      if a1 == a2 {
        assert m * (q2 - q1) == k1.offset - k2.offset;
        SmallMultiple(m, q2 - q1);
      }
    }
  }

  lemma SignedResiduesDiffer(v1: int, v2: int, p: int)
    requires p > 0 && -p < 2 * v1 <= p && -p < 2 * v2 <= p && v1 != v2
    ensures v1 % p != v2 % p
  {
    SignedResidue(v1, p);
    SignedResidue(v2, p);
  }

  lemma SignedResidue(v: int, p: int)
    requires p > 0 && -p < 2 * v <= p
    ensures v % p == if v >= 0 then v else v + p
  {
    if v < 0 {
      CongShift(v, p, 1);
      Small(v + p, p);
    } else {
      Small(v, p);
    }
  }

  // ---- Accesses: a receive with its own send ----

  /** Every receive has its own send in its group, written one tick above the receive's threshold. */
  ghost predicate Paired(bus: map<int, Member>, mate: map<int, int>) {
    && mate.Keys == Ords(bus, Recv)
    && mate.Values == Ords(bus, Send)
    && (forall r, r' :: r in mate && r' in mate && r != r' ==> mate[r] != mate[r'])
    && (forall r :: r in mate ==>
          && r in bus && mate[r] in bus
          && bus[r].group == bus[mate[r]].group && bus[r].row.time == bus[mate[r]].row.time - 1)
  }

  ghost predicate DistinctAccessTimes(bus: map<int, Member>) {
    forall x, y :: x in Ords(bus, Recv) && y in Ords(bus, Recv) && x != y ==> bus[x].row.time != bus[y].row.time
  }

  /** The access whose send is `s`. */
  ghost function Owner(mate: map<int, int>, s: int): (r: int)
    requires s in mate.Values
    ensures r in mate && mate[r] == s
  {
    KeyFor(mate, s)
  }
}
