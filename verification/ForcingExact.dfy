/** What the encoding forces against what holds in every world: exactly when the keys make them agree. */
module ForcingExact {
  import opened Rows
  import opened MemoryWorlds
  import opened KeyMeeting
  import opened AccessWorlds
  import opened ClusterEncoding
  import opened ForcingCover
  import opened Forcing
  import opened SymbolicSolve

  // ---- Which keys can address one cell ----

  predicate CanMeet(k: Key, l: Key) {
    if k.Const? && l.Const? then k.value == l.value else SameBase(k, l) ==> OffsetsMeet(k, l)
  }

  lemma SharedMeets(k: Key, l: Key, p: int, bases: map<string, int>, a: int)
    requires p > 0 && CanonicalKey(k, p) && CanonicalKey(l, p)
    requires Addresses(k, p, BaseValue(k, bases), a) && Addresses(l, p, BaseValue(l, bases), a)
    ensures CanMeet(k, l)
  {
    if k.Const? && l.Const? && k.value != l.value {
      SignedResiduesDiffer(k.value, l.value, p);
    }
    if SameBase(k, l) {
      CommonMeets(k, l, p, BaseValue(k, bases), a);
    }
  }

  lemma DefaultAddress(k: Key, p: int, bases: map<string, int>)
    requires p > 0 && CanonicalKey(k, p)
    ensures Addresses(k, p, BaseValue(k, bases), if k.Const? then k.value % p else BaseValue(k, bases) + k.offset)
  {
    if k.BaseOffset? {
      AddressOf(k, p, BaseValue(k, bases), 0);
    }
  }

  lemma Shifted(k: Key, p: int, a: int, d: int)
    requires p > 0 && k.BaseOffset? && CanonicalKey(k, p) && Addresses(k, p, 0, a)
    ensures Addresses(k, p, d, a + d)
  {
    var q := AddressIs(k, p, 0, a);
    AddressOf(k, p, d, q);
  }

  lemma MeetingPlace(k: Key, l: Key, p: int) returns (bases: map<string, int>, a: int)
    requires p > 0 && CanonicalKey(k, p) && CanonicalKey(l, p) && CanMeet(k, l)
    ensures Addresses(k, p, BaseValue(k, bases), a) && Addresses(l, p, BaseValue(l, bases), a) && 0 <= a < p
  {
    if SameBase(k, l) {
      var c := CommonAddress(k, l, p, 0);
      bases, a := map[k.base := -c], 0;
      Shifted(k, p, c, -c);
      Shifted(l, p, c, -c);
    } else {
      a := if k.Const? then k.value % p else if l.Const? then l.value % p else 0;
      bases := (if k.BaseOffset? then map[k.base := a - k.offset] else map[])
        + (if l.BaseOffset? then map[l.base := a - l.offset] else map[]);
      DefaultAddress(k, p, bases);
      DefaultAddress(l, p, bases);
    }
  }

  ghost function DefaultCells(gs: seq<KeyGroup>, p: int, bases: map<string, int>): map<int, int>
    requires p > 0
  {
    map g: int | 0 <= g < |gs| ::
      var k := gs[g].key; if k.Const? then k.value % p else BaseValue(k, bases) + k.offset
  }

  lemma DefaultPlaced(gs: seq<KeyGroup>, p: int, bases: map<string, int>)
    requires p > 0 && GoodKeys(gs, p)
    ensures PlacedAt(gs, p, bases, DefaultCells(gs, p, bases))
  {
    forall g | 0 <= g < |gs| ensures Addresses(gs[g].key, p, BaseValue(gs[g].key, bases), DefaultCells(gs, p, bases)[g]) {
      DefaultAddress(gs[g].key, p, bases);
    }
  }

  /** Access `z` blocks the claim and its key can address the group's cell. */
  ghost predicate KeyBlocks(gs: seq<KeyGroup>, bus: map<int, Member>, mate: map<int, int>, g: nat, claim: Claim, z: int)
    requires g < |gs|
  {
    z in Ords(bus, Recv) && Blocks(bus, mate, claim, z) && 0 <= bus[z].group < |gs| && CanMeet(gs[g].key, gs[bus[z].group].key)
  }

  /** A claim holds in every world exactly when no access that blocks it has a key that can address the group's cell. */
  lemma WorldsExactly(gs: seq<KeyGroup>, p: int, bus: map<int, Member>, mate: map<int, int>, g: nat, claim: Claim)
    requires p > 0 && GoodKeys(gs, p) && g < |gs| && IsBus(AllGroups(gs, p), bus) && PairedAccesses(bus, mate) && ClaimOf(bus, g, claim)
    ensures (forall w :: RealWorld(gs, p, bus, w) ==> ClaimHolds(w, claim)) <==> forall z :: !KeyBlocks(gs, bus, mate, g, claim, z)
  {
    hide GoodKeys, PairedAccesses, Blocks, ClaimHolds;
    if z :| KeyBlocks(gs, bus, mate, g, claim, z) {
      var w := RefutingWorld(gs, p, bus, mate, g, claim, z);
      assert RealWorld(gs, p, bus, w);
    } else {
      forall w | RealWorld(gs, p, bus, w) ensures ClaimHolds(w, claim) {
        BlockersCanMeet(gs, p, bus, mate, g, claim, w);
        PairedIsAccesses(gs, p, bus, mate);
        ClaimExactly(bus, mate, w, g, claim);
      }
    }
  }

  lemma PairedIsAccesses(gs: seq<KeyGroup>, p: int, bus: map<int, Member>, mate: map<int, int>)
    requires p > 0 && IsBus(AllGroups(gs, p), bus) && PairedAccesses(bus, mate)
    ensures Accesses(bus, mate)
  {
  }

  lemma BlockersCanMeet(gs: seq<KeyGroup>, p: int, bus: map<int, Member>, mate: map<int, int>, g: nat, claim: Claim, w: World)
    requires p > 0 && GoodKeys(gs, p) && g < |gs| && IsBus(AllGroups(gs, p), bus) && Placed(gs, p, w)
    ensures forall z :: BlockedBy(bus, mate, w.cells, g, claim, z) ==> KeyBlocks(gs, bus, mate, g, claim, z)
  {
    hide Blocks;
    forall z | BlockedBy(bus, mate, w.cells, g, claim, z) ensures KeyBlocks(gs, bus, mate, g, claim, z) {
      assert RowOfGroups(AllGroups(gs, p), bus[z]);
      var h := bus[z].group;
      SharedMeets(gs[g].key, gs[h].key, p, w.bases, w.cells[g]);
    }
  }

  lemma RefutingWorld(gs: seq<KeyGroup>, p: int, bus: map<int, Member>, mate: map<int, int>, g: nat, claim: Claim, z: int) returns (w: World)
    requires p > 0 && GoodKeys(gs, p) && g < |gs| && IsBus(AllGroups(gs, p), bus) && PairedAccesses(bus, mate) && ClaimOf(bus, g, claim)
    requires KeyBlocks(gs, bus, mate, g, claim, z)
    ensures RealWorld(gs, p, bus, w) && !ClaimHolds(w, claim)
    ensures 0 <= CellAt(w.cells, g) == CellAt(w.cells, bus[z].group) < p
  {
    hide Blocks, PairedAccesses, GoodKeys, PlacedAt, ValidWorld, ClaimHolds, ChainWorld;
    var h := bus[z].group;
    var bases, cells := MeetingCells(gs, p, g, h);
    PairedIsAccesses(gs, p, bus, mate);
    w := ChainWorld(bus, mate, 0, bases, cells);
    ChainWorldCells(bus, mate, 0, bases, cells);
    ChainWorldValid(bus, mate, 0, bases, cells);
    ClaimExactly(bus, mate, w, g, claim);
    assert BlockedBy(bus, mate, cells, g, claim, z);
  }

  lemma ChainWorldCells(bus: map<int, Member>, mate: map<int, int>, clock: int, bases: map<string, int>, cells: map<int, int>)
    ensures ChainWorld(bus, mate, clock, bases, cells).bases == bases && ChainWorld(bus, mate, clock, bases, cells).cells == cells
  {
  }

  /** Two keys that can address one cell do so in some placement of all keys. */
  lemma MeetingCells(gs: seq<KeyGroup>, p: int, g: nat, h: nat) returns (bases: map<string, int>, cells: map<int, int>)
    requires p > 0 && GoodKeys(gs, p) && g < |gs| && h < |gs| && CanMeet(gs[g].key, gs[h].key)
    ensures PlacedAt(gs, p, bases, cells) && 0 <= CellAt(cells, g) == CellAt(cells, h) < p
  {
    var a;
    bases, a := MeetingPlace(gs[g].key, gs[h].key, p);
    cells := DefaultCells(gs, p, bases)[g := a][h := a];
    DefaultPlaced(gs, p, bases);
  }

  // ---- Five accesses ----

  const TIMES: seq<int> := [1, 3, 5, 7, 9]

  /** The group at each time: `a` and `b` come between accesses of `g`. */
  function GroupAt(g: int, a: int, b: int, t: int): int {
    if t == 3 then a else if t == 7 then b else g
  }

  function TimesOfGroup(g: int, a: int, b: int, h: int, ts: seq<int>): (r: seq<int>)
    ensures forall t :: t in r <==> t in ts && GroupAt(g, a, b, t) == h
  {
    if ts == [] then []
    else
      assert ts == [ts[0]] + ts[1..];
      (if GroupAt(g, a, b, ts[0]) == h then [ts[0]] else []) + TimesOfGroup(g, a, b, h, ts[1..])
  }

  lemma {:induction false} TimesIncrease(g: int, a: int, b: int, h: int, ts: seq<int>, i: nat, j: nat)
    requires forall k, l :: 0 <= k < l < |ts| ==> ts[k] < ts[l]
    requires i < j < |TimesOfGroup(g, a, b, h, ts)|
    ensures TimesOfGroup(g, a, b, h, ts)[i] < TimesOfGroup(g, a, b, h, ts)[j]
  {
    var rest := TimesOfGroup(g, a, b, h, ts[1..]);
    if GroupAt(g, a, b, ts[0]) != h {
      TimesIncrease(g, a, b, h, ts[1..], i, j);
    } else if i > 0 {
      TimesIncrease(g, a, b, h, ts[1..], i - 1, j - 1);
    } else {
      var t := rest[j - 1];
      assert t in rest;
      var l :| 0 <= l < |ts[1..]| && ts[1..][l] == t;
      assert ts[l + 1] == t;
    }
  }

  lemma AllTimes(t: int)
    requires t % 2 == 1 && 1 <= t <= 9
    ensures t in TIMES
  {
    assert TIMES[t / 2] == t;
  }

  lemma TimesAreOdd(t: int)
    requires t in TIMES
    ensures t % 2 == 1 && 1 <= t <= 9
  {
  }

  /** One access per time: its send at that time, its receive one tick before; ordinals are times. */
  function FiveGroup(k: Key, ts: seq<int>): KeyGroup {
    KeyGroup(k, seq(|ts|, i requires 0 <= i < |ts| => Timed(ts[i], ts[i])),
             seq(|ts|, i requires 0 <= i < |ts| => Timed(ts[i] - 1, ts[i] - 1)))
  }

  function FiveGroups(ks: seq<Key>, g: int, a: int, b: int): (gs: seq<KeyGroup>)
    ensures |gs| == |ks| && forall h :: 0 <= h < |gs| ==> gs[h].key == ks[h]
  {
    seq(|ks|, h requires 0 <= h < |ks| => FiveGroup(ks[h], TimesOfGroup(g, a, b, h, TIMES)))
  }

  /** The time of the access an ordinal belongs to. */
  function TimeOf(o: int): int {
    if o % 2 == 0 then o + 1 else o
  }

  function FiveRow(ks: seq<Key>, p: int, g: nat, a: nat, b: nat, o: int): Member
    requires p > 0 && g < |ks| && a < |ks| && b < |ks|
  {
    var h := GroupAt(g, a, b, TimeOf(o));
    Member(h, EngineRow(o, if o % 2 == 0 then Recv else Send, KeyBase(ks[h]), KeyOffset(ks[h], p), o))
  }

  ghost function FiveBus(ks: seq<Key>, p: int, g: nat, a: nat, b: nat): map<int, Member>
    requires p > 0 && g < |ks| && a < |ks| && b < |ks|
  {
    map o | o in {0, 1, 2, 3, 4, 5, 6, 7, 8, 9} :: FiveRow(ks, p, g, a, b, o)
  }

  const MATES: map<int, int> := map[0 := 1, 2 := 3, 4 := 5, 6 := 7, 8 := 9]

  /** The rows of one group: its sends, then its receives. */
  lemma FiveRowsOf(ks: seq<Key>, p: int, g: nat, a: nat, b: nat, h: nat, i: nat)
    requires p > 0 && g < |ks| && a < |ks| && b < |ks| && h < |ks| && i < |TimesOfGroup(g, a, b, h, TIMES)|
    ensures var ts, rows := TimesOfGroup(g, a, b, h, TIMES), AllGroups(FiveGroups(ks, g, a, b), p)[h];
      && |rows| == 2 * |ts| && 1 <= ts[i] <= 9 && ts[i] % 2 == 1 && GroupAt(g, a, b, ts[i]) == h
      && Member(h, rows[i]) == FiveRow(ks, p, g, a, b, ts[i])
      && Member(h, rows[|ts| + i]) == FiveRow(ks, p, g, a, b, ts[i] - 1)
  {
    hide TimesOfGroup;
    var ts := TimesOfGroup(g, a, b, h, TIMES);
    assert ts[i] in ts;
    TimesAreOdd(ts[i]);
    GroupRowsAt(FiveGroup(ks[h], ts), p, i);
  }

  lemma GroupRowsAt(k: KeyGroup, p: int, i: nat)
    requires p > 0 && i < |k.sends| == |k.recvs|
    ensures |GroupRows(k, p)| == 2 * |k.sends|
    ensures GroupRows(k, p)[i] == EngineRow(k.sends[i].ord, Send, KeyBase(k.key), KeyOffset(k.key, p), k.sends[i].time)
    ensures GroupRows(k, p)[|k.sends| + i] == EngineRow(k.recvs[i].ord, Recv, KeyBase(k.key), KeyOffset(k.key, p), k.recvs[i].time)
  {
  }

  lemma FiveRowIs(ks: seq<Key>, p: int, g: nat, a: nat, b: nat, x: Member)
    requires p > 0 && g < |ks| && a < |ks| && b < |ks|
    ensures RowOfGroups(AllGroups(FiveGroups(ks, g, a, b), p), x) <==>
      0 <= x.row.ord <= 9 && x == FiveRow(ks, p, g, a, b, x.row.ord)
  {
    hide AllGroups, FiveGroups, TimesOfGroup, FiveRow;
    if RowOfGroups(AllGroups(FiveGroups(ks, g, a, b), p), x) {
      RowIsFive(ks, p, g, a, b, x);
    }
    if 0 <= x.row.ord <= 9 && x == FiveRow(ks, p, g, a, b, x.row.ord) {
      FiveIsRow(ks, p, g, a, b, x);
    }
  }

  lemma FiveLength(ks: seq<Key>, p: int, g: nat, a: nat, b: nat, h: nat)
    requires p > 0 && g < |ks| && a < |ks| && b < |ks| && h < |ks|
    ensures |AllGroups(FiveGroups(ks, g, a, b), p)[h]| == 2 * |TimesOfGroup(g, a, b, h, TIMES)|
  {
    hide TimesOfGroup;
    assert FiveGroups(ks, g, a, b)[h] == FiveGroup(ks[h], TimesOfGroup(g, a, b, h, TIMES));
  }

  lemma RowIsFive(ks: seq<Key>, p: int, g: nat, a: nat, b: nat, x: Member)
    requires p > 0 && g < |ks| && a < |ks| && b < |ks| && RowOfGroups(AllGroups(FiveGroups(ks, g, a, b), p), x)
    ensures 0 <= x.row.ord <= 9 && x == FiveRow(ks, p, g, a, b, x.row.ord)
  {
    hide FiveGroup, TimesOfGroup, GroupRows;
    var h := x.group;
    var rows, ts := AllGroups(FiveGroups(ks, g, a, b), p)[h], TimesOfGroup(g, a, b, h, TIMES);
    var j :| 0 <= j < |rows| && rows[j] == x.row;
    FiveLength(ks, p, g, a, b, h);
    FiveRowsOf(ks, p, g, a, b, h, if j < |ts| then j else j - |ts|);
  }

  lemma FiveIsRow(ks: seq<Key>, p: int, g: nat, a: nat, b: nat, x: Member)
    requires p > 0 && g < |ks| && a < |ks| && b < |ks| && 0 <= x.row.ord <= 9 && x == FiveRow(ks, p, g, a, b, x.row.ord)
    ensures RowOfGroups(AllGroups(FiveGroups(ks, g, a, b), p), x)
  {
    hide TimesOfGroup, AllGroups;
    var h, t := x.group, TimeOf(x.row.ord);
    var ts := TimesOfGroup(g, a, b, h, TIMES);
    AllTimes(t);
    assert t in ts;
    var i :| 0 <= i < |ts| && ts[i] == t;
    FiveRowsOf(ks, p, g, a, b, h, i);
    var rows := AllGroups(FiveGroups(ks, g, a, b), p)[h];
    assert x.row == rows[if x.row.ord % 2 == 0 then |ts| + i else i];
  }

  lemma FiveIsBus(ks: seq<Key>, p: int, g: nat, a: nat, b: nat)
    requires p > 0 && g < |ks| && a < |ks| && b < |ks|
    ensures IsBus(AllGroups(FiveGroups(ks, g, a, b), p), FiveBus(ks, p, g, a, b))
    ensures PairedAccesses(FiveBus(ks, p, g, a, b), MATES)
  {
    var groups, bus := AllGroups(FiveGroups(ks, g, a, b), p), FiveBus(ks, p, g, a, b);
    forall x | RowOfGroups(groups, x) ensures x.row.ord in bus && bus[x.row.ord] == x {
      FiveRowIs(ks, p, g, a, b, x);
    }
    forall o | o in bus ensures RowOfGroups(groups, bus[o]) {
      FiveRowIs(ks, p, g, a, b, bus[o]);
    }
    FivePaired(ks, p, g, a, b);
  }

  lemma FivePaired(ks: seq<Key>, p: int, g: nat, a: nat, b: nat)
    requires p > 0 && g < |ks| && a < |ks| && b < |ks|
    ensures PairedAccesses(FiveBus(ks, p, g, a, b), MATES)
  {
    hide FiveBus, MATES;
    var bus := FiveBus(ks, p, g, a, b);
    MateNumbers();
    FiveBusAt(ks, p, g, a, b);
    assert Ords(bus, Recv) == {0, 2, 4, 6, 8};
    assert Ords(bus, Send) == {1, 3, 5, 7, 9};
  }

  /** The rows of the bus by number: a receive and its send share a group and are one tick apart. */
  lemma FiveBusAt(ks: seq<Key>, p: int, g: nat, a: nat, b: nat)
    requires p > 0 && g < |ks| && a < |ks| && b < |ks|
    ensures var bus := FiveBus(ks, p, g, a, b);
      && (forall o :: o in bus <==> 0 <= o <= 9)
      && (forall o :: o in bus ==> bus[o].row.ord == o && bus[o].row.time == o && bus[o].row.kind == if o % 2 == 0 then Recv else Send)
      && (forall o :: o in bus && o % 2 == 0 ==> bus[o].group == bus[o + 1].group)
  {
  }

  lemma MateNumbers()
    ensures MATES.Keys == {0, 2, 4, 6, 8} && MATES.Values == {1, 3, 5, 7, 9}
    ensures forall r :: r in MATES ==> MATES[r] == r + 1 && r % 2 == 0
  {
    assert MATES[0] == 1 && MATES[2] == 3 && MATES[4] == 5 && MATES[6] == 7 && MATES[8] == 9;
  }

  lemma FiveDistinct(ks: seq<Key>, p: int, g: nat, a: nat, b: nat)
    requires p > 0 && g < |ks| && a < |ks| && b < |ks|
    ensures DistinctGroups(AllGroups(FiveGroups(ks, g, a, b), p))
  {
    hide FiveGroups, AllGroups, FiveRow;
    var groups: seq<seq<EngineRow>> := AllGroups(FiveGroups(ks, g, a, b), p);
    forall h: nat, i: nat, l: nat, j: nat | h < |groups| && i < |groups[h]| && l < |groups| && j < |groups[l]| && (h != l || i != j)
      ensures groups[h][i].ord != groups[l][j].ord
    {
      if h == l {
        FiveOrdsDiffer(ks, p, g, a, b, h, if i < j then i else j, if i < j then j else i);
      } else {
        FiveRowIs(ks, p, g, a, b, Member(h, groups[h][i]));
        FiveRowIs(ks, p, g, a, b, Member(l, groups[l][j]));
      }
    }
  }

  lemma FiveOrdsDiffer(ks: seq<Key>, p: int, g: nat, a: nat, b: nat, h: nat, i: nat, j: nat)
    requires p > 0 && g < |ks| && a < |ks| && b < |ks| && h < |ks|
    requires i < j < |AllGroups(FiveGroups(ks, g, a, b), p)[h]|
    ensures AllGroups(FiveGroups(ks, g, a, b), p)[h][i].ord != AllGroups(FiveGroups(ks, g, a, b), p)[h][j].ord
  {
    hide FiveGroups, AllGroups, TimesOfGroup;
    var n := |TimesOfGroup(g, a, b, h, TIMES)|;
    FiveOrds(ks, p, g, a, b, h, i);
    FiveOrds(ks, p, g, a, b, h, j);
    if j < n {
      TimesIncrease(g, a, b, h, TIMES, i, j);
    } else if i >= n {
      TimesIncrease(g, a, b, h, TIMES, i - n, j - n);
    }
  }

  lemma FiveOrds(ks: seq<Key>, p: int, g: nat, a: nat, b: nat, h: nat, i: nat)
    requires p > 0 && g < |ks| && a < |ks| && b < |ks| && h < |ks|
    requires i < |AllGroups(FiveGroups(ks, g, a, b), p)[h]|
    ensures var ts := TimesOfGroup(g, a, b, h, TIMES);
      && |AllGroups(FiveGroups(ks, g, a, b), p)[h]| == 2 * |ts|
      && AllGroups(FiveGroups(ks, g, a, b), p)[h][i].ord == (if i < |ts| then ts[i] else ts[i - |ts|] - 1)
      && (if i < |ts| then ts[i] % 2 == 1 else ts[i - |ts|] % 2 == 1)
  {
    hide AllGroups, FiveGroups, TimesOfGroup;
    var ts := TimesOfGroup(g, a, b, h, TIMES);
    FiveLength(ks, p, g, a, b, h);
    FiveRowsOf(ks, p, g, a, b, h, if i < |ts| then i else i - |ts|);
  }

  /** The claim that the access of `g` after time `t` reads the one before it is blocked exactly by what comes between. */
  lemma FiveBlocks(ks: seq<Key>, p: int, g: nat, a: nat, b: nat, t: int, z: int)
    requires p > 0 && g < |ks| && a < |ks| && b < |ks| && (t == 3 || t == 7)
    ensures var bus := FiveBus(ks, p, g, a, b);
      && ClaimOf(bus, g, EdgeClaim(t + 1, t - 2))
      && (z in Ords(bus, Recv) ==> (Blocks(bus, MATES, EdgeClaim(t + 1, t - 2), z) <==> z == t - 1))
      && t - 1 in Ords(bus, Recv) && bus[t - 1].group == if t == 3 then a else b
  {
    var bus := FiveBus(ks, p, g, a, b);
    MateNumbers();
    assert t - 3 in MATES && t - 2 in MATES.Values;
    assert Owner(MATES, t - 2) == t - 3;
  }

  // ---- Forcing is sound exactly for unconfused keys ----

  ghost predicate GoodKeyList(ks: seq<Key>, p: int) {
    && (forall i :: 0 <= i < |ks| ==> CanonicalKey(ks[i], p))
    && (forall i, j :: 0 <= i < j < |ks| ==> ks[i] != ks[j])
  }

  ghost predicate HasKeys(gs: seq<KeyGroup>, ks: seq<Key>) {
    |gs| == |ks| && forall h :: 0 <= h < |gs| ==> gs[h].key == ks[h]
  }

  lemma KeysAreGood(gs: seq<KeyGroup>, ks: seq<Key>, p: int)
    requires HasKeys(gs, ks) && GoodKeyList(ks, p)
    ensures GoodKeys(gs, p)
  {
  }

  /** Rows with these keys, in paired accesses. */
  ghost predicate RowsFor(ks: seq<Key>, p: int, gs: seq<KeyGroup>, uncertain: map<int, set<int>>, bus: map<int, Member>, mate: map<int, int>)
    requires p > 0
  {
    && HasKeys(gs, ks) && DistinctGroups(AllGroups(gs, p)) && UncertainIs(gs, uncertain)
    && IsBus(AllGroups(gs, p), bus) && PairedAccesses(bus, mate)
  }

  /** The rows address cells in `[0, p)`, as the window premise on their pointers demands. */
  ghost predicate InWindow(bus: map<int, Member>, p: int, w: World) {
    forall o :: o in bus ==> 0 <= CellOf(w.cells, bus[o]) < p
  }

  /** Whatever the rows, a claim about group `g` that the encoding entails holds in every world, or at least in every
      world within the window. */
  ghost predicate ForcingSound(ks: seq<Key>, p: int, g: nat, windowed: bool)
    requires p > 0 && g < |ks|
  {
    forall gs, uncertain, bus, mate, c, w ::
      (RowsFor(ks, p, gs, uncertain, bus, mate) && ClaimOf(bus, g, c) && Entailed(AllGroups(gs, p), uncertain, g, c)
       && RealWorld(gs, p, bus, w) && (windowed ==> InWindow(bus, p, w))) ==> ClaimHolds(w, c)
  }

  /** Main result on forcing: over all rows, entailed claims hold in every world exactly when no key of the same base
      and another modulus has another offset congruent modulo the common divisor of the moduli; and the window premise
      does not change that. */
  lemma ForcingSoundExactly(ks: seq<Key>, p: int, g: nat, windowed: bool)
    requires p > 0 && GoodKeyList(ks, p) && g < |ks|
    ensures ForcingSound(ks, p, g, windowed) <==> forall h :: 0 <= h < |ks| ==> !Confusable(ks[g], ks[h])
  {
    hide InWindow, Entailed, RealWorld, ClaimOf, ClaimHolds, UncertainIs, IsBus, PairedAccesses, DistinctGroups;
    if forall h :: 0 <= h < |ks| ==> !Confusable(ks[g], ks[h]) {
      forall gs, uncertain, bus, mate, c, w |
        RowsFor(ks, p, gs, uncertain, bus, mate) && ClaimOf(bus, g, c) && Entailed(AllGroups(gs, p), uncertain, g, c) && RealWorld(gs, p, bus, w)
        && (windowed ==> InWindow(bus, p, w))
        ensures ClaimHolds(w, c)
      {
        UnconfusedHolds(ks, p, g, gs, uncertain, bus, mate, c, w);
      }
    }
    if h: nat :| h < |ks| && Confusable(ks[g], ks[h]) {
      ConfusedFails(ks, p, g, h, windowed);
    }
  }

  lemma UnconfusedHolds(ks: seq<Key>, p: int, g: nat, gs: seq<KeyGroup>, uncertain: map<int, set<int>>, bus: map<int, Member>,
                        mate: map<int, int>, c: Claim, w: World)
    requires p > 0 && GoodKeyList(ks, p) && g < |ks| && forall h :: 0 <= h < |ks| ==> !Confusable(ks[g], ks[h])
    requires RowsFor(ks, p, gs, uncertain, bus, mate) && ClaimOf(bus, g, c) && Entailed(AllGroups(gs, p), uncertain, g, c)
    requires RealWorld(gs, p, bus, w)
    ensures ClaimHolds(w, c)
  {
    hide Entailed, RealWorld, ClaimOf, ClaimHolds, Confusable, UncertainIs, IsBus, PairedAccesses;
    KeysAreGood(gs, ks, p);
    EntailedHoldsHere(gs, p, uncertain, g, bus, mate, w, c);
  }

  /** The rows of the failing case: `h` comes between two accesses of `g`. */
  lemma ConfusedRows(ks: seq<Key>, p: int, g: nat, h: nat) returns (uncertain: map<int, set<int>>, w: World)
    requires p > 0 && GoodKeyList(ks, p) && g < |ks| && h < |ks| && Confusable(ks[g], ks[h])
    ensures RowsFor(ks, p, FiveGroups(ks, g, h, h), uncertain, FiveBus(ks, p, g, h, h), MATES)
    ensures ClaimOf(FiveBus(ks, p, g, h, h), g, EdgeClaim(4, 1))
    ensures Entailed(AllGroups(FiveGroups(ks, g, h, h), p), uncertain, g, EdgeClaim(4, 1))
    ensures RealWorld(FiveGroups(ks, g, h, h), p, FiveBus(ks, p, g, h, h), w) && InWindow(FiveBus(ks, p, g, h, h), p, w)
    ensures !ClaimHolds(w, EdgeClaim(4, 1))
  {
    hide Blocks, IsBus, PairedAccesses, DistinctGroups, FiveBus, Entailed, RealWorld, Encodable, UncertainIs;
    var gs, bus, c := FiveGroups(ks, g, h, h), FiveBus(ks, p, g, h, h), EdgeClaim(4, 1);
    uncertain := UncertainExists(gs);
    KeysAreGood(gs, ks, p);
    FiveIsBus(ks, p, g, h, h);
    FiveDistinct(ks, p, g, h, h);
    FiveBlocks(ks, p, g, h, h, 3, 2);
    BusEncodable(gs, p, uncertain, bus, MATES);
    NotItsOwnAlias(gs, uncertain, g);
    EntailedExactly(AllGroups(gs, p), uncertain, g, bus, PointerKeys(gs, p), MATES, c);
    forall z ensures !PointerBlocks(bus, PointerKeys(gs, p), MATES, uncertain, g, c, z) {
      FiveBlocks(ks, p, g, h, h, 3, z);
    }
    w := RefutingWorld(gs, p, bus, MATES, g, c, 2);
    FiveInWindow(ks, p, g, h, w);
  }

  lemma FiveInWindow(ks: seq<Key>, p: int, g: nat, h: nat, w: World)
    requires p > 0 && g < |ks| && h < |ks| && 0 <= CellAt(w.cells, g) == CellAt(w.cells, h) < p
    ensures InWindow(FiveBus(ks, p, g, h, h), p, w)
  {
  }

  lemma UncertainExists(gs: seq<KeyGroup>) returns (uncertain: map<int, set<int>>)
    ensures UncertainIs(gs, uncertain)
  {
    uncertain := map g | g in UpTo(|gs|) :: set h | h in UpTo(|gs|) && h != g && 0 <= g < |gs| && 0 <= h < |gs| && !ProvablyDisjoint(gs[g].key, gs[h].key);
    forall g: int, h: int | 0 <= g < |gs| && g in uncertain ensures PairListed(gs, uncertain, g, h) {
    }
  }

  lemma ConfusedFails(ks: seq<Key>, p: int, g: nat, h: nat, windowed: bool)
    requires p > 0 && GoodKeyList(ks, p) && g < |ks| && h < |ks| && Confusable(ks[g], ks[h])
    ensures !ForcingSound(ks, p, g, windowed)
  {
    hide InWindow, RowsFor, Entailed, RealWorld, ClaimOf, ClaimHolds, Confusable;
    var uncertain, w := ConfusedRows(ks, p, g, h);
    var gs, bus, c := FiveGroups(ks, g, h, h), FiveBus(ks, p, g, h, h), EdgeClaim(4, 1);
  }
}
