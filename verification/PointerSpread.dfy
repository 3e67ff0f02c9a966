/** Pointer expressions and choices of base values: keeping all pointers apart, or making exactly one
    cell's pointers meet. */
module PointerSpread {
  import opened Wrappers
  import opened Sets
  import opened MemoryWorlds

  /** A base class (none for a constant pointer) and an offset. */
  type PointerKey = (Option<string>, int)

  function KeyPointer(k: PointerKey, bases: map<string, int>): int {
    match k.0
    case None => k.1
    case Some(b) => (if b in bases then bases[b] else 0) + k.1
  }

  /** The cells of the groups when every pointer is read as base plus offset. */
  function Encoded(keys: map<int, PointerKey>, bases: map<string, int>): map<int, int> {
    map g | g in keys :: KeyPointer(keys[g], bases)
  }

  /** The pointers of the encoding are the cells of the world. */
  ghost predicate Expressed(bus: map<int, Member>, w: World) {
    forall o :: o in bus ==> Pointer(bus[o].row, w.bases) == CellOf(w.cells, bus[o])
  }

  lemma EncodedAt(bus: map<int, Member>, keys: map<int, PointerKey>, bases: map<string, int>, o: int)
    requires OneKeyPerGroup(bus, keys) && o in bus
    ensures bus[o].group in keys && CellOf(Encoded(keys, bases), bus[o]) == KeyPointer(keys[bus[o].group], bases)
    ensures Pointer(bus[o].row, bases) == KeyPointer(keys[bus[o].group], bases)
  {
  }

  ghost predicate DistinctPointers(groups: set<int>, keys: map<int, PointerKey>, bases: map<string, int>) {
    forall g, h :: g in groups && h in groups && g in keys && h in keys && g != h ==>
      KeyPointer(keys[g], bases) != KeyPointer(keys[h], bases)
  }

  // ---- Spreading the bases ----

  lemma MulSucc(k: nat, n: nat)
    ensures k * (n + 1) == k * n + k && k * n >= 0
  {
  }

  lemma SpreadStep(names: set<string>, n: string, before: map<string, int>, bases: map<string, int>, k: nat, prev: int, top: int)
    requires n in names && before.Keys == names - {n} && bases == before[n := top] && prev >= 0 && top == prev + k
    requires forall x :: x in before ==> k <= before[x] <= prev
    requires forall x, y :: x in before && y in before && x != y ==> before[x] - before[y] >= k || before[y] - before[x] >= k
    ensures bases.Keys == names
    ensures forall x :: x in bases ==> k <= bases[x] <= top
    ensures forall x, y :: x in bases && y in bases && x != y ==> bases[x] - bases[y] >= k || bases[y] - bases[x] >= k
  {
  }

  lemma {:induction false} SpreadBases(names: set<string>, k: nat) returns (bases: map<string, int>)
    ensures bases.Keys == names
    ensures forall n :: n in bases ==> k <= bases[n] <= k * |names|
    ensures forall n, n' :: n in bases && n' in bases && n != n' ==> bases[n] - bases[n'] >= k || bases[n'] - bases[n] >= k
  {
    if names == {} {
      bases := map[];
    } else {
      var n := Pick(names);
      var rest := names - {n};
      var before := SpreadBases(rest, k);
      bases := before[n := k * |names|];
      assert |names| == |rest| + 1;
      MulSucc(k, |rest|);
      SpreadStep(names, n, before, bases, k, k * |rest|, k * |names|);
    }
  }

  lemma {:induction false} OffsetBound(groups: set<int>, keys: map<int, PointerKey>) returns (m: int)
    requires groups <= keys.Keys
    ensures m >= 0
    ensures forall g :: g in groups ==> -m <= keys[g].1 <= m
  {
    if groups == {} {
      m := 0;
    } else {
      var g := Pick(groups);
      var rest := groups - {g};
      m := OffsetBound(rest, keys);
      var o := if keys[g].1 >= 0 then keys[g].1 else -keys[g].1;
      var before := m;
      if m < o { m := o; }
      forall h | h in groups ensures -m <= keys[h].1 <= m {
        assert h == g || h in rest;
      }
    }
  }

  function BaseNames(groups: set<int>, keys: map<int, PointerKey>): set<string> {
    set g | g in groups && g in keys && keys[g].0.Some? :: keys[g].0.value
  }

  /** Different keys can be kept at different pointers, all at once. */
  lemma BasesSeparate(groups: set<int>, keys: map<int, PointerKey>) returns (bases: map<string, int>)
    requires groups <= keys.Keys
    requires forall g, h :: g in groups && h in groups && g != h ==> keys[g] != keys[h]
    ensures DistinctPointers(groups, keys, bases)
  {
    var m := OffsetBound(groups, keys);
    bases := SpreadBases(BaseNames(groups, keys), 2 * m + 1);
    forall g, h | g in groups && h in groups && g != h ensures KeyPointer(keys[g], bases) != KeyPointer(keys[h], bases) {
      Separated(keys[g], keys[h], m, bases, BaseNames(groups, keys));
    }
  }

  lemma Separated(k: PointerKey, l: PointerKey, m: int, bases: map<string, int>, names: set<string>)
    requires m >= 0 && -m <= k.1 <= m && -m <= l.1 <= m && k != l
    requires bases.Keys == names
    requires k.0.Some? ==> k.0.value in names
    requires l.0.Some? ==> l.0.value in names
    requires forall n :: n in bases ==> bases[n] >= 2 * m + 1
    requires forall n, n' :: n in bases && n' in bases && n != n' ==>
      bases[n] - bases[n'] >= 2 * m + 1 || bases[n'] - bases[n] >= 2 * m + 1
    ensures KeyPointer(k, bases) != KeyPointer(l, bases)
  {
    if k.0 == l.0 {
      assert k.1 != l.1;
    }
  }

  /** Two pointers can be made to meet exactly unless they are different expressions over one base (or none). */
  lemma PointersMeet(k: PointerKey, l: PointerKey)
    ensures (exists bases :: KeyPointer(k, bases) == KeyPointer(l, bases)) <==> (k.0 == l.0 ==> k.1 == l.1)
  {
    var bases: map<string, int> :=
      (if k.0.Some? then map[k.0.value := (if l.0.Some? then 0 else l.1) - k.1] else map[])
      + (if l.0.Some? then map[l.0.value := (if k.0.Some? then 0 else k.1) - l.1] else map[]);
    if k.0 == l.0 ==> k.1 == l.1 {
      assert KeyPointer(k, bases) == KeyPointer(l, bases);
    }
  }

  // ---- Making one cell's pointers meet ----

  /** Over one base (or over none), the pointers at cell `c` are one expression, and no other cell has it. */
  ghost predicate Comparable(groups: set<int>, keys: map<int, PointerKey>, cells: map<int, int>, c: int) {
    forall g, h :: g in groups && h in groups && g in keys && h in keys && keys[g].0 == keys[h].0 && CellAt(cells, g) == c ==>
      (keys[g].1 == keys[h].1 <==> CellAt(cells, h) == c)
  }

  /** The pointers of exactly the groups at cell `c` equal `a`. */
  ghost predicate Meets(groups: set<int>, keys: map<int, PointerKey>, cells: map<int, int>, c: int, bases: map<string, int>, a: int) {
    forall g :: g in groups && g in keys ==> (KeyPointer(keys[g], bases) == a <==> CellAt(cells, g) == c)
  }

  /** A group over base `b` at cell `c`. */
  ghost predicate BaseAt(groups: set<int>, keys: map<int, PointerKey>, cells: map<int, int>, c: int, b: Option<string>, g: int) {
    g in groups && g in keys && keys[g].0 == b && CellAt(cells, g) == c
  }

  /** Base values under which exactly the pointers at one cell meet exist exactly when those are comparable. */
  lemma MeetingExactly(groups: set<int>, keys: map<int, PointerKey>, cells: map<int, int>, c: int)
    requires groups <= keys.Keys
    ensures (exists bases, a :: Meets(groups, keys, cells, c, bases, a)) <==> Comparable(groups, keys, cells, c)
  {
    if Comparable(groups, keys, cells, c) {
      var bases, a := BasesMeeting(groups, keys, cells, c);
    }
  }


  lemma BasesMeeting(groups: set<int>, keys: map<int, PointerKey>, cells: map<int, int>, c: int)
    returns (bases: map<string, int>, a: int)
    requires groups <= keys.Keys && Comparable(groups, keys, cells, c)
    ensures Meets(groups, keys, cells, c, bases, a)
  {
    var m := OffsetBound(groups, keys);
    a := m + 1;
    if g :| BaseAt(groups, keys, cells, c, None, g) {
      a := keys[g].1;
    }
    bases := map b | b in BaseNames(groups, keys) :: BaseFor(groups, keys, cells, c, m, a, b);
    forall g | g in groups ensures KeyPointer(keys[g], bases) == a <==> CellAt(cells, g) == c {
      if keys[g].0.Some? {
        var b := keys[g].0.value;
        assert b in bases;
        if exists h :: BaseAt(groups, keys, cells, c, Some(b), h) {
          assert CellAt(cells, g) == c ==> BaseAt(groups, keys, cells, c, Some(b), g);
        } else {
          assert !BaseAt(groups, keys, cells, c, Some(b), g);
        }
      } else {
        assert CellAt(cells, g) == c ==> BaseAt(groups, keys, cells, c, None, g);
      }
    }
  }

  /** Puts the group of `b` at the cell, if there is one, at `a`; otherwise all of `b` beyond `a`. */
  ghost function BaseFor(groups: set<int>, keys: map<int, PointerKey>, cells: map<int, int>, c: int, m: int, a: int, b: string): int {
    if h :| BaseAt(groups, keys, cells, c, Some(b), h) then a - keys[h].1 else a + m + 1
  }
}
