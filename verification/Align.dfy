/** Aligning the memory bus of a circuit with the bus left after a removal pass. */
module Align {
  import opened Wrappers
  import opened Sets

  datatype Effect = Sends | Receives | Disabled

  /** `stamp` is the canonical timestamp expression; `time` the virtual time it resolves to, if it does. */
  datatype BusRow = BusRow(ord: int, effect: Effect, stamp: string, time: Option<int>)

  function StampKey(r: BusRow): Option<(Effect, string)> {
    Some((r.effect, r.stamp))
  }

  /** Only sends are matched by virtual time. */
  function TimeKey(r: BusRow): Option<int> {
    if r.effect.Sends? then r.time else None
  }

  ghost predicate DistinctRows(rows: seq<BusRow>) {
    forall i, j :: 0 <= i < j < |rows| ==> rows[i].ord != rows[j].ord
  }

  lemma SameOrdSameRow(rows: seq<BusRow>, x: BusRow, y: BusRow)
    requires DistinctRows(rows) && x in rows && y in rows && x.ord == y.ord
    ensures x == y
  {
    var i :| 0 <= i < |rows| && rows[i] == x;
    var j :| 0 <= j < |rows| && rows[j] == y;
  }

  function Ordinals(rows: seq<BusRow>): set<int> {
    set r | r in rows :: r.ord
  }

  // ---- Index ----

  ghost predicate Clash<K>(rows: seq<BusRow>, key: BusRow -> Option<K>, x: BusRow, y: BusRow) {
    x in rows && y in rows && x != y && key(x).Some? && key(x) == key(y)
  }

  ghost predicate KeysDiffer<K>(rows: seq<BusRow>, key: BusRow -> Option<K>) {
    forall x, y :: !Clash(rows, key, x, y)
  }

  ghost predicate IsIndex<K>(rows: seq<BusRow>, key: BusRow -> Option<K>, idx: map<K, int>) {
    && (forall x :: x in rows && key(x).Some? ==> key(x).value in idx && idx[key(x).value] == x.ord)
    && (forall k :: k in idx ==> exists x :: x in rows && key(x) == Some(k) && idx[k] == x.ord)
  }

  /** Row ordinal by key; `None` when two rows share a key. */
  method Index<K(==)>(rows: seq<BusRow>, key: BusRow -> Option<K>) returns (idx: Option<map<K, int>>)
    requires DistinctRows(rows)
    ensures idx.None? <==> !KeysDiffer(rows, key)
    ensures idx.Some? ==> IsIndex(rows, key, idx.value)
  {
    var m: map<K, int> := map[];
    for i := 0 to |rows|
      invariant IsIndex(rows[..i], key, m)
      invariant KeysDiffer(rows[..i], key)
    {
      var k := key(rows[i]);
      assert rows[..i + 1] == rows[..i] + [rows[i]];
      if k.Some? {
        if k.value in m {
          var x :| x in rows[..i] && key(x) == k && m[k.value] == x.ord;
          assert x != rows[i];
          assert Clash(rows, key, x, rows[i]);
          return None;
        }
        ExtendIndex(rows[..i], rows[i], key, m);
        m := m[k.value := rows[i].ord];
      } else {
        SkipIndex(rows[..i], rows[i], key, m);
      }
    }
    assert rows[..|rows|] == rows;
    idx := Some(m);
  }

  lemma ExtendIndex<K>(front: seq<BusRow>, r: BusRow, key: BusRow -> Option<K>, m: map<K, int>)
    requires IsIndex(front, key, m) && KeysDiffer(front, key)
    requires key(r).Some? && key(r).value !in m
    ensures IsIndex(front + [r], key, m[key(r).value := r.ord]) && KeysDiffer(front + [r], key)
  {
    var m' := m[key(r).value := r.ord];
    forall k | k in m' ensures exists x :: x in front + [r] && key(x) == Some(k) && m'[k] == x.ord {
      if k == key(r).value {
        assert r in front + [r] && key(r) == Some(k);
      } else {
        var x :| x in front && key(x) == Some(k) && m[k] == x.ord;
        assert x in front + [r];
      }
    }
    forall x, y ensures !Clash(front + [r], key, x, y) {
      assert x in front && y in front ==> !Clash(front, key, x, y);
    }
  }

  lemma SkipIndex<K>(front: seq<BusRow>, r: BusRow, key: BusRow -> Option<K>, m: map<K, int>)
    requires IsIndex(front, key, m) && KeysDiffer(front, key) && key(r).None?
    ensures IsIndex(front + [r], key, m) && KeysDiffer(front + [r], key)
  {
    forall k | k in m ensures exists x :: x in front + [r] && key(x) == Some(k) && m[k] == x.ord {
      var x :| x in front && key(x) == Some(k) && m[k] == x.ord;
      assert x in front + [r];
    }
    forall x, y ensures !Clash(front + [r], key, x, y) {
      assert x in front && y in front ==> !Clash(front, key, x, y);
    }
  }

  // ---- Cross-matching ----

  /** The same effect at the same timestamp. */
  ghost predicate SameStamp(x: BusRow, y: BusRow) {
    x.effect == y.effect && x.stamp == y.stamp
  }

  /** Two sends at one known virtual time. */
  ghost predicate SameTime(x: BusRow, y: BusRow) {
    x.effect == Sends && y.effect == Sends && x.time.Some? && x.time == y.time
  }

  ghost predicate HasTwin(r: BusRow, others: seq<BusRow>) {
    exists t :: t in others && SameStamp(t, r)
  }

  /** A row without a twin by timestamp is left for the match by virtual time. */
  ghost predicate Leftover(r: BusRow, rows: seq<BusRow>, others: seq<BusRow>) {
    r in rows && !HasTwin(r, others)
  }

  /** `b` and `a` are one interaction: one timestamp, or else two left-over sends at one virtual time. */
  ghost predicate Partner(before: seq<BusRow>, after: seq<BusRow>, b: BusRow, a: BusRow) {
    && b in before && a in after
    && (SameStamp(b, a) || (Leftover(b, before, after) && Leftover(a, after, before) && SameTime(b, a)))
  }

  /** What makes a match ambiguous. */
  ghost predicate Ambiguous(before: seq<BusRow>, after: seq<BusRow>) {
    || (exists b, b' :: b in before && b' in before && b != b' && SameStamp(b, b'))
    || (exists a, a' :: a in after && a' in after && a != a' && SameStamp(a, a'))
    || (exists a, a' :: Leftover(a, after, before) && Leftover(a', after, before) && a != a' && SameTime(a, a'))
    || !OneToOne(before, after)
  }

  /** The keys of the two indices tell rows apart by these fields. */
  lemma KeysMean(rows: seq<BusRow>)
    ensures KeysDiffer(rows, StampKey) <==> forall x, y :: x in rows && y in rows && x != y ==> !SameStamp(x, y)
    ensures KeysDiffer(rows, TimeKey) <==> forall x, y :: x in rows && y in rows && x != y ==> !SameTime(x, y)
  {
    if KeysDiffer(rows, StampKey) {
      forall x, y | x in rows && y in rows && x != y ensures !SameStamp(x, y) {
        assert !Clash(rows, StampKey, x, y);
      }
    }
    if KeysDiffer(rows, TimeKey) {
      forall x, y | x in rows && y in rows && x != y ensures !SameTime(x, y) {
        assert !Clash(rows, TimeKey, x, y);
      }
    }
  }

  ghost predicate OneToOne(before: seq<BusRow>, after: seq<BusRow>) {
    forall b, b', a :: Partner(before, after, b, a) && Partner(before, after, b', a) ==> b == b'
  }

  datatype CrossMatched = Unclear | Matched(kept: map<int, int>, removed: set<int>, added: seq<int>)

  ghost predicate KeptOf(before: seq<BusRow>, after: seq<BusRow>, kept: map<int, int>) {
    && (forall b, a :: Partner(before, after, b, a) ==> b.ord in kept && kept[b.ord] == a.ord)
    && (forall o :: o in kept ==> exists b, a :: Partner(before, after, b, a) && b.ord == o && a.ord == kept[o])
  }

  function Without(rows: seq<BusRow>, gone: set<int>): (left: seq<BusRow>)
    ensures forall r :: r in left <==> r in rows && r.ord !in gone
  {
    if rows == [] then []
    else
      assert rows == [rows[0]] + rows[1..];
      (if rows[0].ord in gone then [] else [rows[0]]) + Without(rows[1..], gone)
  }

  lemma {:induction false} WithoutDistinct(rows: seq<BusRow>, gone: set<int>)
    requires DistinctRows(rows)
    ensures DistinctRows(Without(rows, gone))
  {
    if rows != [] {
      WithoutDistinct(rows[1..], gone);
    }
  }

  ghost predicate Twin(done: seq<BusRow>, after: seq<BusRow>, b: BusRow, a: BusRow) {
    b in done && a in after && StampKey(b) == StampKey(a)
  }

  ghost predicate KeepsTwins(done: seq<BusRow>, after: seq<BusRow>, kept: map<int, int>) {
    forall b, a :: Twin(done, after, b, a) ==> b.ord in kept && kept[b.ord] == a.ord
  }

  ghost predicate KeepsOnlyTwins(done: seq<BusRow>, after: seq<BusRow>, kept: map<int, int>) {
    forall o :: o in kept ==> exists b, a :: Twin(done, after, b, a) && b.ord == o && a.ord == kept[o]
  }

  /** State after the match by timestamp of the rows `done`. */
  ghost predicate Tier1(done: seq<BusRow>, after: seq<BusRow>, kept: map<int, int>, used: set<int>, left: seq<BusRow>) {
    && KeepsTwins(done, after, kept)
    && KeepsOnlyTwins(done, after, kept)
    && (forall b :: b in left <==> b in done && !HasTwin(b, after))
    && used == kept.Values
  }

  /** First tier: rows with the same effect and timestamp. */
  method MatchStamps(before: seq<BusRow>, after: seq<BusRow>, byStamp: map<(Effect, string), int>)
    returns (kept: map<int, int>, used: set<int>, left: seq<BusRow>)
    requires DistinctRows(before) && KeysDiffer(before, StampKey) && KeysDiffer(after, StampKey)
    requires IsIndex(after, StampKey, byStamp)
    ensures Tier1(before, after, kept, used, left) && DistinctRows(left)
  {
    kept, used, left := map[], {}, [];
    for i := 0 to |before|
      invariant Tier1(before[..i], after, kept, used, left)
      invariant DistinctRows(left) && forall b :: b in left ==> b in before[..i]
    {
      var b := before[i];
      assert before[..i + 1] == before[..i] + [b];
      assert forall x :: x in before[..i] ==> x.ord != b.ord;
      var k := (b.effect, b.stamp);
      if k in byStamp {
        TwinStep(before[..i], after, kept, used, left, b, byStamp);
        kept := kept[b.ord := byStamp[k]];
        used := used + {byStamp[k]};
      } else {
        LoneStep(before[..i], after, kept, used, left, b, byStamp);
        left := left + [b];
      }
    }
    assert before[..|before|] == before;
  }

  lemma TwinStep(done: seq<BusRow>, after: seq<BusRow>, kept: map<int, int>, used: set<int>, left: seq<BusRow>,
                 b: BusRow, byStamp: map<(Effect, string), int>)
    requires Tier1(done, after, kept, used, left) && IsIndex(after, StampKey, byStamp) && KeysDiffer(after, StampKey)
    requires (b.effect, b.stamp) in byStamp && forall x :: x in done ==> x.ord != b.ord
    ensures Tier1(done + [b], after, kept[b.ord := byStamp[(b.effect, b.stamp)]], used + {byStamp[(b.effect, b.stamp)]}, left)
  {
    var v := byStamp[(b.effect, b.stamp)];
    var t :| t in after && StampKey(t) == StampKey(b) && v == t.ord;
    forall a | a in after && StampKey(b) == StampKey(a) ensures a == t {
      assert !Clash(after, StampKey, a, t);
    }
    TwinKept(done, after, kept, b, t);
    AddedValue(kept, b.ord, v);
    assert HasTwin(b, after);
  }

  lemma TwinKept(done: seq<BusRow>, after: seq<BusRow>, kept: map<int, int>, b: BusRow, t: BusRow)
    requires KeepsTwins(done, after, kept) && KeepsOnlyTwins(done, after, kept)
    requires t in after && StampKey(t) == StampKey(b) && forall x :: x in done ==> x.ord != b.ord
    requires forall a :: a in after && StampKey(b) == StampKey(a) ==> a == t
    ensures KeepsTwins(done + [b], after, kept[b.ord := t.ord]) && KeepsOnlyTwins(done + [b], after, kept[b.ord := t.ord])
    ensures b.ord !in kept
  {
    var kept' := kept[b.ord := t.ord];
    forall c, a | Twin(done + [b], after, c, a) ensures c.ord in kept' && kept'[c.ord] == a.ord {
      assert c in done ==> Twin(done, after, c, a);
    }
    forall o | o in kept' ensures exists c, a :: Twin(done + [b], after, c, a) && c.ord == o && a.ord == kept'[o] {
      if o == b.ord {
        assert Twin(done + [b], after, b, t);
      } else {
        var c, a :| Twin(done, after, c, a) && c.ord == o && a.ord == kept[o];
        assert Twin(done + [b], after, c, a);
      }
    }
  }

  lemma AddedValue<K, V>(m: map<K, V>, k: K, v: V)
    requires k !in m
    ensures m[k := v].Values == m.Values + {v}
  {
    var n := m[k := v];
    forall x | x in n.Values ensures x in m.Values + {v} {
      var y :| y in n && n[y] == x;
    }
    forall x | x in m.Values + {v} ensures x in n.Values {
      if x == v {
        assert n[k] == v;
      } else {
        var y :| y in m && m[y] == x;
        assert n[y] == x;
      }
    }
  }

  lemma LoneStep(done: seq<BusRow>, after: seq<BusRow>, kept: map<int, int>, used: set<int>, left: seq<BusRow>,
                 b: BusRow, byStamp: map<(Effect, string), int>)
    requires Tier1(done, after, kept, used, left) && IsIndex(after, StampKey, byStamp)
    requires (b.effect, b.stamp) !in byStamp
    ensures Tier1(done + [b], after, kept, used, left + [b])
  {
    assert !HasTwin(b, after);
    forall c, a | Twin(done + [b], after, c, a) ensures c.ord in kept && kept[c.ord] == a.ord {
      assert c in done ==> Twin(done, after, c, a);
    }
    forall o | o in kept ensures exists c, a :: Twin(done + [b], after, c, a) && c.ord == o && a.ord == kept[o] {
      var c, a :| Twin(done, after, c, a) && c.ord == o && a.ord == kept[o];
      assert Twin(done + [b], after, c, a);
    }
  }

  // ---- Second tier ----

  ghost predicate PartnerSoFar(before: seq<BusRow>, after: seq<BusRow>, done: seq<BusRow>, b: BusRow, a: BusRow) {
    Partner(before, after, b, a) && (StampKey(b) == StampKey(a) || b in done)
  }

  ghost predicate Tier2(before: seq<BusRow>, after: seq<BusRow>, done: seq<BusRow>, kept: map<int, int>, used: set<int>, removed: set<int>) {
    && KeepsPartners(before, after, done, kept)
    && KeepsOnlyPartners(before, after, done, kept)
    && OnePartner(before, after, done)
    && (forall o :: o in removed <==> o !in kept && exists b :: b in done && b.ord == o)
    && used == kept.Values
  }

  ghost predicate KeepsPartners(before: seq<BusRow>, after: seq<BusRow>, done: seq<BusRow>, kept: map<int, int>) {
    forall b, a :: PartnerSoFar(before, after, done, b, a) ==> b.ord in kept && kept[b.ord] == a.ord
  }

  ghost predicate KeepsOnlyPartners(before: seq<BusRow>, after: seq<BusRow>, done: seq<BusRow>, kept: map<int, int>) {
    forall o :: o in kept ==> exists b, a :: PartnerSoFar(before, after, done, b, a) && b.ord == o && a.ord == kept[o]
  }

  ghost predicate OnePartner(before: seq<BusRow>, after: seq<BusRow>, done: seq<BusRow>) {
    forall b, b', a :: PartnerSoFar(before, after, done, b, a) && PartnerSoFar(before, after, done, b', a) ==> b == b'
  }

  lemma Tier1Done(before: seq<BusRow>, after: seq<BusRow>, kept: map<int, int>, used: set<int>, left: seq<BusRow>)
    requires Tier1(before, after, kept, used, left) && KeysDiffer(before, StampKey)
    ensures Tier2(before, after, [], kept, used, {})
  {
    forall o | o in kept ensures exists b, a :: PartnerSoFar(before, after, [], b, a) && b.ord == o && a.ord == kept[o] {
      var b, a :| Twin(before, after, b, a) && b.ord == o && a.ord == kept[o];
      assert PartnerSoFar(before, after, [], b, a);
    }
    forall b, a | PartnerSoFar(before, after, [], b, a) ensures b.ord in kept && kept[b.ord] == a.ord {
      assert Twin(before, after, b, a);
    }
    forall b, b', a | PartnerSoFar(before, after, [], b, a) && PartnerSoFar(before, after, [], b', a) ensures b == b' {
      assert !Clash(before, StampKey, b, b');
    }
  }

  /** An `after` row was taken by the first tier exactly when it has a twin. */
  lemma UsedMeansTwin(before: seq<BusRow>, after: seq<BusRow>, kept: map<int, int>, used: set<int>, left: seq<BusRow>, a: BusRow)
    requires Tier1(before, after, kept, used, left) && DistinctRows(after) && a in after
    ensures a.ord in used <==> HasTwin(a, before)
  {
    if a.ord in used {
      var o := KeyOf(kept, a.ord);
      var b, t :| Twin(before, after, b, t) && b.ord == o && t.ord == kept[o];
      SameOrdSameRow(after, a, t);
    }
    if HasTwin(a, before) {
      var b :| b in before && StampKey(b) == StampKey(a);
      assert Twin(before, after, b, a);
      assert b.ord in kept && kept[b.ord] == a.ord;
      ValueOf(kept, b.ord);
    }
  }

  /** The left-over `after` rows. */
  ghost predicate LeftAfter(before: seq<BusRow>, after: seq<BusRow>, left: seq<BusRow>) {
    forall a :: a in left <==> Leftover(a, after, before)
  }

  lemma LeftAfterIs(before: seq<BusRow>, after: seq<BusRow>, kept: map<int, int>, used: set<int>, left: seq<BusRow>)
    requires Tier1(before, after, kept, used, left) && DistinctRows(after)
    ensures LeftAfter(before, after, Without(after, used))
  {
    forall a ensures a in Without(after, used) <==> Leftover(a, after, before) {
      if a in after {
        UsedMeansTwin(before, after, kept, used, left, a);
      }
    }
  }

  /** Two left-over `after` rows at one virtual time. */
  ghost predicate LeftoverClash(before: seq<BusRow>, after: seq<BusRow>) {
    exists a, a' :: Leftover(a, after, before) && Leftover(a', after, before) && a != a' && SameTime(a, a')
  }

  lemma LeftClash(before: seq<BusRow>, after: seq<BusRow>, aleft: seq<BusRow>)
    requires LeftAfter(before, after, aleft)
    ensures !KeysDiffer(aleft, TimeKey) <==> LeftoverClash(before, after)
  {
    KeysMean(aleft);
    if LeftoverClash(before, after) {
      var a, a' :| Leftover(a, after, before) && Leftover(a', after, before) && a != a' && SameTime(a, a');
      assert a in aleft && a' in aleft;
    } else {
      forall x, y | x in aleft && y in aleft && x != y ensures !SameTime(x, y) {
        assert Leftover(x, after, before) && Leftover(y, after, before);
      }
    }
  }

  /** Ambiguity, by the keys. */
  lemma AmbiguousKeys(before: seq<BusRow>, after: seq<BusRow>)
    ensures Ambiguous(before, after) <==>
      !KeysDiffer(before, StampKey) || !KeysDiffer(after, StampKey) || LeftoverClash(before, after) || !OneToOne(before, after)
  {
    KeysMean(before);
    KeysMean(after);
  }

  lemma TimedStep(before: seq<BusRow>, after: seq<BusRow>, done: seq<BusRow>, kept: map<int, int>, used: set<int>,
                  removed: set<int>, b: BusRow, a: BusRow)
    requires Tier2(before, after, done, kept, used, removed) && DistinctRows(before) && DistinctRows(after)
    requires (forall x :: x in done ==> x.ord != b.ord) && Leftover(b, before, after)
    requires Partner(before, after, b, a) && forall a' :: Partner(before, after, b, a') ==> a' == a
    requires a.ord !in used
    ensures Tier2(before, after, done + [b], kept[b.ord := a.ord], used + {a.ord}, removed)
  {
    BNotKept(before, after, done, kept, b);
    TimedKept(before, after, done, kept, b, a);
    AddedValue(kept, b.ord, a.ord);
    TimedOne(before, after, done, kept, b, a);
    forall o ensures o in removed <==> o !in kept[b.ord := a.ord] && exists c :: c in done + [b] && c.ord == o {
      if exists c :: c in done && c.ord == o {
        var c :| c in done && c.ord == o;
        assert c in done + [b];
      }
    }
  }

  lemma BNotKept(before: seq<BusRow>, after: seq<BusRow>, done: seq<BusRow>, kept: map<int, int>, b: BusRow)
    requires KeepsOnlyPartners(before, after, done, kept) && DistinctRows(before)
    requires (forall x :: x in done ==> x.ord != b.ord) && Leftover(b, before, after)
    ensures b.ord !in kept
  {
    if b.ord in kept {
      KeptMeans(before, after, done, kept, b);
    }
  }

  lemma KeptMeans(before: seq<BusRow>, after: seq<BusRow>, done: seq<BusRow>, kept: map<int, int>, b: BusRow)
    requires KeepsOnlyPartners(before, after, done, kept) && DistinctRows(before) && b in before && b.ord in kept
    ensures HasTwin(b, after) || b in done
  {
    var c, a :| PartnerSoFar(before, after, done, c, a) && c.ord == b.ord && a.ord == kept[b.ord];
    SameOrdSameRow(before, c, b);
    assert StampKey(b) == StampKey(a) ==> HasTwin(b, after);
  }

  lemma TimedKept(before: seq<BusRow>, after: seq<BusRow>, done: seq<BusRow>, kept: map<int, int>, b: BusRow, a: BusRow)
    requires KeepsPartners(before, after, done, kept) && KeepsOnlyPartners(before, after, done, kept) && DistinctRows(before)
    requires b.ord !in kept && Partner(before, after, b, a) && forall a' :: Partner(before, after, b, a') ==> a' == a
    ensures KeepsPartners(before, after, done + [b], kept[b.ord := a.ord])
    ensures KeepsOnlyPartners(before, after, done + [b], kept[b.ord := a.ord])
  {
    var kept' := kept[b.ord := a.ord];
    forall c, d | PartnerSoFar(before, after, done + [b], c, d) ensures c.ord in kept' && kept'[c.ord] == d.ord {
      assert c == b || PartnerSoFar(before, after, done, c, d);
    }
    forall o | o in kept' ensures exists c, d :: PartnerSoFar(before, after, done + [b], c, d) && c.ord == o && d.ord == kept'[o] {
      if o == b.ord {
        assert PartnerSoFar(before, after, done + [b], b, a);
      } else {
        var c, d :| PartnerSoFar(before, after, done, c, d) && c.ord == o && d.ord == kept[o];
        assert PartnerSoFar(before, after, done + [b], c, d);
      }
    }
  }

  lemma TimedOne(before: seq<BusRow>, after: seq<BusRow>, done: seq<BusRow>, kept: map<int, int>, b: BusRow, a: BusRow)
    requires KeepsPartners(before, after, done, kept) && OnePartner(before, after, done)
    requires a.ord !in kept.Values && forall a' :: Partner(before, after, b, a') ==> a' == a
    ensures OnePartner(before, after, done + [b])
  {
    forall c | PartnerSoFar(before, after, done, c, a) ensures false {
      ValueOf(kept, c.ord);
    }
    forall c, c', d | PartnerSoFar(before, after, done + [b], c, d) && PartnerSoFar(before, after, done + [b], c', d) ensures c == c' {
      assert c != b ==> PartnerSoFar(before, after, done, c, d);
      assert c' != b ==> PartnerSoFar(before, after, done, c', d);
    }
  }

  lemma SamePartners(before: seq<BusRow>, after: seq<BusRow>, done: seq<BusRow>, b: BusRow)
    requires OnePartner(before, after, done) && forall a :: !Partner(before, after, b, a)
    ensures OnePartner(before, after, done + [b])
  {
    forall c, c', d | PartnerSoFar(before, after, done + [b], c, d) && PartnerSoFar(before, after, done + [b], c', d) ensures c == c' {
      assert PartnerSoFar(before, after, done, c, d) && PartnerSoFar(before, after, done, c', d);
    }
  }

  lemma RemovedStep(before: seq<BusRow>, after: seq<BusRow>, done: seq<BusRow>, kept: map<int, int>, used: set<int>,
                    removed: set<int>, b: BusRow)
    requires Tier2(before, after, done, kept, used, removed) && DistinctRows(before)
    requires (forall x :: x in done ==> x.ord != b.ord) && Leftover(b, before, after)
    requires forall a :: !Partner(before, after, b, a)
    ensures Tier2(before, after, done + [b], kept, used, removed + {b.ord})
  {
    BNotKept(before, after, done, kept, b);
    forall c, d | PartnerSoFar(before, after, done + [b], c, d) ensures c.ord in kept && kept[c.ord] == d.ord {
      assert c == b || PartnerSoFar(before, after, done, c, d);
    }
    SamePartners(before, after, done, b);
    forall o | o in kept ensures exists c, d :: PartnerSoFar(before, after, done + [b], c, d) && c.ord == o && d.ord == kept[o] {
      var c, d :| PartnerSoFar(before, after, done, c, d) && c.ord == o && d.ord == kept[o];
      assert PartnerSoFar(before, after, done + [b], c, d);
    }
    forall o ensures o in removed + {b.ord} <==> o !in kept && exists c :: c in done + [b] && c.ord == o {
      assert b in done + [b];
      if exists c :: c in done && c.ord == o {
        var c :| c in done && c.ord == o;
        assert c in done + [b];
      }
    }
  }

  /** A second left-over row at a time already taken. */
  lemma TakenTwice(before: seq<BusRow>, after: seq<BusRow>, done: seq<BusRow>, kept: map<int, int>, b: BusRow, a: BusRow)
    returns (c: BusRow)
    requires KeepsOnlyPartners(before, after, done, kept) && DistinctRows(after)
    requires (forall x :: x in done ==> x.ord != b.ord) && Leftover(a, after, before)
    requires Partner(before, after, b, a) && a.ord in kept.Values
    ensures c != b && Partner(before, after, c, a)
  {
    var o := KeyOf(kept, a.ord);
    var c', d :| PartnerSoFar(before, after, done, c', d) && c'.ord == o && d.ord == kept[o];
    SameOrdSameRow(after, a, d);
    assert StampKey(c') == StampKey(a) ==> HasTwin(a, before);
    c := c';
  }

  /** A left-over send is matched by time alone. */
  lemma LeftoverPartner(before: seq<BusRow>, after: seq<BusRow>, aleft: seq<BusRow>, byTime: map<int, int>, b: BusRow)
    requires LeftAfter(before, after, aleft) && IsIndex(aleft, TimeKey, byTime) && KeysDiffer(aleft, TimeKey)
    requires Leftover(b, before, after)
    ensures TimeKey(b).Some? && TimeKey(b).value in byTime ==>
      exists a :: Partner(before, after, b, a) && Leftover(a, after, before) && a.ord == byTime[TimeKey(b).value]
                  && forall a' :: Partner(before, after, b, a') ==> a' == a
    ensures !(TimeKey(b).Some? && TimeKey(b).value in byTime) ==> forall a :: !Partner(before, after, b, a)
  {
    forall a | Partner(before, after, b, a) ensures Leftover(a, after, before) && TimeKey(b).Some? && TimeKey(a) == TimeKey(b) {
      assert !HasTwin(b, after);
    }
    if TimeKey(b).Some? && TimeKey(b).value in byTime {
      var a :| a in aleft && TimeKey(a) == Some(TimeKey(b).value) && byTime[TimeKey(b).value] == a.ord;
      assert Partner(before, after, b, a);
      forall a' | Partner(before, after, b, a') ensures a' == a {
        assert !Clash(aleft, TimeKey, a, a');
      }
    }
  }

  /** Second tier: left-over sends at one virtual time. */
  method MatchTimes(before: seq<BusRow>, after: seq<BusRow>, left: seq<BusRow>, ghost aleft: seq<BusRow>, byTime: map<int, int>,
                    kept0: map<int, int>, used0: set<int>)
    returns (ok: bool, kept: map<int, int>, used: set<int>, removed: set<int>)
    requires DistinctRows(before) && DistinctRows(after) && DistinctRows(left)
    requires forall b :: b in left <==> Leftover(b, before, after)
    requires LeftAfter(before, after, aleft) && IsIndex(aleft, TimeKey, byTime) && KeysDiffer(aleft, TimeKey)
    requires Tier2(before, after, [], kept0, used0, {})
    ensures ok ==> Tier2(before, after, left, kept, used, removed)
    ensures !ok ==> !OneToOne(before, after)
  {
    kept, used, removed := kept0, used0, {};
    assert left[..0] == [];
    for i := 0 to |left|
      invariant Tier2(before, after, left[..i], kept, used, removed)
    {
      var b := left[i];
      assert left[..i + 1] == left[..i] + [b];
      assert forall x :: x in left[..i] ==> x.ord != b.ord;
      LeftoverPartner(before, after, aleft, byTime, b);
      var k := TimeKey(b);
      if k.Some? && k.value in byTime {
        var aid := byTime[k.value];
        ghost var a :| Partner(before, after, b, a) && Leftover(a, after, before) && a.ord == aid
                       && forall a' :: Partner(before, after, b, a') ==> a' == a;
        if aid in used {
          ghost var c := TakenTwice(before, after, left[..i], kept, b, a);
          ok := false;
          return;
        }
        TimedStep(before, after, left[..i], kept, used, removed, b, a);
        kept := kept[b.ord := aid];
        used := used + {aid};
      } else {
        RemovedStep(before, after, left[..i], kept, used, removed, b);
        removed := removed + {b.ord};
      }
    }
    assert left[..|left|] == left;
    ok := true;
  }

  /** Matches the interactions before and after a pass: by timestamp, then the remaining sends by virtual
      time. */
  method CrossMatch(before: seq<BusRow>, after: seq<BusRow>) returns (r: CrossMatched)
    requires DistinctRows(before) && DistinctRows(after)
    ensures r.Unclear? <==> Ambiguous(before, after)
    ensures r.Matched? ==> KeptOf(before, after, r.kept)
    ensures r.Matched? ==> r.removed == Ordinals(before) - r.kept.Keys
    ensures r.Matched? ==> forall o :: o in r.added <==> o in Ordinals(after) && o !in r.kept.Values
  {
    hide Ambiguous, OneToOne, KeysDiffer, LeftoverClash, Tier1, Tier2, IsIndex;
    AmbiguousKeys(before, after);
    var beforeKeys := Index(before, StampKey);
    if beforeKeys.None? {
      return Unclear;
    }
    var byStamp := Index(after, StampKey);
    if byStamp.None? {
      return Unclear;
    }
    var kept1, used1, left := MatchStamps(before, after, byStamp.value);
    var aleft := Without(after, used1);
    LeftAfterIs(before, after, kept1, used1, left);
    WithoutDistinct(after, used1);
    var byTime := Index(aleft, TimeKey);
    LeftClash(before, after, aleft);
    if byTime.None? {
      return Unclear;
    }
    Tier1Done(before, after, kept1, used1, left);
    var ok, kept, used, removed := MatchTimes(before, after, left, aleft, byTime.value, kept1, used1);
    if !ok {
      return Unclear;
    }
    var rest := Without(after, used);
    r := Matched(kept, removed, seq(|rest|, i requires 0 <= i < |rest| => rest[i].ord));
    Matching(before, after, left, kept, used, removed);
    AddedRows(after, used, r.added);
  }

  lemma AddedRows(after: seq<BusRow>, used: set<int>, added: seq<int>)
    requires |added| == |Without(after, used)| && forall i :: 0 <= i < |added| ==> added[i] == Without(after, used)[i].ord
    ensures forall o :: o in added <==> o in Ordinals(after) && o !in used
  {
    var rest := Without(after, used);
    forall o | o in Ordinals(after) && o !in used ensures o in added {
      var a :| a in after && a.ord == o;
      assert a in rest;
      var i :| 0 <= i < |rest| && rest[i] == a;
      assert added[i] == o;
    }
    forall o | o in added ensures o in Ordinals(after) && o !in used {
      var i :| 0 <= i < |added| && added[i] == o;
      assert rest[i] in rest;
    }
  }

  /** When the second tier finishes, every partner is known and the match is unambiguous. */
  lemma Matching(before: seq<BusRow>, after: seq<BusRow>, left: seq<BusRow>, kept: map<int, int>, used: set<int>, removed: set<int>)
    requires Tier2(before, after, left, kept, used, removed) && forall b :: b in left <==> Leftover(b, before, after)
    ensures KeptOf(before, after, kept)
    ensures removed == Ordinals(before) - kept.Keys
    ensures OneToOne(before, after)
  {
    forall b, a ensures Partner(before, after, b, a) <==> PartnerSoFar(before, after, left, b, a) {
    }
    forall o | o in kept ensures exists b, a :: Partner(before, after, b, a) && b.ord == o && a.ord == kept[o] {
      var b, a :| PartnerSoFar(before, after, left, b, a) && b.ord == o && a.ord == kept[o];
    }
    forall o ensures o in removed <==> o in Ordinals(before) - kept.Keys {
      if o in Ordinals(before) && o !in kept {
        var b :| b in before && b.ord == o;
        TwinsAreKept(before, after, left, kept, b);
      }
    }
    SameSet(removed, Ordinals(before) - kept.Keys);
  }

  lemma TwinsAreKept(before: seq<BusRow>, after: seq<BusRow>, done: seq<BusRow>, kept: map<int, int>, b: BusRow)
    requires KeepsPartners(before, after, done, kept) && b in before
    ensures HasTwin(b, after) ==> b.ord in kept
  {
    if HasTwin(b, after) {
      var a :| a in after && SameStamp(a, b);
      assert PartnerSoFar(before, after, done, b, a);
    }
  }

  /** Nothing added: the kept rows are in bijection with the rows after the pass, and partners agree on
      their effect. */
  lemma KeptIsBijection(before: seq<BusRow>, after: seq<BusRow>, kept: map<int, int>)
    requires DistinctRows(before) && DistinctRows(after) && OneToOne(before, after) && KeptOf(before, after, kept)
    requires forall o :: o in Ordinals(after) ==> o in kept.Values
    ensures kept.Keys <= Ordinals(before) && kept.Values == Ordinals(after)
    ensures forall x, y :: x in kept && y in kept && x != y ==> kept[x] != kept[y]
    ensures forall b, a :: b in before && a in after && b.ord in kept && kept[b.ord] == a.ord ==> b.effect == a.effect
  {
    KeptRange(before, after, kept);
    forall x, y | x in kept && y in kept && x != y ensures kept[x] != kept[y] {
      KeptInjective(before, after, kept, x, y);
    }
    forall b, a | b in before && a in after && b.ord in kept && kept[b.ord] == a.ord ensures b.effect == a.effect {
      KeptEffect(before, after, kept, b, a);
    }
  }

  lemma KeptRange(before: seq<BusRow>, after: seq<BusRow>, kept: map<int, int>)
    requires KeptOf(before, after, kept)
    requires forall o :: o in Ordinals(after) ==> o in kept.Values
    ensures kept.Keys <= Ordinals(before) && kept.Values == Ordinals(after)
  {
    forall x | x in kept.Keys ensures x in Ordinals(before) {
      var b, a :| Partner(before, after, b, a) && b.ord == x && a.ord == kept[x];
    }
    forall v | v in kept.Values ensures v in Ordinals(after) {
      var x := KeyOf(kept, v);
      var b, a :| Partner(before, after, b, a) && b.ord == x && a.ord == kept[x];
    }
    SameSet(kept.Values, Ordinals(after));
  }

  lemma KeptInjective(before: seq<BusRow>, after: seq<BusRow>, kept: map<int, int>, x: int, y: int)
    requires DistinctRows(after) && OneToOne(before, after) && KeptOf(before, after, kept)
    requires x in kept && y in kept
    ensures kept[x] == kept[y] ==> x == y
  {
    var b, a :| Partner(before, after, b, a) && b.ord == x && a.ord == kept[x];
    var b', a' :| Partner(before, after, b', a') && b'.ord == y && a'.ord == kept[y];
    if a.ord == a'.ord {
      SameOrdSameRow(after, a, a');
    }
  }

  lemma KeptEffect(before: seq<BusRow>, after: seq<BusRow>, kept: map<int, int>, b: BusRow, a: BusRow)
    requires DistinctRows(before) && DistinctRows(after) && KeptOf(before, after, kept)
    requires b in before && a in after && b.ord in kept && kept[b.ord] == a.ord
    ensures Partner(before, after, b, a) && b.effect == a.effect
  {
    var c, d :| Partner(before, after, c, d) && c.ord == b.ord && d.ord == kept[b.ord];
    SameOrdSameRow(before, b, c);
    SameOrdSameRow(after, a, d);
  }
}
