/** Which seed becomes a column's bound: seeds compete by their upper ends only. */
module BoundSeeds {
  import opened Wrappers
  import opened Residues
  import opened Primes
  import opened Sums
  import opened FieldForms
  import opened FieldGadgets
  import opened MultEvidence
  import opened FieldBounds

  type Seed = (string, Bound)

  /** A strictly lower upper end; no end is above all others. */
  predicate Below(a: Option<int>, b: Option<int>) {
    a.Some? && (b.None? || a.value < b.value)
  }

  /** The bound of `x` after the seeds: its upper end is the least one, and it is that of some seed. */
  ghost predicate LeastEnd(seeds: seq<Seed>, x: string, b: Bound) {
    && (forall s :: s in seeds && s.0 == x ==> !Below(s.1.hi, b.hi))
    && (x, b) in seeds
  }

  lemma {:induction false} SeededLeast(seeds: seq<Seed>, x: string)
    ensures x in PutSeeds(map[], seeds) <==> exists s :: s in seeds && s.0 == x
    ensures x in PutSeeds(map[], seeds) ==> LeastEnd(seeds, x, PutSeeds(map[], seeds)[x])
  {
    if seeds != [] {
      var n := |seeds| - 1;
      var front, last := seeds[..n], seeds[n];
      SeededLeast(front, x);
      assert seeds == front + [last];
      var before, after := PutSeeds(map[], front), PutSeeds(map[], seeds);
      assert after == Put(before, last.0, last.1);
      if x in before {
        assert (x, before[x]) in seeds;
      }
      if last.0 == x {
        assert (x, last.1) == last && last in seeds;
      }
    }
  }

  /** The seed `s` between `a` and `b` is the bound: strictly lower than all before it, and none after it is lower. */
  ghost predicate Wins(a: seq<Seed>, s: Seed, b: seq<Seed>) {
    && (forall t :: t in a && t.0 == s.0 ==> Below(s.1.hi, t.1.hi))
    && (forall t :: t in b && t.0 == s.0 ==> !Below(t.1.hi, s.1.hi))
  }

  /** Exactly what one more seed changes. */
  lemma {:induction false} InsertedSeed(a: seq<Seed>, s: Seed, b: seq<Seed>)
    ensures var r, q := PutSeeds(map[], a + b), PutSeeds(map[], a + [s] + b);
      && s.0 in q && (!Wins(a, s, b) ==> s.0 in r)
      && q == r[s.0 := if Wins(a, s, b) then s.1 else r[s.0]]
    decreases |b|
  {
    hide Put, Wins, PutSeeds, Below;
    if b == [] {
      assert a + [] == a && a + [s] + [] == a + [s];
      InsertedLast(a, s);
    } else {
      var n := |b| - 1;
      var front, t := b[..n], b[n];
      InsertedSeed(a, s, front);
      assert b == front + [t];
      assert a + b == (a + front) + [t] && a + [s] + b == (a + [s] + front) + [t];
      PutSnoc(map[], a + front, t);
      PutSnoc(map[], a + [s] + front, t);
      WinnerStep(a, s, front, t);
      WinnerIsLeast(a, s, front);
      InsertStep(PutSeeds(map[], a + front), PutSeeds(map[], a + [s] + front), s, t, Wins(a, s, front));
    }
  }

  lemma InsertedLast(a: seq<Seed>, s: Seed)
    ensures var r, q := PutSeeds(map[], a), PutSeeds(map[], a + [s]);
      && s.0 in q && (!Wins(a, s, []) ==> s.0 in r)
      && q == r[s.0 := if Wins(a, s, []) then s.1 else r[s.0]]
  {
    PutSnoc(map[], a, s);
    SeededLeast(a, s.0);
    var r := PutSeeds(map[], a);
    if s.0 in r {
      assert (s.0, r[s.0]) in a;
      assert Wins(a, s, []) <==> Below(s.1.hi, r[s.0].hi);
    }
  }

  lemma WinnerStep(a: seq<Seed>, s: Seed, b: seq<Seed>, t: Seed)
    ensures Wins(a, s, b + [t]) <==> Wins(a, s, b) && (t.0 == s.0 ==> !Below(t.1.hi, s.1.hi))
  {
    assert t in b + [t];
  }

  lemma InsertStep(r: Bounds, q: Bounds, s: Seed, t: Seed, wins: bool)
    requires (!wins ==> s.0 in r) && q == r[s.0 := if wins then s.1 else r[s.0]]
    requires wins && s.0 in r ==> !Below(r[s.0].hi, s.1.hi)
    ensures var r', q', wins' := Put(r, t.0, t.1), Put(q, t.0, t.1), wins && (t.0 == s.0 ==> !Below(t.1.hi, s.1.hi));
      && s.0 in q' && (!wins' ==> s.0 in r')
      && q' == r'[s.0 := if wins' then s.1 else r'[s.0]]
  {
  }

  lemma WinnerIsLeast(a: seq<Seed>, s: Seed, b: seq<Seed>)
    ensures var r := PutSeeds(map[], a + b); Wins(a, s, b) && s.0 in r ==> !Below(r[s.0].hi, s.1.hi)
  {
    var r := PutSeeds(map[], a + b);
    SeededLeast(a + b, s.0);
    if Wins(a, s, b) && s.0 in r {
      var t := (s.0, r[s.0]);
      assert t in a || t in b;
    }
  }

  /** One more seed loosens a bound exactly when it wins with a smaller lower end. */
  lemma LoosensExactly(a: seq<Seed>, s: Seed, b: seq<Seed>, x: string)
    requires x in PutSeeds(map[], a + b)
    ensures var r, q := PutSeeds(map[], a + b), PutSeeds(map[], a + [s] + b);
      && x in q && !Below(r[x].hi, q[x].hi)
      && (q[x].lo < r[x].lo <==> x == s.0 && Wins(a, s, b) && s.1.lo < r[x].lo)
  {
    InsertedSeed(a, s, b);
    WinnerIsLeast(a, s, b);
  }

  ghost predicate SameLowerEnd(seeds: seq<Seed>, lo: int) {
    forall s :: s in seeds ==> s.1.lo == lo
  }

  /** With one lower end throughout, the order of the seeds does not matter. */
  lemma OneEndUnordered(a: seq<Seed>, b: seq<Seed>, lo: int)
    requires multiset(a) == multiset(b) && SameLowerEnd(a, lo)
    ensures PutSeeds(map[], a) == PutSeeds(map[], b)
  {
    var r, q := PutSeeds(map[], a), PutSeeds(map[], b);
    forall s ensures s in a <==> s in b {
      assert s in multiset(a) <==> s in multiset(b);
    }
    forall x ensures (x in r <==> x in q) && (x in r ==> r[x] == q[x]) {
      SeededLeast(a, x);
      SeededLeast(b, x);
    }
    assert r.Keys == q.Keys;
  }

  // ---- A run that loosens ----

  const COLUMN: Expr := Col("x")
  /** `x - 1`. */
  const PIN: Expr := Bin(COLUMN, Minus, Num(1))
  /** `x * (x - 1)`. */
  const BOOLEAN: Expr := Bin(COLUMN, Times, PIN)

  lemma PinForm(p: int)
    requires p > 2
    ensures ParseLin(PIN, p).Some? && ParseLin(PIN, p).value.terms == [Term("x", 1)] && ParseLin(PIN, p).value.constant == -1
    ensures ParseLin(BOOLEAN, p).None?
  {
    PinTerms();
    Small(1, p);
    CongShift(-1, p, 1);
    Small(p - 1, p);
    assert [Term("x", 1)][..0] == [];
    assert MakeTerms([Term("x", 1)], p) == [Term("x", 1)];
  }

  lemma PinTerms()
    ensures LinTerms(PIN) == Some(Raw([Term("x", 1)], -1)) && LinTerms(BOOLEAN).None?
  {
    assert LinTerms(COLUMN) == Some(Raw([Term("x", 1)], 0)) && LinTerms(Num(1)) == Some(Raw([], 1));
  }

  lemma PinSeed(p: int)
    requires Prime(p) && p > 2
    ensures IsSeed(PIN, p, ("x", Bound(1, Some(2))))
  {
    PinForm(p);
    var lf := ParseLin(PIN, p).value;
    var env := Env(x => 1, k => 0);
    SingleValue(lf, env);
    ParseLinCanonical(PIN, p);
    Small(0, p);
    SingleColExact(lf, p, env);
    Small(1, p);
    Small(SingleColResidue(lf, p).value.1, p);
  }

  lemma BooleanSeed(p: int)
    requires p > 2
    ensures IsSeed(BOOLEAN, p, ("x", Bound(0, Some(2))))
  {
    PinForm(p);
    var fs := FlattenProduct(BOOLEAN);
    assert fs == [COLUMN, PIN];
    assert Deltas(fs) == [0, 1] && Upto(2) == [0, 1];
    assert DomainShape(BOOLEAN, Domain("x", 2));
  }

  lemma NoLinks(p: int, cons: seq<Expr>)
    requires p > 2 && (cons == [PIN] || cons == [BOOLEAN, PIN])
    ensures GapsFrom(ParseAll(cons, p), 0) == [] && LinksOf(GapsFrom(ParseAll(cons, p), 0)) == []
  {
    PinForm(p);
    var fs := ParseAll(cons, p);
    var n := |cons|;
    assert fs[n - 1] == ParseLin(PIN, p) && GapOf(fs[n - 1].value, n - 1).None?;
    assert GapsFrom(fs, n) == [] && GapsFrom(fs, n - 1) == [];
    if n == 2 {
      assert fs[0] == ParseLin(BOOLEAN, p);
    }
  }

  lemma OracleSeeds(p: int, t: Tables, m: Machine)
    requires Prime(p) && p > 2 && m.rows == [] && (m.cons == [PIN] || m.cons == [BOOLEAN, PIN])
    ensures AllSeeds(m, t, [], None, p) ==
      (if m.cons == [PIN] then [] else [("x", Bound(0, Some(2)))]) + [("x", Bound(1, Some(2)))]
  {
    hide IsSeed, ConstraintSeedsOf, SentSeeds;
    var zero, one: Seed := ("x", Bound(0, Some(2))), ("x", Bound(1, Some(2)));
    PinSeed(p);
    OneSeed(PIN, p, one);
    NoSeeds(m, t, p);
    var n := |m.cons| - 1;
    assert m.cons[..n + 1] == m.cons;
    ConstraintSeedsSnoc(m.cons, n, p, Some(one));
    if n == 1 {
      BooleanSeed(p);
      OneSeed(BOOLEAN, p, zero);
      ConstraintSeedsSnoc(m.cons, 0, p, Some(zero));
    }
  }

  lemma NoSeeds(m: Machine, t: Tables, p: int)
    requires p > 1 && m.rows == []
    ensures SentSeeds(m.rows, t, None, p) == [] && ConstraintSeedsOf([], p) == []
    ensures m.cons[..0] == []
  {
  }

  lemma OneSeed(con: Expr, p: int, s: Seed)
    requires Prime(p) && IsSeed(con, p, s)
    ensures forall u :: IsSeed(con, p, u) ==> u == s
  {
    forall u | IsSeed(con, p, u) ensures u == s {
      if d, e :| DomainShape(con, d) && DomainShape(con, e) && d != e {
        OneDomain(con, d, e);
      }
    }
  }

  /** With `x * (x - 1)` before `x - 1` the oracle answers `[0, 2)`; without it, the narrower `[1, 2)`. */
  method EarlierSeedLoosens(p: int) returns (without: Bounds, with: Bounds)
    requires Prime(p) && p > 2
    ensures without == map["x" := Bound(1, Some(2))] && with == map["x" := Bound(0, Some(2))]
  {
    hide IsSeed, ParseAll, GapsFrom, SentSeeds, ConstraintSeedsOf, AllSeeds, TablesOf;
    without := Oracle([PIN], p);
    with := Oracle([BOOLEAN, PIN], p);
  }

  method Oracle(cons: seq<Expr>, p: int) returns (bs: Bounds)
    requires Prime(p) && p > 2 && (cons == [PIN] || cons == [BOOLEAN, PIN])
    ensures bs == map["x" := if cons == [PIN] then Bound(1, Some(2)) else Bound(0, Some(2))]
  {
    var t := BuildTables(cons, p);
    var m := Machine(cons, []);
    bs := ComputeBounds(m, t, [], None, p);
    NoLinks(p, cons);
    OracleSeeds(p, t, m);
    SeedsDecide();
  }

  lemma SeedsDecide()
    ensures PutSeeds(map[], [("x", Bound(1, Some(2)))]) == map["x" := Bound(1, Some(2))]
    ensures PutSeeds(map[], [("x", Bound(0, Some(2)))] + [("x", Bound(1, Some(2)))]) == map["x" := Bound(0, Some(2))]
    ensures [] + [("x", Bound(1, Some(2)))] == [("x", Bound(1, Some(2)))]
  {
    var a, b: Seed := ("x", Bound(0, Some(2))), ("x", Bound(1, Some(2)));
    PutSnoc(map[], [], b);
    PutSnoc(map[], [], a);
    PutSnoc(map[], [a], b);
    assert [] + [a] == [a] && [] + [b] == [b];
  }
}
