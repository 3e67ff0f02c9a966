/** Relating the memory input and output records of two circuits. */
module IoRelation {
  import opened Smt
  import opened Sets
  import opened Connectives
  import opened PlainMemory
  import opened BusConservation
  import opened Bags

  /** One circuit's interactions with the flags of its plain encoding. */
  datatype Side = Side(rows: seq<Interaction>, isInput: seq<Node>, isOutput: seq<Node>)

  ghost predicate GoodSide(s: Side) {
    |s.isInput| == |s.isOutput| == |s.rows|
  }

  ghost predicate Comparable(a: Side, b: Side) {
    && GoodSide(a) && GoodSide(b)
    && forall i, j :: 0 <= i < |a.rows| && 0 <= j < |b.rows| ==> |a.rows[i].args| == |b.rows[j].args|
  }

  type CrossVars = map<(int, int), Node>

  ghost predicate CrossComplete(a: Side, b: Side, vars: CrossVars) {
    forall i, j :: 0 <= i < |a.rows| && 0 <= j < |b.rows| ==> (i, j) in vars
  }

  // ---- What the relation says ----

  ghost predicate SameRecord(a: Side, b: Side, i: int, j: int, m: Model)
    requires Comparable(a, b) && 0 <= i < |a.rows| && 0 <= j < |b.rows|
  {
    && (Holds(a.isInput[i], m) <==> Holds(b.isInput[j], m))
    && (Holds(a.isOutput[i], m) <==> Holds(b.isOutput[j], m))
    && ArgValues(a.rows[i], m) == ArgValues(b.rows[j], m)
  }

  ghost predicate IsIo(s: Side, i: int, m: Model)
    requires GoodSide(s) && 0 <= i < |s.rows|
  {
    Holds(s.isInput[i], m) || Holds(s.isOutput[i], m)
  }

  ghost predicate Linked(vars: CrossVars, i: int, j: int, m: Model) {
    (i, j) in vars && Holds(vars[(i, j)], m)
  }

  /** Linked rows carry one record; no row or column is linked twice; every I/O row and column is linked. */
  ghost predicate CrossModel(a: Side, b: Side, vars: CrossVars, m: Model)
    requires Comparable(a, b) && CrossComplete(a, b, vars)
  {
    && (forall i, j :: 0 <= i < |a.rows| && 0 <= j < |b.rows| && Linked(vars, i, j, m) ==> SameRecord(a, b, i, j, m))
    && (forall i, j, k :: 0 <= i < |a.rows| && 0 <= j < k < |b.rows| ==> !(Linked(vars, i, j, m) && Linked(vars, i, k, m)))
    && (forall i, k, j :: 0 <= i < k < |a.rows| && 0 <= j < |b.rows| ==> !(Linked(vars, i, j, m) && Linked(vars, k, j, m)))
    && (forall i :: 0 <= i < |a.rows| && IsIo(a, i, m) ==> exists j :: 0 <= j < |b.rows| && Linked(vars, i, j, m))
    && (forall j :: 0 <= j < |b.rows| && IsIo(b, j, m) ==> exists i :: 0 <= i < |a.rows| && Linked(vars, i, j, m))
  }

  // ---- The bijection ----

  ghost function LinkMap(a: Side, b: Side, vars: CrossVars, rows: set<int>, m: Model): (f: map<int, int>)
    requires Comparable(a, b) && CrossComplete(a, b, vars) && CrossModel(a, b, vars, m)
    requires forall i :: i in rows ==> 0 <= i < |a.rows| && IsIo(a, i, m)
    ensures f.Keys == rows && forall i :: i in f ==> 0 <= f[i] < |b.rows| && Linked(vars, i, f[i], m)
  {
    map i | i in rows :: (var j :| 0 <= j < |b.rows| && Linked(vars, i, j, m); j)
  }

  lemma RowLinkUnique(a: Side, b: Side, vars: CrossVars, m: Model, i: int, j: int, k: int)
    requires Comparable(a, b) && CrossComplete(a, b, vars) && CrossModel(a, b, vars, m)
    requires 0 <= i < |a.rows| && 0 <= j < |b.rows| && 0 <= k < |b.rows| && Linked(vars, i, j, m) && Linked(vars, i, k, m)
    ensures j == k
  {
  }

  lemma ColumnLinkUnique(a: Side, b: Side, vars: CrossVars, m: Model, i: int, k: int, j: int)
    requires Comparable(a, b) && CrossComplete(a, b, vars) && CrossModel(a, b, vars, m)
    requires 0 <= i < |a.rows| && 0 <= k < |a.rows| && 0 <= j < |b.rows| && Linked(vars, i, j, m) && i != k
    ensures !Linked(vars, k, j, m)
  {
  }

  /** The input rows (or output rows) of one circuit are carried onto those of the other, records included. */
  lemma FlagsCarry(a: Side, b: Side, vars: CrossVars, m: Model, fa: seq<Node>, fb: seq<Node>)
    requires Comparable(a, b) && CrossComplete(a, b, vars) && CrossModel(a, b, vars, m)
    requires (fa == a.isInput && fb == b.isInput) || (fa == a.isOutput && fb == b.isOutput)
    ensures Carries(Records(a.rows, m), Flagged(fa, m), Records(b.rows, m), Flagged(fb, m), LinkMap(a, b, vars, Flagged(fa, m), m))
  {
    var f := LinkMap(a, b, vars, Flagged(fa, m), m);
    forall i | i in f ensures f[i] in Flagged(fb, m) && ArgValues(a.rows[i], m) == ArgValues(b.rows[f[i]], m) {
      assert i in f.Keys;
      assert SameRecord(a, b, i, f[i], m);
    }
    forall i, k | i in f && k in f && i != k ensures f[i] != f[k] {
      assert i in f.Keys && k in f.Keys;
      ColumnLinkUnique(a, b, vars, m, i, k, f[i]);
    }
    forall j | j in Flagged(fb, m) ensures j in f.Values {
      assert IsIo(b, j, m);
      var i :| 0 <= i < |a.rows| && Linked(vars, i, j, m);
      assert SameRecord(a, b, i, j, m);
      assert i in f.Keys;
      RowLinkUnique(a, b, vars, m, i, j, f[i]);
      ValueOf(f, i);
    }
    forall j | j in f.Values ensures j in Flagged(fb, m) {
      var i := KeyOf(f, j);
    }
    SameSet(f.Values, Flagged(fb, m));
  }

  /** Equal inputs, equal outputs, and so the same net effect on the bus. */
  lemma SameNetEffect(a: Side, b: Side, vars: CrossVars, m: Model, p: int)
    requires Comparable(a, b) && CrossComplete(a, b, vars) && CrossModel(a, b, vars, m)
    requires Conserves(a, p, m) && Conserves(b, p, m)
    ensures BagOf(a.rows, Flagged(a.isInput, m), m) == BagOf(b.rows, Flagged(b.isInput, m), m)
    ensures BagOf(a.rows, Flagged(a.isOutput, m), m) == BagOf(b.rows, Flagged(b.isOutput, m), m)
    ensures Sent(a.rows, m) + Received(b.rows, p, m) == Received(a.rows, p, m) + Sent(b.rows, m)
  {
    FlagsCarry(a, b, vars, m, a.isInput, b.isInput);
    FlagsCarry(a, b, vars, m, a.isOutput, b.isOutput);
    CarriedBags(Records(a.rows, m), Flagged(a.isInput, m), Records(b.rows, m), Flagged(b.isInput, m),
                LinkMap(a, b, vars, Flagged(a.isInput, m), m));
    CarriedBags(Records(a.rows, m), Flagged(a.isOutput, m), Records(b.rows, m), Flagged(b.isOutput, m),
                LinkMap(a, b, vars, Flagged(a.isOutput, m), m));
    Cancel(Sent(a.rows, m), Received(a.rows, p, m), Sent(b.rows, m), Received(b.rows, p, m),
           BagOf(a.rows, Flagged(a.isInput, m), m), BagOf(a.rows, Flagged(a.isOutput, m), m));
  }

  ghost predicate Conserves(s: Side, p: int, m: Model)
    requires GoodSide(s)
  {
    Sent(s.rows, m) + BagOf(s.rows, Flagged(s.isInput, m), m) == Received(s.rows, p, m) + BagOf(s.rows, Flagged(s.isOutput, m), m)
  }

  lemma Cancel<T>(sa: multiset<T>, ra: multiset<T>, sb: multiset<T>, rb: multiset<T>, inp: multiset<T>, out: multiset<T>)
    requires sa + inp == ra + out && sb + inp == rb + out
    ensures sa + rb == ra + sb
  {
    forall x ensures (sa + rb)[x] == (ra + sb)[x] {
      assert (sa + inp)[x] == (ra + out)[x] && (sb + inp)[x] == (rb + out)[x];
    }
  }

  // ---- Building the relation ----

  /** Flags and all arguments agree. */
  function RecordEq(a: Side, b: Side, i: int, j: int): Node
    requires Comparable(a, b) && 0 <= i < |a.rows| && 0 <= j < |b.rows|
  {
    And([Iff(a.isInput[i], b.isInput[j]), Iff(a.isOutput[i], b.isOutput[j]), And(ArgEqualities(a.rows[i].args, b.rows[j].args))])
  }

  lemma RecordEqMeans(a: Side, b: Side, i: int, j: int, m: Model)
    requires Comparable(a, b) && 0 <= i < |a.rows| && 0 <= j < |b.rows|
    ensures Holds(RecordEq(a, b, i, j), m) <==> SameRecord(a, b, i, j, m)
  {
    var fs := [Iff(a.isInput[i], b.isInput[j]), Iff(a.isOutput[i], b.isOutput[j]), And(ArgEqualities(a.rows[i].args, b.rows[j].args))];
    AndMeans(fs, m);
    assert fs[0] == Iff(a.isInput[i], b.isInput[j]) && fs[1] == Iff(a.isOutput[i], b.isOutput[j])
           && fs[2] == And(ArgEqualities(a.rows[i].args, b.rows[j].args));
    IffMeans(a.isInput[i], b.isInput[j], m);
    IffMeans(a.isOutput[i], b.isOutput[j], m);
    ArgEqualitiesMean(a.rows[i], b.rows[j], m);
  }

  /** A prealignment fixes the link; otherwise a fresh literal unless the records differ outright. */
  function LinkVar(a: Side, b: Side, pairs: map<int, int>, simplify: Node -> Node, name: (int, int) -> string, i: int, j: int): Node
    requires Comparable(a, b) && 0 <= i < |a.rows| && 0 <= j < |b.rows|
  {
    if i in pairs then (if pairs[i] == j then TRUE else FALSE)
    else if j in pairs.Values then FALSE
    else if simplify(RecordEq(a, b, i, j)) == FALSE then FALSE
    else Sym(name(i, j))
  }

  /** The literal a pair has: what a prealignment of either row says, else false where the records differ outright, else a
      symbol of its own. */
  ghost predicate LinkPrescribed(a: Side, b: Side, pairs: map<int, int>, simplify: Node -> Node, name: (int, int) -> string, i: int, j: int, x: Node)
    requires Comparable(a, b) && 0 <= i < |a.rows| && 0 <= j < |b.rows|
  {
    var aligned, taken := i in pairs && pairs[i] == j, i in pairs || exists k :: k in pairs && pairs[k] == j;
    && (aligned ==> x == TRUE)
    && (taken && !aligned ==> x == FALSE)
    && (!taken && simplify(RecordEq(a, b, i, j)) == FALSE ==> x == FALSE)
    && (!taken && simplify(RecordEq(a, b, i, j)) != FALSE ==> x == Sym(name(i, j)))
  }

  lemma LinkVarPrescribed(a: Side, b: Side, pairs: map<int, int>, simplify: Node -> Node, name: (int, int) -> string, i: int, j: int)
    requires Comparable(a, b) && 0 <= i < |a.rows| && 0 <= j < |b.rows|
    ensures LinkPrescribed(a, b, pairs, simplify, name, i, j, LinkVar(a, b, pairs, simplify, name, i, j))
  {
    hide RecordEq;
    if k :| k in pairs && pairs[k] == j {
      assert pairs[k] in pairs.Values;
    }
    if j in pairs.Values {
      var k := KeyOf(pairs, j);
    }
  }

  ghost predicate LinkOk(a: Side, b: Side, x: Node, i: int, j: int, m: Model)
    requires Comparable(a, b) && 0 <= i < |a.rows| && 0 <= j < |b.rows|
  {
    Holds(x, m) ==> SameRecord(a, b, i, j, m)
  }

  ghost predicate RowLinksOk(a: Side, b: Side, vars: CrossVars, i: int, n: int, m: Model)
    requires Comparable(a, b) && 0 <= i < |a.rows| && n <= |b.rows|
  {
    forall j :: 0 <= j < n ==> (i, j) in vars && LinkOk(a, b, vars[(i, j)], i, j, m)
  }

  function LinkFacts(a: Side, b: Side, x: Node, i: int, j: int): seq<Node>
    requires Comparable(a, b) && 0 <= i < |a.rows| && 0 <= j < |b.rows|
  {
    if x == TRUE then [RecordEq(a, b, i, j)]
    else if x == FALSE then []
    else [Implies(x, RecordEq(a, b, i, j))]
  }

  lemma LinkFactsMean(a: Side, b: Side, x: Node, i: int, j: int, before: seq<Node>, m: Model)
    requires Comparable(a, b) && 0 <= i < |a.rows| && 0 <= j < |b.rows|
    ensures Sat(before + LinkFacts(a, b, x, i, j), m) <==> Sat(before, m) && LinkOk(a, b, x, i, j, m)
  {
    RecordEqMeans(a, b, i, j, m);
    ImpliesMeans(x, RecordEq(a, b, i, j), m);
    if x == TRUE {
      SatMore(before, RecordEq(a, b, i, j), m);
    } else if x == FALSE {
      assert before + [] == before;
    } else {
      SatMore(before, Implies(x, RecordEq(a, b, i, j)), m);
    }
  }

  /** The literals and facts of one row. */
  method LinkRow(a: Side, b: Side, pairs: map<int, int>, simplify: Node -> Node, name: (int, int) -> string, i: nat,
                 vars0: CrossVars, parts0: seq<Node>) returns (vars: CrossVars, parts: seq<Node>)
    requires Comparable(a, b) && i < |a.rows|
    ensures forall k, j :: (k, j) in vars <==> (k, j) in vars0 || (k == i && 0 <= j < |b.rows|)
    ensures forall k, j :: (k, j) in vars0 && k != i ==> vars[(k, j)] == vars0[(k, j)]
    ensures forall j :: 0 <= j < |b.rows| ==> vars[(i, j)] == LinkVar(a, b, pairs, simplify, name, i, j)
    ensures forall m :: Sat(parts, m) <==> Sat(parts0, m) && RowLinksOk(a, b, vars, i, |b.rows|, m)
  {
    vars, parts := vars0, parts0;
    for j := 0 to |b.rows|
      invariant forall k, l :: (k, l) in vars <==> (k, l) in vars0 || (k == i && 0 <= l < j)
      invariant forall k, l :: (k, l) in vars0 && k != i ==> vars[(k, l)] == vars0[(k, l)]
      invariant forall l :: 0 <= l < j ==> vars[(i, l)] == LinkVar(a, b, pairs, simplify, name, i, l)
      invariant forall m :: Sat(parts, m) <==> Sat(parts0, m) && RowLinksOk(a, b, vars, i, j, m)
    {
      ghost var before, earlier := parts, vars;
      var x := LinkVar(a, b, pairs, simplify, name, i, j);
      vars := vars[(i, j) := x];
      parts := parts + LinkFacts(a, b, x, i, j);
      forall m ensures Sat(parts, m) <==> Sat(before, m) && LinkOk(a, b, x, i, j, m) {
        LinkFactsMean(a, b, x, i, j, before, m);
      }
      var next := j + 1;
      forall m ensures RowLinksOk(a, b, vars, i, next, m) <==> RowLinksOk(a, b, earlier, i, j, m) && LinkOk(a, b, x, i, j, m) {
        RowLinksStep(a, b, earlier, vars, x, i, j, m);
      }
    }
  }

  lemma RowLinksStep(a: Side, b: Side, earlier: CrossVars, vars: CrossVars, x: Node, i: nat, j: nat, m: Model)
    requires Comparable(a, b) && i < |a.rows| && j < |b.rows| && vars == earlier[(i, j) := x]
    requires forall l :: 0 <= l < j ==> (i, l) in earlier
    ensures RowLinksOk(a, b, vars, i, j + 1, m) <==> RowLinksOk(a, b, earlier, i, j, m) && LinkOk(a, b, x, i, j, m)
  {
    forall l | 0 <= l < j ensures (i, l) in vars && vars[(i, l)] == earlier[(i, l)] {
    }
    assert vars[(i, j)] == x;
    if RowLinksOk(a, b, vars, i, j + 1, m) {
      forall l | 0 <= l < j ensures LinkOk(a, b, earlier[(i, l)], i, l, m) {
        assert vars[(i, l)] == earlier[(i, l)];
      }
    }
  }

  method LinkRows(a: Side, b: Side, pairs: map<int, int>, simplify: Node -> Node, name: (int, int) -> string)
    returns (vars: CrossVars, parts: seq<Node>)
    requires Comparable(a, b)
    ensures CrossComplete(a, b, vars)
    ensures forall i, j :: 0 <= i < |a.rows| && 0 <= j < |b.rows| ==> vars[(i, j)] == LinkVar(a, b, pairs, simplify, name, i, j)
    ensures forall m :: Sat(parts, m) <==> forall i :: 0 <= i < |a.rows| ==> RowLinksOk(a, b, vars, i, |b.rows|, m)
  {
    vars, parts := map[], [];
    for i := 0 to |a.rows|
      invariant forall k, j :: (k, j) in vars <==> 0 <= k < i && 0 <= j < |b.rows|
      invariant forall k, j :: 0 <= k < i && 0 <= j < |b.rows| ==> vars[(k, j)] == LinkVar(a, b, pairs, simplify, name, k, j)
      invariant forall m :: Sat(parts, m) <==> forall k :: 0 <= k < i ==> RowLinksOk(a, b, vars, k, |b.rows|, m)
    {
      ghost var earlier, before := vars, parts;
      vars, parts := LinkRow(a, b, pairs, simplify, name, i, vars, parts);
      forall k, m | 0 <= k < i ensures RowLinksOk(a, b, vars, k, |b.rows|, m) <==> RowLinksOk(a, b, earlier, k, |b.rows|, m) {
        SameRowLinks(a, b, earlier, vars, k, m);
      }
    }
  }

  lemma SameRowLinks(a: Side, b: Side, v: CrossVars, w: CrossVars, k: nat, m: Model)
    requires Comparable(a, b) && k < |a.rows|
    requires forall j :: 0 <= j < |b.rows| ==> (k, j) in v && (k, j) in w && v[(k, j)] == w[(k, j)]
    ensures RowLinksOk(a, b, v, k, |b.rows|, m) <==> RowLinksOk(a, b, w, k, |b.rows|, m)
  {
    if RowLinksOk(a, b, v, k, |b.rows|, m) {
      forall j | 0 <= j < |b.rows| ensures LinkOk(a, b, w[(k, j)], k, j, m) {
        assert LinkOk(a, b, v[(k, j)], k, j, m);
      }
    }
    if RowLinksOk(a, b, w, k, |b.rows|, m) {
      forall j | 0 <= j < |b.rows| ensures LinkOk(a, b, v[(k, j)], k, j, m) {
        assert LinkOk(a, b, w[(k, j)], k, j, m);
      }
    }
  }

  ghost predicate NoTwo(fs: seq<Node>, m: Model) {
    forall j, k :: 0 <= j < k < |fs| ==> !(Holds(fs[j], m) && Holds(fs[k], m))
  }

  ghost predicate NoneAfter(fs: seq<Node>, j: int, n: int, m: Model)
    requires 0 <= j < |fs| && n <= |fs|
  {
    forall k :: j < k < n ==> !(Holds(fs[j], m) && Holds(fs[k], m))
  }

  /** Pairwise exclusion of the literals of one row or column. */
  method AppendNoTwo(fs: seq<Node>, parts0: seq<Node>) returns (parts: seq<Node>)
    ensures forall m :: Sat(parts, m) <==> Sat(parts0, m) && NoTwo(fs, m)
  {
    parts := parts0;
    for j := 0 to |fs|
      invariant forall m :: Sat(parts, m) <==> Sat(parts0, m) && forall l :: 0 <= l < j ==> NoneAfter(fs, l, |fs|, m)
    {
      if fs[j] != FALSE {
        parts := AppendNoneAfter(fs, j, parts);
      }
    }
    forall m ensures NoTwo(fs, m) <==> forall l :: 0 <= l < |fs| ==> NoneAfter(fs, l, |fs|, m) {
      if forall l :: 0 <= l < |fs| ==> NoneAfter(fs, l, |fs|, m) {
        forall j, k | 0 <= j < k < |fs| ensures !(Holds(fs[j], m) && Holds(fs[k], m)) {
          assert NoneAfter(fs, j, |fs|, m);
        }
      }
    }
  }

  method AppendNoneAfter(fs: seq<Node>, j: nat, parts0: seq<Node>) returns (parts: seq<Node>)
    requires j < |fs|
    ensures forall m :: Sat(parts, m) <==> Sat(parts0, m) && NoneAfter(fs, j, |fs|, m)
  {
    parts := parts0;
    for k := j + 1 to |fs|
      invariant forall m :: Sat(parts, m) <==> Sat(parts0, m) && NoneAfter(fs, j, k, m)
    {
      ghost var before := parts;
      parts := parts + [NotBoth(fs[j], fs[k])];
      forall m ensures Sat(parts, m) <==> Sat(before, m) && !(Holds(fs[j], m) && Holds(fs[k], m)) {
        SatMore(before, NotBoth(fs[j], fs[k]), m);
        NotBothMeans(fs[j], fs[k], m);
      }
    }
  }

  ghost predicate Covers(io: bool, fs: seq<Node>, m: Model) {
    io ==> exists k :: 0 <= k < |fs| && Holds(fs[k], m)
  }

  /** An I/O row needs some link. */
  function CoverFact(inp: Node, out: Node, fs: seq<Node>): Node {
    Implies(Or([inp, out]), if fs == [] then FALSE else Or(fs))
  }

  lemma CoverFactMeans(inp: Node, out: Node, fs: seq<Node>, m: Model)
    ensures Holds(CoverFact(inp, out, fs), m) <==> Covers(Holds(inp, m) || Holds(out, m), fs, m)
  {
    ImpliesMeans(Or([inp, out]), if fs == [] then FALSE else Or(fs), m);
    OrMeans([inp, out], m);
    assert [inp, out][0] == inp && [inp, out][1] == out;
    OrMeans(fs, m);
  }

  function RowLits(a: Side, b: Side, vars: CrossVars, i: int): (fs: seq<Node>)
    requires CrossComplete(a, b, vars) && 0 <= i < |a.rows|
    ensures |fs| == |b.rows| && forall j :: 0 <= j < |b.rows| ==> fs[j] == vars[(i, j)]
  {
    seq(|b.rows|, j requires 0 <= j < |b.rows| => vars[(i, j)])
  }

  function ColumnLits(a: Side, b: Side, vars: CrossVars, j: int): (fs: seq<Node>)
    requires CrossComplete(a, b, vars) && 0 <= j < |b.rows|
    ensures |fs| == |a.rows| && forall i :: 0 <= i < |a.rows| ==> fs[i] == vars[(i, j)]
  {
    seq(|a.rows|, i requires 0 <= i < |a.rows| => vars[(i, j)])
  }

  /** Exclusion for each of `lits`, then cover for each of them. */
  method AppendLines(lits: seq<seq<Node>>, inp: seq<Node>, out: seq<Node>, parts0: seq<Node>) returns (parts: seq<Node>)
    requires |inp| == |out| == |lits|
    ensures forall m :: Sat(parts, m) <==>
      Sat(parts0, m) && forall i :: 0 <= i < |lits| ==> LineOk(lits[i], inp[i], out[i], m)
  {
    parts := parts0;
    for i := 0 to |lits|
      invariant forall m :: Sat(parts, m) <==>
        Sat(parts0, m) && forall k :: 0 <= k < i ==> LineOk(lits[k], inp[k], out[k], m)
    {
      parts := AppendNoTwo(lits[i], parts);
      ghost var before := parts;
      parts := parts + [CoverFact(inp[i], out[i], lits[i])];
      forall m ensures Sat(parts, m) <==> Sat(before, m) && Covers(Holds(inp[i], m) || Holds(out[i], m), lits[i], m) {
        SatMore(before, CoverFact(inp[i], out[i], lits[i]), m);
        CoverFactMeans(inp[i], out[i], lits[i], m);
      }
    }
  }

  ghost predicate LineOk(fs: seq<Node>, inp: Node, out: Node, m: Model) {
    NoTwo(fs, m) && Covers(Holds(inp, m) || Holds(out, m), fs, m)
  }

  /** The relation; an assignment satisfies it exactly when linked rows carry one record and linking is
      one-to-one and covers all I/O rows of both circuits. */
  method Relate(a: Side, b: Side, pairs: map<int, int>, simplify: Node -> Node, name: (int, int) -> string)
    returns (vars: CrossVars, parts: seq<Node>)
    requires Comparable(a, b)
    ensures CrossComplete(a, b, vars)
    ensures forall i, j :: 0 <= i < |a.rows| && 0 <= j < |b.rows| ==> LinkPrescribed(a, b, pairs, simplify, name, i, j, vars[(i, j)])
    ensures forall m :: Sat(parts, m) <==> CrossModel(a, b, vars, m)
  {
    hide LinkPrescribed, LinkVar;
    vars, parts := LinkRows(a, b, pairs, simplify, name);
    forall i, j | 0 <= i < |a.rows| && 0 <= j < |b.rows| ensures LinkPrescribed(a, b, pairs, simplify, name, i, j, vars[(i, j)]) {
      LinkVarPrescribed(a, b, pairs, simplify, name, i, j);
    }
    var rows := seq(|a.rows|, i requires 0 <= i < |a.rows| => RowLits(a, b, vars, i));
    var columns := seq(|b.rows|, j requires 0 <= j < |b.rows| => ColumnLits(a, b, vars, j));
    parts := AppendLines(rows, a.isInput, a.isOutput, parts);
    parts := AppendLines(columns, b.isInput, b.isOutput, parts);
    forall m ensures Sat(parts, m) <==> CrossModel(a, b, vars, m) {
      LinesAreCross(a, b, vars, rows, columns, m);
    }
  }

  lemma LinesAreCross(a: Side, b: Side, vars: CrossVars, rows: seq<seq<Node>>, columns: seq<seq<Node>>, m: Model)
    requires Comparable(a, b) && CrossComplete(a, b, vars) && |rows| == |a.rows| && |columns| == |b.rows|
    requires forall i :: 0 <= i < |rows| ==> rows[i] == RowLits(a, b, vars, i)
    requires forall j :: 0 <= j < |columns| ==> columns[j] == ColumnLits(a, b, vars, j)
    ensures CrossModel(a, b, vars, m) <==>
      && (forall i :: 0 <= i < |a.rows| ==> RowLinksOk(a, b, vars, i, |b.rows|, m))
      && (forall i :: 0 <= i < |rows| ==> LineOk(rows[i], a.isInput[i], a.isOutput[i], m))
      && (forall j :: 0 <= j < |columns| ==> LineOk(columns[j], b.isInput[j], b.isOutput[j], m))
  {
    if CrossModel(a, b, vars, m) {
      CrossHasLinks(a, b, vars, m);
      CrossHasRows(a, b, vars, rows, m);
      CrossHasColumns(a, b, vars, columns, m);
    }
    if (forall i :: 0 <= i < |a.rows| ==> RowLinksOk(a, b, vars, i, |b.rows|, m))
       && (forall i :: 0 <= i < |rows| ==> LineOk(rows[i], a.isInput[i], a.isOutput[i], m))
       && (forall j :: 0 <= j < |columns| ==> LineOk(columns[j], b.isInput[j], b.isOutput[j], m)) {
      LinesGiveCross(a, b, vars, rows, columns, m);
    }
  }

  lemma CrossHasLinks(a: Side, b: Side, vars: CrossVars, m: Model)
    requires Comparable(a, b) && CrossComplete(a, b, vars) && CrossModel(a, b, vars, m)
    ensures forall i :: 0 <= i < |a.rows| ==> RowLinksOk(a, b, vars, i, |b.rows|, m)
  {
    forall i, j | 0 <= i < |a.rows| && 0 <= j < |b.rows| ensures LinkOk(a, b, vars[(i, j)], i, j, m) {
      assert Linked(vars, i, j, m) <==> Holds(vars[(i, j)], m);
    }
  }

  lemma CrossHasRows(a: Side, b: Side, vars: CrossVars, rows: seq<seq<Node>>, m: Model)
    requires Comparable(a, b) && CrossComplete(a, b, vars) && |rows| == |a.rows| && CrossModel(a, b, vars, m)
    requires forall i :: 0 <= i < |rows| ==> rows[i] == RowLits(a, b, vars, i)
    ensures forall i :: 0 <= i < |rows| ==> LineOk(rows[i], a.isInput[i], a.isOutput[i], m)
  {
    forall i | 0 <= i < |rows| ensures LineOk(rows[i], a.isInput[i], a.isOutput[i], m) {
      forall j | 0 <= j < |b.rows| ensures Holds(rows[i][j], m) <==> Linked(vars, i, j, m) {
      }
      if IsIo(a, i, m) {
        var j :| 0 <= j < |b.rows| && Linked(vars, i, j, m);
        assert Holds(rows[i][j], m);
      }
    }
  }

  lemma CrossHasColumns(a: Side, b: Side, vars: CrossVars, columns: seq<seq<Node>>, m: Model)
    requires Comparable(a, b) && CrossComplete(a, b, vars) && |columns| == |b.rows| && CrossModel(a, b, vars, m)
    requires forall j :: 0 <= j < |columns| ==> columns[j] == ColumnLits(a, b, vars, j)
    ensures forall j :: 0 <= j < |columns| ==> LineOk(columns[j], b.isInput[j], b.isOutput[j], m)
  {
    forall j | 0 <= j < |columns| ensures LineOk(columns[j], b.isInput[j], b.isOutput[j], m) {
      forall i | 0 <= i < |a.rows| ensures Holds(columns[j][i], m) <==> Linked(vars, i, j, m) {
      }
      if IsIo(b, j, m) {
        var i :| 0 <= i < |a.rows| && Linked(vars, i, j, m);
        assert Holds(columns[j][i], m);
      }
    }
  }

  lemma LinesGiveCross(a: Side, b: Side, vars: CrossVars, rows: seq<seq<Node>>, columns: seq<seq<Node>>, m: Model)
    requires Comparable(a, b) && CrossComplete(a, b, vars) && |rows| == |a.rows| && |columns| == |b.rows|
    requires forall i :: 0 <= i < |rows| ==> rows[i] == RowLits(a, b, vars, i)
    requires forall j :: 0 <= j < |columns| ==> columns[j] == ColumnLits(a, b, vars, j)
    requires forall i :: 0 <= i < |a.rows| ==> RowLinksOk(a, b, vars, i, |b.rows|, m)
    requires forall i :: 0 <= i < |rows| ==> LineOk(rows[i], a.isInput[i], a.isOutput[i], m)
    requires forall j :: 0 <= j < |columns| ==> LineOk(columns[j], b.isInput[j], b.isOutput[j], m)
    ensures CrossModel(a, b, vars, m)
  {
    forall i, j | 0 <= i < |a.rows| && 0 <= j < |b.rows| && Linked(vars, i, j, m) ensures SameRecord(a, b, i, j, m) {
      assert RowLinksOk(a, b, vars, i, |b.rows|, m);
    }
    forall i, j | 0 <= i < |a.rows| && 0 <= j < |b.rows|
      ensures Holds(rows[i][j], m) <==> Linked(vars, i, j, m)
      ensures Holds(columns[j][i], m) <==> Linked(vars, i, j, m)
    {
    }
    forall i, j, k | 0 <= i < |a.rows| && 0 <= j < k < |b.rows| ensures !(Linked(vars, i, j, m) && Linked(vars, i, k, m)) {
      assert NoTwo(rows[i], m);
      assert !(Holds(rows[i][j], m) && Holds(rows[i][k], m));
    }
    forall i, k, j | 0 <= i < k < |a.rows| && 0 <= j < |b.rows| ensures !(Linked(vars, i, j, m) && Linked(vars, k, j, m)) {
      assert NoTwo(columns[j], m);
      assert !(Holds(columns[j][i], m) && Holds(columns[j][k], m));
    }
    forall i | 0 <= i < |a.rows| && IsIo(a, i, m) ensures exists j :: 0 <= j < |b.rows| && Linked(vars, i, j, m) {
      assert Covers(IsIo(a, i, m), rows[i], m);
      var j :| 0 <= j < |rows[i]| && Holds(rows[i][j], m);
      assert Linked(vars, i, j, m);
    }
    forall j | 0 <= j < |b.rows| && IsIo(b, j, m) ensures exists i :: 0 <= i < |a.rows| && Linked(vars, i, j, m) {
      assert Covers(IsIo(b, j, m), columns[j], m);
      var i :| 0 <= i < |columns[j]| && Holds(columns[j][i], m);
      assert Linked(vars, i, j, m);
    }
  }

  /** Both encodings and the relation together: the two circuits have the same inputs, the same outputs and
      the same net effect on the bus. */
  lemma RelatedCircuitsAgree(a: Side, ca: seq<seq<int>>, da: seq<Node>, va: MatchVars, na: (int, int) -> string,
                             b: Side, cb: seq<seq<int>>, db: seq<Node>, vb: MatchVars, nb: (int, int) -> string,
                             links: CrossVars, p: int, m: Model)
    requires Comparable(a, b) && CrossComplete(a, b, links) && CrossModel(a, b, links, m)
    requires |da| == |a.rows| && |db| == |b.rows| && Symmetric(ca) && Symmetric(cb)
    requires Setting(a.rows, ca, Flags(a.isInput, a.isOutput, da), va, p) && IsMatchVars(a.rows, ca, p, na, va)
    requires Setting(b.rows, cb, Flags(b.isInput, b.isOutput, db), vb, p) && IsMatchVars(b.rows, cb, p, nb, vb)
    requires PlainModel(a.rows, ca, Flags(a.isInput, a.isOutput, da), va, p, m)
    requires PlainModel(b.rows, cb, Flags(b.isInput, b.isOutput, db), vb, p, m)
    ensures BagOf(a.rows, Flagged(a.isInput, m), m) == BagOf(b.rows, Flagged(b.isInput, m), m)
    ensures BagOf(a.rows, Flagged(a.isOutput, m), m) == BagOf(b.rows, Flagged(b.isOutput, m), m)
    ensures Sent(a.rows, m) + Received(b.rows, p, m) == Received(a.rows, p, m) + Sent(b.rows, m)
  {
    Conservation(a.rows, ca, Flags(a.isInput, a.isOutput, da), va, p, na, m);
    Conservation(b.rows, cb, Flags(b.isInput, b.isOutput, db), vb, p, nb, m);
    SameNetEffect(a, b, links, m, p);
  }
}