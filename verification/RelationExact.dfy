/** What the relation of two circuits' records asks of them, with the link symbols left to choose. */
module RelationExact {
  import opened Smt
  import opened Connectives
  import opened PlainMemory
  import opened IoRelation

  // ---- Changing symbols a formula does not mention ----

  /** The models differ at most in the symbols `xs`. */
  ghost predicate SameBut(m: Model, m': Model, xs: set<string>) {
    m.funs == m'.funs && m.modZero == m'.modZero && forall x :: x !in xs ==> VarOf(m, x) == VarOf(m', x)
  }

  lemma {:induction false} SameEval(n: Node, m: Model, m': Model, xs: set<string>)
    requires SameBut(m, m', xs) && FreeVars(n) !! xs
    ensures Eval(n, m) == Eval(n, m')
  {
    if n.App? {
      forall i | 0 <= i < |n.args| ensures Eval(n.args[i], m) == Eval(n.args[i], m') {
        assert FreeVars(n.args[i]) <= FreeVars(n);
        SameEval(n.args[i], m, m', xs);
      }
      assert EvalAll(n.args, m) == EvalAll(n.args, m');
      assert Eval(n, m) == Apply(n.op, EvalAll(n.args, m), m) && Eval(n, m') == Apply(n.op, EvalAll(n.args, m'), m');
    }
  }

  /** The names of the links. */
  ghost function LinkNames(a: Side, b: Side, name: (int, int) -> string): set<string> {
    set i, j | 0 <= i < |a.rows| && 0 <= j < |b.rows| :: name(i, j)
  }

  ghost predicate Apart(s: Side, xs: set<string>) {
    && (forall i :: 0 <= i < |s.isInput| ==> FreeVars(s.isInput[i]) !! xs)
    && (forall i :: 0 <= i < |s.isOutput| ==> FreeVars(s.isOutput[i]) !! xs)
    && (forall i, k :: 0 <= i < |s.rows| && 0 <= k < |s.rows[i].args| ==> FreeVars(s.rows[i].args[k]) !! xs)
  }

  /** The link symbols are different and occur in neither circuit. */
  ghost predicate FreshNames(a: Side, b: Side, name: (int, int) -> string) {
    && Apart(a, LinkNames(a, b, name)) && Apart(b, LinkNames(a, b, name))
    && (forall i, j, k, l ::
          0 <= i < |a.rows| && 0 <= j < |b.rows| && 0 <= k < |a.rows| && 0 <= l < |b.rows| && name(i, j) == name(k, l) ==> i == k && j == l)
  }

  lemma SideKeeps(s: Side, i: int, m: Model, m': Model, xs: set<string>)
    requires GoodSide(s) && Apart(s, xs) && SameBut(m, m', xs) && 0 <= i < |s.rows|
    ensures Holds(s.isInput[i], m) == Holds(s.isInput[i], m') && Holds(s.isOutput[i], m) == Holds(s.isOutput[i], m')
    ensures ArgValues(s.rows[i], m) == ArgValues(s.rows[i], m')
  {
    SameEval(s.isInput[i], m, m', xs);
    SameEval(s.isOutput[i], m, m', xs);
    forall k | 0 <= k < |s.rows[i].args| ensures IntOf(s.rows[i].args[k], m) == IntOf(s.rows[i].args[k], m') {
      SameEval(s.rows[i].args[k], m, m', xs);
    }
  }

  // ---- Correspondences ----

  /** `f` carries rows of `a` with all of its I/O rows one-to-one onto rows of `b` with all of its I/O rows, each onto a row
      of the same record, as the prealigned rows say. */
  ghost predicate Corresponds(a: Side, b: Side, pairs: map<int, int>, f: map<int, int>, m: Model)
    requires Comparable(a, b)
  {
    && (forall i :: i in f ==> 0 <= i < |a.rows| && 0 <= f[i] < |b.rows| && SameRecord(a, b, i, f[i], m))
    && (forall i, k :: i in f && k in f && i != k ==> f[i] != f[k])
    && (forall i :: 0 <= i < |a.rows| && IsIo(a, i, m) ==> i in f)
    && (forall j :: 0 <= j < |b.rows| && IsIo(b, j, m) ==> exists i :: i in f && f[i] == j)
    && (forall i :: i in pairs ==> i in f && f[i] == pairs[i])
  }

  ghost predicate GoodPairs(a: Side, b: Side, pairs: map<int, int>) {
    forall i :: i in pairs ==> 0 <= i < |a.rows| && 0 <= pairs[i] < |b.rows|
  }

  ghost predicate SoundSimplifier(simplify: Node -> Node) {
    forall g, m :: Holds(simplify(g), m) == Holds(g, m)
  }

  ghost predicate AllPrescribed(a: Side, b: Side, pairs: map<int, int>, simplify: Node -> Node, name: (int, int) -> string, vars: CrossVars)
    requires Comparable(a, b)
  {
    CrossComplete(a, b, vars)
    && forall i, j :: 0 <= i < |a.rows| && 0 <= j < |b.rows| ==> LinkPrescribed(a, b, pairs, simplify, name, i, j, vars[(i, j)])
  }

  /** The model with the links of `f`. */
  ghost function WithLinks(a: Side, b: Side, name: (int, int) -> string, f: map<int, int>, m: Model): Model {
    m.(vars := m.vars + map x | x in LinkNames(a, b, name) ::
      BoolV(exists i, j :: 0 <= i < |a.rows| && 0 <= j < |b.rows| && name(i, j) == x && i in f && f[i] == j))
  }

  lemma LinkValue(a: Side, b: Side, name: (int, int) -> string, f: map<int, int>, m: Model, i: int, j: int)
    requires FreshNames(a, b, name) && 0 <= i < |a.rows| && 0 <= j < |b.rows|
    ensures Holds(Sym(name(i, j)), WithLinks(a, b, name, f, m)) <==> i in f && f[i] == j
  {
    assert name(i, j) in LinkNames(a, b, name);
  }

  lemma LinksOnly(a: Side, b: Side, name: (int, int) -> string, f: map<int, int>, m: Model)
    ensures SameBut(m, WithLinks(a, b, name, f, m), LinkNames(a, b, name))
  {
  }

  lemma SameSides(a: Side, b: Side, name: (int, int) -> string, m: Model, m': Model)
    requires Comparable(a, b) && FreshNames(a, b, name) && SameBut(m, m', LinkNames(a, b, name))
    ensures forall i, j :: 0 <= i < |a.rows| && 0 <= j < |b.rows| ==> (SameRecord(a, b, i, j, m) <==> SameRecord(a, b, i, j, m'))
    ensures forall i :: 0 <= i < |a.rows| ==> (IsIo(a, i, m) <==> IsIo(a, i, m'))
    ensures forall j :: 0 <= j < |b.rows| ==> (IsIo(b, j, m) <==> IsIo(b, j, m'))
  {
    var xs := LinkNames(a, b, name);
    forall i | 0 <= i < |a.rows|
      ensures Holds(a.isInput[i], m) == Holds(a.isInput[i], m') && Holds(a.isOutput[i], m) == Holds(a.isOutput[i], m')
      ensures ArgValues(a.rows[i], m) == ArgValues(a.rows[i], m')
    {
      SideKeeps(a, i, m, m', xs);
    }
    forall j | 0 <= j < |b.rows|
      ensures Holds(b.isInput[j], m) == Holds(b.isInput[j], m') && Holds(b.isOutput[j], m) == Holds(b.isOutput[j], m')
      ensures ArgValues(b.rows[j], m) == ArgValues(b.rows[j], m')
    {
      SideKeeps(b, j, m, m', xs);
    }
  }

  /** In the model with the links of a correspondence, exactly those rows are linked. */
  lemma LinkedAs(a: Side, b: Side, pairs: map<int, int>, simplify: Node -> Node, name: (int, int) -> string, vars: CrossVars,
                 f: map<int, int>, m: Model, i: int, j: int)
    requires Comparable(a, b) && FreshNames(a, b, name) && SoundSimplifier(simplify)
    requires AllPrescribed(a, b, pairs, simplify, name, vars) && Corresponds(a, b, pairs, f, m)
    requires 0 <= i < |a.rows| && 0 <= j < |b.rows|
    ensures Linked(vars, i, j, WithLinks(a, b, name, f, m)) <==> i in f && f[i] == j
  {
    hide RecordEq, SameRecord, IsIo;
    var m' := WithLinks(a, b, name, f, m);
    assert LinkPrescribed(a, b, pairs, simplify, name, i, j, vars[(i, j)]);
    LinkValue(a, b, name, f, m, i, j);
    assert Holds(TRUE, m') && !Holds(FALSE, m);
    RecordEqMeans(a, b, i, j, m);
    assert Holds(simplify(RecordEq(a, b, i, j)), m) == Holds(RecordEq(a, b, i, j), m);
  }

  lemma CorrespondenceRelates(a: Side, b: Side, pairs: map<int, int>, simplify: Node -> Node, name: (int, int) -> string, vars: CrossVars,
                              f: map<int, int>, m: Model)
    requires Comparable(a, b) && FreshNames(a, b, name) && SoundSimplifier(simplify)
    requires AllPrescribed(a, b, pairs, simplify, name, vars) && Corresponds(a, b, pairs, f, m)
    ensures CrossModel(a, b, vars, WithLinks(a, b, name, f, m))
  {
    hide SameRecord, IsIo, Linked, FreshNames, LinkPrescribed;
    var m' := WithLinks(a, b, name, f, m);
    LinksOnly(a, b, name, f, m);
    SameSides(a, b, name, m, m');
    forall i, j | 0 <= i < |a.rows| && 0 <= j < |b.rows| ensures Linked(vars, i, j, m') <==> i in f && f[i] == j {
      LinkedAs(a, b, pairs, simplify, name, vars, f, m, i, j);
    }
    forall i | 0 <= i < |a.rows| && IsIo(a, i, m') ensures exists j :: 0 <= j < |b.rows| && Linked(vars, i, j, m') {
      assert Linked(vars, i, f[i], m');
    }
    forall j | 0 <= j < |b.rows| && IsIo(b, j, m') ensures exists i :: 0 <= i < |a.rows| && Linked(vars, i, j, m') {
      var i :| i in f && f[i] == j;
      assert Linked(vars, i, j, m');
    }
  }

  ghost predicate HasLink(b: Side, vars: CrossVars, i: int, m: Model) {
    exists j :: 0 <= j < |b.rows| && Linked(vars, i, j, m)
  }

  /** The rows a model links. */
  ghost function LinksOf(a: Side, b: Side, vars: CrossVars, m: Model): (f: map<int, int>)
    ensures forall i :: i in f <==> 0 <= i < |a.rows| && HasLink(b, vars, i, m)
    ensures forall i :: i in f ==> 0 <= f[i] < |b.rows| && Linked(vars, i, f[i], m)
  {
    map i | 0 <= i < |a.rows| && HasLink(b, vars, i, m) :: (var j :| 0 <= j < |b.rows| && Linked(vars, i, j, m); j)
  }

  lemma RelatedCorrespond(a: Side, b: Side, pairs: map<int, int>, simplify: Node -> Node, name: (int, int) -> string, vars: CrossVars, m: Model)
    requires Comparable(a, b) && GoodPairs(a, b, pairs) && AllPrescribed(a, b, pairs, simplify, name, vars) && CrossModel(a, b, vars, m)
    ensures Corresponds(a, b, pairs, LinksOf(a, b, vars, m), m)
  {
    hide SameRecord, IsIo, RecordEq;
    var f := LinksOf(a, b, vars, m);
    forall i | i in pairs ensures i in f && f[i] == pairs[i] {
      assert LinkPrescribed(a, b, pairs, simplify, name, i, pairs[i], vars[(i, pairs[i])]);
      assert Holds(TRUE, m) && Linked(vars, i, pairs[i], m);
      RowLinkUnique(a, b, vars, m, i, f[i], pairs[i]);
    }
    forall i, k | i in f && k in f && i != k ensures f[i] != f[k] {
      ColumnLinkUnique(a, b, vars, m, i, k, f[i]);
    }
    forall j | 0 <= j < |b.rows| && IsIo(b, j, m) ensures exists i :: i in f && f[i] == j {
      var i :| 0 <= i < |a.rows| && Linked(vars, i, j, m);
      assert i in f;
      RowLinkUnique(a, b, vars, m, i, j, f[i]);
    }
  }

  /** Main result on the relation: the link symbols can be chosen to satisfy it exactly when the records of the two circuits
      correspond one-to-one, prealigned rows as they are aligned. */
  lemma RelatableExactly(a: Side, b: Side, pairs: map<int, int>, simplify: Node -> Node, name: (int, int) -> string, vars: CrossVars, m: Model)
    requires Comparable(a, b) && GoodPairs(a, b, pairs) && FreshNames(a, b, name) && SoundSimplifier(simplify)
    requires AllPrescribed(a, b, pairs, simplify, name, vars)
    ensures (exists m' :: SameBut(m, m', LinkNames(a, b, name)) && CrossModel(a, b, vars, m')) <==>
      exists f :: Corresponds(a, b, pairs, f, m)
  {
    hide SameRecord, IsIo, LinkPrescribed, FreshNames, SameBut, CrossModel;
    if f :| Corresponds(a, b, pairs, f, m) {
      CorrespondenceRelates(a, b, pairs, simplify, name, vars, f, m);
      LinksOnly(a, b, name, f, m);
    }
    if m' :| SameBut(m, m', LinkNames(a, b, name)) && CrossModel(a, b, vars, m') {
      RelatedCorrespond(a, b, pairs, simplify, name, vars, m');
      SameSides(a, b, name, m, m');
      SameCorrespondence(a, b, pairs, LinksOf(a, b, vars, m'), m, m');
    }
  }

  lemma SameCorrespondence(a: Side, b: Side, pairs: map<int, int>, f: map<int, int>, m: Model, m': Model)
    requires Comparable(a, b) && Corresponds(a, b, pairs, f, m')
    requires forall i, j :: 0 <= i < |a.rows| && 0 <= j < |b.rows| ==> (SameRecord(a, b, i, j, m) <==> SameRecord(a, b, i, j, m'))
    requires forall i :: 0 <= i < |a.rows| ==> (IsIo(a, i, m) <==> IsIo(a, i, m'))
    requires forall j :: 0 <= j < |b.rows| ==> (IsIo(b, j, m) <==> IsIo(b, j, m'))
    ensures Corresponds(a, b, pairs, f, m)
  {
    hide SameRecord, IsIo;
  }
}
