/** Linear forms of terms: coefficients of symbols and a constant. */
module LinearTerms {
  import opened Wrappers
  import opened Smt
  import opened Connectives
  import opened Sums

  /** Symbols with their coefficients, in order of first occurrence, and a constant. */
  datatype Linear = Linear(terms: seq<Term>, constant: int)

  function Values(m: Model): string -> int {
    (x: string) => IntOf(Sym(x), m)
  }

  function LinearValue(l: Linear, m: Model): int {
    TermsValue(l.terms, Values(m)) + l.constant
  }

  function ConstProduct(ns: seq<Node>): int {
    if ns == [] then 1 else (if ns[0].IntConst? then ns[0].i else 1) * ConstProduct(ns[1..])
  }

  function NonConst(ns: seq<Node>): (r: seq<Node>)
    ensures forall n :: n in r ==> n in ns
  {
    if ns == [] then [] else (if ns[0].IntConst? then [] else [ns[0]]) + NonConst(ns[1..])
  }

  lemma {:induction false} ProductSplits(ns: seq<Node>, m: Model)
    ensures Product(EvalAll(ns, m)) == ConstProduct(ns) * Product(EvalAll(NonConst(ns), m))
  {
    if ns != [] {
      ProductSplits(ns[1..], m);
      assert EvalAll(ns, m)[1..] == EvalAll(ns[1..], m);
      var rest, q := NonConst(ns[1..]), Product(EvalAll(NonConst(ns[1..]), m));
      if ns[0].IntConst? {
        assert NonConst(ns) == rest;
        Associate(ns[0].i, ConstProduct(ns[1..]), q);
      } else {
        assert NonConst(ns) == [ns[0]] + rest;
        assert EvalAll(NonConst(ns), m)[1..] == EvalAll(rest, m);
        Associate(IntOf(ns[0], m), ConstProduct(ns[1..]), q);
      }
    }
  }

  /** Adds `c` times the term `n`; `None` when it is not linear. */
  function AddTerm(c: int, n: Node, acc: Linear): Option<Linear>
    decreases n
  {
    match n
    case IntConst(i) => Some(acc.(constant := acc.constant + c * i))
    case Sym(x) => Some(acc.(terms := Bump(acc.terms, x, c)))
    case BoolConst(_) => None
    case App(op, args) =>
      if op.PlusOp? then AddAll(c, args, acc)
      else if op.MinusOp? && |args| == 2 then
        (match AddTerm(c, args[0], acc)
         case None => None
         case Some(a) => AddTerm(-c, args[1], a))
      else if op.TimesOp? then
        var k, rest := ConstProduct(args), NonConst(args);
        if |rest| == 1 then (assert rest[0] in args; AddTerm(c * k, rest[0], acc))
        else if rest == [] then Some(acc.(constant := acc.constant + c * k))
        else None
      else None
  }

  function AddAll(c: int, ns: seq<Node>, acc: Linear): Option<Linear>
    decreases ns
  {
    if ns == [] then Some(acc)
    else
      match AddTerm(c, ns[0], acc)
      case None => None
      case Some(a) => AddAll(c, ns[1..], a)
  }

  function LinearForm(n: Node): Option<Linear> {
    AddTerm(1, n, Linear([], 0))
  }

  lemma {:induction false} AddTermValue(c: int, n: Node, acc: Linear, m: Model)
    requires AddTerm(c, n, acc).Some? && DistinctNames(acc.terms)
    ensures DistinctNames(AddTerm(c, n, acc).value.terms)
    ensures LinearValue(AddTerm(c, n, acc).value, m) == LinearValue(acc, m) + c * IntOf(n, m)
    decreases n
  {
    match n
    case IntConst(_) =>
    case Sym(x) => BumpValue(acc.terms, x, c, Values(m));
    case App(op, args) =>
      if op.PlusOp? {
        AddAllValue(c, args, acc, m);
        assert Eval(n, m) == Apply(op, EvalAll(args, m), m);
      } else if op.MinusOp? && |args| == 2 {
        MinusValue(c, n, acc, m);
      } else {
        TimesValue(c, n, acc, m);
      }
  }

  lemma MinusUnfolds(c: int, n: Node, acc: Linear)
    requires n.App? && n.op.MinusOp? && |n.args| == 2 && AddTerm(c, n, acc).Some?
    ensures AddTerm(c, n.args[0], acc).Some?
    ensures AddTerm(c, n, acc) == AddTerm(-c, n.args[1], AddTerm(c, n.args[0], acc).value)
  {
  }

  lemma {:induction false} MinusValue(c: int, n: Node, acc: Linear, m: Model)
    requires n.App? && n.op.MinusOp? && |n.args| == 2 && AddTerm(c, n, acc).Some? && DistinctNames(acc.terms)
    ensures DistinctNames(AddTerm(c, n, acc).value.terms)
    ensures LinearValue(AddTerm(c, n, acc).value, m) == LinearValue(acc, m) + c * IntOf(n, m)
    decreases n, 0
  {
    hide TermsValue, DistinctNames, Values, AddTerm;
    var f, g := n.args[0], n.args[1];
    MinusUnfolds(c, n, acc);
    var a := AddTerm(c, f, acc).value;
    AddTermValue(c, f, acc, m);
    AddTermValue(-c, g, a, m);
    assert n.args == [f, g];
    PairMeans(n.op, f, g, m);
    Distribute(c, IntOf(f, m), -IntOf(g, m));
  }

  lemma {:induction false} TimesValue(c: int, n: Node, acc: Linear, m: Model)
    requires n.App? && n.op.TimesOp? && AddTerm(c, n, acc).Some? && DistinctNames(acc.terms)
    ensures DistinctNames(AddTerm(c, n, acc).value.terms)
    ensures LinearValue(AddTerm(c, n, acc).value, m) == LinearValue(acc, m) + c * IntOf(n, m)
    decreases n, 0
  {
    var k, rest := ConstProduct(n.args), NonConst(n.args);
    ProductSplits(n.args, m);
    assert Eval(n, m) == Apply(n.op, EvalAll(n.args, m), m);
    if |rest| == 1 {
      assert rest[0] in n.args;
      AddTermValue(c * k, rest[0], acc, m);
      SingleProduct(rest, m);
      Associate(c, k, IntOf(rest[0], m));
    }
  }

  lemma SingleProduct(ns: seq<Node>, m: Model)
    requires |ns| == 1
    ensures Product(EvalAll(ns, m)) == IntOf(ns[0], m)
  {
    assert EvalAll(ns, m)[1..] == [];
  }

  lemma SumHead(ns: seq<Node>, m: Model)
    requires ns != []
    ensures Sum(EvalAll(ns, m)) == IntOf(ns[0], m) + Sum(EvalAll(ns[1..], m))
  {
    assert EvalAll(ns, m)[1..] == EvalAll(ns[1..], m);
  }

  lemma {:induction false} AddAllValue(c: int, ns: seq<Node>, acc: Linear, m: Model)
    requires AddAll(c, ns, acc).Some? && DistinctNames(acc.terms)
    ensures DistinctNames(AddAll(c, ns, acc).value.terms)
    ensures LinearValue(AddAll(c, ns, acc).value, m) == LinearValue(acc, m) + c * Sum(EvalAll(ns, m))
    decreases ns
  {
    if ns != [] {
      var a := AddTerm(c, ns[0], acc).value;
      AddTermValue(c, ns[0], acc, m);
      AddAllValue(c, ns[1..], a, m);
      SumHead(ns, m);
      Distribute(c, IntOf(ns[0], m), Sum(EvalAll(ns[1..], m)));
    }
  }

  /** A linear form has the value of its term in every model. */
  lemma LinearFormValue(n: Node, m: Model)
    requires LinearForm(n).Some?
    ensures DistinctNames(LinearForm(n).value.terms)
    ensures LinearValue(LinearForm(n).value, m) == IntOf(n, m)
  {
    AddTermValue(1, n, Linear([], 0), m);
  }

  // ---- Which terms are linear ----

  /** Constants and symbols, sums, differences of two, and products with at most one factor that is no constant. */
  ghost predicate IsLinear(n: Node) {
    match n
    case IntConst(_) => true
    case Sym(_) => true
    case BoolConst(_) => false
    case App(op, args) =>
      && (op.PlusOp? || (op.MinusOp? && |args| == 2) || (op.TimesOp? && Scales(args)))
      && forall i :: 0 <= i < |args| ==> IsLinear(args[i])
  }

  /** At most one is no constant. */
  ghost predicate Scales(ns: seq<Node>) {
    forall i, j :: 0 <= i < |ns| && 0 <= j < |ns| && !ns[i].IntConst? && !ns[j].IntConst? ==> i == j
  }

  ghost predicate AllLinear(ns: seq<Node>) {
    forall i :: 0 <= i < |ns| ==> IsLinear(ns[i])
  }

  ghost function VarsOfAll(ns: seq<Node>): set<string> {
    set i, x | 0 <= i < |ns| && x in FreeVars(ns[i]) :: x
  }

  lemma FirstVars(ns: seq<Node>)
    requires ns != []
    ensures VarsOfAll(ns) == FreeVars(ns[0]) + VarsOfAll(ns[1..])
    ensures AllLinear(ns) <==> IsLinear(ns[0]) && AllLinear(ns[1..])
  {
    assert forall i :: 0 < i < |ns| ==> ns[i] == ns[1..][i - 1];
    assert forall i :: 0 <= i < |ns[1..]| ==> ns[1..][i] == ns[i + 1];
  }

  lemma {:induction false} NonConstExactly(ns: seq<Node>)
    ensures Scales(ns) <==> |NonConst(ns)| <= 1
    ensures VarsOfAll(ns) == VarsOfAll(NonConst(ns)) && (AllLinear(ns) <==> AllLinear(NonConst(ns)))
  {
    if ns != [] {
      var rest := ns[1..];
      NonConstExactly(rest);
      FirstVars(ns);
      assert forall i :: 0 < i < |ns| ==> ns[i] == rest[i - 1];
      assert forall i :: 0 <= i < |rest| ==> rest[i] == ns[i + 1];
      hide IsLinear, FreeVars, VarsOfAll, AllLinear, Scales;
      if ns[0].IntConst? {
        assert NonConst(ns) == NonConst(rest);
        ConstantVars(ns[0]);
        ScalesTail(ns);
      } else {
        assert NonConst(ns) == [ns[0]] + NonConst(rest);
        FirstVars([ns[0]] + NonConst(rest));
        assert ([ns[0]] + NonConst(rest))[1..] == NonConst(rest);
        ScalesAlone(ns);
        NoneLeft(rest);
      }
    }
  }

  lemma ConstantVars(n: Node)
    requires n.IntConst?
    ensures FreeVars(n) == {} && IsLinear(n)
  {
  }

  lemma ScalesTail(ns: seq<Node>)
    requires ns != [] && ns[0].IntConst?
    ensures Scales(ns) <==> Scales(ns[1..])
  {
    assert forall i :: 0 < i < |ns| ==> ns[i] == ns[1..][i - 1];
    if Scales(ns) {
      forall i, j | 0 <= i < |ns[1..]| && 0 <= j < |ns[1..]| && !ns[1..][i].IntConst? && !ns[1..][j].IntConst? ensures i == j {
        assert !ns[i + 1].IntConst? && !ns[j + 1].IntConst?;
      }
    }
  }

  lemma ScalesAlone(ns: seq<Node>)
    requires ns != [] && !ns[0].IntConst?
    ensures Scales(ns) <==> forall i :: 0 <= i < |ns[1..]| ==> ns[1..][i].IntConst?
  {
    assert forall i :: 0 < i < |ns| ==> ns[i] == ns[1..][i - 1];
    if Scales(ns) {
      forall i | 0 <= i < |ns[1..]| ensures ns[1..][i].IntConst? {
        assert ns[i + 1] == ns[1..][i];
      }
    }
  }

  lemma {:induction false} NoneLeft(ns: seq<Node>)
    ensures NonConst(ns) == [] <==> forall i :: 0 <= i < |ns| ==> ns[i].IntConst?
  {
    if ns != [] {
      NoneLeft(ns[1..]);
      assert forall i :: 0 < i < |ns| ==> ns[i] == ns[1..][i - 1];
      assert forall i :: 0 <= i < |ns[1..]| ==> ns[1..][i] == ns[i + 1];
    }
  }

  lemma {:induction false} AddTermExactly(c: int, n: Node, acc: Linear)
    ensures AddTerm(c, n, acc).Some? <==> IsLinear(n)
    ensures AddTerm(c, n, acc).Some? ==> NamesOf(AddTerm(c, n, acc).value.terms) == NamesOf(acc.terms) + FreeVars(n)
    decreases n, 1
  {
    match n
    case IntConst(_) =>
    case BoolConst(_) =>
    case Sym(x) => BumpNames(acc.terms, x, c);
    case App(op, args) => AddAppExactly(c, n, acc);
  }

  lemma AppVars(n: Node)
    requires n.App? && (n.op.PlusOp? || n.op.MinusOp? || n.op.TimesOp?)
    ensures FreeVars(n) == VarsOfAll(n.args)
    ensures IsLinear(n) <==> (n.op.PlusOp? || (n.op.MinusOp? && |n.args| == 2) || (n.op.TimesOp? && Scales(n.args))) && AllLinear(n.args)
  {
  }

  lemma {:induction false} AddAppExactly(c: int, n: Node, acc: Linear)
    requires n.App?
    ensures AddTerm(c, n, acc).Some? <==> IsLinear(n)
    ensures AddTerm(c, n, acc).Some? ==> NamesOf(AddTerm(c, n, acc).value.terms) == NamesOf(acc.terms) + FreeVars(n)
    decreases n, 0
  {
    var op, args := n.op, n.args;
    if op.PlusOp? || (op.MinusOp? && |args| == 2) || op.TimesOp? {
      hide IsLinear, FreeVars, NamesOf, Scales;
      AppVars(n);
      if op.PlusOp? {
        AddAllExactly(c, args, acc);
      } else if op.MinusOp? {
        AddTermExactly(c, args[0], acc);
        var a := AddTerm(c, args[0], acc);
        if a.Some? {
          AddTermExactly(-c, args[1], a.value);
        }
        TwoVars(args);
      } else {
        var k, rest := ConstProduct(args), NonConst(args);
        NonConstExactly(args);
        if |rest| == 1 {
          assert rest[0] in args;
          AddTermExactly(c * k, rest[0], acc);
          FirstVars(rest);
          NoVars(rest[1..]);
        } else if rest == [] {
          NoVars(rest);
        }
      }
    }
  }

  lemma NoVars(ns: seq<Node>)
    requires ns == []
    ensures VarsOfAll(ns) == {} && AllLinear(ns)
  {
  }

  lemma TwoVars(ns: seq<Node>)
    requires |ns| == 2
    ensures VarsOfAll(ns) == FreeVars(ns[0]) + FreeVars(ns[1])
    ensures AllLinear(ns) <==> IsLinear(ns[0]) && IsLinear(ns[1])
  {
    FirstVars(ns);
    FirstVars(ns[1..]);
    NoVars(ns[1..][1..]);
  }

  lemma {:induction false} AddAllExactly(c: int, ns: seq<Node>, acc: Linear)
    ensures AddAll(c, ns, acc).Some? <==> AllLinear(ns)
    ensures AddAll(c, ns, acc).Some? ==> NamesOf(AddAll(c, ns, acc).value.terms) == NamesOf(acc.terms) + VarsOfAll(ns)
    decreases ns
  {
    hide NamesOf;
    if ns == [] {
      NoVars(ns);
    } else {
      FirstVars(ns);
      AddTermExactly(c, ns[0], acc);
      if AddTerm(c, ns[0], acc).Some? {
        AddAllExactly(c, ns[1..], AddTerm(c, ns[0], acc).value);
      }
    }
  }

  /** A term has a form exactly when it is linear; the form mentions exactly its symbols. */
  lemma LinearFormExactly(n: Node)
    ensures LinearForm(n).Some? <==> IsLinear(n)
    ensures LinearForm(n).Some? ==> NamesOf(LinearForm(n).value.terms) == FreeVars(n)
  {
    AddTermExactly(1, n, Linear([], 0));
    assert NamesOf([]) == {};
  }
}
