/** What a satisfying assignment of the plain encoding says about the bus: an involution pairing the
    interactions, and conservation of the signed multiset of records. */
module BusConservation {
  import opened Smt
  import opened Sets
  import opened Connectives
  import opened PlainMemory
  import opened Bags

  /** The candidate lists are symmetric. */
  ghost predicate Symmetric(candidates: seq<seq<int>>) {
    forall i, j :: 0 <= i < |candidates| && 0 <= j < |candidates| && j in candidates[i] ==> i in candidates[j]
  }

  ghost predicate Matched(rows: seq<Interaction>, vars: MatchVars, i: int, j: int, m: Model)
    requires Complete(vars, |rows|)
  {
    0 <= i < |rows| && 0 <= j < |rows| && Holds(Lit(vars, |rows|, i, j), m)
  }

  /** The candidate `i` is matched with. */
  lemma PartnerExists(rows: seq<Interaction>, candidates: seq<seq<int>>, fl: Flags, vars: MatchVars, p: int, m: Model, i: int)
    returns (j: int)
    requires Setting(rows, candidates, fl, vars, p) && PlainModel(rows, candidates, fl, vars, p, m) && 0 <= i < |rows|
    ensures 0 <= j < |rows| && j in candidates[i] && Matched(rows, vars, i, j, m)
    ensures forall k :: k in candidates[i] && 0 <= k < |rows| && Matched(rows, vars, i, k, m) ==> k == j
  {
    var js := candidates[i];
    var fs := Literals(vars, |rows|, i, js);
    assert OneMatch(vars, |rows|, i, js, m);
    CountOne(fs, m);
    var a :| 0 <= a < |fs| && Holds(fs[a], m);
    j := js[a];
    forall k | k in js && 0 <= k < |rows| && Matched(rows, vars, i, k, m) ensures k == j {
      var b :| 0 <= b < |js| && js[b] == k;
      assert fs[b] == Lit(vars, |rows|, i, k);
      SameTrue(fs, a, b, m);
    }
  }

  lemma SameTrue(fs: seq<Node>, a: nat, b: nat, m: Model)
    requires a < |fs| && b < |fs| && Holds(fs[a], m) && Holds(fs[b], m)
    requires forall i, j :: 0 <= i < j < |fs| ==> !(Holds(fs[i], m) && Holds(fs[j], m))
    ensures a == b
  {
  }

  ghost function Partner(rows: seq<Interaction>, candidates: seq<seq<int>>, fl: Flags, vars: MatchVars, p: int, m: Model, i: int): (j: int)
    requires Setting(rows, candidates, fl, vars, p) && PlainModel(rows, candidates, fl, vars, p, m) && 0 <= i < |rows|
    ensures 0 <= j < |rows| && j in candidates[i] && Matched(rows, vars, i, j, m)
  {
    PartnerIsThere(rows, candidates, fl, vars, p, m, i);
    var j :| 0 <= j < |rows| && j in candidates[i] && Matched(rows, vars, i, j, m);
    j
  }

  lemma PartnerIsThere(rows: seq<Interaction>, candidates: seq<seq<int>>, fl: Flags, vars: MatchVars, p: int, m: Model, i: int)
    requires Setting(rows, candidates, fl, vars, p) && PlainModel(rows, candidates, fl, vars, p, m) && 0 <= i < |rows|
    ensures exists j :: 0 <= j < |rows| && j in candidates[i] && Matched(rows, vars, i, j, m)
  {
    var j := PartnerExists(rows, candidates, fl, vars, p, m, i);
  }

  /** The only candidate `i` is matched with is its partner. */
  lemma PartnerUnique(rows: seq<Interaction>, candidates: seq<seq<int>>, fl: Flags, vars: MatchVars, p: int, m: Model, i: int, k: int)
    requires Setting(rows, candidates, fl, vars, p) && PlainModel(rows, candidates, fl, vars, p, m) && 0 <= i < |rows|
    requires k in candidates[i] && Matched(rows, vars, i, k, m)
    ensures k == Partner(rows, candidates, fl, vars, p, m, i)
  {
    var j := PartnerExists(rows, candidates, fl, vars, p, m, i);
  }

  /** Matching is an involution on the interactions. */
  lemma PartnerInvolution(rows: seq<Interaction>, candidates: seq<seq<int>>, fl: Flags, vars: MatchVars, p: int, m: Model, i: int)
    requires Setting(rows, candidates, fl, vars, p) && PlainModel(rows, candidates, fl, vars, p, m) && Symmetric(candidates)
    requires 0 <= i < |rows|
    ensures Partner(rows, candidates, fl, vars, p, m, Partner(rows, candidates, fl, vars, p, m, i)) == i
  {
    var j := Partner(rows, candidates, fl, vars, p, m, i);
    assert Matched(rows, vars, j, i, m);
    PartnerUnique(rows, candidates, fl, vars, p, m, j, i);
  }

  /** Two different matched interactions carry the same arguments with opposite multiplicities. */
  lemma PartnersBalance(rows: seq<Interaction>, candidates: seq<seq<int>>, fl: Flags, vars: MatchVars, p: int, m: Model, i: int)
    requires Setting(rows, candidates, fl, vars, p) && PlainModel(rows, candidates, fl, vars, p, m) && Symmetric(candidates)
    requires 0 <= i < |rows| && Partner(rows, candidates, fl, vars, p, m, i) != i
    ensures var j := Partner(rows, candidates, fl, vars, p, m, i);
      && ArgValues(rows[i], m) == ArgValues(rows[j], m)
      && ((Mult(rows, i, m) == 1 && Mult(rows, j, m) == p - 1) || (Mult(rows, i, m) == p - 1 && Mult(rows, j, m) == 1))
  {
    var j := Partner(rows, candidates, fl, vars, p, m, i);
    var lo, hi := if i < j then i else j, if i < j then j else i;
    assert hi in candidates[lo];
    var k :| 0 <= k < |candidates[lo]| && candidates[lo][k] == hi;
    assert PairsOk(rows, candidates[lo], vars, p, lo, m);
    assert PairOk(rows[lo], rows[hi], Lit(vars, |rows|, lo, hi), p, m);
    assert MultOk(rows, p, i, m) && MultOk(rows, p, j, m);
    Opposite(Mult(rows, lo, m), Mult(rows, hi, m), p);
  }

  lemma Opposite(x: int, y: int, p: int)
    requires p > 2 && (x == 1 || x == p - 1) && (y == 1 || y == p - 1) && (x + y) % p == 0
    ensures x != y
  {
    TwiceLast(p);
  }

  lemma TwiceLast(p: int)
    requires p > 2
    ensures (p - 1 + (p - 1)) % p == p - 2 && (1 + 1) % p == 2
  {
    assert p - 1 + (p - 1) == p * 1 + (p - 2);
  }

  // ---- Conservation ----

  ghost function WithMult(rows: seq<Interaction>, k: int, m: Model): set<int> {
    set i | 0 <= i < |rows| && Mult(rows, i, m) == k
  }

  ghost function Flagged(flags: seq<Node>, m: Model): set<int> {
    set i | 0 <= i < |flags| && Holds(flags[i], m)
  }

  ghost function Records(rows: seq<Interaction>, m: Model): (r: seq<seq<int>>)
    ensures |r| == |rows|
  {
    seq(|rows|, i requires 0 <= i < |rows| => ArgValues(rows[i], m))
  }

  ghost function BagOf(rows: seq<Interaction>, s: set<int>, m: Model): multiset<seq<int>> {
    Bag(Records(rows, m), s, |rows|)
  }

  ghost function Sent(rows: seq<Interaction>, m: Model): multiset<seq<int>> {
    BagOf(rows, WithMult(rows, 1, m), m)
  }

  ghost function Received(rows: seq<Interaction>, p: int, m: Model): multiset<seq<int>> {
    BagOf(rows, WithMult(rows, p - 1, m), m)
  }

  /** Interior rows: matched with another row. */
  ghost function Interior(rows: seq<Interaction>, candidates: seq<seq<int>>, fl: Flags, vars: MatchVars, p: int, k: int, m: Model): set<int>
    requires Setting(rows, candidates, fl, vars, p) && PlainModel(rows, candidates, fl, vars, p, m)
  {
    set i | 0 <= i < |rows| && Mult(rows, i, m) == k && Partner(rows, candidates, fl, vars, p, m, i) != i
  }

  ghost function PairMap(rows: seq<Interaction>, candidates: seq<seq<int>>, fl: Flags, vars: MatchVars, p: int, m: Model): map<int, int>
    requires Setting(rows, candidates, fl, vars, p) && PlainModel(rows, candidates, fl, vars, p, m)
  {
    map i | i in Interior(rows, candidates, fl, vars, p, 1, m) :: Partner(rows, candidates, fl, vars, p, m, i)
  }

  /** The partner map carries interior sends onto interior receives. */
  lemma InteriorPairs(rows: seq<Interaction>, candidates: seq<seq<int>>, fl: Flags, vars: MatchVars, p: int, m: Model)
    requires Setting(rows, candidates, fl, vars, p) && PlainModel(rows, candidates, fl, vars, p, m) && Symmetric(candidates)
    ensures Carries(Records(rows, m), Interior(rows, candidates, fl, vars, p, 1, m),
                    Records(rows, m), Interior(rows, candidates, fl, vars, p, p - 1, m), PairMap(rows, candidates, fl, vars, p, m))
  {
    var f := PairMap(rows, candidates, fl, vars, p, m);
    var sends, recvs := Interior(rows, candidates, fl, vars, p, 1, m), Interior(rows, candidates, fl, vars, p, p - 1, m);
    forall i | i in f ensures f[i] in recvs && ArgValues(rows[i], m) == ArgValues(rows[f[i]], m) {
      PartnersBalance(rows, candidates, fl, vars, p, m, i);
      PartnerInvolution(rows, candidates, fl, vars, p, m, i);
    }
    forall i, j | i in f && j in f && i != j ensures f[i] != f[j] {
      PartnerInvolution(rows, candidates, fl, vars, p, m, i);
      PartnerInvolution(rows, candidates, fl, vars, p, m, j);
    }
    forall j | j in recvs ensures j in f.Values {
      PartnersBalance(rows, candidates, fl, vars, p, m, j);
      PartnerInvolution(rows, candidates, fl, vars, p, m, j);
      var i := Partner(rows, candidates, fl, vars, p, m, j);
      assert i in sends;
      ValueOf(f, i);
    }
    forall j | j in f.Values ensures j in recvs {
      var i := KeyOf(f, j);
    }
    SameSet(f.Values, recvs);
    SameSet(f.Keys, sends);
  }

  /** A self-match that holds is a listed candidate. */
  ghost predicate SelfListed(rows: seq<Interaction>, candidates: seq<seq<int>>, vars: MatchVars, m: Model)
    requires Complete(vars, |rows|) && |candidates| == |rows|
  {
    forall i :: Matched(rows, vars, i, i, m) ==> i in candidates[i]
  }

  lemma BuiltVarsListSelves(rows: seq<Interaction>, candidates: seq<seq<int>>, p: int, name: (int, int) -> string, vars: MatchVars, m: Model)
    requires p > 0 && SameArity(rows) && |candidates| == |rows| && IsMatchVars(rows, candidates, p, name, vars)
    ensures SelfListed(rows, candidates, vars, m)
  {
    forall i | Matched(rows, vars, i, i, m) ensures i in candidates[i] {
      assert Prescribed(rows, candidates, p, name, i, i, vars[(i, i)]);
    }
  }

  /** Rows of multiplicity `k` are interior or carry the flag of `k`. */
  lemma BoundaryRows(rows: seq<Interaction>, candidates: seq<seq<int>>, fl: Flags, vars: MatchVars, p: int, m: Model, k: int, flags: seq<Node>)
    requires Setting(rows, candidates, fl, vars, p) && PlainModel(rows, candidates, fl, vars, p, m) && Symmetric(candidates)
    requires SelfListed(rows, candidates, vars, m)
    requires (k == 1 && flags == fl.isOutput) || (k == p - 1 && flags == fl.isInput)
    ensures WithMult(rows, k, m) == Interior(rows, candidates, fl, vars, p, k, m) + Flagged(flags, m)
    ensures Interior(rows, candidates, fl, vars, p, k, m) !! Flagged(flags, m)
  {
    forall i | 0 <= i < |rows| ensures i in Flagged(flags, m) <==> Mult(rows, i, m) == k && Partner(rows, candidates, fl, vars, p, m, i) == i {
      SelfMatched(rows, candidates, fl, vars, p, m, i);
      assert SelfOk(rows, fl, Lit(vars, |rows|, i, i), p, i, m);
    }
    SameSet(WithMult(rows, k, m), Interior(rows, candidates, fl, vars, p, k, m) + Flagged(flags, m));
  }

  /** A nonzero row is its own partner exactly when its self-match literal holds. */
  lemma SelfMatched(rows: seq<Interaction>, candidates: seq<seq<int>>, fl: Flags, vars: MatchVars, p: int, m: Model, i: int)
    requires Setting(rows, candidates, fl, vars, p) && PlainModel(rows, candidates, fl, vars, p, m) && Symmetric(candidates)
    requires 0 <= i < |rows| && SelfListed(rows, candidates, vars, m)
    ensures Partner(rows, candidates, fl, vars, p, m, i) == i <==> Matched(rows, vars, i, i, m)
  {
    if Matched(rows, vars, i, i, m) {
      PartnerUnique(rows, candidates, fl, vars, p, m, i, i);
    }
  }

  /** Conservation: what is sent plus what enters equals what is received plus what leaves, as multisets of
      records. */
  lemma Conservation(rows: seq<Interaction>, candidates: seq<seq<int>>, fl: Flags, vars: MatchVars, p: int, name: (int, int) -> string, m: Model)
    requires Setting(rows, candidates, fl, vars, p) && IsMatchVars(rows, candidates, p, name, vars) && Symmetric(candidates)
    requires PlainModel(rows, candidates, fl, vars, p, m)
    ensures Sent(rows, m) + BagOf(rows, Flagged(fl.isInput, m), m) == Received(rows, p, m) + BagOf(rows, Flagged(fl.isOutput, m), m)
  {
    BuiltVarsListSelves(rows, candidates, p, name, vars, m);
    BoundaryRows(rows, candidates, fl, vars, p, m, 1, fl.isOutput);
    BoundaryRows(rows, candidates, fl, vars, p, m, p - 1, fl.isInput);
    var sends, recvs := Interior(rows, candidates, fl, vars, p, 1, m), Interior(rows, candidates, fl, vars, p, p - 1, m);
    BagSplit(Records(rows, m), sends, Flagged(fl.isOutput, m), |rows|);
    BagSplit(Records(rows, m), recvs, Flagged(fl.isInput, m), |rows|);
    InteriorPairs(rows, candidates, fl, vars, p, m);
    CarriedBags(Records(rows, m), sends, Records(rows, m), recvs, PairMap(rows, candidates, fl, vars, p, m));
  }

  // ---- Why the candidate lists must be symmetric ----

  ghost predicate SymmetricSets(matches: seq<set<int>>) {
    forall i, j :: 0 <= i < |matches| && 0 <= j < |matches| && j in matches[i] ==> i in matches[j]
  }

  /** Ruling out a pair on both sides keeps the candidate sets symmetric. */
  function RemoveMatch(matches: seq<set<int>>, i: nat, j: nat): (r: seq<set<int>>)
    requires i < |matches| && j < |matches|
    ensures |r| == |matches| && (SymmetricSets(matches) ==> SymmetricSets(r))
    ensures j !in r[i] && i !in r[j]
  {
    var one := matches[i := matches[i] - {j}];
    one[j := one[j] - {i}]
  }

  const LOP_ROWS := [Interaction(IntConst(1), []), Interaction(IntConst(2), []), Interaction(IntConst(1), [])]
  const LOP_CANDIDATES: seq<seq<int>> := [[1], [2], [1]]
  const LOP_FLAGS := Flags([FALSE, FALSE, FALSE], [FALSE, FALSE, FALSE], [FALSE, FALSE, FALSE])
  const LOP_VARS: MatchVars :=
    map[(0, 0) := FALSE, (0, 1) := TRUE, (0, 2) := FALSE, (1, 1) := FALSE, (1, 2) := TRUE, (2, 2) := FALSE]

  /** With asymmetric lists an assignment can match one receive with two sends, and nothing is conserved. */
  lemma AsymmetricListsBreakConservation(m: Model)
    ensures Setting(LOP_ROWS, LOP_CANDIDATES, LOP_FLAGS, LOP_VARS, 3) && !Symmetric(LOP_CANDIDATES)
    ensures IsMatchVars(LOP_ROWS, LOP_CANDIDATES, 3, (i: int, j: int) => "", LOP_VARS)
    ensures PlainModel(LOP_ROWS, LOP_CANDIDATES, LOP_FLAGS, LOP_VARS, 3, m)
    ensures |Sent(LOP_ROWS, m) + BagOf(LOP_ROWS, Flagged(LOP_FLAGS.isInput, m), m)| == 2
    ensures |Received(LOP_ROWS, 3, m) + BagOf(LOP_ROWS, Flagged(LOP_FLAGS.isOutput, m), m)| == 1
  {
    LopSetting();
    LopFacts(m);
    LopMatches(m);
    LopCounts(m);
  }

  lemma LopSetting()
    ensures Setting(LOP_ROWS, LOP_CANDIDATES, LOP_FLAGS, LOP_VARS, 3) && !Symmetric(LOP_CANDIDATES)
    ensures IsMatchVars(LOP_ROWS, LOP_CANDIDATES, 3, (i: int, j: int) => "", LOP_VARS)
  {
    LopCandidates();
    LopVars();
  }

  lemma LopVars()
    ensures IsMatchVars(LOP_ROWS, LOP_CANDIDATES, 3, (i: int, j: int) => "", LOP_VARS)
  {
    assert LOP_CANDIDATES[0] == [1] && LOP_CANDIDATES[1] == [2] && LOP_CANDIDATES[2] == [1];
  }

  lemma LopCandidates()
    ensures GoodCandidates(LOP_CANDIDATES) && !Symmetric(LOP_CANDIDATES)
  {
    assert LOP_CANDIDATES[0] == [1] && LOP_CANDIDATES[1] == [2] && LOP_CANDIDATES[2] == [1];
    assert 1 in LOP_CANDIDATES[0] && 0 !in LOP_CANDIDATES[1];
  }

  lemma LopFacts(m: Model)
    requires Setting(LOP_ROWS, LOP_CANDIDATES, LOP_FLAGS, LOP_VARS, 3)
    ensures forall i :: 0 <= i < 3 ==> MultOk(LOP_ROWS, 3, i, m)
    ensures forall i :: 0 <= i < 3 ==> SelfOk(LOP_ROWS, LOP_FLAGS, Lit(LOP_VARS, 3, i, i), 3, i, m)
    ensures forall i :: 0 <= i < 3 ==> PairsOk(LOP_ROWS, LOP_CANDIDATES[i], LOP_VARS, 3, i, m)
  {
  }

  lemma LopMatches(m: Model)
    requires Setting(LOP_ROWS, LOP_CANDIDATES, LOP_FLAGS, LOP_VARS, 3)
    ensures forall i :: 0 <= i < 3 ==> OneMatch(LOP_VARS, 3, i, LOP_CANDIDATES[i], m)
  {
    forall i | 0 <= i < 3 ensures OneMatch(LOP_VARS, 3, i, LOP_CANDIDATES[i], m) {
      var fs := Literals(LOP_VARS, 3, i, LOP_CANDIDATES[i]);
      assert fs == [TRUE];
      assert fs[..0] == [];
    }
  }

  lemma LopCounts(m: Model)
    ensures |Sent(LOP_ROWS, m) + BagOf(LOP_ROWS, Flagged(LOP_FLAGS.isInput, m), m)| == 2
    ensures |Received(LOP_ROWS, 3, m) + BagOf(LOP_ROWS, Flagged(LOP_FLAGS.isOutput, m), m)| == 1
  {
    assert WithMult(LOP_ROWS, 1, m) == {0, 2};
    assert WithMult(LOP_ROWS, 2, m) == {1};
    assert Flagged(LOP_FLAGS.isInput, m) == {} && Flagged(LOP_FLAGS.isOutput, m) == {};
    BagEmpty(Records(LOP_ROWS, m), 3);
    BagOfTwo(Records(LOP_ROWS, m));
  }

  lemma BagOfTwo<T>(tags: seq<T>)
    requires |tags| == 3
    ensures |Bag(tags, {0, 2}, 3)| == 2 && |Bag(tags, {1}, 3)| == 1
  {
    BagStep(tags, {0, 2}, 3);
    BagStep(tags, {0, 2}, 2);
    BagStep(tags, {0, 2}, 1);
    BagStep(tags, {1}, 3);
    BagStep(tags, {1}, 2);
    BagStep(tags, {1}, 1);
  }
}
