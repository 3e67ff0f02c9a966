/** The alignment of one address space: cross-match, self-balance check, and the counts it reports. */
module AlignSpaces {
  import opened Wrappers
  import opened Sets
  import opened MemoryWorlds
  import opened SolvedRows
  import opened Removal
  import opened SafeAlignment
  import opened Align

  datatype Alignment = Alignment(kept: map<int, int>, removed: set<int>, localPairs: nat, inert: nat)

  datatype Outcome = Rejected | Aligned(a: Alignment)

  /** What solving the space before the pass reported. */
  datatype Space = Space(view: map<int, SolvedRow>, unique: bool)

  /** The solution covers exactly the active rows and agrees on their direction. */
  ghost predicate Fits(before: seq<BusRow>, view: map<int, SolvedRow>) {
    forall b :: b in before ==> (
      && (b.ord in view <==> !b.effect.Disabled?)
      && (b.ord in view ==> (view[b.ord].kind.Recv? <==> b.effect.Receives?)))
  }

  ghost predicate ActiveRemoved(before: seq<BusRow>, removed: set<int>) {
    exists b :: b in before && b.ord in removed && !b.effect.Disabled?
  }

  /** The removal is justified: nothing active went, or a usable solution pairs all of it off. */
  ghost predicate Acceptable(firstSpace: bool, before: seq<BusRow>, removed: set<int>, solved: Option<Space>) {
    (!firstSpace && !ActiveRemoved(before, removed))
    || (solved.Some? && (firstSpace ==> solved.value.unique) && Balanced(removed, solved.value.view))
  }

  /** Some row after the pass matches nothing before it. */
  ghost predicate Added(before: seq<BusRow>, after: seq<BusRow>) {
    exists a :: a in after && forall b :: !Partner(before, after, b, a)
  }

  lemma AddedIff(before: seq<BusRow>, after: seq<BusRow>, kept: map<int, int>, added: seq<int>)
    requires DistinctRows(after) && KeptOf(before, after, kept)
    requires forall o :: o in added <==> o in Ordinals(after) && o !in kept.Values
    ensures Added(before, after) <==> added != []
  {
    forall a | a in after ensures a.ord in kept.Values <==> exists b :: Partner(before, after, b, a) {
      if a.ord in kept.Values {
        var o := KeyOf(kept, a.ord);
        var b, a' :| Partner(before, after, b, a') && b.ord == o && a'.ord == kept[o];
        SameOrdSameRow(after, a, a');
      }
      if exists b :: Partner(before, after, b, a) {
        var b :| Partner(before, after, b, a);
        ValueOf(kept, b.ord);
      }
    }
    if Added(before, after) {
      var a :| a in after && forall b :: !Partner(before, after, b, a);
      assert a.ord in added;
    }
    if added != [] {
      var o := added[0];
      assert o in added;
      var a :| a in after && a.ord == o;
    }
  }

  function Inert(rows: seq<BusRow>, removed: set<int>): (n: nat)
    ensures n <= |rows|
  {
    if rows == [] then 0
    else
      var last := rows[|rows| - 1];
      Inert(rows[..|rows| - 1], removed) + (if last.effect.Disabled? && last.ord in removed then 1 else 0)
  }

  ghost function InertRows(rows: seq<BusRow>, removed: set<int>): set<int> {
    set b | b in rows && b.effect.Disabled? && b.ord in removed :: b.ord
  }

  lemma {:induction false} InertCounts(rows: seq<BusRow>, removed: set<int>)
    requires DistinctRows(rows)
    ensures Inert(rows, removed) == |InertRows(rows, removed)|
  {
    if rows != [] {
      var n := |rows| - 1;
      InertCounts(rows[..n], removed);
      assert rows == rows[..n] + [rows[n]];
      InertSnoc(rows[..n], rows[n], removed);
    }
  }

  lemma InertSnoc(rows: seq<BusRow>, b: BusRow, removed: set<int>)
    requires forall x :: x in rows ==> x.ord != b.ord
    ensures b.ord !in InertRows(rows, removed)
    ensures InertRows(rows + [b], removed) == InertRows(rows, removed) + (if b.effect.Disabled? && b.ord in removed then {b.ord} else {})
  {
  }

  predicate CountsAsPair(view: map<int, SolvedRow>, removed: set<int>, b: BusRow) {
    b.ord in removed && b.ord in view && view[b.ord].kind.Recv? && view[b.ord].forced && !view[b.ord].io.Entry?
  }

  /** One count per removed receive that reads a local send. */
  method CountPairs(before: seq<BusRow>, removed: set<int>, view: map<int, SolvedRow>) returns (n: nat)
    requires DistinctRows(before) && Fits(before, view) && Balanced(removed, view)
    requires removed <= Ordinals(before)
    ensures n == |RemovedOf(Recv, removed, view)|
  {
    hide PairsIn, CountsAsPair, RemovedOf, Fits, Balanced;
    n := 0;
    ghost var seen: set<int> := {};
    NoPairs(removed, view);
    for i := 0 to |before|
      invariant n == |seen|
      invariant seen == PairsIn(before[..i], removed, view)
    {
      var b := before[i];
      assert before[..i + 1] == before[..i] + [b];
      assert forall x :: x in before[..i] ==> x.ord != b.ord;
      PairsSnoc(before[..i], removed, view, b);
      if CountsAsPair(view, removed, b) {
        n := n + 1;
        seen := seen + {b.ord};
      }
    }
    assert before[..|before|] == before;
    AllPairsCounted(before, removed, view);
  }

  ghost function PairsIn(rows: seq<BusRow>, removed: set<int>, view: map<int, SolvedRow>): set<int> {
    set b | b in rows && CountsAsPair(view, removed, b) :: b.ord
  }

  lemma NoPairs(removed: set<int>, view: map<int, SolvedRow>)
    ensures PairsIn([], removed, view) == {}
  {
  }

  lemma PairsSnoc(rows: seq<BusRow>, removed: set<int>, view: map<int, SolvedRow>, b: BusRow)
    requires forall x :: x in rows ==> x.ord != b.ord
    ensures PairsIn(rows + [b], removed, view) == PairsIn(rows, removed, view) + (if CountsAsPair(view, removed, b) then {b.ord} else {})
    ensures b.ord !in PairsIn(rows, removed, view)
  {
  }

  lemma AllPairsCounted(before: seq<BusRow>, removed: set<int>, view: map<int, SolvedRow>)
    requires Balanced(removed, view) && removed <= Ordinals(before)
    ensures PairsIn(before, removed, view) == RemovedOf(Recv, removed, view)
  {
    forall o | o in RemovedOf(Recv, removed, view) ensures o in PairsIn(before, removed, view) {
      assert o in Ordinals(before);
      var b :| b in before && b.ord == o;
      assert Justified(removed, view[o]);
    }
    forall o | o in PairsIn(before, removed, view) ensures o in RemovedOf(Recv, removed, view) {
    }
    SameSet(PairsIn(before, removed, view), RemovedOf(Recv, removed, view));
  }

  /** Aligns one address space before and after a removal pass. */
  method Compute(firstSpace: bool, before: seq<BusRow>, after: seq<BusRow>, solved: Option<Space>) returns (r: Outcome)
    requires DistinctRows(before) && DistinctRows(after)
    requires solved.Some? ==> Fits(before, solved.value.view)
    ensures r.Rejected? <==>
      || before == [] || Ambiguous(before, after) || Added(before, after)
      || exists kept :: KeptOf(before, after, kept) && !Acceptable(firstSpace, before, Ordinals(before) - kept.Keys, solved)
    ensures r.Aligned? ==> KeptOf(before, after, r.a.kept) && r.a.removed == Ordinals(before) - r.a.kept.Keys
    ensures r.Aligned? ==> r.a.inert == |InertRows(before, r.a.removed)|
    ensures r.Aligned? && (firstSpace || ActiveRemoved(before, r.a.removed)) ==>
      solved.Some? && r.a.localPairs == |RemovedOf(Recv, r.a.removed, solved.value.view)|
  {
    if before == [] {
      return Rejected;
    }
    var m := CrossMatch(before, after);
    if m.Unclear? {
      return Rejected;
    }
    var kept, removed := m.kept, m.removed;
    AddedIff(before, after, kept, m.added);
    if m.added != [] {
      return Rejected;
    }
    InertCounts(before, removed);
    KeptUnique(before, after, kept);
    if !firstSpace && (forall b :: b in before ==> b.ord !in removed || b.effect.Disabled?) {
      return Aligned(Alignment(kept, removed, 0, Inert(before, removed)));
    }
    if solved.None? || (firstSpace && !solved.value.unique) {
      return Rejected;
    }
    var ok := SelfBalances(removed, solved.value.view);
    if !ok {
      return Rejected;
    }
    var pairs := CountPairs(before, removed, solved.value.view);
    r := Aligned(Alignment(kept, removed, pairs, Inert(before, removed)));
  }

  lemma KeptUnique(before: seq<BusRow>, after: seq<BusRow>, kept: map<int, int>)
    requires KeptOf(before, after, kept)
    ensures forall k :: KeptOf(before, after, k) ==> k.Keys == kept.Keys
  {
    forall k | KeptOf(before, after, k) ensures k.Keys == kept.Keys {
      KeptWithin(before, after, kept, k);
      KeptWithin(before, after, k, kept);
    }
  }

  lemma KeptWithin(before: seq<BusRow>, after: seq<BusRow>, x: map<int, int>, y: map<int, int>)
    requires KeptOf(before, after, x) && KeptOf(before, after, y)
    ensures x.Keys <= y.Keys
  {
    forall o | o in x ensures o in y {
      var b, a :| Partner(before, after, b, a) && b.ord == o && a.ord == x[o];
    }
  }
}
