/** Accepting a removal: every removed interaction pairs off with a removed partner, and what is left
    behaves as before. */
module Removal {
  import opened Wrappers
  import opened Sets
  import opened Rows
  import opened CellMatching
  import opened CellChain
  import opened MemoryWorlds
  import opened Forcing
  import opened SymbolicSolve
  import opened SolvedRows

  // ---- The self-balance check ----

  /** A removed row stands on a forced local connection to a removed partner. */
  predicate Justified(removed: set<int>, row: SolvedRow) {
    && row.forced
    && if row.kind.Recv? then !row.io.Entry? && row.readsFrom.Some? && row.readsFrom.value in removed
       else !row.io.Exit? && row.readBy != [] && forall i :: 0 <= i < |row.readBy| ==> row.readBy[i] in removed
  }

  /** Rows outside `view` are inert. */
  ghost predicate Balanced(removed: set<int>, view: map<int, SolvedRow>) {
    forall o :: o in removed && o in view ==> Justified(removed, view[o])
  }

  method SelfBalances(removed: set<int>, view: map<int, SolvedRow>) returns (ok: bool)
    ensures ok <==> Balanced(removed, view)
  {
    var todo := removed;
    while todo != {}
      invariant todo <= removed
      invariant Balanced2(removed, removed - todo, view)
      decreases |todo|
    {
      var o := AnyOf(todo);
      if o in view && !Justified(removed, view[o]) {
        assert o in removed;
        ok := false;
        return;
      }
      Balanced2Step(removed, removed - todo, view, o);
      assert removed - (todo - {o}) == (removed - todo) + {o};
      todo := todo - {o};
    }
    assert removed - todo == removed;
    ok := true;
  }

  ghost predicate Balanced2(removed: set<int>, done: set<int>, view: map<int, SolvedRow>) {
    forall o :: o in done && o in view ==> Justified(removed, view[o])
  }

  lemma Balanced2Step(removed: set<int>, done: set<int>, view: map<int, SolvedRow>, o: int)
    requires Balanced2(removed, done, view) && (o in view ==> Justified(removed, view[o]))
    ensures Balanced2(removed, done + {o}, view)
  {
  }

  // ---- Removed pairs of one cell ----

  /** In one cell the removed receives read exactly the removed sends, by forced edges. */
  ghost predicate PairedOff(sends: map<int, int>, recvs: map<int, int>, c: CellMatch, f: map<Claim, bool>, removed: set<int>) {
    && (forall r :: r in recvs && r in removed ==> (
          && c.note.Clean? && r in Reading(c.edges) && Reading(c.edges)[r] in removed
          && Says(f, EdgeClaim(r, Reading(c.edges)[r]))))
    && (forall s :: s in sends && s in removed ==> c.note.Clean? && s in Reading(c.edges).Values)
    && (c.note.Clean? ==> forall r :: r in Reading(c.edges) && Reading(c.edges)[r] in removed ==> r in removed)
  }

  lemma ReadsOwnSends(sends: map<int, int>, recvs: map<int, int>, c: CellMatch)
    requires Correct(sends, recvs, c) && c.note.Clean?
    ensures forall r :: r in Reading(c.edges) ==> Reading(c.edges)[r] in sends
  {
  }

  lemma CellPairsOff(sends: seq<Timed>, recvs: seq<Timed>, c: CellMatch, f: map<Claim, bool>, view: map<int, SolvedRow>, removed: set<int>)
    requires DistinctOrds(sends) && DistinctOrds(recvs) && Correct(Table(sends), Table(recvs), c)
    requires AllTell(c, f, Send, sends, view) && AllTell(c, f, Recv, recvs, view) && Balanced(removed, view)
    ensures PairedOff(Table(sends), Table(recvs), c, f, removed)
  {
    hide Correct;
    forall r | r in Table(recvs) && r in removed
      ensures c.note.Clean? && r in Reading(c.edges) && Reading(c.edges)[r] in removed && Says(f, EdgeClaim(r, Reading(c.edges)[r]))
    {
      var i :| 0 <= i < |recvs| && recvs[i].ord == r;
      assert Tells(c, f, Recv, r, view[r]);
    }
    forall s | s in Table(sends) && s in removed ensures c.note.Clean? && SendPairsOff(c, removed, s) {
      var i :| 0 <= i < |sends| && sends[i].ord == s;
      assert Tells(c, f, Send, s, view[s]);
      SendJustified(Table(sends), Table(recvs), c, f, view[s], removed, s);
    }
    if c.note.Clean? {
      ReadsOwnSends(Table(sends), Table(recvs), c);
      forall r | r in Reading(c.edges) && Reading(c.edges)[r] in removed ensures r in removed {
        assert SendPairsOff(c, removed, Reading(c.edges)[r]);
      }
    }
  }

  ghost predicate SendPairsOff(c: CellMatch, removed: set<int>, s: int) {
    s in Reading(c.edges).Values && forall r :: r in Reading(c.edges) && Reading(c.edges)[r] == s ==> r in removed
  }

  lemma SendJustified(sends: map<int, int>, recvs: map<int, int>, c: CellMatch, f: map<Claim, bool>, row: SolvedRow, removed: set<int>, s: int)
    requires Correct(sends, recvs, c) && s in sends && Tells(c, f, Send, s, row) && Justified(removed, row)
    ensures c.note.Clean? && SendPairsOff(c, removed, s)
  {
    var m := Reading(c.edges);
    assert s in c.readBy;
    forall r | r in m && m[r] == s ensures r in removed {
      assert row.readBy == [r];
      assert row.readBy[0] in removed;
    }
  }

  /** And only so: where a cell's removed receives read exactly its removed sends by forced edges, the check accepts
      every removed row of the cell. */
  lemma PairedOffBalances(sends: seq<Timed>, recvs: seq<Timed>, c: CellMatch, f: map<Claim, bool>, view: map<int, SolvedRow>, removed: set<int>)
    requires DistinctOrds(sends) && DistinctOrds(recvs) && Correct(Table(sends), Table(recvs), c)
    requires AllTell(c, f, Send, sends, view) && AllTell(c, f, Recv, recvs, view)
    requires PairedOff(Table(sends), Table(recvs), c, f, removed)
    ensures forall o :: o in RowNumbers(sends) + RowNumbers(recvs) && o in removed ==> o in view && Justified(removed, view[o])
  {
    hide Correct, Tells, Justified, Says, PairedOff;
    forall r | r in RowNumbers(recvs) && r in removed ensures r in view && Justified(removed, view[r]) {
      var i :| 0 <= i < |recvs| && recvs[i].ord == r;
      ReceiveBalances(Table(sends), Table(recvs), c, f, view[r], removed, r);
    }
    forall s | s in RowNumbers(sends) && s in removed ensures s in view && Justified(removed, view[s]) {
      var i :| 0 <= i < |sends| && sends[i].ord == s;
      SendBalances(Table(sends), Table(recvs), c, f, view[s], removed, s);
    }
  }

  lemma ReceiveBalances(sends: map<int, int>, recvs: map<int, int>, c: CellMatch, f: map<Claim, bool>, row: SolvedRow, removed: set<int>, r: int)
    requires Correct(sends, recvs, c) && PairedOff(sends, recvs, c, f, removed)
    requires r in recvs && r in removed && Tells(c, f, Recv, r, row)
    ensures Justified(removed, row)
  {
    hide Correct;
    ReadIsNoBoundary(sends, recvs, c, r);
  }

  lemma SendBalances(sends: map<int, int>, recvs: map<int, int>, c: CellMatch, f: map<Claim, bool>, row: SolvedRow, removed: set<int>, s: int)
    requires Correct(sends, recvs, c) && PairedOff(sends, recvs, c, f, removed)
    requires s in sends && s in removed && Tells(c, f, Send, s, row)
    ensures Justified(removed, row)
  {
    hide Correct;
    var r := KeyOf(Reading(c.edges), s);
    ReadIsNoBoundary(sends, recvs, c, r);
  }

  /** An edge joins neither boundary, and its send has that one reader. */
  lemma ReadIsNoBoundary(sends: map<int, int>, recvs: map<int, int>, c: CellMatch, r: int)
    requires Correct(sends, recvs, c) && c.note.Clean? && r in Reading(c.edges)
    ensures r in recvs && c.input != Some(r) && c.output != Some(Reading(c.edges)[r])
    ensures ReadersOfSend(c, Reading(c.edges)[r]) == [r]
  {
  }

  // ---- Matching the survivors of a unique cell again ----

  function Minus(t: map<int, int>, removed: set<int>): map<int, int> {
    map o | o in t && o !in removed :: t[o]
  }

  lemma SurvivorsSolve(sends: map<int, int>, recvs: map<int, int>, b: int, m: map<int, int>, removed: set<int>)
    requires IsSolution(sends, recvs, b, m) && b !in removed
    requires forall r :: r in m ==> (m[r] in removed <==> r in removed)
    ensures IsSolution(Minus(sends, removed), Minus(recvs, removed), b, Minus(m, removed))
  {
    var m' := Minus(m, removed);
    SameSet(m'.Keys, Minus(recvs, removed).Keys - {b});
  }

  /** Any matching of the survivors, with the removed pairs put back, solves the whole cell. */
  lemma PutBack(sends: map<int, int>, recvs: map<int, int>, b: int, m: map<int, int>, removed: set<int>, n: map<int, int>)
    requires IsSolution(sends, recvs, b, m) && b !in removed
    requires forall r :: r in m ==> (m[r] in removed <==> r in removed)
    requires IsSolution(Minus(sends, removed), Minus(recvs, removed), b, n)
    ensures IsSolution(sends, recvs, b, Merge(m, n, removed))
    ensures Minus(Merge(m, n, removed), removed) == n
  {
    var whole := Merge(m, n, removed);
    SameSet(whole.Keys, recvs.Keys - {b});
    forall r | r in whole ensures whole[r] in sends && sends[whole[r]] <= recvs[r] {
      assert r in n ==> n[r] in Minus(sends, removed);
    }
    forall r, r' | r in whole && r' in whole && r != r' ensures whole[r] != whole[r'] {
      MergeDiffers(sends, recvs, b, m, removed, n, r, r');
    }
    SameMap(Minus(whole, removed), n);
  }

  ghost function Merge(m: map<int, int>, n: map<int, int>, removed: set<int>): (w: map<int, int>)
    ensures forall r :: r in w <==> r in n || (r in m && r in removed)
    ensures forall r :: r in w ==> w[r] == if r in n then n[r] else m[r]
  {
    (map r | r in m && r in removed :: m[r]) + n
  }

  lemma MergeDiffers(sends: map<int, int>, recvs: map<int, int>, b: int, m: map<int, int>, removed: set<int>, n: map<int, int>, r: int, r': int)
    requires IsSolution(sends, recvs, b, m)
    requires forall r :: r in m ==> (m[r] in removed <==> r in removed)
    requires IsSolution(Minus(sends, removed), Minus(recvs, removed), b, n)
    requires r in Merge(m, n, removed) && r' in Merge(m, n, removed) && r != r'
    ensures Merge(m, n, removed)[r] != Merge(m, n, removed)[r']
  {
    assert r in n ==> n[r] in Minus(sends, removed);
    assert r' in n ==> n[r'] in Minus(sends, removed);
  }

  lemma SurvivorsBoundary(sends: map<int, int>, recvs: map<int, int>, b: int, m: map<int, int>, removed: set<int>)
    requires IsSolution(sends, recvs, b, m) && b !in removed && b in CellMatching.Boundary(sends, recvs)
    requires forall r :: r in m ==> (m[r] in removed <==> r in removed)
    ensures CellMatching.Boundary(Minus(sends, removed), Minus(recvs, removed)) == {b}
  {
    var S, R := Minus(sends, removed), Minus(recvs, removed);
    forall r | r in R && r != b ensures r !in CellMatching.Boundary(S, R) {
      NotBoundary(S, R, r, m[r]);
    }
    SameSet(CellMatching.Boundary(S, R), {b});
  }

  lemma SurvivorsBalanced(sends: map<int, int>, recvs: map<int, int>, b: int, out: int, m: map<int, int>, removed: set<int>)
    requires IsSolution(sends, recvs, b, m) && b !in removed && out !in removed && sends.Keys - m.Values == {out}
    requires forall r :: r in m ==> (m[r] in removed <==> r in removed)
    ensures Minus(sends, removed).Keys - Minus(m, removed).Values == {out}
    ensures |Minus(sends, removed)| == |Minus(recvs, removed)|
  {
    var S, R, m' := Minus(sends, removed), Minus(recvs, removed), Minus(m, removed);
    SurvivorsSolve(sends, recvs, b, m, removed);
    assert out in sends.Keys - m.Values;
    forall s | s in S.Keys && s != out ensures s in m'.Values {
      SurvivorRead(sends, m, out, removed, s);
    }
    forall s | s in m'.Values ensures s in S.Keys && s != out {
      var r := KeyOf(m', s);
      ValueOf(m, r);
    }
    SameSet(S.Keys - m'.Values, {out});
    InjectiveSize(m');
    SameSet(S.Keys, m'.Values + {out});
    SameSet(R.Keys, m'.Keys + {b});
    assert |S| == |S.Keys| && |R| == |R.Keys|;
  }

  lemma SurvivorRead(sends: map<int, int>, m: map<int, int>, out: int, removed: set<int>, s: int)
    requires s in sends && s !in removed && s != out && sends.Keys - m.Values == {out}
    requires forall r :: r in m ==> (m[r] in removed <==> r in removed)
    ensures s in Minus(m, removed).Values
  {
    assert s !in sends.Keys - m.Values;
    var r := KeyOf(m, s);
    ValueOf(Minus(m, removed), r);
  }

  /** Matching the survivors of a unique cell again gives a unique matching with the same input, the same
      output and exactly the surviving edges. */
  lemma SurvivorsRematch(sends: map<int, int>, recvs: map<int, int>, c: CellMatch, f: map<Claim, bool>, removed: set<int>, again: CellMatch)
    requires Correct(sends, recvs, c) && c.note.Clean? && c.unique && PairedOff(sends, recvs, c, f, removed)
    requires Correct(Minus(sends, removed), Minus(recvs, removed), again)
    ensures again.note.Clean? && again.unique && again.input == c.input && again.output == c.output
    ensures Reading(again.edges) == Minus(Reading(c.edges), removed)
  {
    var S, R, b, out, m := Minus(sends, removed), Minus(recvs, removed), c.input.value, c.output.value, Reading(c.edges);
    PairsAreRemoved(sends, recvs, c, f, removed);
    SurvivorsSolve(sends, recvs, b, m, removed);
    SurvivorsBoundary(sends, recvs, b, m, removed);
    SurvivorsBalanced(sends, recvs, b, out, m, removed);
    assert Solvable(S, R);
    assert again.note.Clean?;
    SurvivorsOnly(sends, recvs, b, m, removed);
    assert OnlySolution(S, R, b, Minus(m, removed));
    assert Reading(again.edges) == Minus(m, removed);
    assert again.output == Some(out) by {
      assert S.Keys - Minus(m, removed).Values == {out};
      assert {again.output.value} == {out};
      assert again.output.value in {out};
    }
  }

  lemma PairsAreRemoved(sends: map<int, int>, recvs: map<int, int>, c: CellMatch, f: map<Claim, bool>, removed: set<int>)
    requires Correct(sends, recvs, c) && c.note.Clean? && PairedOff(sends, recvs, c, f, removed)
    ensures c.input.value !in removed && c.output.value !in removed
    ensures var m := Reading(c.edges); forall r :: r in m ==> (m[r] in removed <==> r in removed)
  {
    BoundariesStay(sends, recvs, c.input.value, c.output.value, Reading(c.edges), removed);
  }

  lemma BoundariesStay(sends: map<int, int>, recvs: map<int, int>, b: int, out: int, m: map<int, int>, removed: set<int>)
    requires IsSolution(sends, recvs, b, m) && sends.Keys - m.Values == {out}
    requires forall r :: r in recvs && r in removed ==> r in m && m[r] in removed
    requires forall s :: s in sends && s in removed ==> s in m.Values
    requires forall r :: r in m && m[r] in removed ==> r in removed
    ensures b !in removed && out !in removed
    ensures forall r :: r in m ==> (m[r] in removed <==> r in removed)
  {
    assert out in sends.Keys - m.Values;
    forall r | r in m && r in removed ensures m[r] in removed {
      assert r in m.Keys;
    }
  }

  lemma SurvivorsOnly(sends: map<int, int>, recvs: map<int, int>, b: int, m: map<int, int>, removed: set<int>)
    requires OnlySolution(sends, recvs, b, m) && b !in removed && b in CellMatching.Boundary(sends, recvs)
    requires forall r :: r in m ==> (m[r] in removed <==> r in removed)
    ensures OnlySolution(Minus(sends, removed), Minus(recvs, removed), b, Minus(m, removed))
  {
    var S, R := Minus(sends, removed), Minus(recvs, removed);
    SurvivorsSolve(sends, recvs, b, m, removed);
    SurvivorsBoundary(sends, recvs, b, m, removed);
    forall input, n | IsSolution(S, R, input, n) ensures input == b && n == Minus(m, removed) {
      BoundaryIsInput(S, R, b, input, n);
      PutBack(sends, recvs, b, m, removed, n);
    }
  }
}
