/** The outcome of matching a cell is determined by its tables. */
module MatchingUnique {
  import opened Wrappers
  import opened Sets
  import opened CellMatching

  ghost predicate TimesDiffer(sends: map<int, int>) {
    forall s, t :: s in sends && t in sends && s != t ==> sends[s] != sends[t]
  }

  /** The edge at `n` serves a receive that the edges before leave unserved. */
  lemma ServesUnserved(sends: map<int, int>, recvs: map<int, int>, edges: seq<Edge>, n: nat)
    requires LatestFirst(sends, recvs, edges) && n < |edges|
    ensures Unserved(sends, recvs, edges[..n], edges[n].recv)
    ensures TakesLatest(sends, recvs, SendsOf(edges[..n]), edges[n])
  {
    assert TakesLatest(sends, recvs, SendsOf(edges[..n]), edges[n]);
    assert edges[n].send in Feeding(sends, recvs[edges[n].recv]);
    forall i | 0 <= i < n ensures edges[..n][i].recv != edges[n].recv {
      NotTwice(sends, recvs, edges, i, n);
    }
  }

  lemma NotTwice(sends: map<int, int>, recvs: map<int, int>, edges: seq<Edge>, i: nat, j: nat)
    requires LatestFirst(sends, recvs, edges) && i < j < |edges|
    ensures edges[i].recv in recvs && edges[i].recv != edges[j].recv
  {
    assert TakesLatest(sends, recvs, SendsOf(edges[..i]), edges[i]);
    assert TakesLatest(sends, recvs, SendsOf(edges[..j]), edges[j]);
    assert Earlier(sends, recvs, edges[i].recv, edges[j].recv);
  }

  /** And the first such. */
  lemma ServesFirst(sends: map<int, int>, recvs: map<int, int>, edges: seq<Edge>, n: nat, r: int)
    requires LatestFirst(sends, recvs, edges) && n < |edges| && Unserved(sends, recvs, edges[..n], r)
    ensures edges[n].recv in recvs && (edges[n].recv == r || Earlier(sends, recvs, edges[n].recv, r))
  {
    hide Earlier;
    assert TakesLatest(sends, recvs, SendsOf(edges[..n]), edges[n]);
    if r in RecvsOf(edges) {
      var i :| 0 <= i < |edges| && edges[i].recv == r;
      if i < n {
        Served(edges[..n], i);
      }
    } else {
      assert Unserved(sends, recvs, edges, r);
    }
  }

  lemma NotBothEarlier(sends: map<int, int>, recvs: map<int, int>, x: int, y: int)
    requires x in recvs && y in recvs && (x == y || Earlier(sends, recvs, x, y)) && (y == x || Earlier(sends, recvs, y, x))
    ensures x == y
  {
  }

  /** After the same edges the same edge follows. */
  lemma SameNext(sends: map<int, int>, recvs: map<int, int>, a: seq<Edge>, b: seq<Edge>, n: nat)
    requires TimesDiffer(sends) && LatestFirst(sends, recvs, a) && LatestFirst(sends, recvs, b)
    requires n < |a| && n < |b| && a[..n] == b[..n]
    ensures a[n] == b[n]
  {
    hide LatestFirst, Unserved, Earlier;
    ServesUnserved(sends, recvs, a, n);
    ServesUnserved(sends, recvs, b, n);
    ServesFirst(sends, recvs, a, n, b[n].recv);
    ServesFirst(sends, recvs, b, n, a[n].recv);
    NotBothEarlier(sends, recvs, a[n].recv, b[n].recv);
    SameChoice(sends, recvs, SendsOf(a[..n]), a[n], b[n]);
  }

  lemma SameChoice(sends: map<int, int>, recvs: map<int, int>, before: set<int>, e: Edge, f: Edge)
    requires TimesDiffer(sends) && TakesLatest(sends, recvs, before, e) && TakesLatest(sends, recvs, before, f) && e.recv == f.recv
    ensures e == f
  {
    assert e.send != f.send ==> e.time != f.time;
  }

  lemma {:induction false} SamePrefix(sends: map<int, int>, recvs: map<int, int>, a: seq<Edge>, b: seq<Edge>, n: nat)
    requires TimesDiffer(sends) && LatestFirst(sends, recvs, a) && LatestFirst(sends, recvs, b)
    requires n <= |a| && n <= |b|
    ensures a[..n] == b[..n]
  {
    hide LatestFirst, TimesDiffer;
    if n > 0 {
      SamePrefix(sends, recvs, a, b, n - 1);
      SameNext(sends, recvs, a, b, n - 1);
      assert a[..n] == a[..n - 1] + [a[n - 1]] && b[..n] == b[..n - 1] + [b[n - 1]];
    }
  }

  lemma StuckIsFirst(sends: map<int, int>, recvs: map<int, int>, edges: seq<Edge>, r: int, x: int)
    requires StuckAt(sends, recvs, edges, r) && Unserved(sends, recvs, edges, x)
    ensures r in recvs && x in recvs && (x == r || Earlier(sends, recvs, r, x))
  {
  }

  /** A receive without a send left ends the choice. */
  lemma StuckEnds(sends: map<int, int>, recvs: map<int, int>, a: seq<Edge>, b: seq<Edge>, r: int)
    requires TimesDiffer(sends) && LatestFirst(sends, recvs, a) && LatestFirst(sends, recvs, b) && StuckAt(sends, recvs, a, r)
    ensures |b| <= |a|
  {
    hide LatestFirst, Unserved, Earlier;
    var n := |a|;
    if n < |b| {
      SamePrefix(sends, recvs, a, b, n);
      assert a[..n] == a;
      ServesUnserved(sends, recvs, b, n);
      ServesFirst(sends, recvs, b, n, r);
      StuckIsFirst(sends, recvs, a, r, b[n].recv);
      NotBothEarlier(sends, recvs, r, b[n].recv);
    }
  }

  /** A complete choice serves every receive there is to serve. */
  lemma CompleteEnds(sends: map<int, int>, recvs: map<int, int>, a: CellMatch, b: CellMatch)
    requires TimesDiffer(sends) && Correct(sends, recvs, a) && Correct(sends, recvs, b) && a.note.Clean? && b.note.Clean?
    ensures |b.edges| <= |a.edges|
  {
    hide LatestFirst, Unserved, TakesLatest, Describes, OnlySolution, ReadersOf, Boundary, RecvsOf;
    var n := |a.edges|;
    if n < |b.edges| {
      SamePrefix(sends, recvs, a.edges, b.edges, n);
      assert a.edges[..n] == a.edges;
      Served(b.edges, n);
      ServesUnserved(sends, recvs, b.edges, n);
      NotServed(sends, recvs, a.edges, b.edges[n].recv);
      OneInput(sends, recvs, a, b);
    }
  }

  lemma NotServed(sends: map<int, int>, recvs: map<int, int>, edges: seq<Edge>, r: int)
    requires Unserved(sends, recvs, edges, r)
    ensures r !in RecvsOf(edges)
  {
  }

  lemma OneInput(sends: map<int, int>, recvs: map<int, int>, a: CellMatch, b: CellMatch)
    requires Correct(sends, recvs, a) && Correct(sends, recvs, b) && a.note.Clean? && b.note.Clean?
    ensures a.input == b.input && RecvsOf(a.edges) == RecvsOf(b.edges)
  {
    var x := AloneIn(Boundary(sends, recvs));
    assert Reading(a.edges).Keys == RecvsOf(a.edges) && Reading(b.edges).Keys == RecvsOf(b.edges);
  }

  lemma AloneIn(s: set<int>) returns (x: int)
    requires |s| == 1
    ensures s == {x}
  {
    x := Pick(s);
    OnlyElement(s, x);
  }

  lemma SameReaders(edges: seq<Edge>, a: map<int, seq<int>>, b: map<int, seq<int>>)
    requires ReadersOf(edges, a) && ReadersOf(edges, b)
    ensures a == b
  {
    forall s | s in a.Keys ensures s in b && b[s] == a[s] {
      var j :| 0 <= j < |edges| && edges[j].send == s;
    }
    forall s | s in b.Keys ensures s in a {
      var j :| 0 <= j < |edges| && edges[j].send == s;
    }
    SameMap(a, b);
  }

  /** Main result on the matching: with one write at a time, note, uniqueness, edges, readers, input and output are all
      determined by the virtual times and thresholds. */
  lemma OutcomeIsDetermined(sends: map<int, int>, recvs: map<int, int>, a: CellMatch, b: CellMatch)
    requires TimesDiffer(sends) && Correct(sends, recvs, a) && Correct(sends, recvs, b)
    ensures a == b
  {
    hide LatestFirst, StuckAt, ReadersOf, Describes, OnlySolution, Solvable, Boundary;
    SameNote(sends, recvs, a, b);
    if a.note.Infeasible? {
      var r :| StuckAt(sends, recvs, a.edges, r);
      var r' :| StuckAt(sends, recvs, b.edges, r');
      StuckEnds(sends, recvs, a.edges, b.edges, r);
      StuckEnds(sends, recvs, b.edges, a.edges, r');
      SameEdges(sends, recvs, a, b);
    } else if a.note.Clean? {
      CompleteEnds(sends, recvs, a, b);
      CompleteEnds(sends, recvs, b, a);
      SameEdges(sends, recvs, a, b);
      SameEnds(sends, recvs, a, b);
    }
  }

  lemma SameNote(sends: map<int, int>, recvs: map<int, int>, a: CellMatch, b: CellMatch)
    requires Correct(sends, recvs, a) && Correct(sends, recvs, b)
    ensures a.note == b.note
  {
    hide ChosenInOrder, Describes, OnlySolution;
    match a.note
    case Clean =>
      assert b.note != Unbalanced && b.note != NoSingleInput && b.note != Infeasible;
    case _ =>
  }

  lemma SameEdges(sends: map<int, int>, recvs: map<int, int>, a: CellMatch, b: CellMatch)
    requires TimesDiffer(sends) && LatestFirst(sends, recvs, a.edges) && LatestFirst(sends, recvs, b.edges)
    requires |a.edges| == |b.edges| && ReadersOf(a.edges, a.readBy) && ReadersOf(b.edges, b.readBy)
    ensures a.edges == b.edges && a.readBy == b.readBy
  {
    SamePrefix(sends, recvs, a.edges, b.edges, |a.edges|);
    assert a.edges[..|a.edges|] == a.edges && b.edges[..|b.edges|] == b.edges;
    SameReaders(a.edges, a.readBy, b.readBy);
  }

  lemma SameEnds(sends: map<int, int>, recvs: map<int, int>, a: CellMatch, b: CellMatch)
    requires Correct(sends, recvs, a) && Correct(sends, recvs, b) && a.note.Clean? && b.note.Clean? && a.edges == b.edges
    ensures a.input == b.input && a.output == b.output && a.unique == b.unique
  {
    hide ChosenInOrder, IsSolution, EdgesMatch;
    OneInput(sends, recvs, a, b);
    var left := sends.Keys - Reading(a.edges).Values;
    assert a.output.value in left && b.output.value in left;
  }
}
