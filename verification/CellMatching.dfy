/** Matching one memory cell: the prefix-interval algorithm and its exactness. */
module CellMatching {
  import opened Wrappers
  import opened Rows
  import opened PrefixAssignment
  import opened Sets

  datatype Note = Clean | Unbalanced | NoSingleInput | Infeasible

  datatype Edge = Edge(recv: int, send: int, time: int)

  datatype CellMatch = CellMatch(
    note: Note, unique: bool, edges: seq<Edge>, readBy: map<int, seq<int>>,
    input: Option<int>, output: Option<int>)

  // ---- What a solution of a cell is, independently of the algorithm ----

  ghost predicate Injective(m: map<int, int>) {
    forall r, r' :: r in m && r' in m && r != r' ==> m[r] != m[r']
  }

  /** `input` reads the entry value, every other receive its own send at or below its threshold. */
  ghost predicate IsSolution(sends: map<int, int>, recvs: map<int, int>, input: int, m: map<int, int>) {
    && input in recvs
    && m.Keys == recvs.Keys - {input}
    && (forall r :: r in m ==> m[r] in sends && sends[m[r]] <= recvs[r])
    && Injective(m)
  }

  /** Receives that no send of the cell can feed. */
  ghost function Boundary(sends: map<int, int>, recvs: map<int, int>): set<int> {
    set r | r in recvs && forall s :: s in sends ==> sends[s] > recvs[r]
  }

  ghost predicate Solvable(sends: map<int, int>, recvs: map<int, int>) {
    exists input, m :: IsSolution(sends, recvs, input, m)
  }

  ghost predicate OnlySolution(sends: map<int, int>, recvs: map<int, int>, input: int, m: map<int, int>) {
    && IsSolution(sends, recvs, input, m)
    && forall input', m' :: IsSolution(sends, recvs, input', m') ==> input' == input && m' == m
  }

  function Reading(edges: seq<Edge>): (m: map<int, int>)
    ensures m.Keys == set i | 0 <= i < |edges| :: edges[i].recv
  {
    if edges == [] then map[]
    else
      var n := |edges| - 1;
      assert forall i :: 0 <= i < n ==> edges[..n][i] == edges[i];
      Reading(edges[..n])[edges[n].recv := edges[n].send]
  }

  ghost predicate EdgesMatch(sends: map<int, int>, edges: seq<Edge>, m: map<int, int>) {
    forall e :: e in edges ==> e.recv in m && m[e.recv] == e.send && e.send in sends && sends[e.send] == e.time
  }

  /** The outcome is sound for the cell: a solution, its readers and the one send that escapes. */
  ghost predicate DescribesReading(sends: map<int, int>, recvs: map<int, int>, c: CellMatch, m: map<int, int>) {
    && c.input.Some?
    && IsSolution(sends, recvs, c.input.value, m)
    && EdgesMatch(sends, c.edges, m)
    && c.readBy.Keys == m.Values
    && (forall r :: r in m ==> m[r] in c.readBy && c.readBy[m[r]] == [r])
    && c.output.Some?
    && sends.Keys - m.Values == {c.output.value}
  }

  ghost predicate Describes(sends: map<int, int>, recvs: map<int, int>, c: CellMatch) {
    DescribesReading(sends, recvs, c, Reading(c.edges))
  }

  // ---- Which solution: the latest free send, receives in order ----

  /** The sends at or below a threshold. */
  ghost function Feeding(sends: map<int, int>, threshold: int): set<int> {
    set s | s in sends && sends[s] <= threshold
  }

  /** Fewer sends to choose from, or as many and the smaller ordinal. */
  ghost predicate Earlier(sends: map<int, int>, recvs: map<int, int>, x: int, y: int)
    requires x in recvs && y in recvs
  {
    var m, n := |Feeding(sends, recvs[x])|, |Feeding(sends, recvs[y])|;
    m < n || (m == n && x < y)
  }

  ghost function SendsOf(edges: seq<Edge>): set<int> {
    set i | 0 <= i < |edges| :: edges[i].send
  }

  ghost function RecvsOf(edges: seq<Edge>): set<int> {
    set i | 0 <= i < |edges| :: edges[i].recv
  }

  /** The edge after `before` takes a send it may, and every later one it might take is taken. */
  ghost predicate TakesLatest(sends: map<int, int>, recvs: map<int, int>, before: set<int>, e: Edge) {
    && e.recv in recvs && e.send in Feeding(sends, recvs[e.recv]) - before && sends[e.send] == e.time
    && forall s :: s in Feeding(sends, recvs[e.recv]) && sends[s] > e.time ==> s in before
  }

  /** A receive that some send can feed and that no edge serves. */
  ghost predicate Unserved(sends: map<int, int>, recvs: map<int, int>, edges: seq<Edge>, r: int) {
    r in recvs && Feeding(sends, recvs[r]) != {} && r !in RecvsOf(edges)
  }

  /** The edges serve the first receives in order, each by the latest send left. */
  ghost predicate LatestFirst(sends: map<int, int>, recvs: map<int, int>, edges: seq<Edge>) {
    && (forall i :: 0 <= i < |edges| ==> TakesLatest(sends, recvs, SendsOf(edges[..i]), edges[i]))
    && (forall i, j :: 0 <= i < j < |edges| ==> Earlier(sends, recvs, edges[i].recv, edges[j].recv))
    && (forall r, i :: Unserved(sends, recvs, edges, r) && 0 <= i < |edges| ==> Earlier(sends, recvs, edges[i].recv, r))
  }

  /** The first receive not served finds all its sends taken. */
  ghost predicate StuckAt(sends: map<int, int>, recvs: map<int, int>, edges: seq<Edge>, r: int) {
    && Unserved(sends, recvs, edges, r) && Feeding(sends, recvs[r]) <= SendsOf(edges)
    && forall x :: Unserved(sends, recvs, edges, x) && x != r ==> Earlier(sends, recvs, r, x)
  }

  /** What was chosen: nothing before the choosing starts, else the latest sends in order, up to a receive left without. */
  ghost predicate ChosenInOrder(sends: map<int, int>, recvs: map<int, int>, c: CellMatch) {
    if c.note.Unbalanced? || c.note.NoSingleInput? then c.edges == [] && c.readBy == map[]
    else
      && LatestFirst(sends, recvs, c.edges) && ReadersOf(c.edges, c.readBy)
      && (c.note.Infeasible? ==> exists r :: StuckAt(sends, recvs, c.edges, r))
  }

  // ---- Sorted layout: positions 1..k for sends, cutoffs for interior receives ----

  ghost predicate SendLayout(sends: map<int, int>, ss: seq<Timed>) {
    && |ss| == |sends|
    && DistinctOrds(ss)
    && (forall i :: 0 <= i < |ss| ==> ss[i].ord in sends && sends[ss[i].ord] == ss[i].time)
    && (forall s :: s in sends ==> exists i :: 0 <= i < |ss| && ss[i].ord == s)
  }

  ghost predicate RecvLayout(recvs: map<int, int>, b: int, ci: seq<Timed>) {
    && Ordered(ci) && DistinctOrds(ci)
    && (forall i :: 0 <= i < |ci| ==> ci[i].ord in recvs && ci[i].ord != b)
    && (forall r :: r in recvs && r != b ==> exists i :: 0 <= i < |ci| && ci[i].ord == r)
  }

  /** A cutoff is one more than the number of sends at or below the threshold. */
  ghost predicate CutoffsFit(recvs: map<int, int>, ss: seq<Timed>, ci: seq<Timed>) {
    forall i :: 0 <= i < |ci| ==> CutoffFits(recvs, ss, ci[i])
  }

  ghost predicate CutoffFits(recvs: map<int, int>, ss: seq<Timed>, r: Timed) {
    && r.ord in recvs
    && 2 <= r.time <= |ss| + 1
    && forall p :: 0 <= p < |ss| ==> (ss[p].time <= recvs[r.ord] <==> p + 1 < r.time)
  }

  ghost predicate Layout(sends: map<int, int>, recvs: map<int, int>, b: int, ss: seq<Timed>, ci: seq<Timed>) {
    && SendLayout(sends, ss)
    && RecvLayout(recvs, b, ci)
    && CutoffsFit(recvs, ss, ci)
    && b in Boundary(sends, recvs)
  }

  lemma NotBoundary(sends: map<int, int>, recvs: map<int, int>, r: int, s: int)
    requires r in recvs && s in sends && sends[s] <= recvs[r]
    ensures r !in Boundary(sends, recvs)
  {
  }

  ghost function Cutoffs(ci: seq<Timed>): (c: seq<int>) {
    seq(|ci|, i requires 0 <= i < |ci| => ci[i].time)
  }

  lemma CutoffsAscend(ci: seq<Timed>)
    requires Ordered(ci)
    ensures Ascending(Cutoffs(ci))
  {
    forall i, j | 0 <= i <= j < |ci| ensures ci[i].time <= ci[j].time {
      assert i < j ==> Before(ci[i], ci[j]);
    }
  }

  ghost function IndexOf(rows: seq<Timed>, o: int): (i: nat)
    requires exists i :: 0 <= i < |rows| && rows[i].ord == o
    ensures i < |rows| && rows[i].ord == o
  {
    var i :| 0 <= i < |rows| && rows[i].ord == o; i
  }

  /** The positions a solution gives to the interior receives. */
  ghost function Positions(sends: map<int, int>, recvs: map<int, int>, b: int,
                           ss: seq<Timed>, ci: seq<Timed>, m: map<int, int>): (p: seq<int>)
    requires Layout(sends, recvs, b, ss, ci) && IsSolution(sends, recvs, b, m)
    ensures |p| == |ci| && forall i :: 0 <= i < |ci| ==> p[i] == PositionOf(sends, recvs, b, ss, ci, m, i)
  {
    hide Layout, IsSolution;
    seq(|ci|, i requires 0 <= i < |ci| => PositionOf(sends, recvs, b, ss, ci, m, i))
  }

  ghost function PositionOf(sends: map<int, int>, recvs: map<int, int>, b: int,
                            ss: seq<Timed>, ci: seq<Timed>, m: map<int, int>, i: nat): (q: int)
    requires Layout(sends, recvs, b, ss, ci) && IsSolution(sends, recvs, b, m) && i < |ci|
    ensures ci[i].ord in m && 1 <= q <= |ss| && ss[q - 1].ord == m[ci[i].ord]
  {
    assert ci[i].ord in recvs.Keys - {b};
    assert m[ci[i].ord] in sends;
    IndexOf(ss, m[ci[i].ord]) + 1
  }

  /** The solution that positions describe. */
  ghost function FromPositions(sends: map<int, int>, recvs: map<int, int>, b: int,
                               ss: seq<Timed>, ci: seq<Timed>, p: seq<int>): (m: map<int, int>)
    requires Layout(sends, recvs, b, ss, ci) && Assigns(Cutoffs(ci), p)
    ensures m.Keys == recvs.Keys - {b}
  {
    assert forall i :: 0 <= i < |ci| ==> p[i] < Cutoffs(ci)[i];
    map r | r in recvs.Keys - {b} :: ss[p[IndexOf(ci, r)] - 1].ord
  }

  lemma FromPositionsAt(sends: map<int, int>, recvs: map<int, int>, b: int,
                        ss: seq<Timed>, ci: seq<Timed>, p: seq<int>, i: nat)
    requires Layout(sends, recvs, b, ss, ci) && Assigns(Cutoffs(ci), p) && i < |ci|
    ensures 1 <= p[i] < ci[i].time
    ensures ci[i].ord in recvs.Keys - {b}
    ensures ss[p[i] - 1].ord in sends && sends[ss[p[i] - 1].ord] <= recvs[ci[i].ord]
    ensures FromPositions(sends, recvs, b, ss, ci, p)[ci[i].ord] == ss[p[i] - 1].ord
  {
    assert p[i] < Cutoffs(ci)[i];
    var j := IndexOf(ci, ci[i].ord);
    assert ci[i].ord == ci[j].ord;
  }

  lemma FromPositionsInjective(sends: map<int, int>, recvs: map<int, int>, b: int,
                               ss: seq<Timed>, ci: seq<Timed>, p: seq<int>, i: nat, j: nat)
    requires Layout(sends, recvs, b, ss, ci) && Assigns(Cutoffs(ci), p) && i < |ci| && j < |ci| && i != j
    ensures 1 <= p[i] <= |ss| && 1 <= p[j] <= |ss| && ss[p[i] - 1].ord != ss[p[j] - 1].ord
  {
    FromPositionsAt(sends, recvs, b, ss, ci, p, i);
    FromPositionsAt(sends, recvs, b, ss, ci, p, j);
    assert p[i] != p[j];
  }

  lemma PositionsAssign(sends: map<int, int>, recvs: map<int, int>, b: int,
                        ss: seq<Timed>, ci: seq<Timed>, m: map<int, int>)
    requires Layout(sends, recvs, b, ss, ci) && IsSolution(sends, recvs, b, m)
    ensures Assigns(Cutoffs(ci), Positions(sends, recvs, b, ss, ci, m))
  {
    hide Layout, IsSolution;
    var p := Positions(sends, recvs, b, ss, ci, m);
    forall i | 0 <= i < |ci| ensures 1 <= p[i] < ci[i].time {
      PositionBelow(sends, recvs, b, ss, ci, m, i);
    }
    forall i, j | 0 <= i < j < |ci| ensures p[i] != p[j] {
      PositionsDiffer(sends, recvs, b, ss, ci, m, i, j);
    }
  }

  lemma PositionBelow(sends: map<int, int>, recvs: map<int, int>, b: int,
                      ss: seq<Timed>, ci: seq<Timed>, m: map<int, int>, i: nat)
    requires Layout(sends, recvs, b, ss, ci) && IsSolution(sends, recvs, b, m) && i < |ci|
    ensures 1 <= PositionOf(sends, recvs, b, ss, ci, m, i) < ci[i].time
  {
    var q := PositionOf(sends, recvs, b, ss, ci, m, i);
    assert ss[q - 1].time <= recvs[ci[i].ord];
    assert CutoffFits(recvs, ss, ci[i]);
  }

  lemma PositionsDiffer(sends: map<int, int>, recvs: map<int, int>, b: int,
                        ss: seq<Timed>, ci: seq<Timed>, m: map<int, int>, i: nat, j: nat)
    requires Layout(sends, recvs, b, ss, ci) && IsSolution(sends, recvs, b, m) && i < j < |ci|
    ensures PositionOf(sends, recvs, b, ss, ci, m, i) != PositionOf(sends, recvs, b, ss, ci, m, j)
  {
    assert ci[i].ord != ci[j].ord;
  }

  lemma FromPositionsSolves(sends: map<int, int>, recvs: map<int, int>, b: int,
                            ss: seq<Timed>, ci: seq<Timed>, p: seq<int>)
    requires Layout(sends, recvs, b, ss, ci) && Assigns(Cutoffs(ci), p)
    ensures IsSolution(sends, recvs, b, FromPositions(sends, recvs, b, ss, ci, p))
  {
    var m := FromPositions(sends, recvs, b, ss, ci, p);
    forall r | r in m ensures m[r] in sends && sends[m[r]] <= recvs[r] {
      FromPositionsAt(sends, recvs, b, ss, ci, p, IndexOf(ci, r));
    }
    forall r, r' | r in m && r' in m && r != r' ensures m[r] != m[r'] {
      var i, i' := IndexOf(ci, r), IndexOf(ci, r');
      FromPositionsAt(sends, recvs, b, ss, ci, p, i);
      FromPositionsAt(sends, recvs, b, ss, ci, p, i');
      FromPositionsInjective(sends, recvs, b, ss, ci, p, i, i');
    }
  }

  /** A receive without any feasible send can only be the input. */
  lemma BoundaryIsInput(sends: map<int, int>, recvs: map<int, int>, b: int, input: int, m: map<int, int>)
    requires b in Boundary(sends, recvs) && IsSolution(sends, recvs, input, m)
    ensures input == b
  {
    forall r | r in m ensures r !in Boundary(sends, recvs) {
      NotBoundary(sends, recvs, r, m[r]);
    }
    assert b !in recvs.Keys - {input};
  }

  /** Two receives without any feasible send leave the cell without a solution. */
  lemma TwoBoundariesUnsolvable(sends: map<int, int>, recvs: map<int, int>, b: int, b': int)
    requires b in Boundary(sends, recvs) && b' in Boundary(sends, recvs) && b != b'
    ensures !Solvable(sends, recvs)
  {
    forall input, m | IsSolution(sends, recvs, input, m) ensures false {
      BoundaryIsInput(sends, recvs, b, input, m);
      BoundaryIsInput(sends, recvs, b', input, m);
    }
  }

  /** With one boundary receive the cell is solvable exactly when the cutoffs satisfy Hall's condition. */
  lemma SolvableIffHall(sends: map<int, int>, recvs: map<int, int>, b: int, ss: seq<Timed>, ci: seq<Timed>)
    requires Layout(sends, recvs, b, ss, ci)
    ensures Solvable(sends, recvs) <==> Hall(Cutoffs(ci))
  {
    CutoffsAscend(ci);
    if Solvable(sends, recvs) {
      var input, m :| IsSolution(sends, recvs, input, m);
      BoundaryIsInput(sends, recvs, b, input, m);
      PositionsAssign(sends, recvs, b, ss, ci, m);
      HallNecessary(Cutoffs(ci), Positions(sends, recvs, b, ss, ci, m));
    }
    if Hall(Cutoffs(ci)) {
      var p := Extend(Cutoffs(ci), []);
      FromPositionsSolves(sends, recvs, b, ss, ci, p);
    }
  }

  /** The cutoff test `2, 3, ...` decides uniqueness among all solutions of the cell. */
  lemma UniqueIffOnly(sends: map<int, int>, recvs: map<int, int>, b: int,
                      ss: seq<Timed>, ci: seq<Timed>, m: map<int, int>)
    requires Layout(sends, recvs, b, ss, ci) && IsSolution(sends, recvs, b, m)
    ensures Tight(Cutoffs(ci)) <==> OnlySolution(sends, recvs, b, m)
  {
    var c := Cutoffs(ci);
    CutoffsAscend(ci);
    SolvableIffHall(sends, recvs, b, ss, ci);
    UniqueIffTight(c);
    if Tight(c) {
      forall input', m' | IsSolution(sends, recvs, input', m') ensures input' == b && m' == m {
        BoundaryIsInput(sends, recvs, b, input', m');
        SamePositionsSameSolution(sends, recvs, b, ss, ci, m, m');
      }
    } else {
      var p, p' :| Assigns(c, p) && Assigns(c, p') && p != p';
      OtherSolution(sends, recvs, b, ss, ci, p, p');
    }
  }

  lemma OtherSolution(sends: map<int, int>, recvs: map<int, int>, b: int,
                      ss: seq<Timed>, ci: seq<Timed>, p: seq<int>, p': seq<int>)
    requires Layout(sends, recvs, b, ss, ci)
    requires Assigns(Cutoffs(ci), p) && Assigns(Cutoffs(ci), p') && p != p'
    ensures exists m, m' :: IsSolution(sends, recvs, b, m) && IsSolution(sends, recvs, b, m') && m != m'
  {
    hide IsSolution, FromPositions, CutoffsFit, RecvLayout, Boundary;
    FromPositionsSolves(sends, recvs, b, ss, ci, p);
    FromPositionsSolves(sends, recvs, b, ss, ci, p');
    var i :| 0 <= i < |p| && p[i] != p'[i];
    FromPositionsAt(sends, recvs, b, ss, ci, p, i);
    FromPositionsAt(sends, recvs, b, ss, ci, p', i);
    CutoffsWithin(sends, recvs, b, ss, ci);
    assert ss[p[i] - 1].ord != ss[p'[i] - 1].ord;
    assert FromPositions(sends, recvs, b, ss, ci, p) != FromPositions(sends, recvs, b, ss, ci, p');
  }

  lemma SamePositionsSameSolution(sends: map<int, int>, recvs: map<int, int>, b: int,
                                  ss: seq<Timed>, ci: seq<Timed>, m: map<int, int>, m': map<int, int>)
    requires Layout(sends, recvs, b, ss, ci)
    requires IsSolution(sends, recvs, b, m) && IsSolution(sends, recvs, b, m')
    requires Tight(Cutoffs(ci))
    ensures m == m'
  {
    hide Layout, Tight, Injective, Assigns;
    LayoutParts(sends, recvs, b, ss, ci);
    var p, p' := Positions(sends, recvs, b, ss, ci, m), Positions(sends, recvs, b, ss, ci, m');
    PositionsAssign(sends, recvs, b, ss, ci, m);
    PositionsAssign(sends, recvs, b, ss, ci, m');
    assert m.Keys == m'.Keys;
    forall r | r in m.Keys ensures r in m' && m[r] == m'[r] {
      var i := IndexOf(ci, r);
      TightForces(Cutoffs(ci), p, i);
      TightForces(Cutoffs(ci), p', i);
    }
    SameMap(m, m');
  }

  /** What the algorithm promises: each note is exact, `unique` decides uniqueness, and the edges are chosen in order. */
  ghost predicate Correct(sends: map<int, int>, recvs: map<int, int>, c: CellMatch) {
    && (c.note.Unbalanced? <==> |sends| != |recvs|)
    && (c.note.NoSingleInput? <==> |sends| == |recvs| && |Boundary(sends, recvs)| != 1)
    && (c.note.Infeasible? <==>
          |sends| == |recvs| && |Boundary(sends, recvs)| == 1 && !Solvable(sends, recvs))
    && (!c.note.Clean? ==> !c.unique && c.input.None? && c.output.None?)
    && ChosenInOrder(sends, recvs, c)
    && (c.note.Clean? ==>
          && Describes(sends, recvs, c)
          && c.input.value in Boundary(sends, recvs)
          && (c.unique <==> OnlySolution(sends, recvs, c.input.value, Reading(c.edges))))
  }

  // ---- The algorithm ----

  /** The latest free position below `c`, or 0 when there is none. */
  function LatestFree(avail: set<int>, c: int): (p: int)
    ensures p == 0 || (1 <= p < c && p in avail)
    ensures forall q :: 1 <= q < c && q in avail ==> q <= p
  {
    if c <= 1 then 0
    else if c - 1 in avail then c - 1
    else LatestFree(avail, c - 1)
  }

  /** Every receive with one plus the number of sends it may read. */
  method RecvCutoffs(ss: seq<Timed>, recvs: seq<Timed>) returns (all: seq<Timed>)
    requires Ordered(ss)
    ensures IsCutoffs(ss, recvs, all)
  {
    all := [];
    for i := 0 to |recvs|
      invariant IsCutoffs(ss, recvs[..i], all)
    {
      var n := BisectRight(ss, recvs[i].time);
      assert recvs[..i + 1] == recvs[..i] + [recvs[i]];
      all := all + [Timed(1 + n, recvs[i].ord)];
    }
    assert recvs[..|recvs|] == recvs;
  }

  ghost predicate IsCutoffs(ss: seq<Timed>, recvs: seq<Timed>, all: seq<Timed>) {
    && |all| == |recvs|
    && (forall i :: 0 <= i < |all| ==> all[i].ord == recvs[i].ord && 1 <= all[i].time <= |ss| + 1)
    && (forall i, p :: 0 <= i < |all| && 0 <= p < |ss| ==> (ss[p].time <= recvs[i].time <==> p + 1 < all[i].time))
  }

  lemma IsCutoffsDistinct(ss: seq<Timed>, recvs: seq<Timed>, all: seq<Timed>)
    requires DistinctOrds(recvs) && IsCutoffs(ss, recvs, all)
    ensures DistinctOrds(all)
  {
    forall i, j | 0 <= i < j < |all| ensures all[i].ord != all[j].ord {
      assert recvs[i].ord != recvs[j].ord;
    }
  }

  /** Ordinals with an empty prefix, in order. */
  function BoundaryOrds(all: seq<Timed>): (b: seq<int>)
    ensures |b| <= |all|
    ensures forall o :: o in b <==> exists i :: 0 <= i < |all| && all[i].ord == o && all[i].time == 1
  {
    if all == [] then []
    else
      assert forall i :: 1 <= i < |all| ==> all[1..][i - 1] == all[i];
      (if all[0].time == 1 then [all[0].ord] else []) + BoundaryOrds(all[1..])
  }

  /** Receives with a non-empty prefix, in order. */
  function Interior(all: seq<Timed>): (c: seq<Timed>)
    ensures |c| + |BoundaryOrds(all)| <= |all|
    ensures (forall i :: 0 <= i < |all| ==> all[i].time >= 1) ==> |c| + |BoundaryOrds(all)| == |all|
    ensures forall x :: x in c <==> x in all && x.time >= 2
  {
    if all == [] then []
    else
      (if all[0].time >= 2 then [all[0]] else []) + Interior(all[1..])
  }

  lemma {:induction false} InteriorDistinct(all: seq<Timed>)
    requires DistinctOrds(all)
    ensures DistinctOrds(Interior(all))
  {
    if all != [] && all[0].time >= 2 {
      HeadDistinct(all);
      InteriorDistinct(all[1..]);
      forall x | x in Interior(all[1..]) ensures x.ord != all[0].ord {
        assert x in all[1..];
      }
      ConsDistinct(all[0], Interior(all[1..]));
    } else if all != [] {
      HeadDistinct(all);
      InteriorDistinct(all[1..]);
      assert Interior(all) == Interior(all[1..]);
    }
  }

  lemma {:induction false} BoundaryDistinct(all: seq<Timed>)
    requires DistinctOrds(all)
    ensures forall i, j :: 0 <= i < j < |BoundaryOrds(all)| ==> BoundaryOrds(all)[i] != BoundaryOrds(all)[j]
  {
    if all != [] {
      HeadDistinct(all);
      BoundaryDistinct(all[1..]);
      var rest := BoundaryOrds(all[1..]);
      forall j | 0 <= j < |rest| ensures rest[j] != all[0].ord {
        assert rest[j] in rest;
        var i :| 0 <= i < |all[1..]| && all[1..][i].ord == rest[j] && all[1..][i].time == 1;
        assert all[1..][i] in all[1..];
      }
    }
  }

  lemma HeadDistinct(all: seq<Timed>)
    requires DistinctOrds(all) && all != []
    ensures DistinctOrds(all[1..]) && forall x :: x in all[1..] ==> x.ord != all[0].ord
  {
    forall x | x in all[1..] ensures x.ord != all[0].ord {
      var i :| 0 <= i < |all[1..]| && all[1..][i] == x;
      assert all[i + 1] == x;
    }
  }

  lemma ConsDistinct(x: Timed, rest: seq<Timed>)
    requires DistinctOrds(rest) && forall y :: y in rest ==> y.ord != x.ord
    ensures DistinctOrds([x] + rest)
  {
    forall i, j | 0 <= i < j < |[x] + rest| ensures ([x] + rest)[i].ord != ([x] + rest)[j].ord {
      if i == 0 {
        assert rest[j - 1] in rest;
      }
    }
  }

  lemma CardinalityOfTable(rows: seq<Timed>)
    requires DistinctOrds(rows)
    ensures |Table(rows)| == |rows|
  {
    var os := seq(|rows|, i requires 0 <= i < |rows| => rows[i].ord);
    DistinctSize(os);
    assert forall i :: 0 <= i < |rows| ==> os[i] == rows[i].ord;
    assert forall o :: o in RowNumbers(rows) ==> o in Elements(os);
    assert Elements(os) == Table(rows).Keys;
  }

  lemma DistinctSeqSize(b: seq<int>, s: set<int>)
    requires forall i, j :: 0 <= i < j < |b| ==> b[i] != b[j]
    requires forall o :: o in b <==> o in s
    ensures |b| == |s|
  {
    DistinctSize(b);
    forall o | o in s ensures o in Elements(b) {
      assert o in b;
    }
    forall o | o in Elements(b) ensures o in s {
      assert o in b;
    }
    assert Elements(b) == s;
  }

  /** The boundary list of the code is the set of receives no send can feed. */
  lemma BoundaryIsExact(sends: seq<Timed>, recvs: seq<Timed>, ss: seq<Timed>, all: seq<Timed>)
    requires DistinctOrds(sends) && DistinctOrds(recvs)
    requires ss == Sorted(sends) && IsCutoffs(ss, recvs, all)
    ensures forall o :: o in BoundaryOrds(all) <==> o in Boundary(Table(sends), Table(recvs))
    ensures |BoundaryOrds(all)| == |Boundary(Table(sends), Table(recvs))|
  {
    var b := Boundary(Table(sends), Table(recvs));
    BoundaryMembers(sends, recvs, ss, all, b);
    IsCutoffsDistinct(ss, recvs, all);
    BoundaryDistinct(all);
    DistinctSeqSize(BoundaryOrds(all), b);
  }

  lemma BoundaryMembers(sends: seq<Timed>, recvs: seq<Timed>, ss: seq<Timed>, all: seq<Timed>, b: set<int>)
    requires DistinctOrds(sends) && DistinctOrds(recvs) && b == Boundary(Table(sends), Table(recvs))
    requires ss == Sorted(sends) && IsCutoffs(ss, recvs, all)
    ensures forall o :: o in BoundaryOrds(all) <==> o in b
  {
    hide Sorted, DistinctOrds;
    forall i | 0 <= i < |all| ensures all[i].time == 1 <==> all[i].ord in b {
      BoundaryAt(sends, recvs, ss, all, i);
    }
    forall o | o in b ensures o in BoundaryOrds(all) {
      var i :| 0 <= i < |recvs| && recvs[i].ord == o;
      assert all[i].ord == o;
    }
    forall o | o in BoundaryOrds(all) ensures o in b {
      var i :| 0 <= i < |all| && all[i].ord == o && all[i].time == 1;
    }
  }

  lemma BoundaryAt(sends: seq<Timed>, recvs: seq<Timed>, ss: seq<Timed>, all: seq<Timed>, i: nat)
    requires DistinctOrds(sends) && DistinctOrds(recvs) && i < |all|
    requires ss == Sorted(sends) && IsCutoffs(ss, recvs, all)
    ensures all[i].time == 1 <==> all[i].ord in Boundary(Table(sends), Table(recvs))
  {
    SortedKeepsDistinctOrds(sends);
    TableAt(recvs, i);
    var S := Table(sends);
    if all[i].time == 1 {
      forall s | s in S ensures S[s] > recvs[i].time {
        var j :| 0 <= j < |sends| && sends[j].ord == s;
        TableAt(sends, j);
        assert sends[j] in ss;
        var p :| 0 <= p < |ss| && ss[p] == sends[j];
      }
    } else {
      assert ss[0] in sends && ss[0].time <= recvs[i].time;
      var j :| 0 <= j < |sends| && sends[j] == ss[0];
      TableAt(sends, j);
    }
  }

  lemma LayoutHolds(sends: seq<Timed>, recvs: seq<Timed>, ss: seq<Timed>, all: seq<Timed>, b: int)
    requires DistinctOrds(sends) && DistinctOrds(recvs)
    requires ss == Sorted(sends) && IsCutoffs(ss, recvs, all)
    requires BoundaryOrds(all) == [b]
    ensures Layout(Table(sends), Table(recvs), b, ss, Sorted(Interior(all)))
  {
    BoundaryIsExact(sends, recvs, ss, all);
    assert b in BoundaryOrds(all);
    SendsLaidOut(sends);
    ReceivesLaidOut(recvs, ss, all, b);
    CutoffsLaidOut(recvs, ss, all);
  }

  lemma CutoffsLaidOut(recvs: seq<Timed>, ss: seq<Timed>, all: seq<Timed>)
    requires DistinctOrds(recvs) && IsCutoffs(ss, recvs, all)
    ensures CutoffsFit(Table(recvs), ss, Sorted(Interior(all)))
  {
    forall i | 0 <= i < |Sorted(Interior(all))| ensures CutoffFits(Table(recvs), ss, Sorted(Interior(all))[i]) {
      var j := ReceiveOf(recvs, ss, all, i);
      CutoffAt(Table(recvs), recvs, ss, all, j);
    }
  }

  lemma CutoffAt(table: map<int, int>, recvs: seq<Timed>, ss: seq<Timed>, all: seq<Timed>, j: nat)
    requires IsCutoffs(ss, recvs, all) && j < |recvs| && all[j].time >= 2
    requires all[j].ord in table && table[all[j].ord] == recvs[j].time
    ensures CutoffFits(table, ss, all[j])
  {
  }

  lemma ReceiveOf(recvs: seq<Timed>, ss: seq<Timed>, all: seq<Timed>, i: nat) returns (j: nat)
    requires DistinctOrds(recvs) && IsCutoffs(ss, recvs, all)
    requires i < |Sorted(Interior(all))|
    ensures j < |recvs| && all[j] == Sorted(Interior(all))[i] && all[j].time >= 2
    ensures all[j].ord in Table(recvs) && Table(recvs)[all[j].ord] == recvs[j].time
  {
    var ci := Sorted(Interior(all));
    SameMultisetMembers(ci, Interior(all));
    assert ci[i] in Interior(all);
    j :| 0 <= j < |all| && all[j] == ci[i];
    TableAt(recvs, j);
  }

  lemma ReceivesLaidOut(recvs: seq<Timed>, ss: seq<Timed>, all: seq<Timed>, b: int)
    requires DistinctOrds(recvs) && IsCutoffs(ss, recvs, all) && BoundaryOrds(all) == [b]
    ensures RecvLayout(Table(recvs), b, Sorted(Interior(all)))
  {
    var ci, R := Sorted(Interior(all)), Table(recvs);
    IsCutoffsDistinct(ss, recvs, all);
    InteriorDistinct(all);
    SortedKeepsDistinctOrds(Interior(all));
    forall i | 0 <= i < |ci| ensures ci[i].ord in R && ci[i].ord != b {
      var j := ReceiveOf(recvs, ss, all, i);
      BoundaryNotInterior(all, b, j);
    }
    forall r | r in R && r != b ensures exists i :: 0 <= i < |ci| && ci[i].ord == r {
      var j :| 0 <= j < |recvs| && recvs[j].ord == r;
      InteriorHas(all, b, j);
    }
  }

  lemma BoundaryNotInterior(all: seq<Timed>, b: int, j: nat)
    requires DistinctOrds(all) && BoundaryOrds(all) == [b] && j < |all| && all[j].time >= 2
    ensures all[j].ord != b
  {
    assert b in BoundaryOrds(all);
    var l :| 0 <= l < |all| && all[l].ord == b && all[l].time == 1;
  }

  lemma InteriorHas(all: seq<Timed>, b: int, j: nat)
    requires DistinctOrds(all) && BoundaryOrds(all) == [b] && j < |all| && all[j].ord != b && all[j].time >= 1
    ensures exists i :: 0 <= i < |Sorted(Interior(all))| && Sorted(Interior(all))[i].ord == all[j].ord
  {
    assert all[j].ord !in BoundaryOrds(all);
    InteriorDistinct(all);
    SortedKeepsDistinctOrds(Interior(all));
    assert all[j] in Sorted(Interior(all));
  }

  lemma SendsLaidOut(sends: seq<Timed>)
    requires DistinctOrds(sends)
    ensures SendLayout(Table(sends), Sorted(sends))
  {
    var ss, S := Sorted(sends), Table(sends);
    SortedKeepsDistinctOrds(sends);
    CardinalityOfTable(sends);
    forall i | 0 <= i < |ss| ensures ss[i].ord in S && S[ss[i].ord] == ss[i].time {
      assert ss[i] in sends;
      var j :| 0 <= j < |sends| && sends[j] == ss[i];
      TableAt(sends, j);
    }
    forall s | s in S ensures exists i :: 0 <= i < |ss| && ss[i].ord == s {
      var j :| 0 <= j < |sends| && sends[j].ord == s;
      assert sends[j] in ss;
    }
  }

  /** The greedy progress after some receives: a partial assignment and the free positions. */
  ghost predicate Progress(ss: seq<Timed>, ci: seq<Timed>, p: seq<int>, avail: set<int>,
                           edges: seq<Edge>, readBy: map<int, seq<int>>) {
    && |p| <= |ci|
    && Assigns(Cutoffs(ci)[..|p|], p)
    && (forall j :: 0 <= j < |p| ==> 1 <= p[j] <= |ss|)
    && avail == Range(|ss|) - Elements(p)
    && EdgesOf(ss, ci, p, edges)
    && ReadersOf(edges, readBy)
    && forall j :: 0 <= j < |p| ==> LatestAt(ci, p, j)
  }

  /** Every later position of the prefix was taken before. */
  ghost predicate LatestAt(ci: seq<Timed>, p: seq<int>, j: nat)
    requires j < |p| <= |ci|
  {
    forall q :: p[j] < q < ci[j].time ==> q in Elements(p[..j])
  }

  ghost predicate EdgesOf(ss: seq<Timed>, ci: seq<Timed>, p: seq<int>, edges: seq<Edge>) {
    && |edges| == |p| <= |ci|
    && forall j :: 0 <= j < |p| ==>
      1 <= p[j] <= |ss| && edges[j] == Edge(ci[j].ord, ss[p[j] - 1].ord, ss[p[j] - 1].time)
  }

  ghost predicate ReadersOf(edges: seq<Edge>, readBy: map<int, seq<int>>) {
    && (forall j :: 0 <= j < |edges| ==> edges[j].send in readBy && readBy[edges[j].send] == [edges[j].recv])
    && (forall s :: s in readBy ==> exists j :: 0 <= j < |edges| && edges[j].send == s)
  }

  lemma StuckMeansNoHall(ss: seq<Timed>, ci: seq<Timed>, p: seq<int>, avail: set<int>,
                         edges: seq<Edge>, readBy: map<int, seq<int>>)
    requires Progress(ss, ci, p, avail, edges, readBy) && |p| < |ci|
    requires ci[|p|].time <= |ss| + 1
    requires LatestFree(avail, ci[|p|].time) == 0
    ensures !Hall(Cutoffs(ci))
  {
    var c := Cutoffs(ci)[|p|];
    if c >= 1 {
      assert forall q :: q in Range(c - 1) ==> q in Range(|ss|) && q !in Range(|ss|) - Elements(p);
      SubsetSize(Range(c - 1), Elements(p));
      DistinctSize(p);
    }
  }

  lemma ProgressStep(ss: seq<Timed>, ci: seq<Timed>, p: seq<int>, avail: set<int>,
                     edges: seq<Edge>, readBy: map<int, seq<int>>, q: int)
    requires Progress(ss, ci, p, avail, edges, readBy) && |p| < |ci|
    requires DistinctOrds(ss)
    requires q in avail && q < ci[|p|].time <= |ss| + 1
    requires forall x :: q < x < ci[|p|].time ==> x !in avail
    ensures var s := ss[q - 1];
            && s.ord !in readBy
            && Progress(ss, ci, p + [q], avail - {q}, edges + [Edge(ci[|p|].ord, s.ord, s.time)],
                        readBy[s.ord := [ci[|p|].ord]])
  {
    var s, e := ss[q - 1], Edge(ci[|p|].ord, ss[q - 1].ord, ss[q - 1].time);
    AssignsStep(Cutoffs(ci), p, q);
    LatestStep(ss, ci, p, avail, q);
    EdgesStep(ss, ci, p, edges, q);
    ReadersStep(edges, readBy, e);
  }

  lemma LatestStep(ss: seq<Timed>, ci: seq<Timed>, p: seq<int>, avail: set<int>, q: int)
    requires |p| < |ci| && 1 <= q < ci[|p|].time <= |ss| + 1 && avail == Range(|ss|) - Elements(p)
    requires forall j :: 0 <= j < |p| ==> LatestAt(ci, p, j)
    requires forall x :: q < x < ci[|p|].time ==> x !in avail
    ensures forall j :: 0 <= j < |p + [q]| ==> LatestAt(ci, p + [q], j)
  {
    var p' := p + [q];
    forall j: nat | j < |p'| ensures LatestAt(ci, p', j) {
      if j < |p| {
        assert LatestAt(ci, p, j) && p'[..j] == p[..j];
      } else {
        assert p'[..j] == p;
        forall x | q < x < ci[j].time ensures x in Elements(p) {
          assert x in Range(|ss|) && x !in avail;
        }
      }
    }
  }

  lemma EdgesStep(ss: seq<Timed>, ci: seq<Timed>, p: seq<int>, edges: seq<Edge>, q: int)
    requires EdgesOf(ss, ci, p, edges) && |p| < |ci| && DistinctOrds(ss)
    requires 1 <= q <= |ss| && q !in Elements(p)
    ensures EdgesOf(ss, ci, p + [q], edges + [Edge(ci[|p|].ord, ss[q - 1].ord, ss[q - 1].time)])
    ensures forall j :: 0 <= j < |edges| ==> edges[j].send != ss[q - 1].ord
  {
    forall j | 0 <= j < |edges| ensures edges[j].send != ss[q - 1].ord {
      assert p[j] in Elements(p);
    }
  }

  lemma ReadersStep(edges: seq<Edge>, readBy: map<int, seq<int>>, e: Edge)
    requires ReadersOf(edges, readBy)
    requires forall j :: 0 <= j < |edges| ==> edges[j].send != e.send
    ensures e.send !in readBy
    ensures ReadersOf(edges + [e], readBy[e.send := [e.recv]])
  {
    var edges', readBy' := edges + [e], readBy[e.send := [e.recv]];
    forall s | s in readBy' ensures exists j :: 0 <= j < |edges'| && edges'[j].send == s {
      if s == e.send {
        assert edges'[|edges|].send == s;
      } else {
        var j :| 0 <= j < |edges| && edges[j].send == s;
        assert edges'[j].send == s;
      }
    }
  }

  lemma AssignsStep(c: seq<int>, p: seq<int>, q: int)
    requires |p| < |c| && Assigns(c[..|p|], p)
    requires 1 <= q < c[|p|] && q !in Elements(p)
    ensures Assigns(c[..|p| + 1], p + [q])
    ensures Elements(p + [q]) == Elements(p) + {q}
  {
    var p' := p + [q];
    assert forall j :: 0 <= j < |p| ==> p'[j] == p[j] && p[j] in Elements(p);
    assert c[..|p| + 1] == c[..|p|] + [c[|p|]];
  }

  lemma {:induction false} ReadingAt(edges: seq<Edge>, j: nat)
    requires forall a, c :: 0 <= a < c < |edges| ==> edges[a].recv != edges[c].recv
    requires j < |edges|
    ensures edges[j].recv in Reading(edges) && Reading(edges)[edges[j].recv] == edges[j].send
  {
    var n := |edges| - 1;
    if j < n {
      ReadingAt(edges[..n], j);
    }
  }

  /** `m` is the map form of `edges`. */
  ghost predicate IsReading(edges: seq<Edge>, m: map<int, int>) {
    && (forall j :: 0 <= j < |edges| ==> edges[j].recv in m && m[edges[j].recv] == edges[j].send)
    && (forall r :: r in m ==> exists j :: 0 <= j < |edges| && edges[j].recv == r)
  }

  lemma EdgesRead(ss: seq<Timed>, ci: seq<Timed>, p: seq<int>, edges: seq<Edge>)
    requires EdgesOf(ss, ci, p, edges) && DistinctOrds(ci)
    ensures IsReading(edges, Reading(edges))
  {
    forall a, c | 0 <= a < c < |edges| ensures edges[a].recv != edges[c].recv {
      assert ci[a].ord != ci[c].ord;
    }
    forall j | 0 <= j < |edges| ensures edges[j].recv in Reading(edges) && Reading(edges)[edges[j].recv] == edges[j].send {
      ReadingAt(edges, j);
    }
  }

  lemma ReadingIsFromPositions(sends: map<int, int>, recvs: map<int, int>, b: int, ss: seq<Timed>, ci: seq<Timed>,
                               p: seq<int>, edges: seq<Edge>, m: map<int, int>)
    requires Layout(sends, recvs, b, ss, ci) && EdgesOf(ss, ci, p, edges) && |p| == |ci|
    requires Assigns(Cutoffs(ci), p) && IsReading(edges, m)
    ensures m == FromPositions(sends, recvs, b, ss, ci, p)
  {
    var f := FromPositions(sends, recvs, b, ss, ci, p);
    forall r | r in f.Keys ensures r in m && m[r] == f[r] {
      ReadingAgrees(sends, recvs, b, ss, ci, p, edges, m, r);
    }
    forall r | r in m.Keys ensures r in f.Keys {
      ReadingWithin(recvs, b, ss, ci, p, edges, m, r);
    }
    SameMap(m, f);
  }

  lemma ReadingWithin(recvs: map<int, int>, b: int, ss: seq<Timed>, ci: seq<Timed>,
                      p: seq<int>, edges: seq<Edge>, m: map<int, int>, r: int)
    requires RecvLayout(recvs, b, ci) && EdgesOf(ss, ci, p, edges) && IsReading(edges, m) && r in m
    ensures r in recvs.Keys - {b}
  {
    var j :| 0 <= j < |edges| && edges[j].recv == r;
  }

  lemma ReadingAgrees(sends: map<int, int>, recvs: map<int, int>, b: int, ss: seq<Timed>, ci: seq<Timed>,
                      p: seq<int>, edges: seq<Edge>, m: map<int, int>, r: int)
    requires Layout(sends, recvs, b, ss, ci) && EdgesOf(ss, ci, p, edges) && |p| == |ci|
    requires Assigns(Cutoffs(ci), p) && IsReading(edges, m) && r in recvs.Keys - {b}
    ensures r in m && m[r] == FromPositions(sends, recvs, b, ss, ci, p)[r]
  {
    hide Layout, FromPositions;
    LayoutParts(sends, recvs, b, ss, ci);
    var j := IndexOf(ci, r);
    FromPositionsAt(sends, recvs, b, ss, ci, p, j);
    assert edges[j].recv == r && edges[j].send == ss[p[j] - 1].ord;
  }

  lemma LayoutParts(sends: map<int, int>, recvs: map<int, int>, b: int, ss: seq<Timed>, ci: seq<Timed>)
    requires Layout(sends, recvs, b, ss, ci)
    ensures SendLayout(sends, ss) && RecvLayout(recvs, b, ci) && CutoffsFit(recvs, ss, ci)
  {
  }

  /** The lone free position left by a complete assignment. */
  lemma OneLeft(n: nat, p: seq<int>)
    requires Distinct(p) && |p| + 1 == n
    requires forall j :: 0 <= j < |p| ==> 1 <= p[j] <= n
    ensures |Range(n) - Elements(p)| == 1
  {
    DistinctSize(p);
    assert Elements(p) <= Range(n);
  }

  lemma LastOne(avail: set<int>, n: nat)
    requires |avail| == 1 && avail <= Range(n)
    ensures 1 <= LatestFree(avail, n + 1) <= n
    ensures avail == {LatestFree(avail, n + 1)}
  {
    var x := Pick(avail);
    assert x in Range(n);
    SubsetSize({LatestFree(avail, n + 1)}, avail);
  }

  lemma FinishedReading(sends: map<int, int>, recvs: map<int, int>, b: int, ss: seq<Timed>, ci: seq<Timed>,
                         p: seq<int>, avail: set<int>, edges: seq<Edge>, readBy: map<int, seq<int>>, m: map<int, int>)
    requires Layout(sends, recvs, b, ss, ci) && Progress(ss, ci, p, avail, edges, readBy)
    requires |p| == |ci| == |ss| - 1 && IsReading(edges, m)
    ensures 1 <= LatestFree(avail, |ss| + 1) <= |ss|
    ensures IsSolution(sends, recvs, b, m)
    ensures sends.Keys - m.Values == {ss[LatestFree(avail, |ss| + 1) - 1].ord}
    ensures EdgesMatch(sends, edges, m)
    ensures readBy.Keys == m.Values && forall r :: r in m ==> m[r] in readBy && readBy[m[r]] == [r]
  {
    hide Layout, Progress, IsSolution, EdgesOf, ReadersOf, IsReading, EdgesMatch, Assigns;
    LayoutParts(sends, recvs, b, ss, ci);
    ProgressParts(ss, ci, p, avail, edges, readBy);
    FinishedSolves(sends, recvs, b, ss, ci, p, edges, m);
    EdgesAreSends(sends, ss, ci, p, edges, m);
    ReadersAreValues(edges, readBy, m);
    OutputIsLeft(sends, ss, ci, p, edges, LatestFree(avail, |ss| + 1), m);
  }

  /** What is known once every interior receive is matched: one position is left. */
  lemma ProgressParts(ss: seq<Timed>, ci: seq<Timed>, p: seq<int>, avail: set<int>, edges: seq<Edge>, readBy: map<int, seq<int>>)
    requires Progress(ss, ci, p, avail, edges, readBy) && |p| == |ci| == |ss| - 1
    ensures Assigns(Cutoffs(ci)[..|p|], p) && EdgesOf(ss, ci, p, edges) && ReadersOf(edges, readBy)
    ensures 1 <= LatestFree(avail, |ss| + 1) <= |ss| && Range(|ss|) - Elements(p) == {LatestFree(avail, |ss| + 1)}
  {
    hide EdgesOf, ReadersOf;
    OneLeft(|ss|, p);
    LastOne(avail, |ss|);
  }

  lemma FinishedSolves(sends: map<int, int>, recvs: map<int, int>, b: int, ss: seq<Timed>, ci: seq<Timed>,
                       p: seq<int>, edges: seq<Edge>, m: map<int, int>)
    requires Layout(sends, recvs, b, ss, ci) && |p| == |ci| && Assigns(Cutoffs(ci)[..|p|], p)
    requires EdgesOf(ss, ci, p, edges) && IsReading(edges, m)
    ensures IsSolution(sends, recvs, b, m)
  {
    assert Cutoffs(ci)[..|p|] == Cutoffs(ci);
    ReadingIsFromPositions(sends, recvs, b, ss, ci, p, edges, m);
    FromPositionsSolves(sends, recvs, b, ss, ci, p);
  }

  lemma EdgesAreSends(sends: map<int, int>, ss: seq<Timed>, ci: seq<Timed>, p: seq<int>, edges: seq<Edge>, m: map<int, int>)
    requires SendLayout(sends, ss) && EdgesOf(ss, ci, p, edges) && IsReading(edges, m)
    ensures EdgesMatch(sends, edges, m)
  {
    forall e | e in edges ensures e.recv in m && m[e.recv] == e.send && e.send in sends && sends[e.send] == e.time {
      var j :| 0 <= j < |edges| && edges[j] == e;
      assert edges[j] == Edge(ci[j].ord, ss[p[j] - 1].ord, ss[p[j] - 1].time);
    }
  }

  lemma ReadersAreValues(edges: seq<Edge>, readBy: map<int, seq<int>>, m: map<int, int>)
    requires IsReading(edges, m) && ReadersOf(edges, readBy)
    ensures readBy.Keys == m.Values
    ensures forall r :: r in m ==> m[r] in readBy && readBy[m[r]] == [r]
  {
    forall r | r in m ensures m[r] in readBy && readBy[m[r]] == [r] {
      var j :| 0 <= j < |edges| && edges[j].recv == r;
    }
    forall s | s in readBy ensures s in m.Values {
      var j :| 0 <= j < |edges| && edges[j].send == s;
      assert m[edges[j].recv] == s;
    }
  }

  lemma OutputIsLeft(sends: map<int, int>, ss: seq<Timed>, ci: seq<Timed>, p: seq<int>, edges: seq<Edge>, x: int, m: map<int, int>)
    requires SendLayout(sends, ss) && EdgesOf(ss, ci, p, edges) && IsReading(edges, m)
    requires Range(|ss|) - Elements(p) == {x} && 1 <= x <= |ss|
    ensures sends.Keys - m.Values == {ss[x - 1].ord}
  {
    forall r | r in m ensures m[r] != ss[x - 1].ord {
      var j :| 0 <= j < |edges| && edges[j].recv == r;
      NotTaken(p, |ss|, x, j);
    }
    forall s | s in sends && s != ss[x - 1].ord ensures s in m.Values {
      OthersRead(sends, ss, ci, p, edges, x, m, s);
    }
    assert ss[x - 1].ord in sends;
    SameSet(sends.Keys - m.Values, {ss[x - 1].ord});
  }

  lemma OthersRead(sends: map<int, int>, ss: seq<Timed>, ci: seq<Timed>, p: seq<int>, edges: seq<Edge>, x: int, m: map<int, int>, s: int)
    requires SendLayout(sends, ss) && EdgesOf(ss, ci, p, edges) && IsReading(edges, m)
    requires Range(|ss|) - Elements(p) == {x} && 1 <= x <= |ss| && s in sends && s != ss[x - 1].ord
    ensures s in m.Values
  {
    hide Range, Elements, DistinctOrds;
    var i :| 0 <= i < |ss| && ss[i].ord == s;
    var j := Taken(p, |ss|, x, i + 1);
    assert edges[j].send == s;
    ValueOf(m, edges[j].recv);
  }

  lemma NotTaken(p: seq<int>, n: nat, x: int, j: nat)
    requires Range(n) - Elements(p) == {x} && j < |p|
    ensures p[j] != x
  {
    assert p[j] in Elements(p);
    assert x in Range(n) - Elements(p);
  }

  lemma Taken(p: seq<int>, n: nat, x: int, q: int) returns (j: nat)
    requires Range(n) - Elements(p) == {x} && 1 <= q <= n && q != x
    ensures j < |p| && p[j] == q
  {
    assert q in Range(n) && q !in Range(n) - Elements(p);
    assert q in Elements(p);
    j :| 0 <= j < |p| && p[j] == q;
  }

  // ---- The order of choice, over the tables ----

  /** The sends feeding an interior receive are those at the positions below its cutoff. */
  lemma FeedingPositions(sends: map<int, int>, recvs: map<int, int>, ss: seq<Timed>, ci: seq<Timed>, i: nat, s: int)
    requires SendLayout(sends, ss) && CutoffsFit(recvs, ss, ci) && i < |ci|
    ensures ci[i].ord in recvs && 2 <= ci[i].time <= |ss| + 1
    ensures s in Feeding(sends, recvs[ci[i].ord]) <==> exists k :: 0 <= k < ci[i].time - 1 && ss[k].ord == s
  {
    assert CutoffFits(recvs, ss, ci[i]);
    if s in sends {
      var j :| 0 <= j < |ss| && ss[j].ord == s;
    }
  }

  lemma FeedingSize(sends: map<int, int>, recvs: map<int, int>, ss: seq<Timed>, ci: seq<Timed>, i: nat)
    requires SendLayout(sends, ss) && CutoffsFit(recvs, ss, ci) && i < |ci|
    ensures ci[i].ord in recvs && |Feeding(sends, recvs[ci[i].ord])| == ci[i].time - 1
  {
    FeedingPositions(sends, recvs, ss, ci, i, 0);
    assert CutoffFits(recvs, ss, ci[i]);
    var ords := seq(ci[i].time - 1, j requires 0 <= j < ci[i].time - 1 => ss[j].ord);
    DistinctSize(ords);
    forall s ensures s in Feeding(sends, recvs[ci[i].ord]) <==> s in Elements(ords) {
      FeedingPositions(sends, recvs, ss, ci, i, s);
      if k :| 0 <= k < ci[i].time - 1 && ss[k].ord == s {
        assert ords[k] == s;
      }
    }
    SameSet(Feeding(sends, recvs[ci[i].ord]), Elements(ords));
  }

  lemma CutoffOrder(sends: map<int, int>, recvs: map<int, int>, b: int, ss: seq<Timed>, ci: seq<Timed>, i: nat, j: nat)
    requires Layout(sends, recvs, b, ss, ci) && i < j < |ci|
    ensures ci[i].ord in recvs && ci[j].ord in recvs && Earlier(sends, recvs, ci[i].ord, ci[j].ord)
  {
    FeedingSize(sends, recvs, ss, ci, i);
    FeedingSize(sends, recvs, ss, ci, j);
    assert Before(ci[i], ci[j]) && ci[i].ord != ci[j].ord;
  }

  lemma EdgeTakesLatest(sends: map<int, int>, recvs: map<int, int>, b: int, ss: seq<Timed>, ci: seq<Timed>,
                        p: seq<int>, edges: seq<Edge>, i: nat)
    requires Layout(sends, recvs, b, ss, ci) && Ordered(ss) && EdgesOf(ss, ci, p, edges) && |p| <= |ci| && i < |p|
    requires Assigns(Cutoffs(ci)[..|p|], p) && LatestAt(ci, p, i)
    ensures TakesLatest(sends, recvs, SendsOf(edges[..i]), edges[i])
  {
    hide Assigns, Ordered, CutoffsFit, RecvLayout;
    LayoutParts(sends, recvs, b, ss, ci);
    var e, before := edges[i], SendsOf(edges[..i]);
    PositionBelowCutoff(ci, p, i);
    FeedingPositions(sends, recvs, ss, ci, i, e.send);
    forall j | 0 <= j < i ensures edges[..i][j].send != e.send {
      PositionsApart(ci, p, j, i);
    }
    forall s | s in Feeding(sends, recvs[e.recv]) && sends[s] > e.time ensures s in before {
      FeedingPositions(sends, recvs, ss, ci, i, s);
      var k :| 0 <= k < ci[i].time - 1 && ss[k].ord == s;
      if k <= p[i] - 1 {
        TimesAscend(ss, k, p[i] - 1);
      }
      assert k + 1 in Elements(p[..i]);
      var j :| 0 <= j < i && p[..i][j] == k + 1;
      assert edges[..i][j].send == s;
    }
  }

  lemma PositionBelowCutoff(ci: seq<Timed>, p: seq<int>, i: nat)
    requires i < |p| <= |ci| && Assigns(Cutoffs(ci)[..|p|], p)
    ensures 1 <= p[i] < ci[i].time
  {
    assert p[i] < Cutoffs(ci)[..|p|][i];
  }

  lemma PositionsApart(ci: seq<Timed>, p: seq<int>, i: nat, j: nat)
    requires i < j < |p| <= |ci| && Assigns(Cutoffs(ci)[..|p|], p)
    ensures p[i] != p[j]
  {
  }

  lemma TimesAscend(ss: seq<Timed>, i: nat, j: nat)
    requires Ordered(ss) && i <= j < |ss|
    ensures ss[i].time <= ss[j].time
  {
    assert i == j || Before(ss[i], ss[j]);
  }

  /** A receive not served comes after all that are. */
  lemma UnservedAfter(sends: map<int, int>, recvs: map<int, int>, b: int, ss: seq<Timed>, ci: seq<Timed>,
                      p: seq<int>, edges: seq<Edge>, r: int) returns (i: nat)
    requires Layout(sends, recvs, b, ss, ci) && EdgesOf(ss, ci, p, edges) && Unserved(sends, recvs, edges, r)
    ensures |p| <= i < |ci| && ci[i].ord == r
  {
    var s := Pick(Feeding(sends, recvs[r]));
    NotBoundary(sends, recvs, r, s);
    i :| 0 <= i < |ci| && ci[i].ord == r;
    if i < |p| {
      Served(edges, i);
    }
  }

  lemma Served(edges: seq<Edge>, i: nat)
    requires i < |edges|
    ensures edges[i].recv in RecvsOf(edges) && edges[i].send in SendsOf(edges)
  {
  }

  lemma ServedInOrder(sends: map<int, int>, recvs: map<int, int>, b: int, ss: seq<Timed>, ci: seq<Timed>, p: seq<int>, edges: seq<Edge>)
    requires Layout(sends, recvs, b, ss, ci) && Ordered(ss) && EdgesOf(ss, ci, p, edges) && |p| <= |ci|
    requires Assigns(Cutoffs(ci)[..|p|], p) && forall i :: 0 <= i < |p| ==> LatestAt(ci, p, i)
    ensures LatestFirst(sends, recvs, edges)
  {
    hide Layout, TakesLatest, Earlier, LatestAt, Assigns, Unserved;
    forall i | 0 <= i < |edges| ensures TakesLatest(sends, recvs, SendsOf(edges[..i]), edges[i]) {
      EdgeTakesLatest(sends, recvs, b, ss, ci, p, edges, i);
    }
    EdgesKnown(sends, recvs, b, ss, ci, p, edges);
    forall i, j | 0 <= i < j < |edges| ensures Earlier(sends, recvs, edges[i].recv, edges[j].recv) {
      CutoffOrder(sends, recvs, b, ss, ci, i, j);
    }
    forall r, i | Unserved(sends, recvs, edges, r) && 0 <= i < |edges|
      ensures r in recvs && Earlier(sends, recvs, edges[i].recv, r)
    {
      var j := UnservedAfter(sends, recvs, b, ss, ci, p, edges, r);
      CutoffOrder(sends, recvs, b, ss, ci, i, j);
    }
  }

  lemma EdgesKnown(sends: map<int, int>, recvs: map<int, int>, b: int, ss: seq<Timed>, ci: seq<Timed>, p: seq<int>, edges: seq<Edge>)
    requires Layout(sends, recvs, b, ss, ci) && EdgesOf(ss, ci, p, edges)
    ensures forall i :: 0 <= i < |edges| ==> edges[i].recv in recvs
  {
  }

  lemma NextIsStuck(sends: map<int, int>, recvs: map<int, int>, b: int, ss: seq<Timed>, ci: seq<Timed>, p: seq<int>, edges: seq<Edge>)
    requires Layout(sends, recvs, b, ss, ci) && EdgesOf(ss, ci, p, edges) && |p| < |ci|
    requires forall q :: 1 <= q < ci[|p|].time ==> q in Elements(p)
    ensures StuckAt(sends, recvs, edges, ci[|p|].ord)
  {
    hide Earlier, Layout, SendLayout, RecvLayout, CutoffsFit;
    var n := |p|;
    LayoutParts(sends, recvs, b, ss, ci);
    NextUnserved(sends, recvs, b, ss, ci, p, edges);
    forall s | s in Feeding(sends, recvs[ci[n].ord]) ensures s in SendsOf(edges) {
      FeedingPositions(sends, recvs, ss, ci, n, s);
      var k :| 0 <= k < ci[n].time - 1 && ss[k].ord == s;
      assert k + 1 in Elements(p);
      var j :| 0 <= j < |p| && p[j] == k + 1;
      assert edges[j].send == s;
    }
    forall x | Unserved(sends, recvs, edges, x) && x != ci[n].ord ensures Earlier(sends, recvs, ci[n].ord, x) {
      var j := UnservedAfter(sends, recvs, b, ss, ci, p, edges, x);
      CutoffOrder(sends, recvs, b, ss, ci, n, j);
    }
  }

  lemma NextUnserved(sends: map<int, int>, recvs: map<int, int>, b: int, ss: seq<Timed>, ci: seq<Timed>, p: seq<int>, edges: seq<Edge>)
    requires Layout(sends, recvs, b, ss, ci) && EdgesOf(ss, ci, p, edges) && |p| < |ci|
    ensures Unserved(sends, recvs, edges, ci[|p|].ord)
  {
    var n := |p|;
    assert CutoffFits(recvs, ss, ci[n]);
    FeedingPositions(sends, recvs, ss, ci, n, ss[0].ord);
    forall i | 0 <= i < |edges| ensures edges[i].recv != ci[n].ord {
      assert ci[i].ord != ci[n].ord;
    }
  }

  /** Ascending cutoff, latest free send first; stops when a receive finds no free send. */
  method Greedy(ss: seq<Timed>, ci: seq<Timed>)
    returns (done: bool, avail: set<int>, edges: seq<Edge>, readBy: map<int, seq<int>>, ghost p: seq<int>)
    requires DistinctOrds(ss)
    requires forall i :: 0 <= i < |ci| ==> ci[i].time <= |ss| + 1
    ensures Progress(ss, ci, p, avail, edges, readBy)
    ensures done ==> |p| == |ci|
    ensures !done ==> !Hall(Cutoffs(ci)) && |p| < |ci| && forall q :: 1 <= q < ci[|p|].time ==> q in Elements(p)
  {
    avail, edges, readBy, p := Range(|ss|), [], map[], [];
    assert avail == Range(|ss|) - Elements(p);
    for i := 0 to |ci|
      invariant |p| == i && Progress(ss, ci, p, avail, edges, readBy)
    {
      var q := LatestFree(avail, ci[i].time);
      if q == 0 {
        StuckMeansNoHall(ss, ci, p, avail, edges, readBy);
        NoneFree(ss, p, avail, ci[i].time);
        done := false;
        return;
      }
      var s := ss[q - 1];
      var earlier := if s.ord in readBy then readBy[s.ord] else [];
      ProgressStep(ss, ci, p, avail, edges, readBy, q);
      avail := avail - {q};
      edges := edges + [Edge(ci[i].ord, s.ord, s.time)];
      readBy := readBy[s.ord := earlier + [ci[i].ord]];
      p := p + [q];
    }
    done := true;
  }

  lemma NoneFree(ss: seq<Timed>, p: seq<int>, avail: set<int>, c: int)
    requires avail == Range(|ss|) - Elements(p) && c <= |ss| + 1 && LatestFree(avail, c) == 0
    ensures forall q :: 1 <= q < c ==> q in Elements(p)
  {
    forall q | 1 <= q < c ensures q in Elements(p) {
      assert q in Range(|ss|) && q !in avail;
    }
  }

  /** The part of the algorithm after a single boundary receive `b` has been found. */
  method MatchInterior(ghost sends: map<int, int>, ghost recvs: map<int, int>, b: int,
                       ss: seq<Timed>, ci: seq<Timed>, unique: bool) returns (c: CellMatch)
    requires Layout(sends, recvs, b, ss, ci) && |sends| == |recvs| && |Boundary(sends, recvs)| == 1
    requires |ci| == |ss| - 1 && unique == Tight(Cutoffs(ci)) && Ordered(ss)
    ensures Correct(sends, recvs, c)
  {
    hide Layout, Correct, Tight, Boundary, Progress;
    CutoffsWithin(sends, recvs, b, ss, ci);
    var done, avail, edges, readBy, p := Greedy(ss, ci);
    if !done {
      c := CellMatch(Infeasible, unique, edges, readBy, None, None);
      InfeasibleIsCorrect(sends, recvs, b, ss, ci, p, avail, c);
    } else {
      var outputPos := LatestFree(avail, |ss| + 1);
      OutputExists(ss, ci, p, avail, edges, readBy);
      c := CellMatch(Clean, unique, edges, readBy, Some(b), Some(ss[outputPos - 1].ord));
      CleanIsCorrect(sends, recvs, b, ss, ci, p, avail, c);
    }
  }

  lemma CutoffsWithin(sends: map<int, int>, recvs: map<int, int>, b: int, ss: seq<Timed>, ci: seq<Timed>)
    requires Layout(sends, recvs, b, ss, ci)
    ensures DistinctOrds(ss)
    ensures forall i :: 0 <= i < |ci| ==> ci[i].time <= |ss| + 1
  {
  }

  lemma OutputExists(ss: seq<Timed>, ci: seq<Timed>, p: seq<int>, avail: set<int>,
                     edges: seq<Edge>, readBy: map<int, seq<int>>)
    requires Progress(ss, ci, p, avail, edges, readBy) && |p| == |ss| - 1
    ensures 1 <= LatestFree(avail, |ss| + 1) <= |ss|
  {
    OneLeft(|ss|, p);
    LastOne(avail, |ss|);
  }

  /** Sorts the sends, computes the cutoffs, and separates boundary from interior receives. */
  method Prepare(sends: seq<Timed>, recvs: seq<Timed>) returns (ss: seq<Timed>, boundary: seq<int>, ci: seq<Timed>)
    requires DistinctOrds(sends) && DistinctOrds(recvs)
    ensures |ss| == |sends| && |ci| + |boundary| == |recvs| && Ordered(ss)
    ensures |boundary| == |Boundary(Table(sends), Table(recvs))|
    ensures |boundary| == 1 ==> Layout(Table(sends), Table(recvs), boundary[0], ss, ci)
  {
    hide Layout, Boundary, Sorted, Interior, BoundaryOrds;
    ss := Sorted(sends);
    SortedKeepsDistinctOrds(sends);
    var all := RecvCutoffs(ss, recvs);
    boundary := BoundaryOrds(all);
    BoundaryIsExact(sends, recvs, ss, all);
    ci := Sorted(Interior(all));
    InteriorSize(all);
    if |boundary| == 1 {
      LayoutHolds(sends, recvs, ss, all, boundary[0]);
    }
  }

  /** Matches one cell; `None` stands for the error on two writes at one virtual time. */
  method PrefixMatching(sends: seq<Timed>, recvs: seq<Timed>) returns (r: Option<CellMatch>)
    requires DistinctOrds(sends) && DistinctOrds(recvs)
    ensures r.None? <==> !DistinctTimes(sends)
    ensures r.Some? ==> Correct(Table(sends), Table(recvs), r.value)
  {
    if !DistinctTimes(sends) {
      return None;
    }
    CardinalityOfTable(sends);
    CardinalityOfTable(recvs);
    var k := |sends|;
    if k != |recvs| {
      r := Some(CellMatch(Unbalanced, false, [], map[], None, None));
      UnsolvedIsCorrect(Table(sends), Table(recvs), r.value);
      return;
    }
    var ss, boundary, ci := Prepare(sends, recvs);
    var cutoffs := seq(|ci|, i requires 0 <= i < |ci| => ci[i].time);
    var unique := |boundary| == 1 && |ci| == k - 1 && Tight(cutoffs);
    if |boundary| != 1 {
      r := Some(CellMatch(NoSingleInput, false, [], map[], None, None));
      UnsolvedIsCorrect(Table(sends), Table(recvs), r.value);
      return;
    }
    assert cutoffs == Cutoffs(ci);
    var c := MatchInterior(Table(sends), Table(recvs), boundary[0], ss, ci, unique);
    r := Some(c);
  }

  lemma InteriorSize(all: seq<Timed>)
    requires forall i :: 0 <= i < |all| ==> all[i].time >= 1
    ensures |Sorted(Interior(all))| + |BoundaryOrds(all)| == |all|
  {
    SameMultisetMembers(Sorted(Interior(all)), Interior(all));
  }

  lemma UnsolvedIsCorrect(sends: map<int, int>, recvs: map<int, int>, c: CellMatch)
    requires c.note.Unbalanced? || c.note.NoSingleInput?
    requires c.note.Unbalanced? <==> |sends| != |recvs|
    requires c.note.NoSingleInput? <==> |sends| == |recvs| && |Boundary(sends, recvs)| != 1
    requires !c.unique && c.input.None? && c.output.None? && c.edges == [] && c.readBy == map[]
    ensures Correct(sends, recvs, c)
  {
  }

  lemma InfeasibleIsCorrect(sends: map<int, int>, recvs: map<int, int>, b: int,
                            ss: seq<Timed>, ci: seq<Timed>, p: seq<int>, avail: set<int>, c: CellMatch)
    requires Layout(sends, recvs, b, ss, ci) && |sends| == |recvs| && |Boundary(sends, recvs)| == 1 && Ordered(ss)
    requires c.note.Infeasible? && c.input.None? && c.output.None? && !Hall(Cutoffs(ci))
    requires c.unique ==> Tight(Cutoffs(ci))
    requires Progress(ss, ci, p, avail, c.edges, c.readBy) && |p| < |ci|
    requires forall q :: 1 <= q < ci[|p|].time ==> q in Elements(p)
    ensures Correct(sends, recvs, c)
  {
    hide Layout, LatestFirst, StuckAt, ReadersOf, EdgesOf, LatestAt, Hall;
    SolvableIffHall(sends, recvs, b, ss, ci);
    TightIsHall(ci);
    ServedInOrder(sends, recvs, b, ss, ci, p, c.edges);
    NextIsStuck(sends, recvs, b, ss, ci, p, c.edges);
  }

  lemma TightIsHall(ci: seq<Timed>)
    ensures Tight(Cutoffs(ci)) ==> Hall(Cutoffs(ci))
  {
  }

  lemma CleanIsCorrect(sends: map<int, int>, recvs: map<int, int>, b: int,
                       ss: seq<Timed>, ci: seq<Timed>, p: seq<int>, avail: set<int>, c: CellMatch)
    requires Layout(sends, recvs, b, ss, ci) && |sends| == |recvs| && |Boundary(sends, recvs)| == 1 && Ordered(ss)
    requires Progress(ss, ci, p, avail, c.edges, c.readBy) && |p| == |ci| == |ss| - 1
    requires c.note.Clean? && c.input == Some(b) && c.unique == Tight(Cutoffs(ci))
    requires 1 <= LatestFree(avail, |ss| + 1) <= |ss| && c.output == Some(ss[LatestFree(avail, |ss| + 1) - 1].ord)
    ensures Correct(sends, recvs, c)
  {
    hide LatestFirst, ReadersOf, EdgesOf, LatestAt, IsSolution;
    var m := Reading(c.edges);
    EdgesRead(ss, ci, p, c.edges);
    FinishedReading(sends, recvs, b, ss, ci, p, avail, c.edges, c.readBy, m);
    UniqueIffOnly(sends, recvs, b, ss, ci, m);
    ServedInOrder(sends, recvs, b, ss, ci, p, c.edges);
    assert DescribesReading(sends, recvs, c, m);
    assert Solvable(sends, recvs);
  }

  /** A balanced cell that has a solution is declined exactly when no receive is at the boundary. */
  lemma DeclinedExactly(sends: map<int, int>, recvs: map<int, int>, c: CellMatch)
    requires Correct(sends, recvs, c) && |sends| == |recvs| && Solvable(sends, recvs)
    ensures !c.note.Clean? <==> Boundary(sends, recvs) == {}
  {
    var bs := Boundary(sends, recvs);
    if bs != {} {
      var b := Pick(bs);
      forall b' | b' in bs && b' != b ensures false {
        TwoBoundariesUnsolvable(sends, recvs, b, b');
      }
      assert bs == {b};
    }
  }

  /** A write followed by a read that may take it: the read is not at the boundary. */
  const OPEN_SENDS: seq<Timed> := [Timed(0, 1)]
  const OPEN_RECVS: seq<Timed> := [Timed(5, 2)]

  /** The matching of this balanced cell is declined although the cell has a solution: the guard on a single boundary,
      not the existence of a matching, decides the note. */
  method DeclinesOpenCell() returns (r: Option<CellMatch>)
    ensures r.Some? && r.value.note.NoSingleInput?
    ensures |OPEN_SENDS| == |OPEN_RECVS| && Solvable(Table(OPEN_SENDS), Table(OPEN_RECVS))
  {
    hide Correct;
    r := PrefixMatching(OPEN_SENDS, OPEN_RECVS);
    OpenCellSolvable(OPEN_SENDS, OPEN_RECVS);
    CardinalityOfTable(OPEN_SENDS);
    CardinalityOfTable(OPEN_RECVS);
    NoteOfOpenCell(Table(OPEN_SENDS), Table(OPEN_RECVS), r.value);
  }

  lemma SingleTable(ts: seq<Timed>, o: int, t: int)
    requires ts == [Timed(t, o)]
    ensures Table(ts) == map[o := t]
  {
    TableAt(ts, 0);
  }

  lemma OpenCellSolvable(sends: seq<Timed>, recvs: seq<Timed>)
    requires sends == [Timed(0, 1)] && recvs == [Timed(5, 2)]
    ensures Solvable(Table(sends), Table(recvs)) && Boundary(Table(sends), Table(recvs)) == {}
  {
    SingleTable(sends, 1, 0);
    SingleTable(recvs, 2, 5);
    OpenTables(Table(sends), Table(recvs));
  }

  lemma OpenTables(sends: map<int, int>, recvs: map<int, int>)
    requires sends == map[1 := 0] && recvs == map[2 := 5]
    ensures Solvable(sends, recvs) && Boundary(sends, recvs) == {}
  {
    var none: map<int, int> := map[];
    NotBoundary(sends, recvs, 2, 1);
    assert IsSolution(sends, recvs, 2, none);
  }

  lemma NoteOfOpenCell(sends: map<int, int>, recvs: map<int, int>, c: CellMatch)
    requires Correct(sends, recvs, c) && |sends| == |recvs| && Boundary(sends, recvs) == {}
    ensures c.note.NoSingleInput?
  {
  }
}
