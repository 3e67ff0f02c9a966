/** Virtual times: offsets of clock columns as exact potentials on the graph of gaps. */
module ClockOffsets {
  import opened Wrappers
  import opened Sets

  /** `later` is `gap` ticks after `earlier`. */
  datatype Gap = Gap(earlier: string, later: string, gap: int)

  /** An edge to a neighbour and the step in time along it. */
  datatype Edge = Edge(to: string, step: int)

  // ---- Meaning ----

  /** `time` satisfies every gap that starts in `cols`. */
  ghost predicate Satisfies(gaps: seq<Gap>, cols: set<string>, time: string -> int) {
    forall i :: 0 <= i < |gaps| && gaps[i].earlier in cols ==> time(gaps[i].later) == time(gaps[i].earlier) + gaps[i].gap
  }

  /** No gap leaves `cols`. */
  ghost predicate Closed(gaps: seq<Gap>, cols: set<string>) {
    forall i :: 0 <= i < |gaps| ==> (gaps[i].earlier in cols <==> gaps[i].later in cols)
  }

  /** `cols` is the connected component of `root`. */
  ghost predicate IsComponent(gaps: seq<Gap>, root: string, cols: set<string>) {
    && root in cols && Closed(gaps, cols)
    && forall d :: Closed(gaps, d) && root in d ==> cols <= d
  }

  /** All satisfying times agree with `rel` up to the time of the root. */
  ghost predicate Forces(gaps: seq<Gap>, root: string, rel: map<string, int>) {
    forall time, c :: Satisfies(gaps, rel.Keys, time) && c in rel ==> time(c) == time(root) + rel[c]
  }

  ghost predicate Unsatisfiable(gaps: seq<Gap>, cols: set<string>) {
    forall time :: !Satisfies(gaps, cols, time)
  }

  ghost function TimeOf(rel: map<string, int>): string -> int {
    (c: string) => if c in rel then rel[c] else 0
  }

  // ---- Adjacency ----

  ghost predicate Steps(gaps: seq<Gap>, i: int, c: string, e: Edge) {
    && 0 <= i < |gaps|
    && ((c == gaps[i].earlier && e == Edge(gaps[i].later, gaps[i].gap))
        || (c == gaps[i].later && e == Edge(gaps[i].earlier, -gaps[i].gap)))
  }

  function Edges(adj: map<string, seq<Edge>>, c: string): seq<Edge> {
    if c in adj then adj[c] else []
  }

  /** The lists hold exactly the two directions of every gap below `n`. */
  ghost predicate IsAdjacency(gaps: seq<Gap>, n: int, adj: map<string, seq<Edge>>) {
    && (forall c, e :: e in Edges(adj, c) ==> exists i :: i < n && Steps(gaps, i, c, e))
    && (forall i, c, e :: i < n && Steps(gaps, i, c, e) ==> e in Edges(adj, c))
  }

  function AddEdge(adj: map<string, seq<Edge>>, c: string, e: Edge): map<string, seq<Edge>> {
    adj[c := Edges(adj, c) + [e]]
  }

  lemma AddEdgeHas(adj: map<string, seq<Edge>>, c: string, e: Edge)
    ensures forall d, f :: f in Edges(AddEdge(adj, c, e), d) <==> f in Edges(adj, d) || (d == c && f == e)
  {
  }

  method BuildAdjacency(gaps: seq<Gap>) returns (adj: map<string, seq<Edge>>)
    ensures IsAdjacency(gaps, |gaps|, adj)
  {
    adj := map[];
    for i := 0 to |gaps|
      invariant IsAdjacency(gaps, i, adj)
    {
      var g := gaps[i];
      var one := AddEdge(adj, g.earlier, Edge(g.later, g.gap));
      AddEdgeHas(adj, g.earlier, Edge(g.later, g.gap));
      AddEdgeHas(one, g.later, Edge(g.earlier, -g.gap));
      GapEntered(gaps, i, adj, AddEdge(one, g.later, Edge(g.earlier, -g.gap)));
      adj := AddEdge(one, g.later, Edge(g.earlier, -g.gap));
    }
  }

  lemma GapEntered(gaps: seq<Gap>, i: nat, before: map<string, seq<Edge>>, after: map<string, seq<Edge>>)
    requires i < |gaps| && IsAdjacency(gaps, i, before)
    requires forall c, e :: e in Edges(after, c) <==> e in Edges(before, c) || Steps(gaps, i, c, e)
    ensures IsAdjacency(gaps, i + 1, after)
  {
    var n := i + 1;
    forall c, e | e in Edges(after, c) ensures exists k :: k < n && Steps(gaps, k, c, e) {
      if e in Edges(before, c) {
        var k :| k < i && Steps(gaps, k, c, e);
        assert k < n;
      } else {
        assert i < n && Steps(gaps, i, c, e);
      }
    }
    forall k, c, e | k < n && Steps(gaps, k, c, e) ensures e in Edges(after, c) {
      assert k == i || k < i;
    }
  }

  // ---- One component ----

  /** Nodes off the queue have all their neighbours, at consistent times unless a conflict was seen. */
  ghost predicate Explored(adj: map<string, seq<Edge>>, rel: map<string, int>, done: set<string>, ok: bool) {
    forall c, e :: c in done && e in Edges(adj, c) ==> c in rel && e.to in rel && (ok ==> rel[e.to] == rel[c] + e.step)
  }

  ghost predicate Search(gaps: seq<Gap>, root: string, visited: set<string>, rel: map<string, int>, ok: bool) {
    && root in rel && rel.Keys !! visited
    && (forall d :: Closed(gaps, d) && root in d ==> rel.Keys <= d)
    && Forces(gaps, root, rel)
    && (!ok ==> Unsatisfiable(gaps, rel.Keys))
  }

  /** Follows an edge from a known column. */
  lemma EdgeForces(gaps: seq<Gap>, root: string, rel: map<string, int>, i: int, c: string, e: Edge, time: string -> int)
    requires Steps(gaps, i, c, e) && c in rel && Forces(gaps, root, rel)
    ensures Satisfies(gaps, rel.Keys + {e.to}, time) ==> time(e.to) == time(root) + rel[c] + e.step
  {
    if Satisfies(gaps, rel.Keys + {e.to}, time) {
      assert Satisfies(gaps, rel.Keys, time);
      assert time(c) == time(root) + rel[c];
      assert time(gaps[i].later) == time(gaps[i].earlier) + gaps[i].gap;
    }
  }

  lemma NewColumn(gaps: seq<Gap>, root: string, visited: set<string>, rel: map<string, int>, ok: bool, i: int, c: string, e: Edge)
    requires Search(gaps, root, visited, rel, ok) && Closed(gaps, visited) && Steps(gaps, i, c, e) && c in rel && e.to !in rel
    ensures Search(gaps, root, visited, rel[e.to := rel[c] + e.step], ok)
  {
    var rel' := rel[e.to := rel[c] + e.step];
    assert rel'.Keys == rel.Keys + {e.to};
    forall time, x | Satisfies(gaps, rel'.Keys, time) && x in rel' ensures time(x) == time(root) + rel'[x] {
      assert Satisfies(gaps, rel.Keys, time);
      EdgeForces(gaps, root, rel, i, c, e, time);
    }
    forall d | Closed(gaps, d) && root in d ensures rel'.Keys <= d {
      assert rel.Keys <= d;
    }
    forall time ensures !ok ==> !Satisfies(gaps, rel'.Keys, time) {
      assert Satisfies(gaps, rel'.Keys, time) ==> Satisfies(gaps, rel.Keys, time);
    }
  }

  lemma Conflict(gaps: seq<Gap>, root: string, visited: set<string>, rel: map<string, int>, ok: bool, i: int, c: string, e: Edge)
    requires Search(gaps, root, visited, rel, ok) && Steps(gaps, i, c, e) && c in rel && e.to in rel
    requires rel[e.to] != rel[c] + e.step
    ensures Search(gaps, root, visited, rel, false)
  {
    assert rel.Keys + {e.to} == rel.Keys;
    forall time ensures !Satisfies(gaps, rel.Keys, time) {
      EdgeForces(gaps, root, rel, i, c, e, time);
      ForcedAt(gaps, root, rel, e.to, time);
    }
  }

  lemma ForcedAt(gaps: seq<Gap>, root: string, rel: map<string, int>, c: string, time: string -> int)
    requires Forces(gaps, root, rel) && c in rel
    ensures Satisfies(gaps, rel.Keys, time) ==> time(c) == time(root) + rel[c]
  {
  }

  /** Visits the neighbours of `c`. */
  method Expand(gaps: seq<Gap>, adj: map<string, seq<Edge>>, ghost root: string, ghost visited: set<string>, ghost done: set<string>,
                c: string, rel0: map<string, int>, queue0: seq<string>, ok0: bool)
    returns (rel: map<string, int>, queue: seq<string>, ok: bool)
    requires IsAdjacency(gaps, |gaps|, adj) && Closed(gaps, visited) && Search(gaps, root, visited, rel0, ok0) && c in rel0
    requires Explored(adj, rel0, done, ok0)
    requires forall x :: x in rel0 ==> x in done || x in queue0 || x == c
    requires forall x :: x in queue0 ==> x in rel0
    ensures Search(gaps, root, visited, rel, ok) && Explored(adj, rel, done + {c}, ok)
    ensures forall x :: x in rel ==> x in done || x in queue || x == c
    ensures forall x :: x in queue ==> x in rel
    ensures rel0.Keys <= rel.Keys && (rel.Keys == rel0.Keys ==> queue == queue0)
    ensures rel.Keys <= rel0.Keys + Columns(gaps)
  {
    hide Search, Closed;
    rel, queue, ok := rel0, queue0, ok0;
    var es := Edges(adj, c);
    for k := 0 to |es|
      invariant Search(gaps, root, visited, rel, ok) && c in rel && rel0.Keys <= rel.Keys <= rel0.Keys + Columns(gaps)
      invariant Explored(adj, rel, done, ok)
      invariant forall x :: x in rel ==> x in done || x in queue || x == c
      invariant forall x :: x in queue ==> x in rel
      invariant rel.Keys == rel0.Keys ==> queue == queue0
      invariant forall j :: 0 <= j < k ==> es[j].to in rel && (ok ==> rel[es[j].to] == rel[c] + es[j].step)
    {
      var e := es[k];
      assert e in Edges(adj, c);
      ghost var i :| i < |gaps| && Steps(gaps, i, c, e);
      ColumnsHas(gaps, i);
      if e.to in rel {
        if rel[e.to] != rel[c] + e.step {
          Conflict(gaps, root, visited, rel, ok, i, c, e);
          ok := false;
        }
      } else {
        NewColumn(gaps, root, visited, rel, ok, i, c, e);
        rel := rel[e.to := rel[c] + e.step];
        queue := queue + [e.to];
      }
    }
  }

  ghost function Columns(gaps: seq<Gap>): set<string> {
    (set i | 0 <= i < |gaps| :: gaps[i].earlier) + (set i | 0 <= i < |gaps| :: gaps[i].later)
  }

  lemma ColumnsHas(gaps: seq<Gap>, i: int)
    requires 0 <= i < |gaps|
    ensures gaps[i].earlier in Columns(gaps) && gaps[i].later in Columns(gaps)
  {
  }

  /** The component of `root` with times relative to it. */
  method Explore(gaps: seq<Gap>, adj: map<string, seq<Edge>>, root: string, ghost visited: set<string>)
    returns (rel: map<string, int>, ok: bool)
    requires IsAdjacency(gaps, |gaps|, adj) && Closed(gaps, visited) && root !in visited
    ensures IsComponent(gaps, root, rel.Keys) && rel.Keys !! visited
    ensures Forces(gaps, root, rel)
    ensures ok ==> Satisfies(gaps, rel.Keys, TimeOf(rel))
    ensures !ok ==> Unsatisfiable(gaps, rel.Keys)
  {
    rel, ok := map[root := 0], true;
    var queue := [root];
    ghost var done: set<string> := {};
    ghost var universe := {root} + Columns(gaps);
    while queue != []
      invariant Search(gaps, root, visited, rel, ok) && Explored(adj, rel, done, ok)
      invariant forall x :: x in rel ==> x in done || x in queue
      invariant forall x :: x in queue ==> x in rel
      invariant rel.Keys <= universe
      decreases |universe - rel.Keys|, |queue|
    {
      var c := queue[|queue| - 1];
      ghost var before := rel.Keys;
      ghost var was := queue;
      assert queue == queue[..|queue| - 1] + [c];
      rel, queue, ok := Expand(gaps, adj, root, visited, done, c, rel, queue[..|queue| - 1], ok);
      done := done + {c};
      Fewer(universe, before, rel.Keys);
    }
    ExploredIsClosed(gaps, adj, rel, done, ok);
  }

  lemma Fewer(universe: set<string>, before: set<string>, after: set<string>)
    requires before <= after <= universe
    ensures after == before || |universe - after| < |universe - before|
  {
    assert universe - before == (universe - after) + (after - before);
    if after != before {
      assert after - before != {};
    }
  }

  lemma ExploredIsClosed(gaps: seq<Gap>, adj: map<string, seq<Edge>>, rel: map<string, int>, done: set<string>, ok: bool)
    requires IsAdjacency(gaps, |gaps|, adj) && Explored(adj, rel, done, ok) && forall x :: x in rel ==> x in done
    ensures Closed(gaps, rel.Keys)
    ensures ok ==> Satisfies(gaps, rel.Keys, TimeOf(rel))
  {
    forall i | 0 <= i < |gaps|
      ensures gaps[i].earlier in rel.Keys <==> gaps[i].later in rel.Keys
      ensures ok && gaps[i].earlier in rel ==> TimeOf(rel)(gaps[i].later) == TimeOf(rel)(gaps[i].earlier) + gaps[i].gap
    {
      var g := gaps[i];
      assert Steps(gaps, i, g.earlier, Edge(g.later, g.gap));
      assert Steps(gaps, i, g.later, Edge(g.earlier, -g.gap));
      assert Edge(g.later, g.gap) in Edges(adj, g.earlier);
      assert Edge(g.earlier, -g.gap) in Edges(adj, g.later);
    }
  }

  // ---- All components ----

  ghost predicate IsLeast(rel: map<string, int>, cols: set<string>, b: int)
    requires cols <= rel.Keys
  {
    (exists c :: c in cols && rel[c] == b) && forall c :: c in cols ==> b <= rel[c]
  }

  /** The smallest time of `cols`. */
  method Least(rel: map<string, int>, cols: set<string>) returns (b: int)
    requires cols != {} && cols <= rel.Keys
    ensures IsLeast(rel, cols, b)
  {
    var first := AnyOf(cols);
    b := rel[first];
    var todo := cols - {first};
    while todo != {}
      invariant todo <= cols && IsLeast(rel, cols - todo, b)
      decreases |todo|
    {
      var c := AnyOf(todo);
      assert cols - (todo - {c}) == (cols - todo) + {c};
      LeastStep(rel, cols - todo, c, b);
      if rel[c] < b {
        b := rel[c];
      }
      todo := todo - {c};
    }
    assert cols - todo == cols;
  }

  lemma LeastStep(rel: map<string, int>, cols: set<string>, c: string, b: int)
    requires cols <= rel.Keys && c in rel && IsLeast(rel, cols, b)
    ensures IsLeast(rel, cols + {c}, if rel[c] < b then rel[c] else b)
  {
    var x :| x in cols && rel[x] == b;
    assert x in cols + {c} && c in cols + {c};
  }

  ghost function ComponentOf(component: map<string, nat>, k: nat): set<string> {
    set c | c in component && component[c] == k
  }

  /** The offsets of component `cols`: absent when its gaps contradict each other; otherwise the unique
      potential with minimum 0, from which every satisfying time differs by one constant. */
  ghost predicate ExactOffsets(gaps: seq<Gap>, cols: set<string>, offsets: map<string, Option<int>>) {
    && cols <= offsets.Keys
    && (Unsatisfiable(gaps, cols) ==> forall c :: c in cols ==> offsets[c].None?)
    && (!Unsatisfiable(gaps, cols) ==>
          && (forall c :: c in cols ==> offsets[c].Some? && offsets[c].value >= 0)
          && (exists c :: c in cols && offsets[c] == Some(0))
          && Satisfies(gaps, cols, OffsetOf(offsets))
          && forall time :: Satisfies(gaps, cols, time) ==> exists t :: ShiftedBy(cols, offsets, time, t))
  }

  ghost function OffsetOf(offsets: map<string, Option<int>>): string -> int {
    (c: string) => if c in offsets && offsets[c].Some? then offsets[c].value else 0
  }

  ghost predicate ShiftedBy(cols: set<string>, offsets: map<string, Option<int>>, time: string -> int, t: int) {
    forall c :: c in cols ==> c in offsets && offsets[c].Some? && time(c) == t + offsets[c].value
  }

  function Normalized(rel: map<string, int>, ok: bool, b: int): (r: map<string, Option<int>>)
    ensures r.Keys == rel.Keys
  {
    map c | c in rel :: if ok then Some(rel[c] - b) else None
  }

  lemma NormalizedIsExact(gaps: seq<Gap>, root: string, rel: map<string, int>, ok: bool, b: int)
    requires root in rel && Forces(gaps, root, rel) && Closed(gaps, rel.Keys) && IsLeast(rel, rel.Keys, b)
    requires ok ==> Satisfies(gaps, rel.Keys, TimeOf(rel))
    requires !ok ==> Unsatisfiable(gaps, rel.Keys)
    ensures ExactOffsets(gaps, rel.Keys, Normalized(rel, ok, b))
  {
    if ok {
      var offsets := Normalized(rel, true, b);
      assert !Unsatisfiable(gaps, rel.Keys);
      var c0 :| c0 in rel.Keys && rel[c0] == b;
      assert offsets[c0] == Some(0);
      forall i | 0 <= i < |gaps| && gaps[i].earlier in rel.Keys
        ensures OffsetOf(offsets)(gaps[i].later) == OffsetOf(offsets)(gaps[i].earlier) + gaps[i].gap
      {
        assert TimeOf(rel)(gaps[i].later) == TimeOf(rel)(gaps[i].earlier) + gaps[i].gap;
      }
      forall time | Satisfies(gaps, rel.Keys, time) ensures exists t :: ShiftedBy(rel.Keys, offsets, time, t) {
        forall c | c in rel.Keys ensures time(c) == time(root) + b + offsets[c].value {
          ForcedAt(gaps, root, rel, c, time);
        }
        assert ShiftedBy(rel.Keys, offsets, time, time(root) + b);
      }
    }
  }

  /** The components found so far. */
  ghost predicate Components(gaps: seq<Gap>, n: nat, component: map<string, nat>, offsets: map<string, Option<int>>) {
    && component.Keys == offsets.Keys
    && (forall c :: c in component ==> component[c] < n)
    && (forall k :: 0 <= k < n ==> GoodComponent(gaps, ComponentOf(component, k), offsets))
  }

  ghost predicate GoodComponent(gaps: seq<Gap>, cols: set<string>, offsets: map<string, Option<int>>) {
    (exists root :: IsComponent(gaps, root, cols)) && ExactOffsets(gaps, cols, offsets)
  }

  function Labelled(component: map<string, nat>, rel: map<string, int>, k: nat): map<string, nat> {
    component + map c | c in rel :: k
  }

  lemma OtherOffsetsKept(gaps: seq<Gap>, cols: set<string>, offsets: map<string, Option<int>>, more: map<string, Option<int>>)
    requires ExactOffsets(gaps, cols, offsets) && Closed(gaps, cols) && cols !! more.Keys
    ensures ExactOffsets(gaps, cols, offsets + more)
  {
    var all := offsets + more;
    forall c | c in cols ensures c in all && all[c] == offsets[c] {
    }
    if !Unsatisfiable(gaps, cols) {
      var c0 :| c0 in cols && offsets[c0] == Some(0);
      assert all[c0] == Some(0);
      forall time | Satisfies(gaps, cols, time) ensures exists t :: ShiftedBy(cols, all, time, t) {
        var t :| ShiftedBy(cols, offsets, time, t);
        assert ShiftedBy(cols, all, time, t);
      }
    }
  }

  lemma NewOffsetsKept(gaps: seq<Gap>, cols: set<string>, offsets: map<string, Option<int>>, more: map<string, Option<int>>)
    requires ExactOffsets(gaps, cols, more) && Closed(gaps, cols) && more.Keys == cols
    ensures ExactOffsets(gaps, cols, offsets + more)
  {
    var all := offsets + more;
    forall c | c in cols ensures c in all && all[c] == more[c] {
    }
    if !Unsatisfiable(gaps, cols) {
      var c0 :| c0 in cols && more[c0] == Some(0);
      assert all[c0] == Some(0);
      forall time | Satisfies(gaps, cols, time) ensures exists t :: ShiftedBy(cols, all, time, t) {
        var t :| ShiftedBy(cols, more, time, t);
        assert ShiftedBy(cols, all, time, t);
      }
    }
  }

  lemma AddComponent(gaps: seq<Gap>, n: nat, component: map<string, nat>, offsets: map<string, Option<int>>, root: string, rel: map<string, int>, ok: bool, b: int)
    requires Components(gaps, n, component, offsets) && IsComponent(gaps, root, rel.Keys) && rel.Keys !! component.Keys
    requires ExactOffsets(gaps, rel.Keys, Normalized(rel, ok, b))
    ensures Components(gaps, n + 1, Labelled(component, rel, n), offsets + Normalized(rel, ok, b))
  {
    var component', offsets' := Labelled(component, rel, n), offsets + Normalized(rel, ok, b);
    var m := n + 1;
    forall k | 0 <= k < m ensures GoodComponent(gaps, ComponentOf(component', k), offsets') {
      if k < n {
        assert ComponentOf(component', k) == ComponentOf(component, k);
        var r :| IsComponent(gaps, r, ComponentOf(component, k));
        assert ComponentOf(component, k) !! rel.Keys;
        OtherOffsetsKept(gaps, ComponentOf(component, k), offsets, Normalized(rel, ok, b));
      } else {
        assert ComponentOf(component', n) == rel.Keys;
        NewOffsetsKept(gaps, rel.Keys, offsets, Normalized(rel, ok, b));
      }
    }
  }

  /** Offsets and component of every clock column. */
  method Offsets(gaps: seq<Gap>, cols: seq<string>) returns (offsets: map<string, Option<int>>, component: map<string, nat>, ghost n: nat)
    ensures Components(gaps, n, component, offsets)
    ensures forall c :: c in cols ==> c in component
  {
    var adj := BuildAdjacency(gaps);
    offsets, component, n := map[], map[], 0;
    var next: nat := 0;
    for i := 0 to |cols|
      invariant Components(gaps, n, component, offsets) && n == next
      invariant Closed(gaps, component.Keys)
      invariant forall j :: 0 <= j < i ==> cols[j] in component
    {
      if cols[i] !in component {
        var rel, ok := Explore(gaps, adj, cols[i], component.Keys);
        var b := Least(rel, rel.Keys);
        NormalizedIsExact(gaps, cols[i], rel, ok, b);
        AddComponent(gaps, n, component, offsets, cols[i], rel, ok, b);
        ClosedUnion(gaps, component.Keys, rel.Keys);
        component := Labelled(component, rel, next);
        offsets := offsets + Normalized(rel, ok, b);
        next, n := next + 1, n + 1;
      }
    }
  }

  lemma ClosedUnion(gaps: seq<Gap>, a: set<string>, b: set<string>)
    requires Closed(gaps, a) && Closed(gaps, b)
    ensures Closed(gaps, a + b)
  {
  }

  // ---- Offsets of the send clocks ----

  ghost predicate SendIn(component: map<string, nat>, offsets: map<string, Option<int>>, send: Option<string>, k: nat) {
    && send.Some? && send.value in component && component[send.value] == k
    && send.value in offsets && offsets[send.value].Some?
  }

  /** Every send clock lies in the conflict-free component `k`. */
  ghost predicate CommonBase(component: map<string, nat>, offsets: map<string, Option<int>>, sends: seq<Option<string>>, k: nat) {
    sends != [] && forall i :: 0 <= i < |sends| ==> SendIn(component, offsets, sends[i], k)
  }

  function NoOffsets(cols: seq<string>): map<string, Option<int>> {
    map c | c in cols :: None
  }

  function OffsetsOf(cols: seq<string>, component: map<string, nat>, offsets: map<string, Option<int>>, k: nat): map<string, Option<int>> {
    map c | c in cols :: if c in component && component[c] == k && c in offsets then offsets[c] else None
  }

  /** Offsets against the common base of all send clocks; nothing is resolved unless there is one. */
  method SendOffsets(cols: seq<string>, component: map<string, nat>, offsets: map<string, Option<int>>, sends: seq<Option<string>>)
    returns (r: map<string, Option<int>>)
    ensures forall k :: CommonBase(component, offsets, sends, k) ==> r == OffsetsOf(cols, component, offsets, k)
    ensures (forall k :: !CommonBase(component, offsets, sends, k)) ==> r == NoOffsets(cols)
  {
    hide OffsetsOf, NoOffsets;
    var bases: set<nat> := {};
    for i := 0 to |sends|
      invariant forall k :: k in bases <==> exists j :: 0 <= j < i && SendIn(component, offsets, sends[j], k)
      invariant forall j :: 0 <= j < i ==> exists k :: k in bases && SendIn(component, offsets, sends[j], k)
    {
      var s := sends[i];
      if s.None? || s.value !in component || s.value !in offsets || offsets[s.value].None? {
        assert forall k :: !SendIn(component, offsets, s, k);
        return NoOffsets(cols);
      }
      assert SendIn(component, offsets, s, component[s.value]);
      bases := bases + {component[s.value]};
    }
    if |bases| != 1 {
      NoCommonBase(component, offsets, sends, bases);
      return NoOffsets(cols);
    }
    var main := AnyOf(bases);
    OneBase(component, offsets, sends, bases, main);
    return OffsetsOf(cols, component, offsets, main);
  }

  lemma NoCommonBase(component: map<string, nat>, offsets: map<string, Option<int>>, sends: seq<Option<string>>, bases: set<nat>)
    requires forall k :: k in bases <==> exists j :: 0 <= j < |sends| && SendIn(component, offsets, sends[j], k)
    requires |bases| != 1
    ensures forall k :: !CommonBase(component, offsets, sends, k)
  {
    forall k: nat ensures !CommonBase(component, offsets, sends, k) {
      if CommonBase(component, offsets, sends, k) {
        CommonGivesOne(component, offsets, sends, bases, k);
      }
    }
  }

  lemma CommonGivesOne(component: map<string, nat>, offsets: map<string, Option<int>>, sends: seq<Option<string>>, bases: set<nat>, k: nat)
    requires forall l :: l in bases <==> exists j :: 0 <= j < |sends| && SendIn(component, offsets, sends[j], l)
    requires CommonBase(component, offsets, sends, k)
    ensures bases == {k}
  {
    assert SendIn(component, offsets, sends[0], k);
    forall l | l in bases ensures l == k {
      var j :| 0 <= j < |sends| && SendIn(component, offsets, sends[j], l);
      assert SendIn(component, offsets, sends[j], k);
    }
  }

  lemma OneBase(component: map<string, nat>, offsets: map<string, Option<int>>, sends: seq<Option<string>>, bases: set<nat>, main: nat)
    requires forall k :: k in bases <==> exists j :: 0 <= j < |sends| && SendIn(component, offsets, sends[j], k)
    requires forall j :: 0 <= j < |sends| ==> exists k :: k in bases && SendIn(component, offsets, sends[j], k)
    requires |bases| == 1 && main in bases
    ensures CommonBase(component, offsets, sends, main)
    ensures forall k :: CommonBase(component, offsets, sends, k) ==> k == main
  {
    OnlyElement(bases, main);
    var j :| 0 <= j < |sends| && SendIn(component, offsets, sends[j], main);
    forall i | 0 <= i < |sends| ensures SendIn(component, offsets, sends[i], main) {
      var k :| k in bases && SendIn(component, offsets, sends[i], k);
    }
  }

  /** Resolved clock columns are exact: in every time assignment satisfying the gaps they differ by the
      difference of their offsets. */
  lemma ResolvedAreExact(gaps: seq<Gap>, n: nat, component: map<string, nat>, offsets: map<string, Option<int>>, k: nat,
                         cols: seq<string>, time: string -> int, c: string, d: string)
    requires Components(gaps, n, component, offsets) && Satisfies(gaps, component.Keys, time)
    requires var r := OffsetsOf(cols, component, offsets, k); c in r && d in r && r[c].Some? && r[d].Some?
    ensures var r := OffsetsOf(cols, component, offsets, k); time(d) - time(c) == r[d].value - r[c].value
  {
    var comp := ComponentOf(component, k);
    assert c in comp && d in comp;
    assert GoodComponent(gaps, comp, offsets);
    assert Satisfies(gaps, comp, time);
    var t :| ShiftedBy(comp, offsets, time, t);
  }

  // ---- Receive thresholds ----

  /** A receive's witness is at most `bound` ticks after the column `clock`. */
  datatype Upper = Upper(clock: string, bound: int)

  ghost predicate Resolves(soff: map<string, Option<int>>, u: Upper) {
    u.clock in soff && soff[u.clock].Some?
  }

  /** A bound on the witness, against the common base. */
  ghost predicate BoundAt(soff: map<string, Option<int>>, uppers: seq<Upper>, i: int, t: int) {
    0 <= i < |uppers| && Resolves(soff, uppers[i]) && t == soff[uppers[i].clock].value + uppers[i].bound
  }

  /** `best` is the intersection of the resolved bounds among the first `n`. */
  ghost predicate Tightest(soff: map<string, Option<int>>, uppers: seq<Upper>, n: int, best: Option<int>) {
    && (best.None? ==> forall i, t :: i < n ==> !BoundAt(soff, uppers, i, t))
    && (best.Some? ==>
          && (forall i, t :: i < n && BoundAt(soff, uppers, i, t) ==> best.value <= t)
          && (exists i :: i < n && BoundAt(soff, uppers, i, best.value)))
  }

  /** The bounds that resolve, taken together. */
  method RecvThreshold(uppers: seq<Upper>, soff: map<string, Option<int>>) returns (best: Option<int>)
    ensures Tightest(soff, uppers, |uppers|, best)
  {
    best := None;
    for i := 0 to |uppers|
      invariant Tightest(soff, uppers, i, best)
    {
      var u := uppers[i];
      if u.clock in soff && soff[u.clock].Some? {
        var t := soff[u.clock].value + u.bound;
        assert BoundAt(soff, uppers, i, t);
        if best.None? || t < best.value {
          best := Some(t);
        }
      }
    }
  }

  /** A witness meets the threshold exactly when it meets every resolved bound. */
  lemma ThresholdIsIntersection(soff: map<string, Option<int>>, uppers: seq<Upper>, best: int, stamp: int)
    requires Tightest(soff, uppers, |uppers|, Some(best))
    ensures stamp <= best <==> forall i, t :: BoundAt(soff, uppers, i, t) ==> stamp <= t
  {
    var i :| i < |uppers| && BoundAt(soff, uppers, i, best);
  }
}
