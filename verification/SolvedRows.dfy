/** The solved form of an address space: one annotated row per interaction. */
module SolvedRows {
  import opened Wrappers
  import opened Sets
  import opened Rows
  import opened CellMatching
  import opened MemoryWorlds
  import opened Forcing
  import opened SymbolicSolve

  datatype Io = Inner | Entry | Exit

  datatype SolvedRow = SolvedRow(kind: Kind, io: Io, readsFrom: Option<int>, readBy: seq<int>, forced: bool)

  predicate Says(f: map<Claim, bool>, c: Claim) {
    c in f && f[c]
  }

  function ReadersOfSend(c: CellMatch, s: int): seq<int> {
    if s in c.readBy then c.readBy[s] else []
  }

  predicate EachSays(f: map<Claim, bool>, readers: seq<int>, s: int) {
    forall i :: 0 <= i < |readers| ==> Says(f, EdgeClaim(readers[i], s))
  }

  /** What a row says: its place in the matching of its cell, and whether that place is forced. */
  ghost predicate Tells(c: CellMatch, f: map<Claim, bool>, kind: Kind, o: int, row: SolvedRow) {
    && row.kind == kind
    && (!c.note.Clean? ==> !row.forced)
    && (c.note.Clean? ==> if kind.Recv? then TellsReceive(c, f, o, row) else TellsSend(c, f, o, row))
  }

  ghost predicate TellsReceive(c: CellMatch, f: map<Claim, bool>, r: int, row: SolvedRow) {
    if c.input == Some(r) then row.io.Entry? && row.readsFrom.None? && row.forced == Says(f, InputClaim(r))
    else
      && row.io.Inner? && r in Reading(c.edges) && row.readsFrom == Some(Reading(c.edges)[r])
      && row.forced == Says(f, EdgeClaim(r, Reading(c.edges)[r]))
  }

  ghost predicate TellsSend(c: CellMatch, f: map<Claim, bool>, s: int, row: SolvedRow) {
    && row.readBy == ReadersOfSend(c, s)
    && if c.output == Some(s) then row.io.Exit? && row.forced == Says(f, OutputClaim(s))
       else row.io.Inner? && row.forced == (row.readBy != [] && EachSays(f, row.readBy, s))
  }

  ghost predicate AllTell(c: CellMatch, f: map<Claim, bool>, kind: Kind, rows: seq<Timed>, view: map<int, SolvedRow>) {
    forall i :: 0 <= i < |rows| ==> rows[i].ord in view && Tells(c, f, kind, rows[i].ord, view[rows[i].ord])
  }

  /** The rows of a cell without a clean matching. */
  function Unsolved(kind: Kind, rows: seq<Timed>): (view: map<int, SolvedRow>)
    ensures view.Keys == RowNumbers(rows)
    ensures forall o :: o in view ==> view[o] == SolvedRow(kind, Inner, None, [], false)
  {
    map o | o in RowNumbers(rows) :: SolvedRow(kind, Inner, None, [], false)
  }

  /** The interior receives of a clean cell, whose edges describe `m`. */
  method EdgeRows(edges: seq<Edge>, f: map<Claim, bool>, ghost m: map<int, int>) returns (view: map<int, SolvedRow>)
    requires forall i :: 0 <= i < |edges| ==> edges[i].recv in m && m[edges[i].recv] == edges[i].send
    requires forall i :: 0 <= i < |edges| ==> EdgeClaim(edges[i].recv, edges[i].send) in f
    ensures view.Keys <= m.Keys && forall j :: 0 <= j < |edges| ==> edges[j].recv in view.Keys
    ensures forall r :: r in view ==> view[r] == EdgeRow(m, f, r)
  {
    view := map[];
    for i := 0 to |edges|
      invariant view.Keys <= m.Keys
      invariant forall r :: r in view ==> view[r] == EdgeRow(m, f, r)
      invariant forall j :: 0 <= j < i ==> edges[j].recv in view.Keys
    {
      var e := edges[i];
      view := view[e.recv := SolvedRow(Recv, Inner, Some(e.send), [], f[EdgeClaim(e.recv, e.send)])];
    }
  }

  lemma AllRead(edges: seq<Edge>, rs: set<int>)
    requires rs <= Reading(edges).Keys && forall j :: 0 <= j < |edges| ==> edges[j].recv in rs
    ensures rs == Reading(edges).Keys
  {
    forall r | r in Reading(edges).Keys ensures r in rs {
      var j :| 0 <= j < |edges| && edges[j].recv == r;
    }
    SameSet(rs, Reading(edges).Keys);
  }

  /** The receives of a clean cell: the edges first, then the input. */
  method ReceiveRows(ghost sends: map<int, int>, recvs: seq<Timed>, c: CellMatch, f: map<Claim, bool>)
    returns (view: map<int, SolvedRow>)
    requires DistinctOrds(recvs) && Describes(sends, Table(recvs), c) && c.note.Clean? && CoversMined(c, f)
    ensures view.Keys == RowNumbers(recvs) && AllTell(c, f, Recv, recvs, view)
  {
    var b := c.input.value;
    EdgesAreClaims(c, f);
    var interior := EdgeRows(c.edges, f, Reading(c.edges));
    AllRead(c.edges, interior.Keys);
    InputIsClaim(c);
    view := interior[b := SolvedRow(Recv, Entry, None, [], f[InputClaim(b)])];
    ReceivesTell(Table(recvs), recvs, c, f, interior, view);
  }

  lemma ReceivesTell(table: map<int, int>, recvs: seq<Timed>, c: CellMatch, f: map<Claim, bool>,
                     interior: map<int, SolvedRow>, view: map<int, SolvedRow>)
    requires table.Keys == RowNumbers(recvs) && c.note.Clean? && c.input.Some?
    requires c.input.value in table && Reading(c.edges).Keys == table.Keys - {c.input.value}
    requires interior.Keys == Reading(c.edges).Keys && forall r :: r in interior ==> interior[r] == EdgeRow(Reading(c.edges), f, r)
    requires InputClaim(c.input.value) in f
    requires view == interior[c.input.value := SolvedRow(Recv, Entry, None, [], f[InputClaim(c.input.value)])]
    ensures view.Keys == RowNumbers(recvs) && AllTell(c, f, Recv, recvs, view)
  {
    SameSet(view.Keys, RowNumbers(recvs));
    forall o | o in view ensures Tells(c, f, Recv, o, view[o]) {
      assert o != c.input.value ==> o in interior && view[o] == EdgeRow(Reading(c.edges), f, o);
    }
    forall i | 0 <= i < |recvs| ensures recvs[i].ord in view {
      assert recvs[i].ord in RowNumbers(recvs);
    }
  }

  ghost function EdgeRow(m: map<int, int>, f: map<Claim, bool>, r: int): SolvedRow
    requires r in m
  {
    SolvedRow(Recv, Inner, Some(m[r]), [], Says(f, EdgeClaim(r, m[r])))
  }

  lemma EdgesAreClaims(c: CellMatch, f: map<Claim, bool>)
    requires CoversMined(c, f)
    requires forall e :: e in c.edges ==> e.recv in Reading(c.edges) && Reading(c.edges)[e.recv] == e.send
    ensures forall i :: 0 <= i < |c.edges| ==> EdgeClaim(c.edges[i].recv, c.edges[i].send) in f
    ensures forall i :: 0 <= i < |c.edges| ==>
      c.edges[i].recv in Reading(c.edges) && Reading(c.edges)[c.edges[i].recv] == c.edges[i].send
  {
    forall i | 0 <= i < |c.edges| ensures EdgeClaim(c.edges[i].recv, c.edges[i].send) in f {
      assert MinedClaims(c)[i] == EdgeClaim(c.edges[i].recv, c.edges[i].send);
    }
    forall i | 0 <= i < |c.edges|
      ensures c.edges[i].recv in Reading(c.edges) && Reading(c.edges)[c.edges[i].recv] == c.edges[i].send
    {
      assert c.edges[i] in c.edges;
    }
  }

  lemma InputIsClaim(c: CellMatch)
    requires c.input.Some?
    ensures InputClaim(c.input.value) in MinedClaims(c)
  {
    assert MinedClaims(c)[|c.edges|] == InputClaim(c.input.value);
  }

  lemma OutputIsClaim(c: CellMatch)
    requires c.input.Some? && c.output.Some?
    ensures OutputClaim(c.output.value) in MinedClaims(c)
  {
    assert MinedClaims(c)[|c.edges| + 1] == OutputClaim(c.output.value);
  }

  function SendRow(c: CellMatch, f: map<Claim, bool>, s: int): (row: SolvedRow)
    requires c.note.Clean? && (c.output == Some(s) ==> OutputClaim(s) in f)
    ensures Tells(c, f, Send, s, row)
  {
    var readers := ReadersOfSend(c, s);
    if c.output == Some(s) then SolvedRow(Send, Exit, None, readers, f[OutputClaim(s)])
    else SolvedRow(Send, Inner, None, readers, readers != [] && EachSays(f, readers, s))
  }

  /** The sends of a clean cell. */
  method SendRows(sends: seq<Timed>, c: CellMatch, f: map<Claim, bool>) returns (view: map<int, SolvedRow>)
    requires DistinctOrds(sends) && c.note.Clean? && c.input.Some? && c.output.Some? && CoversMined(c, f)
    ensures view.Keys == RowNumbers(sends) && AllTell(c, f, Send, sends, view)
  {
    view := map[];
    OutputIsClaim(c);
    for i := 0 to |sends|
      invariant view.Keys == RowNumbers(sends[..i])
      invariant forall o :: o in view ==> Tells(c, f, Send, o, view[o])
    {
      assert sends[..i + 1] == sends[..i] + [sends[i]];
      RowNumbersSnoc(sends[..i], sends[i]);
      view := view[sends[i].ord := SendRow(c, f, sends[i].ord)];
    }
    assert sends[..|sends|] == sends;
    forall i | 0 <= i < |sends| ensures sends[i].ord in view {
      assert sends[i].ord in RowNumbers(sends);
    }
  }

  lemma RowNumbersSnoc(rows: seq<Timed>, r: Timed)
    ensures RowNumbers(rows + [r]) == RowNumbers(rows) + {r.ord}
  {
    var all := rows + [r];
    forall o | o in RowNumbers(rows) + {r.ord} ensures o in RowNumbers(all) {
      if o == r.ord {
        assert all[|rows|].ord == o;
      } else {
        var i :| 0 <= i < |rows| && rows[i].ord == o;
        assert all[i].ord == o;
      }
    }
    SameSet(RowNumbers(all), RowNumbers(rows) + {r.ord});
  }

  /** The rows of one group. */
  method GroupRowsView(g: KeyGroup, c: CellMatch, f: map<Claim, bool>) returns (view: map<int, SolvedRow>)
    requires DistinctOrds(g.sends) && DistinctOrds(g.recvs) && RowNumbers(g.sends) !! RowNumbers(g.recvs)
    requires Correct(Table(g.sends), Table(g.recvs), c) && (c.note.Clean? ==> CoversMined(c, f))
    ensures view.Keys == RowNumbers(g.sends) + RowNumbers(g.recvs)
    ensures AllTell(c, f, Send, g.sends, view) && AllTell(c, f, Recv, g.recvs, view)
  {
    var r, s: map<int, SolvedRow>;
    if c.note.Clean? {
      r := ReceiveRows(Table(g.sends), g.recvs, c, f);
      s := SendRows(g.sends, c, f);
    } else {
      r, s := Unsolved(Recv, g.recvs), Unsolved(Send, g.sends);
      UnsolvedTell(c, f, Recv, g.recvs);
      UnsolvedTell(c, f, Send, g.sends);
    }
    view := r + s;
    JoinTells(g, c, f, r, s);
  }

  lemma UnsolvedTell(c: CellMatch, f: map<Claim, bool>, kind: Kind, rows: seq<Timed>)
    requires !c.note.Clean?
    ensures AllTell(c, f, kind, rows, Unsolved(kind, rows))
  {
    forall i | 0 <= i < |rows| ensures rows[i].ord in Unsolved(kind, rows) {
      assert rows[i].ord in RowNumbers(rows);
    }
  }

  lemma JoinTells(g: KeyGroup, c: CellMatch, f: map<Claim, bool>, r: map<int, SolvedRow>, s: map<int, SolvedRow>)
    requires RowNumbers(g.sends) !! RowNumbers(g.recvs)
    requires r.Keys == RowNumbers(g.recvs) && AllTell(c, f, Recv, g.recvs, r)
    requires s.Keys == RowNumbers(g.sends) && AllTell(c, f, Send, g.sends, s)
    ensures (r + s).Keys == RowNumbers(g.sends) + RowNumbers(g.recvs)
    ensures AllTell(c, f, Send, g.sends, r + s) && AllTell(c, f, Recv, g.recvs, r + s)
  {
    forall i | 0 <= i < |g.recvs| ensures g.recvs[i].ord in r && g.recvs[i].ord !in s {
      assert g.recvs[i].ord in RowNumbers(g.recvs);
    }
  }

  ghost predicate SpaceTells(gs: seq<KeyGroup>, matches: seq<CellMatch>, forced: seq<map<Claim, bool>>, n: nat, view: map<int, SolvedRow>)
    requires n <= |gs| == |matches| == |forced|
  {
    forall g :: 0 <= g < n ==>
      AllTell(matches[g], forced[g], Send, gs[g].sends, view) && AllTell(matches[g], forced[g], Recv, gs[g].recvs, view)
  }

  function GroupOrds(g: KeyGroup): set<int> {
    RowNumbers(g.sends) + RowNumbers(g.recvs)
  }

  ghost predicate SeparateGroups(gs: seq<KeyGroup>) {
    && (forall g :: 0 <= g < |gs| ==> DistinctOrds(gs[g].sends) && DistinctOrds(gs[g].recvs) && RowNumbers(gs[g].sends) !! RowNumbers(gs[g].recvs))
    && (forall g, h :: 0 <= g < h < |gs| ==> GroupOrds(gs[g]) !! GroupOrds(gs[h]))
  }

  /** The ordinals of the first `n` groups. */
  ghost function OrdsOf(gs: seq<KeyGroup>, n: nat): (s: set<int>)
    requires n <= |gs|
  {
    if n == 0 then {} else OrdsOf(gs, n - 1) + GroupOrds(gs[n - 1])
  }

  ghost predicate Covered(gs: seq<KeyGroup>, matches: seq<CellMatch>, forced: seq<map<Claim, bool>>) {
    && |gs| == |matches| == |forced|
    && forall g :: 0 <= g < |gs| ==> (
      && Correct(Table(gs[g].sends), Table(gs[g].recvs), matches[g])
      && (matches[g].note.Clean? ==> CoversMined(matches[g], forced[g])))
  }

  /** All rows of the space. */
  method BuildRows(gs: seq<KeyGroup>, matches: seq<CellMatch>, forced: seq<map<Claim, bool>>) returns (view: map<int, SolvedRow>)
    requires SeparateGroups(gs) && Covered(gs, matches, forced)
    ensures SpaceTells(gs, matches, forced, |gs|, view)
    ensures view.Keys == OrdsOf(gs, |gs|)
  {
    view := map[];
    for g := 0 to |gs|
      invariant SpaceTells(gs, matches, forced, g, view)
      invariant view.Keys == OrdsOf(gs, g)
    {
      view := AddGroupRows(gs, matches, forced, g, view);
    }
  }

  method AddGroupRows(gs: seq<KeyGroup>, matches: seq<CellMatch>, forced: seq<map<Claim, bool>>, g: nat, view0: map<int, SolvedRow>)
    returns (view: map<int, SolvedRow>)
    requires SeparateGroups(gs) && Covered(gs, matches, forced) && g < |gs| && SpaceTells(gs, matches, forced, g, view0)
    ensures SpaceTells(gs, matches, forced, g + 1, view)
    ensures view.Keys == view0.Keys + GroupOrds(gs[g])
  {
    hide Correct, SpaceTells;
    GroupIsSeparate(gs, g);
    var part := GroupRowsView(gs[g], matches[g], forced[g]);
    AddGroup(gs, matches, forced, g, view0, part);
    view := view0 + part;
  }

  lemma GroupIsSeparate(gs: seq<KeyGroup>, g: nat)
    requires SeparateGroups(gs) && g < |gs|
    ensures DistinctOrds(gs[g].sends) && DistinctOrds(gs[g].recvs) && RowNumbers(gs[g].sends) !! RowNumbers(gs[g].recvs)
  {
  }

  lemma AddGroup(gs: seq<KeyGroup>, matches: seq<CellMatch>, forced: seq<map<Claim, bool>>, g: nat,
                 view: map<int, SolvedRow>, part: map<int, SolvedRow>)
    requires SeparateGroups(gs) && g < |gs| == |matches| == |forced| && SpaceTells(gs, matches, forced, g, view)
    requires part.Keys == GroupOrds(gs[g])
    requires AllTell(matches[g], forced[g], Send, gs[g].sends, part) && AllTell(matches[g], forced[g], Recv, gs[g].recvs, part)
    ensures SpaceTells(gs, matches, forced, g + 1, view + part)
  {
    forall h | 0 <= h < g
      ensures AllTell(matches[h], forced[h], Send, gs[h].sends, view + part)
      ensures AllTell(matches[h], forced[h], Recv, gs[h].recvs, view + part)
    {
      assert GroupOrds(gs[h]) !! GroupOrds(gs[g]);
      KeepTelling(matches[h], forced[h], Send, gs[h].sends, view, part);
      KeepTelling(matches[h], forced[h], Recv, gs[h].recvs, view, part);
    }
    var n := g + 1;
    forall h | 0 <= h < n
      ensures AllTell(matches[h], forced[h], Send, gs[h].sends, view + part)
      ensures AllTell(matches[h], forced[h], Recv, gs[h].recvs, view + part)
    {
    }
  }

  lemma KeepTelling(c: CellMatch, f: map<Claim, bool>, kind: Kind, rows: seq<Timed>, view: map<int, SolvedRow>, part: map<int, SolvedRow>)
    requires AllTell(c, f, kind, rows, view) && RowNumbers(rows) !! part.Keys
    ensures AllTell(c, f, kind, rows, view + part)
  {
    forall i | 0 <= i < |rows| ensures rows[i].ord in view + part && (view + part)[rows[i].ord] == view[rows[i].ord] {
      assert rows[i].ord in RowNumbers(rows);
    }
  }
}
