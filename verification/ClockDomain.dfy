/** The timestamp domain: slot columns, and the clocks linked to them. */
module ClockDomain {
  import opened Wrappers
  import opened FieldForms
  import opened FieldGadgets
  import opened FieldBounds

  /** Exclusive bound granted to timestamp columns. */
  const TS_MAX: int := 0x2000_0000

  /** The column in the timestamp slot of a resolved row. */
  datatype Slot = Slot(send: bool, col: string)

  /** Exclusive upper ends; every lower end is zero. */
  type Ends = map<string, int>

  datatype ClockWeb = ClockWeb(clocks: set<string>, witnesses: set<string>, ends: Ends)

  ghost predicate EndsHold(ends: Ends, env: Env) {
    forall x :: x in ends ==> 0 <= env.cols(x) < ends[x]
  }

  /** Which columns the positional assumption is used for. */
  ghost predicate MayGrant(slots: seq<Slot>, ls: seq<Link>, x: string) {
    || (exists s :: s in slots && s.col == x)
    || (exists l :: l in ls && l.dst == x && l.d < 0)
  }

  ghost predicate Granted(granted: set<string>, env: Env) {
    forall x :: x in granted ==> env.cols(x) < TS_MAX
  }

  ghost predicate WebInv(w: ClockWeb, granted: set<string>, slots: seq<Slot>, ls: seq<Link>, p: int)
    requires p > 0
  {
    && w.clocks !! w.witnesses && w.ends.Keys == w.clocks + w.witnesses
    && (forall x :: x in w.ends ==> w.ends[x] >= 0)
    && (forall x :: x in granted ==> MayGrant(slots, ls, x))
    && (forall env :: FieldEnv(env, p) && LinksAllHold(ls, p, env) && Granted(granted, env) ==> EndsHold(w.ends, env))
  }

  ghost predicate LinksAllHold(ls: seq<Link>, p: int, env: Env)
    requires p > 0
  {
    forall l :: l in ls ==> LinkHolds(l, p, env)
  }

  /** The end a link gives its target: derived forwards, granted backwards. */
  function LinkEnd(w: ClockWeb, l: Link, p: int): Option<int> {
    if l.src !in w.ends || l.src !in w.clocks || l.dst in w.witnesses then None
    else if l.d >= 0 then
      var hi := w.ends[l.src] + l.d;
      if hi < p && (l.dst !in w.ends || w.ends[l.dst] > hi) then Some(hi) else None
    else if l.dst !in w.clocks then Some(TS_MAX)
    else None
  }

  /** A link from a clock leaves nothing to do: its target is a witness, or ends no later than a forward link says, or is a
      clock behind a backward one. */
  ghost predicate Quiet(w: ClockWeb, l: Link, p: int) {
    l.src in w.clocks && l.src in w.ends && l.dst !in w.witnesses ==>
      if l.d >= 0 then w.ends[l.src] + l.d < p ==> l.dst in w.ends && w.ends[l.dst] <= w.ends[l.src] + l.d
      else l.dst in w.clocks
  }

  lemma QuietExactly(w: ClockWeb, l: Link, p: int)
    ensures LinkEnd(w, l, p).None? <==> Quiet(w, l, p)
    ensures LinkEnd(w, l, p).Some? ==> LinkEnd(w, l, p).value == if l.d >= 0 then w.ends[l.src] + l.d else 0x2000_0000
  {
  }

  function Extended(w: ClockWeb, l: Link, hi: int): ClockWeb {
    w.(clocks := w.clocks + {l.dst}, ends := w.ends[l.dst := hi])
  }

  function EndOf(ends: Ends, x: string, p: int): int {
    if x in ends then ends[x] else p + TS_MAX
  }

  function TotalEnds(ends: Ends, ls: seq<Link>, p: int): int {
    if ls == [] then 0 else TotalEnds(ends, ls[1..], p) + EndOf(ends, ls[0].dst, p)
  }

  lemma {:induction false} TotalNonNegative(ends: Ends, ls: seq<Link>, p: int)
    requires p > 0 && forall x :: x in ends ==> ends[x] >= 0
    ensures TotalEnds(ends, ls, p) >= 0
  {
    if ls != [] {
      TotalNonNegative(ends, ls[1..], p);
    }
  }

  lemma {:induction false} TotalDrops(a: Ends, b: Ends, ls: seq<Link>, p: int, l: Link)
    requires forall x :: EndOf(b, x, p) <= EndOf(a, x, p)
    ensures TotalEnds(b, ls, p) <= TotalEnds(a, ls, p)
    ensures l in ls && EndOf(b, l.dst, p) < EndOf(a, l.dst, p) ==> TotalEnds(b, ls, p) < TotalEnds(a, ls, p)
  {
    if ls != [] {
      TotalDrops(a, b, ls[1..], p, l);
      assert l in ls ==> l == ls[0] || l in ls[1..];
    }
  }

  lemma ExtendKeeps(w: ClockWeb, granted: set<string>, slots: seq<Slot>, ls: seq<Link>, l: Link, p: int)
    requires p > 0 && WebInv(w, granted, slots, ls, p) && l in ls && LinkEnd(w, l, p).Some?
    ensures WebInv(Extended(w, l, LinkEnd(w, l, p).value), if l.d >= 0 then granted else granted + {l.dst}, slots, ls, p)
  {
    hide LinkHolds;
    var hi := LinkEnd(w, l, p).value;
    var after := Extended(w, l, hi);
    var grants := if l.d >= 0 then granted else granted + {l.dst};
    forall env | FieldEnv(env, p) && LinksAllHold(ls, p, env) && Granted(grants, env) ensures EndsHold(after.ends, env) {
      assert Granted(granted, env);
      if l.d >= 0 {
        ShiftWithin(Bound(0, Some(w.ends[l.src])), l, p, env);
      } else {
        assert l.dst in grants;
      }
    }
    assert after.ends.Keys == after.clocks + after.witnesses;
  }

  method SeedWeb(slots: seq<Slot>, ghost ls: seq<Link>, ghost p: int) returns (w: ClockWeb, ghost granted: set<string>)
    requires p > 0
    ensures WebInv(w, granted, slots, ls, p)
    ensures w.witnesses == RecvSlots(slots) - SendSlots(slots)
    ensures w.clocks == SendSlots(slots) - RecvSlots(slots)
    ensures forall x :: x in w.ends ==> w.ends[x] == TS_MAX
  {
    var clocks, witnesses: set<string> := {}, {};
    for i := 0 to |slots|
      invariant forall x :: x in clocks <==> exists j :: 0 <= j < i && slots[j] == Slot(true, x)
      invariant forall x :: x in witnesses <==> exists j :: 0 <= j < i && slots[j] == Slot(false, x)
    {
      if slots[i].send {
        clocks := clocks + {slots[i].col};
      } else {
        witnesses := witnesses + {slots[i].col};
      }
    }
    assert clocks == SendSlots(slots) && witnesses == RecvSlots(slots);
    var both := clocks * witnesses;
    clocks, witnesses := clocks - both, witnesses - both;
    w := ClockWeb(clocks, witnesses, map x | x in clocks + witnesses :: TS_MAX);
    granted := clocks + witnesses;
    assert w.ends.Keys == clocks + witnesses;
  }

  function SendSlots(slots: seq<Slot>): set<string> {
    set s | s in slots && s.send :: s.col
  }

  function RecvSlots(slots: seq<Slot>): set<string> {
    set s | s in slots && !s.send :: s.col
  }

  method WebPass(before: ClockWeb, ghost given: set<string>, ghost slots: seq<Slot>, ls: seq<Link>, p: int)
    returns (w: ClockWeb, ghost granted: set<string>, changed: bool)
    requires p > 0 && WebInv(before, given, slots, ls, p)
    ensures WebInv(w, granted, slots, ls, p) && w.witnesses == before.witnesses && before.clocks <= w.clocks
    ensures forall x :: EndOf(w.ends, x, p) <= EndOf(before.ends, x, p)
    ensures changed ==> TotalEnds(w.ends, ls, p) < TotalEnds(before.ends, ls, p)
    ensures !changed ==> w == before && forall l :: l in ls ==> LinkEnd(w, l, p).None?
  {
    w, granted, changed := before, given, false;
    for i := 0 to |ls|
      invariant WebInv(w, granted, slots, ls, p) && w.witnesses == before.witnesses && before.clocks <= w.clocks
      invariant forall x :: EndOf(w.ends, x, p) <= EndOf(before.ends, x, p)
      invariant changed ==> TotalEnds(w.ends, ls, p) < TotalEnds(before.ends, ls, p)
      invariant !changed ==> w == before && forall j :: 0 <= j < i ==> LinkEnd(w, ls[j], p).None?
    {
      var l := ls[i];
      var hi := LinkEnd(w, l, p);
      if hi.Some? {
        ExtendKeeps(w, granted, slots, ls, l, p);
        TotalDrops(before.ends, w.ends, ls, p, l);
        TotalDrops(w.ends, Extended(w, l, hi.value).ends, ls, p, l);
        granted := if l.d >= 0 then granted else granted + {l.dst};
        w, changed := Extended(w, l, hi.value), true;
      }
    }
  }

  /** The clock web: every end holds once the granted columns are below `TS_MAX`, only slot columns and targets of
      backward links are granted, and no link is left that could extend the web or lower an end. */
  method TsDomain(slots: seq<Slot>, ls: seq<Link>, p: int) returns (w: ClockWeb, ghost granted: set<string>)
    requires p > 0
    ensures w.clocks !! w.witnesses && w.ends.Keys == w.clocks + w.witnesses
    ensures w.witnesses == RecvSlots(slots) - SendSlots(slots) && SendSlots(slots) - RecvSlots(slots) <= w.clocks
    ensures forall x :: x in granted ==> MayGrant(slots, ls, x)
    ensures forall env :: FieldEnv(env, p) && LinksAllHold(ls, p, env) && Granted(granted, env) ==> EndsHold(w.ends, env)
    ensures forall l :: l in ls ==> Quiet(w, l, p)
    ensures forall x :: x in SendSlots(slots) - RecvSlots(slots) || x in w.witnesses ==> w.ends[x] <= TS_MAX
  {
    w, granted := SeedWeb(slots, ls, p);
    ghost var seeds := w;
    var changed := true;
    TotalNonNegative(w.ends, ls, p);
    while changed
      invariant WebInv(w, granted, slots, ls, p)
      invariant w.witnesses == RecvSlots(slots) - SendSlots(slots) && SendSlots(slots) - RecvSlots(slots) <= w.clocks
      invariant TotalEnds(w.ends, ls, p) >= 0
      invariant forall x :: EndOf(w.ends, x, p) <= EndOf(seeds.ends, x, p)
      invariant !changed ==> forall l :: l in ls ==> LinkEnd(w, l, p).None?
      decreases TotalEnds(w.ends, ls, p), changed
    {
      w, granted, changed := WebPass(w, granted, slots, ls, p);
      TotalNonNegative(w.ends, ls, p);
    }
    forall l | l in ls ensures Quiet(w, l, p) {
      QuietExactly(w, l, p);
    }
    forall x | x in SendSlots(slots) - RecvSlots(slots) || x in w.witnesses ensures w.ends[x] <= TS_MAX {
      assert EndOf(w.ends, x, p) <= EndOf(seeds.ends, x, p);
    }
  }
}
