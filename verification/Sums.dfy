/** Sums of coefficients times column values. */
module Sums {

  datatype Term = Term(name: string, coeff: int)

  function TermsValue(ts: seq<Term>, env: string -> int): int {
    if ts == [] then 0 else TermsValue(ts[..|ts| - 1], env) + ts[|ts| - 1].coeff * env(ts[|ts| - 1].name)
  }

  ghost predicate DistinctNames(ts: seq<Term>) {
    forall i, j :: 0 <= i < j < |ts| ==> ts[i].name != ts[j].name
  }

  function NamesOf(ts: seq<Term>): set<string> {
    set t | t in ts :: t.name
  }

  lemma Distribute(c: int, x: int, y: int)
    ensures c * (x + y) == c * x + c * y && (x + y) * c == x * c + y * c
  {
  }

  lemma Associate(a: int, b: int, c: int)
    ensures a * (b * c) == a * b * c && a * (b * c) == b * (a * c)
  {
  }

  lemma ScaledSnoc(s: int, total: int, c: int, v: int)
    ensures s * (total + c * v) == s * total + s * c * v
  {
    Distribute(s, total, c * v);
    Associate(s, c, v);
  }

  lemma SnocValue(ts: seq<Term>, t: Term, env: string -> int)
    ensures TermsValue(ts + [t], env) == TermsValue(ts, env) + t.coeff * env(t.name)
  {
    assert (ts + [t])[..|ts|] == ts;
  }

  lemma {:induction false} ConcatValue(a: seq<Term>, b: seq<Term>, env: string -> int)
    ensures TermsValue(a + b, env) == TermsValue(a, env) + TermsValue(b, env)
  {
    if b == [] {
      assert a + b == a;
    } else {
      var n := |b| - 1;
      ConcatValue(a, b[..n], env);
      SnocValue(a + b[..n], b[n], env);
      assert a + b == (a + b[..n]) + [b[n]];
    }
  }

  /** Adds `c` to the coefficient of `x`; a new name goes last. */
  function Bump(ts: seq<Term>, x: string, c: int): (r: seq<Term>)
    ensures forall t :: t in r ==> t.name == x || t in ts
    ensures DistinctNames(ts) ==> DistinctNames(r)
  {
    if ts == [] then [Term(x, c)]
    else
      var n := |ts| - 1;
      var front, last := ts[..n], ts[n];
      assert forall t :: t in front ==> t in ts;
      if last.name == x then front + [Term(x, last.coeff + c)]
      else Bump(front, x, c) + [last]
  }

  lemma {:induction false} BumpValue(ts: seq<Term>, x: string, c: int, env: string -> int)
    ensures TermsValue(Bump(ts, x, c), env) == TermsValue(ts, env) + c * env(x)
  {
    if ts == [] {
      assert [Term(x, c)][..0] == [];
    } else {
      var n := |ts| - 1;
      var front, last := ts[..n], ts[n];
      if last.name == x {
        SnocValue(front, Term(x, last.coeff + c), env);
        Distribute(env(x), last.coeff, c);
      } else {
        BumpValue(front, x, c, env);
        SnocValue(Bump(front, x, c), last, env);
      }
    }
  }

  lemma NamesSnoc(ts: seq<Term>, t: Term)
    ensures NamesOf(ts + [t]) == NamesOf(ts) + {t.name}
  {
    assert forall x :: x in ts + [t] <==> x in ts || x == t;
  }

  lemma {:induction false} BumpNames(ts: seq<Term>, x: string, c: int)
    ensures NamesOf(Bump(ts, x, c)) == NamesOf(ts) + {x}
  {
    if ts == [] {
      NamesSnoc([], Term(x, c));
      assert [] + [Term(x, c)] == [Term(x, c)];
    } else {
      var n := |ts| - 1;
      assert ts == ts[..n] + [ts[n]];
      NamesSnoc(ts[..n], ts[n]);
      if ts[n].name == x {
        NamesSnoc(ts[..n], Term(x, ts[n].coeff + c));
      } else {
        BumpNames(ts[..n], x, c);
        NamesSnoc(Bump(ts[..n], x, c), ts[n]);
      }
    }
  }

  /** Adds `s` times every term of `more`. */
  function AddScaled(ts: seq<Term>, s: int, more: seq<Term>): (r: seq<Term>)
    ensures DistinctNames(ts) ==> DistinctNames(r)
  {
    if more == [] then ts
    else Bump(AddScaled(ts, s, more[..|more| - 1]), more[|more| - 1].name, s * more[|more| - 1].coeff)
  }

  function Scale(s: int, ts: seq<Term>): (r: seq<Term>)
    ensures |r| == |ts| && forall i :: 0 <= i < |ts| ==> r[i] == Term(ts[i].name, s * ts[i].coeff)
  {
    seq(|ts|, i requires 0 <= i < |ts| => Term(ts[i].name, s * ts[i].coeff))
  }

  lemma {:induction false} ScaleValue(s: int, ts: seq<Term>, env: string -> int)
    ensures TermsValue(Scale(s, ts), env) == s * TermsValue(ts, env)
  {
    if ts != [] {
      var n := |ts| - 1;
      ScaleValue(s, ts[..n], env);
      assert Scale(s, ts)[..n] == Scale(s, ts[..n]);
      ScaledSnoc(s, TermsValue(ts[..n], env), ts[n].coeff, env(ts[n].name));
    }
  }

  lemma {:induction false} AddScaledIsScaled(ts: seq<Term>, s: int, more: seq<Term>, env: string -> int)
    ensures TermsValue(AddScaled(ts, s, more), env) == TermsValue(ts, env) + TermsValue(Scale(s, more), env)
  {
    if more != [] {
      var n := |more| - 1;
      AddScaledIsScaled(ts, s, more[..n], env);
      BumpValue(AddScaled(ts, s, more[..n]), more[n].name, s * more[n].coeff, env);
      SnocValue(Scale(s, more[..n]), Term(more[n].name, s * more[n].coeff), env);
      assert Scale(s, more) == Scale(s, more[..n]) + [Term(more[n].name, s * more[n].coeff)];
    }
  }

  lemma AddScaledValue(ts: seq<Term>, s: int, more: seq<Term>, env: string -> int)
    ensures TermsValue(AddScaled(ts, s, more), env) == TermsValue(ts, env) + s * TermsValue(more, env)
  {
    AddScaledIsScaled(ts, s, more, env);
    ScaleValue(s, more, env);
  }
}
