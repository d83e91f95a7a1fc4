/** Linear forms over the columns of the Poseidon2 AIR, and the constraints built from them. */
module LinearForms {
  import opened KoalaBear
  import opened Constraints
  import opened Poseidon2
  import opened Poseidon2Air

  datatype LinTerm = LinTerm(col: Col, coef: Elt)

  type LinForm = seq<LinTerm>

  function LinCol(c: Col): LinForm { [LinTerm(c, 1)] }

  /** The sum of the first n terms. */
  function SumTo(l: LinForm, env: Env, n: nat): int
    requires n <= |l|
  { if n == 0 then 0 else SumTo(l, env, n - 1) + l[n - 1].coef * env(l[n - 1].col) }

  function Eval(l: LinForm, env: Env): Elt { R(SumTo(l, env, |l|)) }

  function Values(xs: seq<LinForm>, env: Env): (r: seq<Elt>)
    ensures |r| == |xs|
  { seq(|xs|, i requires 0 <= i < |xs| => Eval(xs[i], env)) }

  // ---- accumulating coefficients by column ----

  predicate Keyed(order: seq<Col>, acc: map<Col, Elt>) {
    && (forall i :: 0 <= i < |order| ==> order[i] in acc)
    && (forall i, j :: 0 <= i < j < |order| ==> order[i] != order[j])
    && (forall c :: c in acc ==> c in order)
  }

  function MapSum(order: seq<Col>, acc: map<Col, Elt>, env: Env, n: nat): int
    requires n <= |order| && forall i :: 0 <= i < |order| ==> order[i] in acc
  { if n == 0 then 0 else MapSum(order, acc, env, n - 1) + acc[order[n - 1]] * env(order[n - 1]) }

  lemma {:induction false} MapSumOther(order: seq<Col>, acc: map<Col, Elt>, env: Env, n: nat, c: Col, v: Elt)
    requires n <= |order| && (forall i :: 0 <= i < |order| ==> order[i] in acc) && (forall i :: 0 <= i < n ==> order[i] != c)
    ensures MapSum(order, acc[c := v], env, n) == MapSum(order, acc, env, n)
  {
    if n > 0 { MapSumOther(order, acc, env, n - 1, c, v); }
  }

  lemma {:induction false} MapSumUpdate(order: seq<Col>, acc: map<Col, Elt>, env: Env, n: nat, c: Col, v: Elt)
    requires n <= |order| && Keyed(order, acc) && c in acc && exists i :: 0 <= i < n && order[i] == c
    ensures MapSum(order, acc[c := v], env, n) == MapSum(order, acc, env, n) + v * env(c) - acc[c] * env(c)
  {
    if order[n - 1] == c {
      MapSumOther(order, acc, env, n - 1, c, v);
    } else {
      MapSumUpdate(order, acc, env, n - 1, c, v);
    }
  }

  lemma {:induction false} MapSumPrefix(order: seq<Col>, c: Col, acc: map<Col, Elt>, env: Env, n: nat)
    requires n <= |order| && (forall i :: 0 <= i < |order| ==> order[i] in acc) && c in acc
    ensures MapSum(order + [c], acc, env, n) == MapSum(order, acc, env, n)
  {
    if n > 0 { MapSumPrefix(order, c, acc, env, n - 1); }
  }

  /** The order and the map after adding t to the coefficient of a column. */
  function AddOrder(order: seq<Col>, acc: map<Col, Elt>, c: Col): seq<Col> { if c in acc then order else order + [c] }
  function AddCoef(acc: map<Col, Elt>, c: Col, t: Elt): map<Col, Elt> { acc[c := AddElt(if c in acc then acc[c] else 0, t)] }

  lemma AddKeyed(order: seq<Col>, acc: map<Col, Elt>, c: Col, t: Elt)
    requires Keyed(order, acc)
    ensures Keyed(AddOrder(order, acc, c), AddCoef(acc, c, t))
  {
  }

  lemma ReducedFactor(v: Elt, t: Elt, e: Elt, s: int)
    ensures R(s + AddElt(v, t) * e - v * e) == R(s + t * e)
  {
    var w: int := AddElt(v, t);
    var q := (v + t) / P;
    assert v + t == P * q + w;
    assert w * e == v * e + t * e - P * (q * e) by {
      assert (v + t - P * q) * e == v * e + t * e - P * q * e;
      assert P * q * e == P * (q * e);
    }
    AddMultiple(s + t * e, -(q * e), P);
  }

  lemma AddSum(order: seq<Col>, acc: map<Col, Elt>, env: Env, c: Col, t: Elt)
    requires Keyed(order, acc)
    ensures var order', acc' := AddOrder(order, acc, c), AddCoef(acc, c, t);
      && Keyed(order', acc')
      && R(MapSum(order', acc', env, |order'|)) == R(MapSum(order, acc, env, |order|) + t * env(c))
  {
    AddKeyed(order, acc, c, t);
    hide AddElt, R;
    var s := MapSum(order, acc, env, |order|);
    if c in acc {
      assert c in order;
      MapSumUpdate(order, acc, env, |order|, c, AddElt(acc[c], t));
      ReducedFactor(acc[c], t, env(c), s);
    } else {
      var acc' := AddCoef(acc, c, t);
      MapSumOther(order, acc, env, |order|, c, AddElt(0, t));
      MapSumPrefix(order, c, acc', env, |order|);
      ZeroPlus(t);
    }
  }

  lemma ZeroPlus(t: Elt)
    ensures AddElt(0, t) == t
  {
  }

  lemma TermSum(s: int, f: Elt, c: Elt, e: Elt, before: int, part: int)
    requires R(s) == R(before + f * part)
    ensures R(s + MulElt(f, c) * e) == R(before + f * (part + c * e))
  {
    var t: int := MulElt(f, c);
    var q := f * c / P;
    assert f * c == P * q + t;
    assert t * e == f * (c * e) - P * (q * e) by {
      assert (f * c - P * q) * e == f * c * e - P * q * e;
      assert P * q * e == P * (q * e);
      assert f * c * e == f * (c * e);
    }
    assert f * (part + c * e) == f * part + f * (c * e);
    Shift(s, before + f * part, t * e);
    AddMultiple(before + f * part + f * (c * e), -(q * e), P);
  }

  lemma FormSum(s: int, f: Elt, before: int, part: int)
    requires R(s) == R(before + f * part)
    ensures R(s) == R(before + f * R(part))
  {
    var q := part / P;
    var r: int := R(part);
    assert part == P * q + r;
    assert f * part == f * r + P * (f * q) by {
      assert f * (P * q + r) == f * (P * q) + f * r;
      assert f * (P * q) == P * (f * q);
    }
    AddMultiple(before + f * r, f * q, P);
  }

  /** The accumulated sum is the starting one plus f times the first k terms of x. */
  ghost predicate Accumulated(o: seq<Col>, a: map<Col, Elt>, f: Elt, x: LinForm, k: nat, order: seq<Col>, acc: map<Col, Elt>)
    requires Keyed(o, a) && Keyed(order, acc) && k <= |x|
  {
    KeyedIn(o, a); KeyedIn(order, acc);
    forall env: Env :: R(MapSum(o, a, env, |o|)) == R(MapSum(order, acc, env, |order|) + f * SumTo(x, env, k))
  }

  lemma AccumulatedNext(o: seq<Col>, a: map<Col, Elt>, f: Elt, x: LinForm, k: nat, order: seq<Col>, acc: map<Col, Elt>)
    requires Keyed(o, a) && Keyed(order, acc) && k < |x| && Accumulated(o, a, f, x, k, order, acc)
    ensures var n, t := x[k].col, MulElt(f, x[k].coef);
      Keyed(AddOrder(o, a, n), AddCoef(a, n, t))
      && Accumulated(AddOrder(o, a, n), AddCoef(a, n, t), f, x, k + 1, order, acc)
  {
    hide R, MulElt, AddElt, Keyed, MapSum, SumTo;
    var n, t := x[k].col, MulElt(f, x[k].coef);
    KeyedIn(o, a); KeyedIn(order, acc);
    AddKeyed(o, a, n, t);
    KeyedIn(AddOrder(o, a, n), AddCoef(a, n, t));
    forall env: Env
      ensures R(MapSum(AddOrder(o, a, n), AddCoef(a, n, t), env, |AddOrder(o, a, n)|))
           == R(MapSum(order, acc, env, |order|) + f * SumTo(x, env, k + 1))
    {
      AddSum(o, a, env, n, t);
      TermSum(MapSum(o, a, env, |o|), f, x[k].coef, env(n), MapSum(order, acc, env, |order|), SumTo(x, env, k));
      SumToNext(x, env, k);
    }
  }

  lemma AccumulatedNone(f: Elt, x: LinForm, order: seq<Col>, acc: map<Col, Elt>)
    requires Keyed(order, acc)
    ensures Accumulated(order, acc, f, x, 0, order, acc)
  {
    hide R, Keyed, MapSum;
  }

  lemma AccumulatedAll(o: seq<Col>, a: map<Col, Elt>, f: Elt, x: LinForm, order: seq<Col>, acc: map<Col, Elt>, env: Env)
    requires Keyed(o, a) && Keyed(order, acc) && Accumulated(o, a, f, x, |x|, order, acc)
    ensures R(MapSum(o, a, env, |o|)) == R(MapSum(order, acc, env, |order|) + f * Eval(x, env))
  {
    hide R, MapSum, SumTo;
    FormSum(MapSum(o, a, env, |o|), f, MapSum(order, acc, env, |order|), SumTo(x, env, |x|));
  }

  /** Adds f times a form to the accumulated coefficients. */
  method AddForm(f: Elt, x: LinForm, order: seq<Col>, acc: map<Col, Elt>) returns (order': seq<Col>, acc': map<Col, Elt>)
    requires Keyed(order, acc)
    ensures Keyed(order', acc')
    ensures forall env: Env :: R(MapSum(order', acc', env, |order'|)) == R(MapSum(order, acc, env, |order|) + f * Eval(x, env))
  {
    hide R, MulElt, AddElt, Keyed, MapSum, Accumulated, Eval;
    order', acc' := order, acc;
    AccumulatedNone(f, x, order, acc);
    for k := 0 to |x|
      invariant Keyed(order', acc') && Accumulated(order', acc', f, x, k, order, acc)
    {
      var n := x[k].col;
      var t := MulElt(f, x[k].coef);
      AccumulatedNext(order', acc', f, x, k, order, acc);
      var v: Elt := 0;
      ghost var o, a := order', acc';
      if n in acc' { v := acc'[n]; } else { order' := order' + [n]; }
      acc' := acc'[n := AddElt(v, t)];
      assert order' == AddOrder(o, a, n) && acc' == AddCoef(a, n, t);
    }
    KeyedIn(order', acc'); KeyedIn(order, acc);
    forall env: Env ensures R(MapSum(order', acc', env, |order'|)) == R(MapSum(order, acc, env, |order|) + f * Eval(x, env)) {
      AccumulatedAll(order', acc', f, x, order, acc, env);
    }
  }

  lemma SumToNext(x: LinForm, env: Env, k: nat)
    requires k < |x|
    ensures SumTo(x, env, k + 1) == SumTo(x, env, k) + x[k].coef * env(x[k].col)
  {
  }

  lemma KeyedIn(order: seq<Col>, acc: map<Col, Elt>)
    requires Keyed(order, acc)
    ensures forall i :: 0 <= i < |order| ==> order[i] in acc
  {
  }

  /** The form of the accumulated coefficients, zero ones dropped. */
  method Collect(order: seq<Col>, acc: map<Col, Elt>) returns (res: LinForm)
    requires forall i :: 0 <= i < |order| ==> order[i] in acc
    ensures forall env: Env :: SumTo(res, env, |res|) == MapSum(order, acc, env, |order|)
  {
    res := [];
    for i := 0 to |order|
      invariant forall env: Env :: SumTo(res, env, |res|) == MapSum(order, acc, env, i)
    {
      var n := order[i];
      ghost var next := res + [LinTerm(n, acc[n])];
      forall env: Env ensures acc[n] != 0 ==> SumTo(next, env, |next|) == MapSum(order, acc, env, i + 1) {
        SumToPrefix(res, LinTerm(n, acc[n]), env, |res|);
      }
      if acc[n] != 0 { res := res + [LinTerm(n, acc[n])]; }
    }
  }

  lemma {:induction false} SumToPrefix(l: LinForm, t: LinTerm, env: Env, n: nat)
    requires n <= |l|
    ensures SumTo(l + [t], env, n) == SumTo(l, env, n)
  {
    if n > 0 { SumToPrefix(l, t, env, n - 1); }
  }

  /** The combination of the forms with the coefficients of a matrix row. */
  method Combine(row: seq<Elt>, xs: seq<LinForm>) returns (res: LinForm)
    requires |row| == |xs|
    ensures forall env: Env :: Eval(res, env) == R(Dot(Ints(row), Ints(Values(xs, env)), |xs|))
  {
    hide R, Keyed, Eval;
    var order: seq<Col>, acc: map<Col, Elt> := [], map[];
    StartKeyed();
    for j := 0 to |xs|
      invariant Keyed(order, acc) && (forall i :: 0 <= i < |order| ==> order[i] in acc)
      invariant forall env: Env :: R(MapSum(order, acc, env, |order|)) == R(Dot(Ints(row), Ints(Values(xs, env)), j))
    {
      ghost var o, a := order, acc;
      if row[j] != 0 {
        order, acc := AddForm(row[j], xs[j], order, acc);
        KeyedIn(order, acc);
      }
      forall env: Env ensures R(MapSum(order, acc, env, |order|)) == R(Dot(Ints(row), Ints(Values(xs, env)), j + 1)) {
        DotStep(row, xs, env, j, MapSum(o, a, env, |o|));
      }
    }
    res := Collect(order, acc);
    forall env: Env ensures Eval(res, env) == R(Dot(Ints(row), Ints(Values(xs, env)), |xs|)) {
      EvalIs(res, env);
    }
  }

  lemma StartKeyed()
    ensures Keyed([], map[])
  {
  }

  lemma EvalIs(l: LinForm, env: Env)
    ensures Eval(l, env) == R(SumTo(l, env, |l|))
  {
  }

  lemma DotStep(row: seq<Elt>, xs: seq<LinForm>, env: Env, j: nat, s: int)
    requires |row| == |xs| && j < |xs| && R(s) == R(Dot(Ints(row), Ints(Values(xs, env)), j))
    ensures R(s + row[j] * Eval(xs[j], env)) == R(Dot(Ints(row), Ints(Values(xs, env)), j + 1))
    ensures row[j] == 0 ==> R(s) == R(Dot(Ints(row), Ints(Values(xs, env)), j + 1))
  {
    var d, e: int, f: int := Dot(Ints(row), Ints(Values(xs, env)), j), Eval(xs[j], env), row[j];
    assert Dot(Ints(row), Ints(Values(xs, env)), j + 1) == d + f * e;
    Shift(s, d, f * e);
  }

  // ---- the constraints as the code emits them ----

  /** coef * (form + key)^3 */
  datatype Cubic = Cubic(coef: Elt, form: LinForm, key: Elt)

  /** The column equals the sum of the cubic terms. */
  datatype Constraint = Constraint(col: Col, terms: seq<Cubic>)

  function CubicSum(ts: seq<Cubic>, env: Env, n: nat): int
    requires n <= |ts|
  {
    if n == 0 then 0
    else CubicSum(ts, env, n - 1) + ts[n - 1].coef * Triple(Eval(ts[n - 1].form, env) + ts[n - 1].key)
  }

  predicate Holds(c: Constraint, env: Env) { Zero(env(c.col) - CubicSum(c.terms, env, |c.terms|)) }

  predicate AllHold(cs: seq<Constraint>, env: Env) { forall k :: 0 <= k < |cs| ==> Holds(cs[k], env) }

  lemma AllHoldAppend(a: seq<Constraint>, b: seq<Constraint>, env: Env)
    ensures AllHold(a + b, env) <==> AllHold(a, env) && AllHold(b, env)
  {
    hide Holds;
    if AllHold(a + b, env) {
      forall k | 0 <= k < |a| ensures Holds(a[k], env) { assert (a + b)[k] == a[k]; }
      forall k | 0 <= k < |b| ensures Holds(b[k], env) { assert (a + b)[|a| + k] == b[k]; }
    }
  }

  lemma {:induction false} CubicPrefix(ts: seq<Cubic>, t: Cubic, env: Env, n: nat)
    requires n <= |ts|
    ensures CubicSum(ts + [t], env, n) == CubicSum(ts, env, n)
  {
    hide Triple, Eval;
    if n > 0 { CubicPrefix(ts, t, env, n - 1); }
  }

  type Forms = f: seq<LinForm> | |f| == Width witness seq(Width, i => [])

  function StateOf(forms: Forms, env: Env): State { Values(forms, env) }

  /** The terms of one output of a full round, zero entries dropped. */
  method FullTerms(row: seq<Elt>, state: Forms, key: State) returns (ts: seq<Cubic>)
    requires |row| == Width
    ensures forall env: Env :: CubicSum(ts, env, |ts|) == Dot(Ints(row), Triples(StateOf(state, env), key), Width)
  {
    hide Triple, Eval;
    ts := [];
    for j := 0 to Width
      invariant forall env: Env :: CubicSum(ts, env, |ts|) == Dot(Ints(row), Triples(StateOf(state, env), key), j)
    {
      ghost var next := ts + [Cubic(row[j], state[j], key[j])];
      forall env: Env
        ensures CubicSum(next, env, |next|) == Dot(Ints(row), Triples(StateOf(state, env), key), j + 1)
        ensures row[j] == 0 ==> CubicSum(ts, env, |ts|) == Dot(Ints(row), Triples(StateOf(state, env), key), j + 1)
      {
        CubicPrefix(ts, Cubic(row[j], state[j], key[j]), env, |ts|);
      }
      if row[j] != 0 { ts := ts + [Cubic(row[j], state[j], key[j])]; }
    }
  }

  method FullRound(state: Forms, key: State, r: nat) returns (cs: seq<Constraint>)
    requires r < Rounds && IsFull(r)
    ensures forall env: Env :: AllHold(cs, env) <==> FullOk(env, r, StateOf(state, env), key)
  {
    hide Dot, Triples, StateOf, CubicSum, Holds;
    cs := [];
    for i := 0 to Width
      invariant forall env: Env :: AllHold(cs, env) <==> FullOkTo(env, r, StateOf(state, env), key, i)
    {
      var ts := FullTerms(ExternalMatrix()[i], state, key);
      ghost var one := [Constraint(Next(r, i), ts)];
      forall env: Env ensures AllHold(cs + one, env) <==> FullOkTo(env, r, StateOf(state, env), key, i + 1) {
        AllHoldAppend(cs, one, env);
        OneHolds(one, env);
        HoldsIs(one[0], env);
      }
      cs := cs + [Constraint(Next(r, i), ts)];
    }
  }

  lemma OneHolds(cs: seq<Constraint>, env: Env)
    requires |cs| == 1
    ensures AllHold(cs, env) <==> Holds(cs[0], env)
  {
  }

  lemma HoldsIs(c: Constraint, env: Env)
    ensures Holds(c, env) <==> Zero(env(c.col) - CubicSum(c.terms, env, |c.terms|))
  {
  }

  /** The first n outputs of a full round from the given state. */
  predicate FullOkTo(env: Env, r: nat, s: State, key: State, n: nat)
    requires n <= Width
  { forall i :: 0 <= i < n ==> Zero(env(Next(r, i)) - Dot(Ints(ExternalMatrix()[i]), Triples(s, key), Width)) }

  predicate FullOk(env: Env, r: nat, s: State, key: State) { FullOkTo(env, r, s, key, Width) }

  /** The constraints of the rounds below r. */
  predicate RoundsOk(env: Env, diag: State, keys: Keys, r: nat)
    requires r <= Rounds
  { forall q :: 0 <= q < r ==> RoundOk(env, diag, keys, q) }

  lemma RoundsNext(env: Env, diag: State, keys: Keys, r: nat)
    requires r < Rounds
    ensures RoundsOk(env, diag, keys, r + 1) <==> RoundsOk(env, diag, keys, r) && RoundOk(env, diag, keys, r)
  {
    hide RoundOk;
  }

  /** The forms of the matrix rows applied to the forms. */
  method CombineAll(m: seq<seq<Elt>>, xs: Forms) returns (res: Forms)
    requires |m| == Width && forall i :: 0 <= i < Width ==> |m[i]| == Width
    ensures forall env: Env :: StateOf(res, env) == Apply(m, StateOf(xs, env))
  {
    hide Dot, Eval;
    var out: seq<LinForm> := [];
    for i := 0 to Width
      invariant |out| == i && forall env: Env :: forall k :: 0 <= k < i ==> Eval(out[k], env) == Apply(m, StateOf(xs, env))[k]
    {
      var f := Combine(m[i], xs);
      out := out + [f];
    }
    res := out;
    forall env: Env ensures StateOf(res, env) == Apply(m, StateOf(xs, env)) { }
  }

  method LinCols(r: nat) returns (res: Forms)
    ensures forall env: Env :: StateOf(res, env) == seq(Width, i requires 0 <= i < Width => env(Next(r, i)))
  {
    res := seq(Width, i requires 0 <= i < Width => LinCol(Next(r, i)));
    forall env: Env ensures StateOf(res, env) == seq(Width, i requires 0 <= i < Width => env(Next(r, i))) {
      forall i | 0 <= i < Width ensures Eval(res[i], env) == env(Next(r, i)) { ColEval(Next(r, i), env); }
    }
  }

  lemma ColEval(c: Col, env: Env)
    ensures Eval(LinCol(c), env) == env(c)
  {
    assert SumTo(LinCol(c), env, 1) == SumTo(LinCol(c), env, 0) + 1 * env(c);
  }

  /** A full round: its constraints, and the forms of its output columns. */
  method DefineFull(diag: State, keys: Keys, r: nat, state: Forms) returns (cs: seq<Constraint>, next: Forms)
    requires r < Rounds && IsFull(r) && forall env: Env :: StateOf(state, env) == Tracked(env, diag, r)
    ensures forall env: Env :: AllHold(cs, env) <==> RoundOk(env, diag, keys, r)
    ensures forall env: Env :: StateOf(next, env) == Tracked(env, diag, r + 1)
  {
    cs := FullRound(state, keys[r], r);
    next := LinCols(r);
    hide StateOf, AllHold, Dot, Triples;
    forall env: Env ensures FullOk(env, r, StateOf(state, env), keys[r]) <==> RoundOk(env, diag, keys, r) { }
    forall env: Env ensures StateOf(next, env) == Tracked(env, diag, r + 1) { }
  }

  /** A partial round: its constraint, and the forms after the internal layer. */
  method DefinePartial(diag: State, keys: Keys, r: nat, state: Forms) returns (cs: seq<Constraint>, next: Forms)
    requires r < Rounds && !IsFull(r) && forall env: Env :: StateOf(state, env) == Tracked(env, diag, r)
    ensures forall env: Env :: AllHold(cs, env) <==> RoundOk(env, diag, keys, r)
    ensures forall env: Env :: StateOf(next, env) == Tracked(env, diag, r + 1)
  {
    var c := Constraint(SBox(r), [Cubic(1, state[0], keys[r][0])]);
    cs := [c];
    var mid: Forms := [LinCol(SBox(r))] + state[1..];
    next := CombineAll(InternalMatrix(diag), mid);
    forall env: Env ensures AllHold(cs, env) <==> RoundOk(env, diag, keys, r) {
      hide Tracked, Triple, AllHold;
      OneHolds(cs, env);
      OneCubic(c.terms[0], env);
      assert Eval(state[0], env) == StateOf(state, env)[0];
    }
    forall env: Env ensures StateOf(next, env) == Tracked(env, diag, r + 1) {
      hide Apply, Triple, Eval;
      ColEval(SBox(r), env);
      assert StateOf(mid, env) == Set0(StateOf(state, env), env(SBox(r)));
    }
  }

  lemma OneCubic(t: Cubic, env: Env)
    requires t.coef == 1
    ensures CubicSum([t], env, 1) == Triple(Eval(t.form, env) + t.key)
  {
    hide Triple, Eval;
    assert CubicSum([t], env, 1) == CubicSum([t], env, 0) + 1 * Triple(Eval(t.form, env) + t.key);
  }

  /** Builds the constraints of a row: they hold exactly when RowOk does. */
  method DefineP2(diag: State, keys: Keys) returns (cs: seq<Constraint>)
    ensures forall env: Env :: AllHold(cs, env) <==> RowOk(env, diag, keys)
  {
    hide AllHold, RoundOk, Tracked, StateOf;
    var ins: Forms := seq(Width, i requires 0 <= i < Width => LinCol(In(i)));
    var state := CombineAll(ExternalMatrix(), ins);
    forall env: Env ensures StateOf(state, env) == Tracked(env, diag, 0) { StartForms(ins, env, diag); }
    cs := [];
    forall env: Env ensures AllHold(cs, env) { NoneHold(env); }
    for r := 0 to Rounds
      invariant forall env: Env :: AllHold(cs, env) <==> RoundsOk(env, diag, keys, r)
      invariant forall env: Env :: StateOf(state, env) == Tracked(env, diag, r)
    {
      var more, next;
      if IsFull(r) {
        more, next := DefineFull(diag, keys, r, state);
      } else {
        more, next := DefinePartial(diag, keys, r, state);
      }
      ghost var all := cs + more;
      forall env: Env ensures AllHold(all, env) <==> RoundsOk(env, diag, keys, r + 1) {
        AllHoldAppend(cs, more, env);
        RoundsNext(env, diag, keys, r);
      }
      cs, state := cs + more, next;
    }
  }

  lemma StartForms(ins: Forms, env: Env, diag: State)
    requires ins == seq(Width, i requires 0 <= i < Width => LinCol(In(i)))
    ensures Apply(ExternalMatrix(), StateOf(ins, env)) == Tracked(env, diag, 0)
  {
    hide Eval, Dot;
    forall i | 0 <= i < Width ensures Eval(ins[i], env) == env(In(i)) { ColEval(In(i), env); }
    assert StateOf(ins, env) == Inputs(env);
  }

  lemma NoneHold(env: Env)
    ensures AllHold([], env)
  {
  }
}
