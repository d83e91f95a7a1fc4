/** The AIR of a Poseidon2 permutation, one per row: its constraints hold exactly on the
    columns the trace writes, for any round keys. */
module Poseidon2Air {
  import opened KoalaBear
  import opened Constraints
  import opened Poseidon2

  /** The witness columns: inputs, the state after every full round but the last, the S-box
      output of every partial round, and the outputs. */
  datatype Col = In(i: nat) | Post(r: nat, i: nat) | SBox(r: nat) | Out(i: nat)

  type Env = Col -> Elt

  predicate IsCol(c: Col) {
    match c
    case In(i) => i < Width
    case Post(r, i) => r < Rounds - 1 && IsFull(r) && i < Width
    case SBox(r) => r < Rounds && !IsFull(r)
    case Out(i) => i < Width
  }

  /** The column of lane i after full round r. */
  function Next(r: nat, i: nat): Col { if r == Rounds - 1 then Out(i) else Post(r, i) }

  const ZeroState: State := [0, 0, 0, 0, 0, 0, 0, 0, 0, 0, 0, 0, 0, 0, 0, 0]
  const ZeroKeys: seq<State> := seq(Rounds, i => ZeroState)

  /** The round keys; partial rounds use lane 0 only. */
  type Keys = k: seq<State> | |k| == Rounds witness ZeroKeys

  // ---- the dense matrices ----

  function Unit(j: nat): State
    requires j < Width
  { seq(Width, i => if i == j then 1 else 0) }

  lemma {:induction false} DotUnit(row: seq<int>, j: nat, n: nat)
    requires j < Width && n <= Width == |row|
    ensures Dot(row, Ints(Unit(j)), n) == if j < n then row[j] else 0
  {
    if n > 0 { DotUnit(row, j, n - 1); }
  }

  function ExternalMatrix(): (m: seq<seq<Elt>>)
    ensures |m| == Width && forall i :: 0 <= i < Width ==> |m[i]| == Width && m[i] == ExternalRow(i)
  { seq(Width, i requires 0 <= i < Width => ExternalRow(i)) }

  function InternalMatrix(diag: State): (m: seq<seq<Elt>>)
    ensures |m| == Width && forall i :: 0 <= i < Width ==> |m[i]| == Width && m[i] == InternalRow(diag, i)
  { seq(Width, i requires 0 <= i < Width => InternalRow(diag, i)) }

  lemma ExternalUnit(i: nat, j: nat)
    requires i < Width && j < Width
    ensures External(Unit(j))[i] == ExternalMatrix()[i][j]
  {
    hide ExternalLane, Dot;
    ExternalIsDense(Unit(j), i);
    DotUnit(Ints(ExternalRow(i)), j, Width);
    RElt(ExternalRow(i)[j]);
  }

  lemma InternalUnit(diag: State, i: nat, j: nat)
    requires i < Width && j < Width
    ensures Internal(diag, Unit(j))[i] == InternalMatrix(diag)[i][j]
  {
    hide InternalLane, Dot;
    InternalIsDense(diag, Unit(j), i);
    DotUnit(Ints(InternalRow(diag, i)), j, Width);
    RElt(InternalRow(diag, i)[j]);
  }

  /** Both layers applied to unit vector j. */
  method Columns(diag: State, j: nat) returns (e: State, n: State)
    requires j < Width
    ensures e == External(Unit(j)) && n == Internal(diag, Unit(j))
  {
    hide External, Internal;
    var x := new Elt[Width](i => if i == j then 1 else 0);
    assert x[..] == Unit(j);
    MatExternal(x);
    var y := new Elt[Width](i => if i == j then 1 else 0);
    assert y[..] == Unit(j);
    MatInternal(diag, y);
    return x[..], y[..];
  }

  /** The matrices as the code builds them: column j is a layer applied to unit vector j. */
  method BuildMatrices(diag: State) returns (me: seq<seq<Elt>>, mi: seq<seq<Elt>>)
    ensures me == ExternalMatrix() && mi == InternalMatrix(diag)
  {
    hide External, Internal;
    var e: seq<State>, n: seq<State> := [], [];
    for j := 0 to Width
      invariant |e| == |n| == j && forall k :: 0 <= k < j ==> e[k] == External(Unit(k)) && n[k] == Internal(diag, Unit(k))
    {
      var x, y := Columns(diag, j);
      e, n := e + [x], n + [y];
    }
    me, mi := Transposed(e), Transposed(n);
    MatricesAre(diag, e, n);
  }

  lemma MatricesAre(diag: State, e: seq<State>, n: seq<State>)
    requires |e| == |n| == Width && forall k :: 0 <= k < Width ==> e[k] == External(Unit(k)) && n[k] == Internal(diag, Unit(k))
    ensures Transposed(e) == ExternalMatrix() && Transposed(n) == InternalMatrix(diag)
  {
    hide External, Internal, ExternalRow, InternalRow;
    forall i | 0 <= i < Width ensures Transposed(e)[i] == ExternalMatrix()[i] && Transposed(n)[i] == InternalMatrix(diag)[i] {
      forall j | 0 <= j < Width ensures e[j][i] == ExternalMatrix()[i][j] && n[j][i] == InternalMatrix(diag)[i][j] {
        ExternalUnit(i, j);
        InternalUnit(diag, i, j);
      }
    }
  }

  function Transposed(m: seq<State>): (r: seq<seq<Elt>>)
    requires |m| == Width
    ensures |r| == Width && forall i :: 0 <= i < Width ==> |r[i]| == Width && forall j :: 0 <= j < Width ==> r[i][j] == m[j][i]
  { seq(Width, i requires 0 <= i < Width => seq(Width, j requires 0 <= j < Width => m[j][i])) }

  lemma ExternalApplies(s: State)
    ensures Apply(ExternalMatrix(), s) == External(s)
  {
    hide ExternalLane, Dot;
    forall i | 0 <= i < Width ensures Apply(ExternalMatrix(), s)[i] == External(s)[i] { ExternalIsDense(s, i); }
  }

  lemma InternalApplies(diag: State, s: State)
    ensures Apply(InternalMatrix(diag), s) == Internal(diag, s)
  {
    hide InternalLane, Dot;
    forall i | 0 <= i < Width ensures Apply(InternalMatrix(diag), s)[i] == Internal(diag, s)[i] { InternalIsDense(diag, s, i); }
  }

  // ---- the constraints ----

  /** The S-box of the trace: a square, then a product. */
  function Cube(x: Elt): Elt { MulElt(MulElt(x, x), x) }

  /** The S-box of a constraint: the product of three equal integer factors. */
  function Triple(x: int): int { x * x * x }

  lemma CubeIsPower(x: Elt)
    ensures Cube(x) == PowMod(x, 3, P)
  {
    hide MulMod;
    assert PowMod(x, 3, P) == MulMod(x, PowMod(x, 2, P), P);
    assert PowMod(x, 2, P) == MulMod(x, PowMod(x, 1, P), P);
    assert PowMod(x, 1, P) == MulMod(x, PowMod(x, 0, P), P);
    MulModOne(x, P);
    CubeCommutes(x);
  }

  lemma CubeCommutes(x: Elt)
    ensures Cube(x) == MulMod(x, MulMod(x, x, P), P)
  {
  }

  lemma ReducedProduct(x: int, y: int, x': int, y': int)
    requires R(x) == R(x') && R(y) == R(y')
    ensures R(x * y) == R(x' * y')
  {
    ReduceFactor(x, y, P);
    ReduceFactor(x', y, P);
    ReduceFactor(y, x', P);
    ReduceFactor(y', x', P);
  }

  /** The reduced sum's cube is the residue of the integer cube of the sum. */
  lemma TripleIsCube(s: Elt, k: Elt)
    ensures R(Triple(s + k)) == Cube(AddElt(s, k))
  {
    hide AddElt, R;
    var x: int, t: int := s + k, AddElt(s, k);
    SumResidue(s, k);
    ReducedProduct(x, x, t, t);
    SquareResidue(t);
    ReducedProduct(x * x, x, MulElt(t, t), t);
    CubeResidue(t);
  }

  lemma SumResidue(s: Elt, k: Elt)
    ensures R(s + k) == R(AddElt(s, k))
  {
  }

  lemma SquareResidue(t: Elt)
    ensures R(t * t) == R(MulElt(t, t))
  {
  }

  lemma CubeResidue(t: Elt)
    ensures R(MulElt(t, t) * t) == Cube(t)
  {
  }

  /** The cubes of a full round as the constraints multiply them out. */
  function Triples(s: State, k: State): (r: seq<int>)
    ensures |r| == Width
  { seq(Width, j requires 0 <= j < Width => Triple(Lane(s, j) + Lane(k, j))) }

  lemma {:induction false} DotResidue(row: seq<int>, xs: seq<int>, ys: seq<int>, n: nat)
    requires n <= |row| && n <= |xs| && n <= |ys| && forall j :: 0 <= j < n ==> R(xs[j]) == R(ys[j])
    ensures R(Dot(row, xs, n)) == R(Dot(row, ys, n))
  {
    hide R;
    if n > 0 {
      DotResidue(row, xs, ys, n - 1);
      ReducedProduct(row[n - 1], xs[n - 1], row[n - 1], ys[n - 1]);
      SumOfResidues(Dot(row, xs, n - 1), Dot(row, ys, n - 1), row[n - 1] * xs[n - 1], row[n - 1] * ys[n - 1]);
    }
  }

  lemma SumOfResidues(a: int, a': int, b: int, b': int)
    requires R(a) == R(a') && R(b) == R(b')
    ensures R(a + b) == R(a' + b')
  {
  }

  lemma TriplesAreCubes(row: seq<int>, s: State, k: State)
    requires |row| == Width
    ensures R(Dot(row, Triples(s, k), Width)) == R(Dot(row, Ints(Cubes(s, k)), Width))
  {
    hide R, Triple, Cube, AddElt, Dot;
    forall j | 0 <= j < Width ensures R(Triples(s, k)[j]) == R(Ints(Cubes(s, k))[j]) {
      TripleIsCube(s[j], k[j]);
      RElt(Cube(AddElt(s[j], k[j])));
    }
    DotResidue(row, Triples(s, k), Ints(Cubes(s, k)), Width);
  }

  /** The S-boxes of a full round. */
  function Cubes(s: State, k: State): State { seq(Width, j requires 0 <= j < Width => Cube(AddElt(s[j], k[j]))) }

  /** Lane 0 replaced. */
  function Set0(s: State, x: Elt): State { [x] + s[1..] }

  function Inputs(env: Env): State { seq(Width, i requires 0 <= i < Width => env(In(i))) }

  /** The values of the tracked linear forms before round r. */
  function Tracked(env: Env, diag: State, r: nat): State {
    if r == 0 then Apply(ExternalMatrix(), Inputs(env))
    else if IsFull(r - 1) then seq(Width, i requires 0 <= i < Width => env(Next(r - 1, i)))
    else Apply(InternalMatrix(diag), Set0(Tracked(env, diag, r - 1), env(SBox(r - 1))))
  }

  /** The constraints of round r. */
  predicate RoundOk(env: Env, diag: State, keys: Keys, r: nat)
    requires r < Rounds
  {
    var s := Tracked(env, diag, r);
    if IsFull(r) then
      forall i :: 0 <= i < Width ==> Zero(env(Next(r, i)) - Dot(Ints(ExternalMatrix()[i]), Triples(s, keys[r]), Width))
    else Zero(env(SBox(r)) - Triple(Lane(s, 0) + Lane(keys[r], 0)))
  }

  predicate RowOk(env: Env, diag: State, keys: Keys) { forall r :: 0 <= r < Rounds ==> RoundOk(env, diag, keys, r) }

  // ---- the trace ----

  /** The state before round r. */
  function StateAt(diag: State, keys: Keys, input: State, r: nat): State
    requires r <= Rounds
  {
    if r == 0 then External(input)
    else
      var s := StateAt(diag, keys, input, r - 1);
      if IsFull(r - 1) then External(Cubes(s, keys[r - 1]))
      else Internal(diag, Set0(s, Cube(AddElt(s[0], keys[r - 1][0]))))
  }

  function Permutation(diag: State, keys: Keys, input: State): State { StateAt(diag, keys, input, Rounds) }

  /** What the trace writes in a column. */
  function TraceCol(diag: State, keys: Keys, input: State, c: Col): Elt
    requires IsCol(c)
  {
    match c
    case In(i) => input[i]
    case Post(r, i) => StateAt(diag, keys, input, r + 1)[i]
    case SBox(r) => Cube(AddElt(StateAt(diag, keys, input, r)[0], keys[r][0]))
    case Out(i) => Permutation(diag, keys, input)[i]
  }

  lemma FullMeans(env: Env, diag: State, keys: Keys, r: nat, s: State)
    requires r < Rounds && IsFull(r) && s == Tracked(env, diag, r)
    ensures RoundOk(env, diag, keys, r) <==> forall i :: 0 <= i < Width ==> env(Next(r, i)) == External(Cubes(s, keys[r]))[i]
  {
    hide Dot, Tracked, External, Cubes, Triples;
    ExternalApplies(Cubes(s, keys[r]));
    forall i | 0 <= i < Width
      ensures Zero(env(Next(r, i)) - Dot(Ints(ExternalMatrix()[i]), Triples(s, keys[r]), Width))
         <==> env(Next(r, i)) == External(Cubes(s, keys[r]))[i]
    {
      TriplesAreCubes(Ints(ExternalMatrix()[i]), s, keys[r]);
      Reduced(env(Next(r, i)), Dot(Ints(ExternalMatrix()[i]), Triples(s, keys[r]), Width));
    }
  }

  lemma Reduced(x: Elt, y: int)
    ensures Zero(x - y) <==> x == R(y)
  {
  }

  lemma PartialMeans(env: Env, diag: State, keys: Keys, r: nat)
    requires r < Rounds && !IsFull(r)
    ensures RoundOk(env, diag, keys, r) <==> env(SBox(r)) == Cube(AddElt(Tracked(env, diag, r)[0], keys[r][0]))
  {
    hide Tracked, Cube, AddElt, Triple;
    var s := Tracked(env, diag, r);
    Reduced(env(SBox(r)), Triple(Lane(s, 0) + Lane(keys[r], 0)));
    TripleIsCube(s[0], keys[r][0]);
  }

  /** The tracked forms always equal the state after the in-place layers. */
  lemma {:induction false} FormsAreState(env: Env, diag: State, keys: Keys, r: nat)
    requires r <= Rounds && forall q :: 0 <= q < r ==> RoundOk(env, diag, keys, q)
    ensures Tracked(env, diag, r) == StateAt(diag, keys, Inputs(env), r)
  {
    hide RoundOk, External, Internal, Cubes, Cube, Apply;
    if r == 0 {
      ExternalApplies(Inputs(env));
    } else {
      FormsAreState(env, diag, keys, r - 1);
      var s := Tracked(env, diag, r - 1);
      if IsFull(r - 1) {
        FullMeans(env, diag, keys, r - 1, s);
      } else {
        PartialMeans(env, diag, keys, r - 1);
        InternalApplies(diag, Set0(s, env(SBox(r - 1))));
      }
    }
  }

  predicate IsTrace(env: Env, diag: State, keys: Keys) {
    && (forall r, i :: 0 <= r < Rounds - 1 && IsFull(r) && 0 <= i < Width ==> env(Post(r, i)) == TraceCol(diag, keys, Inputs(env), Post(r, i)))
    && (forall r :: 0 <= r < Rounds && !IsFull(r) ==> env(SBox(r)) == TraceCol(diag, keys, Inputs(env), SBox(r)))
    && (forall i :: 0 <= i < Width ==> env(Out(i)) == TraceCol(diag, keys, Inputs(env), Out(i)))
  }

  lemma TraceToRounds(env: Env, diag: State, keys: Keys, r: nat)
    requires r < Rounds && IsTrace(env, diag, keys) && Tracked(env, diag, r) == StateAt(diag, keys, Inputs(env), r)
    ensures RoundOk(env, diag, keys, r)
  {
    hide RoundOk, External, Internal, Cubes, Cube, Tracked;
    if IsFull(r) {
      FullMeans(env, diag, keys, r, Tracked(env, diag, r));
    } else {
      PartialMeans(env, diag, keys, r);
    }
  }

  lemma {:induction false} TraceRounds(env: Env, diag: State, keys: Keys, r: nat)
    requires r <= Rounds && IsTrace(env, diag, keys)
    ensures forall q :: 0 <= q < r ==> RoundOk(env, diag, keys, q)
  {
    hide RoundOk, IsTrace, Tracked, StateAt;
    if r > 0 {
      TraceRounds(env, diag, keys, r - 1);
      FormsAreState(env, diag, keys, r - 1);
      TraceToRounds(env, diag, keys, r - 1);
    }
  }

  lemma RoundsTrace(env: Env, diag: State, keys: Keys, r: nat)
    requires r < Rounds && RowOk(env, diag, keys)
    ensures IsFull(r) ==> forall i :: 0 <= i < Width ==> env(Next(r, i)) == StateAt(diag, keys, Inputs(env), r + 1)[i]
    ensures !IsFull(r) ==> env(SBox(r)) == TraceCol(diag, keys, Inputs(env), SBox(r))
  {
    hide RoundOk, External, Internal, Cubes, Cube, Tracked;
    FormsAreState(env, diag, keys, r);
    if IsFull(r) {
      FullMeans(env, diag, keys, r, Tracked(env, diag, r));
    } else {
      PartialMeans(env, diag, keys, r);
    }
  }

  /** Exactness: for any round keys, the constraints hold on a row if and only if its columns
      are exactly what the trace writes for the row's inputs. */
  lemma AirExact(env: Env, diag: State, keys: Keys)
    ensures RowOk(env, diag, keys) <==> IsTrace(env, diag, keys)
  {
    hide RoundOk, Tracked, StateAt;
    if RowOk(env, diag, keys) {
      forall r, i | 0 <= r < Rounds - 1 && IsFull(r) && 0 <= i < Width ensures env(Post(r, i)) == TraceCol(diag, keys, Inputs(env), Post(r, i)) {
        RoundsTrace(env, diag, keys, r);
        assert env(Next(r, i)) == StateAt(diag, keys, Inputs(env), r + 1)[i];
      }
      forall r | 0 <= r < Rounds && !IsFull(r) ensures env(SBox(r)) == TraceCol(diag, keys, Inputs(env), SBox(r)) {
        RoundsTrace(env, diag, keys, r);
      }
      forall i | 0 <= i < Width ensures env(Out(i)) == TraceCol(diag, keys, Inputs(env), Out(i)) {
        RoundsTrace(env, diag, keys, Rounds - 1);
        assert env(Next(Rounds - 1, i)) == StateAt(diag, keys, Inputs(env), Rounds)[i];
      }
    }
    if IsTrace(env, diag, keys) { TraceRounds(env, diag, keys, Rounds); }
  }

  // ---- the trace, in place ----

  /** The S-boxes of a full round, in place. */
  method SBoxes(s: array<Elt>, key: State)
    requires s.Length == Width
    modifies s
    ensures s[..] == Cubes(old(s[..]), key)
  {
    hide Cube, AddElt, MulElt;
    ghost var was: State := s[..];
    for j := 0 to Width
      invariant forall i :: 0 <= i < j ==> s[i] == Cubes(was, key)[i]
      invariant forall i :: j <= i < Width ==> s[i] == was[i]
    {
      var t := AddElt(s[j], key[j]);
      CubeSteps(t);
      s[j] := MulElt(MulElt(t, t), t);
    }
  }

  lemma CubeSteps(t: Elt)
    ensures MulElt(MulElt(t, t), t) == Cube(t)
  {
  }

  // The columns' positions: the inputs, then the columns of every round in order.

  /** The first position of round r's columns. */
  function Start(r: nat): nat {
    if r <= 3 then Width + Width * r else if r <= 24 then 64 + (r - 3) else 85 + Width * (r - 24)
  }

  function Index(c: Col): nat {
    match c
    case In(i) => i
    case Post(r, i) => Start(r) + i
    case SBox(r) => Start(r)
    case Out(i) => Start(Rounds - 1) + i
  }

  /** The number of rounds after which a column is written. */
  function RoundOf(c: Col): nat {
    match c
    case In(_) => 0
    case Post(r, _) => r + 1
    case SBox(r) => r + 1
    case Out(_) => Rounds
  }

  lemma Positions(c: Col, r: nat)
    requires IsCol(c) && r <= Rounds
    ensures RoundOf(c) <= r ==> Index(c) < Start(r)
    ensures RoundOf(c) > r ==> Index(c) >= Start(r)
  {
  }

  /** Distinct columns have distinct positions, which fill 0..132. */
  lemma PositionsDistinct(c: Col, d: Col)
    requires IsCol(c) && IsCol(d) && Index(c) == Index(d)
    ensures c == d
    ensures Index(c) < Start(Rounds) == 133
  {
  }

  /** The columns of the first r rounds hold what the trace writes. */
  ghost predicate Filled(diag: State, keys: Keys, input: State, r: nat, res: seq<Elt>) {
    |res| == 133 && forall c :: IsCol(c) && RoundOf(c) <= r ==> Index(c) < 133 && res[Index(c)] == TraceCol(diag, keys, input, c)
  }

  /** Writing round r's columns keeps the earlier ones. */
  lemma FilledNext(diag: State, keys: Keys, input: State, r: nat, res: seq<Elt>, next: seq<Elt>)
    requires r < Rounds && Filled(diag, keys, input, r, res) && |next| == 133
    requires Start(r) < Start(r + 1) <= 133 && next[..Start(r)] == res[..Start(r)]
    requires forall k :: 0 <= k < Start(r + 1) - Start(r) ==> next[Start(r) + k] == RoundCol(diag, keys, input, r, k)
    ensures Filled(diag, keys, input, r + 1, next)
  {
    hide TraceCol, RoundCol;
    forall c | IsCol(c) && RoundOf(c) <= r + 1 ensures Index(c) < 133 && next[Index(c)] == TraceCol(diag, keys, input, c) {
      PositionsDistinct(c, c);
      Positions(c, r);
      Positions(c, r + 1);
      if RoundOf(c) == r + 1 { RoundColIs(diag, keys, input, r, c); } else { assert next[Index(c)] == next[..Start(r)][Index(c)]; }
    }
  }

  /** The k-th column round r writes: a lane of the state after a full round, or the S-box. */
  function RoundCol(diag: State, keys: Keys, input: State, r: nat, k: nat): Elt
    requires r < Rounds
  {
    if IsFull(r) then (if k < Width then StateAt(diag, keys, input, r + 1)[k] else 0)
    else Cube(AddElt(StateAt(diag, keys, input, r)[0], keys[r][0]))
  }

  lemma RoundColIs(diag: State, keys: Keys, input: State, r: nat, c: Col)
    requires r < Rounds && IsCol(c) && RoundOf(c) == r + 1
    ensures Index(c) >= Start(r) && RoundCol(diag, keys, input, r, Index(c) - Start(r)) == TraceCol(diag, keys, input, c)
  {
    hide StateAt, Cube;
  }

  /** Writes the columns of the permutation of the input, at their positions. */
  method P2Trace(diag: State, keys: Keys, input: State, res: array<Elt>)
    requires res.Length == 133
    modifies res
    ensures Filled(diag, keys, input, Rounds, res[..])
  {
    hide StateAt, TraceCol, Filled, External, Internal, Cubes, Cube, MulElt, AddElt;
    var state := new Elt[Width](i requires 0 <= i < Width => input[i]);
    for i := 0 to Width
      invariant state[..] == input && forall k :: 0 <= k < i ==> res[k] == input[k]
    {
      res[i] := input[i];
    }
    FilledStart(diag, keys, input, res[..]);
    MatExternal(state);
    for r := 0 to Rounds
      invariant state[..] == StateAt(diag, keys, input, r) && Filled(diag, keys, input, r, res[..])
    {
      ghost var before := res[..];
      StartBound(r);
      StateNext(diag, keys, input, r);
      if IsFull(r) {
        SBoxes(state, keys[r]);
        MatExternal(state);
        StoreLanes(Start(r), state, res);
      } else {
        var t := AddElt(state[0], keys[r][0]);
        CubeSteps(t);
        state[0] := MulElt(MulElt(t, t), t);
        res[Start(r)] := state[0];
        assert state[..] == Set0(StateAt(diag, keys, input, r), state[0]);
        MatInternal(diag, state);
      }
      StoredRound(diag, keys, input, r, res[..]);
      FilledNext(diag, keys, input, r, before, res[..]);
    }
  }

  lemma StoredRound(diag: State, keys: Keys, input: State, r: nat, res: seq<Elt>)
    requires r < Rounds && |res| == 133 && Start(r) < Start(r + 1) <= 133
    requires IsFull(r) ==> Start(r) + Width <= 133 && res[Start(r)..Start(r) + Width] == StateAt(diag, keys, input, r + 1)
    requires !IsFull(r) ==> res[Start(r)] == Cube(AddElt(StateAt(diag, keys, input, r)[0], keys[r][0]))
    ensures forall k :: 0 <= k < Start(r + 1) - Start(r) ==> res[Start(r) + k] == RoundCol(diag, keys, input, r, k)
  {
    hide StateAt, Cube;
    forall k | 0 <= k < Start(r + 1) - Start(r) ensures res[Start(r) + k] == RoundCol(diag, keys, input, r, k) {
      if IsFull(r) { assert res[Start(r) + k] == res[Start(r)..Start(r) + Width][k]; }
    }
  }

  lemma StartBound(r: nat)
    requires r < Rounds
    ensures Start(r) < Start(r + 1) <= 133 && (IsFull(r) ==> Start(r) + Width <= 133)
  {
  }

  lemma StateNext(diag: State, keys: Keys, input: State, r: nat)
    requires r < Rounds
    ensures var s := StateAt(diag, keys, input, r);
      StateAt(diag, keys, input, r + 1) ==
        if IsFull(r) then External(Cubes(s, keys[r])) else Internal(diag, Set0(s, Cube(AddElt(s[0], keys[r][0]))))
  {
    hide External, Internal, Cubes, Cube;
  }

  lemma FilledStart(diag: State, keys: Keys, input: State, res: seq<Elt>)
    requires |res| == 133 && forall k :: 0 <= k < Width ==> res[k] == input[k]
    ensures Filled(diag, keys, input, 0, res) && StateAt(diag, keys, input, 0) == External(input)
  {
    hide External, Internal, Cubes, Cube;
  }

  method StoreLanes(at: nat, s: array<Elt>, res: array<Elt>)
    requires s.Length == Width && at + Width <= res.Length && s != res
    modifies res
    ensures res[at..at + Width] == s[..] && res[..at] == old(res[..at])
  {
    for i := 0 to Width
      invariant forall k :: 0 <= k < i ==> res[at + k] == s[k]
      invariant forall k :: 0 <= k < at ==> res[k] == old(res[k])
    {
      res[at + i] := s[i];
    }
  }
}
