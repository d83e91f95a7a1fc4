/** The compression of the recursion machine, proved by the rows of the P2 core. */
module Compression {
  import opened KoalaBear
  import opened Cells
  import P2 = Poseidon2
  import opened Poseidon2Air
  import opened MachineSound
  import PI = PermutationInjective

  /** The diagonal of the internal matrix of width 16, reduced modulo P; DiagonalIs says which
      fractions the entries are. */
  function P2Diag(): P2.State {
    [2130706431, 1, 2, 1065353217, 3, 4, 1065353216, 2130706430,
     2130706429, 2122383361, 1864368129, 2130706306, 8323072, 266338304, 133169152, 127]
  }

  /** The second half of the permutation of state and block, fed forward with the block. */
  function FeedForward(out: P2.State, block: Cell): Cell {
    seq(CellWidth, i requires 0 <= i < CellWidth => AddElt(out[CellWidth + i], block[i]))
  }

  function Compress(keys: Keys, state: Cell, block: Cell): Cell {
    FeedForward(Permutation(P2Diag(), keys, state + block), block)
  }

  /** A row of the core writes the compression of its inputs' halves. */
  predicate WritesCore(env: Env, row: CoreRow) {
    && (forall i :: 0 <= i < CellWidth ==> row.left[i] == env(In(i)) && row.right[i] == env(In(CellWidth + i)))
    && (forall i :: 0 <= i < CellWidth ==> row.out[i] == AddElt(env(Out(CellWidth + i)), env(In(CellWidth + i))))
  }

  /** A core row whose columns meet the AIR writes a true compression. */
  lemma CoreRowCompresses(env: Env, keys: Keys, row: CoreRow)
    requires RowOk(env, P2Diag(), keys) && WritesCore(env, row)
    ensures row.out == Compress(keys, row.left, row.right)
  {
    hide RowOk, Permutation, P2Diag, AddElt;
    AirExact(env, P2Diag(), keys);
    var input := row.left + row.right;
    assert input == Inputs(env) by {
      forall i | 0 <= i < 16 ensures input[i] == env(In(i)) {
        if i >= CellWidth { assert row.right[i - CellWidth] == env(In(CellWidth + (i - CellWidth))); }
      }
    }
    forall i | 0 <= i < CellWidth ensures row.out[i] == Compress(keys, row.left, row.right)[i] {
      assert env(Out(CellWidth + i)) == TraceCol(P2Diag(), keys, Inputs(env), Out(CellWidth + i));
      assert row.right[i] == env(In(CellWidth + i));
    }
  }

  /** The columns the trace writes for a state and a block meet the AIR and write their
      compression. */
  lemma TracedCoreRow(env: Env, keys: Keys, left: Cell, right: Cell)
    requires Inputs(env) == left + right && IsTrace(env, P2Diag(), keys)
    ensures RowOk(env, P2Diag(), keys) && WritesCore(env, CoreRow(left, right, Compress(keys, left, right), 1))
  {
    hide RowOk, Permutation, P2Diag, AddElt;
    AirExact(env, P2Diag(), keys);
    forall i | 0 <= i < CellWidth
      ensures left[i] == env(In(i)) && right[i] == env(In(CellWidth + i))
      ensures Compress(keys, left, right)[i] == AddElt(env(Out(CellWidth + i)), env(In(CellWidth + i)))
    {
      assert Inputs(env)[i] == env(In(i)) && Inputs(env)[CellWidth + i] == env(In(CellWidth + i));
      assert (left + right)[i] == left[i] && (left + right)[CellWidth + i] == right[i];
      assert env(Out(CellWidth + i)) == TraceCol(P2Diag(), keys, Inputs(env), Out(CellWidth + i));
    }
  }

  // ---- the diagonal ----

  /** -2, 1, 2, 1/2, 3, 4, -1/2, -3, -4, 1/2^8, 1/8, 1/2^24, -1/2^8, -1/8, -1/16, -1/2^24. */
  predicate DiagonalEntries(d: P2.State) {
    && Zero(P2.Lane(d, 0) + 2) && d[1] == 1 && d[2] == 2 && d[4] == 3 && d[5] == 4
    && Zero(P2.Lane(d, 7) + 3) && Zero(P2.Lane(d, 8) + 4)
    && Zero(2 * P2.Lane(d, 3) - 1) && Zero(2 * P2.Lane(d, 6) + 1)
    && Zero(256 * P2.Lane(d, 9) - 1) && Zero(256 * P2.Lane(d, 12) + 1)
    && Zero(8 * P2.Lane(d, 10) - 1) && Zero(8 * P2.Lane(d, 13) + 1)
    && Zero(16777216 * P2.Lane(d, 11) - 1) && Zero(16777216 * P2.Lane(d, 15) + 1)
    && Zero(16 * P2.Lane(d, 14) + 1)
  }

  lemma DiagonalIs()
    ensures DiagonalEntries(P2Diag())
  {
  }

  // ---- its layer is invertible ----

  lemma Inverted(k: Elt)
    requires k != 0
    ensures Zero(k * Inv(k) - 1)
  {
    hide Inv;
  }

  lemma CancelOpposites(a: int, b: int, i: int, j: int)
    requires Zero(a + b) && Zero(a * i - 1) && Zero(b * j - 1)
    ensures Zero(a * (i + j))
  {
    PI.ZeroScaled(j, a + b);
    PI.ZeroSum(a * i - 1, b * j - 1);
    PI.ZeroSum((a * i - 1) - (b * j - 1), j * (a + b));
    assert j * (a + b) == a * j + b * j;
    assert a * (i + j) == a * i + a * j;
  }

  lemma OppositeInverses(a: Elt, b: Elt)
    requires a != 0 && Zero(a + b)
    ensures b != 0 && Zero(Inv(a) + Inv(b))
  {
    hide Inv;
    assert b == P - a;
    Inverted(a); Inverted(b);
    var i: int, j: int := Inv(a), Inv(b);
    CancelOpposites(a, b, i, j);
    PI.Divided(a, i + j);
  }

  /** The inverse of a is any k with k a = 1, and its opposite any k with k a = -1. */
  lemma InverseIs(a: Elt, k: int)
    ensures Zero(k * a - 1) ==> a != 0 && Zero(Inv(a) - k)
    ensures Zero(k * a + 1) ==> a != 0 && Zero(Inv(a) + k)
  {
    hide Inv;
    if a != 0 {
      Inverted(a);
      InverseGap(a, Inv(a), k);
    }
  }

  lemma InverseGap(a: Elt, i: int, k: int)
    requires a != 0 && Zero(a * i - 1)
    ensures Zero(k * a - 1) ==> Zero(i - k)
    ensures Zero(k * a + 1) ==> Zero(i + k)
  {
    assert a * (i - k) == (a * i - 1) - (k * a - 1);
    assert a * (i + k) == (a * i - 1) + (k * a + 1);
    if Zero(k * a - 1) { PI.ZeroSum(a * i - 1, k * a - 1); PI.Divided(a, i - k); }
    if Zero(k * a + 1) { PI.ZeroSum(a * i - 1, k * a + 1); PI.Divided(a, i + k); }
  }

  lemma SumSixteen(x: seq<int>)
    requires |x| == 16
    ensures P2.Sum(x, 16) == x[0] + x[1] + x[2] + x[3] + x[4] + x[5] + x[6] + x[7]
                           + x[8] + x[9] + x[10] + x[11] + x[12] + x[13] + x[14] + x[15]
  {
    assert P2.Sum(x, 0) == 0;
    assert P2.Sum(x, 2) == P2.Sum(x, 1) + x[1] && P2.Sum(x, 1) == x[0];
    assert P2.Sum(x, 4) == P2.Sum(x, 3) + x[3] && P2.Sum(x, 3) == P2.Sum(x, 2) + x[2];
    assert P2.Sum(x, 6) == P2.Sum(x, 5) + x[5] && P2.Sum(x, 5) == P2.Sum(x, 4) + x[4];
    assert P2.Sum(x, 8) == P2.Sum(x, 7) + x[7] && P2.Sum(x, 7) == P2.Sum(x, 6) + x[6];
    assert P2.Sum(x, 10) == P2.Sum(x, 9) + x[9] && P2.Sum(x, 9) == P2.Sum(x, 8) + x[8];
    assert P2.Sum(x, 12) == P2.Sum(x, 11) + x[11] && P2.Sum(x, 11) == P2.Sum(x, 10) + x[10];
    assert P2.Sum(x, 14) == P2.Sum(x, 13) + x[13] && P2.Sum(x, 13) == P2.Sum(x, 12) + x[12];
    assert P2.Sum(x, 16) == P2.Sum(x, 15) + x[15] && P2.Sum(x, 15) == P2.Sum(x, 14) + x[14];
  }

  /** The inverses of the entries that are not powers of two cancel in pairs. */
  lemma PairsCancel(d: P2.State)
    requires DiagonalEntries(d)
    ensures d[0] != 0 && d[2] != 0 && d[4] != 0 && d[5] != 0 && d[7] != 0 && d[8] != 0
    ensures Zero(Inv(d[0]) + Inv(d[2])) && Zero(Inv(d[4]) + Inv(d[7])) && Zero(Inv(d[5]) + Inv(d[8]))
  {
    hide Inv;
    OppositeInverses(d[2], d[0]);
    OppositeInverses(d[4], d[7]);
    OppositeInverses(d[5], d[8]);
  }

  lemma PowersInvert(d: P2.State)
    requires DiagonalEntries(d)
    ensures d[1] != 0 && Zero(Inv(d[1]) - 1)
    ensures d[3] != 0 && d[6] != 0 && Zero(Inv(d[3]) - 2) && Zero(Inv(d[6]) + 2)
    ensures d[9] != 0 && d[12] != 0 && Zero(Inv(d[9]) - 256) && Zero(Inv(d[12]) + 256)
    ensures d[10] != 0 && d[13] != 0 && Zero(Inv(d[10]) - 8) && Zero(Inv(d[13]) + 8)
    ensures d[11] != 0 && d[15] != 0 && Zero(Inv(d[11]) - 16777216) && Zero(Inv(d[15]) + 16777216)
    ensures d[14] != 0 && Zero(Inv(d[14]) + 16)
  {
    hide Inv;
    InverseIs(d[1], 1);
    InverseIs(d[3], 2); InverseIs(d[6], 2);
    InverseIs(d[9], 256); InverseIs(d[12], 256);
    InverseIs(d[10], 8); InverseIs(d[13], 8);
    InverseIs(d[11], 16777216); InverseIs(d[15], 16777216);
    InverseIs(d[14], 16);
  }

  lemma SumOfInverses(x: seq<int>)
    requires |x| == 16 && Zero(x[0] + x[2]) && Zero(x[4] + x[7]) && Zero(x[5] + x[8])
    requires Zero(x[1] - 1) && Zero(x[3] - 2) && Zero(x[6] + 2) && Zero(x[9] - 256) && Zero(x[12] + 256)
    requires Zero(x[10] - 8) && Zero(x[13] + 8) && Zero(x[11] - 16777216) && Zero(x[15] + 16777216) && Zero(x[14] + 16)
    ensures Zero(P2.Sum(x, 16) + 15)
  {
    hide Zero, P2.Sum;
    var a, b, c := x[0] + x[2], x[4] + x[7], x[5] + x[8];
    PI.ZeroSum(a, b);
    PI.ZeroSum(a + b, c);
    PI.ZeroSum(x[3] - 2, x[6] + 2);
    PI.ZeroSum(x[9] - 256, x[12] + 256);
    PI.ZeroSum(x[10] - 8, x[13] + 8);
    PI.ZeroSum(x[11] - 16777216, x[15] + 16777216);
    PI.ZeroSum(x[1] - 1, x[14] + 16);
    var d, e, f, g, h := x[3] + x[6], x[9] + x[12], x[10] + x[13], x[11] + x[15], x[1] + x[14] + 15;
    assert x[3] - 2 + (x[6] + 2) == d && x[9] - 256 + (x[12] + 256) == e && x[10] - 8 + (x[13] + 8) == f;
    assert x[11] - 16777216 + (x[15] + 16777216) == g && x[1] - 1 + (x[14] + 16) == h;
    PI.ZeroSum(d, e);
    PI.ZeroSum(f, g);
    PI.ZeroSum(d + e, f + g);
    PI.ZeroSum(a + b + c, d + e + (f + g));
    PI.ZeroSum(a + b + c + (d + e + (f + g)), h);
    SumSixteen(x);
    assert a + b + c + (d + e + (f + g)) + h == P2.Sum(x, 16) + 15;
  }

  lemma MinusFourteen(s: int)
    requires Zero(s + 15)
    ensures !Zero(1 + s)
  {
  }

  /** 1 + the sum of the inverses is -14. */
  lemma DiagonalInvertible(d: P2.State)
    requires DiagonalEntries(d)
    ensures PI.InvertibleDiag(d)
  {
    hide Inv, P2.Sum, DiagonalEntries, Zero;
    PairsCancel(d);
    PowersInvert(d);
    var x := P2.Ints(PI.Inverses(d));
    SumOfInverses(x);
    MinusFourteen(P2.Sum(x, 16));
  }

  /** The permutation of the recursion machine is injective for any round keys. */
  lemma DistinctOutputs(keys: Keys, x: P2.State, y: P2.State)
    requires Permutation(P2Diag(), keys, x) == Permutation(P2Diag(), keys, y)
    ensures x == y
  {
    hide Permutation, P2Diag, DiagonalEntries, PI.InvertibleDiag;
    DiagonalIs();
    DiagonalInvertible(P2Diag());
    PI.PermutationInjective(P2Diag(), keys, x, y);
  }
}
