/** The Poseidon2 permutation of width 16: its in-place matrix layers and their dense form. */
module Poseidon2 {
  import opened KoalaBear

  const Width: nat := 16
  const FullRounds: nat := 6
  const PartialRounds: nat := 21
  const Rounds: nat := 27

  predicate IsFull(r: nat) { r < FullRounds / 2 || r >= FullRounds / 2 + PartialRounds }

  /** The full rounds among the first n. */
  function FullAmong(n: nat): nat { if n == 0 then 0 else FullAmong(n - 1) + if IsFull(n - 1) then 1 else 0 }

  /** Half of the full rounds come first, then the partial ones, then the other half. */
  lemma {:induction false} RoundCounts(n: nat)
    requires n <= Rounds
    ensures FullAmong(n) == if n <= 3 then n else if n <= 24 then 3 else n - 21
    ensures n == Rounds ==> FullAmong(n) == FullRounds && n - FullAmong(n) == PartialRounds
  {
    if n > 0 { RoundCounts(n - 1); }
  }

  type State = s: seq<Elt> | |s| == Width witness [0, 0, 0, 0, 0, 0, 0, 0, 0, 0, 0, 0, 0, 0, 0, 0]

  function R(x: int): Elt { x % P }

  lemma AddR(a: int, b: int)
    ensures AddElt(R(a), R(b)) == R(a + b)
  {
  }

  lemma RElt(a: Elt)
    ensures R(a) == a
  {
  }

  // ---- dense matrices ----

  /** The sum of row[j] * xs[j] for j < n. */
  function Dot(row: seq<int>, xs: seq<int>, n: nat): int
    requires n <= |row| && n <= |xs|
  { if n == 0 then 0 else Dot(row, xs, n - 1) + row[n - 1] * xs[n - 1] }

  function Ints(s: seq<Elt>): (r: seq<int>)
    ensures |r| == |s| && forall i :: 0 <= i < |s| ==> r[i] == s[i]
  { seq(|s|, i requires 0 <= i < |s| => s[i]) }

  function Apply(m: seq<seq<Elt>>, s: State): State
    requires |m| == Width && forall i :: 0 <= i < Width ==> |m[i]| == Width
  { seq(Width, i requires 0 <= i < Width => R(Dot(Ints(m[i]), Ints(s), Width))) }

  // ---- the external layer ----

  /** M4 = [[2 3 1 1] [1 2 3 1] [1 1 2 3] [3 1 1 2]]: entry (k, m) depends on m - k. */
  function M4(k: nat, m: nat): Elt
    requires k < 4 && m < 4
  {
    if m == k then 2 else if m == k + 1 || m + 3 == k then 3 else 1
  }

  /** circ(2 M4, M4, M4, M4). */
  function ExternalEntry(i: nat, j: nat): Elt
    requires i < Width && j < Width
  { (if i / 4 == j / 4 then 2 else 1) * M4(i % 4, j % 4) }

  function ExternalRow(i: nat): (r: seq<Elt>)
    requires i < Width
    ensures |r| == Width
  { seq(Width, j requires 0 <= j < Width => ExternalEntry(i, j)) }

  /** Lane k of M4 applied to block c. */
  function Block(s: State, c: nat, k: nat): int
    requires c < 4 && k < 4
  { Term(s, c, k, 0) + Term(s, c, k, 1) + Term(s, c, k, 2) + Term(s, c, k, 3) }

  function Term(s: State, c: nat, k: nat, m: nat): int
    requires c < 4 && k < 4 && m < 4
  { M4(k, m) * Lane(s, 4 * c + m) }

  function Lane(s: State, i: nat): int
    requires i < Width
  { s[i] }

  function Blocks(s: State, k: nat): int
    requires k < 4
  { Block(s, 0, k) + Block(s, 1, k) + Block(s, 2, k) + Block(s, 3, k) }

  /** What the in-place external layer leaves in lane i. */
  function ExternalLane(s: State, i: nat): int
    requires i < Width
  { Block(s, i / 4, i % 4) + Blocks(s, i % 4) }

  function External(s: State): State { seq(Width, i requires 0 <= i < Width => R(ExternalLane(s, i))) }

  lemma DotBlock(i: nat, s: State, c: nat)
    requires i < Width && c < 4
    ensures Dot(Ints(ExternalRow(i)), Ints(s), 4 * c + 4)
         == Dot(Ints(ExternalRow(i)), Ints(s), 4 * c) + (if i / 4 == c then 2 else 1) * Block(s, c, i % 4)
  {
    hide Term, Dot;
    var row, xs, n, k, f: int := Ints(ExternalRow(i)), Ints(s), 4 * c, i % 4, if i / 4 == c then 2 else 1;
    DotTerm(i, s, c, 0);
    DotTerm(i, s, c, 1);
    DotTerm(i, s, c, 2);
    DotTerm(i, s, c, 3);
    var t0, t1, t2, t3 := Term(s, c, k, 0), Term(s, c, k, 1), Term(s, c, k, 2), Term(s, c, k, 3);
    assert f * (t0 + t1 + t2 + t3) == f * t0 + f * t1 + f * t2 + f * t3;
  }

  lemma DotTerm(i: nat, s: State, c: nat, m: nat)
    requires i < Width && c < 4 && m < 4
    ensures Dot(Ints(ExternalRow(i)), Ints(s), 4 * c + m + 1)
         == Dot(Ints(ExternalRow(i)), Ints(s), 4 * c + m) + (if i / 4 == c then 2 else 1) * Term(s, c, i % 4, m)
  {
    hide M4;
    var row, j, f: int, x := Ints(ExternalRow(i)), 4 * c + m, if i / 4 == c then 2 else 1, Lane(s, 4 * c + m);
    assert j / 4 == c && j % 4 == m;
    assert row[j] == ExternalEntry(i, j);
    Product(f, M4(i % 4, m), x);
  }

  lemma Product(f: int, m: int, x: int)
    ensures (f * m) * x == f * (m * x)
  {
  }

  /** The in-place external layer is the dense matrix product. */
  lemma ExternalIsDense(s: State, i: nat)
    requires i < Width
    ensures ExternalLane(s, i) == Dot(Ints(ExternalRow(i)), Ints(s), Width)
  {
    hide Dot, Block, ExternalRow;
    DotBlock(i, s, 0);
    DotBlock(i, s, 1);
    DotBlock(i, s, 2);
    DotBlock(i, s, 3);
    DotNone(Ints(ExternalRow(i)), Ints(s));
  }

  lemma DotNone(row: seq<int>, xs: seq<int>)
    ensures Dot(row, xs, 0) == 0
  {
  }

  // ---- the internal layer ----

  function Sum(s: seq<int>, n: nat): int
    requires n <= |s|
  { if n == 0 then 0 else Sum(s, n - 1) + s[n - 1] }

  /** What the in-place internal layer 1 1^T + diag leaves in lane i. */
  function InternalLane(diag: State, s: State, i: nat): int
    requires i < Width
  { Sum(Ints(s), Width) + Lane(s, i) * Lane(diag, i) }

  function Internal(diag: State, s: State): State {
    seq(Width, i requires 0 <= i < Width => R(InternalLane(diag, s, i)))
  }

  function InternalRow(diag: State, i: nat): (r: seq<Elt>)
    requires i < Width
    ensures |r| == Width
  { seq(Width, j requires 0 <= j < Width => if i == j then AddElt(1, diag[i]) else 1) }

  lemma {:induction false} InternalDot(diag: State, s: State, i: nat, n: nat)
    requires i < Width && n <= Width
    ensures R(Dot(Ints(InternalRow(diag, i)), Ints(s), n)) == R(Sum(Ints(s), n) + if i < n then Lane(s, i) * Lane(diag, i) else 0)
  {
    if n > 0 {
      InternalDot(diag, s, i, n - 1);
      var j := n - 1;
      var prev := Dot(Ints(InternalRow(diag, i)), Ints(s), j);
      var row := Ints(InternalRow(diag, i));
      if i == j {
        DiagTerm(diag[i], s[i], prev, Sum(Ints(s), j));
      } else {
        assert row[j] == 1;
        Shift(prev, Sum(Ints(s), j) + (if i < j then Lane(s, i) * Lane(diag, i) else 0), s[j]);
      }
    }
  }

  lemma Shift(a: int, b: int, c: int)
    requires R(a) == R(b)
    ensures R(a + c) == R(b + c)
  {
  }

  lemma DiagTerm(d: Elt, x: Elt, a: int, b: int)
    requires R(a) == R(b)
    ensures R(a + AddElt(1, d) * x) == R(b + x + x * d)
  {
    var e: int := AddElt(1, d);
    var q := (1 + d) / P;
    assert 1 + d == P * q + e;
    assert e * x == x + x * d - P * (q * x) by {
      assert (1 + d - P * q) * x == x + d * x - P * q * x;
      assert P * q * x == P * (q * x);
    }
    Shift(a, b, e * x);
    AddMultiple(b + x + x * d, -(q * x), P);
  }

  lemma InternalIsDense(diag: State, s: State, i: nat)
    requires i < Width
    ensures R(InternalLane(diag, s, i)) == R(Dot(Ints(InternalRow(diag, i)), Ints(s), Width))
  {
    InternalDot(diag, s, i, Width);
  }

  // ---- the layers in place ----

  /** M4 on the four lanes of a block, as the code computes it. */
  method MatBlock(x0: Elt, x1: Elt, x2: Elt, x3: Elt) returns (y0: Elt, y1: Elt, y2: Elt, y3: Elt)
    ensures y0 == R(2 * x0 + 3 * x1 + x2 + x3) && y1 == R(x0 + 2 * x1 + 3 * x2 + x3)
    ensures y2 == R(x0 + x1 + 2 * x2 + 3 * x3) && y3 == R(3 * x0 + x1 + x2 + 2 * x3)
  {
    hide R, AddElt;
    RElt(x0); RElt(x1); RElt(x2); RElt(x3);
    AddR(x0, x1); AddR(x2, x3); AddR(x0, x0); AddR(x2, x2);
    var t01 := AddElt(x0, x1);
    var t23 := AddElt(x2, x3);
    AddR(x0 + x1, x2 + x3);
    var t0123 := AddElt(t01, t23);
    AddR(x0 + x1 + x2 + x3, x1);
    AddR(x0 + x1 + x2 + x3, x3);
    var t01123 := AddElt(t0123, x1);
    var t01233 := AddElt(t0123, x3);
    AddR(x0 + x0, x0 + x1 + x2 + x3 + x3);
    AddR(x2 + x2, x0 + x1 + x2 + x3 + x1);
    AddR(x0 + x1, x0 + x1 + x2 + x3 + x1);
    AddR(x2 + x3, x0 + x1 + x2 + x3 + x3);
    y3 := AddElt(AddElt(x0, x0), t01233);
    y1 := AddElt(AddElt(x2, x2), t01123);
    y0 := AddElt(t01, t01123);
    y2 := AddElt(t23, t01233);
  }

  lemma BlockIs(s: State, c: nat)
    requires c < 4
    ensures var x0, x1, x2, x3 := Lane(s, 4 * c), Lane(s, 4 * c + 1), Lane(s, 4 * c + 2), Lane(s, 4 * c + 3);
      && Block(s, c, 0) == 2 * x0 + 3 * x1 + x2 + x3 && Block(s, c, 1) == x0 + 2 * x1 + 3 * x2 + x3
      && Block(s, c, 2) == x0 + x1 + 2 * x2 + 3 * x3 && Block(s, c, 3) == 3 * x0 + x1 + x2 + 2 * x3
  {
  }

  /** Lane 4 c + k after the blocks' products. */
  function AfterBlocks(s: State, i: nat): Elt
    requires i < Width
  { R(Block(s, i / 4, i % 4)) }

  /** The sum over the first n blocks of lane k. */
  function BlockSum(s: State, k: nat, n: nat): int
    requires k < 4 && n <= 4
  { if n == 0 then 0 else BlockSum(s, k, n - 1) + Block(s, n - 1, k) }

  lemma BlockSumAll(s: State, k: nat)
    requires k < 4
    ensures BlockSum(s, k, 4) == Blocks(s, k)
  {
    hide Block;
    assert BlockSum(s, k, 1) == BlockSum(s, k, 0) + Block(s, 0, k);
    assert BlockSum(s, k, 2) == BlockSum(s, k, 1) + Block(s, 1, k);
    assert BlockSum(s, k, 3) == BlockSum(s, k, 2) + Block(s, 2, k);
  }

  /** The blocks' products, in place. */
  method MatBlocks(s: array<Elt>)
    requires s.Length == Width
    modifies s
    ensures forall i :: 0 <= i < Width ==> s[i] == AfterBlocks(old(s[..]), i)
  {
    hide Block, R;
    ghost var was: State := s[..];
    for c := 0 to 4
      invariant forall i :: 0 <= i < 4 * c ==> s[i] == AfterBlocks(was, i)
      invariant forall i :: 4 * c <= i < Width ==> s[i] == was[i]
    {
      BlockIs(was, c);
      var y0, y1, y2, y3 := MatBlock(s[4 * c], s[4 * c + 1], s[4 * c + 2], s[4 * c + 3]);
      s[4 * c], s[4 * c + 1], s[4 * c + 2], s[4 * c + 3] := y0, y1, y2, y3;
    }
  }

  /** The sums of the lanes congruent to k modulo 4. */
  method LaneSum(s: array<Elt>, k: nat, ghost was: State) returns (sum: Elt)
    requires s.Length == Width && k < 4 && forall i :: 0 <= i < Width ==> s[i] == AfterBlocks(was, i)
    ensures sum == R(Blocks(was, k))
  {
    hide Block;
    sum := 0;
    for c := 0 to 4
      invariant sum == R(BlockSum(was, k, c))
    {
      assert (4 * c + k) / 4 == c && (4 * c + k) % 4 == k;
      AddR(BlockSum(was, k, c), Block(was, c, k));
      sum := AddElt(sum, s[4 * c + k]);
    }
    BlockSumAll(was, k);
  }

  /** circ(2 M4, M4, M4, M4), in place. */
  method MatExternal(s: array<Elt>)
    requires s.Length == Width
    modifies s
    ensures s[..] == External(old(s[..]))
  {
    hide Block, Blocks, R, AfterBlocks;
    ghost var was: State := s[..];
    MatBlocks(s);
    var sums := new Elt[4](i => 0);
    for k := 0 to 4
      invariant forall j :: 0 <= j < k ==> sums[j] == R(Blocks(was, j))
      invariant forall i :: 0 <= i < Width ==> s[i] == AfterBlocks(was, i)
    {
      var x := LaneSum(s, k, was);
      sums[k] := x;
    }
    for i := 0 to Width
      invariant forall j :: 0 <= j < i ==> s[j] == External(was)[j]
      invariant forall j :: i <= j < Width ==> s[j] == AfterBlocks(was, j)
      invariant forall j :: 0 <= j < 4 ==> sums[j] == R(Blocks(was, j))
    {
      LaneAdds(was, i);
      s[i] := AddElt(s[i], sums[i % 4]);
    }
  }

  lemma LaneAdds(s: State, i: nat)
    requires i < Width
    ensures AddElt(AfterBlocks(s, i), R(Blocks(s, i % 4))) == External(s)[i]
  {
    hide Block, Blocks;
    AddR(Block(s, i / 4, i % 4), Blocks(s, i % 4));
  }

  /** 1 1^T + diag, in place. */
  method MatInternal(diag: State, s: array<Elt>)
    requires s.Length == Width
    modifies s
    ensures s[..] == Internal(diag, old(s[..]))
  {
    hide R;
    ghost var was: State := s[..];
    var sum: Elt := 0;
    SumNone(was);
    for i := 0 to Width
      invariant s[..] == was && sum == R(Sum(Ints(was), i))
    {
      SumNext(was, i);
      sum := AddElt(sum, s[i]);
    }
    for i := 0 to Width
      invariant forall j :: 0 <= j < i ==> s[j] == Internal(diag, was)[j]
      invariant forall j :: i <= j < Width ==> s[j] == was[j]
    {
      InternalAdds(diag, was, i);
      var t := MulElt(s[i], diag[i]);
      s[i] := AddElt(sum, t);
    }
  }

  lemma SumNone(s: State)
    ensures R(Sum(Ints(s), 0)) == 0
  {
  }

  lemma SumNext(s: State, i: nat)
    requires i < Width
    ensures AddElt(R(Sum(Ints(s), i)), s[i]) == R(Sum(Ints(s), i + 1))
  {
    AddR(Sum(Ints(s), i), Lane(s, i));
  }

  lemma InternalAdds(diag: State, s: State, i: nat)
    requires i < Width
    ensures AddElt(R(Sum(Ints(s), Width)), MulElt(s[i], diag[i])) == Internal(diag, s)[i]
  {
    AddR(Sum(Ints(s), Width), Lane(s, i) * Lane(diag, i));
  }
}
