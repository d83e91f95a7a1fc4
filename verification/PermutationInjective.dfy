/** The permutation loses nothing: its S-box and both matrix layers are injective. */
module PermutationInjective {
  import opened KoalaBear
  import opened Poseidon2
  import opened Poseidon2Air
  import C = CubeRoots

  // ---- the S-box ----

  lemma CubeInjective(x: Elt, y: Elt)
    requires Cube(x) == Cube(y)
    ensures x == y
  {
    hide MulMod;
    CubeCommutes(x);
    CubeCommutes(y);
    C.CubedInjective(x, y);
  }

  lemma AddInjective(x: Elt, y: Elt, k: Elt)
    requires AddElt(x, k) == AddElt(y, k)
    ensures x == y
  {
  }

  lemma SBoxInjective(x: Elt, y: Elt, k: Elt)
    requires Cube(AddElt(x, k)) == Cube(AddElt(y, k))
    ensures x == y
  {
    hide Cube, AddElt;
    CubeInjective(AddElt(x, k), AddElt(y, k));
    AddInjective(x, y, k);
  }

  lemma CubesInjective(s: State, t: State, k: State)
    requires Cubes(s, k) == Cubes(t, k)
    ensures s == t
  {
    hide Cube, AddElt;
    forall j | 0 <= j < Width ensures s[j] == t[j] {
      assert Cubes(s, k)[j] == Cubes(t, k)[j];
      SBoxInjective(s[j], t[j], k[j]);
    }
  }

  // ---- residues ----

  lemma Difference(a: int, b: int)
    ensures R(a) == R(b) <==> Zero(a - b)
  {
  }

  lemma SameElt(a: Elt, b: Elt)
    requires Zero(a - b)
    ensures a == b
  {
  }

  lemma ZeroSum(a: int, b: int)
    requires Zero(a) && Zero(b)
    ensures Zero(a + b) && Zero(a - b)
  {
  }

  lemma ZeroScaled(k: int, a: int)
    requires Zero(a)
    ensures Zero(k * a)
  {
    ReduceFactor(a, k, P);
    assert a * k == k * a;
  }

  lemma Divided(k: int, a: int)
    requires Zero(k * a) && 0 < k < P
    ensures Zero(a)
  {
    ZeroProduct(k, a);
  }

  // ---- the external layer ----

  /** Four blocks with equal sums of a block and all blocks are equal, since 5 is invertible. */
  lemma BlocksCancel(a: int, b: int, c: int, d: int)
    requires var s := a + b + c + d; Zero(a + s) && Zero(b + s) && Zero(c + s) && Zero(d + s)
    ensures Zero(a) && Zero(b) && Zero(c) && Zero(d)
  {
    var s := a + b + c + d;
    ZeroSum(a + s, b + s);
    ZeroSum(c + s, d + s);
    ZeroSum(a + s + (b + s), c + s + (d + s));
    assert a + s + (b + s) + (c + s + (d + s)) == 5 * s;
    Divided(5, s);
    ZeroSum(a + s, s); ZeroSum(b + s, s); ZeroSum(c + s, s); ZeroSum(d + s, s);
  }

  lemma Combination(a: int, b: int, c: int, d: int, p: int, q: int, r: int, s: int)
    requires Zero(a) && Zero(b) && Zero(c) && Zero(d)
    ensures Zero(p * a + q * b + r * c + s * d)
  {
    hide Zero;
    ZeroScaled(p, a); ZeroScaled(q, b); ZeroScaled(r, c); ZeroScaled(s, d);
    ZeroSum(p * a, q * b);
    ZeroSum(p * a + q * b, r * c);
    ZeroSum(p * a + q * b + r * c, s * d);
  }

  /** M4 is invertible modulo P: its determinant is -35. */
  lemma M4Injective(x0: int, x1: int, x2: int, x3: int)
    requires Zero(2 * x0 + 3 * x1 + x2 + x3) && Zero(x0 + 2 * x1 + 3 * x2 + x3)
    requires Zero(x0 + x1 + 2 * x2 + 3 * x3) && Zero(3 * x0 + x1 + x2 + 2 * x3)
    ensures Zero(x0) && Zero(x1) && Zero(x2) && Zero(x3)
  {
    hide Zero;
    var y0, y1 := 2 * x0 + 3 * x1 + x2 + x3, x0 + 2 * x1 + 3 * x2 + x3;
    var y2, y3 := x0 + x1 + 2 * x2 + 3 * x3, 3 * x0 + x1 + x2 + 2 * x3;
    Combination(y0, y1, y2, y3, -4, 3, -11, 17);
    Combination(y0, y1, y2, y3, 17, -4, 3, -11);
    Combination(y0, y1, y2, y3, -11, 17, -4, 3);
    Combination(y0, y1, y2, y3, 3, -11, 17, -4);
    Divided(35, x0); Divided(35, x1); Divided(35, x2); Divided(35, x3);
  }

  /** The difference of a block's lane. */
  function Gap(s: State, t: State, c: nat, k: nat): int
    requires c < 4 && k < 4
  { Block(s, c, k) - Block(t, c, k) }

  lemma ExternalGap(s: State, t: State, c: nat, k: nat)
    requires External(s) == External(t) && c < 4 && k < 4
    ensures Zero(Gap(s, t, c, k) + (Gap(s, t, 0, k) + Gap(s, t, 1, k) + Gap(s, t, 2, k) + Gap(s, t, 3, k)))
  {
    hide Block;
    var i := 4 * c + k;
    assert i / 4 == c && i % 4 == k;
    assert External(s)[i] == External(t)[i];
    Difference(ExternalLane(s, i), ExternalLane(t, i));
  }

  lemma GapsVanish(s: State, t: State, c: nat, k: nat)
    requires External(s) == External(t) && c < 4 && k < 4
    ensures Zero(Gap(s, t, c, k))
  {
    hide Gap, External, Zero;
    ExternalGap(s, t, 0, k); ExternalGap(s, t, 1, k); ExternalGap(s, t, 2, k); ExternalGap(s, t, 3, k);
    BlocksCancel(Gap(s, t, 0, k), Gap(s, t, 1, k), Gap(s, t, 2, k), Gap(s, t, 3, k));
  }

  lemma BlockInjective(s: State, t: State, c: nat)
    requires c < 4 && Zero(Gap(s, t, c, 0)) && Zero(Gap(s, t, c, 1)) && Zero(Gap(s, t, c, 2)) && Zero(Gap(s, t, c, 3))
    ensures s[4 * c] == t[4 * c] && s[4 * c + 1] == t[4 * c + 1] && s[4 * c + 2] == t[4 * c + 2] && s[4 * c + 3] == t[4 * c + 3]
  {
    hide Block, Zero;
    BlockIs(s, c);
    BlockIs(t, c);
    var x0, x1 := Lane(s, 4 * c) - Lane(t, 4 * c), Lane(s, 4 * c + 1) - Lane(t, 4 * c + 1);
    var x2, x3 := Lane(s, 4 * c + 2) - Lane(t, 4 * c + 2), Lane(s, 4 * c + 3) - Lane(t, 4 * c + 3);
    M4Injective(x0, x1, x2, x3);
    SameElt(s[4 * c], t[4 * c]); SameElt(s[4 * c + 1], t[4 * c + 1]);
    SameElt(s[4 * c + 2], t[4 * c + 2]); SameElt(s[4 * c + 3], t[4 * c + 3]);
  }

  lemma ExternalInjective(s: State, t: State)
    requires External(s) == External(t)
    ensures s == t
  {
    hide External, Gap, Zero;
    forall i | 0 <= i < Width ensures s[i] == t[i] {
      var c := i / 4;
      GapsVanish(s, t, c, 0); GapsVanish(s, t, c, 1); GapsVanish(s, t, c, 2); GapsVanish(s, t, c, 3);
      BlockInjective(s, t, c);
    }
  }

  // ---- the internal layer ----

  function Inverses(diag: State): (r: State) { seq(Width, i requires 0 <= i < Width => Inv(diag[i])) }

  /** 1 1^T + diag has an inverse: no zero entry, and 1 + sum of 1/d_i is not zero. */
  ghost predicate InvertibleDiag(diag: State) {
    (forall i :: 0 <= i < Width ==> diag[i] != 0) && !Zero(1 + Sum(Ints(Inverses(diag)), Width))
  }

  function Diff(s: State, t: State): (r: seq<int>)
    ensures |r| == Width
  { seq(Width, i requires 0 <= i < Width => Lane(s, i) - Lane(t, i)) }

  lemma {:induction false} SumDiff(s: State, t: State, n: nat)
    requires n <= Width
    ensures Sum(Ints(s), n) - Sum(Ints(t), n) == Sum(Diff(s, t), n)
  {
    if n > 0 { SumDiff(s, t, n - 1); }
  }

  lemma InternalGap(diag: State, s: State, t: State, i: nat)
    requires Internal(diag, s) == Internal(diag, t) && i < Width
    ensures Zero(Sum(Diff(s, t), Width) + Diff(s, t)[i] * Lane(diag, i))
  {
    hide Sum;
    assert Internal(diag, s)[i] == Internal(diag, t)[i];
    Difference(InternalLane(diag, s, i), InternalLane(diag, t, i));
    SumDiff(s, t, Width);
    DistributeGap(Lane(s, i), Lane(t, i), Lane(diag, i));
  }

  lemma DistributeGap(a: int, b: int, d: int)
    ensures (a - b) * d == a * d - b * d
  {
  }

  /** Multiplying by 1/d: the total over d plus the gap vanishes. */
  lemma DividedGap(total: int, x: int, d: Elt)
    requires d != 0 && Zero(total + x * d)
    ensures Zero(total * Inv(d) + x)
  {
    hide Inv, Zero;
    var w: int := Inv(d);
    ZeroScaled(w, total + x * d);
    InverseZero(d);
    ZeroScaled(x, d * w - 1);
    RegroupGap(total, x, d, w);
    ZeroSum(w * (total + x * d), x * (d * w - 1));
  }

  lemma InverseZero(d: Elt)
    requires d != 0
    ensures Zero(d * Inv(d) - 1)
  {
    hide Inv;
  }

  lemma RegroupGap(total: int, x: int, d: int, w: int)
    ensures w * (total + x * d) - x * (d * w - 1) == total * w + x
  {
    assert w * (total + x * d) == w * total + w * (x * d);
    assert x * (d * w - 1) == x * (d * w) - x;
    assert w * (x * d) == x * (d * w);
  }

  lemma {:induction false} SumOfGaps(total: int, ws: seq<int>, xs: seq<int>, n: nat)
    requires n <= |ws| == |xs| && forall i :: 0 <= i < n ==> Zero(total * ws[i] + xs[i])
    ensures Zero(total * Sum(ws, n) + Sum(xs, n))
  {
    hide Zero;
    if n == 0 {
      ZeroTimesNothing(total);
    } else {
      SumOfGaps(total, ws, xs, n - 1);
      ZeroSum(total * Sum(ws, n - 1) + Sum(xs, n - 1), total * ws[n - 1] + xs[n - 1]);
      assert total * Sum(ws, n) == total * Sum(ws, n - 1) + total * ws[n - 1];
    }
  }

  lemma ZeroTimesNothing(total: int)
    ensures Zero(total * 0 + 0)
  {
  }

  lemma InternalInjective(diag: State, s: State, t: State)
    requires InvertibleDiag(diag) && Internal(diag, s) == Internal(diag, t)
    ensures s == t
  {
    hide Sum, Inv, Zero, Internal;
    var xs, ws := Diff(s, t), Ints(Inverses(diag));
    var total := Sum(xs, Width);
    forall i | 0 <= i < Width ensures Zero(total * ws[i] + xs[i]) {
      InternalGap(diag, s, t, i);
      DividedGap(total, xs[i], diag[i]);
    }
    SumOfGaps(total, ws, xs, Width);
    assert total * Sum(ws, Width) + total == total * (1 + Sum(ws, Width));
    ZeroProduct(total, 1 + Sum(ws, Width));
    forall i | 0 <= i < Width ensures s[i] == t[i] {
      ZeroScaled(ws[i], total);
      assert ws[i] * total == total * ws[i];
      ZeroSum(total * ws[i] + xs[i], total * ws[i]);
      SameElt(s[i], t[i]);
    }
  }

  // ---- the permutation ----

  lemma Set0Injective(s: State, t: State, x: Elt, y: Elt)
    requires Set0(s, x) == Set0(t, y)
    ensures x == y && forall i :: 1 <= i < Width ==> s[i] == t[i]
  {
    assert Set0(s, x)[0] == Set0(t, y)[0];
    forall i | 1 <= i < Width ensures s[i] == t[i] { assert Set0(s, x)[i] == Set0(t, y)[i]; }
  }

  lemma RoundInjective(diag: State, key: State, s: State, t: State, full: bool)
    requires InvertibleDiag(diag)
    requires full ==> External(Cubes(s, key)) == External(Cubes(t, key))
    requires !full ==> Internal(diag, Set0(s, Cube(AddElt(s[0], key[0])))) == Internal(diag, Set0(t, Cube(AddElt(t[0], key[0]))))
    ensures s == t
  {
    hide External, Internal, Cubes, Cube, AddElt, InvertibleDiag, Set0;
    if full {
      ExternalInjective(Cubes(s, key), Cubes(t, key));
      CubesInjective(s, t, key);
    } else {
      var x, y := Cube(AddElt(s[0], key[0])), Cube(AddElt(t[0], key[0]));
      InternalInjective(diag, Set0(s, x), Set0(t, y));
      Set0Injective(s, t, x, y);
      SBoxInjective(s[0], t[0], key[0]);
    }
  }

  lemma {:induction false} StateInjective(diag: State, keys: Keys, x: State, y: State, r: nat)
    requires InvertibleDiag(diag) && r <= Rounds && StateAt(diag, keys, x, r) == StateAt(diag, keys, y, r)
    ensures x == y
  {
    hide External, Internal, Cubes, Cube, AddElt, InvertibleDiag, Set0, StateAt;
    if r == 0 {
      StateStart(diag, keys, x);
      StateStart(diag, keys, y);
      ExternalInjective(x, y);
    } else {
      StateNext(diag, keys, x, r - 1);
      StateNext(diag, keys, y, r - 1);
      RoundInjective(diag, keys[r - 1], StateAt(diag, keys, x, r - 1), StateAt(diag, keys, y, r - 1), IsFull(r - 1));
      StateInjective(diag, keys, x, y, r - 1);
    }
  }

  lemma StateStart(diag: State, keys: Keys, x: State)
    ensures StateAt(diag, keys, x, 0) == External(x)
  {
  }

  /** For any round keys and any invertible internal layer, distinct inputs have distinct images. */
  lemma PermutationInjective(diag: State, keys: Keys, x: State, y: State)
    requires InvertibleDiag(diag) && Permutation(diag, keys, x) == Permutation(diag, keys, y)
    ensures x == y
  {
    hide StateAt, InvertibleDiag;
    StateInjective(diag, keys, x, y, Rounds);
  }
}
