/** Barycentric evaluation over a domain of roots of unity. */
module Barycentric {
  import opened KoalaBear
  import opened ExtField
  import opened Columns

  // ---- roots of unity ----

  const MaxOrder: nat := 24

  /** The generator of the domain of 2^k points. */
  function Root(k: nat): (g: Elt)
    requires k <= MaxOrder
  {
    PowMod(Base, Pow2(MaxOrder - k), P)
  }

  lemma FullOrder()
    ensures PowMod(Base, Pow2(24), P) == 1
  {
    hide PowMod, Pow2;
    WitnessPower();
    SquareStep(23, P - 1, 1);
  }

  lemma {:induction false} Pow2Sum(a: nat, b: nat)
    ensures Pow2(a) * Pow2(b) == Pow2(a + b)
  {
    if a > 0 {
      Pow2Sum(a - 1, b);
      Twice(Pow2(a - 1), Pow2(b));
    }
  }

  lemma Twice(x: int, y: int)
    ensures (2 * x) * y == 2 * (x * y)
  {
  }

  lemma RootPower(k: nat)
    requires k <= MaxOrder
    ensures PowMod(Root(k), Pow2(k), P) == 1
  {
    hide PowMod, Pow2;
    PowMul(Base, Pow2(MaxOrder - k), Pow2(k), P);
    Pow2Sum(MaxOrder - k, k);
    FullOrder();
  }

  /** Half-way round, the generator reaches -1: its order is exactly 2^k. */
  lemma RootHalf(k: nat)
    requires 0 < k <= MaxOrder
    ensures PowMod(Root(k), Pow2(k - 1), P) == P - 1
  {
    hide PowMod, Pow2;
    PowMul(Base, Pow2(MaxOrder - k), Pow2(k - 1), P);
    Pow2Sum(MaxOrder - k, k - 1);
    WitnessPower();
  }

  method RootOfUnityBy(k: nat) returns (g: Elt)
    requires k <= MaxOrder
    ensures g == Root(k)
  {
    hide PowMod, Pow2;
    WitnessStart();
    g := Base;
    for i := k to MaxOrder
      invariant g == PowMod(Base, Pow2(i - k), P)
    {
      SquareStep(i - k, g, g * g % P);
      g := MulElt(g, g);
    }
  }

  // ---- powers of a root ----

  lemma PowStep(g: Elt, i: nat)
    ensures PowMod(g, i + 1, P) == MulElt(PowMod(g, i, P), g)
  {
  }

  /** Exponents of an n-th root matter modulo n. */
  lemma PowCycle(g: Elt, n: nat, i: nat, q: nat)
    requires n > 0 && PowMod(g, n, P) == 1
    ensures PowMod(g, i + n * q, P) == PowMod(g, i, P)
  {
    hide PowMod, MulMod;
    PowMul(g, n, q, P);
    PowOfOne(q, P);
    PowAdd(g, i, n * q, P);
    MulModOne(PowMod(g, i, P), P);
  }

  lemma PowReduced(g: Elt, n: nat, i: nat)
    requires n > 0 && PowMod(g, n, P) == 1
    ensures PowMod(g, i % n, P) == PowMod(g, i, P)
  {
    hide PowMod;
    assert i == i % n + n * (i / n);
    PowCycle(g, n, i % n, i / n);
  }

  /** The source's exponentiation: a negative exponent inverts the base first. */
  function ExpInt(g: Elt, k: int): Elt { if k >= 0 then PowMod(g, k, P) else PowMod(Inv(g), -k, P) }

  lemma {:induction false} PowProduct(a: Elt, b: Elt, i: nat)
    ensures MulMod(PowMod(a, i, P), PowMod(b, i, P), P) == PowMod(MulMod(a, b, P), i, P)
  {
    hide MulMod;
    if i > 0 {
      PowProduct(a, b, i - 1);
      var x, y := PowMod(a, i - 1, P), PowMod(b, i - 1, P);
      Shuffle(a, x, b, y);
    } else {
      MulModOne(1, P);
    }
  }

  lemma Swap(a: int, b: int)
    ensures MulMod(a, b, P) == MulMod(b, a, P)
  {
  }

  lemma Shuffle(a: int, x: int, b: int, y: int)
    ensures MulMod(MulMod(a, x, P), MulMod(b, y, P), P) == MulMod(MulMod(a, b, P), MulMod(x, y, P), P)
  {
    hide MulMod;
    MulModAssoc(a, x, MulMod(b, y, P), P);
    MulModAssoc(x, b, y, P);
    Swap(x, b);
    MulModAssoc(b, x, y, P);
    MulModAssoc(a, b, MulMod(x, y, P), P);
  }

  /** An inverse modulo P is unique. */
  lemma InverseUnique(a: Elt, x: Elt, y: Elt)
    requires MulMod(a, x, P) == 1 && MulMod(a, y, P) == 1
    ensures x == y
  {
    hide MulMod;
    MulModAssoc(x, a, y, P);
    Swap(x, a);
    MulModOne(x, P); MulModOne(y, P);
  }

  lemma ZeroPower(n: nat)
    requires n > 0
    ensures PowMod(0, n, P) == 0
  {
  }

  lemma RootNonzero(g: Elt, n: nat)
    requires n > 0 && PowMod(g, n, P) == 1
    ensures g != 0
  {
    hide PowMod;
    ZeroPower(n);
  }

  lemma Complement(k: int, n: nat) returns (q: nat)
    requires n > 0 && k < 0
    ensures -k + k % n == n * q
  {
    assert k == n * (k / n) + k % n;
    assert n * (-(k / n)) == -(n * (k / n));
    q := -(k / n);
  }

  lemma NegativePower(g: Elt, n: nat, m: nat, r: nat, q: nat)
    requires n > 0 && PowMod(g, n, P) == 1 && m + r == n * q
    ensures PowMod(Inv(g), m, P) == PowMod(g, r, P)
  {
    hide PowMod, MulMod, Inv;
    RootNonzero(g, n);
    InvIsInverse(g);
    PowProduct(g, Inv(g), m);
    PowOfOne(m, P);
    PowAdd(g, m, r, P);
    PowCycle(g, n, 0, q);
    PowZero(g);
    InverseUnique(PowMod(g, m, P), PowMod(Inv(g), m, P), PowMod(g, r, P));
  }

  /** On an n-th root, any exponent acts as its remainder modulo n. */
  lemma ExpIntReduced(g: Elt, n: nat, k: int)
    requires n > 0 && PowMod(g, n, P) == 1
    ensures ExpInt(g, k) == PowMod(g, k % n, P)
  {
    hide PowMod, Inv;
    if k >= 0 {
      PowReduced(g, n, k);
    } else {
      var q := Complement(k, n);
      NegativePower(g, n, -k, k % n, q);
    }
  }

  lemma PowZero(g: Elt)
    ensures PowMod(g, 0, P) == 1
  {
  }

  lemma InvIsInverse(g: Elt)
    requires g != 0
    ensures MulMod(g, Inv(g), P) == 1
  {
    hide Inv;
  }

  // ---- the extension as a field ----

  /** `inv` inverts every nonzero element and maps zero to zero. */
  ghost predicate FieldInverse(inv: Ext -> Ext) { Inverts(inv) && inv(Zero6) == Zero6 }

  lemma NegUnique(x: Ext, y: Ext)
    requires Add(x, y) == Zero6
    ensures y == Neg(x)
  {
    hide Add, Neg;
    AddZero(x); AddZero(y); AddZero(Neg(x));
    AddComm(Neg(x), x);
    AddAssoc(Neg(x), x, y);
  }

  lemma MulNeg(x: Ext, y: Ext)
    ensures Mul(Neg(x), y) == Neg(Mul(x, y))
  {
    hide Add, Mul, Neg;
    Distrib(x, Neg(x), y);
    AddZero(x);
    MulUnits(y);
    NegUnique(Mul(x, y), Mul(Neg(x), y));
  }

  lemma MulSub(x: Ext, y: Ext, z: Ext)
    ensures Mul(Sub(x, y), z) == Sub(Mul(x, z), Mul(y, z))
  {
    hide Add, Mul, Neg;
    Distrib(x, Neg(y), z);
    MulNeg(y, z);
  }

  lemma MulShuffle(a: Ext, b: Ext, c: Ext, d: Ext)
    ensures Mul(Mul(a, b), Mul(c, d)) == Mul(Mul(a, c), Mul(b, d))
  {
    hide Mul;
    MulAssoc(a, b, Mul(c, d));
    MulAssoc(b, c, d);
    MulComm(b, c);
    MulAssoc(c, b, d);
    MulAssoc(a, c, Mul(b, d));
  }

  lemma NoZeroProduct(inv: Ext -> Ext, x: Ext, c: Ext)
    requires FieldInverse(inv) && x != Zero6 && c != Zero6
    ensures Mul(x, c) != Zero6
  {
    hide Mul;
    MulAssoc(x, c, inv(c));
    MulUnits(x);
    MulUnits(inv(c));
  }

  lemma InvProduct(inv: Ext -> Ext, x: Ext, c: Ext)
    requires FieldInverse(inv) && c != Zero6
    ensures inv(Mul(x, c)) == Mul(inv(x), inv(c))
  {
    hide Mul;
    if x == Zero6 {
      MulUnits(c); MulUnits(inv(c));
    } else {
      NoZeroProduct(inv, x, c);
      var d, q := Mul(x, c), Mul(inv(x), inv(c));
      MulShuffle(x, c, inv(x), inv(c));
      MulUnits(One6);
      QuotientUnique(d, inv(d), q, One6);
      MulUnits(inv(d));
    }
  }

  lemma {:induction false} PowOfProduct(x: Ext, y: Ext, n: nat)
    ensures Pow(Mul(x, y), n) == Mul(Pow(x, n), Pow(y, n))
  {
    hide Mul;
    if n == 0 {
      MulUnits(One6);
    } else {
      PowOfProduct(x, y, n - 1);
      MulShuffle(Pow(x, n - 1), Pow(y, n - 1), x, y);
    }
  }

  lemma {:induction false} PowOfLift(a: Elt, n: nat)
    ensures Pow(Lift(a), n) == Lift(PowMod(a, n, P))
  {
    hide Mul, Lift;
    if n == 0 {
      LiftOne();
    } else {
      PowOfLift(a, n - 1);
      LiftMul(PowMod(a, n - 1, P), a);
      PowStep(a, n - 1);
    }
  }

  lemma LiftOne()
    ensures Lift(1) == One6 && Lift(0) == Zero6
  {
  }

  // ---- sums ----

  function Sum(s: seq<Ext>): Ext { if s == [] then Zero6 else Add(Sum(s[..|s| - 1]), s[|s| - 1]) }

  lemma {:induction false} SumConcat(a: seq<Ext>, b: seq<Ext>)
    ensures Sum(a + b) == Add(Sum(a), Sum(b))
    decreases |b|
  {
    hide Add;
    if b == [] {
      assert a + b == a;
      AddZero(Sum(a));
    } else {
      var f, x := b[..|b| - 1], b[|b| - 1];
      assert (a + b)[..|a + b| - 1] == a + f;
      SumConcat(a, f);
      AddAssoc(Sum(a), Sum(f), x);
    }
  }

  lemma SumRotated(s: seq<Ext>, k: int)
    ensures Sum(Rotated(s, k)) == Sum(s)
  {
    hide Add, Sum;
    if |s| > 0 {
      WrapIsMod(k, |s|);
      var r := Wrap(k, |s|);
      SumConcat(s[r..], s[..r]);
      SumConcat(s[..r], s[r..]);
      AddComm(Sum(s[r..]), Sum(s[..r]));
      assert s[..r] + s[r..] == s;
    }
  }

  // ---- the barycentric formula ----

  /** The i-th point of the domain generated by g. */
  function Point(g: Elt, i: nat): Ext { Lift(PowMod(g, i, P)) }

  function Weight(inv: Ext -> Ext, g: Elt, z: Ext, i: nat): Ext {
    Mul(inv(Sub(z, Point(g, i))), Point(g, i))
  }

  function Terms(inv: Ext -> Ext, g: Elt, z: Ext, c: seq<Ext>): (t: seq<Ext>)
    ensures |t| == |c|
  {
    seq(|c|, j requires 0 <= j < |c| => Mul(Weight(inv, g, z, j), c[j]))
  }

  /** (z^n - 1) / n. */
  function Scale(z: Ext, n: nat): Ext { Mul(Sub(Pow(z, n), One6), Lift(Inv(n % P))) }

  /** The value at z of the column c, one row at a time; the empty column is zero. */
  function Bary(inv: Ext -> Ext, g: Elt, z: Ext, c: seq<Ext>): Ext {
    if c == [] then Zero6 else Mul(Sum(Terms(inv, g, z, c)), Scale(z, |c|))
  }

  lemma PointSum(g: Elt, n: nat, j: nat, k: nat)
    requires n > 0 && PowMod(g, n, P) == 1
    ensures Point(g, (j + k) % n) == Mul(Point(g, j), Point(g, k))
  {
    hide Mul, Lift, PowMod;
    PowReduced(g, n, j + k);
    PowAdd(g, j, k, P);
    LiftMul(PowMod(g, j, P), PowMod(g, k, P));
  }

  lemma PointNonzero(g: Elt, n: nat, k: nat)
    requires n > 0 && PowMod(g, n, P) == 1
    ensures Point(g, k) != Zero6
  {
    hide Mul, PowMod;
    PowMul(g, k, n, P);
    PowMul(g, n, k, P);
    PowOfOne(k, P);
    assert k * n == n * k;
    RootNonzero(PowMod(g, k, P), n);
  }

  lemma WeightShift(inv: Ext -> Ext, g: Elt, n: nat, z: Ext, k: nat, j: nat)
    requires FieldInverse(inv) && n > 0 && PowMod(g, n, P) == 1
    ensures Weight(inv, g, Mul(z, Point(g, k)), (j + k) % n) == Weight(inv, g, z, j)
  {
    hide Mul, Sub, Point;
    var c, p := Point(g, k), Point(g, j);
    PointSum(g, n, j, k);
    PointNonzero(g, n, k);
    MulSub(z, p, c);
    InvProduct(inv, Sub(z, p), c);
    MulShuffle(inv(Sub(z, p)), inv(c), p, c);
    MulComm(inv(c), c);
    MulUnits(Mul(inv(Sub(z, p)), p));
  }

  lemma ScaleShift(g: Elt, n: nat, z: Ext, k: nat)
    requires n > 0 && PowMod(g, n, P) == 1
    ensures Scale(Mul(z, Point(g, k)), n) == Scale(z, n)
  {
    hide Mul, Sub, PowMod, Lift;
    PowOfProduct(z, Point(g, k), n);
    PowOfLift(PowMod(g, k, P), n);
    PowMul(g, k, n, P);
    PowMul(g, n, k, P);
    PowOfOne(k, P);
    assert k * n == n * k;
    LiftOne();
    MulUnits(Pow(z, n));
  }

  lemma TermsShift(inv: Ext -> Ext, g: Elt, z: Ext, c: seq<Ext>, k: nat)
    requires FieldInverse(inv) && c != [] && PowMod(g, |c|, P) == 1
    ensures Terms(inv, g, z, Rotated(c, k)) == Rotated(Terms(inv, g, Mul(z, Point(g, k)), c), k)
  {
    hide Mul, Weight, Point, Rotated, PowMod;
    var n, z' := |c|, Mul(z, Point(g, k));
    forall j | 0 <= j < n
      ensures Terms(inv, g, z, Rotated(c, k))[j] == Rotated(Terms(inv, g, z', c), k)[j] {
      RotatedAt(c, k, j);
      RotatedAt(Terms(inv, g, z', c), k, j);
      WeightShift(inv, g, n, z, k, j);
    }
  }

  /** Shifting a column by k evaluates it at z multiplied by the k-th power of the generator. */
  lemma BaryShift(inv: Ext -> Ext, g: Elt, z: Ext, c: seq<Ext>, k: nat)
    requires FieldInverse(inv) && (c != [] ==> PowMod(g, |c|, P) == 1)
    ensures Bary(inv, g, Mul(z, Point(g, k)), c) == Bary(inv, g, z, Rotated(c, k))
  {
    hide Mul, Terms, Scale, Rotated, Point, PowMod;
    if c != [] {
      TermsShift(inv, g, z, c, k);
      SumRotated(Terms(inv, g, Mul(z, Point(g, k)), c), k);
      ScaleShift(g, |c|, z, k);
    }
  }
}
