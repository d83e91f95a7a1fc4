/** The barycentric formula evaluates the interpolated polynomial.

    Columns over the domain of 2^k points are combined with the weights of a
    point z; the power sums of the roots of unity do the rest.  */
module Interpolation {
  import opened KoalaBear
  import opened ExtField
  import opened Barycentric

  // ---- columns ----

  function Plus(a: seq<Ext>, b: seq<Ext>): (s: seq<Ext>)
    requires |a| == |b|
    ensures |s| == |a|
  {
    seq(|a|, j requires 0 <= j < |a| => Add(a[j], b[j]))
  }

  function Times(k: Ext, a: seq<Ext>): (s: seq<Ext>)
    ensures |s| == |a|
  {
    seq(|a|, j requires 0 <= j < |a| => Mul(k, a[j]))
  }

  /** Row j multiplied by the j-th point. */
  function AtPoints(g: Elt, c: seq<Ext>): (s: seq<Ext>)
    ensures |s| == |c|
  {
    seq(|c|, j requires 0 <= j < |c| => Mul(Point(g, j), c[j]))
  }

  lemma AddSwap(a: Ext, b: Ext, c: Ext, d: Ext)
    ensures Add(Add(a, b), Add(c, d)) == Add(Add(a, c), Add(b, d))
  {
    hide Add;
    AddAssoc(a, b, Add(c, d));
    AddAssoc(b, c, d);
    AddComm(b, c);
    AddAssoc(c, b, d);
    AddAssoc(a, c, Add(b, d));
  }

  lemma {:induction false} SumPlus(a: seq<Ext>, b: seq<Ext>)
    requires |a| == |b|
    ensures Sum(Plus(a, b)) == Add(Sum(a), Sum(b))
  {
    hide Add;
    if a == [] {
      AddZero(Zero6);
    } else {
      var m := |a| - 1;
      SumPlus(a[..m], b[..m]);
      assert Plus(a, b)[..m] == Plus(a[..m], b[..m]);
      AddSwap(Sum(a[..m]), Sum(b[..m]), a[m], b[m]);
    }
  }

  lemma {:induction false} SumTimes(k: Ext, a: seq<Ext>)
    ensures Sum(Times(k, a)) == Mul(k, Sum(a))
  {
    hide Add, Mul;
    if a == [] {
      MulUnits(k);
    } else {
      var m := |a| - 1;
      SumTimes(k, a[..m]);
      assert Times(k, a)[..m] == Times(k, a[..m]);
      Distrib(Sum(a[..m]), a[m], k);
    }
  }

  // ---- weighted sums ----

  function Weighted(inv: Ext -> Ext, g: Elt, z: Ext, c: seq<Ext>): Ext { Sum(Terms(inv, g, z, c)) }

  lemma WeightedPlus(inv: Ext -> Ext, g: Elt, z: Ext, a: seq<Ext>, b: seq<Ext>)
    requires |a| == |b|
    ensures Weighted(inv, g, z, Plus(a, b)) == Add(Weighted(inv, g, z, a), Weighted(inv, g, z, b))
  {
    hide Add, Mul, Sum, Weight;
    forall j | 0 <= j < |a|
      ensures Terms(inv, g, z, Plus(a, b))[j] == Plus(Terms(inv, g, z, a), Terms(inv, g, z, b))[j] {
      Distrib(a[j], b[j], Weight(inv, g, z, j));
    }
    assert Terms(inv, g, z, Plus(a, b)) == Plus(Terms(inv, g, z, a), Terms(inv, g, z, b));
    SumPlus(Terms(inv, g, z, a), Terms(inv, g, z, b));
  }

  lemma MulPull(w: Ext, k: Ext, c: Ext)
    ensures Mul(w, Mul(k, c)) == Mul(k, Mul(w, c))
  {
    hide Mul;
    MulAssoc(w, k, c);
    MulComm(w, k);
    MulAssoc(k, w, c);
  }

  lemma WeightedTimes(inv: Ext -> Ext, g: Elt, z: Ext, k: Ext, a: seq<Ext>)
    ensures Weighted(inv, g, z, Times(k, a)) == Mul(k, Weighted(inv, g, z, a))
  {
    hide Add, Mul, Sum, Weight;
    forall j | 0 <= j < |a| ensures Terms(inv, g, z, Times(k, a))[j] == Times(k, Terms(inv, g, z, a))[j] {
      MulPull(Weight(inv, g, z, j), k, a[j]);
    }
    assert Terms(inv, g, z, Times(k, a)) == Times(k, Terms(inv, g, z, a));
    SumTimes(k, Terms(inv, g, z, a));
  }

  /** z is none of the n points. */
  ghost predicate OffDomain(g: Elt, n: nat, z: Ext) { forall j: nat :: j < n ==> z != Point(g, j) }

  lemma SubZero(x: Ext, y: Ext)
    ensures Sub(x, y) == Zero6 <==> x == y
  {
    hide Add, Neg;
    AddZero(x); AddZero(y);
    if Sub(x, y) == Zero6 {
      AddComm(x, Neg(y));
      NegUnique(Neg(y), x);
      AddComm(y, Neg(y));
      NegUnique(Neg(y), y);
    }
  }

  lemma SubAdd(x: Ext, y: Ext)
    ensures Add(Sub(x, y), y) == x
  {
    hide Add, Neg;
    AddAssoc(x, Neg(y), y);
    AddComm(Neg(y), y);
    AddZero(y); AddZero(x);
  }

  lemma SubUnique(x: Ext, y: Ext, d: Ext)
    requires Add(d, y) == x
    ensures d == Sub(x, y)
  {
    hide Add, Neg;
    AddAssoc(d, y, Neg(y));
    AddZero(y); AddZero(d);
  }

  /** w (z - p) = p. */
  lemma WeightTimesGap(inv: Ext -> Ext, g: Elt, z: Ext, j: nat)
    requires FieldInverse(inv) && z != Point(g, j)
    ensures Mul(Weight(inv, g, z, j), Sub(z, Point(g, j))) == Point(g, j)
  {
    hide Mul, Sub, Point;
    var d, p := Sub(z, Point(g, j)), Point(g, j);
    SubZero(z, p);
    MulAssoc(inv(d), p, d);
    MulComm(p, d);
    MulAssoc(inv(d), d, p);
    MulComm(inv(d), d);
    MulUnits(p);
  }

  /** w p c = z w c - p c. */
  lemma TermAtPoint(inv: Ext -> Ext, g: Elt, z: Ext, j: nat, c: Ext)
    requires FieldInverse(inv) && z != Point(g, j)
    ensures Add(Mul(Weight(inv, g, z, j), Mul(Point(g, j), c)), Mul(Point(g, j), c))
      == Mul(z, Mul(Weight(inv, g, z, j), c))
  {
    hide Mul, Sub, Point, Weight, Add;
    var w, p, d := Weight(inv, g, z, j), Point(g, j), Sub(z, Point(g, j));
    WeightTimesGap(inv, g, z, j);
    SubAdd(z, p);
    Distrib(d, p, w);
    AddComm(p, Mul(w, p));
    MulAssoc(w, p, c);
    Distrib(Mul(w, p), p, c);
    MulAssoc(w, z, c);
    MulPull(w, z, c);
  }

  lemma WeightedAtPoints(inv: Ext -> Ext, g: Elt, z: Ext, c: seq<Ext>)
    requires FieldInverse(inv) && OffDomain(g, |c|, z)
    ensures Add(Weighted(inv, g, z, AtPoints(g, c)), Sum(AtPoints(g, c))) == Mul(z, Weighted(inv, g, z, c))
  {
    hide Add, Mul, Sum, Weight, Point;
    var t, u := Terms(inv, g, z, AtPoints(g, c)), AtPoints(g, c);
    forall j | 0 <= j < |c| ensures Plus(t, u)[j] == Times(z, Terms(inv, g, z, c))[j] {
      TermAtPoint(inv, g, z, j, c[j]);
    }
    assert Plus(t, u) == Times(z, Terms(inv, g, z, c));
    SumPlus(t, u);
    SumTimes(z, Terms(inv, g, z, c));
  }

  // ---- power sums ----

  function Points(q: Elt, n: nat): seq<Ext> { seq(n, j requires 0 <= j < n => Point(q, j)) }

  lemma PointNext(q: Elt, j: nat)
    ensures Point(q, j + 1) == Mul(Lift(q), Point(q, j))
    ensures Point(q, 0) == One6
  {
    hide Mul;
    LiftMul(q, PowMod(q, j, P));
    LiftOne();
  }

  /** (q - 1)(1 + q + ... + q^(n-1)) = q^n - 1, without subtraction. */
  lemma {:induction false} Geometric(q: Elt, n: nat)
    ensures Add(Mul(Lift(q), Sum(Points(q, n))), One6) == Add(Sum(Points(q, n)), Point(q, n))
  {
    hide Mul, Add, Point;
    PointNext(q, 0);
    if n == 0 {
      MulUnits(Lift(q));
    } else {
      var m := n - 1;
      Geometric(q, m);
      assert Points(q, n)[..m] == Points(q, m);
      PointNext(q, m);
      var s, x := Sum(Points(q, m)), Point(q, m);
      Distrib(s, x, Lift(q));
      AddAssoc(Mul(Lift(q), s), Mul(Lift(q), x), One6);
      AddComm(Mul(Lift(q), x), One6);
      AddAssoc(Mul(Lift(q), s), One6, Mul(Lift(q), x));
    }
  }

  /** The powers of an n-th root other than one sum to zero. */
  lemma RootsCancel(inv: Ext -> Ext, q: Elt, n: nat)
    requires FieldInverse(inv) && n > 0 && PowMod(q, n, P) == 1 && q != 1
    ensures Sum(Points(q, n)) == Zero6
  {
    hide Mul, Add, Sum, PowMod, Neg;
    Geometric(q, n);
    LiftOne();
    var s, l := Sum(Points(q, n)), Lift(q);
    CancelOne(Mul(l, s), s);
    MulUnits(s);
    MulSub(l, One6, s);
    SubZero(Mul(l, s), s);
    SubZero(l, One6);
    assert l != One6 by { assert l.x0.re == q; }
    if s != Zero6 { NoZeroProduct(inv, Sub(l, One6), s); }
  }

  lemma CancelOne(x: Ext, y: Ext)
    requires Add(x, One6) == Add(y, One6)
    ensures x == y
  {
    hide Add, Neg;
    SubUnique(Add(x, One6), One6, x);
    SubUnique(Add(y, One6), One6, y);
  }

  // ---- powers of the points ----

  /** Row j holds the e-th power of the j-th point. */
  function Powers(g: Elt, n: nat, e: nat): (s: seq<Ext>)
    ensures |s| == n
  {
    seq(n, j requires 0 <= j < n => Pow(Point(g, j), e))
  }

  lemma PowersStep(g: Elt, n: nat, e: nat)
    ensures Powers(g, n, e + 1) == AtPoints(g, Powers(g, n, e))
  {
    hide Mul, Point;
    forall j | 0 <= j < n ensures Powers(g, n, e + 1)[j] == AtPoints(g, Powers(g, n, e))[j] {
      MulComm(Pow(Point(g, j), e), Point(g, j));
    }
  }

  lemma PowerOfPoint(g: Elt, e: nat, j: nat)
    ensures Pow(Point(g, j), e) == Point(PowMod(g, e, P), j)
  {
    hide PowMod, Lift;
    PowOfLift(PowMod(g, j, P), e);
    PowMul(g, j, e, P);
    PowMul(g, e, j, P);
    assert j * e == e * j;
  }

  lemma PowersArePoints(g: Elt, n: nat, e: nat)
    ensures Powers(g, n, e) == Points(PowMod(g, e, P), n)
  {
    hide Pow, Point;
    forall j | 0 <= j < n ensures Powers(g, n, e)[j] == Points(PowMod(g, e, P), n)[j] {
      PowerOfPoint(g, e, j);
    }
  }

  lemma PowerSum(inv: Ext -> Ext, k: nat, e: nat)
    requires FieldInverse(inv) && k <= MaxOrder && 0 < e < Pow2(k)
    ensures Sum(Powers(Root(k), Pow2(k), e)) == Zero6
  {
    hide Sum, Powers, Root, PowMod;
    var g, n := Root(k), Pow2(k);
    PowersArePoints(g, n, e);
    assert k > 0;
    RootHalf(k);
    OrderIsLarge(g, k - 1, e, P);
    RootPower(k);
    PowMul(g, e, n, P);
    PowMul(g, n, e, P);
    PowOfOne(e, P);
    assert e * n == n * e;
    RootsCancel(inv, PowMod(g, e, P), n);
  }

  function Ones(n: nat): seq<Ext> { seq(n, _ => One6) }

  lemma PowOfOneExt(x: Ext)
    ensures Pow(x, 0) == One6
  {
  }

  lemma PowersCycle(k: nat)
    requires k <= MaxOrder
    ensures Powers(Root(k), Pow2(k), 0) == Ones(Pow2(k)) == Powers(Root(k), Pow2(k), Pow2(k))
  {
    hide Pow, Point, Root, Pow2, PowMod;
    var g, n := Root(k), Pow2(k);
    forall j | 0 <= j < n ensures Powers(g, n, n)[j] == One6 && Powers(g, n, 0)[j] == One6 {
      PowOfOneExt(Point(g, j));
      PowerOfPoint(g, n, j);
      RootPower(k);
      PointOfOne(j);
    }
  }

  lemma PointOfOne(j: nat)
    ensures Point(1, j) == One6
  {
    PowOfOne(j, P);
    LiftOne();
  }

  lemma {:induction false} SumOnes(n: nat)
    requires n < P
    ensures Sum(Ones(n)) == Lift(n)
  {
    hide Add;
    if n == 0 {
      LiftOne();
    } else {
      SumOnes(n - 1);
      assert Ones(n)[..n - 1] == Ones(n - 1);
      LiftAdd(n - 1, 1);
      LiftOne();
    }
  }

  // ---- the sum of the weights ----

  ghost predicate Ready(inv: Ext -> Ext, k: nat, z: Ext) {
    FieldInverse(inv) && k <= MaxOrder && OffDomain(Root(k), Pow2(k), z)
  }

  ghost function Moment(inv: Ext -> Ext, k: nat, z: Ext, e: nat): Ext
    requires k <= MaxOrder
  {
    Weighted(inv, Root(k), z, Powers(Root(k), Pow2(k), e))
  }

  lemma MomentStep(inv: Ext -> Ext, k: nat, z: Ext, e: nat)
    requires Ready(inv, k, z)
    ensures Add(Moment(inv, k, z, e + 1), Sum(Powers(Root(k), Pow2(k), e + 1))) == Mul(z, Moment(inv, k, z, e))
  {
    hide Add, Mul, Sum, Root, Powers, Weighted, Pow2;
    PowersStep(Root(k), Pow2(k), e);
    WeightedAtPoints(inv, Root(k), z, Powers(Root(k), Pow2(k), e));
  }

  lemma {:induction false} MomentIsPower(inv: Ext -> Ext, k: nat, z: Ext, e: nat)
    requires Ready(inv, k, z) && e < Pow2(k)
    ensures Moment(inv, k, z, e) == Mul(Pow(z, e), Moment(inv, k, z, 0))
  {
    hide Add, Mul, Moment, OffDomain, FieldInverse, Pow2, Powers, Sum;
    var s := Moment(inv, k, z, 0);
    if e == 0 {
      MulUnits(s);
    } else {
      MomentIsPower(inv, k, z, e - 1);
      MomentStep(inv, k, z, e - 1);
      PowerSum(inv, k, e);
      AddZero(Moment(inv, k, z, e));
      MulAssoc(z, Pow(z, e - 1), s);
      MulComm(z, Pow(z, e - 1));
    }
  }

  lemma {:induction false} Pow2Fits(k: nat)
    requires k <= MaxOrder
    ensures Pow2(k) <= 16777216
  {
    Pow2Of24();
    Pow2Sum(k, MaxOrder - k);
    AtLeast(Pow2(k), Pow2(MaxOrder - k));
  }

  lemma AtLeast(x: int, y: int)
    requires x >= 1 && y >= 1
    ensures x <= x * y
  {
  }

  /** The weights sum to n / (z^n - 1). */
  lemma WeightSum(inv: Ext -> Ext, k: nat, z: Ext)
    requires Ready(inv, k, z)
    ensures 0 < Pow2(k) < P && Mul(Sub(Pow(z, Pow2(k)), One6), Moment(inv, k, z, 0)) == Lift(Pow2(k))
  {
    hide Add, Mul, Neg, Sum, Moment, Powers, Pow, Root, OffDomain;
    var n, s := Pow2(k), Moment(inv, k, z, 0);
    Pow2Fits(k);
    hide Pow2;
    MomentStep(inv, k, z, n - 1);
    MomentIsPower(inv, k, z, n - 1);
    MomentCycle(inv, k, z);
    PowersCycle(k);
    SumOnes(n);
    PowNext(z, n - 1);
    MulAssoc(z, Pow(z, n - 1), s);
    MulComm(z, Pow(z, n - 1));
    AddComm(s, Lift(n));
    SubUnique(Mul(Pow(z, n), s), s, Lift(n));
    MulSub(Pow(z, n), One6, s);
    MulUnits(s);
  }

  lemma PowNext(z: Ext, m: nat)
    ensures Pow(z, m + 1) == Mul(Pow(z, m), z)
  {
  }

  lemma MomentCycle(inv: Ext -> Ext, k: nat, z: Ext)
    requires k <= MaxOrder
    ensures Moment(inv, k, z, Pow2(k)) == Moment(inv, k, z, 0)
  {
    hide Powers, Weighted, Root, Pow2;
    PowersCycle(k);
  }

  // ---- polynomials ----

  /** The polynomial with coefficients f, lowest first, at x. */
  function PolyAt(f: seq<Ext>, x: Ext): Ext {
    if f == [] then Zero6 else Add(f[0], Mul(x, PolyAt(f[1..], x)))
  }

  /** The column of values of f over the domain. */
  function Sampled(g: Elt, n: nat, f: seq<Ext>): (s: seq<Ext>)
    ensures |s| == n
  {
    seq(n, j requires 0 <= j < n => PolyAt(f, Point(g, j)))
  }

  /** x^e f(x), one coefficient at a time. */
  function From(f: seq<Ext>, e: nat, x: Ext): Ext {
    if f == [] then Zero6 else Add(Mul(f[0], Pow(x, e)), From(f[1..], e + 1, x))
  }

  lemma {:induction false} FromIsPoly(f: seq<Ext>, e: nat, x: Ext)
    ensures From(f, e, x) == Mul(Pow(x, e), PolyAt(f, x))
  {
    hide Add, Mul;
    if f == [] {
      MulUnits(Pow(x, e));
    } else {
      FromIsPoly(f[1..], e + 1, x);
      var h := PolyAt(f[1..], x);
      PowNext(x, e);
      MulAssoc(Pow(x, e), x, h);
      Distrib(f[0], Mul(x, h), Pow(x, e));
      MulComm(f[0], Pow(x, e));
    }
  }

  function FromColumn(g: Elt, n: nat, f: seq<Ext>, e: nat): (s: seq<Ext>)
    ensures |s| == n
  {
    seq(n, j requires 0 <= j < n => From(f, e, Point(g, j)))
  }

  lemma FromColumnStep(g: Elt, n: nat, f: seq<Ext>, e: nat)
    requires f != []
    ensures FromColumn(g, n, f, e) == Plus(Times(f[0], Powers(g, n, e)), FromColumn(g, n, f[1..], e + 1))
  {
    hide Add, Mul, Point, Pow;
  }

  lemma FromColumnEmpty(g: Elt, n: nat, e: nat)
    ensures FromColumn(g, n, [], e) == Times(Zero6, Ones(n))
  {
    hide Mul, Point;
    MulUnits(One6);
  }

  lemma SampledIsFrom(g: Elt, n: nat, f: seq<Ext>)
    ensures Sampled(g, n, f) == FromColumn(g, n, f, 0)
  {
    hide Mul, Point, Pow, PolyAt, From;
    forall j | 0 <= j < n ensures Sampled(g, n, f)[j] == FromColumn(g, n, f, 0)[j] {
      FromIsPoly(f, 0, Point(g, j));
      PowOfOneExt(Point(g, j));
      MulUnits(PolyAt(f, Point(g, j)));
    }
  }

  /** A polynomial of degree below n is weighted to its value at z times the sum of the weights. */
  lemma {:induction false} WeightedPoly(inv: Ext -> Ext, k: nat, z: Ext, f: seq<Ext>, e: nat)
    requires Ready(inv, k, z) && e + |f| <= Pow2(k)
    ensures Weighted(inv, Root(k), z, FromColumn(Root(k), Pow2(k), f, e)) == Mul(From(f, e, z), Moment(inv, k, z, 0))
    decreases |f|
  {
    hide Add, Mul, OffDomain, FieldInverse, Pow2, Powers, Root, Weighted, FromColumn, Plus, Times;
    var g, n, s := Root(k), Pow2(k), Moment(inv, k, z, 0);
    if f == [] {
      FromColumnEmpty(g, n, e);
      WeightedTimes(inv, g, z, Zero6, Ones(n));
      MulUnits(Weighted(inv, g, z, Ones(n)));
      MulUnits(s);
    } else {
      FromColumnStep(g, n, f, e);
      WeightedPlus(inv, g, z, Times(f[0], Powers(g, n, e)), FromColumn(g, n, f[1..], e + 1));
      WeightedTimes(inv, g, z, f[0], Powers(g, n, e));
      MomentIsPower(inv, k, z, e);
      MulAssoc(f[0], Pow(z, e), s);
      WeightedPoly(inv, k, z, f[1..], e + 1);
      Distrib(Mul(f[0], Pow(z, e)), From(f[1..], e + 1, z), s);
    }
  }

  lemma Regroup(v: Ext, s: Ext, d: Ext, m: Ext)
    ensures Mul(Mul(v, s), Mul(d, m)) == Mul(v, Mul(Mul(d, s), m))
  {
    hide Mul;
    MulAssoc(v, s, Mul(d, m));
    MulAssoc(s, d, m);
    MulComm(s, d);
  }

  lemma InverseOfSize(n: nat)
    requires 0 < n < P
    ensures Mul(Lift(n), Lift(Inv(n % P))) == One6
  {
    hide Mul, Inv;
    LiftMul(n, Inv(n));
    LiftOne();
  }

  /** Off the domain, the formula evaluates every polynomial of degree below n from its samples. */
  lemma BaryInterpolates(inv: Ext -> Ext, k: nat, z: Ext, f: seq<Ext>)
    requires FieldInverse(inv) && k <= MaxOrder && OffDomain(Root(k), Pow2(k), z) && |f| <= Pow2(k)
    ensures Bary(inv, Root(k), z, Sampled(Root(k), Pow2(k), f)) == PolyAt(f, z)
  {
    hide Mul, OffDomain, Pow2, Root, Sampled, Pow, Neg, Add, Inv, From, PolyAt, FieldInverse, Terms, Sum, FromColumn;
    var g, n, s := Root(k), Pow2(k), Moment(inv, k, z, 0);
    SampledIsFrom(g, n, f);
    WeightedPoly(inv, k, z, f, 0);
    FromIsPoly(f, 0, z);
    PowOfOneExt(z);
    MulUnits(PolyAt(f, z));
    WeightSum(inv, k, z);
    Regroup(PolyAt(f, z), s, Sub(Pow(z, n), One6), Lift(Inv(n % P)));
    InverseOfSize(n);
  }

  /** At a point of the domain the formula collapses to zero, whatever the column. */
  lemma BaryOnDomain(inv: Ext -> Ext, k: nat, j: nat, c: seq<Ext>)
    requires k <= MaxOrder && |c| == Pow2(k)
    ensures Bary(inv, Root(k), Point(Root(k), j), c) == Zero6
  {
    hide Mul, Pow2, Root, Pow, Neg, Add, Inv, Terms, Sum, PowMod, Point;
    var g, n := Root(k), Pow2(k);
    PowerOfPoint(g, n, j);
    RootPower(k);
    PointOfOne(j);
    SubZero(Pow(Point(g, j), n), One6);
    MulUnits(Lift(Inv(n % P)));
    MulUnits(Sum(Terms(inv, g, Point(g, j), c)));
  }

  /** A polynomial's samples give back its value at z exactly when z is off the domain or a zero of it. */
  lemma EvaluatesIff(inv: Ext -> Ext, k: nat, z: Ext, f: seq<Ext>)
    requires FieldInverse(inv) && k <= MaxOrder && |f| <= Pow2(k)
    ensures Bary(inv, Root(k), z, Sampled(Root(k), Pow2(k), f)) == PolyAt(f, z)
      <==> OffDomain(Root(k), Pow2(k), z) || PolyAt(f, z) == Zero6
  {
    hide Bary, Root, Pow2, PolyAt, Sampled, Point, FieldInverse;
    if OffDomain(Root(k), Pow2(k), z) {
      BaryInterpolates(inv, k, z, f);
    } else {
      var j: nat :| j < Pow2(k) && z == Point(Root(k), j);
      BaryOnDomain(inv, k, j, Sampled(Root(k), Pow2(k), f));
    }
  }
}
