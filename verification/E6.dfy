/** The degree-6 extension F_p[u]/(u^2 - 3)[v]/(v^3 - (u + 1)).

    Products are computed on integer coordinates (modules Z2 and Z6 below are
    the same tower over the integers) and reduced modulo P at the end, so that
    the ring laws are polynomial identities.  */
module ExtField {
  import opened KoalaBear

  // ---- the tower over the integers ----

  datatype Z2 = Z2(re: int, im: int)

  function Add2(x: Z2, y: Z2): Z2 { Z2(x.re + y.re, x.im + y.im) }

  /** (a0 + a1 u)(b0 + b1 u) with u^2 = 3. */
  function Mul2(x: Z2, y: Z2): Z2 {
    Z2(x.re * y.re + 3 * (x.im * y.im), x.re * y.im + x.im * y.re)
  }

  /** Multiplication by u + 1. */
  function Xi(x: Z2): Z2 { Z2(x.re + 3 * x.im, x.re + x.im) }

  lemma Mul2Comm(x: Z2, y: Z2)
    ensures Mul2(x, y) == Mul2(y, x)
  {
  }

  lemma Mul2Add(x: Z2, y: Z2, z: Z2)
    ensures Mul2(Add2(x, y), z) == Add2(Mul2(x, z), Mul2(y, z))
  {
    DistribInt(x.re, y.re, z.re);
    DistribInt(x.im, y.im, z.im);
    DistribInt(x.re, y.re, z.im);
    DistribInt(x.im, y.im, z.re);
  }

  lemma DistribInt(a: int, b: int, c: int)
    ensures (a + b) * c == a * c + b * c
  {
  }

  lemma Mul2Xi(x: Z2, z: Z2)
    ensures Mul2(Xi(x), z) == Xi(Mul2(x, z))
  {
  }

  lemma Mul2Assoc(x: Z2, y: Z2, z: Z2)
    ensures Mul2(Mul2(x, y), z) == Mul2(Mul2(y, z), x)
  {
    var a, b, c, d, e, f := x.re, x.im, y.re, y.im, z.re, z.im;
    DistribInt(a * c, 3 * (b * d), e); DistribInt(a * d, b * c, f);
    DistribInt(c * e, 3 * (d * f), a); DistribInt(c * f, d * e, b);
    DistribInt(a * c, 3 * (b * d), f); DistribInt(a * d, b * c, e);
    DistribInt(c * e, 3 * (d * f), b); DistribInt(c * f, d * e, a);
    Cycle(a, c, e); Cycle(b, d, e); Cycle(a, d, f); Cycle(b, c, f);
    Cycle(a, c, f); Cycle(b, d, f); Cycle(a, d, e); Cycle(b, c, e);
  }

  lemma Cycle(a: int, c: int, e: int)
    ensures a * c * e == c * e * a && 3 * (a * c) * e == 3 * (a * c * e) == 3 * (c * e) * a
  {
  }

  datatype Z6 = Z6(x0: Z2, x1: Z2, x2: Z2)

  function AddZ(x: Z6, y: Z6): Z6 {
    Z6(Add2(x.x0, y.x0), Add2(x.x1, y.x1), Add2(x.x2, y.x2))
  }

  /** Schoolbook product with v^3 = u + 1. */
  function MulZ(x: Z6, y: Z6): Z6 {
    Z6(Add2(Mul2(x.x0, y.x0), Xi(Add2(Mul2(x.x1, y.x2), Mul2(x.x2, y.x1)))),
       Add2(Add2(Mul2(x.x0, y.x1), Mul2(x.x1, y.x0)), Xi(Mul2(x.x2, y.x2))),
       Add2(Add2(Mul2(x.x0, y.x2), Mul2(x.x1, y.x1)), Mul2(x.x2, y.x0)))
  }

  lemma MulZComm(x: Z6, y: Z6)
    ensures MulZ(x, y) == MulZ(y, x)
  {
    hide Mul2;
    Mul2Comm(x.x0, y.x0); Mul2Comm(x.x0, y.x1); Mul2Comm(x.x0, y.x2);
    Mul2Comm(x.x1, y.x0); Mul2Comm(x.x1, y.x1); Mul2Comm(x.x1, y.x2);
    Mul2Comm(x.x2, y.x0); Mul2Comm(x.x2, y.x1); Mul2Comm(x.x2, y.x2);
  }

  lemma MulZAdd(x: Z6, y: Z6, z: Z6)
    ensures MulZ(AddZ(x, y), z) == AddZ(MulZ(x, z), MulZ(y, z))
  {
    hide Mul2;
    Mul2Add(x.x0, y.x0, z.x0); Mul2Add(x.x0, y.x0, z.x1); Mul2Add(x.x0, y.x0, z.x2);
    Mul2Add(x.x1, y.x1, z.x0); Mul2Add(x.x1, y.x1, z.x1); Mul2Add(x.x1, y.x1, z.x2);
    Mul2Add(x.x2, y.x2, z.x0); Mul2Add(x.x2, y.x2, z.x1); Mul2Add(x.x2, y.x2, z.x2);
  }

  /** The triple product x_i y_j z_k, left-associated. */
  function T(x: Z2, y: Z2, z: Z2): Z2 { Mul2(Mul2(x, y), z) }

  lemma Left0(x: Z6, y: Z6, z: Z2)
    ensures Mul2(MulZ(x, y).x0, z)
         == Add2(T(x.x0, y.x0, z), Xi(Add2(T(x.x1, y.x2, z), T(x.x2, y.x1, z))))
  {
    hide Mul2;
    var s := Add2(Mul2(x.x1, y.x2), Mul2(x.x2, y.x1));
    Mul2Add(Mul2(x.x0, y.x0), Xi(s), z);
    Mul2Xi(s, z);
    Mul2Add(Mul2(x.x1, y.x2), Mul2(x.x2, y.x1), z);
  }

  lemma Left1(x: Z6, y: Z6, z: Z2)
    ensures Mul2(MulZ(x, y).x1, z)
         == Add2(Add2(T(x.x0, y.x1, z), T(x.x1, y.x0, z)), Xi(T(x.x2, y.x2, z)))
  {
    hide Mul2;
    var s := Add2(Mul2(x.x0, y.x1), Mul2(x.x1, y.x0));
    Mul2Add(s, Xi(Mul2(x.x2, y.x2)), z);
    Mul2Xi(Mul2(x.x2, y.x2), z);
    Mul2Add(Mul2(x.x0, y.x1), Mul2(x.x1, y.x0), z);
  }

  lemma Left2(x: Z6, y: Z6, z: Z2)
    ensures Mul2(MulZ(x, y).x2, z)
         == Add2(Add2(T(x.x0, y.x2, z), T(x.x1, y.x1, z)), T(x.x2, y.x0, z))
  {
    hide Mul2;
    var s := Add2(Mul2(x.x0, y.x2), Mul2(x.x1, y.x1));
    Mul2Add(s, Mul2(x.x2, y.x0), z);
    Mul2Add(Mul2(x.x0, y.x2), Mul2(x.x1, y.x1), z);
  }

  /** The 27 triple products do not depend on the cyclic order of the factors. */
  lemma Cyclic(x: Z6, y: Z2, z: Z2)
    ensures T(x.x0, y, z) == T(y, z, x.x0)
    ensures T(x.x1, y, z) == T(y, z, x.x1)
    ensures T(x.x2, y, z) == T(y, z, x.x2)
  {
    hide Mul2;
    Mul2Assoc(x.x0, y, z);
    Mul2Assoc(x.x1, y, z);
    Mul2Assoc(x.x2, y, z);
  }

  lemma MulZCyclic(x: Z6, y: Z6, z: Z6)
    ensures MulZ(MulZ(x, y), z) == MulZ(MulZ(y, z), x)
  {
    hide Mul2, T;
    Left0(x, y, z.x0); Left0(x, y, z.x1); Left0(x, y, z.x2);
    Left1(x, y, z.x0); Left1(x, y, z.x1); Left1(x, y, z.x2);
    Left2(x, y, z.x0); Left2(x, y, z.x1); Left2(x, y, z.x2);
    Left0(y, z, x.x0); Left0(y, z, x.x1); Left0(y, z, x.x2);
    Left1(y, z, x.x0); Left1(y, z, x.x1); Left1(y, z, x.x2);
    Left2(y, z, x.x0); Left2(y, z, x.x1); Left2(y, z, x.x2);
    Cyclic(x, y.x0, z.x0); Cyclic(x, y.x0, z.x1); Cyclic(x, y.x0, z.x2);
    Cyclic(x, y.x1, z.x0); Cyclic(x, y.x1, z.x1); Cyclic(x, y.x1, z.x2);
    Cyclic(x, y.x2, z.x0); Cyclic(x, y.x2, z.x1); Cyclic(x, y.x2, z.x2);
  }

  // ---- the presentation of the tower ----

  function ScaleZ(k: int, x: Z6): Z6 {
    Z6(Z2(k * x.x0.re, k * x.x0.im), Z2(k * x.x1.re, k * x.x1.im), Z2(k * x.x2.re, k * x.x2.im))
  }

  /** The zero and one of Z[u], named so that products with them stay symbolic. */
  predicate Units(zero: Z2, one: Z2) { zero == Z2(0, 0) && one == Z2(1, 0) }

  lemma UnitProducts(zero: Z2, one: Z2, x: Z2)
    requires Units(zero, one)
    ensures Mul2(zero, x) == zero && Mul2(x, zero) == zero
    ensures Mul2(one, x) == x && Mul2(x, one) == x
  {
  }

  lemma Sums(zero: Z2, one: Z2, x: Z2)
    requires Units(zero, one)
    ensures Xi(zero) == zero && Add2(zero, x) == x && Add2(x, zero) == x
  {
  }

  /** Products of multiples of 1, v and v^2: the multiplication table over Z[u]. */
  lemma Monomials(zero: Z2, one: Z2, a: Z2, b: Z2)
    requires Units(zero, one)
    ensures MulZ(Z6(a, zero, zero), Z6(b, zero, zero)) == Z6(Mul2(a, b), zero, zero)
    ensures MulZ(Z6(a, zero, zero), Z6(zero, b, zero)) == Z6(zero, Mul2(a, b), zero)
    ensures MulZ(Z6(a, zero, zero), Z6(zero, zero, b)) == Z6(zero, zero, Mul2(a, b))
  {
    hide Mul2, Add2, Xi;
    UnitProducts(zero, one, zero); UnitProducts(zero, one, a); UnitProducts(zero, one, b);
    Sums(zero, one, zero); Sums(zero, one, Mul2(a, b));
  }

  lemma HighMonomials(zero: Z2, one: Z2, a: Z2, b: Z2)
    requires Units(zero, one)
    ensures MulZ(Z6(zero, a, zero), Z6(zero, b, zero)) == Z6(zero, zero, Mul2(a, b))
    ensures MulZ(Z6(zero, zero, a), Z6(zero, b, zero)) == Z6(Xi(Mul2(a, b)), zero, zero)
  {
    hide Mul2, Add2, Xi;
    UnitProducts(zero, one, zero); UnitProducts(zero, one, a); UnitProducts(zero, one, b);
    Sums(zero, one, zero); Sums(zero, one, Mul2(a, b)); Sums(zero, one, Xi(Mul2(a, b)));
  }

  lemma MulZOne(zero: Z2, one: Z2, x: Z6)
    requires Units(zero, one)
    ensures MulZ(Z6(one, zero, zero), x) == x
    ensures MulZ(Z6(zero, zero, zero), x) == Z6(zero, zero, zero)
  {
    hide Mul2, Add2, Xi;
    UnitProducts(zero, one, x.x0); UnitProducts(zero, one, x.x1); UnitProducts(zero, one, x.x2);
    Sums(zero, one, zero); Sums(zero, one, x.x0); Sums(zero, one, x.x1); Sums(zero, one, x.x2);
  }

  /** The relations of the tower: u^2 = 3 and v^3 = u + 1, with v^2 the third coordinate. */
  lemma Relations(zero: Z2, one: Z2, i: Z2)
    requires Units(zero, one) && i == Z2(0, 1)
    ensures MulZ(Z6(i, zero, zero), Z6(i, zero, zero)) == Z6(Z2(3, 0), zero, zero)
    ensures MulZ(Z6(zero, one, zero), Z6(zero, one, zero)) == Z6(zero, zero, one)
    ensures MulZ(Z6(zero, zero, one), Z6(zero, one, zero)) == Z6(Add2(one, i), zero, zero)
  {
    hide MulZ, Mul2, Add2, Xi;
    Monomials(zero, one, i, i);
    HighMonomials(zero, one, one, one);
    UnitProducts(zero, one, one);
    ISquared();
    XiOfOne();
  }

  lemma ISquared()
    ensures Mul2(Z2(0, 1), Z2(0, 1)) == Z2(3, 0)
  {
  }

  lemma XiOfOne()
    ensures Xi(Z2(1, 0)) == Add2(Z2(1, 0), Z2(0, 1))
  {
  }

  /** Every element is x0 + x1 v + x2 v^2: with the relations and the ring laws,
      MulZ is the product of the quotient ring Z[u]/(u^2 - 3)[v]/(v^3 - (u + 1)). */
  lemma Presentation(zero: Z2, one: Z2, x: Z6)
    requires Units(zero, one)
    ensures x == AddZ(AddZ(Z6(x.x0, zero, zero), MulZ(Z6(x.x1, zero, zero), Z6(zero, one, zero))),
                      MulZ(Z6(x.x2, zero, zero), Z6(zero, zero, one)))
  {
    hide Mul2, Add2, MulZ;
    Monomials(zero, one, x.x1, one); Monomials(zero, one, x.x2, one);
    UnitProducts(zero, one, x.x1); UnitProducts(zero, one, x.x2);
    Sums(zero, one, x.x0); Sums(zero, one, x.x1); Sums(zero, one, x.x2); Sums(zero, one, zero);
  }

  lemma Mul2Scale(k: int, x: Z2, y: Z2)
    ensures Mul2(Z2(k * x.re, k * x.im), y) == Z2(k * Mul2(x, y).re, k * Mul2(x, y).im)
  {
    assert k * x.re * y.re == k * (x.re * y.re) && k * x.im * y.im == k * (x.im * y.im);
    assert k * x.re * y.im == k * (x.re * y.im) && k * x.im * y.re == k * (x.im * y.re);
    assert k * (x.re * y.re + 3 * (x.im * y.im)) == k * (x.re * y.re) + 3 * (k * (x.im * y.im));
    assert k * (x.re * y.im + x.im * y.re) == k * (x.re * y.im) + k * (x.im * y.re);
  }

  // ---- the extension field ----

  predicate Canonical2(x: Z2) { 0 <= x.re < P && 0 <= x.im < P }
  predicate Canonical(x: Z6) { Canonical2(x.x0) && Canonical2(x.x1) && Canonical2(x.x2) }

  type Ext = x: Z6 | Canonical(x) witness Z6(Z2(0, 0), Z2(0, 0), Z2(0, 0))

  function Red2(x: Z2): Z2 { Z2(x.re % P, x.im % P) }
  function Red(x: Z6): Ext { Z6(Red2(x.x0), Red2(x.x1), Red2(x.x2)) }

  function Div2(x: Z2): Z2 { Z2(x.re / P, x.im / P) }

  const Zero6: Ext := Z6(Z2(0, 0), Z2(0, 0), Z2(0, 0))
  const One6: Ext := Z6(Z2(1, 0), Z2(0, 0), Z2(0, 0))

  function Lift(a: Elt): Ext { Z6(Z2(a, 0), Z2(0, 0), Z2(0, 0)) }

  function Add(x: Ext, y: Ext): Ext { Red(AddZ(x, y)) }
  function Mul(x: Ext, y: Ext): Ext { Red(MulZ(x, y)) }
  function Neg(x: Ext): Ext { Red(ScaleZ(-1, x)) }
  function Sub(x: Ext, y: Ext): Ext { Add(x, Neg(y)) }

  lemma MulZScaleP(x: Z6, y: Z6)
    ensures MulZ(ScaleZ(P, x), y) == ScaleZ(P, MulZ(x, y))
  {
    hide Mul2;
    Mul2Scale(P, x.x0, y.x0); Mul2Scale(P, x.x0, y.x1); Mul2Scale(P, x.x0, y.x2);
    Mul2Scale(P, x.x1, y.x0); Mul2Scale(P, x.x1, y.x1); Mul2Scale(P, x.x1, y.x2);
    Mul2Scale(P, x.x2, y.x0); Mul2Scale(P, x.x2, y.x1); Mul2Scale(P, x.x2, y.x2);
  }

  lemma RedAddMultiple(x: Z6, m: Z6)
    ensures Red(AddZ(x, ScaleZ(P, m))) == Red(x)
  {
  }

  function DivZ(x: Z6): Z6 { Z6(Div2(x.x0), Div2(x.x1), Div2(x.x2)) }

  lemma Split(x: Z6)
    ensures x == AddZ(Red(x), ScaleZ(P, DivZ(x)))
  {
  }

  /** Reducing a factor first does not change a reduced product. */
  lemma MulRed(x: Z6, y: Z6)
    ensures Red(MulZ(Red(x), y)) == Red(MulZ(x, y))
  {
    hide MulZ, Red, AddZ, ScaleZ;
    var q := DivZ(x);
    Split(x);
    MulZAdd(Red(x), ScaleZ(P, q), y);
    MulZScaleP(q, y);
    RedAddMultiple(MulZ(Red(x), y), MulZ(q, y));
  }

  lemma AddRed(x: Z6, y: Z6)
    ensures Red(AddZ(Red(x), y)) == Red(AddZ(x, y))
  {
  }

  lemma AddComm(x: Ext, y: Ext)
    ensures Add(x, y) == Add(y, x)
  {
  }

  lemma AddAssoc(x: Ext, y: Ext, z: Ext)
    ensures Add(Add(x, y), z) == Add(x, Add(y, z))
  {
    hide Red;
    AddRed(AddZ(x, y), z);
    AddRedRight(x, AddZ(y, z));
    assert AddZ(AddZ(x, y), z) == AddZ(x, AddZ(y, z));
  }

  lemma AddZero2(x: Z2)
    requires Canonical2(x)
    ensures Red2(Add2(x, Z2(0, 0))) == x && Red2(Add2(Z2(0, 0), x)) == x
    ensures Red2(Add2(x, Red2(Z2(-1 * x.re, -1 * x.im)))) == Z2(0, 0)
  {
    Opposite(x.re);
    Opposite(x.im);
  }

  lemma Opposite(a: int)
    requires 0 <= a < P
    ensures (a + 0) % P == a && (0 + a) % P == a && (a + (-1 * a) % P) % P == 0
  {
    if a > 0 {
      Remainder(-1 * a, P, -1, P - a);
    }
  }

  lemma AddZero(x: Ext)
    ensures Add(x, Zero6) == x && Add(Zero6, x) == x && Add(x, Neg(x)) == Zero6
  {
    AddZero2(x.x0); AddZero2(x.x1); AddZero2(x.x2);
    hide Red2, Add2;
  }

  lemma MulComm(x: Ext, y: Ext)
    ensures Mul(x, y) == Mul(y, x)
  {
    MulZComm(x, y);
  }

  lemma MulAssoc(x: Ext, y: Ext, z: Ext)
    ensures Mul(Mul(x, y), z) == Mul(x, Mul(y, z))
  {
    hide MulZ, Red;
    MulRed(MulZ(x, y), z);
    MulRed(MulZ(y, z), x);
    MulZCyclic(x, y, z);
    MulComm(x, Mul(y, z));
  }

  lemma Distrib(x: Ext, y: Ext, z: Ext)
    ensures Mul(Add(x, y), z) == Add(Mul(x, z), Mul(y, z))
    ensures Mul(z, Add(x, y)) == Add(Mul(z, x), Mul(z, y))
  {
    hide MulZ, Red, AddZ;
    MulRed(AddZ(x, y), z);
    MulZAdd(x, y, z);
    AddRed(MulZ(x, z), MulZ(y, z));
    AddRedRight(Red(MulZ(x, z)), MulZ(y, z));
    MulComm(Add(x, y), z);
    MulComm(x, z);
    MulComm(y, z);
  }

  lemma AddRedRight(x: Z6, y: Z6)
    ensures Red(AddZ(x, Red(y))) == Red(AddZ(x, y))
  {
  }

  lemma RedCanonical(x: Ext)
    ensures Red(x) == x
  {
  }

  lemma MulUnits(x: Ext)
    ensures Mul(One6, x) == x && Mul(x, One6) == x
    ensures Mul(Zero6, x) == Zero6 && Mul(x, Zero6) == Zero6
  {
    hide MulZ, Red;
    MulZOne(Z2(0, 0), Z2(1, 0), x);
    RedCanonical(x);
    RedCanonical(Zero6);
    MulComm(One6, x);
    MulComm(Zero6, x);
  }

  lemma Mul2Left(x: Z2, a: int)
    ensures Mul2(x, Z2(a, 0)) == Z2(a * x.re, a * x.im)
  {
  }

  /** Multiplying by a lifted element scales every coordinate. */
  lemma MulLift(x: Ext, a: Elt)
    ensures Mul(x, Lift(a)) == Red(ScaleZ(a, x))
  {
    MulLiftZ(x, Z2(a, 0), Z2(0, 0), Z2(1, 0));
    Mul2Left(x.x0, a); Mul2Left(x.x1, a); Mul2Left(x.x2, a);
    hide Mul2, MulZ;
  }

  lemma MulLiftZ(x: Z6, y: Z2, zero: Z2, one: Z2)
    requires Units(zero, one)
    ensures MulZ(x, Z6(y, zero, zero)) == Z6(Mul2(x.x0, y), Mul2(x.x1, y), Mul2(x.x2, y))
  {
    hide Mul2, Add2, Xi;
    UnitProducts(zero, one, x.x0); UnitProducts(zero, one, x.x1); UnitProducts(zero, one, x.x2);
    Sums(zero, one, zero);
    Sums(zero, one, Mul2(x.x0, y)); Sums(zero, one, Mul2(x.x1, y)); Sums(zero, one, Mul2(x.x2, y));
  }

  /** The base field embeds: products, sums and opposites of lifted elements are lifted. */
  lemma LiftMul(a: Elt, b: Elt)
    ensures Mul(Lift(a), Lift(b)) == Lift(MulElt(a, b))
  {
    hide MulZ;
    MulLift(Lift(a), b);
    assert b * a == a * b && b * 0 == 0;
  }

  lemma LiftAdd(a: Elt, b: Elt)
    ensures Add(Lift(a), Lift(b)) == Lift(AddElt(a, b))
  {
    hide Red, AddZ, Lift;
    LiftSum(a, b);
    RedLift(a + b);
  }

  lemma LiftSum(a: Elt, b: Elt)
    ensures AddZ(Lift(a), Lift(b)) == Z6(Z2(a + b, 0), Z2(0, 0), Z2(0, 0))
  {
  }

  lemma RedLift(a: int)
    ensures Red(Z6(Z2(a, 0), Z2(0, 0), Z2(0, 0))) == Lift(a % P)
  {
  }

  lemma LiftNeg(a: Elt)
    ensures Neg(Lift(a)) == Lift(NegElt(a))
  {
  }

  /** `inv` inverts every nonzero element (the extension is a field). */
  ghost predicate Inverts(inv: Ext -> Ext) {
    forall d: Ext :: d != Zero6 ==> Mul(d, inv(d)) == One6
  }

  /** d q = n has one solution for an invertible divisor: the quotient the executor computes. */
  lemma QuotientUnique(d: Ext, e: Ext, q: Ext, n: Ext)
    requires Mul(d, e) == One6
    ensures Mul(d, q) == n <==> q == Mul(e, n)
  {
    hide Mul;
    if Mul(d, q) == n {
      MulAssoc(e, d, q);
      MulComm(e, d);
      MulUnits(q);
    }
    if q == Mul(e, n) {
      MulAssoc(d, e, n);
      MulUnits(n);
    }
  }

  function Pow(x: Ext, n: nat): Ext {
    if n == 0 then One6 else Mul(Pow(x, n - 1), x)
  }
}
