/** The KoalaBear field: integers modulo P = 127 * 2^24 + 1.

    A constraint of a chip is a polynomial that must vanish modulo P on every
    row; it is written here as `Zero(e)` for the integer expression `e` over the
    canonical representatives.  The one fact the constraint arguments need
    beyond linear arithmetic is that P is prime; it is proved below (Proth's
    criterion with base 3), not assumed.  */
module KoalaBear {

  const P: int := 2130706433

  type Elt = x: int | 0 <= x < P witness 0

  predicate Zero(x: int) { x % P == 0 }

  function AddElt(a: Elt, b: Elt): Elt { (a + b) % P }
  function SubElt(a: Elt, b: Elt): Elt { (a - b) % P }
  function MulElt(a: Elt, b: Elt): Elt { (a * b) % P }
  function NegElt(a: Elt): Elt { (P - a) % P }

  // ---- arithmetic modulo an arbitrary d ----

  function MulMod(a: int, b: int, d: int): (r: int)
    requires d > 1
    ensures 0 <= r < d
  {
    (a * b) % d
  }

  lemma MulBound(d: int, k: int)
    requires d > 0
    ensures k >= 1 ==> d * k >= d
    ensures k <= -1 ==> d * k <= -d
  {
  }

  lemma Remainder(x: int, d: int, q: int, r: int)
    requires d > 0 && x == d * q + r && 0 <= r < d
    ensures x % d == r && x / d == q
  {
    var k := q - x / d;
    assert d * k == x % d - r by {
      assert x == d * (x / d) + x % d;
      assert d * k == d * q - d * (x / d);
    }
    MulBound(d, k);
  }

  lemma AddMultiple(x: int, k: int, d: int)
    requires d > 0
    ensures (x + d * k) % d == x % d
  {
    assert x == d * (x / d) + x % d;
    assert d * (x / d + k) == d * (x / d) + d * k;
    Remainder(x + d * k, d, x / d + k, x % d);
  }

  /** Reducing a factor first does not change a product modulo d. */
  lemma ReduceFactor(a: int, b: int, d: int)
    requires d > 1
    ensures MulMod(a % d, b, d) == MulMod(a, b, d)
    ensures MulMod(b, a % d, d) == MulMod(a, b, d)
  {
    var q := a / d;
    assert a * b == a % d * b + d * (q * b) by {
      assert a == d * q + a % d;
      assert (d * q + a % d) * b == d * q * b + a % d * b;
      assert d * q * b == d * (q * b);
    }
    AddMultiple(a % d * b, q * b, d);
    assert b * (a % d) == a % d * b;
  }

  lemma MulModAssoc(a: int, b: int, c: int, d: int)
    requires d > 1
    ensures MulMod(MulMod(a, b, d), c, d) == MulMod(a, MulMod(b, c, d), d)
    ensures MulMod(a, b, d) == MulMod(b, a, d)
  {
    ReduceFactor(a * b, c, d);
    ReduceFactor(b * c, a, d);
    assert a * b * c == b * c * a;
    assert a * b == b * a;
  }

  function PowMod(x: int, n: nat, d: int): (r: int)
    requires d > 1
    ensures 0 <= r < d
  {
    if n == 0 then 1 else MulMod(x, PowMod(x, n - 1, d), d)
  }

  function Pow2(n: nat): (r: int)
    ensures r >= 1
  {
    if n == 0 then 1 else 2 * Pow2(n - 1)
  }

  lemma MulModOne(a: int, d: int)
    requires d > 1 && 0 <= a < d
    ensures MulMod(1, a, d) == a && MulMod(a, 1, d) == a
  {
  }

  lemma {:induction false} PowAdd(x: int, m: nat, n: nat, d: int)
    requires d > 1
    ensures PowMod(x, m + n, d) == MulMod(PowMod(x, m, d), PowMod(x, n, d), d)
  {
    hide MulMod;
    if m == 0 {
      MulModOne(PowMod(x, n, d), d);
    } else {
      PowAdd(x, m - 1, n, d);
      MulModAssoc(x, PowMod(x, m - 1, d), PowMod(x, n, d), d);
    }
  }

  lemma {:induction false} PowMul(x: int, m: nat, n: nat, d: int)
    requires d > 1
    ensures PowMod(x, m * n, d) == PowMod(PowMod(x, m, d), n, d)
  {
    hide MulMod;
    if n == 0 {
      assert m * n == 0;
    } else {
      assert m * n == m + m * (n - 1);
      PowMul(x, m, n - 1, d);
      PowAdd(x, m, m * (n - 1), d);
    }
  }

  lemma {:induction false} PowOfOne(n: nat, d: int)
    requires d > 1
    ensures PowMod(1, n, d) == 1
  {
    hide MulMod;
    MulModOne(1, d);
    if n > 0 { PowOfOne(n - 1, d); }
  }

  lemma MinusOneSquared(d: int)
    requires d > 2
    ensures PowMod(d - 1, 1, d) == d - 1
    ensures PowMod(d - 1, 2, d) == 1
  {
    MulModOne(d - 1, d);
    assert (d - 1) * (d - 1) == d * (d - 2) + 1;
    Remainder((d - 1) * (d - 1), d, d - 2, 1);
    assert PowMod(d - 1, 1, d) == MulMod(d - 1, 1, d);
  }

  lemma {:induction false} PowOfMinusOne(n: nat, d: int)
    requires d > 2 && n % 2 == 1
    ensures PowMod(d - 1, n, d) == d - 1
    decreases n
  {
    hide MulMod;
    MinusOneSquared(d);
    if n > 1 {
      PowOfMinusOne(n - 2, d);
      PowAdd(d - 1, 2, n - 2, d);
      MulModOne(d - 1, d);
    }
  }

  // ---- Proth's criterion ----

  /** If c^(2^n) = -1 modulo d > 2, the order of c exceeds every t < 2^(n+1). */
  lemma {:induction false} OrderIsLarge(c: int, n: nat, t: nat, d: int)
    requires d > 2 && 0 < t < Pow2(n + 1)
    requires PowMod(c, Pow2(n), d) == d - 1
    ensures PowMod(c, t, d) != 1
    decreases n
  {
    hide MulMod;
    if t % 2 == 1 {
      var h := Pow2(n);
      PowMul(c, t, h, d);
      PowMul(c, h, t, d);
      assert t * h == h * t;
      PowOfOne(h, d);
      PowOfMinusOne(t, d);
    } else if n > 0 {
      PowMul(c, 2, Pow2(n - 1), d);
      PowMul(c, 2, t / 2, d);
      OrderIsLarge(PowMod(c, 2, d), n - 1, t / 2, d);
    }
  }

  lemma PowersAreDistinct(c: int, n: nat, i: nat, j: nat, d: int)
    requires d > 2 && i < j < Pow2(n + 1)
    requires PowMod(c, Pow2(n), d) == d - 1
    ensures PowMod(c, i, d) != PowMod(c, j, d)
  {
    hide MulMod;
    var full := Pow2(n + 1);
    assert PowMod(c, full, d) == 1 by {
      PowMul(c, Pow2(n), 2, d);
      MinusOneSquared(d);
    }
    PowAdd(c, i, full - i, d);
    PowAdd(c, j, full - i, d);
    assert j + (full - i) == (j - i) + full;
    PowAdd(c, j - i, full, d);
    MulModOne(PowMod(c, j - i, d), d);
    OrderIsLarge(c, n, j - i, d);
  }

  ghost predicate IsPower(x: int, c: int, k: nat, d: int)
    requires d > 1
  {
    exists i: nat :: i < k && PowMod(c, i, d) == x
  }

  ghost function PowerSet(c: int, k: nat, d: int): set<int>
    requires d > 1
  {
    if k == 0 then {} else PowerSet(c, k - 1, d) + {PowMod(c, k - 1, d)}
  }

  lemma {:induction false} PowerSetSize(c: int, n: nat, k: nat, d: int)
    requires d > 2 && k <= Pow2(n + 1)
    requires PowMod(c, Pow2(n), d) == d - 1
    ensures |PowerSet(c, k, d)| == k
    ensures forall x :: x in PowerSet(c, k, d) ==> 0 <= x < d && IsPower(x, c, k, d)
  {
    hide MulMod, Pow2;
    if k > 0 {
      PowerSetSize(c, n, k - 1, d);
      var last := PowMod(c, k - 1, d);
      if IsPower(last, c, k - 1, d) {
        var i: nat :| i < k - 1 && PowMod(c, i, d) == last;
        PowersAreDistinct(c, n, i, k - 1, d);
      }
    }
  }

  lemma {:induction false} SubsetOfRange(s: set<int>, d: nat)
    requires forall x :: x in s ==> 0 <= x < d
    ensures |s| <= d
    decreases d
  {
    if d == 0 {
      assert forall x :: x !in s;
      assert s == {};
    } else {
      SubsetOfRange(s - {d - 1}, d - 1);
      assert |s| <= |s - {d - 1}| + 1 by {
        if d - 1 !in s { assert s - {d - 1} == s; }
      }
    }
  }

  lemma DivisorIsLarge(c: int, n: nat, d: int)
    requires d > 2
    requires PowMod(c, Pow2(n), d) == d - 1
    ensures d >= Pow2(n + 1)
  {
    hide MulMod, Pow2, PowMod;
    PowerSetSize(c, n, Pow2(n + 1), d);
    SubsetOfRange(PowerSet(c, Pow2(n + 1), d), d);
  }

  const Base: int := 1791270792  // 3^127

  lemma SquareStep(k: nat, y: int, z: int)
    requires PowMod(Base, Pow2(k), P) == y && y * y % P == z
    ensures PowMod(Base, Pow2(k + 1), P) == z
  {
    PowAdd(Base, Pow2(k), Pow2(k), P);
  }

  /** 3^(127 * 2^23) = -1: the witness of Proth's criterion, by repeated squaring. */
  lemma WitnessPower()
    ensures PowMod(Base, Pow2(23), P) == P - 1
  {
    hide PowMod, MulMod, Pow2;
    WitnessStart();
    SquareStep(0, 1791270792, 1760025929);
    SquareStep(1, 1760025929, 542991299);
    SquareStep(2, 542991299, 1213133211);
    SquareStep(3, 1213133211, 1364057261);
    SquareStep(4, 1364057261, 339671193);
    SquareStep(5, 339671193, 1816824389);
    SquareStep(6, 1816824389, 373019801);
    SquareStep(7, 373019801, 1848593786);
    SquareStep(8, 1848593786, 1168510561);
    SquareStep(9, 1168510561, 1047035213);
    SquareStep(10, 1047035213, 809067698);
    SquareStep(11, 809067698, 1989134074);
    SquareStep(12, 1989134074, 2000983452);
    SquareStep(13, 2000983452, 860702919);
    SquareStep(14, 860702919, 665670555);
    SquareStep(15, 665670555, 392596362);
    SquareStep(16, 392596362, 699882112);
    SquareStep(17, 699882112, 1548376985);
    SquareStep(18, 1548376985, 170455089);
    SquareStep(19, 170455089, 148625052);
    SquareStep(20, 148625052, 1748172362);
    SquareStep(21, 1748172362, 2113994754);
    SquareStep(22, 2113994754, 2130706432);
  }

  lemma WitnessStart()
    ensures PowMod(Base, Pow2(0), P) == Base
  {
    MulModOne(Base, P);
    assert PowMod(Base, 1, P) == MulMod(Base, PowMod(Base, 0, P), P);
  }

  /** Reducing modulo a divisor d of m commutes with products modulo m. */
  lemma MulModDivisor(a: int, b: int, m: int, d: int)
    requires d > 1 && m > 1 && m % d == 0
    ensures MulMod(a, b, m) % d == MulMod(a % d, b, d)
  {
    var y, k := a * b, m / d;
    assert m == d * k;
    assert y == y % m + d * (k * (y / m)) by {
      assert y == m * (y / m) + y % m;
      assert d * k * (y / m) == d * (k * (y / m));
    }
    AddMultiple(y % m, k * (y / m), d);
    ReduceFactor(a, b, d);
  }

  lemma {:induction false} PowModDivisor(x: int, n: nat, m: int, d: int)
    requires d > 1 && m > 1 && m % d == 0
    ensures PowMod(x, n, m) % d == PowMod(x, n, d)
  {
    hide MulMod;
    if n > 0 {
      PowModDivisor(x, n - 1, m, d);
      MulModDivisor(PowMod(x, n - 1, m), x, m, d);
      MulModAssoc(x, PowMod(x, n - 1, m), 1, m);
      MulModAssoc(x, PowMod(x, n - 1, d), 1, d);
    } else {
      Remainder(1, d, 0, 1);
    }
  }

  lemma ProperDivisorIsLarge(d: int)
    requires 1 < d < P && P % d == 0
    ensures d >= 16777216
  {
    hide PowMod, MulMod, Pow2;
    assert d != 2;
    PowModDivisor(Base, Pow2(23), P, d);
    WitnessPower();
    assert (P - 1) % d == d - 1 by {
      var q := P / d;
      assert P == d * q;
      assert d * (q - 1) == d * q - d;
      Remainder(P - 1, d, q - 1, d - 1);
    }
    DivisorIsLarge(Base, 23, d);
    Pow2Of24();
  }

  lemma Pow2Of24()
    ensures Pow2(24) == 16777216
  {
    assert Pow2(6) == 64;
    assert Pow2(12) == 4096;
    assert Pow2(18) == 262144;
  }

  /** P is prime: it has no divisor strictly between 1 and P. */
  lemma PrimeP(d: int)
    requires 1 < d <= P && P % d == 0
    ensures d == P
  {
    var e := P / d;
    assert d * e == P;
    if d < P {
      Cofactor(d, e);
      ProperDivisorIsLarge(d);
      ProperDivisorIsLarge(e);
      ProductBound(d, e);
    }
  }

  lemma Cofactor(d: int, e: int)
    requires 1 < d < P && d * e == P
    ensures 1 < e < P && P % e == 0
  {
    MulBound(d, e);
    if e <= 0 { MulBound(d, e - 1); }
    assert e * d == P;
    Remainder(P, e, d, 0);
    assert e * 2 <= e * d;
  }

  lemma ProductBound(d: int, e: int)
    requires d >= 16777216 && e >= 16777216
    ensures d * e >= 16777216 * 16777216
  {
    assert d * e >= 16777216 * e;
  }

  // ---- consequences ----

  lemma {:induction false} SmallestMultiplier(a: int, b: int)
    requires 0 < a < P && Zero(a * b)
    ensures Zero(b)
    decreases a
  {
    if a > 1 {
      var q, r := P / a, P % a;
      assert P == a * q + r;
      if r == 0 {
        PrimeP(a);
      } else {
        var m := a * b / P;
        assert a * b == P * m;
        assert r * b == P * (b - q * m) by {
          assert r * b == (P - a * q) * b;
          assert (P - a * q) * b == P * b - q * (a * b);
          assert q * (P * m) == P * (q * m);
        }
        AddMultiple(0, b - q * m, P);
        SmallestMultiplier(r, b);
      }
    }
  }

  /** Euclid's lemma for P: a product vanishes modulo P only if a factor does. */
  lemma ZeroProduct(a: int, b: int)
    requires Zero(a * b)
    ensures Zero(a) || Zero(b)
  {
    if !Zero(a) {
      ReduceFactor(a, b, P);
      SmallestMultiplier(a % P, b);
    }
  }

  /** A bit constraint b * (b - 1) = 0 on a canonical element. */
  lemma Boolean(b: Elt)
    requires Zero(b * (b - 1))
    ensures b == 0 || b == 1
  {
    ZeroProduct(b, b - 1);
  }

  lemma Divides(g: int, s: int, q: int, t: int)
    requires g > 0
    ensures (g * s * q + g * t) % g == 0
  {
    assert g * s * q + g * t == g * (s * q + t);
    Remainder(g * s * q + g * t, g, s * q + t, 0);
  }

  /** Extended Euclid: Bezout coefficients of (a, b). */
  function Bezout(a: nat, b: nat): (r: (nat, int, int))
    requires a > 0 || b > 0
    ensures r.0 == a * r.1 + b * r.2
    ensures r.0 > 0 && a % r.0 == 0 && b % r.0 == 0
    decreases b
  {
    if b == 0 then
      (a, 1, 0)
    else
      var r := Bezout(b, a % b);
      BezoutStep(a, b, r.0, r.1, r.2);
      (r.0, r.2, r.1 - a / b * r.2)
  }

  lemma BezoutStep(a: nat, b: nat, g: nat, x: int, y: int)
    requires b > 0 && g > 0
    requires g == b * x + a % b * y
    requires b % g == 0 && (a % b) % g == 0
    ensures g == a * y + b * (x - a / b * y)
    ensures a % g == 0
  {
    var q := a / b;
    assert a == b * q + a % b;
    assert (a - b * q) * y == a * y - b * (q * y);
    assert b * (x - q * y) == b * x - b * (q * y);
    Divides(g, b / g, q, (a % b) / g);
    assert b == g * (b / g) && a % b == g * ((a % b) / g);
  }

  lemma CoprimeToP(a: Elt, g: nat)
    requires a > 0 && g > 0 && a % g == 0 && P % g == 0
    ensures g == 1
  {
    assert a == g * (a / g) && P == g * (P / g);
    MulBound(g, a / g);
    if g > 1 { PrimeP(g); }
  }

  lemma InverseStep(a: Elt, x: int, y: int)
    requires 1 == a * x + P * y
    ensures (a * (x % P)) % P == 1
  {
    ReduceFactor(x, a, P);
    assert x * a == P * (-y) + 1;
    Remainder(x * a, P, -y, 1);
  }

  /** The inverse of a field element; zero maps to zero. */
  function Inv(a: Elt): (r: Elt)
    ensures a != 0 ==> (a * r) % P == 1
    ensures a == 0 ==> r == 0
  {
    if a == 0 then 0
    else
      var r := Bezout(a, P);
      CoprimeToP(a, r.0);
      InverseStep(a, r.1, r.2);
      r.1 % P
  }
}
