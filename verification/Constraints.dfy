/** Arithmetic shared by the chips' constraints: selectors, exact lifts from the field
    to the integers, and binary digits. */
module Constraints {
  import opened KoalaBear

  /** A setup selector. */
  function Bit(x: bool): int { if x then 1 else 0 }

  predicate IsBit(x: Elt) { x == 0 || x == 1 }

  /** A selector times a constraint. */
  lemma Gate(s: int, x: int)
    ensures s == 1 ==> s * x == x
    ensures s == 0 ==> s * x == 0
  {
  }

  lemma ZeroTimes(z: int, y: int)
    requires Zero(z)
    ensures Zero(z * y)
  {
    assert z == P * (z / P);
    assert z * y == P * (z / P * y);
    Remainder(z * y, P, z / P * y, 0);
  }

  lemma Same(x: Elt, y: Elt)
    requires Zero(x - y)
    ensures x == y
  {
  }

  /** An integer identity below P follows from its congruence. */
  lemma StepUp(x: Elt, y: Elt, k: int)
    requires Zero(y - x - k) && 0 <= x + k < P
    ensures y == x + k
  {
  }

  // ---- binary digits ----

  function BitOf(x: int, i: nat): int { x / Pow2(i) % 2 }
  function Low(x: int, n: nat): int { x % Pow2(n) }

  lemma {:induction false} DivPow2(x: int, i: nat)
    requires x >= 0
    ensures x / Pow2(i + 1) == x / Pow2(i) / 2
    ensures x % Pow2(i + 1) == x % Pow2(i) + BitOf(x, i) * Pow2(i)
    ensures 0 <= x % Pow2(i) < Pow2(i)
  {
    var p, q, r := Pow2(i), x / Pow2(i), x % Pow2(i);
    assert x == p * q + r;
    var h, b := q / 2, q % 2;
    assert q == 2 * h + b;
    assert p * q == 2 * p * h + b * p by {
      assert p * (2 * h + b) == p * (2 * h) + p * b;
      assert p * (2 * h) == 2 * p * h;
    }
    assert 0 <= r + b * p < 2 * p by { if b == 1 { assert b * p == p; } else { assert b * p == 0; } }
    Remainder(x, 2 * p, h, r + b * p);
  }

  lemma Pow2Values()
    ensures Pow2(24) == 16777216 && Pow2(30) == 1073741824 && Pow2(31) == 2147483648
  {
    Pow2Of24();
  }

  lemma {:induction false} Pow2Mono(i: nat, j: nat)
    requires i <= j
    ensures Pow2(i) <= Pow2(j)
    decreases j
  {
    if i < j { Pow2Mono(i, j - 1); }
  }

  /** x >> n is zero. */
  predicate FitsIn(x: nat, n: nat) { x / Pow2(n) == 0 }

  lemma FitsInIff(x: nat, n: nat)
    ensures FitsIn(x, n) <==> x < Pow2(n)
  {
    var p := Pow2(n);
    if x < p { Remainder(x, p, 0, x); } else { assert x == p * (x / p) + x % p; }
  }

  /** idx = b + 2 next in the field, for a small next, holds of the integers. */
  lemma HalfStep(idx: Elt, b: Elt, next: Elt, m: nat)
    requires IsBit(b) && m < 30 && next < Pow2(m) && Zero(idx - b - 2 * next)
    ensures idx == b + 2 * next < Pow2(m + 1) && idx % 2 == b && idx / 2 == next
  {
    BelowModulus(m + 1);
    StepUp(0, idx, b + 2 * next);
  }

  lemma SmallPowers()
    ensures Pow2(0) == 1 && Pow2(1) == 2
  {
  }

  lemma BelowModulus(i: nat)
    requires i <= 30
    ensures Pow2(i) < P
  {
    Pow2Mono(i, 30);
    Pow2Values();
  }

  /** Low bits: bit i of the low part is bit i of the number, below n. */
  lemma {:induction false} LowBit(v: int, n: nat, i: nat)
    requires v >= 0 && i < n
    ensures BitOf(Low(v, n), i) == BitOf(v, i)
    decreases n
  {
    DivPow2(v, n - 1);
    var l := Low(v, n);
    if i == n - 1 {
      var p := Pow2(i);
      Remainder(l, p, BitOf(v, i), v % p);
    } else {
      LowBit(v, n - 1, i);
      LowShift(Low(v, n - 1), BitOf(v, n - 1), n - 1, i);
    }
  }

  /** Adding a multiple of 2^m does not change bits below m. */
  lemma {:induction false} LowShift(x: int, c: int, m: nat, i: nat)
    requires x >= 0 && c >= 0 && i < m
    ensures BitOf(x + c * Pow2(m), i) == BitOf(x, i)
  {
    Pow2Split(m, i);
    var p, e := Pow2(i), Pow2(m - i - 1);
    hide Pow2;
    Regroup(c, p, e);
    AddEvenMultiple(x, p, c * e);
  }

  lemma Regroup(c: int, p: int, e: int)
    ensures c * (p * (2 * e)) == p * (2 * (c * e))
  {
    assert c * (p * (2 * e)) == c * p * 2 * e;
    assert p * (2 * (c * e)) == c * p * 2 * e;
  }

  lemma AddEvenMultiple(x: int, p: int, k: int)
    requires p >= 1
    ensures (x + p * (2 * k)) / p % 2 == x / p % 2
  {
    var q, r := x / p, x % p;
    assert p * (q + 2 * k) == p * q + p * (2 * k);
    Remainder(x + p * (2 * k), p, q + 2 * k, r);
  }

  lemma {:induction false} Pow2Split(m: nat, i: nat)
    requires i < m
    ensures Pow2(m) == Pow2(i) * (2 * Pow2(m - i - 1))
    decreases m - i
  {
    if m > i + 1 {
      Pow2Split(m - 1, i);
      var p, e := Pow2(i), Pow2(m - i - 2);
      assert 2 * (p * (2 * e)) == p * (2 * (2 * e));
    } else {
      assert Pow2(i) * 2 == 2 * Pow2(i);
    }
  }
}
