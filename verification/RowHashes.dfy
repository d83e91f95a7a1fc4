/** The row hash of the inclusion check: a polynomial in alpha with the row as coefficients,
    so that two different rows agree on fewer points than they have columns. */
module RowHashes {
  import opened KoalaBear
  import opened ExtField
  import opened Barycentric

  /** The row, highest power first, evaluated by Horner's rule. */
  function Horner(alpha: Ext, row: seq<Ext>): Ext {
    if row == [] then Zero6 else Add(Mul(Horner(alpha, row[..|row| - 1]), alpha), row[|row| - 1])
  }

  lemma HornerNext(alpha: Ext, row: seq<Ext>, x: Ext)
    ensures Horner(alpha, row + [x]) == Add(Mul(Horner(alpha, row), alpha), x)
  {
    hide Add, Mul;
    assert (row + [x])[..|row|] == row;
  }

  // ---- the sum of powers ----

  /** row[j] alpha^(m - 1 - j), for a row of width m. */
  function PowerTerms(alpha: Ext, row: seq<Ext>): (t: seq<Ext>)
    ensures |t| == |row|
  {
    seq(|row|, j requires 0 <= j < |row| => Mul(row[j], Pow(alpha, |row| - 1 - j)))
  }

  lemma {:induction false} SumScaled(s: seq<Ext>, t: seq<Ext>, a: Ext)
    requires |s| == |t| && forall j :: 0 <= j < |s| ==> t[j] == Mul(s[j], a)
    ensures Sum(t) == Mul(Sum(s), a)
  {
    hide Add, Mul;
    if s == [] {
      MulUnits(a);
    } else {
      var n := |s| - 1;
      SumScaled(s[..n], t[..n], a);
      Distrib(Sum(s[..n]), s[n], a);
    }
  }

  lemma PowNext(x: Ext, n: nat)
    ensures Pow(x, 0) == One6 && Pow(x, n + 1) == Mul(Pow(x, n), x)
  {
    hide Mul;
  }

  lemma {:induction false} HornerIsPowers(alpha: Ext, row: seq<Ext>)
    ensures Horner(alpha, row) == Sum(PowerTerms(alpha, row))
  {
    hide Add, Mul, Pow;
    if row != [] {
      var n := |row| - 1;
      var t, prev := PowerTerms(alpha, row), PowerTerms(alpha, row[..n]);
      HornerIsPowers(alpha, row[..n]);
      forall j | 0 <= j < n ensures t[..n][j] == Mul(prev[j], alpha) {
        PowNext(alpha, n - 1 - j);
        MulAssoc(row[j], Pow(alpha, n - 1 - j), alpha);
      }
      SumScaled(prev, t[..n], alpha);
      PowNext(alpha, 0);
      MulUnits(row[n]);
      MulComm(One6, row[n]);
    }
  }

  // ---- division by x - a ----

  /** The coefficients of the quotient by x - a. */
  function Quotient(a: Ext, row: seq<Ext>): (q: seq<Ext>)
    requires row != []
    ensures |q| == |row| - 1
  {
    seq(|row| - 1, j requires 0 <= j < |row| - 1 => Horner(a, row[..j + 1]))
  }

  lemma QuotientNext(a: Ext, row: seq<Ext>, x: Ext)
    requires row != []
    ensures Quotient(a, row + [x]) == Quotient(a, row) + [Horner(a, row)]
  {
    hide Horner;
    var q, p := Quotient(a, row + [x]), Quotient(a, row) + [Horner(a, row)];
    forall j | 0 <= j < |row| ensures q[j] == p[j] {
      assert (row + [x])[..j + 1] == row[..j + 1];
      assert j == |row| - 1 ==> row[..j + 1] == row;
    }
  }

  /** h x + c = (x - a) (q x + b) + (b a + c) when h = (x - a) q + b. */
  lemma DivisionStep(x: Ext, a: Ext, q: Ext, b: Ext, c: Ext)
    ensures Add(Mul(Add(Mul(Sub(x, a), q), b), x), c)
         == Add(Mul(Sub(x, a), Add(Mul(q, x), b)), Add(Mul(b, a), c))
  {
    hide Add, Mul, Neg, Sub;
    var d := Sub(x, a);
    calc {
      Add(Mul(Add(Mul(d, q), b), x), c);
      { Distrib(Mul(d, q), b, x); }
      Add(Add(Mul(Mul(d, q), x), Mul(b, x)), c);
      { MulAssoc(d, q, x); ProductSplits(x, a, b); }
      Add(Add(Mul(d, Mul(q, x)), Add(Mul(d, b), Mul(b, a))), c);
      { AddAssoc(Mul(d, Mul(q, x)), Mul(d, b), Mul(b, a)); }
      Add(Add(Add(Mul(d, Mul(q, x)), Mul(d, b)), Mul(b, a)), c);
      { Distrib(Mul(q, x), b, d); }
      Add(Add(Mul(d, Add(Mul(q, x), b)), Mul(b, a)), c);
      { AddAssoc(Mul(d, Add(Mul(q, x), b)), Mul(b, a), c); }
      Add(Mul(d, Add(Mul(q, x), b)), Add(Mul(b, a), c));
    }
  }

  lemma ProductSplits(x: Ext, a: Ext, b: Ext)
    ensures Mul(b, x) == Add(Mul(Sub(x, a), b), Mul(b, a))
  {
    hide Add, Mul, Neg;
    SubAdd(x, a);
    Distrib(Sub(x, a), a, b);
    MulComm(b, x);
    MulComm(b, a);
  }

  lemma SubAdd(x: Ext, a: Ext)
    ensures Add(Sub(x, a), a) == x
  {
    hide Add, Neg;
    AddAssoc(x, Neg(a), a);
    AddComm(Neg(a), a);
    AddZero(a);
    AddZero(x);
  }

  lemma SubZero(x: Ext, a: Ext)
    ensures Sub(x, a) == Zero6 <==> x == a
  {
    hide Add, Neg;
    SubAdd(x, a);
    AddZero(a);
  }

  lemma {:induction false} Divides(x: Ext, a: Ext, row: seq<Ext>)
    requires row != []
    ensures Horner(x, row) == Add(Mul(Sub(x, a), Horner(x, Quotient(a, row))), Horner(a, row))
  {
    hide Add, Mul, Sub, Quotient, Horner;
    var n := |row| - 1;
    var p, c := row[..n], row[n];
    assert row == p + [c];
    HornerNext(x, p, c);
    HornerNext(a, p, c);
    if n == 0 {
      DividesOne(x, a, c);
      assert p == [];
    } else {
      Divides(x, a, p);
      QuotientNext(a, p, c);
      HornerNext(x, Quotient(a, p), Horner(a, p));
      DivisionStep(x, a, Horner(x, Quotient(a, p)), Horner(a, p), c);
    }
  }

  lemma DividesOne(x: Ext, a: Ext, c: Ext)
    ensures Horner(x, [c]) == c && Horner(a, [c]) == c && Quotient(a, [c]) == []
    ensures Add(Mul(Sub(x, a), Horner(x, [])), c) == c
  {
    hide Add, Mul, Sub;
    assert [c][..0] == [];
    MulUnits(x);
    MulUnits(a);
    MulUnits(Sub(x, a));
    MulComm(Sub(x, a), Zero6);
    AddZero(c);
  }

  // ---- roots ----

  predicate AllZero(row: seq<Ext>) { forall j :: 0 <= j < |row| ==> row[j] == Zero6 }

  /** All prefixes vanish at a only if the row is zero. */
  lemma {:induction false} ZeroPrefixes(a: Ext, row: seq<Ext>)
    requires forall j :: 0 <= j <= |row| ==> Horner(a, row[..j]) == Zero6
    ensures AllZero(row)
  {
    hide Add, Mul, Horner;
    if row != [] {
      var n := |row| - 1;
      forall j | 0 <= j <= n ensures Horner(a, row[..n][..j]) == Zero6 { assert row[..n][..j] == row[..j]; }
      ZeroPrefixes(a, row[..n]);
      assert row[..n] + [row[n]] == row == row[..|row|];
      HornerNext(a, row[..n], row[n]);
      MulUnits(a);
      AddZero(row[n]);
      assert Horner(a, row[..n]) == Zero6 && Horner(a, row) == Zero6;
      forall j | 0 <= j < |row| ensures row[j] == Zero6 { assert j < n ==> row[..n][j] == row[j]; }
    }
  }

  lemma ZeroQuotient(a: Ext, row: seq<Ext>)
    requires row != [] && Horner(a, row) == Zero6 && AllZero(Quotient(a, row))
    ensures AllZero(row)
  {
    hide Horner, AllZero;
    forall j | 0 <= j <= |row| ensures Horner(a, row[..j]) == Zero6 {
      if j == 0 {
        NoRow(a);
        assert row[..0] == [];
      } else if j < |row| {
        ZeroAt(Quotient(a, row), j - 1);
      } else {
        assert row[..j] == row;
      }
    }
    ZeroPrefixes(a, row);
  }

  lemma ZeroAt(row: seq<Ext>, j: nat)
    requires AllZero(row) && j < |row|
    ensures row[j] == Zero6
  {
  }

  lemma NoRow(a: Ext)
    ensures Horner(a, []) == Zero6
  {
  }

  lemma EmptyOrNot(s: set<Ext>)
    ensures s == {} || exists a :: a in s
  {
  }

  /** A row that is not zero has fewer roots than columns. */
  lemma {:induction false} FewRoots(inv: Ext -> Ext, row: seq<Ext>, s: set<Ext>)
    requires FieldInverse(inv) && !AllZero(row) && forall a :: a in s ==> Horner(a, row) == Zero6
    ensures |s| <= |row| - 1
    decreases |row|
  {
    hide Horner, FieldInverse, Quotient, AllZero;
    SomeColumn(row);
    EmptyOrNot(s);
    if s != {} {
      var a :| a in s;
      forall x | x in s - {a} ensures Horner(x, Quotient(a, row)) == Zero6 { OtherRoot(inv, x, a, row); }
      if AllZero(Quotient(a, row)) { ZeroQuotient(a, row); }
      FewRoots(inv, Quotient(a, row), s - {a});
    }
  }

  lemma SomeColumn(row: seq<Ext>)
    requires !AllZero(row)
    ensures row != []
  {
  }

  lemma OtherRoot(inv: Ext -> Ext, x: Ext, a: Ext, row: seq<Ext>)
    requires FieldInverse(inv) && row != [] && x != a && Horner(x, row) == Zero6 && Horner(a, row) == Zero6
    ensures Horner(x, Quotient(a, row)) == Zero6
  {
    hide Add, Mul, Sub, Horner, Quotient, FieldInverse;
    Divides(x, a, row);
    var q := Horner(x, Quotient(a, row));
    AddZero(Mul(Sub(x, a), q));
    SubZero(x, a);
    if q != Zero6 { NoZeroProduct(inv, Sub(x, a), q); }
  }

  // ---- collisions ----

  function Difference(r: seq<Ext>, q: seq<Ext>): (d: seq<Ext>)
    requires |r| == |q|
    ensures |d| == |r|
  {
    seq(|r|, j requires 0 <= j < |r| => Sub(r[j], q[j]))
  }

  /** (h a + x) - (g a + y) = (h - g) a + (x - y). */
  lemma SubNext(h: Ext, g: Ext, a: Ext, x: Ext, y: Ext)
    ensures Sub(Add(Mul(h, a), x), Add(Mul(g, a), y)) == Add(Mul(Sub(h, g), a), Sub(x, y))
  {
    hide Add, Mul, Sub;
    MulSub(h, g, a);
    SubSum(Mul(h, a), x, Mul(g, a), y);
  }

  lemma SubSum(u: Ext, x: Ext, v: Ext, y: Ext)
    ensures Sub(Add(u, x), Add(v, y)) == Add(Sub(u, v), Sub(x, y))
  {
    hide Add, Neg;
    NegSum(v, y);
    Interchange(u, x, Neg(v), Neg(y));
  }

  lemma Interchange(u: Ext, x: Ext, v: Ext, y: Ext)
    ensures Add(Add(u, x), Add(v, y)) == Add(Add(u, v), Add(x, y))
  {
    hide Add;
    AddAssoc(u, x, Add(v, y));
    AddAssoc(x, v, y);
    AddComm(x, v);
    AddAssoc(v, x, y);
    AddAssoc(u, v, Add(x, y));
  }

  lemma NegSum(v: Ext, y: Ext)
    ensures Neg(Add(v, y)) == Add(Neg(v), Neg(y))
  {
    hide Add, Neg;
    Interchange(v, y, Neg(v), Neg(y));
    AddZero(v);
    AddZero(y);
    AddZero(Zero6);
    NegUnique(Add(v, y), Add(Neg(v), Neg(y)));
  }

  lemma {:induction false} HornerDifference(a: Ext, r: seq<Ext>, q: seq<Ext>)
    requires |r| == |q|
    ensures Horner(a, Difference(r, q)) == Sub(Horner(a, r), Horner(a, q))
  {
    hide Add, Mul, Sub;
    if r == [] {
      SubZero(Zero6, Zero6);
    } else {
      var n := |r| - 1;
      HornerDifference(a, r[..n], q[..n]);
      assert Difference(r, q)[..n] == Difference(r[..n], q[..n]);
      SubNext(Horner(a, r[..n]), Horner(a, q[..n]), a, r[n], q[n]);
    }
  }

  /** Two different rows of width m have the same hash for at most m - 1 values of alpha. */
  lemma FewCollisions(inv: Ext -> Ext, r: seq<Ext>, q: seq<Ext>, s: set<Ext>)
    requires FieldInverse(inv) && |r| == |q| && r != q && forall a :: a in s ==> Horner(a, r) == Horner(a, q)
    ensures |s| <= |r| - 1
  {
    hide Horner, Sub, FieldInverse;
    var d := Difference(r, q);
    forall a | a in s ensures Horner(a, d) == Zero6 {
      HornerDifference(a, r, q);
      SubZero(Horner(a, r), Horner(a, q));
    }
    if AllZero(d) {
      forall j | 0 <= j < |r| ensures r[j] == q[j] {
        assert d[j] == Zero6;
        SubZero(r[j], q[j]);
      }
    }
    FewRoots(inv, d, s);
  }

  /** The row has the hash of one of the rows. */
  predicate Hits(a: Ext, r: seq<Ext>, qs: seq<seq<Ext>>) { exists k :: 0 <= k < |qs| && Horner(a, r) == Horner(a, qs[k]) }

  lemma HitsNext(a: Ext, r: seq<Ext>, qs: seq<seq<Ext>>, q: seq<Ext>)
    requires Hits(a, r, qs + [q])
    ensures Hits(a, r, qs) || Horner(a, r) == Horner(a, q)
  {
    hide Horner;
    var all := qs + [q];
    var k :| 0 <= k < |all| && Horner(a, r) == Horner(a, all[k]);
    if k < |qs| { assert qs[k] == all[k]; }
  }

  lemma Halves(s: set<Ext>, hit: set<Ext>)
    requires hit <= s
    ensures |s| == |s - hit| + |hit|
  {
    assert s == (s - hit) + hit;
  }

  lemma OneMore(n: nat, m: int)
    ensures (n + 1) * m == n * m + m
  {
  }

  /** A row absent from a list of rows has the hash of one of them for at most m - 1 values of
      alpha per row of the list. */
  lemma {:induction false} FewHits(inv: Ext -> Ext, r: seq<Ext>, qs: seq<seq<Ext>>, s: set<Ext>)
    requires FieldInverse(inv) && r !in qs && (forall k :: 0 <= k < |qs| ==> |qs[k]| == |r|)
    requires forall a :: a in s ==> Hits(a, r, qs)
    ensures |s| <= |qs| * (|r| - 1)
    decreases |qs|
  {
    hide Horner, FieldInverse, Hits;
    EmptyOrNot(s);
    if qs == [] {
      if a :| a in s { NoHits(a, r); }
    } else {
      var n := |qs| - 1;
      var rest, q := qs[..n], qs[n];
      assert qs == rest + [q];
      var hit := set a | a in s && Horner(a, r) == Horner(a, q);
      FewCollisions(inv, r, q, hit);
      forall a | a in s - hit ensures Hits(a, r, rest) { HitsNext(a, r, rest, q); }
      FewHits(inv, r, rest, s - hit);
      Halves(s, hit);
      OneMore(n, |r| - 1);
    }
  }

  lemma NoHits(a: Ext, r: seq<Ext>)
    ensures !Hits(a, r, [])
  {
  }

  // ---- the width of the rows matters ----

  lemma ReducedSum(u: int, x: int)
    ensures (u % P + x) % P == (u + x) % P
  {
  }

  lemma LiftedStep(h: Elt, a: Elt, x: Elt, y: Elt)
    requires (h * a + x) % P == y
    ensures Add(Mul(Lift(h), Lift(a)), Lift(x)) == Lift(y)
  {
    hide Add, Mul, Lift;
    ReducedSum(h * a, x);
    LiftMul(h, a);
    LiftAdd(MulElt(h, a), x);
  }

  lemma LiftedHorner(a: Elt, c0: Elt, c1: Elt, c2: Elt, c3: Elt, h1: Elt, h2: Elt, h3: Elt)
    requires (c0 * a + c1) % P == h1 && (h1 * a + c2) % P == h2 && (h2 * a + c3) % P == h3
    ensures Horner(Lift(a), [Lift(c0), Lift(c1), Lift(c2), Lift(c3)]) == Lift(h3)
  {
    hide Add, Mul, Horner, Lift;
    var x, w, y, z := Lift(c0), Lift(c1), Lift(c2), Lift(c3);
    NoRow(Lift(a));
    HornerNext(Lift(a), [], x);
    HornerNext(Lift(a), [x], w);
    HornerNext(Lift(a), [x, w], y);
    HornerNext(Lift(a), [x, w, y], z);
    MulUnits(Lift(a));
    AddZero(x);
    LiftedStep(c0, a, c1, h1);
    LiftedStep(h1, a, c2, h2);
    LiftedStep(h2, a, c3, h3);
    assert [] + [x] == [x] && [x] + [w] == [x, w] && [x, w] + [y] == [x, w, y] && [x, w, y] + [z] == [x, w, y, z];
  }

  function Cubic(): seq<Ext> { [Lift(1), Lift(P - 6), Lift(11), Lift(P - 6)] }
  function ZeroRow(): seq<Ext> { [Lift(0), Lift(0), Lift(0), Lift(0)] }

  /** Two rows of width four with the same hash at three points: more than there are rows. */
  lemma ThreeCollisions(a: Elt)
    requires 1 <= a <= 3
    ensures Cubic() != ZeroRow() && |Cubic()| == |ZeroRow()|
    ensures Horner(Lift(a), Cubic()) == Horner(Lift(a), ZeroRow())
  {
    hide Horner;
    LiftedHorner(a, 0, 0, 0, 0, 0, 0, 0);
    LiftedHorner(a, 1, P - 6, 11, P - 6, if a == 1 then P - 5 else if a == 2 then P - 4 else P - 3, if a == 1 then 6 else if a == 2 then 3 else 2, 0);
    assert Cubic()[0] != ZeroRow()[0];
  }
}
