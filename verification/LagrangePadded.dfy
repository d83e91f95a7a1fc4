/** One padded column at a base-field point: the barycentric sum accumulated
    from the stored rows, with 1/n folded into the weights.  */
module LagrangePadded {
  import opened KoalaBear
  import opened ExtField
  import opened Expressions
  import opened Columns
  import opened Barycentric
  import opened LagrangeEval
  import Interpolation

  /** The base field's inverse is the extension's. */
  lemma InvOfLift(inv: Ext -> Ext, a: Elt)
    requires FieldInverse(inv)
    ensures inv(Lift(a)) == Lift(Inv(a))
  {
    hide Mul, Inv;
    LiftOne();
    if a != 0 {
      LiftMul(a, Inv(a));
      QuotientUnique(Lift(a), inv(Lift(a)), Lift(Inv(a)), One6);
      MulUnits(inv(Lift(a)));
    }
  }

  /** w_i c with w_i = omega^i / (z - omega^i), from the factors in the source's order. */
  lemma TermOrder(x: Ext, om: Ext, m: Ext, d: Ext)
    ensures Mul(Mul(x, Mul(om, m)), d) == Mul(Mul(Mul(d, om), x), m)
  {
    hide Mul;
    MulAssoc(x, om, m);
    MulComm(x, om);
    MulComm(Mul(x, Mul(om, m)), d);
    MulAssoc(d, Mul(om, x), m);
    MulAssoc(d, om, x);
  }

  /** 1 / (z - omega^i). */
  function InvGap(g: Elt, z: Elt, i: nat): Elt { Inv(SubElt(z, PowMod(g, i, P))) }

  /** omega^i / n. */
  function Share(g: Elt, i: nat, invN: Elt): Elt { MulElt(PowMod(g, i, P), invN) }

  lemma PointGap(inv: Ext -> Ext, g: Elt, z: Elt, i: nat)
    requires FieldInverse(inv)
    ensures Weight(inv, g, Lift(z), i) == Mul(Lift(InvGap(g, z, i)), Point(g, i))
  {
    hide Mul, Lift, PowMod, Inv, Sub;
    var om := PowMod(g, i, P);
    LiftSub(z, om);
    InvOfLift(inv, SubElt(z, om));
  }

  /** The weighted row over its denominator, for an extension-field row x. */
  lemma ExtTerm(inv: Ext -> Ext, g: Elt, z: Elt, i: nat, invN: Elt, x: Ext)
    requires FieldInverse(inv)
    ensures MulByElement(MulByElement(x, Share(g, i, invN)), InvGap(g, z, i))
      == Mul(Mul(Weight(inv, g, Lift(z), i), x), Lift(invN))
  {
    hide Mul, MulByElement, Lift, PowMod, Inv, Weight, InvGap;
    var om := PowMod(g, i, P);
    var wi, d := Share(g, i, invN), InvGap(g, z, i);
    MulByElementIsMul(x, wi);
    MulByElementIsMul(MulByElement(x, wi), d);
    LiftMul(om, invN);
    PointGap(inv, g, z, i);
    TermOrder(x, Lift(om), Lift(invN), Lift(d));
  }

  /** The same entirely in the base field. */
  lemma BaseTerm(inv: Ext -> Ext, g: Elt, z: Elt, i: nat, invN: Elt, x: Elt)
    requires FieldInverse(inv)
    ensures Lift(MulElt(MulElt(Share(g, i, invN), x), InvGap(g, z, i)))
      == Mul(Mul(Weight(inv, g, Lift(z), i), Lift(x)), Lift(invN))
  {
    hide Mul, MulByElement, Lift, Weight, MulElt, Share, InvGap;
    var wi, d := Share(g, i, invN), InvGap(g, z, i);
    ExtTerm(inv, g, z, i, invN, Lift(x));
    MulByElementIsMul(Lift(x), wi);
    LiftMul(wi, x);
    MulComm(Lift(wi), Lift(x));
    MulByElementIsMul(Lift(MulElt(wi, x)), d);
    LiftMul(MulElt(wi, x), d);
  }

  lemma SumRight(s: seq<Ext>, t: seq<Ext>, v: Ext)
    requires |s| == |t| && forall j :: 0 <= j < |s| ==> t[j] == Mul(s[j], v)
    ensures Sum(t) == Mul(Sum(s), v)
  {
    hide Mul, Sum, Products;
    var c := Fill(v, |s|);
    SumConstant(s, c, 0, |s|, v);
    assert Products(s, c)[0..|s|] == t && s[0..|s|] == s by { ProductsAre(s, c, t, v); }
  }

  lemma ProductsAre(s: seq<Ext>, c: seq<Ext>, t: seq<Ext>, v: Ext)
    requires |s| == |t| && c == Fill(v, |s|) && forall j :: 0 <= j < |s| ==> t[j] == Mul(s[j], v)
    ensures Products(s, c)[0..|s|] == t
  {
    hide Mul;
  }

  /** Folding 1/n into the rows and (z^n - 1) into the sum is the barycentric value. */
  lemma Folded(inv: Ext -> Ext, g: Elt, z: Ext, c: seq<Ext>, t: seq<Ext>)
    requires c != [] && |t| == |c|
    requires forall j :: 0 <= j < |c| ==> t[j] == Mul(Terms(inv, g, z, c)[j], Lift(Inv(|c| % P)))
    ensures Mul(Sum(t), Sub(Pow(z, |c|), One6)) == Bary(inv, g, z, c)
  {
    hide Mul, Sum, Terms, Pow, Sub, Lift, Inv;
    var s, m, e := Sum(Terms(inv, g, z, c)), Lift(Inv(|c| % P)), Sub(Pow(z, |c|), One6);
    SumRight(Terms(inv, g, z, c), t, m);
    MulAssoc(s, m, e);
    MulComm(m, e);
  }

  /** z^n by repeated squaring, in the base field. */
  method PowN(z: Elt, n: nat) returns (r: Elt)
    requires DomainSize(n)
    ensures r == PowMod(z, n, P)
  {
    hide PowMod, Pow2, TrailingZeros;
    r := z;
    FirstPower(z);
    NoDoubling();
    for i := 0 to TrailingZeros(n)
      invariant r == PowMod(z, Pow2(i), P)
    {
      PowAdd(z, Pow2(i), Pow2(i), P);
      Doubling(i);
      r := MulElt(r, r);
    }
  }

  lemma FirstPower(z: Elt)
    ensures PowMod(z, 1, P) == z
  {
    MulModOne(z, P);
    assert PowMod(z, 1, P) == MulMod(z, PowMod(z, 0, P), P);
  }

  lemma ScaleBase(z: Elt, n: nat)
    ensures Sub(Pow(Lift(z), n), One6) == Lift(SubElt(PowMod(z, n, P), 1))
  {
    hide Lift, PowMod, Pow, Sub;
    PowOfLift(z, n);
    LiftOne();
    LiftSub(PowMod(z, n, P), 1);
  }

  predicate Placed(pad: Padding, n: nat, cv: ConcreteVector, dataStart: nat) {
    !pad.PadNone? && Fits(pad, n, cv) && dataStart == if pad.PadLeft? then n - Len(cv.plain) else 0
  }

  lemma PlacedAt(pad: Padding, n: nat, cv: ConcreteVector, dataStart: nat, i: nat)
    requires Placed(pad, n, cv, dataStart) && i < n
    ensures Padded(pad, n, cv)[i] ==
      if 0 <= i - dataStart < Len(cv.plain) then At(cv.plain, i - dataStart).val else Lift(cv.padding)
  {
    hide Lift;
    PaddedAt(pad, n, cv, i);
  }

  /** Row k times omega^k / n, without materialising the padded column. */
  method WeightRowsExt(pad: Padding, n: nat, cv: ConcreteVector, gen: Elt, invN: Elt, dataStart: nat)
    returns (weighted: seq<Ext>)
    requires Placed(pad, n, cv, dataStart) && cv.plain.ExtVec?
    ensures |weighted| == n
    ensures forall k :: 0 <= k < n ==> weighted[k] == MulByElement(Padded(pad, n, cv)[k], Share(gen, k, invN))
  {
    hide MulByElement, MulElt, PowMod, Lift, Padded;
    ghost var c := Padded(pad, n, cv);
    weighted := [];
    var acc: Elt := 1;
    PowZero(gen);
    for i := 0 to n
      invariant |weighted| == i && acc == PowMod(gen, i, P)
      invariant forall k :: 0 <= k < i ==> weighted[k] == MulByElement(c[k], Share(gen, k, invN))
    {
      PlacedAt(pad, n, cv, dataStart, i);
      var wi := MulElt(acc, invN);
      if 0 <= i - dataStart < Len(cv.plain) {
        weighted := weighted + [MulByElement(cv.plain.ext[i - dataStart], wi)];
      } else {
        LiftScaled(cv.padding, wi);
        weighted := weighted + [Lift(MulElt(wi, cv.padding))];
      }
      PowStep(gen, i);
      acc := MulElt(acc, gen);
    }
  }

  method WeightRowsBase(pad: Padding, n: nat, cv: ConcreteVector, gen: Elt, invN: Elt, dataStart: nat)
    returns (weighted: seq<Elt>, ghost rows: seq<Elt>)
    requires Placed(pad, n, cv, dataStart) && cv.plain.BaseVec?
    ensures |weighted| == |rows| == n
    ensures forall k :: 0 <= k < n ==> Padded(pad, n, cv)[k] == Lift(rows[k])
    ensures forall k :: 0 <= k < n ==> weighted[k] == MulElt(Share(gen, k, invN), rows[k])
  {
    hide MulElt, PowMod, Lift, Padded;
    weighted, rows := [], [];
    var acc: Elt := 1;
    PowZero(gen);
    for i := 0 to n
      invariant |weighted| == |rows| == i && acc == PowMod(gen, i, P)
      invariant forall k :: 0 <= k < i ==> Padded(pad, n, cv)[k] == Lift(rows[k])
      invariant forall k :: 0 <= k < i ==> weighted[k] == MulElt(Share(gen, k, invN), rows[k])
    {
      PlacedAt(pad, n, cv, dataStart, i);
      var x := if 0 <= i - dataStart < Len(cv.plain) then cv.plain.base[i - dataStart] else cv.padding;
      weighted := weighted + [MulElt(MulElt(acc, invN), x)];
      rows := rows + [x];
      PowStep(gen, i);
      acc := MulElt(acc, gen);
    }
  }

  /** The inverted denominators. */
  method InvGaps(n: nat, gen: Elt, z: Elt) returns (invDenom: seq<Elt>)
    ensures |invDenom| == n && forall k :: 0 <= k < n ==> invDenom[k] == InvGap(gen, z, k)
  {
    hide MulElt, PowMod, Inv, SubElt;
    invDenom := [];
    var acc: Elt := 1;
    PowZero(gen);
    for i := 0 to n
      invariant |invDenom| == i && acc == PowMod(gen, i, P)
      invariant forall k :: 0 <= k < i ==> invDenom[k] == InvGap(gen, z, k)
    {
      invDenom := invDenom + [Inv(SubElt(z, acc))];
      PowStep(gen, i);
      acc := MulElt(acc, gen);
    }
  }

  /** Extension-field rows, base-field padding and point. */
  method EvalPaddedExt(ghost inv: Ext -> Ext, pad: Padding, n: nat, cv: ConcreteVector, z: Elt, dataStart: nat)
    returns (result: Ext)
    requires FieldInverse(inv) && DomainSize(n) && Placed(pad, n, cv, dataStart) && cv.plain.ExtVec?
    ensures result == Bary(inv, Generator(n), Lift(z), Padded(pad, n, cv))
  {
    hide Mul, MulByElement, PowMod, Inv, Lift, Sum, Weight, Padded, Add, Bary, Pow, Sub, TrailingZeros, SubElt, FieldInverse,
         InvGap, Share, Generator;
    var gen := GeneratorOf(n);
    ghost var c := Padded(pad, n, cv);
    var invN := Inv(n % P);
    var zPowN := PowN(z, n);
    var weighted := WeightRowsExt(pad, n, cv, gen, invN, dataStart);
    var invDenom := InvGaps(n, gen, z);
    ghost var t := [];
    var sum := Zero6;
    EmptySum();
    for i := 0 to n
      invariant |t| == i && sum == Sum(t)
      invariant forall k :: 0 <= k < i ==> t[k] == Mul(Mul(Weight(inv, gen, Lift(z), k), c[k]), Lift(invN))
    {
      var term := MulByElement(weighted[i], invDenom[i]);
      ExtTerm(inv, gen, z, i, invN, c[i]);
      SumSnoc(t, term);
      t := t + [term];
      sum := Add(sum, term);
    }
    FoldedTerms(inv, gen, Lift(z), c, t);
    ScaleBase(z, n);
    MulByElementIsMul(sum, SubElt(zPowN, 1));
    result := MulByElement(sum, SubElt(zPowN, 1));
  }

  /** Everything in the base field. */
  method EvalPaddedBase(ghost inv: Ext -> Ext, pad: Padding, n: nat, cv: ConcreteVector, z: Elt, dataStart: nat)
    returns (result: Elt)
    requires FieldInverse(inv) && DomainSize(n) && Placed(pad, n, cv, dataStart) && cv.plain.BaseVec?
    ensures Lift(result) == Bary(inv, Generator(n), Lift(z), Padded(pad, n, cv))
  {
    hide Mul, MulElt, PowMod, Inv, Lift, Sum, Weight, Padded, Add, AddElt, Bary, Pow, Sub, TrailingZeros, SubElt, FieldInverse,
         InvGap, Share, Generator;
    var gen := GeneratorOf(n);
    ghost var c := Padded(pad, n, cv);
    var invN := Inv(n % P);
    var zPowN := PowN(z, n);
    var weighted, rows := WeightRowsBase(pad, n, cv, gen, invN, dataStart);
    var invDenom := InvGaps(n, gen, z);
    ghost var t := [];
    var sum: Elt := 0;
    EmptySum();
    LiftOne();
    for i := 0 to n
      invariant |t| == i && Lift(sum) == Sum(t)
      invariant forall k :: 0 <= k < i ==> t[k] == Mul(Mul(Weight(inv, gen, Lift(z), k), c[k]), Lift(invN))
    {
      var term := MulElt(weighted[i], invDenom[i]);
      BaseTerm(inv, gen, z, i, invN, rows[i]);
      SumSnoc(t, Lift(term));
      LiftAdd(sum, term);
      t := t + [Lift(term)];
      sum := AddElt(sum, term);
    }
    FoldedTerms(inv, gen, Lift(z), c, t);
    ScaleBase(z, n);
    LiftMul(SubElt(zPowN, 1), sum);
    MulComm(Lift(SubElt(zPowN, 1)), Lift(sum));
    result := MulElt(SubElt(zPowN, 1), sum);
  }

  lemma EmptySum()
    ensures Sum([]) == Zero6
  {
  }

  method GeneratorOf(n: nat) returns (g: Elt)
    requires DomainSize(n)
    ensures g == Generator(n)
  {
    g := RootOfUnityBy(TrailingZeros(n));
  }

  lemma LiftScaled(x: Elt, w: Elt)
    ensures Lift(MulElt(w, x)) == MulByElement(Lift(x), w)
  {
    hide Mul, MulByElement, Lift, MulElt;
    MulByElementIsMul(Lift(x), w);
    LiftMul(w, x);
    MulComm(Lift(w), Lift(x));
  }

  lemma SumSnoc(t: seq<Ext>, x: Ext)
    ensures Sum(t + [x]) == Add(Sum(t), x)
  {
    hide Add;
    assert (t + [x])[..|t|] == t;
  }

  lemma FoldedTerms(inv: Ext -> Ext, g: Elt, z: Ext, c: seq<Ext>, t: seq<Ext>)
    requires c != [] && |t| == |c|
    requires forall k :: 0 <= k < |c| ==> t[k] == Mul(Mul(Weight(inv, g, z, k), c[k]), Lift(Inv(|c| % P)))
    ensures Mul(Sum(t), Sub(Pow(z, |c|), One6)) == Bary(inv, g, z, c)
  {
    hide Mul, Weight, Lift, Inv, Sum, Bary, Pow, Sub;
    Folded(inv, g, z, c, t);
  }

  lemma BaseShift(p: Polynomial, z0: Elt)
    requires Usable(p) && p.n > 0 && p.shift != 0
    ensures ShiftedPoint(p, Lift(z0)) == Lift(MulElt(z0, ExpInt(Generator(p.n), p.shift)))
  {
    hide Mul, MulByElement, Lift, MulElt, ExpInt, Generator;
    var w := ExpInt(Generator(p.n), p.shift);
    MulByElementIsMul(Lift(z0), w);
    LiftMul(z0, w);
  }

  /** A padded view at a base-field point: the same value as the shared evaluation gives. */
  method EvalLagrangePadded(ghost inv: Ext -> Ext, p: Polynomial, z0: Elt) returns (r: Gen)
    requires FieldInverse(inv) && Usable(p) && p.n > 0 && !p.pad.PadNone?
    ensures r.val == Value(inv, p, Lift(z0))
    ensures r.isBase == p.column.plain.BaseVec?
  {
    hide MulElt, ExpInt, Generator, Lift, Bary, Padded, Value, FieldInverse, TrailingZeros, ShiftedPoint, Pow2;
    var z := z0;
    if p.shift != 0 {
      var omega := GeneratorOf(p.n);
      z := MulElt(z0, ExpInt(omega, p.shift));
      BaseShift(p, z0);
    } else {
      UnshiftedPoint(p, Lift(z0));
    }
    ValueAtShifted(inv, p, Lift(z0));
    var dataStart := if p.pad.PadLeft? then p.n - Len(p.column.plain) else 0;
    if p.column.plain.BaseVec? {
      var x := EvalPaddedBase(inv, p.pad, p.n, p.column, z, dataStart);
      r := FromBase(x);
    } else {
      var x := EvalPaddedExt(inv, p.pad, p.n, p.column, z, dataStart);
      r := FromExt(x);
    }
  }

  /** A column sampled from a polynomial of degree below n evaluates to that
      polynomial at z, except at domain points where it is not zero. */
  lemma ValueIsPolynomial(inv: Ext -> Ext, p: Polynomial, z: Ext, f: seq<Ext>)
    requires FieldInverse(inv) && Usable(p) && p.n > 0 && |f| <= p.n
    requires Rows(p) == Interpolation.Sampled(Generator(p.n), p.n, f)
    ensures Value(inv, p, z) == Interpolation.PolyAt(f, z)
      <==> Interpolation.OffDomain(Generator(p.n), p.n, z) || Interpolation.PolyAt(f, z) == Zero6
  {
    hide Bary, Rows;
    Interpolation.EvaluatesIff(inv, TrailingZeros(p.n), z, f);
  }
}
