/** The S-box x^3 is injective modulo P, because 3 does not divide P - 1: a cube root of
    unity other than one would split the nonzero elements into orbits of three. */
module CubeRoots {
  import opened KoalaBear

  function Times(a: int, b: int): Elt { MulMod(a, b, P) }

  lemma TimesAssoc(a: int, b: int, c: int)
    ensures Times(Times(a, b), c) == Times(a, Times(b, c))
  {
    hide MulMod;
    MulModAssoc(a, b, c, P);
  }

  lemma TimesComm(a: int, b: int)
    ensures Times(a, b) == Times(b, a)
  {
  }

  lemma TimesOne(x: Elt)
    ensures Times(1, x) == x
  {
  }

  lemma Cancel(u: Elt, x: Elt)
    requires x != 0 && Times(u, x) == x
    ensures u == 1
  {
    var d: int := u - 1;
    assert d * x == u * x - x;
    ZeroProduct(d, x);
  }

  lemma NonzeroTimes(u: Elt, x: Elt)
    requires u != 0 && x != 0
    ensures Times(u, x) != 0
  {
    if Times(u, x) == 0 { ZeroProduct(u, x); }
  }

  /** u is a cube root of one other than one. */
  predicate CubeRoot(u: Elt) { u != 0 && u != 1 && Times(u, Times(u, u)) == 1 }

  /** Three multiplications by u come back. */
  lemma Back(u: Elt, x: Elt)
    requires CubeRoot(u)
    ensures Times(u, Times(u, Times(u, x))) == x
  {
    hide Times;
    TimesAssoc(u, u, x);
    TimesAssoc(u, Times(u, u), x);
    TimesOne(x);
  }

  ghost predicate Closed(u: Elt, s: set<int>) {
    forall x :: x in s ==> 0 < x < P && Times(u, x) in s
  }

  lemma OrbitDistinct(u: Elt, x: Elt)
    requires CubeRoot(u) && x != 0
    ensures var a, b := Times(u, x), Times(u, Times(u, x)); x != a && a != b && b != x
  {
    hide Times, CubeRoot;
    RootNonzero(u);
    var a := Times(u, x);
    NonzeroTimes(u, x);
    if a == x { Cancel(u, x); }
    if Times(u, a) == a { Cancel(u, a); }
    Back(u, x);
  }

  lemma RootNonzero(u: Elt)
    requires CubeRoot(u)
    ensures u != 0 && u != 1
  {
  }

  lemma ClosedAt(u: Elt, s: set<int>, x: int)
    requires Closed(u, s) && x in s
    ensures 0 < x < P && Times(u, x) in s
  {
  }

  lemma OrbitRemoved(u: Elt, s: set<int>, x: Elt)
    requires CubeRoot(u) && Closed(u, s) && x in s
    ensures Closed(u, s - {x, Times(u, x), Times(u, Times(u, x))})
  {
    hide Times, CubeRoot;
    var t := s - {x, Times(u, x), Times(u, Times(u, x))};
    forall z | z in t ensures 0 < z < P && Times(u, z) in t {
      hide Closed;
      ClosedAt(u, s, z);
      Back(u, z);
      Back(u, x);
    }
  }

  lemma Pick(s: set<int>) returns (x: int)
    requires s != {}
    ensures x in s
  {
    EmptyOrNot(s);
    x :| x in s;
  }

  lemma EmptyOrNot(s: set<int>)
    ensures s == {} || exists x :: x in s
  {
    if forall x :: x !in s { assert s == {}; }
  }

  lemma ThreeFewer(s: set<int>, x: int, a: int, b: int)
    requires x in s && a in s && b in s && x != a && a != b && b != x
    ensures |s - {x, a, b}| == |s| - 3
  {
    assert s - {x, a, b} == s - {x} - {a} - {b};
  }

  /** A set of nonzero elements closed under a cube root of unity has a multiple of three elements. */
  lemma {:induction false} OrbitsOfThree(u: Elt, s: set<int>)
    requires CubeRoot(u) && Closed(u, s)
    ensures |s| % 3 == 0
    decreases |s|
  {
    hide Times, CubeRoot, Closed;
    if s != {} {
      var x := Pick(s);
      ClosedAt(u, s, x);
      var a := Times(u, x);
      ClosedAt(u, s, a);
      OrbitDistinct(u, x);
      OrbitRemoved(u, s, x);
      ThreeFewer(s, x, a, Times(u, a));
      OrbitsOfThree(u, s - {x, a, Times(u, a)});
    }
  }

  /** The numbers 1 to n. */
  ghost function Positive(n: nat): set<int> { if n == 0 then {} else Positive(n - 1) + {n} }

  lemma {:induction false} PositiveSize(n: nat)
    ensures |Positive(n)| == n && forall x :: x in Positive(n) <==> 0 < x <= n
  {
    if n > 0 { PositiveSize(n - 1); }
  }

  lemma NoCubeRoot(u: Elt)
    ensures !CubeRoot(u)
  {
    hide Times;
    PositiveSize(P - 1);
    if CubeRoot(u) {
      forall x | x in Positive(P - 1) ensures Times(u, x) in Positive(P - 1) {
        NonzeroTimes(u, x);
      }
      OrbitsOfThree(u, Positive(P - 1));
    }
  }

  function Cubed(x: Elt): Elt { Times(x, Times(x, x)) }

  lemma {:induction false} Shuffle(a: Elt, b: Elt)
    ensures Times(Times(a, b), Times(a, b)) == Times(Times(a, a), Times(b, b))
  {
    hide Times;
    TimesAssoc(a, b, Times(a, b));
    TimesAssoc(b, a, b);
    TimesComm(b, a);
    TimesAssoc(a, b, b);
    TimesAssoc(a, a, Times(b, b));
  }

  lemma CubedProduct(a: Elt, b: Elt)
    ensures Cubed(Times(a, b)) == Times(Cubed(a), Cubed(b))
  {
    hide Times;
    Shuffle(a, b);
    var aa, bb := Times(a, a), Times(b, b);
    TimesAssoc(a, b, Times(aa, bb));
    TimesAssoc(b, aa, bb);
    TimesComm(b, aa);
    TimesAssoc(aa, b, bb);
    TimesAssoc(a, aa, Times(b, bb));
  }

  lemma InverseTimes(y: Elt)
    requires y != 0
    ensures Times(y, Inv(y)) == 1 && Inv(y) != 0
  {
    hide Inv;
  }

  /** x^3 = y^3 only for x = y. */
  lemma CubedInjective(x: Elt, y: Elt)
    requires Cubed(x) == Cubed(y)
    ensures x == y
  {
    hide Times, Inv;
    if x == 0 || y == 0 {
      CubedZero(x);
      CubedZero(y);
    } else {
      var i := Inv(y);
      InverseTimes(y);
      var u := Times(x, i);
      NonzeroTimes(x, i);
      CubedProduct(x, i);
      CubedProduct(y, i);
      NoCubeRoot(u);
      assert Cubed(1) == 1 by { TimesOne(1); }
      assert u == 1;
      TimesAssoc(x, i, y);
      TimesComm(i, y);
      TimesComm(x, 1);
      TimesOne(x);
      TimesOne(y);
    }
  }

  lemma CubedZero(x: Elt)
    ensures Cubed(x) == 0 <==> x == 0
  {
    hide Times;
    if x != 0 {
      NonzeroTimes(x, x);
      NonzeroTimes(x, Times(x, x));
    } else {
      TimesZero(Times(x, x));
    }
  }

  lemma TimesZero(x: Elt)
    ensures Times(0, x) == 0
  {
  }
}
