/** Evaluating a batch of columns at one point, with shared weight tables.

    Tables are keyed by domain size and shifted point, rows are processed in
    chunks, and padding rows are summed without materialising the column.  */
module LagrangeEval {
  import opened KoalaBear
  import opened ExtField
  import opened Expressions
  import opened Columns
  import opened Barycentric

  /** A shifted view of an assigned column of a module with n rows. */
  datatype Polynomial = Polynomial(column: ConcreteVector, pad: Padding, n: nat, shift: int)

  function TrailingZeros(n: nat): nat
    requires n > 0
  {
    if n % 2 == 1 then 0 else 1 + TrailingZeros(n / 2)
  }

  lemma {:induction false} TrailingZerosOfPower(k: nat)
    ensures TrailingZeros(Pow2(k)) == k
  {
    if k > 0 { TrailingZerosOfPower(k - 1); }
  }

  /** A size the source has a root of unity for. */
  predicate DomainSize(n: nat) { n > 0 && TrailingZeros(n) <= MaxOrder && n == Pow2(TrailingZeros(n)) }

  function Generator(n: nat): Elt
    requires DomainSize(n)
  {
    Root(TrailingZeros(n))
  }

  lemma GeneratorPower(n: nat)
    requires DomainSize(n)
    ensures PowMod(Generator(n), n, P) == 1
  {
    RootPower(TrailingZeros(n));
  }

  predicate Usable(p: Polynomial) {
    && Fits(p.pad, p.n, p.column)
    && (p.n == 0 ==> p.shift == 0)
    && (p.n > 0 ==> DomainSize(p.n))
  }

  /** All n rows of the shifted column. */
  function Rows(p: Polynomial): (s: seq<Ext>)
    requires Usable(p)
    ensures |s| == p.n
  {
    Rotated(Padded(p.pad, p.n, p.column), p.shift)
  }

  /** The plain barycentric sum over the fully padded, shifted column. */
  function Value(inv: Ext -> Ext, p: Polynomial, z: Ext): Ext
    requires Usable(p)
  {
    if p.n == 0 then Zero6 else Bary(inv, Generator(p.n), z, Rows(p))
  }

  // ---- domains and terms ----

  datatype Domain = Domain(n: nat, z: Ext)
  datatype Term = Term(data: Vec, pad: Elt, dataStart: nat, domain: nat)

  /** The point the unshifted column is evaluated at. */
  function ShiftedPoint(p: Polynomial, z: Ext): Ext
    requires Usable(p)
  {
    if p.shift == 0 then z else MulByElement(z, ExpInt(Generator(p.n), p.shift))
  }

  function DomainOf(p: Polynomial, z: Ext): Domain
    requires Usable(p)
  {
    Domain(if p.pad.PadNone? then Len(p.column.plain) else p.n, ShiftedPoint(p, z))
  }

  function DataStart(p: Polynomial): nat
    requires Usable(p)
  {
    if p.pad.PadLeft? then p.n - Len(p.column.plain) else 0
  }

  predicate TermOf(p: Polynomial, z: Ext, domains: seq<Domain>, t: Term)
    requires Usable(p)
  {
    && t.data == p.column.plain && t.pad == p.column.padding && t.dataStart == DataStart(p)
    && t.domain < |domains| && domains[t.domain] == DomainOf(p, z)
  }

  predicate AllUsable(ps: seq<Polynomial>) { forall i :: 0 <= i < |ps| ==> Usable(ps[i]) }

  predicate Indexed(index: map<Domain, nat>, domains: seq<Domain>) {
    && (forall d :: d in index ==> index[d] < |domains| && domains[index[d]] == d)
    && (forall a :: 0 <= a < |domains| ==> domains[a] in index && index[domains[a]] == a)
  }

  lemma IndexedDistinct(index: map<Domain, nat>, domains: seq<Domain>)
    requires Indexed(index, domains)
    ensures forall a, b :: 0 <= a < b < |domains| ==> domains[a] != domains[b]
  {
  }

  /** One of the first k polynomials is evaluated over d. */
  predicate Wanted(ps: seq<Polynomial>, z: Ext, k: nat, d: Domain)
    requires AllUsable(ps) && k <= |ps|
  {
    exists i :: 0 <= i < k && d == DomainOf(ps[i], z)
  }

  /** One term per polynomial, one domain per distinct (size, point). */
  method CollectDomains(ps: seq<Polynomial>, z: Ext) returns (domains: seq<Domain>, terms: seq<Term>)
    requires AllUsable(ps)
    ensures |terms| == |ps|
    ensures forall i :: 0 <= i < |ps| ==> TermOf(ps[i], z, domains, terms[i])
    ensures forall a, b :: 0 <= a < b < |domains| ==> domains[a] != domains[b]
    ensures forall a :: 0 <= a < |domains| ==> Wanted(ps, z, |ps|, domains[a])
  {
    hide Usable, ShiftedPoint, DataStart;
    domains, terms := [], [];
    var index: map<Domain, nat> := map[];
    for i := 0 to |ps|
      invariant |terms| == i && Indexed(index, domains)
      invariant forall k :: 0 <= k < i ==> TermOf(ps[k], z, domains, terms[k])
      invariant forall a :: 0 <= a < |domains| ==> Wanted(ps, z, i, domains[a])
    {
      var d := DomainOf(ps[i], z);
      var idx;
      if d in index {
        idx := index[d];
      } else {
        idx := |domains|;
        index := index[d := idx];
        domains := domains + [d];
      }
      terms := terms + [Term(ps[i].column.plain, ps[i].column.padding, DataStart(ps[i]), idx)];
    }
    IndexedDistinct(index, domains);
  }

  // ---- weight tables ----

  /** z - omega^j, inverted, times omega^j, for the rows of one chunk, in place. */
  method FillChunk(inv: Ext -> Ext, w: array<Ext>, n: nat, z: Ext, start: nat, end: nat)
    requires DomainSize(n) && w.Length == n && start <= end <= n
    modifies w
    ensures forall j :: start <= j < end ==> w[j] == Weight(inv, Generator(n), z, j)
    ensures forall j :: 0 <= j < n && !(start <= j < end) ==> w[j] == old(w[j])
  {
    hide PowMod, Mul, Sub, Lift, SubBase, MulByElement, TrailingZeros, Pow2;
    var gen := RootOfUnityBy(TrailingZeros(n));
    var first := PowMod(gen, start, P);
    var omega: Elt := first;
    for j := start to end
      invariant omega == PowMod(gen, j, P)
      invariant forall t :: start <= t < j ==> w[t] == Sub(z, Point(gen, t))
      invariant forall t :: 0 <= t < n && !(start <= t < j) ==> w[t] == old(w[t])
    {
      AddBaseIsAdd(z, omega);
      w[j] := SubBase(z, omega);
      PowStep(gen, j);
      omega := MulElt(omega, gen);
    }
    for j := start to end
      invariant forall t :: start <= t < j ==> w[t] == inv(Sub(z, Point(gen, t)))
      invariant forall t :: j <= t < end ==> w[t] == Sub(z, Point(gen, t))
      invariant forall t :: 0 <= t < n && !(start <= t < end) ==> w[t] == old(w[t])
    {
      w[j] := inv(w[j]);
    }
    omega := first;
    for j := start to end
      invariant omega == PowMod(gen, j, P)
      invariant forall t :: start <= t < j ==> w[t] == Weight(inv, gen, z, t)
      invariant forall t :: j <= t < end ==> w[t] == inv(Sub(z, Point(gen, t)))
      invariant forall t :: 0 <= t < n && !(start <= t < end) ==> w[t] == old(w[t])
    {
      MulByElementIsMul(w[j], omega);
      w[j] := MulByElement(w[j], omega);
      PowStep(gen, j);
      omega := MulElt(omega, gen);
    }
  }

  ghost predicate IsTable(inv: Ext -> Ext, d: Domain, w: seq<Ext>) {
    && |w| == d.n
    && (d.n > 0 ==> DomainSize(d.n) && forall j :: 0 <= j < d.n ==> w[j] == Weight(inv, Generator(d.n), d.z, j))
  }

  method BuildTable(inv: Ext -> Ext, d: Domain, chunk: nat) returns (table: seq<Ext>)
    requires chunk > 0 && (d.n > 0 ==> DomainSize(d.n))
    ensures IsTable(inv, d, table)
  {
    hide DomainSize, Weight, Generator;
    var w := new Ext[d.n](_ => Zero6);
    var s := 0;
    while s < d.n
      invariant 0 <= s <= d.n
      invariant forall j :: 0 <= j < s ==> w[j] == Weight(inv, Generator(d.n), d.z, j)
    {
      var end := if s + chunk < d.n then s + chunk else d.n;
      FillChunk(inv, w, d.n, d.z, s, end);
      s := end;
    }
    table := w[..];
  }

  // ---- partial sums ----

  function Products(w: seq<Ext>, c: seq<Ext>): (t: seq<Ext>)
    requires |w| == |c|
    ensures |t| == |w|
  {
    seq(|w|, j requires 0 <= j < |w| => Mul(w[j], c[j]))
  }

  lemma SumNext(s: seq<Ext>, x: nat, j: nat)
    requires x <= j < |s|
    ensures Sum(s[x..j + 1]) == Add(Sum(s[x..j]), s[j])
  {
    hide Add;
    assert s[x..j + 1][..j - x] == s[x..j];
  }

  lemma SumSplit(s: seq<Ext>, x: nat, m: nat, y: nat)
    requires x <= m <= y <= |s|
    ensures Sum(s[x..y]) == Add(Sum(s[x..m]), Sum(s[m..y]))
  {
    hide Add, Sum;
    SumConcat(s[x..m], s[m..y]);
    assert s[x..y] == s[x..m] + s[m..y];
  }

  /** Adds the weights of rows [x, y). */
  method Accumulate(acc: Ext, w: seq<Ext>, x: nat, y: int) returns (r: Ext)
    requires y <= |w|
    ensures x <= y ==> r == Add(acc, Sum(w[x..y]))
    ensures x > y ==> r == acc
  {
    hide Add;
    r := acc;
    AddZero(acc);
    if x > y { return; }
    for j := x to y
      invariant r == Add(acc, Sum(w[x..j]))
    {
      SumNext(w, x, j);
      AddAssoc(acc, Sum(w[x..j]), w[j]);
      r := Add(r, w[j]);
    }
  }

  /** Adds the weighted data rows [ds, de) of a term. */
  method AddData(acc: Ext, w: seq<Ext>, t: Term, ds: nat, de: nat, ghost c: seq<Ext>) returns (r: Ext)
    requires |w| == |c| && t.dataStart <= ds <= de <= t.dataStart + Len(t.data) <= |w|
    requires c[t.dataStart..t.dataStart + Len(t.data)] == Lifted(t.data)
    ensures r == Add(acc, Sum(Products(w, c)[ds..de]))
  {
    hide Add, Mul, MulByElement, Sum, Lift;
    r := acc;
    AddZero(acc);
    var lo := t.dataStart;
    ghost var s := Products(w, c);
    NoSum(s, ds);
    for j := ds to de
      invariant r == Add(acc, Sum(s[ds..j]))
    {
      SumNext(s, ds, j);
      AddAssoc(acc, Sum(s[ds..j]), s[j]);
      assert c[j] == c[lo..lo + Len(t.data)][j - lo];
      var term;
      if t.data.BaseVec? {
        MulByElementIsMul(w[j], t.data.base[j - lo]);
        term := MulByElement(w[j], t.data.base[j - lo]);
      } else {
        term := Mul(w[j], t.data.ext[j - lo]);
      }
      r := Add(r, term);
    }
  }

  lemma NoSum(s: seq<Ext>, x: nat)
    requires x <= |s|
    ensures Sum(s[x..x]) == Zero6
  {
    assert s[x..x] == [];
  }

  /** A stretch of constant rows is the sum of its weights times the constant. */
  lemma {:induction false} SumConstant(w: seq<Ext>, c: seq<Ext>, x: nat, y: nat, v: Ext)
    requires |w| == |c| && x <= y <= |w| && forall j :: x <= j < y ==> c[j] == v
    ensures Sum(Products(w, c)[x..y]) == Mul(Sum(w[x..y]), v)
    decreases y
  {
    hide Add, Mul, Sum;
    if x == y {
      NoSum(w, x);
      NoSum(Products(w, c), x);
      MulUnits(v);
    } else {
      SumConstant(w, c, x, y - 1, v);
      SumNext(Products(w, c), x, y - 1);
      SumNext(w, x, y - 1);
      Distrib(Sum(w[x..y - 1]), w[y - 1], v);
    }
  }

  function Clamp(x: int, lo: int, hi: int): int { if x < lo then lo else if x > hi then hi else x }

  /** The column a term stands for. */
  ghost predicate Spread(t: Term, c: seq<Ext>) {
    && t.dataStart + Len(t.data) <= |c|
    && c[t.dataStart..t.dataStart + Len(t.data)] == Lifted(t.data)
    && forall j :: 0 <= j < |c| && !(t.dataStart <= j < t.dataStart + Len(t.data)) ==> c[j] == Lift(t.pad)
  }

  lemma ThreeStretches(w: seq<Ext>, c: seq<Ext>, t: Term, start: nat, end: nat, a: nat, b: nat)
    requires |w| == |c| && Spread(t, c) && start <= a <= b <= end <= |w|
    requires a <= t.dataStart || a == start
    requires b >= t.dataStart + Len(t.data) || b == end
    ensures Sum(Products(w, c)[start..end]) ==
      Add(Mul(Add(Sum(w[start..a]), Sum(w[b..end])), Lift(t.pad)), Sum(Products(w, c)[a..b]))
  {
    hide Add, Mul, Sum, Products, Lift;
    var s, v := Products(w, c), Lift(t.pad);
    SumSplit(s, start, a, end);
    SumSplit(s, a, b, end);
    SumConstant(w, c, start, a, v);
    SumConstant(w, c, b, end, v);
    Distrib(Sum(w[start..a]), Sum(w[b..end]), v);
    var l, d, r := Sum(s[start..a]), Sum(s[a..b]), Sum(s[b..end]);
    AddComm(d, r);
    AddAssoc(l, r, d);
  }

  /** The share of rows [start, end) in a term's sum, padding rows summed apart. */
  method PartialSum(w: seq<Ext>, t: Term, start: nat, end: nat, ghost c: seq<Ext>) returns (acc: Ext)
    requires |w| == |c| && Spread(t, c) && start <= end <= |w|
    ensures acc == Sum(Products(w, c)[start..end])
  {
    hide Add, Mul, Sum, Products, MulByElement, Lift;
    var lo, hi := t.dataStart, t.dataStart + Len(t.data);
    var ds := if start > lo then start else lo;
    var de := if end < hi then end else hi;
    ghost var a, b := Clamp(lo, start, end), Clamp(hi, start, end);
    ThreeStretches(w, c, t, start, end, a, b);
    ghost var padding := Mul(Add(Sum(w[start..a]), Sum(w[b..end])), Lift(t.pad));
    acc := Zero6;
    if t.pad != 0 {
      var padAcc := Accumulate(Zero6, w, start, if end < lo then end else lo);
      AddZero(Sum(w[start..a]));
      assert padAcc == Sum(w[start..a]) by { NoSum(w, start); }
      ghost var left := padAcc;
      padAcc := Accumulate(padAcc, w, if start > hi then start else hi, end);
      assert padAcc == Add(left, Sum(w[b..end])) by { NoSum(w, end); AddZero(left); }
      MulByElementIsMul(padAcc, t.pad);
      acc := MulByElement(padAcc, t.pad);
    } else {
      LiftOne();
      MulUnits(Add(Sum(w[start..a]), Sum(w[b..end])));
    }
    assert acc == padding;
    if ds >= de {
      assert a == b;
      NoSum(Products(w, c), a);
      AddZero(acc);
      return;
    }
    acc := AddData(acc, w, t, ds, de, c);
  }

  // ---- from terms to values ----

  /** The weighted rows of the unshifted column at the shifted point. */
  ghost function TermsOf(inv: Ext -> Ext, z: Ext, p: Polynomial): (s: seq<Ext>)
    requires Usable(p)
    ensures |s| == p.n
  {
    if p.n == 0 then [] else Terms(inv, Generator(p.n), ShiftedPoint(p, z), Padded(p.pad, p.n, p.column))
  }

  lemma SpreadOf(p: Polynomial, z: Ext, domains: seq<Domain>, t: Term)
    requires Usable(p) && TermOf(p, z, domains, t)
    ensures Spread(t, Padded(p.pad, p.n, p.column))
  {
    hide Lift;
    var c := Padded(p.pad, p.n, p.column);
    var lo, hi := t.dataStart, t.dataStart + Len(t.data);
    assert c[lo..hi] == Lifted(t.data);
  }

  lemma UsableFits(p: Polynomial)
    requires Usable(p)
    ensures Fits(p.pad, p.n, p.column)
  {
  }

  lemma DomainRows(p: Polynomial, z: Ext)
    requires Usable(p)
    ensures DomainOf(p, z).n == p.n
  {
  }

  lemma TableTerms(inv: Ext -> Ext, z: Ext, p: Polynomial, w: seq<Ext>)
    requires Usable(p) && IsTable(inv, DomainOf(p, z), w)
    ensures |w| == p.n && Products(w, Padded(p.pad, p.n, p.column)) == TermsOf(inv, z, p)
  {
    hide Mul, Weight, Generator, ShiftedPoint, Padded, DomainSize;
    DomainRows(p, z);
  }

  lemma RotatedReduced<T>(s: seq<T>, k: int)
    requires s != []
    ensures Rotated(s, k) == Rotated(s, k % |s|)
    ensures Rotated(s, 0) == s
  {
    var n := |s|;
    WrapIsMod(k, n);
    WrapIsMod(k % n, n);
    Remainder(k % n, n, 0, k % n);
    WrapIsMod(0, n);
    Remainder(0, n, 0, 0);
    assert s[0..] + s[..0] == s;
  }

  lemma ShiftedIsPoint(p: Polynomial, z: Ext)
    requires Usable(p) && p.n > 0 && p.shift != 0
    ensures ShiftedPoint(p, z) == Mul(z, Point(Generator(p.n), p.shift % p.n))
  {
    hide Mul, MulByElement, PowMod, ExpInt, Lift, Generator;
    var g := Generator(p.n);
    GeneratorPower(p.n);
    ExpIntReduced(g, p.n, p.shift);
    MulByElementIsMul(z, ExpInt(g, p.shift));
  }

  /** Evaluating the unshifted column at the shifted point gives the polynomial's value. */
  lemma ValueAtShifted(inv: Ext -> Ext, p: Polynomial, z: Ext)
    requires FieldInverse(inv) && Usable(p) && p.n > 0
    ensures Value(inv, p, z) == Bary(inv, Generator(p.n), ShiftedPoint(p, z), Padded(p.pad, p.n, p.column))
    ensures Value(inv, p, z) == Mul(Sum(TermsOf(inv, z, p)), Scale(ShiftedPoint(p, z), p.n))
  {
    hide Mul, Terms, Sum, Scale, Rotated, Padded, Generator, ShiftedPoint, PowMod, Point;
    var g, c, z' := Generator(p.n), Padded(p.pad, p.n, p.column), ShiftedPoint(p, z);
    RotatedReduced(c, p.shift);
    if p.shift == 0 {
      UnshiftedPoint(p, z);
    } else {
      ShiftedIsPoint(p, z);
      GeneratorPower(p.n);
      BaryShift(inv, g, z, c, p.shift % p.n);
    }
    assert Value(inv, p, z) == Bary(inv, g, z', c);
  }

  lemma UnshiftedPoint(p: Polynomial, z: Ext)
    requires Usable(p) && p.shift == 0
    ensures ShiftedPoint(p, z) == z
  {
  }

  // ---- row chunks ----

  datatype RowChunk = RowChunk(owner: nat, start: nat, end: nat)

  function Chunks(owner: nat, n: nat, size: nat, s: nat): seq<RowChunk>
    requires size > 0
    decreases n - s
  {
    if s >= n then [] else [RowChunk(owner, s, if s + size < n then s + size else n)] + Chunks(owner, n, size, s + size)
  }

  method ChunksOf(owner: nat, n: nat, size: nat, out: seq<RowChunk>) returns (r: seq<RowChunk>)
    requires size > 0
    ensures r == out + Chunks(owner, n, size, 0)
  {
    r := out;
    var s := 0;
    while s < n
      invariant r + Chunks(owner, n, size, s) == out + Chunks(owner, n, size, 0)
      decreases n - s
    {
      var c := RowChunk(owner, s, if s + size < n then s + size else n);
      assert r + ([c] + Chunks(owner, n, size, s + size)) == r + [c] + Chunks(owner, n, size, s + size);
      r := r + [c];
      s := s + size;
    }
    assert r + [] == r;
  }

  ghost predicate ChunkOk(prods: seq<seq<Ext>>, c: RowChunk) {
    c.owner < |prods| && c.start <= c.end <= |prods[c.owner]|
  }

  ghost predicate PartsOk(prods: seq<seq<Ext>>, parts: seq<RowChunk>) {
    forall q :: 0 <= q < |parts| ==> ChunkOk(prods, parts[q])
  }

  ghost function Share(prods: seq<seq<Ext>>, c: RowChunk): Ext
    requires ChunkOk(prods, c)
  {
    Sum(prods[c.owner][c.start..c.end])
  }

  /** The shares of owner i among the parts. */
  ghost function Collect(prods: seq<seq<Ext>>, parts: seq<RowChunk>, i: nat): Ext
    requires PartsOk(prods, parts)
  {
    if parts == [] then Zero6
    else
      var c := parts[|parts| - 1];
      Add(Collect(prods, parts[..|parts| - 1], i), if c.owner == i then Share(prods, c) else Zero6)
  }

  lemma {:induction false} CollectConcat(prods: seq<seq<Ext>>, a: seq<RowChunk>, b: seq<RowChunk>, i: nat)
    requires PartsOk(prods, a) && PartsOk(prods, b)
    ensures PartsOk(prods, a + b)
    ensures Collect(prods, a + b, i) == Add(Collect(prods, a, i), Collect(prods, b, i))
    decreases |b|
  {
    hide Add, Share;
    if b == [] {
      assert a + b == a;
      AddZero(Collect(prods, a, i));
    } else {
      var f, c := b[..|b| - 1], b[|b| - 1];
      CollectConcat(prods, a, f, i);
      assert (a + b)[..|a + b| - 1] == a + f;
      AddAssoc(Collect(prods, a, i), Collect(prods, f, i), if c.owner == i then Share(prods, c) else Zero6);
    }
  }

  lemma CollectOne(prods: seq<seq<Ext>>, c: RowChunk, i: nat)
    requires ChunkOk(prods, c)
    ensures Collect(prods, [c], i) == if c.owner == i then Share(prods, c) else Zero6
  {
    hide Add, Share;
    assert [c][..0] == [];
    assert Collect(prods, [], i) == Zero6;
    AddZero(if c.owner == i then Share(prods, c) else Zero6);
  }

  lemma {:induction false} CollectChunks(prods: seq<seq<Ext>>, owner: nat, size: nat, s: nat, i: nat)
    requires size > 0 && owner < |prods| && s <= |prods[owner]|
    ensures PartsOk(prods, Chunks(owner, |prods[owner]|, size, s))
    ensures Collect(prods, Chunks(owner, |prods[owner]|, size, s), i) ==
      if i == owner then Sum(prods[owner][s..]) else Zero6
    decreases |prods[owner]| - s
  {
    hide Add, Sum, Collect;
    var t, n := prods[owner], |prods[owner]|;
    if s == n {
      NoSum(t, n);
      NoParts(prods, i);
      assert t[s..] == t[n..n];
    } else {
      var e := if s + size < n then s + size else n;
      var c := RowChunk(owner, s, e);
      CollectChunks(prods, owner, size, e, i);
      assert Chunks(owner, n, size, s) == [c] + Chunks(owner, n, size, e);
      CollectOne(prods, c, i);
      CollectConcat(prods, [c], Chunks(owner, n, size, e), i);
      SumSplit(t, s, e, n);
      assert t[s..] == t[s..n] && t[e..] == t[e..n];
      AddZero(Zero6);
    }
  }

  lemma NoParts(prods: seq<seq<Ext>>, i: nat)
    ensures Collect(prods, [], i) == Zero6
  {
  }

  /** Each index below n occurs exactly once: an order of work items. */
  ghost predicate Permutation(order: seq<nat>, n: nat) {
    && |order| == n
    && (forall a :: 0 <= a < |order| ==> order[a] < n)
    && (forall a, b :: 0 <= a < b < |order| ==> order[a] != order[b])
    && (forall i :: 0 <= i < n ==> i in order)
  }

  lemma CollectGrows(prods: seq<seq<Ext>>, parts: seq<RowChunk>, owner: nat, size: nat, i: nat)
    requires PartsOk(prods, parts) && size > 0 && owner < |prods|
    requires i == owner ==> Collect(prods, parts, i) == Zero6
    ensures PartsOk(prods, parts + Chunks(owner, |prods[owner]|, size, 0))
    ensures Collect(prods, parts + Chunks(owner, |prods[owner]|, size, 0), i) ==
      if i == owner then Sum(prods[owner]) else Collect(prods, parts, i)
  {
    hide Add, Sum, Collect, Chunks;
    CollectChunks(prods, owner, size, 0, i);
    CollectConcat(prods, parts, Chunks(owner, |prods[owner]|, size, 0), i);
    assert prods[owner][0..] == prods[owner];
    AddZero(Sum(prods[owner]));
    AddZero(Collect(prods, parts, i));
  }

  /** The chunks of every term, owners in the given order. */
  method BuildParts(sizes: seq<nat>, size: nat, order: seq<nat>, ghost prods: seq<seq<Ext>>)
    returns (parts: seq<RowChunk>)
    requires size > 0 && |sizes| == |prods| && Permutation(order, |prods|)
    requires forall i :: 0 <= i < |prods| ==> sizes[i] == |prods[i]|
    ensures PartsOk(prods, parts)
    ensures forall i :: 0 <= i < |prods| ==> Collect(prods, parts, i) == Sum(prods[i])
  {
    hide Sum, Collect, Chunks, PartsOk;
    parts := [];
    assert PartsOk(prods, []) by { NoneOk(prods); }
    forall i { NoParts(prods, i); }
    for k := 0 to |order|
      invariant PartsOk(prods, parts)
      invariant forall i :: 0 <= i < |prods| ==>
        Collect(prods, parts, i) == if i in order[..k] then Sum(prods[i]) else Zero6
    {
      var o := order[k];
      assert o !in order[..k];
      ghost var before := parts;
      parts := ChunksOf(o, sizes[o], size, parts);
      CollectGrows(prods, before, o, size, o);
      forall i | 0 <= i < |prods|
        ensures Collect(prods, parts, i) == if i in order[..k + 1] then Sum(prods[i]) else Zero6 {
        CollectGrows(prods, before, o, size, i);
        assert order[..k + 1] == order[..k] + [o];
      }
    }
    assert order[..|order|] == order;
  }

  lemma NoneOk(prods: seq<seq<Ext>>)
    ensures PartsOk(prods, [])
  {
  }

  ghost predicate Prepared(inv: Ext -> Ext, z: Ext, ps: seq<Polynomial>, domains: seq<Domain>, terms: seq<Term>,
                           weights: seq<seq<Ext>>, prods: seq<seq<Ext>>) {
    && AllUsable(ps) && |terms| == |prods| == |ps| && |weights| == |domains|
    && (forall i :: 0 <= i < |ps| ==> TermOf(ps[i], z, domains, terms[i]) && prods[i] == TermsOf(inv, z, ps[i]))
    && (forall a :: 0 <= a < |domains| ==> IsTable(inv, domains[a], weights[a]))
  }

  /** The work item of one part. */
  method PartSum(inv: Ext -> Ext, z: Ext, ghost ps: seq<Polynomial>, ghost domains: seq<Domain>, terms: seq<Term>,
                 weights: seq<seq<Ext>>, ghost prods: seq<seq<Ext>>, c: RowChunk) returns (sum: Ext)
    requires Prepared(inv, z, ps, domains, terms, weights, prods) && ChunkOk(prods, c)
    ensures c.owner < |terms| && terms[c.owner].domain < |weights|
    ensures sum == Share(prods, c)
  {
    hide Usable, IsTable, TermsOf, Padded, Sum, Products, Spread, DomainOf;
    var t := terms[c.owner];
    ghost var p := ps[c.owner];
    assert TermOf(p, z, domains, t);
    UsableFits(p);
    TableTerms(inv, z, p, weights[t.domain]);
    SpreadOf(p, z, domains, t);
    sum := PartialSum(weights[t.domain], t, c.start, c.end, Padded(p.pad, p.n, p.column));
  }

  /** One sum per part; the parts are picked up in any order. */
  method RunParts(inv: Ext -> Ext, z: Ext, ghost ps: seq<Polynomial>, ghost domains: seq<Domain>, terms: seq<Term>,
                  weights: seq<seq<Ext>>, ghost prods: seq<seq<Ext>>, parts: seq<RowChunk>, schedule: seq<nat>)
    returns (out: seq<Ext>)
    requires Prepared(inv, z, ps, domains, terms, weights, prods)
    requires PartsOk(prods, parts) && Permutation(schedule, |parts|)
    ensures |out| == |parts| && forall q :: 0 <= q < |parts| ==> out[q] == Share(prods, parts[q])
  {
    hide Prepared, Share, ChunkOk;
    var sums := new Ext[|parts|](_ => Zero6);
    for s := 0 to |schedule|
      invariant forall q :: 0 <= q < |parts| && q in schedule[..s] ==> sums[q] == Share(prods, parts[q])
    {
      var p := schedule[s];
      assert p !in schedule[..s];
      sums[p] := PartSum(inv, z, ps, domains, terms, weights, prods, parts[p]);
      assert schedule[..s + 1] == schedule[..s] + [p];
    }
    assert schedule[..|schedule|] == schedule;
    out := sums[..];
  }

  /** Adds every part's sum to its owner's total. */
  method AddUp(count: nat, parts: seq<RowChunk>, sums: seq<Ext>, ghost prods: seq<seq<Ext>>) returns (out: seq<Ext>)
    requires PartsOk(prods, parts) && |sums| == |parts| && count == |prods|
    requires forall q :: 0 <= q < |parts| ==> sums[q] == Share(prods, parts[q])
    ensures |out| == count && forall i :: 0 <= i < count ==> out[i] == Collect(prods, parts, i)
  {
    hide Add, Share;
    var totals := new Ext[count](_ => Zero6);
    for p := 0 to |parts|
      invariant forall i :: 0 <= i < count ==> totals[i] == Collect(prods, parts[..p], i)
    {
      var o := parts[p].owner;
      forall i | 0 <= i < count
        ensures Collect(prods, parts[..p + 1], i) ==
          Add(Collect(prods, parts[..p], i), if o == i then sums[p] else Zero6) {
        assert parts[..p + 1][..p] == parts[..p];
      }
      forall i | 0 <= i < count { AddZero(Collect(prods, parts[..p], i)); }
      totals[o] := Add(totals[o], sums[p]);
    }
    assert parts[..|parts|] == parts;
    out := totals[..];
  }

  lemma {:induction false} PowSum(x: Ext, a: nat, b: nat)
    ensures Pow(x, a + b) == Mul(Pow(x, a), Pow(x, b))
  {
    hide Mul;
    if b == 0 {
      MulUnits(Pow(x, a));
    } else {
      PowSum(x, a, b - 1);
      MulAssoc(Pow(x, a), Pow(x, b - 1), x);
    }
  }

  lemma PowFirst(x: Ext)
    ensures Pow(x, 1) == x
  {
    hide Mul;
    MulUnits(x);
    assert Pow(x, 1) == Mul(Pow(x, 0), x);
  }

  /** (z^n - 1) / n by repeated squaring. */
  method ScaleOf(d: Domain) returns (s: Ext)
    ensures d.n > 0 && DomainSize(d.n) ==> s == Scale(d.z, d.n)
  {
    hide Mul, Pow, Sub, MulByElement, TrailingZeros, Inv, Pow2, Lift;
    s := d.z;
    var k := if d.n == 0 then 64 else TrailingZeros(d.n);
    PowFirst(d.z);
    NoDoubling();
    for i := 0 to k
      invariant s == Pow(d.z, Pow2(i))
    {
      PowSum(d.z, Pow2(i), Pow2(i));
      Doubling(i);
      s := Mul(s, s);
    }
    s := Sub(s, One6);
    var invN := Inv(d.n % P);
    MulByElementIsMul(s, invN);
    s := MulByElement(s, invN);
  }

  lemma NoDoubling()
    ensures Pow2(0) == 1
  {
  }

  lemma Doubling(i: nat)
    ensures Pow2(i + 1) == Pow2(i) + Pow2(i)
  {
  }

  method Tables(inv: Ext -> Ext, domains: seq<Domain>, chunk: nat) returns (weights: seq<seq<Ext>>, scales: seq<Ext>)
    requires chunk > 0
    requires forall a :: 0 <= a < |domains| && domains[a].n > 0 ==> DomainSize(domains[a].n)
    ensures |weights| == |scales| == |domains|
    ensures forall a :: 0 <= a < |domains| ==> IsTable(inv, domains[a], weights[a])
    ensures forall a :: 0 <= a < |domains| && domains[a].n > 0 ==> scales[a] == Scale(domains[a].z, domains[a].n)
  {
    hide IsTable, Scale, DomainSize;
    weights, scales := [], [];
    for i := 0 to |domains|
      invariant |weights| == |scales| == i
      invariant forall a :: 0 <= a < i ==> IsTable(inv, domains[a], weights[a])
      invariant forall a :: 0 <= a < i && domains[a].n > 0 ==> scales[a] == Scale(domains[a].z, domains[a].n)
    {
      var w := BuildTable(inv, domains[i], chunk);
      var s := ScaleOf(domains[i]);
      weights := weights + [w];
      scales := scales + [s];
    }
  }

  lemma WantedSize(ps: seq<Polynomial>, z: Ext, d: Domain)
    requires AllUsable(ps) && Wanted(ps, z, |ps|, d) && d.n > 0
    ensures DomainSize(d.n)
  {
    hide ShiftedPoint, DomainSize;
    var i :| 0 <= i < |ps| && d == DomainOf(ps[i], z);
    DomainRows(ps[i], z);
  }

  /** Every polynomial gets the plain barycentric value of its padded, shifted
      column, for any chunk size, any order of owners and any schedule of parts. */
  method EvalPolynomialsShared(inv: Ext -> Ext, ps: seq<Polynomial>, z: Ext, chunk: nat,
                               order: nat -> seq<nat>, schedule: nat -> seq<nat>) returns (results: seq<Ext>)
    requires FieldInverse(inv) && chunk > 0 && AllUsable(ps)
    requires forall m :: Permutation(order(m), m)
    requires forall m :: Permutation(schedule(m), m)
    ensures |results| == |ps|
    ensures forall i :: 0 <= i < |ps| ==> results[i] == Value(inv, ps[i], z)
  {
    hide Usable, DomainOf, IsTable, Scale, Value, TermsOf, DomainSize, Permutation, Collect, Share, Sum, Mul, ShiftedPoint,
         FieldInverse, PartsOk, Wanted, DataStart, Bary, Padded, Generator;
    var domains, terms := CollectDomains(ps, z);
    forall a | 0 <= a < |domains| && domains[a].n > 0 ensures DomainSize(domains[a].n) {
      WantedSize(ps, z, domains[a]);
    }
    var weights, scales := Tables(inv, domains, chunk);
    ghost var prods := seq(|ps|, i requires 0 <= i < |ps| => TermsOf(inv, z, ps[i]));
    assert Prepared(inv, z, ps, domains, terms, weights, prods);
    var sizes := [];
    for i := 0 to |terms|
      invariant |sizes| == i
      invariant forall k :: 0 <= k < i ==> sizes[k] == |prods[k]|
    {
      assert TermOf(ps[i], z, domains, terms[i]);
      DomainRows(ps[i], z);
      sizes := sizes + [domains[terms[i].domain].n];
    }
    var parts := BuildParts(sizes, chunk, order(|terms|), prods);
    var sums := RunParts(inv, z, ps, domains, terms, weights, prods, parts, schedule(|parts|));
    var totals := AddUp(|terms|, parts, sums, prods);
    results := [];
    for i := 0 to |terms|
      invariant |results| == i
      invariant forall k :: 0 <= k < i ==> results[k] == Value(inv, ps[k], z)
    {
      assert TermOf(ps[i], z, domains, terms[i]);
      var d := terms[i].domain;
      DomainRows(ps[i], z);
      if domains[d].n == 0 {
        NoRows(inv, ps[i], z);
        results := results + [Zero6];
      } else {
        ValueAtShifted(inv, ps[i], z);
        DomainPoint(ps[i], z);
        results := results + [Mul(totals[i], scales[d])];
      }
    }
  }

  lemma NoRows(inv: Ext -> Ext, p: Polynomial, z: Ext)
    requires Usable(p) && p.n == 0
    ensures Value(inv, p, z) == Zero6
  {
  }

  lemma DomainPoint(p: Polynomial, z: Ext)
    requires Usable(p)
    ensures DomainOf(p, z).z == ShiftedPoint(p, z)
  {
  }
}
