/** The E6 chip: rows o = mul (a b) + add a + bs b + hor (o[-1] a) + acc o[-1]. */
module ChipE6 {
  import opened KoalaBear
  import opened Constraints
  import F = ExtField
  import opened Cells

  type Ext = F.Ext

  /** The coefficients of a row; bs may also be -1. */
  datatype Spec = Spec(mul: int, add: int, bs: int, hor: int, acc: int)

  predicate ValidSpec(s: Spec) {
    && (s.mul == 0 || s.mul == 1) && (s.add == 0 || s.add == 1) && (s.bs == 0 || s.bs == 1 || s.bs == -1)
    && (s.hor == 0 || s.hor == 1) && (s.acc == 0 || s.acc == 1)
  }

  datatype Row = Row(a: Ext, b: Ext, o: Ext)

  function SumZ(x: F.Z6, y: F.Z6, z: F.Z6, u: F.Z6, v: F.Z6): F.Z6 {
    F.AddZ(F.AddZ(F.AddZ(F.AddZ(x, y), z), u), v)
  }

  /** The right-hand side, on integer coordinates. */
  function Rhs(s: Spec, prev: Ext, row: Row): F.Z6 {
    SumZ(F.ScaleZ(s.mul, F.MulZ(row.a, row.b)), F.ScaleZ(s.add, row.a), F.ScaleZ(s.bs, row.b),
         F.ScaleZ(s.hor, F.MulZ(prev, row.a)), F.ScaleZ(s.acc, prev))
  }

  predicate Congruent2(x: F.Z2, y: F.Z2) { Zero(x.re - y.re) && Zero(x.im - y.im) }

  /** The constraint, lane by lane; prev is the o of the previous row. */
  predicate RowOk(s: Spec, prev: Ext, row: Row) {
    var rhs := Rhs(s, prev, row);
    Congruent2(row.o.x0, rhs.x0) && Congruent2(row.o.x1, rhs.x1) && Congruent2(row.o.x2, rhs.x2)
  }

  // ---- what the trace computes ----

  function Term(k: int, x: Ext): Ext { if k == 1 then x else if k == -1 then F.Neg(x) else F.Zero6 }

  /** The row's value in the field. */
  function Value(s: Spec, prev: Ext, a: Ext, b: Ext): Ext {
    F.Add(F.Add(F.Add(F.Add(Term(s.mul, F.Mul(a, b)), Term(s.add, a)), Term(s.bs, b)),
          Term(s.hor, F.Mul(prev, a))), Term(s.acc, prev))
  }

  lemma RedScale2(k: int, x: F.Z2)
    requires k == 0 || k == 1
    ensures F.Red2(F.Z2(k * x.re, k * x.im)) == if k == 1 then F.Red2(x) else F.Z2(0, 0)
  {
  }

  lemma RedScale(k: int, x: F.Z6)
    requires k == 0 || k == 1
    ensures F.Red(F.ScaleZ(k, x)) == if k == 1 then F.Red(x) else F.Zero6
  {
    RedScale2(k, x.x0); RedScale2(k, x.x1); RedScale2(k, x.x2);
  }

  lemma RedTerm(k: int, x: Ext)
    requires k == 0 || k == 1 || k == -1
    ensures F.Red(F.ScaleZ(k, x)) == Term(k, x)
  {
    if k != -1 {
      RedScale(k, x);
      F.RedCanonical(x);
    }
  }

  /** Reduction is additive. */
  lemma RedAdd(x: F.Z6, y: F.Z6)
    ensures F.Red(F.AddZ(x, y)) == F.Add(F.Red(x), F.Red(y))
  {
    hide F.Red, F.AddZ;
    F.AddRed(x, F.Red(y));
    F.AddRedRight(x, y);
  }

  lemma RedSum(x: F.Z6, y: F.Z6, z: F.Z6, u: F.Z6, v: F.Z6)
    ensures F.Red(SumZ(x, y, z, u, v)) == F.Add(F.Add(F.Add(F.Add(F.Red(x), F.Red(y)), F.Red(z)), F.Red(u)), F.Red(v))
  {
    hide F.Red, F.AddZ, F.Add;
    RedAdd(x, y);
    RedAdd(F.AddZ(x, y), z);
    RedAdd(F.AddZ(F.AddZ(x, y), z), u);
    RedAdd(F.AddZ(F.AddZ(F.AddZ(x, y), z), u), v);
  }

  lemma RedRhs(s: Spec, prev: Ext, row: Row)
    requires ValidSpec(s)
    ensures F.Red(Rhs(s, prev, row)) == Value(s, prev, row.a, row.b)
  {
    hide F.Red, F.AddZ, F.Add, F.ScaleZ, F.MulZ, Term;
    RedSum(F.ScaleZ(s.mul, F.MulZ(row.a, row.b)), F.ScaleZ(s.add, row.a), F.ScaleZ(s.bs, row.b),
           F.ScaleZ(s.hor, F.MulZ(prev, row.a)), F.ScaleZ(s.acc, prev));
    ProductTerm(s.mul, row.a, row.b);
    RedTerm(s.add, row.a);
    RedTerm(s.bs, row.b);
    ProductTerm(s.hor, prev, row.a);
    RedTerm(s.acc, prev);
  }

  lemma ProductTerm(k: int, x: Ext, y: Ext)
    requires k == 0 || k == 1
    ensures F.Red(F.ScaleZ(k, F.MulZ(x, y))) == Term(k, F.Mul(x, y))
  {
    hide F.Red, F.ScaleZ, F.MulZ;
    RedScale(k, F.MulZ(x, y));
  }

  lemma Congruent2Red(x: F.Z2, y: F.Z2)
    requires F.Canonical2(x)
    ensures Congruent2(x, y) <==> x == F.Red2(y)
  {
  }

  /** The constraints on six lanes say that o is the row's value. */
  lemma RowExact(s: Spec, prev: Ext, row: Row)
    requires ValidSpec(s)
    ensures RowOk(s, prev, row) <==> row.o == Value(s, prev, row.a, row.b)
  {
    var rhs := Rhs(s, prev, row);
    hide Rhs, Congruent2, F.Red2, Value;
    RedRhs(s, prev, row);
    Congruent2Red(row.o.x0, rhs.x0);
    Congruent2Red(row.o.x1, rhs.x1);
    Congruent2Red(row.o.x2, rhs.x2);
  }

  // ---- instructions ----

  /** An operand: unused, or an access of a cell. */
  datatype Line = Line(spec: Spec, a: Option<Slot>, b: Option<Slot>, o: Option<Slot>)

  datatype Op =
    | Mul(a: nat, b: nat, out: nat)
    | Add(a: nat, b: nat, out: nat)
    | Sub(a: nat, b: nat, out: nat)
    | Div(n: nat, d: nat, out: nat)
    | Eq(a: nat, b: nat)
    | Horner(y: nat, coeffs: seq<nat>, out: nat)
    | Chain(init: nat, xs: seq<nat>, ys: seq<nat>, outs: seq<nat>)

  predicate ValidOp(op: Op) {
    match op
    case Horner(_, coeffs, _) => coeffs != []
    case Chain(_, xs, ys, outs) => |xs| == |ys| == |outs| && xs != []
    case _ => true
  }

  function Rd(addr: nat): Option<Slot> { Some(Slot(addr, false)) }
  function Wr(addr: nat): Option<Slot> { Some(Slot(addr, true)) }

  function HornerLine(op: Op, i: nat): Line
    requires op.Horner? && i < |op.coeffs|
  {
    Line(Spec(0, 0, 1, if i == 0 then 0 else 1, 0), if i == 0 then None else Rd(op.y), Rd(op.coeffs[i]),
         if i == |op.coeffs| - 1 then Wr(op.out) else None)
  }

  function ChainLine(op: Op, i: nat): Line
    requires op.Chain? && |op.xs| == |op.ys| == |op.outs| && i <= |op.xs|
  {
    if i == 0 then Line(Spec(0, 1, 0, 0, 0), Rd(op.init), None, None)
    else Line(Spec(1, 0, 0, 0, 1), Rd(op.xs[i - 1]), Rd(op.ys[i - 1]), Wr(op.outs[i - 1]))
  }

  /** The rows of an instruction. */
  function Lines(op: Op): seq<Line>
    requires ValidOp(op)
  {
    match op
    case Mul(a, b, out) => [Line(Spec(1, 0, 0, 0, 0), Rd(a), Rd(b), Wr(out))]
    case Add(a, b, out) => [Line(Spec(0, 1, 1, 0, 0), Rd(a), Rd(b), Wr(out))]
    case Sub(a, b, out) => [Line(Spec(0, 1, -1, 0, 0), Rd(a), Rd(b), Wr(out))]
    case Div(n, d, out) => [Line(Spec(1, 0, 0, 0, 0), Rd(d), Wr(out), Rd(n))]
    case Eq(a, b) => [Line(Spec(0, 1, 0, 0, 0), Rd(a), None, Rd(b))]
    case Horner(_, coeffs, _) => seq(|coeffs|, i requires 0 <= i < |coeffs| => HornerLine(op, i))
    case Chain(_, xs, _, _) => seq(|xs| + 1, i requires 0 <= i <= |xs| => ChainLine(op, i))
  }

  predicate LaneAgrees(s: Option<Slot>, x: Ext, mem: Memory) {
    s.Some? ==> s.value.addr < |mem| && mem[s.value.addr] == E6Cell(x)
  }

  /** The row's accesses agree with the memory. */
  predicate Agrees(l: Line, row: Row, mem: Memory) {
    LaneAgrees(l.a, row.a, mem) && LaneAgrees(l.b, row.b, mem) && LaneAgrees(l.o, row.o, mem)
  }

  function PrevOf(rows: seq<Row>, i: nat, before: Ext): Ext
    requires i <= |rows|
  { if i == 0 then before else rows[i - 1].o }

  /** The rows of an instruction meet the constraints and the accesses. */
  predicate RowsHold(lines: seq<Line>, before: Ext, rows: seq<Row>, mem: Memory) {
    && |rows| == |lines|
    && forall i :: 0 <= i < |rows| ==> RowOk(lines[i].spec, PrevOf(rows, i, before), rows[i]) && Agrees(lines[i], rows[i], mem)
  }

  function At(mem: Memory, addr: nat): Ext
    requires addr < |mem|
  { CellE6(mem[addr]) }

  lemma Read(s: Option<Slot>, x: Ext, mem: Memory)
    requires LaneAgrees(s, x, mem) && s.Some?
    ensures x == At(mem, s.value.addr) && mem[s.value.addr] == E6Cell(At(mem, s.value.addr))
  {
    E6CellRoundTrip(x);
  }

  // ---- the rows' values ----

  lemma Zeros(x: Ext)
    ensures F.Add(x, F.Zero6) == x && F.Add(F.Zero6, x) == x
  {
    F.AddZero(x);
  }

  lemma MulValue(prev: Ext, a: Ext, b: Ext)
    ensures Value(Spec(1, 0, 0, 0, 0), prev, a, b) == F.Mul(a, b)
  {
    hide F.Add, F.Mul;
    Zeros(F.Mul(a, b));
  }

  lemma AddValue(prev: Ext, a: Ext, b: Ext)
    ensures Value(Spec(0, 1, 1, 0, 0), prev, a, b) == F.Add(a, b)
    ensures Value(Spec(0, 1, -1, 0, 0), prev, a, b) == F.Sub(a, b)
  {
    hide F.Add, F.Mul, F.Neg;
    Zeros(a);
    Zeros(F.Add(a, b));
    Zeros(F.Add(a, F.Neg(b)));
  }

  lemma CopyValue(prev: Ext, a: Ext, b: Ext)
    ensures Value(Spec(0, 1, 0, 0, 0), prev, a, b) == a
    ensures Value(Spec(0, 0, 1, 0, 0), prev, a, b) == b
  {
    hide F.Add, F.Mul;
    Zeros(a);
    Zeros(b);
    Zeros(F.Zero6);
  }

  lemma HornerStep(prev: Ext, a: Ext, b: Ext)
    ensures Value(Spec(0, 0, 1, 1, 0), prev, a, b) == F.Add(F.Mul(prev, a), b)
  {
    hide F.Add, F.Mul;
    Zeros(F.Zero6);
    Zeros(b);
    F.AddComm(b, F.Mul(prev, a));
    Zeros(F.Add(b, F.Mul(prev, a)));
  }

  lemma ChainStep(prev: Ext, a: Ext, b: Ext)
    ensures Value(Spec(1, 0, 0, 0, 1), prev, a, b) == F.Add(prev, F.Mul(a, b))
  {
    hide F.Add, F.Mul;
    Zeros(F.Mul(a, b));
    F.AddComm(prev, F.Mul(a, b));
  }

  // ---- what execution computes ----

  /** Horner's rule over the first n coefficients. */
  function HornerAt(y: Ext, cs: seq<Ext>, n: nat): Ext
    requires n <= |cs|
  { if n == 0 then F.Zero6 else F.Add(F.Mul(HornerAt(y, cs, n - 1), y), cs[n - 1]) }

  /** The n-th partial sum. */
  function ChainAt(init: Ext, xs: seq<Ext>, ys: seq<Ext>, n: nat): Ext
    requires n <= |xs| == |ys|
  { if n == 0 then init else F.Add(ChainAt(init, xs, ys, n - 1), F.Mul(xs[n - 1], ys[n - 1])) }

  function LoadE6(mem: Memory, src: seq<nat>): (r: seq<Ext>)
    requires InMemory(src, mem)
    ensures |r| == |src|
  { seq(|src|, i requires 0 <= i < |src| => At(mem, src[i])) }

  predicate InBounds(op: Op, mem: Memory) {
    match op
    case Mul(a, b, out) => a < |mem| && b < |mem| && out < |mem|
    case Add(a, b, out) => a < |mem| && b < |mem| && out < |mem|
    case Sub(a, b, out) => a < |mem| && b < |mem| && out < |mem|
    case Div(n, d, out) => n < |mem| && d < |mem| && out < |mem|
    case Eq(a, b) => a < |mem| && b < |mem|
    case Horner(y, coeffs, out) => y < |mem| && InMemory(coeffs, mem) && out < |mem|
    case Chain(init, xs, ys, outs) => init < |mem| && InMemory(xs, mem) && InMemory(ys, mem) && InMemory(outs, mem)
  }

  /** The n-th partial sum of a chain. */
  function ChainOf(op: Op, mem: Memory, n: nat): Ext
    requires op.Chain? && ValidOp(op) && InBounds(op, mem) && n <= |op.xs|
  { ChainAt(At(mem, op.init), LoadE6(mem, op.xs), LoadE6(mem, op.ys), n) }

  function HornerOf(op: Op, mem: Memory, n: nat): Ext
    requires op.Horner? && ValidOp(op) && InBounds(op, mem) && n <= |op.coeffs|
  { HornerAt(At(mem, op.y), LoadE6(mem, op.coeffs), n) }

  /** The cells execution writes; None on a zero divisor. */
  function Writes(op: Op, inv: Ext -> Ext, mem: Memory): Option<seq<Write>>
    requires ValidOp(op) && InBounds(op, mem)
  {
    match op
    case Mul(a, b, out) => Some([Write(out, E6Cell(F.Mul(At(mem, a), At(mem, b))))])
    case Add(a, b, out) => Some([Write(out, E6Cell(F.Add(At(mem, a), At(mem, b))))])
    case Sub(a, b, out) => Some([Write(out, E6Cell(F.Sub(At(mem, a), At(mem, b))))])
    case Div(n, d, out) =>
      if At(mem, d) == F.Zero6 then None else Some([Write(out, E6Cell(F.Mul(inv(At(mem, d)), At(mem, n))))])
    case Eq(_, _) => Some([])
    case Horner(y, coeffs, out) =>
      Some([Write(out, E6Cell(HornerOf(op, mem, |coeffs|)))])
    case Chain(init, xs, ys, outs) =>
      Some(seq(|xs|, i requires 0 <= i < |xs| =>
        Write(outs[i], E6Cell(ChainOf(op, mem, i + 1)))))
  }

  // ---- soundness ----

  /** No division by a non-invertible value. */
  predicate Divides(op: Op, inv: Ext -> Ext, mem: Memory)
    requires InBounds(op, mem)
  {
    op.Div? ==> At(mem, op.d) != F.Zero6 && F.Mul(At(mem, op.d), inv(At(mem, op.d))) == F.One6
  }

  lemma RowIs(lines: seq<Line>, before: Ext, rows: seq<Row>, mem: Memory, i: nat)
    requires RowsHold(lines, before, rows, mem) && i < |rows| && ValidSpec(lines[i].spec)
    ensures rows[i].o == Value(lines[i].spec, PrevOf(rows, i, before), rows[i].a, rows[i].b)
    ensures Agrees(lines[i], rows[i], mem)
  {
    hide RowOk, Value;
    RowExact(lines[i].spec, PrevOf(rows, i, before), rows[i]);
  }

  lemma BinarySound(op: Op, inv: Ext -> Ext, before: Ext, rows: seq<Row>, mem: Memory)
    requires ValidOp(op) && InBounds(op, mem) && RowsHold(Lines(op), before, rows, mem) && Divides(op, inv, mem)
    requires !op.Horner? && !op.Chain?
    ensures Writes(op, inv, mem).Some? && Stored(Writes(op, inv, mem).value, mem)
    ensures op.Eq? ==> mem[op.a] == mem[op.b]
  {
    hide RowsHold, Value, F.Mul, F.Add, F.Sub;
    var l := Lines(op)[0];
    RowCount(Lines(op), before, rows, mem);
    RowIs(Lines(op), before, rows, mem, 0);
    var row, prev := rows[0], PrevOf(rows, 0, before);
    match op
    case Mul(_, _, _) => Read(l.a, row.a, mem); Read(l.b, row.b, mem); MulValue(prev, row.a, row.b);
    case Add(_, _, _) => Read(l.a, row.a, mem); Read(l.b, row.b, mem); AddValue(prev, row.a, row.b);
    case Sub(_, _, _) => Read(l.a, row.a, mem); Read(l.b, row.b, mem); AddValue(prev, row.a, row.b);
    case Div(n, d, _) =>
      Read(l.a, row.a, mem); Read(l.o, row.o, mem); MulValue(prev, row.a, row.b);
      F.QuotientUnique(row.a, inv(row.a), row.b, row.o);
    case Eq(_, _) => CopyValue(prev, row.a, row.b);
  }

  lemma RowCount(lines: seq<Line>, before: Ext, rows: seq<Row>, mem: Memory)
    requires RowsHold(lines, before, rows, mem)
    ensures |rows| == |lines|
  {
    hide RowOk, Agrees;
  }

  lemma HornerZero(y: Ext, c: Ext)
    ensures F.Add(F.Mul(F.Zero6, y), c) == c
  {
    hide F.Mul, F.Add;
    F.MulUnits(y);
    Zeros(c);
  }

  lemma {:induction false} HornerRows(op: Op, before: Ext, rows: seq<Row>, mem: Memory, i: nat)
    requires op.Horner? && ValidOp(op) && InBounds(op, mem) && RowsHold(Lines(op), before, rows, mem) && i < |rows| == |op.coeffs|
    ensures rows[i].o == HornerOf(op, mem, i + 1)
  {
    hide RowsHold, Value, F.Mul, F.Add;
    var lines, row, prev := Lines(op), rows[i], PrevOf(rows, i, before);
    assert lines[i] == HornerLine(op, i);
    RowIs(lines, before, rows, mem, i);
    Read(lines[i].b, row.b, mem);
    if i == 0 {
      CopyValue(prev, row.a, row.b);
      HornerZero(At(mem, op.y), row.b);
      assert HornerOf(op, mem, 0) == F.Zero6;
    } else {
      HornerRows(op, before, rows, mem, i - 1);
      Read(lines[i].a, row.a, mem);
      HornerStep(prev, row.a, row.b);
    }
  }

  lemma {:induction false} ChainRows(op: Op, before: Ext, rows: seq<Row>, mem: Memory, i: nat)
    requires op.Chain? && ValidOp(op) && InBounds(op, mem) && RowsHold(Lines(op), before, rows, mem) && i < |rows| == |op.xs| + 1
    ensures rows[i].o == ChainOf(op, mem, i)
  {
    hide RowsHold, Value, F.Mul, F.Add;
    var lines, row, prev := Lines(op), rows[i], PrevOf(rows, i, before);
    assert lines[i] == ChainLine(op, i);
    RowIs(lines, before, rows, mem, i);
    Read(lines[i].a, row.a, mem);
    if i == 0 {
      CopyValue(prev, row.a, row.b);
    } else {
      ChainRows(op, before, rows, mem, i - 1);
      Read(lines[i].b, row.b, mem);
      ChainStep(prev, row.a, row.b);
    }
  }

  lemma ChainStored(op: Op, before: Ext, rows: seq<Row>, mem: Memory, i: nat)
    requires op.Chain? && ValidOp(op) && InBounds(op, mem) && RowsHold(Lines(op), before, rows, mem) && i < |op.xs| && |rows| == |op.xs| + 1
    ensures mem[op.outs[i]] == E6Cell(ChainOf(op, mem, i + 1))
  {
    hide RowsHold, Value, ChainOf;
    assert Lines(op)[i + 1] == ChainLine(op, i + 1);
    RowIs(Lines(op), before, rows, mem, i + 1);
    ChainRows(op, before, rows, mem, i + 1);
  }

  /** Any rows that meet the constraints and the accesses give every written cell the value
      execution computes, if no divisor is zero; an equality assertion then holds. */
  lemma E6Sound(op: Op, inv: Ext -> Ext, before: Ext, rows: seq<Row>, mem: Memory)
    requires ValidOp(op) && InBounds(op, mem) && RowsHold(Lines(op), before, rows, mem) && Divides(op, inv, mem)
    ensures Writes(op, inv, mem).Some? && Stored(Writes(op, inv, mem).value, mem)
    ensures op.Eq? ==> mem[op.a] == mem[op.b]
  {
    hide RowsHold, HornerOf, ChainOf, Value;
    RowCount(Lines(op), before, rows, mem);
    if op.Horner? {
      var n := |op.coeffs| - 1;
      assert Lines(op)[n] == HornerLine(op, n);
      RowIs(Lines(op), before, rows, mem, n);
      HornerRows(op, before, rows, mem, n);
    } else if op.Chain? {
      forall i | 0 <= i < |op.xs|
        ensures mem[op.outs[i]] == E6Cell(ChainOf(op, mem, i + 1))
      {
        ChainStored(op, before, rows, mem, i);
      }
    } else {
      BinarySound(op, inv, before, rows, mem);
    }
  }

  // ---- closed forms ----

  /** The terms i < k of c_0 y^(n-1) + ... + c_(n-1). */
  function Poly(y: Ext, cs: seq<Ext>, n: nat, k: nat): Ext
    requires k <= n <= |cs|
  {
    if k == 0 then F.Zero6 else F.Add(Poly(y, cs, n, k - 1), F.Mul(cs[k - 1], F.Pow(y, n - k)))
  }

  /** One more coefficient shifts every exponent by one. */
  lemma {:induction false} PolyShift(y: Ext, cs: seq<Ext>, n: nat, k: nat)
    requires k <= n < |cs|
    ensures Poly(y, cs, n + 1, k) == F.Mul(Poly(y, cs, n, k), y)
  {
    hide F.Mul, F.Add;
    if k == 0 {
      F.MulUnits(y);
    } else {
      PolyShift(y, cs, n, k - 1);
      var c, e := cs[k - 1], F.Pow(y, n - k);
      F.MulAssoc(c, e, y);
      F.Distrib(Poly(y, cs, n, k - 1), F.Mul(c, e), y);
    }
  }

  /** Horner's rule evaluates the polynomial. */
  lemma {:induction false} HornerIsPoly(y: Ext, cs: seq<Ext>, n: nat)
    requires n <= |cs|
    ensures HornerAt(y, cs, n) == Poly(y, cs, n, n)
  {
    hide F.Mul, F.Add;
    if n > 0 {
      HornerIsPoly(y, cs, n - 1);
      PolyShift(y, cs, n - 1, n - 1);
      PowZero(y);
      F.MulUnits(cs[n - 1]);
    }
  }

  lemma PowZero(y: Ext)
    ensures F.Pow(y, 0) == F.One6
  {
  }

  /** The value PowBits computes from its bits: the product of the factors b (g - 1) + 1. */
  function PowBitsAt(bits: seq<Ext>, gs: seq<Elt>, n: nat): Ext
    requires n <= |bits| == |gs|
  {
    if n == 0 then F.One6
    else F.Mul(PowBitsAt(bits, gs, n - 1), F.Add(F.Mul(bits[n - 1], F.Lift(SubElt(gs[n - 1], 1))), F.Lift(1)))
  }

  /** The product of the constants whose bit is set. */
  function Product(bits: seq<bool>, gs: seq<Elt>, n: nat): Elt
    requires n <= |bits| == |gs|
  {
    if n == 0 then 1 else MulElt(Product(bits, gs, n - 1), Chosen(bits[n - 1], gs[n - 1]))
  }

  function BitElt(b: bool): Elt { if b then 1 else 0 }
  function Chosen(b: bool, g: Elt): Elt { if b then g else 1 }

  lemma BitFactor(b: bool, g: Elt)
    ensures F.Add(F.Mul(F.Lift(BitElt(b)), F.Lift(SubElt(g, 1))), F.Lift(1)) == F.Lift(Chosen(b, g))
  {
    hide F.Mul, F.Add;
    F.LiftMul(BitElt(b), SubElt(g, 1));
    F.LiftAdd(MulElt(BitElt(b), SubElt(g, 1)), 1);
    FactorElt(b, g);
  }

  lemma FactorElt(b: bool, g: Elt)
    ensures AddElt(MulElt(BitElt(b), SubElt(g, 1)), 1) == Chosen(b, g)
  {
  }

  /** On bit cells PowBits is the product of the selected constants, in the base field. */
  lemma {:induction false} PowBitsIsProduct(bits: seq<bool>, xs: seq<Ext>, gs: seq<Elt>, n: nat)
    requires n <= |bits| == |gs| == |xs| && forall i :: 0 <= i < |bits| ==> xs[i] == F.Lift(BitElt(bits[i]))
    ensures PowBitsAt(xs, gs, n) == F.Lift(Product(bits, gs, n))
  {
    hide F.Mul, F.Add, MulElt, SubElt;
    if n > 0 {
      PowBitsIsProduct(bits, xs, gs, n - 1);
      BitFactor(bits[n - 1], gs[n - 1]);
      F.LiftMul(Product(bits, gs, n - 1), Chosen(bits[n - 1], gs[n - 1]));
    }
  }

  // ---- completeness ----

  predicate IsE6(c: Cell) { c[6] == 0 && c[7] == 0 }

  lemma E6Kind(c: Cell)
    requires IsE6(c)
    ensures c == E6Cell(CellE6(c))
  {
  }

  function Operand(s: Option<Slot>, mem: Memory): Ext
    requires s.Some? ==> s.value.addr < |mem|
  { if s.Some? then At(mem, s.value.addr) else F.Zero6 }

  predicate LineInBounds(l: Line, mem: Memory) {
    && (l.a.Some? ==> l.a.value.addr < |mem|) && (l.b.Some? ==> l.b.value.addr < |mem|)
    && (l.o.Some? ==> l.o.value.addr < |mem|)
  }

  /** A row as traced: the operands from their cells, zero when unused, and o by the formula. */
  function TraceRow(l: Line, prev: Ext, mem: Memory): Row
    requires LineInBounds(l, mem)
  {
    var a, b := Operand(l.a, mem), Operand(l.b, mem);
    Row(a, b, Value(l.spec, prev, a, b))
  }

  predicate TracedRows(lines: seq<Line>, before: Ext, rows: seq<Row>, mem: Memory) {
    && |rows| == |lines|
    && forall i :: 0 <= i < |lines| ==> LineInBounds(lines[i], mem) && rows[i] == TraceRow(lines[i], PrevOf(rows, i, before), mem)
  }

  method Trace(lines: seq<Line>, before: Ext, mem: Memory) returns (rows: seq<Row>)
    requires forall i :: 0 <= i < |lines| ==> LineInBounds(lines[i], mem)
    ensures TracedRows(lines, before, rows, mem)
  {
    hide Value;
    var prev := before;
    rows := [];
    for i := 0 to |lines|
      invariant |rows| == i && prev == PrevOf(rows, i, before)
      invariant forall k :: 0 <= k < i ==> rows[k] == TraceRow(lines[k], PrevOf(rows, k, before), mem)
    {
      var row := TraceRow(lines[i], prev, mem);
      rows := rows + [row];
      prev := row.o;
    }
  }

  /** The cells the instruction reads hold E6 values, and its equality holds. */
  predicate Typed(op: Op, mem: Memory)
    requires InBounds(op, mem)
  {
    match op
    case Mul(a, b, _) => IsE6(mem[a]) && IsE6(mem[b])
    case Add(a, b, _) => IsE6(mem[a]) && IsE6(mem[b])
    case Sub(a, b, _) => IsE6(mem[a]) && IsE6(mem[b])
    case Div(n, d, _) => IsE6(mem[n]) && IsE6(mem[d])
    case Eq(a, b) => IsE6(mem[a]) && mem[a] == mem[b]
    case Horner(y, coeffs, _) => IsE6(mem[y]) && forall i :: 0 <= i < |coeffs| ==> IsE6(mem[coeffs[i]])
    case Chain(init, xs, ys, _) =>
      IsE6(mem[init]) && forall i :: 0 <= i < |xs| && i < |ys| ==> IsE6(mem[xs[i]]) && IsE6(mem[ys[i]])
  }

  lemma ReadBack(addr: nat, mem: Memory)
    requires addr < |mem| && IsE6(mem[addr])
    ensures LaneAgrees(Rd(addr), At(mem, addr), mem)
  {
    E6Kind(mem[addr]);
  }

  lemma WriteBack(addr: nat, x: Ext, mem: Memory)
    requires addr < |mem| && mem[addr] == E6Cell(x)
    ensures LaneAgrees(Wr(addr), x, mem) && At(mem, addr) == x
  {
    E6CellRoundTrip(x);
  }

  lemma BinaryAgrees(op: Op, inv: Ext -> Ext, before: Ext, rows: seq<Row>, mem: Memory)
    requires ValidOp(op) && InBounds(op, mem) && Typed(op, mem) && Divides(op, inv, mem) && !op.Horner? && !op.Chain?
    requires Writes(op, inv, mem).Some? && Stored(Writes(op, inv, mem).value, mem)
    requires |rows| == 1 && TracedRows(Lines(op), before, rows, mem)
    ensures Agrees(Lines(op)[0], rows[0], mem)
  {
    hide F.Mul, F.Add, F.Sub, Value;
    var row := rows[0];
    if !op.Eq? { assert mem[op.out] == Writes(op, inv, mem).value[0].val; }
    match op
    case Mul(a, b, out) => ReadBack(a, mem); ReadBack(b, mem); MulValue(before, row.a, row.b); WriteBack(out, row.o, mem);
    case Add(a, b, out) => ReadBack(a, mem); ReadBack(b, mem); AddValue(before, row.a, row.b); WriteBack(out, row.o, mem);
    case Sub(a, b, out) => ReadBack(a, mem); ReadBack(b, mem); AddValue(before, row.a, row.b); WriteBack(out, row.o, mem);
    case Div(n, d, out) =>
      ReadBack(n, mem); ReadBack(d, mem); MulValue(before, row.a, row.b);
      WriteBack(out, F.Mul(inv(At(mem, d)), At(mem, n)), mem);
      F.QuotientUnique(row.a, inv(row.a), row.b, At(mem, n));
    case Eq(a, b) => ReadBack(a, mem); ReadBack(b, mem); CopyValue(before, row.a, row.b);
  }

  lemma {:induction false} HornerTrace(op: Op, before: Ext, rows: seq<Row>, mem: Memory, i: nat)
    requires op.Horner? && ValidOp(op) && InBounds(op, mem) && |rows| == |op.coeffs| && i < |op.coeffs|
    requires TracedRows(Lines(op), before, rows, mem)
    ensures rows[i].o == HornerOf(op, mem, i + 1)
  {
    hide Value, F.Mul, F.Add, TracedRows;
    TracedAt(Lines(op), before, rows, mem, i);
    var row, prev := rows[i], PrevOf(rows, i, before);
    assert Lines(op)[i] == HornerLine(op, i);
    if i == 0 {
      CopyValue(prev, row.a, row.b);
      HornerZero(At(mem, op.y), row.b);
      assert HornerOf(op, mem, 0) == F.Zero6;
    } else {
      HornerTrace(op, before, rows, mem, i - 1);
      HornerStep(prev, row.a, row.b);
    }
  }

  lemma {:induction false} ChainTrace(op: Op, before: Ext, rows: seq<Row>, mem: Memory, i: nat)
    requires op.Chain? && ValidOp(op) && InBounds(op, mem) && |rows| == |op.xs| + 1 && i <= |op.xs|
    requires TracedRows(Lines(op), before, rows, mem)
    ensures rows[i].o == ChainOf(op, mem, i)
  {
    hide Value, F.Mul, F.Add, TracedRows;
    TracedAt(Lines(op), before, rows, mem, i);
    var row, prev := rows[i], PrevOf(rows, i, before);
    assert Lines(op)[i] == ChainLine(op, i);
    if i == 0 {
      CopyValue(prev, row.a, row.b);
    } else {
      ChainTrace(op, before, rows, mem, i - 1);
      ChainStep(prev, row.a, row.b);
    }
  }

  lemma TracedAt(lines: seq<Line>, before: Ext, rows: seq<Row>, mem: Memory, i: nat)
    requires |rows| == |lines| && i < |rows| && TracedRows(lines, before, rows, mem)
    ensures LineInBounds(lines[i], mem) && rows[i].a == Operand(lines[i].a, mem) && rows[i].b == Operand(lines[i].b, mem)
    ensures rows[i].o == Value(lines[i].spec, PrevOf(rows, i, before), rows[i].a, rows[i].b)
  {
    hide Value;
  }

  lemma HornerAgrees(op: Op, before: Ext, rows: seq<Row>, mem: Memory, i: nat)
    requires op.Horner? && ValidOp(op) && InBounds(op, mem) && Typed(op, mem) && |rows| == |op.coeffs| && i < |op.coeffs|
    requires TracedRows(Lines(op), before, rows, mem)
    requires mem[op.out] == E6Cell(HornerOf(op, mem, |op.coeffs|))
    ensures Agrees(Lines(op)[i], rows[i], mem)
  {
    hide Value, HornerOf, TracedRows;
    assert Lines(op)[i] == HornerLine(op, i);
    TracedAt(Lines(op), before, rows, mem, i);
    HornerTrace(op, before, rows, mem, i);
    ReadBack(op.coeffs[i], mem);
    ReadBack(op.y, mem);
  }

  lemma ChainAgrees(op: Op, before: Ext, rows: seq<Row>, mem: Memory, i: nat)
    requires op.Chain? && ValidOp(op) && InBounds(op, mem) && Typed(op, mem) && |rows| == |op.xs| + 1 && i <= |op.xs|
    requires TracedRows(Lines(op), before, rows, mem)
    requires i > 0 ==> mem[op.outs[i - 1]] == E6Cell(ChainOf(op, mem, i))
    ensures Agrees(Lines(op)[i], rows[i], mem)
  {
    hide Value, ChainOf, TracedRows;
    assert Lines(op)[i] == ChainLine(op, i);
    TracedAt(Lines(op), before, rows, mem, i);
    ChainTrace(op, before, rows, mem, i);
    if i == 0 {
      ReadBack(op.init, mem);
    } else {
      ReadBack(op.xs[i - 1], mem);
      ReadBack(op.ys[i - 1], mem);
    }
  }

  lemma LineAgrees(op: Op, inv: Ext -> Ext, before: Ext, rows: seq<Row>, mem: Memory, i: nat)
    requires ValidOp(op) && InBounds(op, mem) && Typed(op, mem) && Divides(op, inv, mem)
    requires Writes(op, inv, mem).Some? && Stored(Writes(op, inv, mem).value, mem)
    requires |rows| == |Lines(op)| && i < |rows| && TracedRows(Lines(op), before, rows, mem)
    ensures Agrees(Lines(op)[i], rows[i], mem)
  {
    hide Value, HornerOf, ChainOf, TracedRows, Agrees, Typed;
    if op.Horner? {
      assert mem[op.out] == Writes(op, inv, mem).value[0].val;
      HornerAgrees(op, before, rows, mem, i);
    } else if op.Chain? {
      if i > 0 { assert mem[op.outs[i - 1]] == Writes(op, inv, mem).value[i - 1].val; }
      ChainAgrees(op, before, rows, mem, i);
    } else {
      BinaryAgrees(op, inv, before, rows, mem);
    }
  }

  lemma ValidLines(op: Op, i: nat)
    requires ValidOp(op) && i < |Lines(op)|
    ensures ValidSpec(Lines(op)[i].spec)
  {
    if op.Horner? { assert Lines(op)[i] == HornerLine(op, i); }
    if op.Chain? { assert Lines(op)[i] == ChainLine(op, i); }
  }

  /** A successful execution on typed cells, with its equality holding, traces rows that meet
      every constraint and access. */
  lemma E6Complete(op: Op, inv: Ext -> Ext, before: Ext, rows: seq<Row>, mem: Memory)
    requires ValidOp(op) && InBounds(op, mem) && Typed(op, mem) && Divides(op, inv, mem)
    requires Writes(op, inv, mem).Some? && Stored(Writes(op, inv, mem).value, mem)
    requires |rows| == |Lines(op)| && TracedRows(Lines(op), before, rows, mem)
    ensures RowsHold(Lines(op), before, rows, mem)
  {
    hide RowOk, Agrees, Value, Lines, Writes, Typed, Stored, TracedRows, Divides;
    forall i | 0 <= i < |rows|
      ensures RowOk(Lines(op)[i].spec, PrevOf(rows, i, before), rows[i]) && Agrees(Lines(op)[i], rows[i], mem)
    {
      ValidLines(op, i);
      TracedAt(Lines(op), before, rows, mem, i);
      RowExact(Lines(op)[i].spec, PrevOf(rows, i, before), rows[i]);
      LineAgrees(op, inv, before, rows, mem, i);
    }
  }

  // ---- execution ----

  /** A chain writes none of the cells it reads: they were allocated before. */
  predicate Separate(op: Op) {
    op.Chain? ==> forall a :: a in op.outs ==> a !in op.xs && a !in op.ys
  }

  method HornerLoop(y: Ext, cs: seq<Ext>) returns (z: Ext)
    ensures z == HornerAt(y, cs, |cs|)
  {
    hide F.Mul, F.Add;
    z := F.Zero6;
    for i := 0 to |cs|
      invariant z == HornerAt(y, cs, i)
    {
      z := F.Mul(z, y);
      z := F.Add(z, cs[i]);
    }
  }

  function ChainWrites(op: Op, mem: Memory, n: nat): (ws: seq<Write>)
    requires op.Chain? && ValidOp(op) && InBounds(op, mem) && n <= |op.xs|
    ensures |ws| == n && WritesIn(ws, |mem|)
  {
    seq(n, i requires 0 <= i < n => Write(op.outs[i], E6Cell(ChainOf(op, mem, i + 1))))
  }

  lemma ChainWritesStep(op: Op, mem: Memory, n: nat)
    requires op.Chain? && ValidOp(op) && InBounds(op, mem) && n < |op.xs|
    ensures Apply(mem, ChainWrites(op, mem, n + 1))
         == Apply(mem, ChainWrites(op, mem, n))[op.outs[n] := E6Cell(ChainOf(op, mem, n + 1))]
    ensures ChainOf(op, mem, n + 1) == F.Add(ChainOf(op, mem, n), F.Mul(At(mem, op.xs[n]), At(mem, op.ys[n])))
  {
    hide F.Add, F.Mul;
    var w := Write(op.outs[n], E6Cell(ChainOf(op, mem, n + 1)));
    assert ChainWrites(op, mem, n + 1) == ChainWrites(op, mem, n) + [w];
    ApplyOne(mem, ChainWrites(op, mem, n), w);
  }

  /** Writes elsewhere do not change a cell. */
  lemma {:induction false} ChainKeeps(op: Op, mem: Memory, n: nat, a: nat)
    requires op.Chain? && ValidOp(op) && InBounds(op, mem) && n <= |op.xs| && a < |mem| && a !in op.outs
    ensures Apply(mem, ChainWrites(op, mem, n))[a] == mem[a]
  {
    hide ChainOf;
    if n > 0 {
      ChainKeeps(op, mem, n - 1, a);
      ChainWritesStep(op, mem, n - 1);
    }
  }

  method ChainLoop(op: Op, r: Run)
    requires op.Chain? && ValidOp(op) && InBounds(op, r.values) && Separate(op)
    modifies r`values
    ensures r.values == Apply(old(r.values), ChainWrites(op, old(r.values), |op.xs|))
  {
    hide F.Mul, F.Add, ChainOf, Apply, At;
    ghost var before := r.values;
    var z := At(r.values, op.init);
    ChainStart(op, before);
    for i := 0 to |op.xs|
      invariant |r.values| == |before| && r.values == Apply(before, ChainWrites(op, before, i))
      invariant z == ChainOf(op, before, i)
    {
      ChainKeeps(op, before, i, op.xs[i]);
      ChainKeeps(op, before, i, op.ys[i]);
      SameCell(r.values, before, op.xs[i]);
      SameCell(r.values, before, op.ys[i]);
      var x, y := At(r.values, op.xs[i]), At(r.values, op.ys[i]);
      ChainWritesStep(op, before, i);
      z := F.Add(z, F.Mul(x, y));
      r.values := r.values[op.outs[i] := E6Cell(z)];
    }
  }

  lemma SameCell(m: Memory, n: Memory, a: nat)
    requires a < |m| && a < |n| && m[a] == n[a]
    ensures At(m, a) == At(n, a)
  {
  }

  lemma ChainStart(op: Op, mem: Memory)
    requires op.Chain? && ValidOp(op) && InBounds(op, mem)
    ensures ChainOf(op, mem, 0) == At(mem, op.init) && Apply(mem, ChainWrites(op, mem, 0)) == mem
  {
  }

  /** Executes an instruction; it fails on a zero divisor only. */
  method ExecE6(op: Op, inv: Ext -> Ext, r: Run) returns (ok: bool)
    requires ValidOp(op) && InBounds(op, r.values) && Separate(op)
    modifies r`values
    ensures ok == Writes(op, inv, old(r.values)).Some?
    ensures ok ==> WritesIn(Writes(op, inv, old(r.values)).value, |old(r.values)|)
    ensures r.values == if ok then Apply(old(r.values), Writes(op, inv, old(r.values)).value) else old(r.values)
  {
    hide F.Mul, F.Add, F.Sub, HornerOf, ChainOf, At;
    var z: Ext := F.Zero6;
    match op {
      case Mul(a, b, _) => z := F.Mul(At(r.values, a), At(r.values, b));
      case Add(a, b, _) => z := F.Add(At(r.values, a), At(r.values, b));
      case Sub(a, b, _) => z := F.Sub(At(r.values, a), At(r.values, b));
      case Div(n, d, _) =>
        if At(r.values, d) == F.Zero6 { return false; }
        z := F.Mul(inv(At(r.values, d)), At(r.values, n));
      case Eq(_, _) => return true;
      case Chain(_, _, _, _) =>
        assert Writes(op, inv, r.values).value == ChainWrites(op, r.values, |op.xs|);
        ChainLoop(op, r);
        return true;
      case Horner(y, coeffs, _) =>
        z := HornerLoop(At(r.values, y), LoadE6(r.values, coeffs));
        HornerIs(op, r.values);
    }
    ApplyOne(r.values, [], Write(op.out, E6Cell(z)));
    r.values := r.values[op.out := E6Cell(z)];
    return true;
  }

  lemma HornerIs(op: Op, mem: Memory)
    requires op.Horner? && ValidOp(op) && InBounds(op, mem)
    ensures HornerOf(op, mem, |op.coeffs|) == HornerAt(At(mem, op.y), LoadE6(mem, op.coeffs), |op.coeffs|)
  {
  }

  // ---- memory accesses ----

  function Opt<T>(s: Option<Slot>, x: T): seq<T> { if s.Some? then [x] else [] }

  function OptSlot(s: Option<Slot>): seq<Slot> { if s.Some? then [s.value] else [] }

  function LineSlots(l: Line): seq<Slot> { OptSlot(l.a) + OptSlot(l.b) + OptSlot(l.o) }

  function LineVals(l: Line, row: Row): (r: seq<Cell>)
    ensures |r| == |LineSlots(l)|
  { Opt(l.a, E6Cell(row.a)) + Opt(l.b, E6Cell(row.b)) + Opt(l.o, E6Cell(row.o)) }

  lemma OptAgrees(s: Option<Slot>, x: Ext, mem: Memory)
    ensures Agree(OptSlot(s), Opt(s, E6Cell(x)), mem) <==> LaneAgrees(s, x, mem)
  {
    if s.Some? { assert OptSlot(s)[0] == s.value && Opt(s, E6Cell(x))[0] == E6Cell(x); }
  }

  lemma LineMeans(l: Line, row: Row, mem: Memory)
    ensures Agree(LineSlots(l), LineVals(l, row), mem) <==> Agrees(l, row, mem)
  {
    hide Agree, E6Cell;
    OptAgrees(l.a, row.a, mem);
    OptAgrees(l.b, row.b, mem);
    OptAgrees(l.o, row.o, mem);
    var a, b, o := Opt(l.a, E6Cell(row.a)), Opt(l.b, E6Cell(row.b)), Opt(l.o, E6Cell(row.o));
    AgreeSplit(OptSlot(l.a), OptSlot(l.b), a, b, mem);
    AgreeSplit(OptSlot(l.a) + OptSlot(l.b), OptSlot(l.o), a + b, o, mem);
  }

  function LinesSlots(lines: seq<Line>): (r: seq<seq<Slot>>)
    ensures |r| == |lines|
  { seq(|lines|, i requires 0 <= i < |lines| => LineSlots(lines[i])) }

  function LinesVals(lines: seq<Line>, rows: seq<Row>): (r: seq<seq<Cell>>)
    requires |rows| == |lines|
    ensures |r| == |lines| && forall i :: 0 <= i < |lines| ==> |r[i]| == |LinesSlots(lines)[i]|
  { seq(|lines|, i requires 0 <= i < |lines| => LineVals(lines[i], rows[i])) }

  function Slots(op: Op): seq<Slot>
    requires ValidOp(op)
  { Concat(LinesSlots(Lines(op))) }

  function Vals(op: Op, rows: seq<Row>): seq<Cell>
    requires ValidOp(op) && |rows| == |Lines(op)|
  { Concat(LinesVals(Lines(op), rows)) }

  /** The polynomial constraints of an instruction's rows. */
  predicate PolyOk(lines: seq<Line>, before: Ext, rows: seq<Row>) {
    |rows| == |lines| && forall i :: 0 <= i < |rows| ==> RowOk(lines[i].spec, PrevOf(rows, i, before), rows[i])
  }

  /** Constraints and agreeing accesses together are RowsHold. */
  lemma HoldsMeans(op: Op, before: Ext, rows: seq<Row>, mem: Memory)
    requires ValidOp(op) && |rows| == |Lines(op)|
    ensures |Slots(op)| == |Vals(op, rows)|
    ensures PolyOk(Lines(op), before, rows) && Agree(Slots(op), Vals(op, rows), mem) <==> RowsHold(Lines(op), before, rows, mem)
  {
    hide Agree, Agrees, Lines, RowOk, LineSlots, LineVals;
    var lines := Lines(op);
    var s, v := LinesSlots(lines), LinesVals(lines, rows);
    AgreeFlat(s, v, mem);
    forall i | 0 <= i < |lines| ensures Agree(s[i], v[i], mem) <==> Agrees(lines[i], rows[i], mem) {
      LineMeans(lines[i], rows[i], mem);
    }
  }
}
