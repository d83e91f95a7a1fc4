/** The bits chip: 31 rows decompose a scalar canonically. */
module ChipBits {
  import opened KoalaBear
  import opened Constraints
  import opened Cells

  const Width: nat := 31  // bits of a canonical element, rows of a decomposition
  const High: int := 127  // the top 7 bits of P - 1

  datatype Row = Row(b: Elt, w: Elt, r: Elt, v: Elt, inv: Elt)

  /** The constraints of row i of a decomposition keeping n low bits; `next` is the
      following row of the module, whatever it belongs to after the last one. */
  predicate RowOk(n: nat, i: nat, row: Row, next: Row)
  {
    var first, last, active := Bit(i == 0), Bit(i == Width - 1), 1;
    var pow, inlow, chk := Pow2(i), Bit(i < n), Bit(i == 24);
    var sum := row.w + row.b * pow;
    var z := High - (row.v - row.w) * Inv(16777216);
    && Zero(row.b * (row.b - 1))
    && Zero(first * row.w)
    && Zero((active - last) * (next.w - sum))
    && Zero((active - last) * (next.v - row.v))
    && Zero(last * (row.v - sum))
    && Zero(row.r - inlow * (row.b + 2 * next.r))
    && Zero(chk * row.w * (1 - z * row.inv))
  }

  /** A decomposition's rows meet the constraints; `after` follows them in the module. */
  predicate RowsOk(n: nat, rows: seq<Row>, after: Row) {
    && |rows| == Width
    && forall i :: 0 <= i < Width ==> RowOk(n, i, rows[i], At(rows, i + 1, after))
  }

  function At(rows: seq<Row>, i: nat, after: Row): Row { if i < |rows| then rows[i] else after }

  // ---- what execution computes ----

  function Shr(x: int, n: nat, i: nat): int { Low(x, n) / Pow2(i) }

  // ---- soundness ----

  /** The integer the first i bits spell. */
  function Spelled(rows: seq<Row>, i: nat): int
    requires i <= |rows|
  {
    if i == 0 then 0 else Spelled(rows, i - 1) + rows[i - 1].b * Pow2(i - 1)
  }

  lemma {:induction false} SpelledBound(rows: seq<Row>, i: nat)
    requires i <= |rows| && forall k :: 0 <= k < i ==> rows[k].b == 0 || rows[k].b == 1
    ensures 0 <= Spelled(rows, i) < Pow2(i)
  {
    if i > 0 {
      SpelledBound(rows, i - 1);
      assert rows[i - 1].b * Pow2(i - 1) == if rows[i - 1].b == 1 then Pow2(i - 1) else 0;
    }
  }

  /** The digits of a spelled number. */
  lemma {:induction false} SpelledDigits(rows: seq<Row>, k: nat, i: nat)
    requires i <= k <= |rows| && forall k :: 0 <= k < |rows| ==> rows[k].b == 0 || rows[k].b == 1
    ensures Spelled(rows, k) % Pow2(i) == Spelled(rows, i)
    ensures i < k ==> BitOf(Spelled(rows, k), i) == rows[i].b
    decreases k - i
  {
    SpelledBound(rows, k);
    SpelledBound(rows, i);
    if i == k {
      Remainder(Spelled(rows, k), Pow2(i), 0, Spelled(rows, i));
    } else {
      SpelledDigits(rows, k, i + 1);
      var x, p := Spelled(rows, k), Pow2(i);
      DivPow2(x, i);
      // x mod 2^(i+1) is known both as a spelled prefix and by its top bit
      var low, b := Spelled(rows, i), rows[i].b;
      assert x % p + BitOf(x, i) * p == low + b * p;
      TopBit(p, x % p, BitOf(x, i), low, b);
    }
  }

  lemma TopBit(p: int, r: int, c: int, low: int, b: int)
    requires 0 <= r < p && 0 <= low < p && (c == 0 || c == 1) && (b == 0 || b == 1)
    requires r + c * p == low + b * p
    ensures r == low && c == b
  {
    assert c * p == if c == 1 then p else 0;
    assert b * p == if b == 1 then p else 0;
  }

  /** The constraints of one row, with the selectors resolved. */
  lemma RowFacts(n: nat, i: nat, row: Row, next: Row)
    requires RowOk(n, i, row, next) && i < Width
    ensures row.b == 0 || row.b == 1
    ensures i == 0 ==> row.w == 0
    ensures i < Width - 1 ==> Zero(next.w - (row.w + row.b * Pow2(i))) && next.v == row.v
    ensures i == Width - 1 ==> Zero(row.v - (row.w + row.b * Pow2(i)))
    ensures i < n ==> Zero(row.r - (row.b + 2 * next.r))
    ensures i >= n ==> row.r == 0
  {
    hide Inv, Pow2;
    var first, last, inlow := Bit(i == 0), Bit(i == Width - 1), Bit(i < n);
    var sum := row.w + row.b * Pow2(i);
    Boolean(row.b);
    Gate(first, row.w);
    Gate(1 - last, next.w - sum);
    Gate(1 - last, next.v - row.v);
    Gate(last, row.v - sum);
    Gate(inlow, row.b + 2 * next.r);
  }

  lemma CheckFacts(n: nat, row: Row, next: Row)
    requires RowOk(n, 24, row, next) && row.w != 0
    ensures !Zero(High - (row.v - row.w) * Inv(16777216))
  {
    hide Inv, Pow2;
    Gate(Bit(true), row.w);
    NonzeroInverse(row.w, High - (row.v - row.w) * Inv(16777216), row.inv);
  }

  lemma NonzeroInverse(w: Elt, z: int, inv: Elt)
    requires w != 0 && Zero(w * (1 - z * inv))
    ensures !Zero(z)
  {
    ZeroProduct(w, 1 - z * inv);
    if Zero(z) { ZeroTimes(z, inv); }
  }

  /** w is the number spelled by the lower bits, and v is constant. */
  lemma {:induction false} Accumulates(n: nat, rows: seq<Row>, after: Row, i: nat)
    requires RowsOk(n, rows, after) && i < Width
    ensures forall k :: 0 <= k <= i ==> rows[k].b == 0 || rows[k].b == 1
    ensures rows[i].w == Spelled(rows, i) && rows[i].v == rows[0].v
  {
    hide RowOk;
    RowFacts(n, i, rows[i], At(rows, i + 1, after));
    if i > 0 {
      Accumulates(n, rows, after, i - 1);
      RowFacts(n, i - 1, rows[i - 1], At(rows, i, after));
      SpelledBound(rows, i);
      assert Spelled(rows, i) == Spelled(rows, i - 1) + rows[i - 1].b * Pow2(i - 1);
      BelowModulus(i);
      hide *;
      StepUp(0, rows[i].w, Spelled(rows, i));
    }
  }

  lemma LastRow(n: nat, rows: seq<Row>, after: Row)
    requires RowsOk(n, rows, after)
    ensures Zero(rows[0].v - Spelled(rows, Width))
    ensures forall k :: 0 <= k < Width ==> rows[k].b == 0 || rows[k].b == 1
  {
    hide RowOk;
    Accumulates(n, rows, after, 30);
    RowFacts(n, 30, rows[30], At(rows, 31, after));
    assert Spelled(rows, 31) == Spelled(rows, 30) + rows[30].b * Pow2(30);
  }

  lemma CheckRow(n: nat, rows: seq<Row>, after: Row)
    requires RowsOk(n, rows, after)
    ensures Spelled(rows, 24) != 0 ==> !Zero(High - (rows[0].v - Spelled(rows, 24)) * Inv(16777216))
  {
    hide RowOk, Inv, Pow2;
    Accumulates(n, rows, after, 24);
    RowAt(n, rows, after, 24);
    if rows[24].w != 0 { CheckFacts(n, rows[24], At(rows, 25, after)); }
  }

  /** The canonicity check: the spelled number is below P, so it is v itself. */
  lemma SpelledIsValue(n: nat, rows: seq<Row>, after: Row)
    requires RowsOk(n, rows, after)
    ensures Spelled(rows, Width) == rows[0].v
    ensures forall k :: 0 <= k < Width ==> rows[k].b == 0 || rows[k].b == 1
  {
    hide RowOk, Inv, Spelled, Pow2;
    LastRow(n, rows, after);
    CheckRow(n, rows, after);
    SpelledBound(rows, Width);
    SpelledDigits(rows, Width, 24);
    Pow2Values();
    var total, w, v := Spelled(rows, Width), Spelled(rows, 24), rows[0].v;
    if w != 0 && total / 16777216 == 127 {
      TopBitsAllSet(v, w, total);
    }
    BelowP(total, w, v);
  }

  /** A 31-bit number is below P iff its top 7 bits are not all set or its low 24 bits are zero. */
  lemma BelowP(total: int, w: int, v: Elt)
    requires 0 <= total < 2147483648 && w == total % 16777216 && Zero(v - total)
    requires w == 0 || total / 16777216 != 127
    ensures total == v
  {
  }

  /** With the top seven bits set, (v - w) / 2^24 = 127 modulo P. */
  lemma TopBitsAllSet(v: int, w: int, total: int)
    requires Zero(v - total) && total == 16777216 * 127 + w
    ensures Zero(High - (v - w) * Inv(16777216))
  {
    InvOf24();
    hide Inv;
    var inv: int := Inv(16777216);
    ZeroTimes(v - total, inv);
    Expand(v - w, v - total, inv);
    Cancels((v - total) * inv, 16777216 * inv);
  }

  lemma Expand(e: int, d: int, inv: int)
    requires e == d + 16777216 * 127
    ensures e * inv == d * inv + 127 * (16777216 * inv)
  {
    assert (d + 16777216 * 127) * inv == d * inv + 127 * (16777216 * inv);
  }

  lemma Cancels(a: int, b: int)
    requires Zero(a) && b % P == 1
    ensures Zero(High - (a + 127 * b))
  {
  }

  lemma InvOf24()
    ensures 16777216 * Inv(16777216) % P == 1
  {
  }

  lemma RowAt(n: nat, rows: seq<Row>, after: Row, i: nat)
    requires RowsOk(n, rows, after) && i < Width
    ensures |rows| == Width && RowOk(n, i, rows[i], At(rows, i + 1, after))
  {
    hide RowOk;
  }

  lemma ShrTop(v: Elt, n: nat)
    ensures Shr(v, n, n) == 0
  {
    hide Pow2;
    DivPow2(v, n);
    Remainder(Low(v, n), Pow2(n), 0, Low(v, n));
  }

  lemma BitIs(n: nat, rows: seq<Row>, after: Row, i: nat)
    requires RowsOk(n, rows, after) && i < Width
    ensures |rows| == Width && rows[i].b == BitOf(rows[0].v, i)
  {
    RowAt(n, rows, after, i);
    hide RowsOk, Spelled, BitOf;
    SpelledIsValue(n, rows, after);
    SpelledDigits(rows, Width, i);
  }

  /** r is the value's low n bits shifted by i. */
  lemma {:induction false} Shifted(n: nat, rows: seq<Row>, after: Row, i: nat)
    requires RowsOk(n, rows, after) && n < Width && i <= n
    ensures i < Width && |rows| == Width && rows[i].r == Shr(rows[0].v, n, i)
    decreases n - i
  {
    hide RowsOk, RowOk, Shr, BitOf, Pow2;
    RowAt(n, rows, after, i);
    var v := rows[0].v;
    RowFacts(n, i, rows[i], At(rows, i + 1, after));
    if i == n {
      ShrTop(v, n);
    } else {
      Shifted(n, rows, after, i + 1);
      BitIs(n, rows, after, i);
      ShrStep(v, n, i);
      BelowModulus(n);
      ShrBound(v, n, i);
      StepUp(0, rows[i].r, Shr(v, n, i));
    }
  }

  lemma ShrBound(v: int, n: nat, i: nat)
    requires v >= 0
    ensures 0 <= Shr(v, n, i) < Pow2(n)
  {
    DivPow2(v, n);
    DivAtMost(Low(v, n), Pow2(i));
  }

  lemma DivAtMost(l: int, p: int)
    requires l >= 0 && p >= 1
    ensures 0 <= l / p <= l
  {
    var q := l / p;
    assert l == p * q + l % p;
    MulBound(p, q);
  }

  lemma ShrStep(v: int, n: nat, i: nat)
    requires v >= 0 && i < n
    ensures Shr(v, n, i) == BitOf(v, i) + 2 * Shr(v, n, i + 1)
  {
    DivPow2(v, n);
    DivPow2(Low(v, n), i);
    LowBit(v, n, i);
  }

  /** Soundness: the rows hold the binary digits of v's canonical representative,
      and r the low n bits shifted, exactly what execution writes. */
  lemma BitsSound(n: nat, rows: seq<Row>, after: Row, i: nat)
    requires RowsOk(n, rows, after) && n < Width && i < Width
    ensures rows[i].v == rows[0].v
    ensures rows[i].b == BitOf(rows[0].v, i)
    ensures rows[i].w == rows[0].v % Pow2(i)
    ensures rows[i].r == if i < n then Shr(rows[0].v, n, i) else 0
  {
    hide RowOk;
    Accumulates(n, rows, after, i);
    SpelledIsValue(n, rows, after);
    SpelledDigits(rows, Width, i);
    if i < n { Shifted(n, rows, after, i); }
    RowFacts(n, i, rows[i], At(rows, i + 1, after));
  }

  // ---- completeness ----

  function InverseOf(i: nat, x: Elt): Elt {
    if i == 24 && x / 16777216 <= High then Inv(High - x / 16777216) else 0
  }

  function TraceRow(x: Elt, n: nat, i: nat): Row
    requires i < Width
  {
    TraceFits(x, n, i);
    Row(BitOf(x, i), Low(x, i), if i < n then Shr(x, n, i) else 0, x, InverseOf(i, x))
  }

  lemma TraceFits(x: Elt, n: nat, i: nat)
    ensures 0 <= BitOf(x, i) < P && 0 <= Low(x, i) < P && 0 <= Shr(x, n, i) < P
  {
    hide Pow2;
    ModAtMost(x, Pow2(i));
    ModAtMost(x, Pow2(n));
    DivAtMost(Low(x, n), Pow2(i));
  }

  lemma ModAtMost(l: nat, p: int)
    requires p >= 1
    ensures 0 <= l % p <= l
  {
    DivAtMost(l, p);
    assert l == p * (l / p) + l % p;
    if l / p >= 1 { MulBound(p, l / p); }
  }

  function TraceRows(x: Elt, n: nat): (rows: seq<Row>)
    ensures |rows| == Width
  { seq(Width, i requires 0 <= i < Width => TraceRow(x, n, i)) }

  lemma BitIsBit(x: int, i: nat)
    ensures BitOf(x, i) == 0 || BitOf(x, i) == 1
  {
  }

  lemma TraceSums(x: Elt, i: nat)
    requires i < Width
    ensures Low(x, i + 1) == Low(x, i) + BitOf(x, i) * Pow2(i)
    ensures i == 0 ==> Low(x, i) == 0
    ensures i == Width - 1 ==> Low(x, i + 1) == x
  {
    DivPow2(x, i);
    Pow2Values();
    SmallPowers();
    hide Pow2, BitOf;
    if i == Width - 1 { Remainder(x, Pow2(31), 0, x); }
  }

  lemma TraceShift(x: Elt, n: nat, i: nat)
    requires i < n
    ensures Shr(x, n, i) == BitOf(x, i) + 2 * Shr(x, n, i + 1)
    ensures Shr(x, n, n) == 0
  {
    hide Pow2;
    ShrStep(x, n, i);
    ShrTop(x, n);
  }

  /** (x - x mod 2^24) / 2^24 is the top seven bits, in the field too. */
  lemma TopBits(x: Elt, inv: int)
    requires 16777216 * inv % P == 1
    ensures Zero(High - (x - x % 16777216) * inv - (High - x / 16777216))
  {
    var q := x / 16777216;
    assert (x - x % 16777216) * inv == q * (16777216 * inv) by {
      assert x - x % 16777216 == 16777216 * q;
      assert 16777216 * q * inv == q * (16777216 * inv);
    }
    QuotientMod(q, 16777216 * inv);
  }

  lemma QuotientMod(q: int, y: int)
    requires y % P == 1
    ensures Zero(q - q * y)
  {
    assert y == P * (y / P) + 1;
    assert q * (P * (y / P) + 1) == P * (q * (y / P)) + q;
    Remainder(q - q * y, P, -(q * (y / P)), 0);
  }

  lemma CheckTrace(x: Elt, z: int, w: int, inv: Elt)
    requires Zero(z - (High - x / 16777216)) && w == x % 16777216 && inv == InverseOf(24, x)
    ensures Zero(w * (1 - z * inv))
  {
    hide Inv;
    var top := High - x / 16777216;
    assert top >= 0;
    if top == 0 {
      assert w == 0;
    } else {
      InverseTimes(top, z, inv);
      ZeroTimes(1 - z * inv, w);
    }
  }

  lemma InverseTimes(top: Elt, z: int, inv: Elt)
    requires top != 0 && inv == Inv(top) && Zero(z - top)
    ensures Zero(1 - z * inv)
  {
    var i: int := inv;
    assert (top * i) % P == 1;
    ZeroTimes(z - top, i);
    assert (z - top) * i == z * i - top * i;
    LinearOne(z * i, top * i);
  }

  lemma LinearOne(a: int, b: int)
    requires Zero(a - b) && b % P == 1
    ensures Zero(1 - a)
  {
  }

  /** The converse of RowFacts. */
  lemma FactsRowOk(n: nat, i: nat, row: Row, next: Row)
    requires i < Width && (row.b == 0 || row.b == 1) && (i == 0 ==> row.w == 0)
    requires i < Width - 1 ==> next.w == row.w + row.b * Pow2(i) && next.v == row.v
    requires i == Width - 1 ==> row.v == row.w + row.b * Pow2(i)
    requires row.r == if i < n then row.b + 2 * next.r else 0
    requires i == 24 ==> Zero(row.w * (1 - (High - (row.v - row.w) * Inv(16777216)) * row.inv))
    ensures RowOk(n, i, row, next)
  {
    hide Inv, Pow2;
    var first, last, inlow, chk := Bit(i == 0), Bit(i == Width - 1), Bit(i < n), Bit(i == 24);
    var sum := row.w + row.b * Pow2(i);
    Gate(first, row.w);
    Gate(1 - last, next.w - sum);
    Gate(1 - last, next.v - row.v);
    Gate(last, row.v - sum);
    Gate(inlow, row.b + 2 * next.r);
    Gate(chk, row.w);
    var z := High - (row.v - row.w) * Inv(16777216);
    if i != 24 { Gate(0, 1 - z * row.inv); }
  }

  lemma TraceFields(x: Elt, n: nat, i: nat)
    requires i < Width
    ensures var row := TraceRow(x, n, i);
      && row.b == BitOf(x, i) && row.w == Low(x, i) && row.v == x && row.inv == InverseOf(i, x)
      && row.r == if i < n then Shr(x, n, i) else 0
  {
    hide BitOf, Low, Shr, InverseOf;
  }

  lemma TraceRowOk(x: Elt, n: nat, i: nat, next: Row)
    requires n < Width && i < Width && (i + 1 < Width ==> next == TraceRow(x, n, i + 1))
    ensures RowOk(n, i, TraceRow(x, n, i), next)
  {
    hide RowOk, Inv, Pow2, BitOf, Shr, InverseOf, Low, TraceRow, Zero;
    TraceSums(x, i);
    var row := TraceRow(x, n, i);
    TraceFields(x, n, i);
    if i + 1 < Width { TraceFields(x, n, i + 1); }
    BitIsBit(x, i);
    if i < n { TraceShift(x, n, i); }
    if i == 24 { TraceCheck(x, row.w, row.inv); }
    FactsRowOk(n, i, row, next);
  }

  lemma TraceCheck(x: Elt, w: Elt, inv: Elt)
    requires w == Low(x, 24) && inv == InverseOf(24, x)
    ensures Zero(w * (1 - (High - (x - w) * Inv(16777216)) * inv))
  {
    hide Inv, InverseOf, Pow2;
    Pow2Values();
    InvOf24();
    var z := High - (x - w) * Inv(16777216);
    TopBits(x, Inv(16777216));
    CheckTrace(x, z, w, inv);
  }

  /** Execution's rows meet every constraint, whatever follows them in the module. */
  lemma BitsComplete(x: Elt, n: nat, after: Row)
    requires n < Width
    ensures RowsOk(n, TraceRows(x, n), after)
  {
    hide RowOk, TraceRow;
    var rows := TraceRows(x, n);
    forall i | 0 <= i < Width ensures RowOk(n, i, rows[i], At(rows, i + 1, after)) {
      TraceRowOk(x, n, i, At(rows, i + 1, after));
    }
  }

  // ---- the instruction ----

  /** The low n bits of the scalar cell v: their shifted values and the bits themselves. */
  datatype Inst = Inst(v: nat, n: nat, shr: seq<nat>, bit: seq<nat>)

  predicate Valid(b: Inst) { 1 <= b.n < Width && |b.shr| == |b.bit| == b.n }

  predicate InBounds(b: Inst, mem: Memory) { b.v < |mem| && InMemory(b.shr, mem) && InMemory(b.bit, mem) }

  function ReadSlot(b: Inst): seq<Slot> { [Slot(b.v, false)] }

  function WriteSlots(b: Inst): (r: seq<seq<Slot>>)
    requires Valid(b)
    ensures |r| == b.n
  { seq(b.n, i requires 0 <= i < b.n => [Slot(b.shr[i], true), Slot(b.bit[i], true)]) }

  function WriteVals(b: Inst, rows: seq<Row>): (r: seq<seq<Cell>>)
    requires Valid(b) && |rows| == Width
    ensures |r| == b.n
  { seq(b.n, i requires 0 <= i < b.n => [ScalarCell(rows[i].r), ScalarCell(rows[i].b)]) }

  function Slots(b: Inst): seq<Slot>
    requires Valid(b)
  { ReadSlot(b) + Concat(WriteSlots(b)) }

  function Vals(b: Inst, rows: seq<Row>): seq<Cell>
    requires Valid(b) && |rows| == Width
  { [ScalarCell(rows[0].v)] + Concat(WriteVals(b, rows)) }

  predicate Holds(b: Inst, rows: seq<Row>, mem: Memory)
    requires Valid(b) && |rows| == Width
  {
    && InBounds(b, mem) && mem[b.v] == ScalarCell(rows[0].v)
    && forall i :: 0 <= i < b.n ==> mem[b.shr[i]] == ScalarCell(rows[i].r) && mem[b.bit[i]] == ScalarCell(rows[i].b)
  }

  lemma WritesAgree(b: Inst, rows: seq<Row>, mem: Memory, i: nat)
    requires Valid(b) && |rows| == Width && i < b.n
    ensures Agree(WriteSlots(b)[i], WriteVals(b, rows)[i], mem) <==>
      b.shr[i] < |mem| && b.bit[i] < |mem| && mem[b.shr[i]] == ScalarCell(rows[i].r) && mem[b.bit[i]] == ScalarCell(rows[i].b)
  {
    hide ScalarCell;
    var s, v := WriteSlots(b)[i], WriteVals(b, rows)[i];
    assert s[0].addr == b.shr[i] && s[1].addr == b.bit[i] && v[0] == ScalarCell(rows[i].r) && v[1] == ScalarCell(rows[i].b);
  }

  lemma AgreeMeans(b: Inst, rows: seq<Row>, mem: Memory)
    requires Valid(b) && |rows| == Width
    ensures Agree(Slots(b), Vals(b, rows), mem) <==> Holds(b, rows, mem)
  {
    hide ScalarCell, WriteSlots, WriteVals;
    var s, v := WriteSlots(b), WriteVals(b, rows);
    PairShape(b, rows);
    AgreeFlat(s, v, mem);
    AgreeSplit(ReadSlot(b), Concat(s), [ScalarCell(rows[0].v)], Concat(v), mem);
    forall i | 0 <= i < b.n
      ensures Agree(s[i], v[i], mem) <==>
        b.shr[i] < |mem| && b.bit[i] < |mem| && mem[b.shr[i]] == ScalarCell(rows[i].r) && mem[b.bit[i]] == ScalarCell(rows[i].b)
    {
      WritesAgree(b, rows, mem, i);
    }
    assert Agree(ReadSlot(b), [ScalarCell(rows[0].v)], mem) <==> b.v < |mem| && mem[b.v] == ScalarCell(rows[0].v) by {
      assert ReadSlot(b)[0].addr == b.v;
    }
  }

  lemma PairShape(b: Inst, rows: seq<Row>)
    requires Valid(b) && |rows| == Width
    ensures forall i :: 0 <= i < b.n ==> |WriteSlots(b)[i]| == |WriteVals(b, rows)[i]|
  {
  }

  /** The cells execution writes. */
  function Writes(b: Inst, mem: Memory, n: nat): (ws: seq<Write>)
    requires Valid(b) && InBounds(b, mem) && n <= b.n
    ensures |ws| == 2 * n && WritesIn(ws, |mem|)
  {
    if n == 0 then []
    else
      var x: Elt := mem[b.v][0];
      TraceFits(x, b.n, n - 1);
      Writes(b, mem, n - 1)
        + [Write(b.shr[n - 1], ScalarCell(Shr(x, b.n, n - 1))), Write(b.bit[n - 1], ScalarCell(BitOf(x, n - 1)))]
  }

  /** The written cells hold execution's values. */
  ghost predicate Written(b: Inst, mem: Memory)
    requires Valid(b) && InBounds(b, mem)
  {
    forall i :: 0 <= i < b.n ==>
      && mem[b.shr[i]] == TracedShr(b, mem, i)
      && mem[b.bit[i]] == TracedBit(b, mem, i)
  }

  function TracedShr(b: Inst, mem: Memory, i: nat): Cell
    requires InBounds(b, mem)
  { TraceFits(mem[b.v][0], b.n, i); ScalarCell(Shr(mem[b.v][0], b.n, i)) }

  function TracedBit(b: Inst, mem: Memory, i: nat): Cell
    requires InBounds(b, mem)
  { TraceFits(mem[b.v][0], b.n, i); ScalarCell(BitOf(mem[b.v][0], i)) }

  /** Rows that meet the constraints and the accesses write the digits and shifts of the
      canonical representative of the cell they read. */
  lemma InstSound(b: Inst, rows: seq<Row>, after: Row, mem: Memory)
    requires Valid(b) && |rows| == Width && RowsOk(b.n, rows, after) && Holds(b, rows, mem)
    ensures Written(b, mem)
  {
    hide RowsOk, Shr, BitOf;
    forall i | 0 <= i < b.n
      ensures mem[b.shr[i]] == TracedShr(b, mem, i) && mem[b.bit[i]] == TracedBit(b, mem, i)
    {
      Shifted(b.n, rows, after, i);
      BitIs(b.n, rows, after, i);
    }
  }

  /** Execution's rows meet the constraints and the accesses of a scalar cell. */
  lemma InstComplete(b: Inst, after: Row, mem: Memory)
    requires Valid(b) && InBounds(b, mem) && mem[b.v] == ScalarCell(mem[b.v][0]) && Written(b, mem)
    ensures var rows := TraceRows(mem[b.v][0], b.n); RowsOk(b.n, rows, after) && Holds(b, rows, mem)
  {
    hide RowsOk, Shr, BitOf, Pow2, InverseOf;
    BitsComplete(mem[b.v][0], b.n, after);
  }

  method ExecBits(b: Inst, r: Run)
    requires Valid(b) && InBounds(b, r.values)
    modifies r`values
    ensures r.values == Apply(old(r.values), Writes(b, old(r.values), b.n))
  {
    hide Shr, BitOf, Low, Pow2;
    ghost var before := r.values;
    var x := r.values[b.v][0];
    for i := 0 to b.n
      invariant |r.values| == |before| && r.values == Apply(before, Writes(b, before, i))
    {
      TraceFits(x, b.n, i);
      var shr, bit: Cell := ScalarCell(Shr(x, b.n, i)), ScalarCell(BitOf(x, i));
      WritesStep(b, before, i, shr, bit);
      r.values := r.values[b.shr[i] := shr];
      r.values := r.values[b.bit[i] := bit];
    }
  }

  lemma WritesStep(b: Inst, mem: Memory, i: nat, shr: Cell, bit: Cell)
    requires Valid(b) && InBounds(b, mem) && i < b.n && shr == TracedShr(b, mem, i) && bit == TracedBit(b, mem, i)
    ensures Apply(mem, Writes(b, mem, i + 1)) == Apply(mem, Writes(b, mem, i))[b.shr[i] := shr][b.bit[i] := bit]
  {
    hide Shr, BitOf, Low, Pow2;
    var ws, w, u := Writes(b, mem, i), Write(b.shr[i], shr), Write(b.bit[i], bit);
    assert Writes(b, mem, i + 1) == ws + [w] + [u];
    ApplyOne(mem, ws, w);
    ApplyOne(mem, ws + [w], u);
  }
}
