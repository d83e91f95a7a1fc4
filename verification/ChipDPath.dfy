/** The dynamic-path chip: a Merkle path whose shape (the groups' heights and their
    order) is data. */
module ChipDPath {
  import opened KoalaBear
  import opened Constraints
  import opened Cells

  const MaxHeight: nat := 30  // one less than the field's bits

  /** The values of the four tables a path reads. */
  datatype Tables = Tables(leaves: seq<Cell>, heights: seq<Cell>, order: seq<Cell>, siblings: seq<Cell>)

  predicate ValidTables(t: Tables) {
    && |t.leaves| == |t.heights| == |t.order|
    && 1 <= |t.order| < P
    && 1 <= |t.siblings| <= MaxHeight
  }

  datatype Row = Row(kind: Elt, hc: Elt, started: Elt, fc: Elt, pi: Elt, b: Elt, idx: Elt,
                     cur: Cell, op: Cell, out: Cell)

  // ---- the constraints ----

  /** The polynomial constraints of an active row; `next` follows it in the module. */
  predicate RowOk(isFirst: bool, isLast: bool, row: Row, next: Row) {
    var first, last, active := Bit(isFirst), Bit(isLast), 1;
    var trans := active - last;
    && Zero(row.kind * (row.kind - 1))
    && Zero(row.b * (row.b - 1))
    && Zero(row.kind * row.b)
    && Zero((1 - active) * row.kind)
    && Zero((1 - active) * row.started)
    && Zero(first * row.started)
    && Zero(trans * (next.hc - row.hc + (1 - row.kind)))
    && Zero(trans * (next.fc - row.fc - row.kind))
    && Zero(trans * (next.started - (row.started + row.kind - row.started * row.kind)))
    && Zero(active * (row.idx - row.b) - trans * (2 - row.kind) * next.idx)
    && forall i :: 0 <= i < CellWidth ==>
         && Zero(trans * (Lane(next.cur, i) - Lane(row.out, i)))
         && Zero((1 - row.started) * (Lane(row.out, i) - Lane(row.cur, i) - row.kind * (Lane(row.op, i) - Lane(row.cur, i))))
  }

  /** Entry i of a table holds v; an index out of the table is no entry. */
  predicate IsEntry(table: seq<Cell>, i: int, v: Cell) { 0 <= i < |table| && table[i] == v }

  /** What the reads on the tables bus state of a row, each active when its selector is one. */
  predicate ReadsOk(t: Tables, row: Row) {
    && (row.kind == 1 ==> IsEntry(t.leaves, row.pi, row.op))
    && (row.kind == 1 ==> IsEntry(t.order, row.fc, ScalarCell(row.pi)))
    && (row.kind == 1 ==> IsEntry(t.heights, row.pi, ScalarCell(row.hc)))
    && ((1 - row.kind) % P == 1 ==> IsEntry(t.siblings, (row.hc - 1) % P, row.op))
  }

  function Left(row: Row): Cell { Mix(row.b, row.cur, row.op) }
  function Right(row: Row): Cell { Mix(row.b, row.op, row.cur) }

  /** What the lookup in the P2 core states of a row. */
  predicate HashOk(compress: (Cell, Cell) -> Cell, row: Row) {
    row.started == 1 ==> row.out == compress(Left(row), Right(row))
  }

  function At(rows: seq<Row>, i: nat, after: Row): Row { if i < |rows| then rows[i] else after }

  /** The polynomial constraints of a path's rows, before arbitrary rows of the module. */
  predicate PolyOk(rows: seq<Row>, after: Row) {
    forall i :: 0 <= i < |rows| ==> RowOk(i == 0, i == |rows| - 1, rows[i], At(rows, i + 1, after))
  }

  /** The rows of a path meet the constraints, the table reads and the compression lookups. */
  predicate RowsOk(t: Tables, compress: (Cell, Cell) -> Cell, rows: seq<Row>, after: Row) {
    && |rows| == |t.siblings| + |t.order|
    && PolyOk(rows, after)
    && forall i :: 0 <= i < |rows| ==> ReadsOk(t, rows[i]) && HashOk(compress, rows[i])
  }

  // ---- execution ----

  datatype State = State(hc: nat, fc: nat, started: bool, index: nat, cur: Cell)

  function Group(t: Tables, fc: nat): int
    requires fc < |t.order|
  { t.order[fc][0] }

  datatype Step = Fold(pi: nat) | Level | Done | Fail

  /** What execution does in a state: the innermost loop's tests, in order. */
  function Next(t: Tables, st: State): Step
    requires ValidTables(t) && st.hc <= |t.siblings| && st.fc <= |t.order|
  {
    if st.fc < |t.order| && Group(t, st.fc) >= |t.order| then Fail
    else if st.fc < |t.order| && t.heights[Group(t, st.fc)][0] > st.hc then Fail
    else if st.fc < |t.order| && t.heights[Group(t, st.fc)][0] == st.hc then Fold(Group(t, st.fc))
    else if st.hc > 0 then Level
    else if st.fc == |t.order| then Done
    else Fail
  }

  function FoldRow(t: Tables, compress: (Cell, Cell) -> Cell, st: State, pi: nat): Row
    requires ValidTables(t) && st.hc <= |t.siblings| && st.fc < |t.order| && pi < |t.order| && st.index < P
  {
    var op := t.leaves[pi];
    Row(1, st.hc, Bit(st.started), st.fc, pi, 0, st.index, st.cur, op,
        if st.started then compress(st.cur, op) else op)
  }

  function LevelRow(t: Tables, compress: (Cell, Cell) -> Cell, st: State): Row
    requires ValidTables(t) && 1 <= st.hc <= |t.siblings| && st.fc <= |t.order| && st.index < P
  {
    var op := t.siblings[st.hc - 1];
    Row(0, st.hc, Bit(st.started), st.fc, 0, st.index % 2, st.index, st.cur, op,
        if !st.started then st.cur
        else if st.index % 2 == 1 then compress(op, st.cur)
        else compress(st.cur, op))
  }

  function FoldState(st: State, row: Row): State {
    State(st.hc, st.fc + 1, true, st.index, row.out)
  }

  function LevelState(st: State, row: Row): State
    requires st.hc > 0
  {
    State(st.hc - 1, st.fc, st.started, st.index / 2, row.out)
  }

  predicate InRange(t: Tables, st: State) {
    ValidTables(t) && st.hc <= |t.siblings| && st.fc <= |t.order| && st.index < P
  }

  /** The rows execution produces from a state, or None if it fails. */
  function Rows(t: Tables, compress: (Cell, Cell) -> Cell, st: State): Option<seq<Row>>
    requires InRange(t, st)
    decreases st.hc + |t.order| - st.fc
  {
    match Next(t, st)
    case Fold(pi) =>
      var row := FoldRow(t, compress, st, pi);
      Prepend(row, Rows(t, compress, FoldState(st, row)))
    case Level =>
      var row := LevelRow(t, compress, st);
      Prepend(row, Rows(t, compress, LevelState(st, row)))
    case Done => Some([])
    case Fail => None
  }

  function Prepend(row: Row, rest: Option<seq<Row>>): Option<seq<Row>> {
    if rest.Some? then Some([row] + rest.value) else None
  }

  function Start(t: Tables, index: nat): State { State(|t.siblings|, 0, false, index, ZeroCell) }

  function ExecRows(t: Tables, compress: (Cell, Cell) -> Cell, index: nat): Option<seq<Row>>
    requires ValidTables(t) && index < P
  {
    if !FitsIn(index, |t.siblings|) then None else Rows(t, compress, Start(t, index))
  }

  // ---- the rows' constraints with the selectors resolved ----

  lemma Bits(isFirst: bool, isLast: bool, row: Row, next: Row)
    requires RowOk(isFirst, isLast, row, next)
    ensures IsBit(row.kind) && IsBit(row.b) && (row.kind == 1 ==> row.b == 0)
    ensures isFirst ==> row.started == 0
  {
    Boolean(row.kind);
    Boolean(row.b);
    Gate(row.kind, row.b);
    Gate(Bit(isFirst), row.started);
  }

  lemma Counters(isFirst: bool, row: Row, next: Row)
    requires RowOk(isFirst, false, row, next) && IsBit(row.kind) && IsBit(row.started)
    ensures Zero(next.hc - row.hc + (1 - row.kind)) && Zero(next.fc - row.fc - row.kind)
    ensures next.started == if row.started == 1 || row.kind == 1 then 1 else 0
  {
    Gate(1, next.hc - row.hc + (1 - row.kind));
    Gate(1, next.fc - row.fc - row.kind);
    Gate(1, next.started - (row.started + row.kind - row.started * row.kind));
    Gate(row.started, row.kind);
  }

  lemma Index(isFirst: bool, isLast: bool, row: Row, next: Row)
    requires RowOk(isFirst, isLast, row, next) && IsBit(row.kind)
    ensures isLast ==> row.idx == row.b
    ensures !isLast && row.kind == 1 ==> Zero(row.idx - row.b - next.idx)
    ensures !isLast && row.kind == 0 ==> Zero(row.idx - row.b - 2 * next.idx)
  {
    Gate(1, row.idx - row.b);
    var trans := 1 - Bit(isLast);
    Gate(trans, 2 - row.kind);
    Gate(trans * (2 - row.kind), next.idx);
    if !isLast && row.kind == 0 { assert trans * (2 - row.kind) == 2; }
  }

  lemma Lanes(isFirst: bool, isLast: bool, row: Row, next: Row)
    requires RowOk(isFirst, isLast, row, next) && IsBit(row.kind) && IsBit(row.started)
    ensures !isLast ==> next.cur == row.out
    ensures row.started == 0 ==> row.out == if row.kind == 1 then row.op else row.cur
  {
    forall i | 0 <= i < CellWidth
      ensures !isLast ==> next.cur[i] == row.out[i]
      ensures row.started == 0 ==> row.out[i] == if row.kind == 1 then row.op[i] else row.cur[i]
    {
      assert Zero((1 - Bit(isLast)) * (Lane(next.cur, i) - Lane(row.out, i)));
      LaneFacts(1 - Bit(isLast), 1 - row.started, row.kind, next.cur[i], row.cur[i], row.op[i], row.out[i]);
    }
  }

  lemma LaneFacts(trans: int, idle: int, kind: Elt, next: Elt, cur: Elt, op: Elt, out: Elt)
    requires IsBit(kind) && Zero(trans * (next - out))
    requires Zero(idle * (out - cur - kind * (op - cur)))
    ensures trans == 1 ==> next == out
    ensures idle == 1 ==> out == if kind == 1 then op else cur
  {
    Gate(trans, next - out);
    Gate(kind, op - cur);
    Gate(idle, out - cur - kind * (op - cur));
    if trans == 1 { Same(next, out); }
    if idle == 1 { Same(out, if kind == 1 then op else cur); }
  }

  // What the constraints say of a row and its successor, in plain terms.

  predicate ShapeMeans(isFirst: bool, isLast: bool, row: Row) {
    && IsBit(row.kind) && IsBit(row.b) && (row.kind == 1 ==> row.b == 0)
    && (isFirst ==> row.started == 0)
    && (isLast ==> row.idx == row.b)
    && (row.started == 0 ==> row.out == if row.kind == 1 then row.op else row.cur)
  }

  predicate StepMeans(row: Row, next: Row) {
    && Zero(next.hc - row.hc + (1 - row.kind)) && Zero(next.fc - row.fc - row.kind)
    && next.started == (if row.started == 1 || row.kind == 1 then 1 else 0)
    && (row.kind == 1 ==> Zero(row.idx - row.b - next.idx))
    && (row.kind == 0 ==> Zero(row.idx - row.b - 2 * next.idx))
    && next.cur == row.out
  }

  lemma ShapeMeaning(isFirst: bool, isLast: bool, row: Row, next: Row)
    requires RowOk(isFirst, isLast, row, next)
    ensures ShapeMeans(isFirst, isLast, row)
  {
    hide RowOk;
    Bits(isFirst, isLast, row, next);
    Index(isFirst, isLast, row, next);
    if IsBit(row.started) { Lanes(isFirst, isLast, row, next); }
  }

  lemma StepMeaning(isFirst: bool, row: Row, next: Row)
    requires RowOk(isFirst, false, row, next) && IsBit(row.started)
    ensures StepMeans(row, next)
  {
    hide RowOk;
    Bits(isFirst, false, row, next);
    Index(isFirst, false, row, next);
    Lanes(isFirst, false, row, next);
    Counters(isFirst, row, next);
  }

  /** started is boolean on every row. */
  lemma {:induction false} StartedBit(rows: seq<Row>, after: Row, i: nat)
    requires PolyOk(rows, after) && i < |rows|
    ensures IsBit(rows[i].started) && IsBit(rows[i].kind)
  {
    hide RowOk, PolyOk;
    RowAt(rows, after, i);
    Bits(i == 0, i == |rows| - 1, rows[i], At(rows, i + 1, after));
    if i > 0 {
      StartedBit(rows, after, i - 1);
      RowAt(rows, after, i - 1);
      Counters(i == 1, rows[i - 1], rows[i]);
    }
  }

  lemma RowAt(rows: seq<Row>, after: Row, i: nat)
    requires PolyOk(rows, after) && i < |rows|
    ensures RowOk(i == 0, i == |rows| - 1, rows[i], At(rows, i + 1, after))
  {
    hide RowOk;
  }

  lemma Meaning(t: Tables, compress: (Cell, Cell) -> Cell, rows: seq<Row>, after: Row, i: nat)
    requires RowsOk(t, compress, rows, after) && i < |rows|
    ensures IsBit(rows[i].started) && ReadsOk(t, rows[i]) && HashOk(compress, rows[i])
    ensures ShapeMeans(i == 0, i == |rows| - 1, rows[i])
    ensures i + 1 < |rows| ==> StepMeans(rows[i], rows[i + 1])
  {
    hide RowOk, PolyOk, ReadsOk, HashOk, ShapeMeans, StepMeans;
    StartedBit(rows, after, i);
    RowAt(rows, after, i);
    ShapeMeaning(i == 0, i == |rows| - 1, rows[i], At(rows, i + 1, after));
    if i + 1 < |rows| { StepMeaning(i == 0, rows[i], rows[i + 1]); }
  }

  // ---- soundness: the pigeonhole on the tables' bounds ----

  function Folds(rows: seq<Row>, i: nat): nat
    requires i <= |rows|
    ensures Folds(rows, i) <= i
  {
    if i == 0 then 0 else Folds(rows, i - 1) + if rows[i - 1].kind == 1 then 1 else 0
  }

  function Levels(rows: seq<Row>, i: nat): nat
    requires i <= |rows|
  { i - Folds(rows, i) }

  /** A fold row reads Order below G. */
  lemma FoldReads(t: Tables, row: Row)
    requires ReadsOk(t, row) && row.kind == 1
    ensures row.fc < |t.order| && row.pi < |t.leaves|
  {
  }

  /** A level row reads Siblings below H: its height is in 1..H. */
  lemma LevelReads(t: Tables, row: Row)
    requires ReadsOk(t, row) && row.kind == 0 && |t.siblings| < P
    ensures 1 <= row.hc <= |t.siblings| && row.op == t.siblings[row.hc - 1]
  {
  }

  /** The counters never wrap: they are exact integers, and stay within the tables. */
  lemma {:induction false} Exact(t: Tables, compress: (Cell, Cell) -> Cell, rows: seq<Row>, after: Row, i: nat)
    requires ValidTables(t) && RowsOk(t, compress, rows, after) && i < |rows|
    ensures rows[i].fc == rows[0].fc + Folds(rows, i)
    ensures rows[i].hc == rows[0].hc - Levels(rows, i)
    ensures Folds(rows, i + 1) > 0 ==> rows[0].fc + Folds(rows, i + 1) <= |t.order|
    ensures Levels(rows, i + 1) > 0 ==> rows[0].hc <= |t.siblings| && Levels(rows, i + 1) <= rows[0].hc
  {
    hide RowsOk, ReadsOk, HashOk, ShapeMeans;
    if i > 0 {
      Exact(t, compress, rows, after, i - 1);
      Meaning(t, compress, rows, after, i - 1);
      KindBit(i - 1 == 0, i - 1 == |rows| - 1, rows[i - 1]);
      StepExact(t, rows[i - 1], rows[i]);
    }
    Meaning(t, compress, rows, after, i);
    KindBit(i == 0, i == |rows| - 1, rows[i]);
    if rows[i].kind == 1 { FoldReads(t, rows[i]); } else { LevelReads(t, rows[i]); }
  }

  lemma KindBit(isFirst: bool, isLast: bool, row: Row)
    requires ShapeMeans(isFirst, isLast, row)
    ensures IsBit(row.kind)
  {
  }

  lemma StepExact(t: Tables, row: Row, next: Row)
    requires ValidTables(t) && ReadsOk(t, row) && IsBit(row.kind) && StepMeans(row, next)
    ensures next.fc == row.fc + row.kind && next.hc == row.hc - (1 - row.kind)
  {
    hide ReadsOk;
    if row.kind == 1 { FoldReads(t, row); } else { LevelReads(t, row); }
    StepUp(row.fc, next.fc, row.kind);
    StepUp(row.hc, next.hc, row.kind - 1);
  }

  /** A path of H + G rows has exactly G folds and H levels, and starts at fold 0 and height H. */
  lemma Pigeonhole(t: Tables, compress: (Cell, Cell) -> Cell, rows: seq<Row>, after: Row)
    requires ValidTables(t) && RowsOk(t, compress, rows, after)
    ensures Folds(rows, |rows|) == |t.order| && Levels(rows, |rows|) == |t.siblings|
    ensures rows[0].fc == 0 && rows[0].hc == |t.siblings|
  {
    Exact(t, compress, rows, after, |rows| - 1);
  }

  /** Levels left after the first i rows. */
  function LevelsLeft(rows: seq<Row>, i: nat): int
    requires i <= |rows|
  { Levels(rows, |rows|) - Levels(rows, i) }

  lemma {:induction false} LevelsMono(rows: seq<Row>, i: nat, j: nat)
    requires i <= j <= |rows|
    ensures Levels(rows, i) <= Levels(rows, j)
    decreases j
  {
    if i < j { LevelsMono(rows, i, j - 1); }
  }

  /** The index is spelled by the remaining levels' bits, so it fits them exactly. */
  lemma {:induction false} IndexFits(t: Tables, compress: (Cell, Cell) -> Cell, rows: seq<Row>, after: Row, i: nat)
    requires ValidTables(t) && RowsOk(t, compress, rows, after) && i < |rows|
    ensures 0 <= LevelsLeft(rows, i) <= |t.siblings| && rows[i].idx < Pow2(LevelsLeft(rows, i))
    ensures i + 1 < |rows| ==> rows[i + 1].idx == if rows[i].kind == 1 then rows[i].idx else rows[i].idx / 2
    ensures rows[i].kind == 0 ==> rows[i].b == rows[i].idx % 2
    ensures i + 1 == |rows| ==> rows[i].idx == rows[i].b
    decreases |rows| - i
  {
    hide RowsOk, ReadsOk, HashOk, Pow2;
    Meaning(t, compress, rows, after, i);
    Pigeonhole(t, compress, rows, after);
    LevelsMono(rows, i, |rows|);
    LevelsMono(rows, i + 1, |rows|);
    SmallPowers();
    if i + 1 < |rows| {
      IndexFits(t, compress, rows, after, i + 1);
      if rows[i].kind == 1 {
        Same(rows[i].idx, rows[i + 1].idx);
      } else {
        HalfStep(rows[i].idx, rows[i].b, rows[i + 1].idx, LevelsLeft(rows, i + 1));
      }
    }
  }

  /** The next group to fold is in the tables, at a height the path has yet to reach. */
  lemma {:induction false} NextGroup(t: Tables, compress: (Cell, Cell) -> Cell, rows: seq<Row>, after: Row, i: nat)
    requires ValidTables(t) && RowsOk(t, compress, rows, after) && i < |rows| && Folds(rows, i) < |t.order|
    ensures Group(t, Folds(rows, i)) < |t.order|
    ensures t.heights[Group(t, Folds(rows, i))][0] <= rows[i].hc
    ensures rows[i].kind == 0 ==> t.heights[Group(t, Folds(rows, i))][0] < rows[i].hc
    ensures rows[i].kind == 1 ==> Group(t, Folds(rows, i)) == rows[i].pi && t.heights[rows[i].pi][0] == rows[i].hc
    decreases |rows| - i
  {
    hide RowsOk, HashOk;
    Meaning(t, compress, rows, after, i);
    Pigeonhole(t, compress, rows, after);
    Exact(t, compress, rows, after, i);
    if rows[i].kind == 0 && i + 1 < |rows| {
      Exact(t, compress, rows, after, i + 1);
      NextGroup(t, compress, rows, after, i + 1);
    }
  }

  // ---- soundness: the rows are an execution ----

  /** A row holds what execution computes; the running hash counts only once a leaf was taken. */
  predicate Matches(e: Row, row: Row) {
    && e.kind == row.kind && e.hc == row.hc && e.fc == row.fc && e.started == row.started
    && e.b == row.b && e.idx == row.idx && e.op == row.op
    && (row.kind == 1 ==> e.pi == row.pi)
    && (row.started == 1 ==> e.cur == row.cur)
    && (row.started == 1 || row.kind == 1 ==> e.out == row.out)
  }

  predicate StateMatches(t: Tables, rows: seq<Row>, i: nat, st: State)
    requires i <= |rows|
  {
    && InRange(t, st)
    && (i == |rows| ==> st.hc == 0 && st.fc == |t.order|)
    && (i < |rows| ==>
          && st.hc == rows[i].hc && st.fc == rows[i].fc && st.index == rows[i].idx
          && st.started == (rows[i].started == 1)
          && (st.started ==> st.cur == rows[i].cur))
  }

  lemma CompressRow(compress: (Cell, Cell) -> Cell, row: Row)
    requires HashOk(compress, row) && row.started == 1 && IsBit(row.b)
    ensures row.out == if row.b == 1 then compress(row.op, row.cur) else compress(row.cur, row.op)
  {
    MixBit(row.b, row.cur, row.op);
    MixBit(row.b, row.op, row.cur);
  }

  lemma FoldMatches(t: Tables, compress: (Cell, Cell) -> Cell, rows: seq<Row>, after: Row, i: nat, st: State)
    requires ValidTables(t) && RowsOk(t, compress, rows, after) && i < |rows| && StateMatches(t, rows, i, st)
    requires rows[i].kind == 1
    ensures Next(t, st) == Fold(rows[i].pi) && rows[i].pi < |t.order| && st.fc < |t.order|
    ensures Matches(FoldRow(t, compress, st, rows[i].pi), rows[i])
  {
    hide RowsOk, HashOk;
    Meaning(t, compress, rows, after, i);
    Pigeonhole(t, compress, rows, after);
    Exact(t, compress, rows, after, i);
    NextGroup(t, compress, rows, after, i);
    if rows[i].started == 1 { CompressRow(compress, rows[i]); }
  }

  lemma LevelMatches(t: Tables, compress: (Cell, Cell) -> Cell, rows: seq<Row>, after: Row, i: nat, st: State)
    requires ValidTables(t) && RowsOk(t, compress, rows, after) && i < |rows| && StateMatches(t, rows, i, st)
    requires rows[i].kind == 0
    ensures Next(t, st) == Level && 1 <= st.hc <= |t.siblings|
    ensures Matches(LevelRow(t, compress, st), rows[i])
  {
    hide RowsOk, HashOk, ReadsOk;
    Meaning(t, compress, rows, after, i);
    LevelReads(t, rows[i]);
    IndexFits(t, compress, rows, after, i);
    if st.fc < |t.order| {
      Pigeonhole(t, compress, rows, after);
      Exact(t, compress, rows, after, i);
      NextGroup(t, compress, rows, after, i);
    }
    if rows[i].started == 1 { CompressRow(compress, rows[i]); }
  }

  /** The state after a row matches the next row. */
  lemma FoldStateStep(t: Tables, compress: (Cell, Cell) -> Cell, rows: seq<Row>, after: Row, i: nat, st: State, e: Row)
    requires ValidTables(t) && RowsOk(t, compress, rows, after) && i < |rows| && StateMatches(t, rows, i, st)
    requires Matches(e, rows[i]) && rows[i].kind == 1
    ensures StateMatches(t, rows, i + 1, FoldState(st, e))
  {
    hide RowsOk, HashOk, ReadsOk, Pow2, LevelsLeft;
    Meaning(t, compress, rows, after, i);
    FoldReads(t, rows[i]);
    Pigeonhole(t, compress, rows, after);
    Exact(t, compress, rows, after, i);
    IndexFits(t, compress, rows, after, i);
    if i + 1 < |rows| {
      Exact(t, compress, rows, after, i + 1);
    }
  }

  lemma LevelStateStep(t: Tables, compress: (Cell, Cell) -> Cell, rows: seq<Row>, after: Row, i: nat, st: State, e: Row)
    requires ValidTables(t) && RowsOk(t, compress, rows, after) && i < |rows| && StateMatches(t, rows, i, st)
    requires Matches(e, rows[i]) && rows[i].kind == 0
    ensures st.hc > 0 && StateMatches(t, rows, i + 1, LevelState(st, e))
  {
    hide RowsOk, HashOk, ReadsOk, Pow2, LevelsLeft;
    Meaning(t, compress, rows, after, i);
    LevelReads(t, rows[i]);
    Pigeonhole(t, compress, rows, after);
    Exact(t, compress, rows, after, i);
    IndexFits(t, compress, rows, after, i);
    if i + 1 < |rows| {
      Exact(t, compress, rows, after, i + 1);
    }
  }

  lemma StateStep(t: Tables, compress: (Cell, Cell) -> Cell, rows: seq<Row>, after: Row, i: nat, st: State, e: Row)
    requires ValidTables(t) && RowsOk(t, compress, rows, after) && i < |rows| && StateMatches(t, rows, i, st)
    requires Matches(e, rows[i])
    ensures rows[i].kind == 1 ==> StateMatches(t, rows, i + 1, FoldState(st, e))
    ensures rows[i].kind == 0 ==> st.hc > 0 && StateMatches(t, rows, i + 1, LevelState(st, e))
  {
    hide RowsOk, StateMatches, Matches, ValidTables;
    if rows[i].kind == 1 {
      FoldStateStep(t, compress, rows, after, i, st, e);
    } else if rows[i].kind == 0 {
      LevelStateStep(t, compress, rows, after, i, st, e);
    }
  }

  lemma {:induction false} SoundFrom(t: Tables, compress: (Cell, Cell) -> Cell, rows: seq<Row>, after: Row, i: nat, st: State)
    requires ValidTables(t) && RowsOk(t, compress, rows, after) && i <= |rows| && StateMatches(t, rows, i, st)
    ensures var r := Rows(t, compress, st);
      && r.Some? && |r.value| == |rows| - i
      && forall k :: 0 <= k < |r.value| ==> Matches(r.value[k], rows[i + k])
    decreases |rows| - i
  {
    hide RowsOk, Matches, StateMatches, FoldRow, LevelRow, FoldState, LevelState, Next, InRange;
    if i < |rows| {
      Meaning(t, compress, rows, after, i);
      StateInRange(t, rows, i, st);
      if rows[i].kind == 1 {
        FoldMatches(t, compress, rows, after, i, st);
        var e := FoldRow(t, compress, st, rows[i].pi);
        StateStep(t, compress, rows, after, i, st, e);
        SoundFrom(t, compress, rows, after, i + 1, FoldState(st, e));
      } else {
        LevelMatches(t, compress, rows, after, i, st);
        var e := LevelRow(t, compress, st);
        StateStep(t, compress, rows, after, i, st, e);
        SoundFrom(t, compress, rows, after, i + 1, LevelState(st, e));
      }
    } else {
      AtEnd(t, rows, st);
    }
  }

  lemma StateInRange(t: Tables, rows: seq<Row>, i: nat, st: State)
    requires i <= |rows| && StateMatches(t, rows, i, st)
    ensures InRange(t, st) && st.index < P && st.hc <= |t.siblings| && st.fc <= |t.order|
  {
  }

  lemma AtEnd(t: Tables, rows: seq<Row>, st: State)
    requires StateMatches(t, rows, |rows|, st)
    ensures InRange(t, st) && Next(t, st) == Done
  {
  }

  // ---- the hash a path authenticates ----

  /** Group Order[k] is of height h. */
  predicate FoldsAt(t: Tables, k: nat, h: nat)
    requires ValidTables(t) && k < |t.order|
  {
    Group(t, k) < |t.order| && t.heights[Group(t, k)][0] == h
  }

  /** A leaf chained onto the running hash; the first leaf starts it. */
  function Attach(compress: (Cell, Cell) -> Cell, cur: Option<Cell>, leaf: Cell): Option<Cell> {
    Some(if cur.None? then leaf else compress(cur.value, leaf))
  }

  /** The groups of height h among the first k of the order, chained onto cur in order. */
  function Chain(t: Tables, compress: (Cell, Cell) -> Cell, cur: Option<Cell>, k: nat, h: nat): Option<Cell>
    requires ValidTables(t) && k <= |t.order|
  {
    if k == 0 then cur
    else
      var prev := Chain(t, compress, cur, k - 1, h);
      if FoldsAt(t, k - 1, h) then Attach(compress, prev, t.leaves[Group(t, k - 1)]) else prev
  }

  /** A node and its sibling, ordered by the direction bit. */
  function Up(compress: (Cell, Cell) -> Cell, cur: Option<Cell>, sibling: Cell, bit: int): Option<Cell> {
    if cur.None? then None
    else Some(if bit == 1 then compress(sibling, cur.value) else compress(cur.value, sibling))
  }

  /** The hash entering height h: the node below it compressed with its sibling by bit
      H - (h + 1) of the index, nothing at the maximum height. */
  function Entering(t: Tables, compress: (Cell, Cell) -> Cell, index: nat, h: nat): Option<Cell>
    requires ValidTables(t) && h <= |t.siblings|
    decreases |t.siblings| - h, 0
  {
    if h == |t.siblings| then None
    else Up(compress, Node(t, compress, index, h + 1), t.siblings[h], BitOf(index, |t.siblings| - h - 1))
  }

  /** The path's node at height h: what enters the height, with the height's groups chained. */
  function Node(t: Tables, compress: (Cell, Cell) -> Cell, index: nat, h: nat): Option<Cell>
    requires ValidTables(t) && h <= |t.siblings|
    decreases |t.siblings| - h, 1
  {
    Chain(t, compress, Entering(t, compress, index, h), |t.order|, h)
  }

  function Cur(st: State): Option<Cell> { if st.started then Some(st.cur) else None }

  lemma NextFacts(t: Tables, st: State)
    requires InRange(t, st)
    ensures st.hc <= |t.siblings| && st.fc <= |t.order| && st.index < P
    ensures match Next(t, st)
      case Fold(pi) => pi < |t.order| && st.fc < |t.order|
      case Level => st.hc > 0
      case Done => st.hc == 0 && st.fc == |t.order|
      case Fail => true
  {
  }

  /** A successful execution finds every group left at a height it has yet to pass. */
  lemma {:induction false} HeightsLeft(t: Tables, compress: (Cell, Cell) -> Cell, st: State, k: nat)
    requires InRange(t, st) && Rows(t, compress, st).Some? && st.fc <= k < |t.order|
    ensures Group(t, k) < |t.order| && t.heights[Group(t, k)][0] <= st.hc
    ensures Next(t, st).Level? ==> t.heights[Group(t, k)][0] < st.hc
    decreases st.hc + |t.order| - st.fc
  {
    match Next(t, st)
    case Fold(pi) =>
      if k > st.fc { HeightsLeft(t, compress, FoldState(st, FoldRow(t, compress, st, pi)), k); }
    case Level =>
      HeightsLeft(t, compress, LevelState(st, LevelRow(t, compress, st)), k);
  }

  /** Groups of other heights do not change the chain. */
  lemma {:induction false} ChainSkips(t: Tables, compress: (Cell, Cell) -> Cell, cur: Option<Cell>, j: nat, k: nat, h: nat)
    requires ValidTables(t) && j <= k <= |t.order|
    requires forall i :: j <= i < k ==> !FoldsAt(t, i, h)
    ensures Chain(t, compress, cur, k, h) == Chain(t, compress, cur, j, h)
    decreases k
  {
    if j < k { ChainSkips(t, compress, cur, j, k - 1, h); }
  }

  /** Execution has chained exactly the groups it passed, at their heights. */
  ghost predicate OnPath(t: Tables, compress: (Cell, Cell) -> Cell, index: nat, st: State) {
    && InRange(t, st)
    && st.index == index / Pow2(|t.siblings| - st.hc)
    && st.started == (st.fc > 0)
    && Cur(st) == Chain(t, compress, Entering(t, compress, index, st.hc), st.fc, st.hc)
    && forall k :: 0 <= k < st.fc ==> Group(t, k) < |t.order| && t.heights[Group(t, k)][0] >= st.hc
  }

  lemma StartOnPath(t: Tables, compress: (Cell, Cell) -> Cell, index: nat)
    requires ValidTables(t) && index < P
    ensures OnPath(t, compress, index, Start(t, index))
  {
  }

  lemma FoldOnPath(t: Tables, compress: (Cell, Cell) -> Cell, index: nat, st: State, pi: nat)
    requires OnPath(t, compress, index, st) && Next(t, st) == Fold(pi)
    ensures OnPath(t, compress, index, FoldState(st, FoldRow(t, compress, st, pi)))
  {
  }

  lemma LevelOnPath(t: Tables, compress: (Cell, Cell) -> Cell, index: nat, st: State)
    requires OnPath(t, compress, index, st) && Next(t, st) == Level && Rows(t, compress, st).Some?
    ensures OnPath(t, compress, index, LevelState(st, LevelRow(t, compress, st)))
  {
    hide Rows;
    var h, next := st.hc - 1, LevelState(st, LevelRow(t, compress, st));
    forall i | st.fc <= i < |t.order| ensures !FoldsAt(t, i, st.hc) { HeightsLeft(t, compress, st, i); }
    ChainSkips(t, compress, Entering(t, compress, index, st.hc), st.fc, |t.order|, st.hc);
    assert Cur(st) == Node(t, compress, index, st.hc);
    DivPow2(index, |t.siblings| - st.hc);
    assert Cur(next) == Entering(t, compress, index, h);
    ChainSkips(t, compress, Entering(t, compress, index, h), 0, st.fc, h);
  }

  /** The last row of a successful execution holds the path's node at height 0. */
  lemma {:induction false} ReachesRoot(t: Tables, compress: (Cell, Cell) -> Cell, index: nat, st: State)
    requires OnPath(t, compress, index, st) && Rows(t, compress, st).Some?
    ensures var rows := Rows(t, compress, st).value;
      && |rows| == st.hc + |t.order| - st.fc
      && Node(t, compress, index, 0) == if rows == [] then Cur(st) else Some(rows[|rows| - 1].out)
    decreases st.hc + |t.order| - st.fc
  {
    hide OnPath, Node, Entering, Chain, FoldRow, LevelRow, Next, InRange;
    StartedOnPath(t, compress, index, st);
    NextFacts(t, st);
    match Next(t, st)
    case Fold(pi) =>
      FoldOnPath(t, compress, index, st, pi);
      ReachesRoot(t, compress, index, FoldState(st, FoldRow(t, compress, st, pi)));
    case Level =>
      LevelOnPath(t, compress, index, st);
      var next := LevelState(st, LevelRow(t, compress, st));
      StartedOnPath(t, compress, index, next);
      ReachesRoot(t, compress, index, next);
    case Done =>
      DoneAtRoot(t, compress, index, st);
  }

  lemma StartedOnPath(t: Tables, compress: (Cell, Cell) -> Cell, index: nat, st: State)
    requires OnPath(t, compress, index, st)
    ensures st.started == (st.fc > 0) && InRange(t, st)
  {
  }

  lemma DoneAtRoot(t: Tables, compress: (Cell, Cell) -> Cell, index: nat, st: State)
    requires OnPath(t, compress, index, st) && Next(t, st) == Done
    ensures Node(t, compress, index, 0) == Cur(st)
  {
  }

  // ---- completeness ----

  /** The scalar tables hold scalar cells. */
  predicate Typed(t: Tables) {
    && (forall k :: 0 <= k < |t.order| ==> t.order[k] == ScalarCell(t.order[k][0]))
    && (forall k :: 0 <= k < |t.heights| ==> t.heights[k] == ScalarCell(t.heights[k][0]))
  }

  /** A row starts in a state. */
  predicate StartsIn(st: State, row: Row) {
    && row.hc == st.hc && row.fc == st.fc && row.started == Bit(st.started)
    && row.idx == st.index && row.cur == st.cur
  }

  lemma {:induction false} FirstRow(t: Tables, compress: (Cell, Cell) -> Cell, st: State)
    requires InRange(t, st) && Rows(t, compress, st).Some? && Rows(t, compress, st).value != []
    ensures StartsIn(st, Rows(t, compress, st).value[0])
  {
  }

  lemma LanesOk(trans: int, row: Row, next: Row, i: nat)
    requires i < CellWidth && (trans == 0 || next.cur == row.out)
    requires IsBit(row.started) && IsBit(row.kind)
    requires row.started == 0 ==> row.out == if row.kind == 1 then row.op else row.cur
    ensures Zero(trans * (Lane(next.cur, i) - Lane(row.out, i)))
    ensures Zero((1 - row.started) * (Lane(row.out, i) - Lane(row.cur, i) - row.kind * (Lane(row.op, i) - Lane(row.cur, i))))
  {
    Gate(trans, Lane(next.cur, i) - Lane(row.out, i));
    Gate(row.kind, Lane(row.op, i) - Lane(row.cur, i));
    Gate(1 - row.started, Lane(row.out, i) - Lane(row.cur, i) - row.kind * (Lane(row.op, i) - Lane(row.cur, i)));
  }

  /** The converse of ShapeMeaning and StepMeaning. */
  lemma MeansRowOk(isFirst: bool, isLast: bool, row: Row, next: Row)
    requires ShapeMeans(isFirst, isLast, row) && (isLast || StepMeans(row, next)) && IsBit(row.started)
    ensures RowOk(isFirst, isLast, row, next)
  {
    var trans := 1 - Bit(isLast);
    forall i | 0 <= i < CellWidth
      ensures Zero(trans * (Lane(next.cur, i) - Lane(row.out, i)))
      ensures Zero((1 - row.started) * (Lane(row.out, i) - Lane(row.cur, i) - row.kind * (Lane(row.op, i) - Lane(row.cur, i))))
    {
      LanesOk(trans, row, next, i);
    }
    Gate(row.kind, row.b);
    Gate(Bit(isFirst), row.started);
    Gate(trans, next.hc - row.hc + (1 - row.kind));
    Gate(trans, next.fc - row.fc - row.kind);
    Gate(row.started, row.kind);
    Gate(trans, next.started - (row.started + row.kind - row.started * row.kind));
    Gate(1, row.idx - row.b);
    Gate(trans, 2 - row.kind);
    Gate(trans * (2 - row.kind), next.idx);
  }

  lemma FoldGood(t: Tables, compress: (Cell, Cell) -> Cell, st: State, pi: nat, isLast: bool, next: Row)
    requires InRange(t, st) && Typed(t) && Next(t, st) == Fold(pi)
    requires if isLast then st.index == 0 else StartsIn(FoldState(st, FoldRow(t, compress, st, pi)), next)
    ensures var row := FoldRow(t, compress, st, pi);
      RowOk(false, isLast, row, next) && ReadsOk(t, row) && HashOk(compress, row)
  {
    hide RowOk;
    var row := FoldRow(t, compress, st, pi);
    MixBit(0, row.cur, row.op);
    MixBit(0, row.op, row.cur);
    MeansRowOk(false, isLast, row, next);
  }

  lemma LevelGood(t: Tables, compress: (Cell, Cell) -> Cell, st: State, isLast: bool, next: Row)
    requires InRange(t, st) && Next(t, st) == Level
    requires if isLast then st.index < 2 else StartsIn(LevelState(st, LevelRow(t, compress, st)), next)
    ensures var row := LevelRow(t, compress, st);
      RowOk(false, isLast, row, next) && ReadsOk(t, row) && HashOk(compress, row)
  {
    hide RowOk, ReadsOk, HashOk;
    var row := LevelRow(t, compress, st);
    LevelRowReads(t, compress, st);
    MeansRowOk(false, isLast, row, next);
  }

  lemma LevelRowReads(t: Tables, compress: (Cell, Cell) -> Cell, st: State)
    requires InRange(t, st) && Next(t, st) == Level
    ensures var row := LevelRow(t, compress, st); ReadsOk(t, row) && HashOk(compress, row)
  {
    var row := LevelRow(t, compress, st);
    MixBit(row.b, row.cur, row.op);
    MixBit(row.b, row.op, row.cur);
  }

  /** Executed rows meet every constraint, whatever follows them in the module. */
  lemma {:induction false} CompleteFrom(t: Tables, compress: (Cell, Cell) -> Cell, st: State, after: Row, k: nat)
    requires InRange(t, st) && Typed(t) && st.index < Pow2(st.hc)
    requires Rows(t, compress, st).Some? && k < |Rows(t, compress, st).value|
    ensures var rows := Rows(t, compress, st).value;
      RowOk(false, k == |rows| - 1, rows[k], At(rows, k + 1, after)) && ReadsOk(t, rows[k]) && HashOk(compress, rows[k])
    decreases st.hc + |t.order| - st.fc
  {
    hide RowOk, ReadsOk, HashOk, Typed, FoldRow, LevelRow;
    var rows := Rows(t, compress, st).value;
    NextFacts(t, st);
    match Next(t, st)
    case Fold(pi) =>
      var row := FoldRow(t, compress, st, pi);
      var next := FoldState(st, row);
      if k > 0 {
        CompleteFrom(t, compress, next, after, k - 1);
      } else {
        LastState(t, compress, next);
        if rows[1..] != [] { FirstRow(t, compress, next); }
        FoldGood(t, compress, st, pi, |rows| == 1, At(rows, 1, after));
      }
    case Level =>
      var row := LevelRow(t, compress, st);
      var next := LevelState(st, row);
      assert Pow2(st.hc) == 2 * Pow2(st.hc - 1);
      if k > 0 {
        CompleteFrom(t, compress, next, after, k - 1);
      } else {
        LastState(t, compress, next);
        if rows[1..] != [] { FirstRow(t, compress, next); }
        LevelGood(t, compress, st, |rows| == 1, At(rows, 1, after));
      }
  }

  lemma LastState(t: Tables, compress: (Cell, Cell) -> Cell, st: State)
    requires InRange(t, st) && Rows(t, compress, st).Some?
    ensures Rows(t, compress, st).value == [] ==> st.hc == 0 && Pow2(0) == 1
  {
  }

  // ---- what execution records ----

  /** The table entries a row reads, by table tag and index. */
  function RowEntries(p: DynamicPath, row: Row): seq<(nat, nat)> {
    if row.kind == 1 then [(p.order.tag, row.fc), (p.heights.tag, row.pi), (p.leaves.tag, row.pi)]
    else [(p.siblings.tag, (row.hc - 1) % P)]
  }

  function Entries(p: DynamicPath, rows: seq<Row>): seq<(nat, nat)> {
    if rows == [] then [] else Entries(p, rows[..|rows| - 1]) + RowEntries(p, rows[|rows| - 1])
  }

  /** The compressions the rows look up in the P2 core. */
  function Hashes(rows: seq<Row>): seq<(Cell, Cell)> {
    if rows == [] then []
    else
      var row := rows[|rows| - 1];
      Hashes(rows[..|rows| - 1]) + if row.started == 1 then [(Left(row), Right(row))] else []
  }

  lemma {:induction false} FewHashes(rows: seq<Row>)
    ensures |Hashes(rows)| <= |rows|
    ensures rows != [] && rows[0].started == 0 ==> |Hashes(rows)| <= |rows| - 1
  {
    if |rows| > 0 {
      FewHashes(rows[..|rows| - 1]);
    }
  }

  // ---- main results ----

  /** Any rows that meet the constraints and the bus reads are an execution: exactly G
      folds and H levels from height H and fold 0, at an index below 2^H, ending in
      the hash of the path. */
  lemma DPathSound(t: Tables, compress: (Cell, Cell) -> Cell, rows: seq<Row>, after: Row)
    requires ValidTables(t) && RowsOk(t, compress, rows, after)
    ensures Folds(rows, |rows|) == |t.order| && Levels(rows, |rows|) == |t.siblings|
    ensures rows[0].hc == |t.siblings| && rows[0].fc == 0
    ensures rows[0].idx < Pow2(|t.siblings|)
    ensures var r := ExecRows(t, compress, rows[0].idx);
      && r.Some? && |r.value| == |rows|
      && forall k :: 0 <= k < |rows| ==> Matches(r.value[k], rows[k])
    ensures Node(t, compress, rows[0].idx, 0) == Some(rows[|rows| - 1].out)
  {
    hide RowsOk, Matches, Node, Rows, OnPath, RowOk, ReadsOk, HashOk;
    RowCount(t, compress, rows, after);
    Pigeonhole(t, compress, rows, after);
    IndexFits(t, compress, rows, after, 0);
    Meaning(t, compress, rows, after, 0);
    var index, st := rows[0].idx, Start(t, rows[0].idx);
    FitsInIff(index, |t.siblings|);
    SoundFrom(t, compress, rows, after, 0, st);
    StartOnPath(t, compress, index);
    ReachesRoot(t, compress, index, st);
    LastOut(t, compress, rows, after, Rows(t, compress, st).value);
  }

  lemma RowCount(t: Tables, compress: (Cell, Cell) -> Cell, rows: seq<Row>, after: Row)
    requires ValidTables(t) && RowsOk(t, compress, rows, after)
    ensures |rows| == |t.siblings| + |t.order| && |rows| >= 2
  {
    hide PolyOk, ReadsOk, HashOk;
  }

  lemma LastOut(t: Tables, compress: (Cell, Cell) -> Cell, rows: seq<Row>, after: Row, e: seq<Row>)
    requires ValidTables(t) && RowsOk(t, compress, rows, after) && |e| == |rows|
    requires forall k :: 0 <= k < |rows| ==> Matches(e[k], rows[k])
    ensures e[|rows| - 1].out == rows[|rows| - 1].out
  {
    hide RowsOk, RowOk, ReadsOk, HashOk;
    RowCount(t, compress, rows, after);
    var n := |rows| - 1;
    Pigeonhole(t, compress, rows, after);
    StartedByFolds(t, compress, rows, after, n);
    assert Matches(e[n], rows[n]);
  }

  /** A row is started exactly when a fold precedes it. */
  lemma {:induction false} StartedByFolds(t: Tables, compress: (Cell, Cell) -> Cell, rows: seq<Row>, after: Row, i: nat)
    requires RowsOk(t, compress, rows, after) && i < |rows|
    ensures rows[i].started == if Folds(rows, i) > 0 then 1 else 0
  {
    hide RowsOk, RowOk, ReadsOk, HashOk;
    if i > 0 {
      StartedByFolds(t, compress, rows, after, i - 1);
      Meaning(t, compress, rows, after, i - 1);
    } else {
      Meaning(t, compress, rows, after, 0);
    }
  }

  /** A successful execution takes H + G rows that meet every constraint and read,
      ends in the path's hash, and records at most H + G - 1 compressions. */
  lemma DPathComplete(t: Tables, compress: (Cell, Cell) -> Cell, index: nat, after: Row)
    requires ValidTables(t) && Typed(t) && index < P && ExecRows(t, compress, index).Some?
    ensures var rows := ExecRows(t, compress, index).value;
      && RowsOk(t, compress, rows, after)
      && rows[0].idx == index
      && Node(t, compress, index, 0) == Some(rows[|rows| - 1].out)
      && |Hashes(rows)| <= |t.siblings| + |t.order| - 1
  {
    hide Node, OnPath, Rows, ReadsOk, HashOk, Hashes;
    var st := Start(t, index);
    var rows := Rows(t, compress, st).value;
    StartOnPath(t, compress, index);
    ReachesRoot(t, compress, index, st);
    FirstRow(t, compress, st);
    FitsInIff(index, |t.siblings|);
    forall k | 0 <= k < |rows|
      ensures RowOk(k == 0, k == |rows| - 1, rows[k], At(rows, k + 1, after)) && ReadsOk(t, rows[k]) && HashOk(compress, rows[k])
    {
      CompleteFrom(t, compress, st, after, k);
    }
    FewHashes(rows);
  }

  /** Some rows meet the constraints and reads, with this index read first and this root last. */
  ghost predicate Accepts(t: Tables, compress: (Cell, Cell) -> Cell, index: Elt, root: Cell) {
    exists rows: seq<Row>, after: Row ::
      RowsOk(t, compress, rows, after) && |rows| > 0 && rows[0].idx == index && rows[|rows| - 1].out == root
  }

  /** The chip accepts an index and a root exactly when execution succeeds and the path's
      hash is the root. */
  lemma DPathAccepts(t: Tables, compress: (Cell, Cell) -> Cell, index: Elt, root: Cell)
    requires ValidTables(t) && Typed(t)
    ensures Accepts(t, compress, index, root)
       <==> ExecRows(t, compress, index).Some? && Node(t, compress, index, 0) == Some(root)
  {
    hide RowsOk, Node, ExecRows;
    if Accepts(t, compress, index, root) {
      var rows: seq<Row>, after: Row :|
        RowsOk(t, compress, rows, after) && |rows| > 0 && rows[0].idx == index && rows[|rows| - 1].out == root;
      DPathSound(t, compress, rows, after);
    }
    if ExecRows(t, compress, index).Some? && Node(t, compress, index, 0) == Some(root) {
      var rows := ExecRows(t, compress, index).value;
      var after := Row(0, 0, 0, 0, 0, 0, 0, ZeroCell, ZeroCell, ZeroCell);
      DPathComplete(t, compress, index, after);
      RowCount(t, compress, rows, after);
    }
  }

  // ---- execution, step by step ----

  /** A dynamic path: its tables, and the cells of the index and of the root. */
  datatype DynamicPath = DynamicPath(leaves: Table, heights: Table, order: Table, siblings: Table, index: nat, root: nat)

  predicate Addressed(p: DynamicPath, mem: Memory) {
    && InMemory(p.leaves.src, mem) && InMemory(p.heights.src, mem)
    && InMemory(p.order.src, mem) && InMemory(p.siblings.src, mem)
    && p.index < |mem| && p.root < |mem|
  }

  function TablesOf(p: DynamicPath, mem: Memory): Tables
    requires Addressed(p, mem)
  {
    Tables(Load(mem, p.leaves.src), Load(mem, p.heights.src), Load(mem, p.order.src), Load(mem, p.siblings.src))
  }

  function Append(rows: seq<Row>, rest: Option<seq<Row>>): Option<seq<Row>> {
    if rest.Some? then Some(rows + rest.value) else None
  }

  lemma AppendStep(rows: seq<Row>, row: Row, rest: Option<seq<Row>>)
    ensures Append(rows, Prepend(row, rest)) == Append(rows + [row], rest)
  {
    if rest.Some? { assert rows + ([row] + rest.value) == rows + [row] + rest.value; }
  }

  lemma HashesStep(rows: seq<Row>, row: Row)
    ensures Hashes(rows + [row]) == Hashes(rows) + if row.started == 1 then [(Left(row), Right(row))] else []
  {
    assert (rows + [row])[..|rows|] == rows;
  }

  lemma EntriesStep(p: DynamicPath, rows: seq<Row>, row: Row)
    ensures Entries(p, rows + [row]) == Entries(p, rows) + RowEntries(p, row)
  {
    assert (rows + [row])[..|rows|] == rows;
  }

  /** The loops' invariant: the rows so far, then those from the state, are all the rows. */
  ghost predicate Progress(p: DynamicPath, t: Tables, compress: (Cell, Cell) -> Cell, all: Option<seq<Row>>,
                           rows: seq<Row>, st: State, p2: seq<(Cell, Cell)>, counts: multiset<(nat, nat)>) {
    && InRange(t, st)
    && all == Append(rows, Rows(t, compress, st))
    && p2 == Hashes(rows)
    && counts == multiset(Entries(p, rows))
  }

  lemma FoldProgress(p: DynamicPath, t: Tables, compress: (Cell, Cell) -> Cell, all: Option<seq<Row>>,
                     rows: seq<Row>, st: State, p2: seq<(Cell, Cell)>, counts: multiset<(nat, nat)>, pi: nat)
    requires Progress(p, t, compress, all, rows, st, p2, counts) && Next(t, st) == Fold(pi)
    ensures var row := FoldRow(t, compress, st, pi);
      Progress(p, t, compress, all, rows + [row], FoldState(st, row),
               if st.started then p2 + [(st.cur, row.op)] else p2,
               counts + multiset{(p.order.tag, st.fc), (p.heights.tag, pi), (p.leaves.tag, pi)})
  {
    var row := FoldRow(t, compress, st, pi);
    FoldRows(t, compress, st, pi);
    FoldRecords(p, t, compress, rows, st, pi);
    hide Rows, Next, Hashes, Entries, FoldRow;
    AppendStep(rows, row, Rows(t, compress, FoldState(st, row)));
  }

  lemma FoldRows(t: Tables, compress: (Cell, Cell) -> Cell, st: State, pi: nat)
    requires InRange(t, st) && Next(t, st) == Fold(pi)
    ensures var row := FoldRow(t, compress, st, pi);
      InRange(t, FoldState(st, row)) && Rows(t, compress, st) == Prepend(row, Rows(t, compress, FoldState(st, row)))
  {
  }

  lemma LevelRows(t: Tables, compress: (Cell, Cell) -> Cell, st: State)
    requires InRange(t, st) && Next(t, st) == Level
    ensures var row := LevelRow(t, compress, st);
      InRange(t, LevelState(st, row)) && Rows(t, compress, st) == Prepend(row, Rows(t, compress, LevelState(st, row)))
  {
  }

  lemma FoldRecords(p: DynamicPath, t: Tables, compress: (Cell, Cell) -> Cell, rows: seq<Row>, st: State, pi: nat)
    requires InRange(t, st) && Next(t, st) == Fold(pi)
    ensures var row := FoldRow(t, compress, st, pi);
      && Hashes(rows + [row]) == (if st.started then Hashes(rows) + [(st.cur, row.op)] else Hashes(rows))
      && multiset(Entries(p, rows + [row]))
           == multiset(Entries(p, rows)) + multiset{(p.order.tag, st.fc), (p.heights.tag, pi), (p.leaves.tag, pi)}
  {
    hide Hashes, Entries, Mix;
    var row := FoldRow(t, compress, st, pi);
    HashesStep(rows, row);
    EntriesStep(p, rows, row);
    MixBit(0, row.cur, row.op);
    MixBit(0, row.op, row.cur);
    assert multiset(RowEntries(p, row)) == multiset{(p.order.tag, st.fc), (p.heights.tag, pi), (p.leaves.tag, pi)};
  }

  lemma LevelRecords(p: DynamicPath, t: Tables, compress: (Cell, Cell) -> Cell, rows: seq<Row>, st: State)
    requires InRange(t, st) && Next(t, st) == Level
    ensures var row := LevelRow(t, compress, st);
      && Hashes(rows + [row]) == (if !st.started then Hashes(rows) else
           Hashes(rows) + if row.b == 1 then [(row.op, st.cur)] else [(st.cur, row.op)])
      && multiset(Entries(p, rows + [row])) == multiset(Entries(p, rows)) + multiset{(p.siblings.tag, st.hc - 1)}
  {
    hide Hashes, Entries, Mix;
    var row := LevelRow(t, compress, st);
    HashesStep(rows, row);
    EntriesStep(p, rows, row);
    MixBit(row.b, row.cur, row.op);
    MixBit(row.b, row.op, row.cur);
    assert RowEntries(p, row) == [(p.siblings.tag, st.hc - 1)];
    assert multiset(RowEntries(p, row)) == multiset{(p.siblings.tag, st.hc - 1)};
  }

  lemma LevelProgress(p: DynamicPath, t: Tables, compress: (Cell, Cell) -> Cell, all: Option<seq<Row>>,
                      rows: seq<Row>, st: State, p2: seq<(Cell, Cell)>, counts: multiset<(nat, nat)>)
    requires Progress(p, t, compress, all, rows, st, p2, counts) && Next(t, st) == Level
    ensures var row := LevelRow(t, compress, st);
      Progress(p, t, compress, all, rows + [row], LevelState(st, row),
               if !st.started then p2 else p2 + if row.b == 1 then [(row.op, st.cur)] else [(st.cur, row.op)],
               counts + multiset{(p.siblings.tag, st.hc - 1)})
  {
    var row := LevelRow(t, compress, st);
    LevelRows(t, compress, st);
    LevelRecords(p, t, compress, rows, st);
    hide Rows, Next, Hashes, Entries, LevelRow;
    AppendStep(rows, row, Rows(t, compress, LevelState(st, row)));
  }

  lemma StartProgress(p: DynamicPath, t: Tables, compress: (Cell, Cell) -> Cell, index: nat)
    requires ValidTables(t) && index < P
    ensures Progress(p, t, compress, Rows(t, compress, Start(t, index)), [], Start(t, index), [], multiset{})
  {
    var all := Rows(t, compress, Start(t, index));
    if all.Some? { assert [] + all.value == all.value; }
  }

  lemma EndProgress(p: DynamicPath, t: Tables, compress: (Cell, Cell) -> Cell, all: Option<seq<Row>>,
                    rows: seq<Row>, st: State, p2: seq<(Cell, Cell)>, counts: multiset<(nat, nat)>)
    requires Progress(p, t, compress, all, rows, st, p2, counts)
    ensures InRange(t, st) && (Next(t, st) == Fail ==> all == None)
    ensures Next(t, st) == Done ==> all == Some(rows)
    ensures p2 == Hashes(rows) && counts == multiset(Entries(p, rows))
  {
    hide Hashes, Entries;
    if Next(t, st) == Done { assert rows + [] == rows; }
  }

  // The same steps in the terms of the code.

  /** The rows executed so far: those recorded, and the state they leave. */
  datatype Trace = Trace(rows: seq<Row>, st: State, p2: seq<(Cell, Cell)>)

  /** Execution stops at a height: no group left to fold there. */
  predicate HeightDone(t: Tables, st: State)
    requires ValidTables(t)
  {
    st.fc <= |t.order| &&
    (st.fc < |t.order| ==> t.order[st.fc][0] < |t.order| && t.heights[t.order[st.fc][0]][0] < st.hc)
  }

  lemma FoldStep(p: DynamicPath, t: Tables, compress: (Cell, Cell) -> Cell, all: Option<seq<Row>>,
                 rows: seq<Row>, st: State, p2: seq<(Cell, Cell)>, counts: multiset<(nat, nat)>, pi: nat, row: Row)
    requires Progress(p, t, compress, all, rows, st, p2, counts)
    requires st.fc < |t.order| == |t.leaves| == |t.heights| && pi == t.order[st.fc][0] < |t.order| && t.heights[pi][0] == st.hc
    requires st.hc < P && st.fc < P && st.index < P
    requires row == Row(1, st.hc, Bit(st.started), st.fc, pi, 0, st.index, st.cur, t.leaves[pi],
                        if st.started then compress(st.cur, t.leaves[pi]) else t.leaves[pi])
    ensures Progress(p, t, compress, all, rows + [row], State(st.hc, st.fc + 1, true, st.index, row.out),
                     if st.started then p2 + [(st.cur, row.op)] else p2,
                     counts + multiset{(p.order.tag, st.fc), (p.heights.tag, pi), (p.leaves.tag, pi)})
  {
    hide Progress, Hashes, Entries;
    EndProgress(p, t, compress, all, rows, st, p2, counts);
    FoldProgress(p, t, compress, all, rows, st, p2, counts, pi);
  }

  lemma LevelStep(p: DynamicPath, t: Tables, compress: (Cell, Cell) -> Cell, all: Option<seq<Row>>,
                  rows: seq<Row>, st: State, p2: seq<(Cell, Cell)>, counts: multiset<(nat, nat)>, row: Row)
    requires Progress(p, t, compress, all, rows, st, p2, counts)
    requires 0 < st.hc <= |t.siblings| && st.hc < P && st.fc < P && st.index < P
    requires ValidTables(t) && HeightDone(t, st)
    requires row == Row(0, st.hc, Bit(st.started), st.fc, 0, st.index % 2, st.index, st.cur, t.siblings[st.hc - 1],
                        if !st.started then st.cur else if st.index % 2 == 1 then compress(t.siblings[st.hc - 1], st.cur)
                        else compress(st.cur, t.siblings[st.hc - 1]))
    ensures Progress(p, t, compress, all, rows + [row], State(st.hc - 1, st.fc, st.started, st.index / 2, row.out),
                     if !st.started then p2 else p2 + if row.b == 1 then [(row.op, st.cur)] else [(st.cur, row.op)],
                     counts + multiset{(p.siblings.tag, st.hc - 1)})
  {
    hide Progress, Hashes, Entries;
    EndProgress(p, t, compress, all, rows, st, p2, counts);
    LevelProgress(p, t, compress, all, rows, st, p2, counts);
  }

  lemma Stuck(p: DynamicPath, t: Tables, compress: (Cell, Cell) -> Cell, all: Option<seq<Row>>,
              rows: seq<Row>, st: State, p2: seq<(Cell, Cell)>, counts: multiset<(nat, nat)>)
    requires Progress(p, t, compress, all, rows, st, p2, counts) && st.fc < |t.order| == |t.heights|
    requires var pi := t.order[st.fc][0]; pi >= |t.order| || t.heights[pi][0] > st.hc || (st.hc == 0 && t.heights[pi][0] != 0)
    ensures all == None
  {
    EndProgress(p, t, compress, all, rows, st, p2, counts);
  }

  lemma Finished(p: DynamicPath, t: Tables, compress: (Cell, Cell) -> Cell, all: Option<seq<Row>>,
                 rows: seq<Row>, st: State, p2: seq<(Cell, Cell)>, counts: multiset<(nat, nat)>)
    requires Progress(p, t, compress, all, rows, st, p2, counts) && st.fc == |t.order| && st.hc == 0
    ensures all == Some(rows) && p2 == Hashes(rows) && counts == multiset(Entries(p, rows))
  {
    EndProgress(p, t, compress, all, rows, st, p2, counts);
  }

  lemma ProgressRange(p: DynamicPath, t: Tables, compress: (Cell, Cell) -> Cell, all: Option<seq<Row>>,
                      rows: seq<Row>, st: State, p2: seq<(Cell, Cell)>, counts: multiset<(nat, nat)>)
    requires Progress(p, t, compress, all, rows, st, p2, counts)
    ensures st.hc <= |t.siblings| < P && st.fc <= |t.order| == |t.heights| == |t.leaves| < P && st.index < P
  {
    hide Rows, Hashes, Entries;
  }

  lemma ExecRowsIs(t: Tables, compress: (Cell, Cell) -> Cell, index: Elt)
    requires ValidTables(t)
    ensures |t.siblings| < P && InRange(t, Start(t, index))
    ensures ExecRows(t, compress, index)
         == if !FitsIn(index, |t.siblings|) then None else Rows(t, compress, Start(t, index))
  {
    hide Rows;
  }

  /** The inner loop: fold the groups of the current height, in order. */
  method FoldHeight(p: DynamicPath, t: Tables, compress: (Cell, Cell) -> Cell, ghost all: Option<seq<Row>>,
                    from: Trace, ghost counted: multiset<(nat, nat)>, r: Run, ghost before: multiset<(nat, nat)>)
    returns (res: Option<Trace>, ghost counts: multiset<(nat, nat)>)
    requires ValidTables(t) && Progress(p, t, compress, all, from.rows, from.st, from.p2, counted)
    requires r.tableReads == before + counted
    modifies r`tableReads
    ensures res.None? ==> all == None
    ensures res.Some? ==>
      && Progress(p, t, compress, all, res.value.rows, res.value.st, res.value.p2, counts)
      && HeightDone(t, res.value.st) && res.value.st.hc == from.st.hc
      && r.tableReads == before + counts
  {
    hide Progress;
    counts := counted;
    var tr := from;
    while tr.st.fc < |t.order|
      invariant Progress(p, t, compress, all, tr.rows, tr.st, tr.p2, counts)
      invariant r.tableReads == before + counts && tr.st.hc == from.st.hc
      decreases |t.order| - tr.st.fc
    {
      var st := tr.st;
      ProgressRange(p, t, compress, all, tr.rows, st, tr.p2, counts);
      var pi: nat := t.order[st.fc][0];
      if pi >= |t.order| || t.heights[pi][0] > st.hc {
        Stuck(p, t, compress, all, tr.rows, st, tr.p2, counts);
        return None, counts;
      }
      if t.heights[pi][0] < st.hc { return Some(tr), counts; }
      var op := t.leaves[pi];
      var row := Row(1, st.hc, Bit(st.started), st.fc, pi, 0, st.index, st.cur, op,
                     if st.started then compress(st.cur, op) else op);
      FoldStep(p, t, compress, all, tr.rows, st, tr.p2, counts, pi, row);
      tr := Trace(tr.rows + [row], State(st.hc, st.fc + 1, true, st.index, row.out),
                  if st.started then tr.p2 + [(st.cur, op)] else tr.p2);
      var read := multiset{(p.order.tag, st.fc), (p.heights.tag, pi), (p.leaves.tag, pi)};
      r.tableReads, counts := r.tableReads + read, counts + read;
    }
    ProgressRange(p, t, compress, all, tr.rows, tr.st, tr.p2, counts);
    return Some(tr), counts;
  }

  /** The level hc to hc - 1: compress with the sibling, ordered by the index's low bit. */
  method Climb(p: DynamicPath, t: Tables, compress: (Cell, Cell) -> Cell, ghost all: Option<seq<Row>>,
               from: Trace, ghost counted: multiset<(nat, nat)>, r: Run, ghost before: multiset<(nat, nat)>)
    returns (tr: Trace, ghost counts: multiset<(nat, nat)>)
    requires ValidTables(t) && Progress(p, t, compress, all, from.rows, from.st, from.p2, counted)
    requires HeightDone(t, from.st) && from.st.hc > 0 && r.tableReads == before + counted
    modifies r`tableReads
    ensures Progress(p, t, compress, all, tr.rows, tr.st, tr.p2, counts)
    ensures tr.st.hc == from.st.hc - 1 && r.tableReads == before + counts
  {
    hide Progress;
    var st := from.st;
    ProgressRange(p, t, compress, all, from.rows, st, from.p2, counted);
    var op := t.siblings[st.hc - 1];
    var left, right := st.cur, op;
    if st.index % 2 == 1 { left, right := right, left; }
    var row := Row(0, st.hc, Bit(st.started), st.fc, 0, st.index % 2, st.index, st.cur, op,
                   if st.started then compress(left, right) else st.cur);
    LevelStep(p, t, compress, all, from.rows, st, from.p2, counted, row);
    tr := Trace(from.rows + [row], State(st.hc - 1, st.fc, st.started, st.index / 2, row.out),
                if st.started then from.p2 + [(left, right)] else from.p2);
    var read := multiset{(p.siblings.tag, st.hc - 1)};
    r.tableReads, counts := r.tableReads + read, counted + read;
  }

  /** Executes a path: its rows, its table reads and its compressions. A path that misses
      the root executes; its last row then disagrees with the root cell. */
  method ExecDPath(p: DynamicPath, compress: (Cell, Cell) -> Cell, r: Run) returns (res: Option<seq<Row>>)
    requires Addressed(p, r.values) && ValidTables(TablesOf(p, r.values))
    modifies r
    ensures r.values == old(r.values)
    ensures res == ExecRows(TablesOf(p, r.values), compress, r.values[p.index][0])
    ensures res.Some? ==> r.p2 == old(r.p2) + Hashes(res.value)
    ensures res.Some? ==> r.tableReads == old(r.tableReads) + multiset(Entries(p, res.value))
    ensures res.None? ==> r.p2 == old(r.p2)
  {
    var index := r.values[p.index][0];
    hide *;
    var t := TablesOf(p, r.values);
    ExecRowsIs(t, compress, index);
    if !FitsIn(index, |t.siblings|) { return None; }
    ghost var all := Rows(t, compress, Start(t, index));
    StartProgress(p, t, compress, index);
    var tr := Trace([], Start(t, index), []);
    ghost var before, counts: multiset<(nat, nat)> := r.tableReads, multiset{};
    while true
      invariant Progress(p, t, compress, all, tr.rows, tr.st, tr.p2, counts)
      invariant r.values == old(r.values) && r.p2 == old(r.p2) && r.tableReads == before + counts
      decreases tr.st.hc
    {
      var folded, now := FoldHeight(p, t, compress, all, tr, counts, r, before);
      if folded.None? { return None; }
      tr, counts := folded.value, now;
      if tr.st.hc == 0 { break; }
      tr, counts := Climb(p, t, compress, all, tr, counts, r, before);
    }
    if tr.st.fc != |t.order| {
      Unfinished(p, t, compress, all, tr, counts);
      return None;
    }
    Finished(p, t, compress, all, tr.rows, tr.st, tr.p2, counts);
    r.p2 := r.p2 + tr.p2;
    res := Some(tr.rows);
  }

  lemma Unfinished(p: DynamicPath, t: Tables, compress: (Cell, Cell) -> Cell, all: Option<seq<Row>>,
                   tr: Trace, counts: multiset<(nat, nat)>)
    requires ValidTables(t) && Progress(p, t, compress, all, tr.rows, tr.st, tr.p2, counts)
    requires HeightDone(t, tr.st) && tr.st.hc == 0 && tr.st.fc != |t.order|
    ensures all == None
  {
    Stuck(p, t, compress, all, tr.rows, tr.st, tr.p2, counts);
  }

  // ---- memory accesses ----

  function Slots(p: DynamicPath): seq<Slot> { [Slot(p.index, false), Slot(p.root, false)] }

  function Vals(rows: seq<Row>): seq<Cell>
    requires rows != []
  { [ScalarCell(rows[0].idx), rows[|rows| - 1].out] }

  lemma AgreeMeans(p: DynamicPath, rows: seq<Row>, mem: Memory)
    requires rows != []
    ensures Agree(Slots(p), Vals(rows), mem) <==>
      p.index < |mem| && p.root < |mem| && mem[p.index] == ScalarCell(rows[0].idx) && mem[p.root] == rows[|rows| - 1].out
  {
    hide ScalarCell;
    assert Slots(p)[0].addr == p.index && Slots(p)[1].addr == p.root;
    assert Vals(rows)[0] == ScalarCell(rows[0].idx) && Vals(rows)[1] == rows[|rows| - 1].out;
  }
}
