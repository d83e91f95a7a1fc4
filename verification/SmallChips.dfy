/** The select chip: out = bit ? a : b, on all lanes. */
module ChipSelect {
  import opened KoalaBear
  import opened Constraints
  import opened Cells

  datatype Select = Select(bit: nat, a: nat, b: nat, out: nat)

  datatype Row = Row(bit: Elt, a: Cell, b: Cell, out: Cell)

  predicate LaneOk(row: Row, i: nat)
    requires i < CellWidth
  { Zero(Lane(row.out, i) - Lane(row.b, i) - row.bit * (Lane(row.a, i) - Lane(row.b, i))) }

  predicate RowOk(row: Row) {
    Zero(row.bit * (row.bit - 1)) && forall i :: 0 <= i < CellWidth ==> LaneOk(row, i)
  }

  function Slots(s: Select): seq<Slot> { [Slot(s.bit, false), Slot(s.a, false), Slot(s.b, false), Slot(s.out, true)] }
  function Vals(row: Row): seq<Cell> { [ScalarCell(row.bit), row.a, row.b, row.out] }

  lemma LaneMeans(row: Row, i: nat)
    requires i < CellWidth && IsBit(row.bit)
    ensures LaneOk(row, i) <==> row.out[i] == if row.bit == 1 then row.a[i] else row.b[i]
  {
    Gate(row.bit, Lane(row.a, i) - Lane(row.b, i));
    if LaneOk(row, i) { Same(row.out[i], if row.bit == 1 then row.a[i] else row.b[i]); }
  }

  lemma RowMeans(row: Row)
    ensures RowOk(row) <==> IsBit(row.bit) && row.out == if row.bit == 1 then row.a else row.b
  {
    hide LaneOk;
    if RowOk(row) { Boolean(row.bit); }
    if IsBit(row.bit) {
      forall i | 0 <= i < CellWidth ensures LaneOk(row, i) <==> row.out[i] == if row.bit == 1 then row.a[i] else row.b[i] {
        LaneMeans(row, i);
      }
    }
  }

  predicate InBounds(s: Select, mem: Memory) { s.bit < |mem| && s.a < |mem| && s.b < |mem| && s.out < |mem| }

  /** The selected cell; None if the bit is neither 0 nor 1. */
  function Writes(s: Select, mem: Memory): Option<seq<Write>>
    requires InBounds(s, mem)
  {
    var bit := mem[s.bit][0];
    if bit == 1 then Some([Write(s.out, mem[s.a])])
    else if bit == 0 then Some([Write(s.out, mem[s.b])])
    else None
  }

  /** A row meeting its constraints and accesses exists exactly when execution succeeds on a
      scalar bit and writes what the memory holds. */
  lemma SelectExact(s: Select, mem: Memory)
    requires InBounds(s, mem)
    ensures (exists row :: RowOk(row) && Agree(Slots(s), Vals(row), mem))
       <==> mem[s.bit] == ScalarCell(mem[s.bit][0]) && Writes(s, mem).Some? && mem[s.out] == Writes(s, mem).value[0].val
  {
    hide RowOk;
    if row :| RowOk(row) && Agree(Slots(s), Vals(row), mem) {
      RowMeans(row);
      assert mem[Slots(s)[0].addr] == Vals(row)[0] && mem[Slots(s)[1].addr] == Vals(row)[1];
      assert mem[Slots(s)[2].addr] == Vals(row)[2] && mem[Slots(s)[3].addr] == Vals(row)[3];
    }
    var row := Row(mem[s.bit][0], mem[s.a], mem[s.b], mem[s.out]);
    RowMeans(row);
    if mem[s.bit] == ScalarCell(mem[s.bit][0]) { assert Agree(Slots(s), Vals(row), mem); }
  }

  method ExecSelect(s: Select, r: Run) returns (ok: bool)
    requires InBounds(s, r.values)
    modifies r`values
    ensures ok == Writes(s, old(r.values)).Some?
    ensures r.values == if ok then old(r.values)[s.out := Writes(s, old(r.values)).value[0].val] else old(r.values)
  {
    var bit := r.values[s.bit][0];
    if bit == 1 {
      r.values := r.values[s.out := r.values[s.a]];
    } else if bit == 0 {
      r.values := r.values[s.out := r.values[s.b]];
    } else {
      return false;
    }
    return true;
  }
}

/** The md chip: a Merkle-Damgard hash, one compression per block. */
module ChipMD {
  import opened KoalaBear
  import opened Constraints
  import opened Cells

  datatype Hash = Hash(init: nat, blocks: seq<nat>, out: nat)

  datatype Row = Row(st: Cell, b: Cell, d: Cell)

  /** The state chains from row to row; d is the compression looked up in the P2 core. */
  predicate RowOk(isFirst: bool, prev: Row, row: Row) {
    var first, active := Bit(isFirst), 1;
    forall i :: 0 <= i < CellWidth ==> Zero((active - first) * (Lane(row.st, i) - Lane(prev.d, i)))
  }

  function PrevOf(rows: seq<Row>, i: nat, before: Row): Row
    requires i <= |rows|
  { if i == 0 then before else rows[i - 1] }

  predicate RowsOk(h: Hash, before: Row, rows: seq<Row>) {
    |rows| == |h.blocks| && forall i :: 0 <= i < |rows| ==> RowOk(i == 0, PrevOf(rows, i, before), rows[i])
  }

  predicate HashesOk(compress: (Cell, Cell) -> Cell, rows: seq<Row>) {
    forall i :: 0 <= i < |rows| ==> rows[i].d == compress(rows[i].st, rows[i].b)
  }

  function BlockSlots(h: Hash): (r: seq<Slot>)
    ensures |r| == |h.blocks|
  { seq(|h.blocks|, i requires 0 <= i < |h.blocks| => Slot(h.blocks[i], false)) }

  function BlockVals(rows: seq<Row>): (r: seq<Cell>)
    ensures |r| == |rows|
  { seq(|rows|, i requires 0 <= i < |rows| => rows[i].b) }

  function Slots(h: Hash): seq<Slot> { [Slot(h.init, false), Slot(h.out, true)] + BlockSlots(h) }

  function Vals(rows: seq<Row>): seq<Cell>
    requires rows != []
  { [rows[0].st, rows[|rows| - 1].d] + BlockVals(rows) }

  predicate InBounds(h: Hash, mem: Memory) { h.init < |mem| && h.out < |mem| && InMemory(h.blocks, mem) }

  /** The rows read and write what the memory holds. */
  predicate Holds(h: Hash, rows: seq<Row>, mem: Memory)
    requires |rows| == |h.blocks| > 0
  {
    && InBounds(h, mem) && mem[h.init] == rows[0].st && mem[h.out] == rows[|rows| - 1].d
    && forall k :: 0 <= k < |rows| ==> rows[k].b == mem[h.blocks[k]]
  }

  /** The state after n blocks. */
  function StateAt(compress: (Cell, Cell) -> Cell, init: Cell, blocks: seq<Cell>, n: nat): Cell
    requires n <= |blocks|
  { if n == 0 then init else compress(StateAt(compress, init, blocks, n - 1), blocks[n - 1]) }

  function Digest(compress: (Cell, Cell) -> Cell, h: Hash, mem: Memory): Cell
    requires InBounds(h, mem)
  { StateAt(compress, mem[h.init], Load(mem, h.blocks), |h.blocks|) }

  lemma Chained(prev: Row, row: Row)
    requires RowOk(false, prev, row)
    ensures row.st == prev.d
  {
    forall i | 0 <= i < CellWidth ensures row.st[i] == prev.d[i] {
      assert Zero((1 - Bit(false)) * (Lane(row.st, i) - Lane(prev.d, i)));
      Same(row.st[i], prev.d[i]);
    }
  }

  lemma {:induction false} StatesAre(compress: (Cell, Cell) -> Cell, h: Hash, before: Row, rows: seq<Row>, mem: Memory, i: nat)
    requires RowsOk(h, before, rows) && HashesOk(compress, rows) && i < |rows| == |h.blocks| && Holds(h, rows, mem)
    ensures rows[i].st == StateAt(compress, mem[h.init], Load(mem, h.blocks), i)
    ensures rows[i].d == StateAt(compress, mem[h.init], Load(mem, h.blocks), i + 1)
  {
    hide RowsOk, StateAt;
    StateStart(compress, mem[h.init], Load(mem, h.blocks));
    StateStep(compress, mem[h.init], Load(mem, h.blocks), i);
    if i > 0 {
      StatesAre(compress, h, before, rows, mem, i - 1);
      ChainedAt(h, before, rows, i);
    }
  }

  lemma ChainedAt(h: Hash, before: Row, rows: seq<Row>, i: nat)
    requires RowsOk(h, before, rows) && 0 < i < |rows|
    ensures rows[i].st == rows[i - 1].d
  {
    hide RowOk;
    Chained(PrevOf(rows, i, before), rows[i]);
  }

  lemma AgreeMeans(h: Hash, rows: seq<Row>, mem: Memory)
    requires |rows| == |h.blocks| > 0
    ensures Agree(Slots(h), Vals(rows), mem) <==> Holds(h, rows, mem)
  {
    var head, tail := [Slot(h.init, false), Slot(h.out, true)], [rows[0].st, rows[|rows| - 1].d];
    AgreeSplit(head, BlockSlots(h), tail, BlockVals(rows), mem);
    if Agree(head, tail, mem) { assert mem[head[0].addr] == tail[0] && mem[head[1].addr] == tail[1]; }
    if Agree(BlockSlots(h), BlockVals(rows), mem) {
      forall k | 0 <= k < |rows| ensures h.blocks[k] < |mem| && rows[k].b == mem[h.blocks[k]] { assert BlockSlots(h)[k].addr == h.blocks[k]; }
    }
  }

  /** Rows that meet the constraints, lookups and accesses write the digest of the blocks. */
  lemma MDSound(compress: (Cell, Cell) -> Cell, h: Hash, before: Row, rows: seq<Row>, mem: Memory)
    requires RowsOk(h, before, rows) && HashesOk(compress, rows) && |rows| == |h.blocks| > 0 && Agree(Slots(h), Vals(rows), mem)
    ensures InBounds(h, mem) && mem[h.out] == Digest(compress, h, mem)
  {
    hide RowsOk, HashesOk, Agree, Slots, Vals, StateAt;
    AgreeMeans(h, rows, mem);
    StatesAre(compress, h, before, rows, mem, |rows| - 1);
  }

  function TraceRows(compress: (Cell, Cell) -> Cell, h: Hash, mem: Memory): (rows: seq<Row>)
    requires InBounds(h, mem)
    ensures |rows| == |h.blocks|
  {
    seq(|h.blocks|, i requires 0 <= i < |h.blocks| =>
      Row(StateAt(compress, mem[h.init], Load(mem, h.blocks), i), mem[h.blocks[i]],
          StateAt(compress, mem[h.init], Load(mem, h.blocks), i + 1)))
  }

  lemma MDComplete(compress: (Cell, Cell) -> Cell, h: Hash, before: Row, mem: Memory)
    requires InBounds(h, mem) && h.blocks != [] && mem[h.out] == Digest(compress, h, mem)
    ensures var rows := TraceRows(compress, h, mem);
      RowsOk(h, before, rows) && HashesOk(compress, rows) && Agree(Slots(h), Vals(rows), mem)
  {
    hide StateAt, Agree, Slots, Vals, RowOk;
    var rows := TraceRows(compress, h, mem);
    StateStart(compress, mem[h.init], Load(mem, h.blocks));
    AgreeMeans(h, rows, mem);
    forall i | 0 <= i < |rows|
      ensures rows[i].d == compress(rows[i].st, rows[i].b) && RowOk(i == 0, PrevOf(rows, i, before), rows[i])
    {
      StateStep(compress, mem[h.init], Load(mem, h.blocks), i);
      ChainsOk(i == 0, PrevOf(rows, i, before), rows[i]);
    }
  }

  lemma ChainsOk(isFirst: bool, prev: Row, row: Row)
    requires isFirst || row.st == prev.d
    ensures RowOk(isFirst, prev, row)
  {
    forall i | 0 <= i < CellWidth ensures Zero((1 - Bit(isFirst)) * (Lane(row.st, i) - Lane(prev.d, i))) {
      Gate(1 - Bit(isFirst), Lane(row.st, i) - Lane(prev.d, i));
    }
  }

  lemma StateStart(compress: (Cell, Cell) -> Cell, init: Cell, blocks: seq<Cell>)
    ensures StateAt(compress, init, blocks, 0) == init
  {
  }

  lemma StateStep(compress: (Cell, Cell) -> Cell, init: Cell, blocks: seq<Cell>, i: nat)
    requires i < |blocks|
    ensures StateAt(compress, init, blocks, i + 1) == compress(StateAt(compress, init, blocks, i), blocks[i])
  {
  }

  /** The compressions execution records. */
  function Hashes(rows: seq<Row>): (r: seq<(Cell, Cell)>)
    ensures |r| == |rows|
  { seq(|rows|, i requires 0 <= i < |rows| => (rows[i].st, rows[i].b)) }

  method ExecMD(h: Hash, compress: (Cell, Cell) -> Cell, r: Run)
    requires InBounds(h, r.values)
    modifies r`values, r`p2
    ensures r.values == old(r.values)[h.out := Digest(compress, h, old(r.values))]
    ensures r.p2 == old(r.p2) + Hashes(TraceRows(compress, h, old(r.values)))
  {
    var st := r.values[h.init];
    ghost var mem := r.values;
    for i := 0 to |h.blocks|
      invariant r.values == mem && st == StateAt(compress, mem[h.init], Load(mem, h.blocks), i)
      invariant r.p2 == old(r.p2) + Hashes(TraceRows(compress, h, mem))[..i]
    {
      var blk := r.values[h.blocks[i]];
      r.p2 := r.p2 + [(st, blk)];
      st := compress(st, blk);
    }
    r.values := r.values[h.out := st];
  }
}

/** Tables of cells, and lookups at computed indices. */
module ChipTable {
  import opened KoalaBear
  import opened Cells

  /** A read of entry idx of the table tag. */
  datatype EntryRead = EntryRead(tag: nat, idx: Elt, val: Cell)

  datatype Lookup = Lookup(table: Table, idx: nat, out: nat)

  datatype Row = Row(idx: Elt, v: Cell)

  function Slots(l: Lookup): seq<Slot> { [Slot(l.idx, false), Slot(l.out, true)] }
  function Vals(row: Row): seq<Cell> { [ScalarCell(row.idx), row.v] }

  predicate InBounds(l: Lookup, mem: Memory) { InMemory(l.table.src, mem) && l.idx < |mem| && l.out < |mem| }

  /** The entry read; None if the index is out of the table. */
  function Writes(l: Lookup, mem: Memory): Option<seq<Write>>
    requires InBounds(l, mem)
  {
    var i := mem[l.idx][0];
    if i < |l.table.src| then Some([Write(l.out, mem[l.table.src[i]])]) else None
  }

  /** The row's entry is one of the table, with the value of its cell. */
  predicate EntryOk(l: Lookup, row: Row, mem: Memory)
    requires InBounds(l, mem)
  { row.idx < |l.table.src| && row.v == mem[l.table.src[row.idx]] }

  /** A row with its entry in the table exists exactly when execution succeeds on a scalar
      index and writes what the memory holds. */
  lemma LookupExact(l: Lookup, mem: Memory)
    requires InBounds(l, mem)
    ensures (exists row :: EntryOk(l, row, mem) && Agree(Slots(l), Vals(row), mem))
       <==> mem[l.idx] == ScalarCell(mem[l.idx][0]) && Writes(l, mem).Some? && mem[l.out] == Writes(l, mem).value[0].val
  {
    if row :| EntryOk(l, row, mem) && Agree(Slots(l), Vals(row), mem) {
      assert mem[Slots(l)[0].addr] == Vals(row)[0] && mem[Slots(l)[1].addr] == Vals(row)[1];
    }
    var row := Row(mem[l.idx][0], mem[l.out]);
    if mem[l.idx] == ScalarCell(mem[l.idx][0]) { assert Agree(Slots(l), Vals(row), mem); }
  }

  method ExecLookup(l: Lookup, r: Run) returns (ok: bool)
    requires InBounds(l, r.values)
    modifies r`values
    ensures ok == Writes(l, old(r.values)).Some?
    ensures r.values == if ok then old(r.values)[l.out := Writes(l, old(r.values)).value[0].val] else old(r.values)
  {
    var i, n := r.values[l.idx][0], |l.table.src|;
    if i >= n { return false; }
    r.values := r.values[l.out := r.values[l.table.src[i]]];
    return true;
  }
}
