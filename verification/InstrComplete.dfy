/** Completeness of every instruction: executing it on typed cells yields rows that meet the
    constraints and whose accesses agree with the memory. */
module InstrComplete {
  import opened KoalaBear
  import opened Constraints
  import opened Cells
  import opened Program
  import opened InstrSound
  import Win = ChipWindow
  import Pk = Packing
  import Bt = ChipBits
  import E = ChipE6
  import Sel = ChipSelect
  import Md = ChipMD
  import Tb = ChipTable
  import Mk = ChipMerkle
  import Mp = MerklePath
  import Dp = ChipDPath

  predicate IsScalar(c: Cell) { c == ScalarCell(c[0]) }

  /** The cells an instruction reads are of the kinds its rows read. */
  predicate Typed(i: Instr, mem: Memory)
    requires Valid(i) && InBounds(i, mem)
  {
    match i
    case Pack(p) => forall k :: 0 <= k < |p.items| && k < |p.kinds| ==> HasKind(mem[p.items[k]], p.kinds[k])
    case Lanes(_) => true
    case Bits(b) => IsScalar(mem[b.v])
    case E6(op) => E.Typed(op, mem)
    case Select(s) => IsScalar(mem[s.bit])
    case Lookup(l) => IsScalar(mem[l.idx])
    case MD(_) => true
    case Path(p) => IsScalar(mem[p.index])
    case DPath(p) => IsScalar(mem[p.index]) && Dp.Typed(Dp.TablesOf(p, mem))
  }

  /** The rows meet the constraints, and their accesses agree with the memory, the tables and
      the compression. */
  predicate Traced(prims: Prims, tables: seq<seq<nat>>, i: Instr, w: Rows, mem: Memory) {
    && Valid(i) && Fits(i, w) && PolyOk(i, w) && Agree(Slots(i), Vals(i, w), mem)
    && EntriesOk(tables, mem, EntryReads(i, w)) && HashesOk(prims, HashReads(i, w))
  }

  lemma PackTrace(prims: Prims, tables: seq<seq<nat>>, p: Pk.Pack, mem: Memory) returns (w: Rows)
    requires Executed(prims, Pack(p), mem) && Typed(Pack(p), mem) && mem[p.zero] == ZeroCell
    ensures Traced(prims, tables, Pack(p), w, mem)
  {
    hide Pk.Windows, Pk.Packed, Agree, Pk.Slots, Pk.Vals, Win.RowOk, Win.Agrees, Pk.Valid, Pk.PackWrites, Win.RowOf;
    PackHolds(p, mem);
    var ws, hints := Pk.Windows(p), Load(mem, p.stream);
    WindowsAddressed(p, mem);
    var rows := seq(|ws|, k requires 0 <= k < |ws| => Win.RowOf(ws[k], mem));
    Pk.PackComplete(p, mem, rows);
    Pk.AgreeMeans(p, hints, rows, mem);
    w := PackRows(hints, rows);
  }

  lemma PackHolds(p: Pk.Pack, mem: Memory)
    requires Pk.Valid(p) && Pk.InBounds(p, mem) && Stored(Pk.PackWrites(p, mem), mem)
    requires forall k :: 0 <= k < |p.items| && k < |p.kinds| ==> HasKind(mem[p.items[k]], p.kinds[k])
    ensures Pk.Packed(p, mem)
  {
    hide Pk.StreamCell, Pk.Offset, Pk.Rotated, HasKind, Pk.Flat;
    var ws := Pk.PackWrites(p, mem);
    forall c | 0 <= c < |p.stream| ensures mem[p.stream[c]] == Pk.StreamCell(Pk.FlatOf(p, mem), c) {
      assert mem[ws[c].addr] == ws[c].val;
    }
    if p.last.Some? {
      Pk.LastCell(p);
      assert mem[ws[|p.stream|].addr] == ws[|p.stream|].val;
    }
  }

  lemma WindowsAddressed(p: Pk.Pack, mem: Memory)
    requires Pk.Valid(p) && Pk.InBounds(p, mem)
    ensures forall k :: 0 <= k < |Pk.Windows(p)| ==> Win.Addressed(Pk.Windows(p)[k], mem)
  {
    hide Pk.Offset, Win.WindowAt, Win.Addressed;
    forall k | 0 <= k < |Pk.Windows(p)| ensures Win.Addressed(Pk.Windows(p)[k], mem) { WindowAddressed(p, mem, k); }
  }

  lemma WindowAddressed(p: Pk.Pack, mem: Memory, k: nat)
    requires Pk.Valid(p) && Pk.InBounds(p, mem) && k < |Pk.Windows(p)|
    ensures Win.Addressed(Pk.Windows(p)[k], mem)
  {
    hide Pk.Offset, Win.WindowAt;
    var i := k - |Pk.StartWindows(p)|;
    Pk.ItemFits(p, 0);
    OffsetZero(p);
    if i < 0 {
      Pk.WindowInMemory(p.stream, 0, p.start, Slot(p.zero, false), mem);
    } else if i < |p.items| {
      assert Pk.Windows(p)[k] == Pk.ItemWindow(p, i);
      Pk.ItemFits(p, i);
      Pk.WindowInMemory(p.stream, Pk.Offset(p, i), p.kinds[i], Slot(p.items[i], false), mem);
    } else {
      assert Pk.Windows(p)[k] == Pk.LastWindows(p)[i - |p.items|];
      Pk.LastCell(p);
      var t := Pk.Tail(p);
      Pk.WindowInMemory([t], Pk.Rem(p), CellWidth - Pk.Rem(p), Slot(p.zero, false), mem);
      Pk.WindowInMemory([t, t], Pk.Rem(p), CellWidth, Slot(p.last.value, true), mem);
    }
  }

  lemma OffsetZero(p: Pk.Pack)
    ensures Pk.Offset(p, 0) == p.start
  {
  }

  lemma LanesTrace(prims: Prims, tables: seq<seq<nat>>, l: Pk.LaneCopy, mem: Memory) returns (w: Rows)
    requires Executed(prims, Lanes(l), mem)
    ensures Traced(prims, tables, Lanes(l), w, mem)
  {
    hide Win.RowOk, Agree, Pk.CopiedLanes, Win.RowSlots, Win.RowVals, Win.RowOf;
    var win := Pk.CopyWindow(l);
    Pk.WindowInMemory([l.src], l.off, l.kind, Slot(l.out, true), mem);
    var row := Win.RowOf(win, mem);
    RowOfAgrees(win, mem);
    Win.RowAgrees(win, row, mem);
    assert Writes(prims, Lanes(l), mem).value[0] == Write(l.out, Pk.CopiedLanes(mem[l.src], l.off, l.kind));
    Pk.LanesExact(l, mem, row);
    w := LanesRow(row);
  }

  lemma RowOfAgrees(w: Win.Window, mem: Memory)
    requires Win.Addressed(w, mem)
    ensures Win.Agrees(w, Win.RowOf(w, mem), mem)
  {
  }

  lemma {:induction false} BitsWritten(b: Bt.Inst, mem: Memory, n: nat, i: nat)
    requires Bt.Valid(b) && Bt.InBounds(b, mem) && i < n <= b.n && Stored(Bt.Writes(b, mem, n), mem)
    ensures mem[b.shr[i]] == Bt.TracedShr(b, mem, i) && mem[b.bit[i]] == Bt.TracedBit(b, mem, i)
    decreases n
  {
    hide Bt.Shr, BitOf, Low;
    var ws := Bt.Writes(b, mem, n);
    if i == n - 1 {
      assert mem[ws[2 * n - 2].addr] == ws[2 * n - 2].val && mem[ws[2 * n - 1].addr] == ws[2 * n - 1].val;
    } else {
      StoredAppend(Bt.Writes(b, mem, n - 1), ws[2 * n - 2..], mem);
      assert ws == Bt.Writes(b, mem, n - 1) + ws[2 * n - 2..];
      BitsWritten(b, mem, n - 1, i);
    }
  }

  lemma BitsTrace(prims: Prims, tables: seq<seq<nat>>, b: Bt.Inst, mem: Memory) returns (w: Rows)
    requires Executed(prims, Bits(b), mem) && Typed(Bits(b), mem)
    ensures Traced(prims, tables, Bits(b), w, mem)
  {
    hide Bt.RowsOk, Agree, Bt.Slots, Bt.Vals, Bt.Writes, Bt.TraceRow, Bt.TracedShr, Bt.TracedBit;
    var x := mem[b.v][0];
    var rows := Bt.TraceRows(x, b.n);
    var after := rows[0];
    forall i | 0 <= i < b.n ensures mem[b.shr[i]] == Bt.TracedShr(b, mem, i) && mem[b.bit[i]] == Bt.TracedBit(b, mem, i) {
      BitsWritten(b, mem, b.n, i);
    }
    Bt.InstComplete(b, after, mem);
    Bt.AgreeMeans(b, rows, mem);
    w := BitsRows(rows, after);
  }

  lemma E6Trace(prims: Prims, tables: seq<seq<nat>>, op: E.Op, mem: Memory) returns (w: Rows)
    requires Executed(prims, E6(op), mem) && Typed(E6(op), mem) && E.Divides(op, prims.inv, mem)
    ensures Traced(prims, tables, E6(op), w, mem)
  {
    hide E.PolyOk, Agree, E.Slots, E.Vals, E.Writes, Stored, E.RowsHold, E.Divides, E.Lines, E.Typed;
    var before := E.At([ZeroCell], 0);
    LinesInBounds(op, mem);
    var rows := TraceLines(E.Lines(op), before, mem, |E.Lines(op)|);
    TraceIs(E.Lines(op), before, mem);
    E.E6Complete(op, prims.inv, before, rows, mem);
    E.HoldsMeans(op, before, rows, mem);
    w := E6Rows(before, rows);
  }

  lemma LinesInBounds(op: E.Op, mem: Memory)
    requires E.ValidOp(op) && E.InBounds(op, mem)
    ensures AllInBounds(E.Lines(op), mem)
  {
    forall i | 0 <= i < |E.Lines(op)| ensures E.LineInBounds(E.Lines(op)[i], mem) {
      if op.Horner? { assert E.Lines(op)[i] == E.HornerLine(op, i); }
      if op.Chain? { assert E.Lines(op)[i] == E.ChainLine(op, i); }
    }
  }

  predicate AllInBounds(lines: seq<E.Line>, mem: Memory) { forall i :: 0 <= i < |lines| ==> E.LineInBounds(lines[i], mem) }

  function TraceLines(lines: seq<E.Line>, before: E.Ext, mem: Memory, n: nat): (r: seq<E.Row>)
    requires AllInBounds(lines, mem) && n <= |lines|
    ensures |r| == n
  {
    if n == 0 then []
    else
      var prev := TraceLines(lines, before, mem, n - 1);
      prev + [E.TraceRow(lines[n - 1], E.PrevOf(prev, n - 1, before), mem)]
  }

  lemma {:induction false} TracePrefix(lines: seq<E.Line>, before: E.Ext, mem: Memory, n: nat, i: nat)
    requires AllInBounds(lines, mem) && i < n <= |lines|
    ensures TraceLines(lines, before, mem, n)[..i] == TraceLines(lines, before, mem, i)
    ensures TraceLines(lines, before, mem, n)[i] == E.TraceRow(lines[i], E.PrevOf(TraceLines(lines, before, mem, i), i, before), mem)
    decreases n
  {
    hide E.TraceRow;
    if i < n - 1 {
      TracePrefix(lines, before, mem, n - 1, i);
      assert TraceLines(lines, before, mem, n)[..i] == TraceLines(lines, before, mem, n - 1)[..i];
    }
  }

  lemma TraceIs(lines: seq<E.Line>, before: E.Ext, mem: Memory)
    requires AllInBounds(lines, mem)
    ensures E.TracedRows(lines, before, TraceLines(lines, before, mem, |lines|), mem)
  {
    hide E.TraceRow, TraceLines;
    var rows := TraceLines(lines, before, mem, |lines|);
    forall i | 0 <= i < |lines| ensures rows[i] == E.TraceRow(lines[i], E.PrevOf(rows, i, before), mem) {
      TracePrefix(lines, before, mem, |lines|, i);
      assert i > 0 ==> rows[i - 1] == rows[..i][i - 1];
    }
  }

  lemma SelectTrace(prims: Prims, tables: seq<seq<nat>>, s: Sel.Select, mem: Memory) returns (w: Rows)
    requires Executed(prims, Select(s), mem) && Typed(Select(s), mem)
    ensures Traced(prims, tables, Select(s), w, mem)
  {
    hide Agree, Sel.RowOk;
    var ws := Sel.Writes(s, mem).value;
    assert mem[ws[0].addr] == ws[0].val;
    Sel.SelectExact(s, mem);
    var row :| Sel.RowOk(row) && Agree(Sel.Slots(s), Sel.Vals(row), mem);
    w := SelectRow(row);
  }

  lemma LookupTrace(prims: Prims, tables: seq<seq<nat>>, l: Tb.Lookup, mem: Memory) returns (w: Rows)
    requires Executed(prims, Lookup(l), mem) && Typed(Lookup(l), mem) && TablesMatch(tables, [l.table])
    ensures Traced(prims, tables, Lookup(l), w, mem)
  {
    hide Agree;
    var ws := Tb.Writes(l, mem).value;
    assert mem[ws[0].addr] == ws[0].val;
    Tb.LookupExact(l, mem);
    var row :| Tb.EntryOk(l, row, mem) && Agree(Tb.Slots(l), Tb.Vals(row), mem);
    assert [l.table][0] == l.table;
    w := LookupRow(row);
  }

  lemma MDTrace(prims: Prims, tables: seq<seq<nat>>, h: Md.Hash, mem: Memory) returns (w: Rows)
    requires Executed(prims, MD(h), mem)
    ensures Traced(prims, tables, MD(h), w, mem)
  {
    hide Agree, Md.RowsOk, Md.Slots, Md.Vals, Md.Digest, Md.TraceRows;
    assert Writes(prims, MD(h), mem).value[0] == Write(h.out, Md.Digest(prims.compress, h, mem));
    var before := Md.Row(ZeroCell, ZeroCell, ZeroCell);
    Md.MDComplete(prims.compress, h, before, mem);
    w := MDRows(before, Md.TraceRows(prims.compress, h, mem));
  }

  lemma PathTrace(prims: Prims, tables: seq<seq<nat>>, p: Mp.Path, mem: Memory) returns (w: Rows)
    requires Executed(prims, Path(p), mem) && Typed(Path(p), mem)
    ensures Traced(prims, tables, Path(p), w, mem)
  {
    hide Agree, Mp.PolyOk, Mp.Slots, Mp.Vals, Mp.WellFormed, Mp.Reaches, Mp.Point, Mix, Mk.RowsOk, Mk.Walk;
    var none := Mk.Row(0, 0, 0, 0, 0, ZeroCell, ZeroCell, ZeroCell);
    var rows := Mp.WalkOf(prims.compress, p, mem);
    Mp.PathComplete(prims.compress, p, mem, none, none);
    PathHolds(prims, p, mem);
    Mp.AgreeMeans(p, rows, mem);
    Mp.RowsMean(prims.compress, p, mem, none, rows, none);
    w := PathRows(none, rows, none);
  }

  lemma PathHolds(prims: Prims, p: Mp.Path, mem: Memory)
    requires Executed(prims, Path(p), mem) && p.steps != [] && Mp.ReadsMemory(p, mem, Mp.WalkOf(prims.compress, p, mem))
    requires var rows := Mp.WalkOf(prims.compress, p, mem);
      Mk.PointCell(Mk.Last(rows).x, Mk.Last(rows).b0) == Mp.Point(prims.compress, p, mem)
    ensures Mp.Holds(p, Mp.WalkOf(prims.compress, p, mem), mem)
    ensures forall k :: 0 <= k < |p.steps| ==> Mp.HashOk(prims.compress, Mp.WalkOf(prims.compress, p, mem)[k])
  {
    hide Mp.WellFormed, Mp.Reaches, Mp.Point, Mk.StateAt, Mix;
    var rows := Mp.WalkOf(prims.compress, p, mem);
    if p.gens.Some? {
      assert Writes(prims, Path(p), mem).value[0] == Write(p.xb, Mp.Point(prims.compress, p, mem));
    }
    forall k | 0 <= k < |p.steps| ensures rows[k].s == mem[p.steps[k].op] && Mp.HashOk(prims.compress, rows[k]) {
      Mk.WalkReads(prims.compress, Mp.PathOf(p, mem), mem[p.leaf], Mp.Index(p, mem), k);
    }
  }

  lemma EntryIs(tables: seq<seq<nat>>, t: Table, mem: Memory, e: EntryRead)
    requires e.tag == t.tag && TablesMatch(tables, [t]) && InMemory(t.src, mem)
    requires e.sel == 1 ==> Dp.IsEntry(Load(mem, t.src), e.idx, e.val)
    ensures EntryOk(tables, mem, e)
  {
    assert [t][0] == t;
  }

  lemma DPathRowEntries(tables: seq<seq<nat>>, p: Dp.DynamicPath, row: Dp.Row, mem: Memory)
    requires Dp.Addressed(p, mem) && TablesMatch(tables, TablesOf(DPath(p))) && Dp.ReadsOk(Dp.TablesOf(p, mem), row) && IsBit(row.kind)
    ensures EntriesOk(tables, mem, DPathEntries(p, row))
  {
    hide EntryOk, ScalarCell;
    var es, ts := DPathEntries(p, row), TablesOf(DPath(p));
    assert ts[0] == p.leaves && ts[1] == p.heights && ts[2] == p.order && ts[3] == p.siblings;
    MatchOne(tables, ts, 0); MatchOne(tables, ts, 1); MatchOne(tables, ts, 2); MatchOne(tables, ts, 3);
    EntryIs(tables, p.leaves, mem, es[0]);
    EntryIs(tables, p.order, mem, es[1]);
    EntryIs(tables, p.heights, mem, es[2]);
    EntryIs(tables, p.siblings, mem, es[3]);
  }

  lemma DPathEntriesOk(tables: seq<seq<nat>>, p: Dp.DynamicPath, w: Rows, mem: Memory)
    requires Valid(DPath(p)) && Fits(DPath(p), w) && Dp.Addressed(p, mem) && TablesMatch(tables, TablesOf(DPath(p)))
    requires forall k :: 0 <= k < |w.dpath| ==> Dp.ReadsOk(Dp.TablesOf(p, mem), w.dpath[k]) && IsBit(w.dpath[k].kind)
    ensures EntriesOk(tables, mem, EntryReads(DPath(p), w))
  {
    hide EntryOk, DPathEntries, Dp.ReadsOk, TablesMatch;
    var ss := seq(|w.dpath|, k requires 0 <= k < |w.dpath| => DPathEntries(p, w.dpath[k]));
    var es := EntryReads(DPath(p), w);
    forall j | 0 <= j < |es| ensures EntryOk(tables, mem, es[j]) {
      ConcatFrom(ss, es[j]);
      var k :| 0 <= k < |ss| && es[j] in ss[k];
      DPathRowEntries(tables, p, w.dpath[k], mem);
    }
  }

  lemma DPathTrace(prims: Prims, tables: seq<seq<nat>>, p: Dp.DynamicPath, mem: Memory) returns (w: Rows)
    requires Executed(prims, DPath(p), mem) && Typed(DPath(p), mem) && TablesMatch(tables, TablesOf(DPath(p)))
    ensures Traced(prims, tables, DPath(p), w, mem)
    ensures |Dp.Hashes(w.dpath)| <= |p.siblings.src| + |p.order.src| - 1
  {
    hide Dp.PolyOk, EntriesOk, TablesMatch, EntryReads, Dp.Node, Dp.ExecRows, Agree, Dp.Slots, Dp.Vals, Dp.Typed, Dp.ReadsOk, Dp.HashOk, Dp.Hashes;
    DPathTables(p, mem);
    var t, index, none := Dp.TablesOf(p, mem), mem[p.index][0], Dp.Row(0, 0, 0, 0, 0, 0, 0, ZeroCell, ZeroCell, ZeroCell);
    var rows := Dp.ExecRows(t, prims.compress, index).value;
    Dp.DPathComplete(t, prims.compress, index, none);
    Dp.AgreeMeans(p, rows, mem);
    w := DPathRows(rows, none);
    forall k | 0 <= k < |rows| ensures IsBit(rows[k].kind) { Dp.StartedBit(rows, none, k); }
    DPathEntriesOk(tables, p, w, mem);
    DPathHashesOk(prims, p, w);
  }

  lemma DPathHashesOk(prims: Prims, p: Dp.DynamicPath, w: Rows)
    requires Valid(DPath(p)) && Fits(DPath(p), w) && forall k :: 0 <= k < |w.dpath| ==> Dp.HashOk(prims.compress, w.dpath[k])
    ensures HashesOk(prims, HashReads(DPath(p), w))
  {
    hide Dp.Left, Dp.Right;
  }

  /** Completeness of one instruction. */
  lemma InstrComplete(prims: Prims, tables: seq<seq<nat>>, i: Instr, mem: Memory) returns (w: Rows)
    requires Executed(prims, i, mem) && Typed(i, mem) && Given(prims, i, mem) && TablesMatch(tables, TablesOf(i))
    ensures Traced(prims, tables, i, w, mem)
    ensures i.DPath? ==> |Dp.Hashes(w.dpath)| <= |i.dpath.siblings.src| + |i.dpath.order.src| - 1
  {
    hide Executed, Typed, Traced, TablesMatch, Dp.Hashes;
    match i
    case Pack(p) => w := PackTrace(prims, tables, p, mem);
    case Lanes(l) => w := LanesTrace(prims, tables, l, mem);
    case Bits(b) => w := BitsTrace(prims, tables, b, mem);
    case E6(op) => w := E6Trace(prims, tables, op, mem);
    case Select(s) => w := SelectTrace(prims, tables, s, mem);
    case Lookup(l) => w := LookupTrace(prims, tables, l, mem);
    case MD(h) => w := MDTrace(prims, tables, h, mem);
    case Path(p) => w := PathTrace(prims, tables, p, mem);
    case DPath(p) => w := DPathTrace(prims, tables, p, mem);
  }
}
