/** Soundness of every instruction: rows that meet the constraints and whose accesses agree
    with a memory make that memory hold what execution writes. */
module InstrSound {
  import opened KoalaBear
  import opened Constraints
  import opened Cells
  import opened Program
  import Win = ChipWindow
  import Pk = Packing
  import Bt = ChipBits
  import E = ChipE6
  import Sel = ChipSelect
  import Md = ChipMD
  import Tb = ChipTable
  import Mk = ChipMerkle
  import Mp = MerklePath
  import Dp = ChipDPath

  /** An active entry read is an entry of its table, with the value of the entry's cell. */
  predicate EntryOk(tables: seq<seq<nat>>, mem: Memory, e: EntryRead) {
    e.sel == 1 ==>
      && e.tag < |tables| && e.idx < |tables[e.tag]| && tables[e.tag][e.idx] < |mem|
      && mem[tables[e.tag][e.idx]] == e.val
  }

  predicate EntriesOk(tables: seq<seq<nat>>, mem: Memory, es: seq<EntryRead>) {
    forall k :: 0 <= k < |es| ==> EntryOk(tables, mem, es[k])
  }

  /** The tables an instruction names are the program's. */
  predicate TablesMatch(tables: seq<seq<nat>>, ts: seq<Table>) {
    forall k :: 0 <= k < |ts| ==> ts[k].tag < |tables| && tables[ts[k].tag] == ts[k].src
  }

  /** An active compression read is a compression. */
  predicate HashOk(prims: Prims, h: HashRead) { h.sel == 1 ==> h.out == prims.compress(h.left, h.right) }

  predicate HashesOk(prims: Prims, hs: seq<HashRead>) { forall k :: 0 <= k < |hs| ==> HashOk(prims, hs[k]) }

  /** What execution leaves to the constraints to assert: equalities, and a dynamic path's root. */
  ghost predicate Asserts(prims: Prims, i: Instr, mem: Memory)
    requires Valid(i) && InBounds(i, mem)
  {
    match i
    case E6(op) => op.Eq? ==> mem[op.a] == mem[op.b]
    case DPath(p) =>
      DPathTables(p, mem);
      Dp.Node(Dp.TablesOf(p, mem), prims.compress, mem[p.index][0], 0) == Some(mem[p.root])
    case _ => true
  }

  /** What the machine supplies besides the instruction's own rows: the zero constant of a
      pack, and divisors that are not zero. */
  predicate Given(prims: Prims, i: Instr, mem: Memory)
    requires Valid(i) && InBounds(i, mem)
  {
    match i
    case Pack(p) => mem[p.zero] == ZeroCell
    case E6(op) => E.Divides(op, prims.inv, mem)
    case _ => true
  }

  // ---- one lemma per chip ----

  lemma PackStored(p: Pk.Pack, hints: seq<Cell>, rows: seq<Win.Row>, mem: Memory)
    requires Pk.Valid(p) && |rows| == |Pk.Windows(p)| && |hints| == |p.stream| && Pk.InBounds(p, mem)
    requires WindowsOk(Pk.Windows(p), rows) && Agree(Pk.Slots(p), Pk.Vals(p, hints, rows), mem) && mem[p.zero] == ZeroCell
    ensures Stored(Pk.PackWrites(p, mem), mem)
  {
    hide Pk.Windows, Pk.Packed, Agree, Pk.Slots, Pk.Vals, Win.RowOk, Win.Agrees, Pk.Valid, Pk.PackWrites;
    Pk.AgreeMeans(p, hints, rows, mem);
    assert Pk.RowsHold(Pk.Windows(p), rows, mem);
    Pk.PackSound(p, mem, rows);
    PackedStored(p, mem);
  }

  lemma PackedStored(p: Pk.Pack, mem: Memory)
    requires Pk.Valid(p) && Pk.InBounds(p, mem) && Pk.Packed(p, mem)
    ensures Stored(Pk.PackWrites(p, mem), mem)
  {
    hide Pk.StreamCell, Pk.Rotated, Pk.Offset;
    if p.last.Some? { Pk.LastCell(p); }
  }

  lemma LanesStored(l: Pk.LaneCopy, row: Win.Row, mem: Memory)
    requires Pk.ValidCopy(l) && l.src < |mem| && l.out < |mem|
    requires Win.RowOk(Pk.CopyWindow(l), row) && Agree(Win.RowSlots(Pk.CopyWindow(l)), Win.RowVals(Pk.CopyWindow(l), row), mem)
    ensures mem[l.out] == Pk.CopiedLanes(mem[l.src], l.off, l.kind)
  {
    hide Win.RowOk, Agree, Pk.CopiedLanes, Win.RowSlots, Win.RowVals, Pk.CopyWindow;
    Win.RowAgrees(Pk.CopyWindow(l), row, mem);
    Pk.LanesExact(l, mem, row);
  }

  lemma {:induction false} BitsWritten(b: Bt.Inst, mem: Memory, n: nat)
    requires Bt.Valid(b) && Bt.InBounds(b, mem) && Bt.Written(b, mem) && n <= b.n
    ensures Stored(Bt.Writes(b, mem, n), mem)
  {
    hide Bt.Shr, BitOf, Low;
    if n > 0 {
      BitsWritten(b, mem, n - 1);
      var ws := [Write(b.shr[n - 1], Bt.TracedShr(b, mem, n - 1)), Write(b.bit[n - 1], Bt.TracedBit(b, mem, n - 1))];
      StoredAppend(Bt.Writes(b, mem, n - 1), ws, mem);
    }
  }

  lemma BitsStored(b: Bt.Inst, rows: seq<Bt.Row>, after: Bt.Row, mem: Memory)
    requires Bt.Valid(b) && |rows| == Bt.Width && Bt.RowsOk(b.n, rows, after) && Agree(Bt.Slots(b), Bt.Vals(b, rows), mem)
    ensures Bt.InBounds(b, mem) && Stored(Bt.Writes(b, mem, b.n), mem)
  {
    hide Bt.RowsOk, Agree, Bt.Slots, Bt.Vals, Bt.Writes, Bt.Written;
    Bt.AgreeMeans(b, rows, mem);
    Bt.InstSound(b, rows, after, mem);
    BitsWritten(b, mem, b.n);
  }

  lemma SelectStored(s: Sel.Select, row: Sel.Row, mem: Memory)
    requires Sel.InBounds(s, mem) && Sel.RowOk(row) && Agree(Sel.Slots(s), Sel.Vals(row), mem)
    ensures Sel.Writes(s, mem).Some? && Stored(Sel.Writes(s, mem).value, mem)
  {
    hide Sel.RowOk, Agree;
    Sel.SelectExact(s, mem);
  }

  lemma LookupStored(tables: seq<seq<nat>>, l: Tb.Lookup, row: Tb.Row, mem: Memory)
    requires Tb.InBounds(l, mem) && TablesMatch(tables, [l.table]) && Agree(Tb.Slots(l), Tb.Vals(row), mem)
    requires EntryOk(tables, mem, EntryRead(l.table.tag, row.idx, row.v, 1))
    ensures Tb.Writes(l, mem).Some? && Stored(Tb.Writes(l, mem).value, mem)
  {
    hide Agree;
    assert [l.table][0] == l.table;
    assert Tb.EntryOk(l, row, mem);
    Tb.LookupExact(l, mem);
  }

  lemma MDStored(prims: Prims, h: Md.Hash, w: Rows, mem: Memory)
    requires Valid(MD(h)) && Fits(MD(h), w) && PolyOk(MD(h), w) && Agree(Md.Slots(h), Md.Vals(w.md), mem)
    requires HashesOk(prims, HashReads(MD(h), w))
    ensures Md.InBounds(h, mem) && mem[h.out] == Md.Digest(prims.compress, h, mem)
  {
    hide Md.RowsOk, Agree, Md.Slots, Md.Vals, Md.Digest;
    forall k | 0 <= k < |w.md| ensures w.md[k].d == prims.compress(w.md[k].st, w.md[k].b) {
      assert HashOk(prims, HashReads(MD(h), w)[k]);
    }
    Md.MDSound(prims.compress, h, w.mdBefore, w.md, mem);
  }

  lemma PathStored(prims: Prims, p: Mp.Path, w: Rows, mem: Memory)
    requires Valid(Path(p)) && Fits(Path(p), w) && PolyOk(Path(p), w) && Agree(Mp.Slots(p), Mp.Vals(p, w.path), mem)
    requires HashesOk(prims, HashReads(Path(p), w))
    ensures Mp.Addressed(p, mem) && Mp.Reaches(prims.compress, p, mem)
    ensures p.gens.Some? ==> mem[p.xb] == Mp.Point(prims.compress, p, mem)
  {
    hide Mp.PolyOk, Agree, Mp.Slots, Mp.Vals, Mp.WellFormed, Mp.Reaches, Mp.Point, Mix, Mk.RowsOk;
    Mp.AgreeMeans(p, w.path, mem);
    forall k | 0 <= k < |w.path| ensures Mp.HashOk(prims.compress, w.path[k]) {
      assert HashOk(prims, HashReads(Path(p), w)[k]);
    }
    Mp.RowsMean(prims.compress, p, mem, w.pathBefore, w.path, w.pathAfter);
    Mp.PathSound(prims.compress, p, mem, w.pathBefore, w.path, w.pathAfter);
  }

  lemma EntryIs(tables: seq<seq<nat>>, t: Table, mem: Memory, e: EntryRead)
    requires EntryOk(tables, mem, e) && e.sel == 1 && e.tag == t.tag && TablesMatch(tables, [t]) && InMemory(t.src, mem)
    ensures Dp.IsEntry(Load(mem, t.src), e.idx, e.val)
  {
    assert [t][0] == t;
  }

  lemma MatchOne(tables: seq<seq<nat>>, ts: seq<Table>, k: nat)
    requires TablesMatch(tables, ts) && k < |ts|
    ensures TablesMatch(tables, [ts[k]])
  {
  }

  /** The table reads of a dynamic path's row. */
  lemma DPathReads(tables: seq<seq<nat>>, p: Dp.DynamicPath, row: Dp.Row, mem: Memory)
    requires Dp.Addressed(p, mem) && TablesMatch(tables, TablesOf(DPath(p))) && IsBit(row.kind)
    requires EntriesOk(tables, mem, DPathEntries(p, row))
    ensures Dp.ReadsOk(Dp.TablesOf(p, mem), row)
  {
    hide EntryOk, ScalarCell;
    var es, ts := DPathEntries(p, row), TablesOf(DPath(p));
    assert ts[0] == p.leaves && ts[1] == p.heights && ts[2] == p.order && ts[3] == p.siblings;
    MatchOne(tables, ts, 0); MatchOne(tables, ts, 1); MatchOne(tables, ts, 2); MatchOne(tables, ts, 3);
    if row.kind == 1 {
      EntryIs(tables, p.leaves, mem, es[0]);
      EntryIs(tables, p.order, mem, es[1]);
      EntryIs(tables, p.heights, mem, es[2]);
    } else {
      EntryIs(tables, p.siblings, mem, es[3]);
    }
  }

  lemma DPathRowEntries(tables: seq<seq<nat>>, p: Dp.DynamicPath, w: Rows, mem: Memory, k: nat)
    requires Valid(DPath(p)) && Fits(DPath(p), w) && EntriesOk(tables, mem, EntryReads(DPath(p), w)) && k < |w.dpath|
    ensures EntriesOk(tables, mem, DPathEntries(p, w.dpath[k]))
  {
    hide EntryOk, DPathEntries;
    var ss := seq(|w.dpath|, k requires 0 <= k < |w.dpath| => DPathEntries(p, w.dpath[k]));
    var es := DPathEntries(p, w.dpath[k]);
    forall j | 0 <= j < |es| ensures EntryOk(tables, mem, es[j]) {
      ConcatHas(ss, k, es[j]);
      assert es[j] in EntryReads(DPath(p), w);
    }
  }

  lemma DPathHolds(prims: Prims, tables: seq<seq<nat>>, p: Dp.DynamicPath, w: Rows, mem: Memory)
    requires Valid(DPath(p)) && Fits(DPath(p), w) && PolyOk(DPath(p), w) && Dp.Addressed(p, mem)
    requires TablesMatch(tables, TablesOf(DPath(p))) && EntriesOk(tables, mem, EntryReads(DPath(p), w))
    requires HashesOk(prims, HashReads(DPath(p), w))
    ensures Dp.RowsOk(Dp.TablesOf(p, mem), prims.compress, w.dpath, w.dpathAfter)
  {
    hide Dp.PolyOk, Dp.ReadsOk, EntriesOk, Mix, Dp.Left, Dp.Right, TablesMatch, EntryReads;
    var t := Dp.TablesOf(p, mem);
    forall k | 0 <= k < |w.dpath| ensures Dp.ReadsOk(t, w.dpath[k]) && Dp.HashOk(prims.compress, w.dpath[k]) {
      Dp.StartedBit(w.dpath, w.dpathAfter, k);
      DPathRowEntries(tables, p, w, mem, k);
      DPathReads(tables, p, w.dpath[k], mem);
      assert HashOk(prims, HashReads(DPath(p), w)[k]);
    }
  }

  lemma DPathStored(prims: Prims, tables: seq<seq<nat>>, p: Dp.DynamicPath, w: Rows, mem: Memory)
    requires Valid(DPath(p)) && Fits(DPath(p), w) && PolyOk(DPath(p), w) && Dp.Addressed(p, mem)
    requires TablesMatch(tables, TablesOf(DPath(p))) && EntriesOk(tables, mem, EntryReads(DPath(p), w))
    requires HashesOk(prims, HashReads(DPath(p), w)) && Agree(Dp.Slots(p), Dp.Vals(w.dpath), mem)
    ensures Writes(prims, DPath(p), mem) == Some([]) && Asserts(prims, DPath(p), mem)
  {
    hide Dp.PolyOk, Dp.RowsOk, EntriesOk, HashesOk, TablesMatch, EntryReads, HashReads, Dp.Node, Dp.ExecRows, Agree, Dp.Slots, Dp.Vals;
    DPathTables(p, mem);
    DPathHolds(prims, tables, p, w, mem);
    Dp.DPathSound(Dp.TablesOf(p, mem), prims.compress, w.dpath, w.dpathAfter);
    Dp.AgreeMeans(p, w.dpath, mem);
  }

  lemma E6Stored(prims: Prims, op: E.Op, w: Rows, mem: Memory)
    requires Valid(E6(op)) && Fits(E6(op), w) && PolyOk(E6(op), w) && E.InBounds(op, mem)
    requires Agree(E.Slots(op), E.Vals(op, w.e6), mem) && E.Divides(op, prims.inv, mem)
    ensures E.Writes(op, prims.inv, mem).Some? && Stored(E.Writes(op, prims.inv, mem).value, mem)
    ensures op.Eq? ==> mem[op.a] == mem[op.b]
  {
    hide E.PolyOk, Agree, E.Slots, E.Vals, E.Lines, E.Writes, Stored, E.RowsHold, E.Divides;
    E.HoldsMeans(op, w.before, w.e6, mem);
    E.E6Sound(op, prims.inv, w.before, w.e6, mem);
  }

  lemma LookupRead(tables: seq<seq<nat>>, l: Tb.Lookup, w: Rows, mem: Memory)
    requires Fits(Lookup(l), w) && EntriesOk(tables, mem, EntryReads(Lookup(l), w))
    ensures EntryOk(tables, mem, EntryRead(l.table.tag, w.lookup.idx, w.lookup.v, 1))
  {
    assert EntryReads(Lookup(l), w)[0] == EntryRead(l.table.tag, w.lookup.idx, w.lookup.v, 1);
  }

  /** The rows of an instruction meet the constraints, and their accesses agree with the
      memory, the tables and the P2 core. */
  predicate Meets(prims: Prims, tables: seq<seq<nat>>, i: Instr, w: Rows, mem: Memory) {
    && Valid(i) && Fits(i, w) && PolyOk(i, w) && InBounds(i, mem) && Given(prims, i, mem)
    && Agree(Slots(i), Vals(i, w), mem) && TablesMatch(tables, TablesOf(i))
    && EntriesOk(tables, mem, EntryReads(i, w)) && HashesOk(prims, HashReads(i, w))
  }

  /** The memory holds what executing the instruction on it writes, and its assertions hold. */
  ghost predicate Executed(prims: Prims, i: Instr, mem: Memory) {
    && Valid(i) && InBounds(i, mem)
    && Writes(prims, i, mem).Some? && Stored(Writes(prims, i, mem).value, mem)
    && Asserts(prims, i, mem)
  }

  lemma PackCase(prims: Prims, tables: seq<seq<nat>>, i: Instr, w: Rows, mem: Memory)
    requires i.Pack? && Meets(prims, tables, i, w, mem)
    ensures Executed(prims, i, mem)
  {
    hide Agree, EntriesOk, HashesOk, TablesMatch, Dp.Node, Mp.Reaches, Mp.Point, Md.Digest, Pk.PackWrites, E.Writes, Bt.Writes;
    PackStored(i.pack, w.hints, w.windows, mem);
  }

  lemma LanesCase(prims: Prims, tables: seq<seq<nat>>, i: Instr, w: Rows, mem: Memory)
    requires i.Lanes? && Meets(prims, tables, i, w, mem)
    ensures Executed(prims, i, mem)
  {
    hide Agree, EntriesOk, HashesOk, TablesMatch, Dp.Node, Mp.Reaches, Mp.Point, Md.Digest, Pk.PackWrites, E.Writes, Bt.Writes;
    LanesStored(i.copy, w.window, mem);
  }

  lemma BitsCase(prims: Prims, tables: seq<seq<nat>>, i: Instr, w: Rows, mem: Memory)
    requires i.Bits? && Meets(prims, tables, i, w, mem)
    ensures Executed(prims, i, mem)
  {
    hide Agree, EntriesOk, HashesOk, TablesMatch, Dp.Node, Mp.Reaches, Mp.Point, Md.Digest, Pk.PackWrites, E.Writes, Bt.Writes;
    BitsStored(i.bits, w.bits, w.bitsAfter, mem);
  }

  lemma E6Case(prims: Prims, tables: seq<seq<nat>>, i: Instr, w: Rows, mem: Memory)
    requires i.E6? && Meets(prims, tables, i, w, mem)
    ensures Executed(prims, i, mem)
  {
    hide Agree, EntriesOk, HashesOk, TablesMatch, Dp.Node, Mp.Reaches, Mp.Point, Md.Digest, Pk.PackWrites, E.Writes, Bt.Writes;
    E6Stored(prims, i.op, w, mem);
  }

  lemma SelectCase(prims: Prims, tables: seq<seq<nat>>, i: Instr, w: Rows, mem: Memory)
    requires i.Select? && Meets(prims, tables, i, w, mem)
    ensures Executed(prims, i, mem)
  {
    hide Agree, EntriesOk, HashesOk, TablesMatch, Dp.Node, Mp.Reaches, Mp.Point, Md.Digest, Pk.PackWrites, E.Writes, Bt.Writes;
    SelectStored(i.sel, w.select, mem);
  }

  lemma LookupCase(prims: Prims, tables: seq<seq<nat>>, i: Instr, w: Rows, mem: Memory)
    requires i.Lookup? && Meets(prims, tables, i, w, mem)
    ensures Executed(prims, i, mem)
  {
    hide Agree, EntriesOk, HashesOk, TablesMatch, Dp.Node, Mp.Reaches, Mp.Point, Md.Digest, Pk.PackWrites, E.Writes, Bt.Writes;
    LookupRead(tables, i.lookup, w, mem);
    LookupStored(tables, i.lookup, w.lookup, mem);
  }

  lemma MDCase(prims: Prims, tables: seq<seq<nat>>, i: Instr, w: Rows, mem: Memory)
    requires i.MD? && Meets(prims, tables, i, w, mem)
    ensures Executed(prims, i, mem)
  {
    hide Agree, EntriesOk, HashesOk, TablesMatch, Dp.Node, Mp.Reaches, Mp.Point, Md.Digest, Pk.PackWrites, E.Writes, Bt.Writes;
    MDStored(prims, i.hash, w, mem);
  }

  lemma PathCase(prims: Prims, tables: seq<seq<nat>>, i: Instr, w: Rows, mem: Memory)
    requires i.Path? && Meets(prims, tables, i, w, mem)
    ensures Executed(prims, i, mem)
  {
    hide Agree, EntriesOk, HashesOk, TablesMatch, Dp.Node, Mp.Reaches, Mp.Point, Md.Digest, Pk.PackWrites, E.Writes, Bt.Writes;
    PathStored(prims, i.path, w, mem);
  }

  lemma DPathCase(prims: Prims, tables: seq<seq<nat>>, i: Instr, w: Rows, mem: Memory)
    requires i.DPath? && Meets(prims, tables, i, w, mem)
    ensures Executed(prims, i, mem)
  {
    hide Agree, EntriesOk, HashesOk, TablesMatch, Dp.Node, Mp.Reaches, Mp.Point, Md.Digest, Pk.PackWrites, E.Writes, Bt.Writes;
    DPathStored(prims, tables, i.dpath, w, mem);
  }

  /** Soundness of one instruction. */
  lemma InstrSound(prims: Prims, tables: seq<seq<nat>>, i: Instr, w: Rows, mem: Memory)
    requires Meets(prims, tables, i, w, mem)
    ensures Executed(prims, i, mem)
  {
    hide Meets, Executed;
    match i
    case Pack(_) => PackCase(prims, tables, i, w, mem);
    case Lanes(_) => LanesCase(prims, tables, i, w, mem);
    case Bits(_) => BitsCase(prims, tables, i, w, mem);
    case E6(_) => E6Case(prims, tables, i, w, mem);
    case Select(_) => SelectCase(prims, tables, i, w, mem);
    case Lookup(_) => LookupCase(prims, tables, i, w, mem);
    case MD(_) => MDCase(prims, tables, i, w, mem);
    case Path(_) => PathCase(prims, tables, i, w, mem);
    case DPath(_) => DPathCase(prims, tables, i, w, mem);
  }
}
