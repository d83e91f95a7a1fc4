/** Programs of the recursion machine: instructions, their chip rows, and what the
    constraint system demands of a witness. */
module Program {
  import opened KoalaBear
  import opened Constraints
  import opened Cells
  import F = ExtField
  import B = Bus
  import Win = ChipWindow
  import Pk = Packing
  import Bt = ChipBits
  import E = ChipE6
  import Sel = ChipSelect
  import Md = ChipMD
  import Tb = ChipTable
  import Mk = ChipMerkle
  import Mp = MerklePath
  import Dp = ChipDPath

  datatype Instr =
    | Pack(pack: Pk.Pack)
    | Lanes(copy: Pk.LaneCopy)
    | Bits(bits: Bt.Inst)
    | E6(op: E.Op)
    | Select(sel: Sel.Select)
    | Lookup(lookup: Tb.Lookup)
    | MD(hash: Md.Hash)
    | Path(path: Mp.Path)
    | DPath(dpath: Dp.DynamicPath)

  /** The witness rows of an instruction, and its neighbours' where its constraints read them. */
  datatype Rows =
    | PackRows(hints: seq<Cell>, windows: seq<Win.Row>)
    | LanesRow(window: Win.Row)
    | BitsRows(bits: seq<Bt.Row>, bitsAfter: Bt.Row)
    | E6Rows(before: F.Ext, e6: seq<E.Row>)
    | SelectRow(select: Sel.Row)
    | LookupRow(lookup: Tb.Row)
    | MDRows(mdBefore: Md.Row, md: seq<Md.Row>)
    | PathRows(pathBefore: Mk.Row, path: seq<Mk.Row>, pathAfter: Mk.Row)
    | DPathRows(dpath: seq<Dp.Row>, dpathAfter: Dp.Row)

  /** A dynamic path's tables have matching sizes, within the field. */
  predicate ValidDPath(p: Dp.DynamicPath) {
    && |p.leaves.src| == |p.heights.src| == |p.order.src| && 1 <= |p.order.src| < P
    && 1 <= |p.siblings.src| <= Dp.MaxHeight
  }

  predicate Valid(i: Instr) {
    match i
    case Pack(p) => Pk.Valid(p)
    case Lanes(l) => Pk.ValidCopy(l)
    case Bits(b) => Bt.Valid(b)
    case E6(op) => E.ValidOp(op) && E.Separate(op)
    case Select(_) => true
    case Lookup(_) => true
    case MD(h) => h.blocks != []
    case Path(p) => Mp.WellFormed(p) && p.steps != []
    case DPath(p) => ValidDPath(p)
  }

  /** The rows are those of the instruction. */
  predicate Fits(i: Instr, w: Rows)
    requires Valid(i)
  {
    match i
    case Pack(p) => w.PackRows? && |w.hints| == |p.stream| && |w.windows| == |Pk.Windows(p)|
    case Lanes(_) => w.LanesRow?
    case Bits(_) => w.BitsRows? && |w.bits| == Bt.Width
    case E6(op) => w.E6Rows? && |w.e6| == |E.Lines(op)|
    case Select(_) => w.SelectRow?
    case Lookup(_) => w.LookupRow?
    case MD(h) => w.MDRows? && |w.md| == |h.blocks|
    case Path(p) => w.PathRows? && |w.path| == |p.steps|
    case DPath(p) => w.DPathRows? && |w.dpath| == |p.siblings.src| + |p.order.src|
  }

  // ---- memory accesses ----

  function Slots(i: Instr): seq<Slot>
    requires Valid(i)
  {
    match i
    case Pack(p) => Pk.Slots(p)
    case Lanes(l) => Win.RowSlots(Pk.CopyWindow(l))
    case Bits(b) => Bt.Slots(b)
    case E6(op) => E.Slots(op)
    case Select(s) => Sel.Slots(s)
    case Lookup(l) => Tb.Slots(l)
    case MD(h) => Md.Slots(h)
    case Path(p) => Mp.Slots(p)
    case DPath(p) => Dp.Slots(p)
  }

  function Vals(i: Instr, w: Rows): seq<Cell>
    requires Valid(i) && Fits(i, w)
  {
    match i
    case Pack(p) => Pk.Vals(p, w.hints, w.windows)
    case Lanes(l) => Win.RowVals(Pk.CopyWindow(l), w.window)
    case Bits(b) => Bt.Vals(b, w.bits)
    case E6(op) => E.Vals(op, w.e6)
    case Select(_) => Sel.Vals(w.select)
    case Lookup(_) => Tb.Vals(w.lookup)
    case MD(_) => Md.Vals(w.md)
    case Path(p) => Mp.Vals(p, w.path)
    case DPath(_) => Dp.Vals(w.dpath)
  }

  // ---- constraints ----

  predicate WindowsOk(ws: seq<Win.Window>, rows: seq<Win.Row>) {
    |rows| == |ws| && forall i :: 0 <= i < |ws| ==> Win.RowOk(ws[i], rows[i])
  }

  /** The polynomial constraints of an instruction's rows. */
  predicate PolyOk(i: Instr, w: Rows)
    requires Valid(i) && Fits(i, w)
  {
    match i
    case Pack(p) => WindowsOk(Pk.Windows(p), w.windows)
    case Lanes(l) => Win.RowOk(Pk.CopyWindow(l), w.window)
    case Bits(b) => Bt.RowsOk(b.n, w.bits, w.bitsAfter)
    case E6(op) => E.PolyOk(E.Lines(op), w.before, w.e6)
    case Select(_) => Sel.RowOk(w.select)
    case Lookup(_) => true
    case MD(h) => Md.RowsOk(h, w.mdBefore, w.md)
    case Path(p) => Mp.PolyOk(p, w.pathBefore, w.path, w.pathAfter)
    case DPath(_) => Dp.PolyOk(w.dpath, w.dpathAfter)
  }

  /** A read of a table entry, (tag, index, value), active when sel is one. */
  datatype EntryRead = EntryRead(tag: nat, idx: Elt, val: Cell, sel: int)

  function DPathEntries(p: Dp.DynamicPath, row: Dp.Row): seq<EntryRead> {
    [EntryRead(p.leaves.tag, row.pi, row.op, row.kind),
     EntryRead(p.order.tag, row.fc, ScalarCell(row.pi), row.kind),
     EntryRead(p.heights.tag, row.pi, ScalarCell(row.hc), row.kind),
     EntryRead(p.siblings.tag, (row.hc - 1) % P, row.op, 1 - row.kind)]
  }

  function EntryReads(i: Instr, w: Rows): seq<EntryRead>
    requires Valid(i) && Fits(i, w)
  {
    match i
    case Lookup(l) => [EntryRead(l.table.tag, w.lookup.idx, w.lookup.v, 1)]
    case DPath(p) => Concat(seq(|w.dpath|, k requires 0 <= k < |w.dpath| => DPathEntries(p, w.dpath[k])))
    case _ => []
  }

  /** A read of a compression in the P2 core, active when sel is one. */
  datatype HashRead = HashRead(left: Cell, right: Cell, out: Cell, sel: int)

  function HashReads(i: Instr, w: Rows): seq<HashRead>
    requires Valid(i) && Fits(i, w)
  {
    match i
    case MD(_) => seq(|w.md|, k requires 0 <= k < |w.md| => HashRead(w.md[k].st, w.md[k].b, w.md[k].d, 1))
    case Path(_) =>
      seq(|w.path|, k requires 0 <= k < |w.path| =>
        HashRead(Mix(w.path[k].b, w.path[k].cur, w.path[k].s), Mix(w.path[k].b, w.path[k].s, w.path[k].cur), w.path[k].out, 1))
    case DPath(_) =>
      seq(|w.dpath|, k requires 0 <= k < |w.dpath| =>
        HashRead(Dp.Left(w.dpath[k]), Dp.Right(w.dpath[k]), w.dpath[k].out, w.dpath[k].started))
    case _ => []
  }

  // ---- execution ----

  /** The tables an instruction reads. */
  function TablesOf(i: Instr): seq<Table> {
    match i
    case Lookup(l) => [l.table]
    case DPath(p) => [p.leaves, p.heights, p.order, p.siblings]
    case _ => []
  }

  predicate InBounds(i: Instr, mem: Memory) {
    match i
    case Pack(p) => Pk.InBounds(p, mem)
    case Lanes(l) => l.src < |mem| && l.out < |mem|
    case Bits(b) => Bt.InBounds(b, mem)
    case E6(op) => E.InBounds(op, mem)
    case Select(s) => Sel.InBounds(s, mem)
    case Lookup(l) => Tb.InBounds(l, mem)
    case MD(h) => Md.InBounds(h, mem)
    case Path(p) => Mp.Addressed(p, mem)
    case DPath(p) => Dp.Addressed(p, mem)
  }

  lemma DPathTables(p: Dp.DynamicPath, mem: Memory)
    requires ValidDPath(p) && Dp.Addressed(p, mem)
    ensures Dp.ValidTables(Dp.TablesOf(p, mem))
  {
  }

  /** The cells an instruction writes, or None if executing it fails. */
  function Writes(prims: Prims, i: Instr, mem: Memory): Option<seq<Write>>
    requires Valid(i) && InBounds(i, mem)
  {
    match i
    case Pack(p) => Some(Pk.PackWrites(p, mem))
    case Lanes(l) => Some([Write(l.out, Pk.CopiedLanes(mem[l.src], l.off, l.kind))])
    case Bits(b) => Some(Bt.Writes(b, mem, b.n))
    case E6(op) => E.Writes(op, prims.inv, mem)
    case Select(s) => Sel.Writes(s, mem)
    case Lookup(l) => Tb.Writes(l, mem)
    case MD(h) => Some([Write(h.out, Md.Digest(prims.compress, h, mem))])
    case Path(p) =>
      if !Mp.Reaches(prims.compress, p, mem) then None
      else Some(if p.gens.Some? then [Write(p.xb, Mp.Point(prims.compress, p, mem))] else [])
    case DPath(p) =>
      DPathTables(p, mem);
      if Dp.ExecRows(Dp.TablesOf(p, mem), prims.compress, mem[p.index][0]).Some? then Some([]) else None
  }
}
