/** Whole-machine soundness: a witness that meets every chip's constraints, with the memory,
    table and permutation sums balanced, holds in every cell the value Execute computes. */
module MachineSound {
  import opened KoalaBear
  import opened Constraints
  import opened Cells
  import opened Program
  import opened InstrSound
  import opened InstrFrame
  import B = Bus
  import Pk = Packing
  import Bt = ChipBits
  import E = ChipE6
  import Mp = MerklePath
  import Dp = ChipDPath

  /** A cell the witness chip writes with a value supplied per execution, and its kind. */
  datatype TypedCell = TypedCell(addr: nat, kind: nat)

  datatype ConstCell = ConstCell(addr: nat, val: Cell)

  /** A built program: its inputs, constants, tables and instructions, and the read count of
      every address. */
  datatype Code = Code(inputs: seq<TypedCell>, consts: seq<ConstCell>, tables: seq<seq<nat>>,
                       instrs: seq<Instr>, counts: seq<nat>)

  // ---- memory accesses of the whole program ----

  function InputSlots(c: Code): (r: seq<Slot>)
    ensures |r| == |c.inputs|
  { seq(|c.inputs|, i requires 0 <= i < |c.inputs| => Slot(c.inputs[i].addr, true)) }

  function ConstSlots(c: Code): (r: seq<Slot>)
    ensures |r| == |c.consts|
  { seq(|c.consts|, i requires 0 <= i < |c.consts| => Slot(c.consts[i].addr, true)) }

  function SourceSlots(src: seq<nat>): (r: seq<Slot>)
    ensures |r| == |src|
  { seq(|src|, i requires 0 <= i < |src| => Slot(src[i], false)) }

  function TableSlots(tables: seq<seq<nat>>): (r: seq<seq<Slot>>)
    ensures |r| == |tables|
  { seq(|tables|, t requires 0 <= t < |tables| => SourceSlots(tables[t])) }

  predicate AllValid(instrs: seq<Instr>) { forall k :: 0 <= k < |instrs| ==> Valid(instrs[k]) }

  function InstrSlots(instrs: seq<Instr>): (r: seq<seq<Slot>>)
    requires AllValid(instrs)
    ensures |r| == |instrs|
  { seq(|instrs|, k requires 0 <= k < |instrs| => Slots(instrs[k])) }

  /** Every memory access of the program's chip rows. */
  function AllSlots(c: Code): seq<Slot>
    requires AllValid(c.instrs)
  { InputSlots(c) + ConstSlots(c) + Concat(TableSlots(c.tables)) + Concat(InstrSlots(c.instrs)) }

  // ---- what the builder guarantees ----

  predicate IsInput(c: Code, a: nat) { exists i :: 0 <= i < |c.inputs| && c.inputs[i].addr == a }
  predicate IsConst(c: Code, a: nat) { exists i :: 0 <= i < |c.consts| && c.consts[i].addr == a }

  predicate WrittenBy(instrs: seq<Instr>, k: nat, a: nat)
    requires AllValid(instrs) && k <= |instrs|
  { exists j :: 0 <= j < k && Slot(a, true) in Slots(instrs[j]) }

  /** The cell is available before instruction k. */
  predicate Available(c: Code, k: nat, a: nat)
    requires AllValid(c.instrs) && k <= |c.instrs|
  { IsInput(c, a) || IsConst(c, a) || WrittenBy(c.instrs, k, a) }

  predicate HasZero(c: Code, a: nat) { exists i :: 0 <= i < |c.consts| && c.consts[i] == ConstCell(a, ZeroCell) }

  /** Instruction k is within the memory and the tables, and uses cells available before it. */
  ghost predicate InstrBuilt(c: Code, k: nat)
    requires AllValid(c.instrs) && k < |c.instrs|
  {
    var i := c.instrs[k];
    && (forall mem: Memory :: |mem| == |c.counts| ==> InBounds(i, mem))
    && TablesMatch(c.tables, TablesOf(i))
    && (i.Pack? ==> HasZero(c, i.pack.zero))
    && forall a: nat :: Uses(i, a) ==> Available(c, k, a)
  }

  /** What every sequence of builder calls establishes. */
  ghost predicate Built(c: Code) {
    && AllValid(c.instrs)
    && B.WriteOnce(AllSlots(c), |c.counts|)
    && B.Counted(AllSlots(c), c.counts)
    && (forall t :: 0 <= t < |c.tables| ==> forall i :: 0 <= i < |c.tables[t]| ==> c.tables[t][i] < |c.counts|)
    && (forall k :: 0 <= k < |c.instrs| ==> InstrBuilt(c, k))
  }

  // ---- witnesses ----

  datatype EntryRow = EntryRow(v: Cell, cnt: int)
  datatype CoreRow = CoreRow(left: Cell, right: Cell, out: Cell, cnt: int)

  /** The witness rows: inputs, table entries, instructions, and the P2 core. */
  datatype Witness = Witness(inputs: seq<Cell>, entries: seq<seq<EntryRow>>, rows: seq<Rows>, core: seq<CoreRow>)

  predicate Shaped(c: Code, w: Witness)
    requires AllValid(c.instrs)
  {
    && |w.inputs| == |c.inputs| && |w.entries| == |c.tables| && |w.rows| == |c.instrs|
    && (forall t :: 0 <= t < |c.tables| ==> |w.entries[t]| == |c.tables[t]|)
    && (forall k :: 0 <= k < |c.instrs| ==> Fits(c.instrs[k], w.rows[k]))
  }

  function ConstVals(c: Code): (r: seq<Cell>)
    ensures |r| == |c.consts|
  { seq(|c.consts|, i requires 0 <= i < |c.consts| => c.consts[i].val) }

  function EntryVals(es: seq<EntryRow>): (r: seq<Cell>)
    ensures |r| == |es|
  { seq(|es|, i requires 0 <= i < |es| => es[i].v) }

  function TableVals(entries: seq<seq<EntryRow>>): (r: seq<seq<Cell>>)
    ensures |r| == |entries|
  { seq(|entries|, t requires 0 <= t < |entries| => EntryVals(entries[t])) }

  function InstrVals(c: Code, w: Witness): (r: seq<seq<Cell>>)
    requires AllValid(c.instrs) && Shaped(c, w)
    ensures |r| == |c.instrs|
  { seq(|c.instrs|, k requires 0 <= k < |c.instrs| => Vals(c.instrs[k], w.rows[k])) }

  function AllVals(c: Code, w: Witness): seq<Cell>
    requires AllValid(c.instrs) && Shaped(c, w)
  { w.inputs + ConstVals(c) + Concat(TableVals(w.entries)) + Concat(InstrVals(c, w)) }

  // ---- the table and permutation sums ----

  function EntryWrites(t: nat, es: seq<EntryRow>): seq<B.Access<(nat, int, Cell)>> {
    seq(|es|, i requires 0 <= i < |es| => B.Access((t, i, es[i].v), es[i].cnt, true))
  }

  function EntryLookup(e: EntryRead): B.Access<(nat, int, Cell)> { B.Access((e.tag, e.idx, e.val), -e.sel, false) }

  function ReadAll(es: seq<EntryRead>): seq<B.Access<(nat, int, Cell)>> {
    seq(|es|, i requires 0 <= i < |es| => EntryLookup(es[i]))
  }

  function TableAccesses(c: Code, w: Witness): seq<B.Access<(nat, int, Cell)>>
    requires AllValid(c.instrs) && Shaped(c, w)
  {
    Concat(seq(|w.entries|, t requires 0 <= t < |w.entries| => EntryWrites(t, w.entries[t])))
    + Concat(seq(|c.instrs|, k requires 0 <= k < |c.instrs| => ReadAll(EntryReads(c.instrs[k], w.rows[k]))))
  }

  function CoreWrite(r: CoreRow): B.Access<(Cell, Cell, Cell)> { B.Access((r.left, r.right, r.out), r.cnt, true) }
  function CoreRead(h: HashRead): B.Access<(Cell, Cell, Cell)> { B.Access((h.left, h.right, h.out), -h.sel, false) }

  function LookUpAll(hs: seq<HashRead>): seq<B.Access<(Cell, Cell, Cell)>> {
    seq(|hs|, i requires 0 <= i < |hs| => CoreRead(hs[i]))
  }

  function HashAccesses(c: Code, w: Witness): seq<B.Access<(Cell, Cell, Cell)>>
    requires AllValid(c.instrs) && Shaped(c, w)
  {
    seq(|w.core|, i requires 0 <= i < |w.core| => CoreWrite(w.core[i]))
    + Concat(seq(|c.instrs|, k requires 0 <= k < |c.instrs| => LookUpAll(HashReads(c.instrs[k], w.rows[k]))))
  }

  /** The witness meets every constraint, and the three sums balance. */
  ghost predicate Satisfies(prims: Prims, c: Code, w: Witness)
    requires Built(c)
  {
    && Shaped(c, w)
    && (forall i :: 0 <= i < |c.inputs| ==> HasKind(w.inputs[i], c.inputs[i].kind))
    && (forall k :: 0 <= k < |c.instrs| ==> PolyOk(c.instrs[k], w.rows[k]))
    && (forall i :: 0 <= i < |w.core| ==> w.core[i].out == prims.compress(w.core[i].left, w.core[i].right))
    && |AllSlots(c)| == |AllVals(c, w)| < P
    && B.Balanced(B.MemAccesses(AllSlots(c), AllVals(c, w), c.counts))
    && |TableAccesses(c, w)| < P && B.Balanced(TableAccesses(c, w))
    && |HashAccesses(c, w)| < P && B.Balanced(HashAccesses(c, w))
  }

  /** The memory a witness defines: what its rows write. */
  ghost function MemoryOf(prims: Prims, c: Code, w: Witness): (mem: Memory)
    requires Built(c) && Satisfies(prims, c, w)
    ensures |mem| == |c.counts|
  { B.MemoryOf(AllSlots(c), AllVals(c, w), |c.counts|) }

  // ---- every access agrees with that memory ----

  lemma SlotsVals(i: Instr, w: Rows)
    requires Valid(i) && Fits(i, w)
    ensures |Slots(i)| == |Vals(i, w)|
  {
    match i
    case Pack(p) => Pk.AgreeMeans(p, w.hints, w.windows, []);
    case Bits(b) => BitsSlotsVals(b, w.bits);
    case E6(op) => E.HoldsMeans(op, w.before, w.e6, []);
    case Path(p) => Mp.AgreeMeans(p, w.path, []);
    case _ =>
  }

  lemma BitsSlotsVals(b: Bt.Inst, rows: seq<Bt.Row>)
    requires Bt.Valid(b) && |rows| == Bt.Width
    ensures |Bt.Slots(b)| == |Bt.Vals(b, rows)|
  {
    Bt.PairShape(b, rows);
    AgreeFlat(Bt.WriteSlots(b), Bt.WriteVals(b, rows), []);
  }

  /** The accesses of every part of the program agree with the memory. */
  predicate PartsAgree(c: Code, w: Witness, mem: Memory)
    requires AllValid(c.instrs) && Shaped(c, w)
  {
    && Agree(InputSlots(c), w.inputs, mem)
    && Agree(ConstSlots(c), ConstVals(c), mem)
    && (forall t :: 0 <= t < |c.tables| ==> Agree(SourceSlots(c.tables[t]), EntryVals(w.entries[t]), mem))
    && (forall k :: 0 <= k < |c.instrs| ==> Agree(Slots(c.instrs[k]), Vals(c.instrs[k], w.rows[k]), mem))
  }

  lemma TablesAgree(c: Code, w: Witness, mem: Memory)
    requires AllValid(c.instrs) && Shaped(c, w)
    ensures |Concat(TableSlots(c.tables))| == |Concat(TableVals(w.entries))|
    ensures Agree(Concat(TableSlots(c.tables)), Concat(TableVals(w.entries)), mem)
       <==> forall t :: 0 <= t < |c.tables| ==> Agree(SourceSlots(c.tables[t]), EntryVals(w.entries[t]), mem)
  {
    hide Agree, SourceSlots, EntryVals;
    AgreeFlat(TableSlots(c.tables), TableVals(w.entries), mem);
    forall t | 0 <= t < |c.tables|
      ensures Agree(TableSlots(c.tables)[t], TableVals(w.entries)[t], mem) <==> Agree(SourceSlots(c.tables[t]), EntryVals(w.entries[t]), mem) { }
  }

  lemma InstrsAgree(c: Code, w: Witness, mem: Memory)
    requires AllValid(c.instrs) && Shaped(c, w)
    ensures |Concat(InstrSlots(c.instrs))| == |Concat(InstrVals(c, w))|
    ensures Agree(Concat(InstrSlots(c.instrs)), Concat(InstrVals(c, w)), mem)
       <==> forall k :: 0 <= k < |c.instrs| ==> Agree(Slots(c.instrs[k]), Vals(c.instrs[k], w.rows[k]), mem)
  {
    hide Agree, Slots, Vals;
    forall k | 0 <= k < |c.instrs| ensures |InstrSlots(c.instrs)[k]| == |InstrVals(c, w)[k]| {
      SlotsVals(c.instrs[k], w.rows[k]);
    }
    AgreeFlat(InstrSlots(c.instrs), InstrVals(c, w), mem);
    forall k | 0 <= k < |c.instrs|
      ensures Agree(InstrSlots(c.instrs)[k], InstrVals(c, w)[k], mem) <==> Agree(Slots(c.instrs[k]), Vals(c.instrs[k], w.rows[k]), mem) { }
  }

  lemma AgreeParts(c: Code, w: Witness, mem: Memory)
    requires AllValid(c.instrs) && Shaped(c, w)
    ensures |AllSlots(c)| == |AllVals(c, w)|
    ensures Agree(AllSlots(c), AllVals(c, w), mem) <==> PartsAgree(c, w, mem)
  {
    hide Agree, InputSlots, ConstSlots, ConstVals, TableSlots, TableVals, InstrSlots, InstrVals, Slots, Vals;
    var a, b, t, i := InputSlots(c), ConstSlots(c), Concat(TableSlots(c.tables)), Concat(InstrSlots(c.instrs));
    var x, y, u, v := w.inputs, ConstVals(c), Concat(TableVals(w.entries)), Concat(InstrVals(c, w));
    TablesAgree(c, w, mem);
    InstrsAgree(c, w, mem);
    AgreeSplit(a, b, x, y, mem);
    AgreeSplit(a + b, t, x + y, u, mem);
    AgreeSplit(a + b + t, i, x + y + u, v, mem);
  }

  lemma MemoryAgrees(prims: Prims, c: Code, w: Witness)
    requires Built(c) && Satisfies(prims, c, w)
    ensures PartsAgree(c, w, MemoryOf(prims, c, w))
  {
    hide PartsAgree, AllSlots, AllVals, Agree;
    B.MemorySound(AllSlots(c), AllVals(c, w), c.counts);
    AgreeParts(c, w, MemoryOf(prims, c, w));
  }

  // ---- the table reads ----

  lemma EntrySels(i: Instr, w: Rows, e: EntryRead)
    requires Valid(i) && Fits(i, w) && PolyOk(i, w) && e in EntryReads(i, w)
    ensures e.sel == 0 || e.sel == 1
  {
    hide Dp.PolyOk;
    if i.DPath? {
      var ss := seq(|w.dpath|, k requires 0 <= k < |w.dpath| => DPathEntries(i.dpath, w.dpath[k]));
      ConcatFrom(ss, e);
      var k :| 0 <= k < |ss| && e in ss[k];
      Dp.StartedBit(w.dpath, w.dpathAfter, k);
    }
  }

  function EntryBlocks(w: Witness): (r: seq<seq<B.Access<(nat, int, Cell)>>>)
    ensures |r| == |w.entries|
  { seq(|w.entries|, t requires 0 <= t < |w.entries| => EntryWrites(t, w.entries[t])) }

  function ReadBlocks(c: Code, w: Witness): (r: seq<seq<B.Access<(nat, int, Cell)>>>)
    requires AllValid(c.instrs) && Shaped(c, w)
    ensures |r| == |c.instrs|
  { seq(|c.instrs|, k requires 0 <= k < |c.instrs| => ReadAll(EntryReads(c.instrs[k], w.rows[k]))) }

  lemma TableBlocks(c: Code, w: Witness)
    requires AllValid(c.instrs) && Shaped(c, w)
    ensures TableAccesses(c, w) == Concat(EntryBlocks(w)) + Concat(ReadBlocks(c, w))
  {
  }

  /** A write on the tables sum is an entry of a table. */
  predicate IsEntry(w: Witness, x: (nat, int, Cell)) {
    x.0 < |w.entries| && 0 <= x.1 < |w.entries[x.0]| && w.entries[x.0][x.1].v == x.2
  }

  lemma EntryWritten(w: Witness, x: B.Access<(nat, int, Cell)>)
    requires x in Concat(EntryBlocks(w))
    ensures x.write && IsEntry(w, x.tuple)
  {
    ConcatFrom(EntryBlocks(w), x);
    var t :| 0 <= t < |w.entries| && x in EntryBlocks(w)[t];
    var i :| 0 <= i < |w.entries[t]| && EntryBlocks(w)[t][i] == x;
  }

  lemma EntryLookedUp(c: Code, w: Witness, x: B.Access<(nat, int, Cell)>)
    requires AllValid(c.instrs) && Shaped(c, w) && x in Concat(ReadBlocks(c, w))
    requires forall k :: 0 <= k < |c.instrs| ==> PolyOk(c.instrs[k], w.rows[k])
    ensures !x.write && (x.mult == 0 || x.mult == -1)
  {
    hide EntryReads, PolyOk, Valid, Fits;
    ConcatFrom(ReadBlocks(c, w), x);
    var k :| 0 <= k < |c.instrs| && x in ReadBlocks(c, w)[k];
    var es := EntryReads(c.instrs[k], w.rows[k]);
    var i :| 0 <= i < |es| && ReadAll(es)[i] == x;
    EntrySels(c.instrs[k], w.rows[k], es[i]);
  }

  lemma TableAccess(c: Code, w: Witness, x: B.Access<(nat, int, Cell)>)
    requires AllValid(c.instrs) && Shaped(c, w) && x in TableAccesses(c, w)
    requires forall k :: 0 <= k < |c.instrs| ==> PolyOk(c.instrs[k], w.rows[k])
    ensures x.write ==> IsEntry(w, x.tuple)
    ensures !x.write ==> x.mult == 0 || x.mult == -1
  {
    hide EntryBlocks, ReadBlocks, PolyOk, TableAccesses, Shaped;
    TableBlocks(c, w);
    if x in Concat(EntryBlocks(w)) { EntryWritten(w, x); } else { EntryLookedUp(c, w, x); }
  }

  lemma ReadIn(c: Code, w: Witness, k: nat, j: nat)
    requires AllValid(c.instrs) && Shaped(c, w) && k < |c.instrs| && j < |EntryReads(c.instrs[k], w.rows[k])|
    ensures EntryLookup(EntryReads(c.instrs[k], w.rows[k])[j]) in TableAccesses(c, w)
  {
    hide EntryReads, TableAccesses;
    var es := EntryReads(c.instrs[k], w.rows[k]);
    TableBlocks(c, w);
    assert ReadAll(es)[j] == EntryLookup(es[j]) && ReadBlocks(c, w)[k] == ReadAll(es);
    ConcatHas(ReadBlocks(c, w), k, EntryLookup(es[j]));
  }

  /** An active table read is an entry, with the value of the entry's row. */
  lemma EntryReadMatches(prims: Prims, c: Code, w: Witness, k: nat, j: nat)
    requires Built(c) && Satisfies(prims, c, w) && k < |c.instrs| && j < |EntryReads(c.instrs[k], w.rows[k])|
    requires EntryReads(c.instrs[k], w.rows[k])[j].sel == 1
    ensures var e := EntryReads(c.instrs[k], w.rows[k])[j]; IsEntry(w, (e.tag, e.idx, e.val))
  {
    hide EntryReads, TableAccesses, Built, AllSlots, AllVals, HashAccesses, PolyOk, IsEntry;
    SatisfiesShape(prims, c, w);
    var acc, e := TableAccesses(c, w), EntryReads(c.instrs[k], w.rows[k])[j];
    ReadIn(c, w, k, j);
    var i :| 0 <= i < |acc| && acc[i] == EntryLookup(e);
    forall n | 0 <= n < |acc| ensures acc[n].write ==> IsEntry(w, acc[n].tuple) {
      TableAccess(c, w, acc[n]);
    }
    forall n | 0 <= n < |acc| && !acc[n].write ensures acc[n].mult == 0 || acc[n].mult == -1 {
      TableAccess(c, w, acc[n]);
    }
    B.ReadMatches(acc, i);
  }

  lemma BuiltValid(c: Code)
    requires Built(c)
    ensures AllValid(c.instrs)
  {
  }

  lemma EntriesMatch(prims: Prims, c: Code, w: Witness, k: nat)
    requires Built(c) && Satisfies(prims, c, w) && k < |c.instrs|
    ensures EntriesOk(c.tables, MemoryOf(prims, c, w), EntryReads(c.instrs[k], w.rows[k]))
  {
    hide EntryReads, Built, MemoryOf, PartsAgree, Satisfies;
    BuiltValid(c);
    SatisfiesShape(prims, c, w);
    MemoryAgrees(prims, c, w);
    var es, mem := EntryReads(c.instrs[k], w.rows[k]), MemoryOf(prims, c, w);
    forall j | 0 <= j < |es| ensures EntryOk(c.tables, mem, es[j]) {
      if es[j].sel == 1 {
        EntryReadMatches(prims, c, w, k, j);
        EntryValue(c, w, mem, es[j].tag, es[j].idx);
      }
    }
  }

  lemma SatisfiesShape(prims: Prims, c: Code, w: Witness)
    requires Built(c) && Satisfies(prims, c, w)
    ensures AllValid(c.instrs) && Shaped(c, w)
  {
    hide AllSlots, AllVals, TableAccesses, HashAccesses;
  }

  lemma EntryValue(c: Code, w: Witness, mem: Memory, t: nat, i: nat)
    requires AllValid(c.instrs) && Shaped(c, w) && PartsAgree(c, w, mem) && t < |c.tables| && i < |c.tables[t]|
    ensures c.tables[t][i] < |mem| && mem[c.tables[t][i]] == w.entries[t][i].v
  {
    hide Slots, Vals;
    var s, v := SourceSlots(c.tables[t]), EntryVals(w.entries[t]);
    assert Agree(s, v, mem);
    assert s[i].addr == c.tables[t][i] && v[i] == w.entries[t][i].v;
  }

  // ---- the compression lookups ----

  lemma HashSels(i: Instr, w: Rows, h: HashRead)
    requires Valid(i) && Fits(i, w) && PolyOk(i, w) && h in HashReads(i, w)
    ensures h.sel == 0 || h.sel == 1
  {
    hide Dp.PolyOk, Mix, Dp.Left, Dp.Right;
    if i.DPath? {
      var k :| 0 <= k < |w.dpath| && HashReads(i, w)[k] == h;
      Dp.StartedBit(w.dpath, w.dpathAfter, k);
    }
  }

  function CoreBlock(w: Witness): (r: seq<B.Access<(Cell, Cell, Cell)>>)
    ensures |r| == |w.core|
  { seq(|w.core|, i requires 0 <= i < |w.core| => CoreWrite(w.core[i])) }

  function LookUpBlocks(c: Code, w: Witness): (r: seq<seq<B.Access<(Cell, Cell, Cell)>>>)
    requires AllValid(c.instrs) && Shaped(c, w)
    ensures |r| == |c.instrs|
  { seq(|c.instrs|, k requires 0 <= k < |c.instrs| => LookUpAll(HashReads(c.instrs[k], w.rows[k]))) }

  lemma HashBlocks(c: Code, w: Witness)
    requires AllValid(c.instrs) && Shaped(c, w)
    ensures HashAccesses(c, w) == CoreBlock(w) + Concat(LookUpBlocks(c, w))
  {
  }

  /** The tuple is a row of the P2 core. */
  predicate InCore(w: Witness, x: (Cell, Cell, Cell)) {
    exists i :: 0 <= i < |w.core| && (w.core[i].left, w.core[i].right, w.core[i].out) == x
  }

  lemma HashLookedUp(c: Code, w: Witness, x: B.Access<(Cell, Cell, Cell)>)
    requires AllValid(c.instrs) && Shaped(c, w) && x in Concat(LookUpBlocks(c, w))
    requires forall k :: 0 <= k < |c.instrs| ==> PolyOk(c.instrs[k], w.rows[k])
    ensures !x.write && (x.mult == 0 || x.mult == -1)
  {
    hide HashReads, PolyOk, Valid, Fits;
    ConcatFrom(LookUpBlocks(c, w), x);
    var k :| 0 <= k < |c.instrs| && x in LookUpBlocks(c, w)[k];
    var hs := HashReads(c.instrs[k], w.rows[k]);
    var i :| 0 <= i < |hs| && LookUpAll(hs)[i] == x;
    HashSels(c.instrs[k], w.rows[k], hs[i]);
  }

  lemma HashAccess(c: Code, w: Witness, x: B.Access<(Cell, Cell, Cell)>)
    requires AllValid(c.instrs) && Shaped(c, w) && x in HashAccesses(c, w)
    requires forall k :: 0 <= k < |c.instrs| ==> PolyOk(c.instrs[k], w.rows[k])
    ensures x.write ==> InCore(w, x.tuple)
    ensures !x.write ==> x.mult == 0 || x.mult == -1
  {
    hide LookUpBlocks, PolyOk, HashAccesses, Shaped;
    HashBlocks(c, w);
    if x in CoreBlock(w) {
      var i :| 0 <= i < |w.core| && CoreBlock(w)[i] == x;
      assert (w.core[i].left, w.core[i].right, w.core[i].out) == x.tuple;
    } else {
      HashLookedUp(c, w, x);
    }
  }

  lemma LookUpIn(c: Code, w: Witness, k: nat, j: nat)
    requires AllValid(c.instrs) && Shaped(c, w) && k < |c.instrs| && j < |HashReads(c.instrs[k], w.rows[k])|
    ensures CoreRead(HashReads(c.instrs[k], w.rows[k])[j]) in HashAccesses(c, w)
  {
    hide HashReads, HashAccesses;
    var hs := HashReads(c.instrs[k], w.rows[k]);
    HashBlocks(c, w);
    assert LookUpAll(hs)[j] == CoreRead(hs[j]) && LookUpBlocks(c, w)[k] == LookUpAll(hs);
    ConcatHas(LookUpBlocks(c, w), k, CoreRead(hs[j]));
  }

  lemma HashReadMatches(prims: Prims, c: Code, w: Witness, k: nat, j: nat)
    requires Built(c) && Satisfies(prims, c, w) && k < |c.instrs| && j < |HashReads(c.instrs[k], w.rows[k])|
    requires HashReads(c.instrs[k], w.rows[k])[j].sel == 1
    ensures var h := HashReads(c.instrs[k], w.rows[k])[j]; InCore(w, (h.left, h.right, h.out))
  {
    hide HashReads, TableAccesses, Built, AllSlots, AllVals, HashAccesses, PolyOk, InCore;
    SatisfiesShape(prims, c, w);
    var acc, h := HashAccesses(c, w), HashReads(c.instrs[k], w.rows[k])[j];
    LookUpIn(c, w, k, j);
    var i :| 0 <= i < |acc| && acc[i] == CoreRead(h);
    forall n | 0 <= n < |acc| ensures acc[n].write ==> InCore(w, acc[n].tuple) {
      HashAccess(c, w, acc[n]);
    }
    forall n | 0 <= n < |acc| && !acc[n].write ensures acc[n].mult == 0 || acc[n].mult == -1 {
      HashAccess(c, w, acc[n]);
    }
    B.ReadMatches(acc, i);
  }

  lemma HashesMatch(prims: Prims, c: Code, w: Witness, k: nat)
    requires Built(c) && Satisfies(prims, c, w) && k < |c.instrs|
    ensures HashesOk(prims, HashReads(c.instrs[k], w.rows[k]))
  {
    hide HashReads, Built, AllSlots, AllVals, TableAccesses, HashAccesses, PolyOk;
    SatisfiesShape(prims, c, w);
    var hs := HashReads(c.instrs[k], w.rows[k]);
    forall j | 0 <= j < |hs| ensures HashOk(prims, hs[j]) {
      if hs[j].sel == 1 { HashReadMatches(prims, c, w, k, j); }
    }
  }

  // ---- every instruction is executed by the memory ----

  /** No division by zero: every divisor of the memory is invertible. */
  ghost predicate NoZeroDivisor(prims: Prims, c: Code, mem: Memory)
    requires Built(c) && |mem| == |c.counts|
  {
    forall k :: 0 <= k < |c.instrs| && c.instrs[k].E6? ==> InstrInBounds(c, mem, k) && E.Divides(c.instrs[k].op, prims.inv, mem)
  }

  predicate InstrInBounds(c: Code, mem: Memory, k: nat)
    requires k < |c.instrs|
  { InBounds(c.instrs[k], mem) }

  lemma BuiltAt(c: Code, k: nat, mem: Memory)
    requires Built(c) && k < |c.instrs| && |mem| == |c.counts|
    ensures AllValid(c.instrs) && Valid(c.instrs[k]) && InstrBuilt(c, k)
    ensures InBounds(c.instrs[k], mem) && TablesMatch(c.tables, TablesOf(c.instrs[k]))
  {
    hide AllSlots, InBounds, Valid, Uses, Available, TablesMatch;
  }

  lemma ConstValue(c: Code, mem: Memory, a: nat)
    requires Agree(ConstSlots(c), ConstVals(c), mem) && HasZero(c, a)
    ensures a < |mem| && mem[a] == ZeroCell
  {
    var i :| 0 <= i < |c.consts| && c.consts[i] == ConstCell(a, ZeroCell);
    assert ConstSlots(c)[i].addr == a && ConstVals(c)[i] == ZeroCell;
  }

  lemma InstrGiven(prims: Prims, c: Code, w: Witness, k: nat)
    requires Built(c) && Satisfies(prims, c, w) && k < |c.instrs| && NoZeroDivisor(prims, c, MemoryOf(prims, c, w))
    ensures InstrBuilt(c, k) && InBounds(c.instrs[k], MemoryOf(prims, c, w)) && Given(prims, c.instrs[k], MemoryOf(prims, c, w))
  {
    hide Built, Satisfies, MemoryOf, E.Divides, InBounds, Uses, Available;
    var mem := MemoryOf(prims, c, w);
    BuiltAt(c, k, mem);
    SatisfiesShape(prims, c, w);
    MemoryAgrees(prims, c, w);
    if c.instrs[k].Pack? { ConstValue(c, mem, c.instrs[k].pack.zero); }
  }

  lemma InstrMeets(prims: Prims, c: Code, w: Witness, k: nat)
    requires Built(c) && Satisfies(prims, c, w) && k < |c.instrs| && NoZeroDivisor(prims, c, MemoryOf(prims, c, w))
    ensures Shaped(c, w) && Meets(prims, c.tables, c.instrs[k], w.rows[k], MemoryOf(prims, c, w))
  {
    hide Built, Satisfies, MemoryOf, InBounds, Given, EntriesOk, HashesOk, TablesMatch, Executed, NoZeroDivisor, InstrBuilt;
    var mem := MemoryOf(prims, c, w);
    BuiltAt(c, k, mem);
    SatisfiesShape(prims, c, w);
    MemoryAgrees(prims, c, w);
    InstrGiven(prims, c, w, k);
    EntriesMatch(prims, c, w, k);
    HashesMatch(prims, c, w, k);
    PolyAt(prims, c, w, k);
  }

  lemma InstrExecuted(prims: Prims, c: Code, w: Witness, k: nat)
    requires Built(c) && Satisfies(prims, c, w) && k < |c.instrs| && NoZeroDivisor(prims, c, MemoryOf(prims, c, w))
    ensures Executed(prims, c.instrs[k], MemoryOf(prims, c, w))
  {
    hide Built, Satisfies, MemoryOf, Meets, Executed, NoZeroDivisor;
    InstrMeets(prims, c, w, k);
    InstrSound.InstrSound(prims, c.tables, c.instrs[k], w.rows[k], MemoryOf(prims, c, w));
  }

  lemma PolyAt(prims: Prims, c: Code, w: Witness, k: nat)
    requires Built(c) && Satisfies(prims, c, w) && k < |c.instrs|
    ensures AllValid(c.instrs) && Shaped(c, w) && PolyOk(c.instrs[k], w.rows[k])
  {
    hide AllSlots, AllVals, TableAccesses, HashAccesses, PolyOk, Built;
    SatisfiesShape(prims, c, w);
  }

  // ---- execution ----

  function InputWrites(c: Code, inputs: seq<Cell>): (ws: seq<Write>)
    requires |inputs| == |c.inputs|
    ensures |ws| == |inputs|
  { seq(|inputs|, i requires 0 <= i < |inputs| => Write(c.inputs[i].addr, inputs[i])) }

  function ConstWrites(c: Code): (ws: seq<Write>)
    ensures |ws| == |c.consts|
  { seq(|c.consts|, i requires 0 <= i < |c.consts| => Write(c.consts[i].addr, c.consts[i].val)) }

  predicate InRange(c: Code) {
    && (forall i :: 0 <= i < |c.inputs| ==> c.inputs[i].addr < |c.counts|)
    && (forall i :: 0 <= i < |c.consts| ==> c.consts[i].addr < |c.counts|)
  }

  /** The memory before the first instruction: zero, the inputs, the constants. */
  function Initial(c: Code, inputs: seq<Cell>): (mem: Memory)
    requires InRange(c) && |inputs| == |c.inputs|
    ensures |mem| == |c.counts|
  {
    Apply(Apply(seq(|c.counts|, i => ZeroCell), InputWrites(c, inputs)), ConstWrites(c))
  }

  /** The memory after k instructions, or None if one fails. */
  ghost function RunTo(prims: Prims, c: Code, inputs: seq<Cell>, k: nat): (r: Option<Memory>)
    requires Built(c) && InRange(c) && |inputs| == |c.inputs| && k <= |c.instrs|
    ensures r.Some? ==> |r.value| == |c.counts|
  {
    if k == 0 then Some(Initial(c, inputs))
    else
      var prev := RunTo(prims, c, inputs, k - 1);
      if prev.None? then None else Step(prims, c, k - 1, prev.value)
  }

  /** One instruction's effect on the memory. */
  ghost function Step(prims: Prims, c: Code, k: nat, m: Memory): (r: Option<Memory>)
    requires Built(c) && k < |c.instrs| && |m| == |c.counts|
    ensures r.Some? ==> |r.value| == |c.counts|
  {
    BuiltAt(c, k, m);
    var ws := Writes(prims, c.instrs[k], m);
    if ws.None? || !WritesIn(ws.value, |m|) then None else Some(Apply(m, ws.value))
  }

  /** Runs the program: it fails on a wrong number of inputs, an input with a lane beyond its
      kind, or a failing instruction. */
  ghost function Execute(prims: Prims, c: Code, inputs: seq<Cell>): Option<Memory>
    requires Built(c) && InRange(c)
  {
    if |inputs| != |c.inputs| || exists i :: 0 <= i < |inputs| && !HasKind(inputs[i], c.inputs[i].kind) then None
    else RunTo(prims, c, inputs, |c.instrs|)
  }

  // ---- the run agrees with the memory ----

  lemma WritesToLast(ws: seq<Write>, a: nat)
    requires ws != []
    ensures WritesTo(ws, a) <==> WritesTo(ws[..|ws| - 1], a) || ws[|ws| - 1].addr == a
  {
    var init := ws[..|ws| - 1];
    if k :| 0 <= k < |init| && init[k].addr == a { assert ws[k].addr == a; }
    if k :| 0 <= k < |ws| && ws[k].addr == a { assert k < |init| ==> init[k].addr == a; }
  }

  lemma StoredFront(ws: seq<Write>, mem: Memory)
    requires ws != [] && Stored(ws, mem)
    ensures Stored(ws[..|ws| - 1], mem)
    ensures ws[|ws| - 1].addr < |mem| && mem[ws[|ws| - 1].addr] == ws[|ws| - 1].val
  {
  }

  lemma {:induction false} ApplyStored(m: Memory, ws: seq<Write>, mem: Memory, a: nat)
    requires |m| == |mem| && Stored(ws, mem) && a < |m|
    ensures Apply(m, ws)[a] == if WritesTo(ws, a) then mem[a] else m[a]
  {
    hide WritesTo;
    if ws == [] {
      assert !WritesTo(ws, a) by { NoWrites(a); }
    } else {
      StoredFront(ws, mem);
      WritesToLast(ws, a);
      ApplyStored(m, ws[..|ws| - 1], mem, a);
    }
  }

  lemma NoWrites(a: nat)
    ensures !WritesTo([], a)
  {
  }

  /** The cells available before instruction k hold the memory's values. */
  ghost predicate AgreesOn(c: Code, k: nat, m: Memory, mem: Memory)
    requires AllValid(c.instrs) && k <= |c.instrs|
  {
    |m| == |mem| == |c.counts| && forall a: nat :: a < |m| && Available(c, k, a) ==> m[a] == mem[a]
  }

  lemma InitialAgrees(c: Code, w: Witness, mem: Memory)
    requires AllValid(c.instrs) && Shaped(c, w) && PartsAgree(c, w, mem) && InRange(c) && |mem| == |c.counts|
    ensures AgreesOn(c, 0, Initial(c, w.inputs), mem)
  {
    hide Slots, Vals, Valid, Fits;
    var zero := seq(|c.counts|, i => ZeroCell);
    var x, y := InputWrites(c, w.inputs), ConstWrites(c);
    assert Stored(x, mem) by { StoredInputs(c, w, mem); }
    assert Stored(y, mem) by { StoredConsts(c, mem); }
    var m := Apply(zero, x);
    forall a: nat | a < |mem| && Available(c, 0, a) ensures Apply(m, y)[a] == mem[a] {
      ApplyStored(zero, x, mem, a);
      ApplyStored(m, y, mem, a);
      if IsInput(c, a) {
        var i :| 0 <= i < |c.inputs| && c.inputs[i].addr == a;
        assert x[i].addr == a;
      } else {
        var i :| 0 <= i < |c.consts| && c.consts[i].addr == a;
        assert y[i].addr == a;
      }
    }
  }

  lemma StoredInputs(c: Code, w: Witness, mem: Memory)
    requires |w.inputs| == |c.inputs| && Agree(InputSlots(c), w.inputs, mem)
    ensures Stored(InputWrites(c, w.inputs), mem)
  {
    forall i | 0 <= i < |c.inputs| ensures c.inputs[i].addr < |mem| && mem[c.inputs[i].addr] == w.inputs[i] {
      assert InputSlots(c)[i].addr == c.inputs[i].addr;
    }
  }

  lemma StoredConsts(c: Code, mem: Memory)
    requires Agree(ConstSlots(c), ConstVals(c), mem)
    ensures Stored(ConstWrites(c), mem)
  {
    forall i | 0 <= i < |c.consts| ensures c.consts[i].addr < |mem| && mem[c.consts[i].addr] == c.consts[i].val {
      assert ConstSlots(c)[i].addr == c.consts[i].addr && ConstVals(c)[i] == c.consts[i].val;
    }
  }

  lemma AvailableNext(c: Code, k: nat, a: nat)
    requires AllValid(c.instrs) && k < |c.instrs| && Available(c, k + 1, a)
    ensures Available(c, k, a) || Slot(a, true) in Slots(c.instrs[k])
  {
    hide Slots, Valid;
    if WrittenBy(c.instrs, k + 1, a) {
      var j :| 0 <= j < k + 1 && Slot(a, true) in Slots(c.instrs[j]);
      if j < k { assert WrittenBy(c.instrs, k, a); }
    }
  }

  lemma UsesAgree(c: Code, k: nat, m: Memory, mem: Memory)
    requires AllValid(c.instrs) && k < |c.instrs| && InstrBuilt(c, k) && AgreesOn(c, k, m, mem)
    ensures SameUses(c.instrs[k], m, mem)
  {
    hide Uses, Available, Valid, InBounds, TablesMatch;
  }

  lemma StepAgrees(prims: Prims, c: Code, k: nat, m: Memory, mem: Memory)
    requires Built(c) && AllValid(c.instrs) && k < |c.instrs| && AgreesOn(c, k, m, mem) && Executed(prims, c.instrs[k], mem)
    ensures var r := Step(prims, c, k, m); r.Some? && AgreesOn(c, k + 1, r.value, mem)
  {
    hide Built, Uses, Available, Valid, InBounds, TablesMatch, InstrBuilt, Writes, Slots, Asserts, SameUses;
    var i := c.instrs[k];
    BuiltAt(c, k, m);
    UsesAgree(c, k, m, mem);
    Frame(prims, i, m, mem);
    var ws := Writes(prims, i, mem).value;
    forall a: nat | a < |m| && Available(c, k + 1, a) ensures Apply(m, ws)[a] == mem[a] {
      ApplyStored(m, ws, mem, a);
      AvailableNext(c, k, a);
      if Slot(a, true) in Slots(i) { Covers(prims, i, mem, a); }
    }
  }

  lemma {:induction false} RunAgrees(prims: Prims, c: Code, w: Witness, k: nat)
    requires Built(c) && InRange(c) && Satisfies(prims, c, w) && NoZeroDivisor(prims, c, MemoryOf(prims, c, w))
    requires |w.inputs| == |c.inputs| && k <= |c.instrs|
    ensures AllValid(c.instrs)
    ensures var r := RunTo(prims, c, w.inputs, k); r.Some? && AgreesOn(c, k, r.value, MemoryOf(prims, c, w))
  {
    hide Built, Satisfies, MemoryOf, NoZeroDivisor, AgreesOn, Step, Initial, Executed, PartsAgree;
    var mem := MemoryOf(prims, c, w);
    SatisfiesShape(prims, c, w);
    if k == 0 {
      MemoryAgrees(prims, c, w);
      InitialAgrees(c, w, mem);
    } else {
      RunAgrees(prims, c, w, k - 1);
      InstrExecuted(prims, c, w, k - 1);
      StepAgrees(prims, c, k - 1, RunTo(prims, c, w.inputs, k - 1).value, mem);
    }
  }

  /** Every address is written by some row, hence available at the end. */
  lemma AllAvailable(c: Code, a: nat)
    requires Built(c) && a < |c.counts|
    ensures AllValid(c.instrs) && Available(c, |c.instrs|, a)
  {
    hide Slots, Valid, InstrBuilt;
    B.HasWriter(AllSlots(c), |c.counts|, a);
    var s := Slot(a, true);
    if s in InputSlots(c) {
      var i :| 0 <= i < |c.inputs| && InputSlots(c)[i] == s;
      assert c.inputs[i].addr == a;
    } else if s in ConstSlots(c) {
      var i :| 0 <= i < |c.consts| && ConstSlots(c)[i] == s;
      assert c.consts[i].addr == a;
    } else if s in Concat(TableSlots(c.tables)) {
      ConcatFrom(TableSlots(c.tables), s);
      assert false;
    } else {
      ConcatFrom(InstrSlots(c.instrs), s);
      var k :| 0 <= k < |c.instrs| && s in InstrSlots(c.instrs)[k];
      assert s in Slots(c.instrs[k]);
    }
  }

  lemma SlotsAt(a: seq<Slot>, b: seq<Slot>, rest: seq<Slot>, i: nat)
    requires i < |a| + |b|
    ensures (a + b + rest)[i] == if i < |a| then a[i] else b[i - |a|]
  {
  }

  lemma BuiltInRange(c: Code)
    requires Built(c)
    ensures InRange(c)
  {
    hide InstrBuilt, Slots, Valid, B.Counted, Concat, TableSlots, InstrSlots;
    var all, rest := AllSlots(c), Concat(TableSlots(c.tables)) + Concat(InstrSlots(c.instrs));
    assert all == InputSlots(c) + ConstSlots(c) + rest;
    forall i | 0 <= i < |c.inputs| ensures c.inputs[i].addr < |c.counts| {
      SlotsAt(InputSlots(c), ConstSlots(c), rest, i);
    }
    forall i | 0 <= i < |c.consts| ensures c.consts[i].addr < |c.counts| {
      SlotsAt(InputSlots(c), ConstSlots(c), rest, |c.inputs| + i);
    }
  }

  /** Whole-machine soundness. Any witness of a built program that meets all chip constraints
      with the three sums balanced assigns every cell the value Execute computes from the same
      inputs, provided no division has a zero divisor; every assertion of the program holds. */
  lemma MachineSound(prims: Prims, c: Code, w: Witness)
    requires Built(c) && Satisfies(prims, c, w) && NoZeroDivisor(prims, c, MemoryOf(prims, c, w))
    ensures InRange(c) && Execute(prims, c, w.inputs) == Some(MemoryOf(prims, c, w))
    ensures forall k :: 0 <= k < |c.instrs| ==> Executed(prims, c.instrs[k], MemoryOf(prims, c, w))
  {
    hide Built, MemoryOf, NoZeroDivisor, Executed, RunTo, AllSlots, AllVals, TableAccesses, HashAccesses, PolyOk, Available;
    BuiltInRange(c);
    SatisfiesShape(prims, c, w);
    var mem := MemoryOf(prims, c, w);
    RunAgrees(prims, c, w, |c.instrs|);
    var m := RunTo(prims, c, w.inputs, |c.instrs|).value;
    forall a | 0 <= a < |mem| ensures m[a] == mem[a] { AllAvailable(c, a); }
    assert m == mem;
    forall k | 0 <= k < |c.instrs| ensures Executed(prims, c.instrs[k], mem) { InstrExecuted(prims, c, w, k); }
  }
}
