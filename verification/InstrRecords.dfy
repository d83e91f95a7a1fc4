/** What executing an instruction records, and why its rows look up exactly that. */
module InstrRecords {
  import opened KoalaBear
  import opened Constraints
  import opened Cells
  import opened Program
  import opened InstrSound
  import opened InstrFrame
  import Md = ChipMD
  import Tb = ChipTable
  import Mk = ChipMerkle
  import Mp = MerklePath
  import Dp = ChipDPath

  // ---- what execution records ----

  /** The rows of a dynamic path, none if it fails. */
  function DPathRun(prims: Prims, p: Dp.DynamicPath, mem: Memory): seq<Dp.Row>
    requires ValidDPath(p) && Dp.Addressed(p, mem)
  {
    DPathTables(p, mem);
    var rows := Dp.ExecRows(Dp.TablesOf(p, mem), prims.compress, mem[p.index][0]);
    if rows.Some? then rows.value else []
  }

  /** The compressions an instruction computes, in order. */
  function InstrHashes(prims: Prims, i: Instr, mem: Memory): seq<(Cell, Cell)>
    requires Valid(i) && InBounds(i, mem)
  {
    match i
    case MD(h) => Md.Hashes(Md.TraceRows(prims.compress, h, mem))
    case Path(p) => Mp.Hashes(Mp.WalkOf(prims.compress, p, mem))
    case DPath(p) => Dp.Hashes(DPathRun(prims, p, mem))
    case _ => []
  }

  /** The table entries a dynamic path reads while it runs. */
  function InstrEntries(prims: Prims, i: Instr, mem: Memory): multiset<(nat, nat)>
    requires Valid(i) && InBounds(i, mem)
  {
    match i
    case DPath(p) => multiset(Dp.Entries(p, DPathRun(prims, p, mem)))
    case _ => multiset{}
  }

  /** The entry a lookup instruction reads. */
  function InstrLookups(i: Instr, mem: Memory): multiset<(nat, nat)>
    requires InBounds(i, mem)
  {
    match i
    case Lookup(l) => multiset{(l.table.tag, mem[l.idx][0])}
    case _ => multiset{}
  }

  // ---- the records depend on the addresses used ----

  lemma PathRecordFrame(compress: (Cell, Cell) -> Cell, p: Mp.Path, m: Memory, n: Memory)
    requires Mp.Addressed(p, m) && Mp.Addressed(p, n) && SameUses(Path(p), m, n)
    ensures Mp.WalkOf(compress, p, m) == Mp.WalkOf(compress, p, n)
  {
    hide Mk.Walk, Mk.Levels;
    forall k | 0 <= k < |p.steps| ensures Mp.SetupAt(p, m, k) == Mp.SetupAt(p, n, k) { }
    assert Mp.PathOf(p, m) == Mp.PathOf(p, n);
  }

  lemma MDRecordFrame(compress: (Cell, Cell) -> Cell, h: Md.Hash, m: Memory, n: Memory)
    requires Md.InBounds(h, m) && Md.InBounds(h, n) && SameUses(MD(h), m, n)
    ensures Md.TraceRows(compress, h, m) == Md.TraceRows(compress, h, n)
  {
    hide Md.StateAt;
    LoadFrame(h.blocks, m, n);
    forall k | 0 <= k < |h.blocks| ensures m[h.blocks[k]] == n[h.blocks[k]] { assert h.blocks[k] in h.blocks; }
    assert Md.TraceRows(compress, h, m) == Md.TraceRows(compress, h, n);
  }

  lemma RecordFrame(prims: Prims, i: Instr, m: Memory, n: Memory)
    requires Valid(i) && InBounds(i, m) && InBounds(i, n) && SameUses(i, m, n)
    ensures InstrHashes(prims, i, m) == InstrHashes(prims, i, n)
    ensures InstrEntries(prims, i, m) == InstrEntries(prims, i, n)
    ensures InstrLookups(i, m) == InstrLookups(i, n)
  {
    hide Md.TraceRows, Mp.WalkOf, Dp.ExecRows, Dp.TablesOf, Md.Hashes, Mp.Hashes, Dp.Hashes, Dp.Entries, Mp.WellFormed;
    match i
    case MD(h) => MDRecordFrame(prims.compress, h, m, n);
    case Path(p) => PathRecordFrame(prims.compress, p, m, n);
    case DPath(p) => DPathFrame(p, m, n);
    case _ =>
  }

  // ---- what the rows look up ----

  /** The compressions of the active reads, in order. */
  function ActiveHashes(hs: seq<HashRead>): seq<(Cell, Cell)> {
    if hs == [] then []
    else
      var h := hs[|hs| - 1];
      ActiveHashes(hs[..|hs| - 1]) + if h.sel == 1 then [(h.left, h.right)] else []
  }

  /** The table and index of the active reads, in order. */
  function ActiveEntries(es: seq<EntryRead>): seq<(nat, nat)> {
    if es == [] then []
    else
      var e := es[|es| - 1];
      ActiveEntries(es[..|es| - 1]) + if e.sel == 1 then [(e.tag, e.idx)] else []
  }

  lemma {:induction false} AllActive(hs: seq<HashRead>, xs: seq<(Cell, Cell)>)
    requires |xs| == |hs| && forall k :: 0 <= k < |hs| ==> hs[k].sel == 1 && xs[k] == (hs[k].left, hs[k].right)
    ensures ActiveHashes(hs) == xs
  {
    if hs != [] {
      var n := |hs| - 1;
      AllActive(hs[..n], xs[..n]);
      assert xs == xs[..n] + [xs[n]];
    }
  }

  lemma {:induction false} EntriesAppend(a: seq<EntryRead>, b: seq<EntryRead>)
    ensures ActiveEntries(a + b) == ActiveEntries(a) + ActiveEntries(b)
    decreases b
  {
    if b == [] {
      assert a + b == a;
    } else {
      var n := |b| - 1;
      assert (a + b)[..|a| + n] == a + b[..n];
      EntriesAppend(a, b[..n]);
    }
  }

  // ---- hashes ----

  lemma MDRecords(prims: Prims, h: Md.Hash, w: Rows, mem: Memory)
    requires Valid(MD(h)) && Fits(MD(h), w) && PolyOk(MD(h), w) && Agree(Md.Slots(h), Md.Vals(w.md), mem)
    requires HashesOk(prims, HashReads(MD(h), w))
    ensures Md.InBounds(h, mem) && ActiveHashes(HashReads(MD(h), w)) == Md.Hashes(Md.TraceRows(prims.compress, h, mem))
  {
    hide Md.RowsOk, Agree, Md.Slots, Md.Vals, Md.StateAt, ActiveHashes;
    var hs := HashReads(MD(h), w);
    forall k | 0 <= k < |w.md| ensures w.md[k].d == prims.compress(w.md[k].st, w.md[k].b) {
      assert HashOk(prims, hs[k]);
    }
    Md.AgreeMeans(h, w.md, mem);
    var xs := Md.Hashes(Md.TraceRows(prims.compress, h, mem));
    forall k | 0 <= k < |hs| ensures hs[k].sel == 1 && xs[k] == (hs[k].left, hs[k].right) {
      Md.StatesAre(prims.compress, h, w.mdBefore, w.md, mem, k);
    }
    AllActive(hs, xs);
  }

  lemma PathWalked(prims: Prims, p: Mp.Path, w: Rows, mem: Memory)
    requires Valid(Path(p)) && Fits(Path(p), w) && PolyOk(Path(p), w) && Agree(Mp.Slots(p), Mp.Vals(p, w.path), mem)
    requires HashesOk(prims, HashReads(Path(p), w))
    ensures Mp.Addressed(p, mem)
    ensures var walk := Mp.WalkOf(prims.compress, p, mem);
      |walk| == |w.path| && forall k :: 0 <= k < |walk| ==> Mk.SameRow(w.path[k], walk[k])
  {
    hide Mp.PolyOk, Agree, Mp.Slots, Mp.Vals, Mp.WellFormed, Mix, Mk.RowsOk, Mk.Levels, Mk.Walk, Mk.SameRow, Mp.PathOf, Mk.ValidPath;
    Mp.AgreeMeans(p, w.path, mem);
    forall k | 0 <= k < |w.path| ensures Mp.HashOk(prims.compress, w.path[k]) {
      assert HashOk(prims, HashReads(Path(p), w)[k]);
    }
    Mp.RowsMean(prims.compress, p, mem, w.pathBefore, w.path, w.pathAfter);
    Mp.PathIsValid(p, mem);
    Mk.MerkleSound(prims.compress, Mp.PathOf(p, mem), w.pathBefore, w.path, w.pathAfter);
    Mp.WalkIs(prims.compress, p, mem);
  }

  lemma PathRecords(prims: Prims, p: Mp.Path, w: Rows, mem: Memory)
    requires Valid(Path(p)) && Fits(Path(p), w) && PolyOk(Path(p), w) && Agree(Mp.Slots(p), Mp.Vals(p, w.path), mem)
    requires HashesOk(prims, HashReads(Path(p), w))
    ensures Mp.Addressed(p, mem) && ActiveHashes(HashReads(Path(p), w)) == Mp.Hashes(Mp.WalkOf(prims.compress, p, mem))
  {
    hide Mp.PolyOk, Agree, Mp.Slots, Mp.Vals, Mp.WellFormed, Mix, Mp.WalkOf, ActiveHashes;
    PathWalked(prims, p, w, mem);
    var hs, walk := HashReads(Path(p), w), Mp.WalkOf(prims.compress, p, mem);
    var xs := Mp.Hashes(walk);
    forall k | 0 <= k < |hs| ensures hs[k].sel == 1 && xs[k] == (hs[k].left, hs[k].right) {
      assert Mk.SameRow(w.path[k], walk[k]);
      WalkBit(prims.compress, p, mem, k);
      MixBit(w.path[k].b, w.path[k].cur, w.path[k].s);
      MixBit(w.path[k].b, w.path[k].s, w.path[k].cur);
    }
    AllActive(hs, xs);
  }

  lemma WalkBit(compress: (Cell, Cell) -> Cell, p: Mp.Path, mem: Memory, k: nat)
    requires Mp.Addressed(p, mem) && k < |p.steps|
    ensures IsBit(Mp.WalkOf(compress, p, mem)[k].b)
  {
    hide Mk.StateAt;
  }

  lemma {:induction false} DPathHashes(p: Dp.DynamicPath, rows: seq<Dp.Row>, e: seq<Dp.Row>, hs: seq<HashRead>)
    requires |e| == |rows| == |hs| && forall k :: 0 <= k < |rows| ==> Dp.Matches(e[k], rows[k])
    requires forall k :: 0 <= k < |rows| ==> hs[k] == HashRead(Dp.Left(rows[k]), Dp.Right(rows[k]), rows[k].out, rows[k].started)
    ensures ActiveHashes(hs) == Dp.Hashes(e)
  {
    hide Mix;
    if rows != [] {
      var n := |rows| - 1;
      DPathHashes(p, rows[..n], e[..n], hs[..n]);
      assert Dp.Matches(e[n], rows[n]);
    }
  }

  // ---- entries ----

  lemma Rotated(x: (nat, nat), y: (nat, nat), z: (nat, nat))
    ensures multiset([x, y, z]) == multiset([y, z, x])
  {
    assert multiset([x, y, z]) == multiset{x, y, z} == multiset{y, z, x};
  }

  /** A row's active reads. */
  lemma RowReads(p: Dp.DynamicPath, row: Dp.Row)
    requires IsBit(row.kind)
    ensures row.kind == 1 ==>
      ActiveEntries(DPathEntries(p, row)) == [(p.leaves.tag, row.pi), (p.order.tag, row.fc), (p.heights.tag, row.pi)]
    ensures row.kind == 0 ==> ActiveEntries(DPathEntries(p, row)) == [(p.siblings.tag, (row.hc - 1) % P)]
  {
    hide ScalarCell, ActiveEntries;
    var es := DPathEntries(p, row);
    ActiveOfFour(es[0], es[1], es[2], es[3]);
  }

  lemma EntriesOfRow(p: Dp.DynamicPath, row: Dp.Row, e: Dp.Row)
    requires Dp.Matches(e, row) && IsBit(row.kind)
    ensures row.kind == 1 ==> Dp.RowEntries(p, e) == [(p.order.tag, row.fc), (p.heights.tag, row.pi), (p.leaves.tag, row.pi)]
    ensures row.kind == 0 ==> Dp.RowEntries(p, e) == [(p.siblings.tag, (row.hc - 1) % P)]
  {
  }

  /** One row's active reads are the entries its execution records. */
  lemma RowRecords(p: Dp.DynamicPath, row: Dp.Row, e: Dp.Row)
    requires Dp.Matches(e, row) && IsBit(row.kind)
    ensures multiset(ActiveEntries(DPathEntries(p, row))) == multiset(Dp.RowEntries(p, e))
  {
    hide DPathEntries, ActiveEntries, Dp.RowEntries;
    RowReads(p, row);
    EntriesOfRow(p, row, e);
    Rotated((p.leaves.tag, row.pi), (p.order.tag, row.fc), (p.heights.tag, row.pi));
  }

  function One(e: EntryRead): seq<(nat, nat)> { if e.sel == 1 then [(e.tag, e.idx)] else [] }

  lemma ActiveNext(es: seq<EntryRead>, e: EntryRead)
    ensures ActiveEntries(es + [e]) == ActiveEntries(es) + One(e)
  {
    assert (es + [e])[..|es|] == es;
  }

  lemma ActiveOfFour(a: EntryRead, b: EntryRead, c: EntryRead, d: EntryRead)
    ensures ActiveEntries([a, b, c, d]) == One(a) + One(b) + One(c) + One(d)
  {
    hide ActiveEntries, One;
    NoneActive();
    ActiveNext([], a);
    ActiveNext([a], b);
    ActiveNext([a, b], c);
    ActiveNext([a, b, c], d);
    assert [] + [a] == [a] && [a] + [b] == [a, b] && [a, b] + [c] == [a, b, c] && [a, b, c] + [d] == [a, b, c, d];
  }

  lemma {:induction false} DPathRead(p: Dp.DynamicPath, rows: seq<Dp.Row>, e: seq<Dp.Row>, ss: seq<seq<EntryRead>>)
    requires |e| == |rows| == |ss| && forall k :: 0 <= k < |rows| ==> Dp.Matches(e[k], rows[k]) && IsBit(rows[k].kind)
    requires forall k :: 0 <= k < |rows| ==> ss[k] == DPathEntries(p, rows[k])
    ensures multiset(ActiveEntries(Concat(ss))) == multiset(Dp.Entries(p, e))
  {
    hide Dp.Matches, DPathEntries, ActiveEntries, Dp.RowEntries;
    if rows != [] {
      var n := |rows| - 1;
      DPathRead(p, rows[..n], e[..n], ss[..n]);
      EntriesAppend(Concat(ss[..n]), ss[n]);
      RowRecords(p, rows[n], e[n]);
    } else {
      NoneActive();
    }
  }

  lemma NoneActive()
    ensures ActiveEntries([]) == []
  {
  }

  lemma DPathRan(prims: Prims, tables: seq<seq<nat>>, p: Dp.DynamicPath, w: Rows, mem: Memory)
    requires Valid(DPath(p)) && Fits(DPath(p), w) && PolyOk(DPath(p), w) && Dp.Addressed(p, mem)
    requires TablesMatch(tables, TablesOf(DPath(p))) && EntriesOk(tables, mem, EntryReads(DPath(p), w))
    requires HashesOk(prims, HashReads(DPath(p), w)) && Agree(Dp.Slots(p), Dp.Vals(w.dpath), mem)
    ensures var e := DPathRun(prims, p, mem);
      |e| == |w.dpath| && forall k :: 0 <= k < |e| ==> Dp.Matches(e[k], w.dpath[k]) && IsBit(w.dpath[k].kind)
  {
    hide Dp.PolyOk, Dp.RowsOk, EntriesOk, HashesOk, TablesMatch, EntryReads, HashReads, Dp.Node, Dp.ExecRows, Agree, Dp.Slots, Dp.Vals, Dp.Matches;
    DPathTables(p, mem);
    DPathHolds(prims, tables, p, w, mem);
    Dp.DPathSound(Dp.TablesOf(p, mem), prims.compress, w.dpath, w.dpathAfter);
    Dp.AgreeMeans(p, w.dpath, mem);
    forall k | 0 <= k < |w.dpath| ensures IsBit(w.dpath[k].kind) { Dp.StartedBit(w.dpath, w.dpathAfter, k); }
  }

  lemma DPathRecords(prims: Prims, tables: seq<seq<nat>>, p: Dp.DynamicPath, w: Rows, mem: Memory)
    requires Valid(DPath(p)) && Fits(DPath(p), w) && PolyOk(DPath(p), w) && Dp.Addressed(p, mem)
    requires TablesMatch(tables, TablesOf(DPath(p))) && EntriesOk(tables, mem, EntryReads(DPath(p), w))
    requires HashesOk(prims, HashReads(DPath(p), w)) && Agree(Dp.Slots(p), Dp.Vals(w.dpath), mem)
    ensures ActiveHashes(HashReads(DPath(p), w)) == Dp.Hashes(DPathRun(prims, p, mem))
    ensures multiset(ActiveEntries(EntryReads(DPath(p), w))) == multiset(Dp.Entries(p, DPathRun(prims, p, mem)))
  {
    hide Dp.PolyOk, EntriesOk, HashesOk, TablesMatch, Agree, Dp.Slots, Dp.Vals, Dp.Matches, DPathRun, Dp.Left, Dp.Right, DPathEntries,
         ActiveHashes, ActiveEntries, Dp.Hashes, Dp.Entries, Concat;
    DPathRan(prims, tables, p, w, mem);
    var e := DPathRun(prims, p, mem);
    DPathHashes(p, w.dpath, e, HashReads(DPath(p), w));
    DPathRead(p, w.dpath, e, seq(|w.dpath|, k requires 0 <= k < |w.dpath| => DPathEntries(p, w.dpath[k])));
  }

  lemma LookupRecords(l: Tb.Lookup, w: Rows, mem: Memory)
    requires Tb.InBounds(l, mem) && Fits(Lookup(l), w) && Agree(Tb.Slots(l), Tb.Vals(w.lookup), mem)
    ensures multiset(ActiveEntries(EntryReads(Lookup(l), w))) == InstrLookups(Lookup(l), mem)
  {
    var es := EntryReads(Lookup(l), w);
    assert es[..0] == [];
    assert mem[Tb.Slots(l)[0].addr] == Tb.Vals(w.lookup)[0];
    assert ActiveEntries(es) == [(l.table.tag, w.lookup.idx)];
  }

  /** The other instructions record nothing, and their rows look nothing up. */
  lemma NoRecords(prims: Prims, i: Instr, w: Rows, mem: Memory)
    requires Valid(i) && InBounds(i, mem) && Fits(i, w) && !i.MD? && !i.Path? && !i.DPath?
    ensures HashReads(i, w) == [] && InstrHashes(prims, i, mem) == [] && InstrEntries(prims, i, mem) == multiset{}
    ensures !i.Lookup? ==> EntryReads(i, w) == [] && InstrLookups(i, mem) == multiset{}
  {
    hide Valid, InBounds, Fits;
  }

  lemma NoneLookedUp(i: Instr, mem: Memory)
    requires InBounds(i, mem) && !i.Lookup?
    ensures InstrLookups(i, mem) == multiset{}
  {
  }

  /** The active lookups of rows that meet the constraints are what execution records: the
      compressions in order, and the table entries of a lookup or a dynamic path. */
  lemma InstrRecords(prims: Prims, tables: seq<seq<nat>>, i: Instr, w: Rows, mem: Memory)
    requires Meets(prims, tables, i, w, mem)
    ensures ActiveHashes(HashReads(i, w)) == InstrHashes(prims, i, mem)
    ensures multiset(ActiveEntries(EntryReads(i, w))) == InstrEntries(prims, i, mem) + InstrLookups(i, mem)
  {
    hide Mp.WellFormed, Mp.PolyOk, Mp.WalkOf, Dp.PolyOk, Md.RowsOk, Agree, EntriesOk, HashesOk, TablesMatch, DPathRun, Given,
         Md.Hashes, Mp.Hashes, Dp.Hashes, Dp.Entries, Md.TraceRows, Concat, HashReads, InstrLookups;
    match i
    case MD(h) => MDRecords(prims, h, w, mem); NoneLookedUp(i, mem);
    case Path(p) => PathRecords(prims, p, w, mem); NoneLookedUp(i, mem);
    case DPath(p) => DPathRecords(prims, tables, p, w, mem); NoneLookedUp(i, mem);
    case Lookup(l) => NoRecords(prims, i, w, mem); LookupRecords(l, w, mem);
    case _ => NoRecords(prims, i, w, mem);
  }
}
