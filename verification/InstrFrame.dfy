/** What an instruction's execution depends on and writes. */
module InstrFrame {
  import opened KoalaBear
  import opened Constraints
  import opened Cells
  import opened Program
  import Win = ChipWindow
  import Pk = Packing
  import Bt = ChipBits
  import E = ChipE6
  import Sel = ChipSelect
  import Md = ChipMD
  import Tb = ChipTable
  import Mk = ChipMerkle
  import Mp = MerklePath
  import Dp = ChipDPath

  predicate OpReads(op: E.Op, a: nat) {
    match op
    case Mul(x, y, _) => a == x || a == y
    case Add(x, y, _) => a == x || a == y
    case Sub(x, y, _) => a == x || a == y
    case Div(n, d, _) => a == n || a == d
    case Eq(_, _) => false
    case Horner(y, coeffs, _) => a == y || a in coeffs
    case Chain(init, xs, ys, _) => a == init || a in xs || a in ys
  }

  /** The addresses whose values an instruction's execution uses. */
  predicate Uses(i: Instr, a: nat) {
    match i
    case Pack(p) => a in p.items
    case Lanes(l) => a == l.src
    case Bits(b) => a == b.v
    case E6(op) => OpReads(op, a)
    case Select(s) => a == s.bit || a == s.a || a == s.b
    case Lookup(l) => a == l.idx || a in l.table.src
    case MD(h) => a == h.init || a in h.blocks
    case Path(p) => a == p.leaf || a == p.index || a == p.root || exists k :: 0 <= k < |p.steps| && p.steps[k].op == a
    case DPath(p) => a == p.index || a in p.leaves.src || a in p.heights.src || a in p.order.src || a in p.siblings.src
  }

  ghost predicate SameUses(i: Instr, m: Memory, n: Memory) {
    |m| == |n| && forall a :: 0 <= a < |m| && Uses(i, a) ==> m[a] == n[a]
  }

  // ---- execution depends on the addresses used ----

  lemma {:induction false} FlatFrame(p: Pk.Pack, m: Memory, n: Memory, k: nat)
    requires Pk.Valid(p) && Pk.InBounds(p, m) && Pk.InBounds(p, n) && k <= |p.items| && SameUses(Pack(p), m, n)
    ensures Pk.Flat(p, m, k) == Pk.Flat(p, n, k)
  {
    hide Pk.Valid, Pk.Offset;
    if k > 0 {
      FlatFrame(p, m, n, k - 1);
      FlatNext(p, m, k - 1);
      FlatNext(p, n, k - 1);
      assert p.items[k - 1] in p.items;
    }
  }

  lemma FlatNext(p: Pk.Pack, m: Memory, k: nat)
    requires Pk.Valid(p) && Pk.InBounds(p, m) && k < |p.items|
    ensures p.items[k] < |m| && |p.kinds| == |p.items| && p.kinds[k] <= CellWidth
    ensures Pk.Flat(p, m, k + 1) == Pk.Flat(p, m, k) + m[p.items[k]][..p.kinds[k]]
  {
    hide Pk.Offset;
  }

  lemma PackFrame(p: Pk.Pack, m: Memory, n: Memory)
    requires Pk.Valid(p) && Pk.InBounds(p, m) && Pk.InBounds(p, n) && SameUses(Pack(p), m, n)
    ensures Pk.PackWrites(p, m) == Pk.PackWrites(p, n)
  {
    hide SameUses;
    FlatFrame(p, m, n, |p.items|);
  }

  lemma LoadFrame(src: seq<nat>, m: Memory, n: Memory)
    requires InMemory(src, m) && |m| == |n| && forall a :: 0 <= a < |m| && a in src ==> m[a] == n[a]
    ensures Load(m, src) == Load(n, src)
  {
    forall i | 0 <= i < |src| ensures m[src[i]] == n[src[i]] { assert src[i] in src; }
  }

  lemma LoadE6Frame(src: seq<nat>, m: Memory, n: Memory)
    requires InMemory(src, m) && |m| == |n| && forall a :: 0 <= a < |m| && a in src ==> m[a] == n[a]
    ensures E.LoadE6(m, src) == E.LoadE6(n, src)
  {
    hide E.At;
    forall i | 0 <= i < |src| ensures E.At(m, src[i]) == E.At(n, src[i]) {
      assert src[i] in src;
      E.SameCell(m, n, src[i]);
    }
  }

  lemma E6Frame(op: E.Op, inv: E.Ext -> E.Ext, m: Memory, n: Memory)
    requires E.ValidOp(op) && E.InBounds(op, m) && E.InBounds(op, n) && SameUses(E6(op), m, n)
    ensures E.Writes(op, inv, m) == E.Writes(op, inv, n)
  {
    hide E.HornerAt, E.LoadE6, E.ChainOf;
    if op.Horner? { LoadE6Frame(op.coeffs, m, n); }
    if op.Chain? {
      forall k | 1 <= k <= |op.xs| ensures E.ChainOf(op, m, k) == E.ChainOf(op, n, k) { ChainFrame(op, m, n, k); }
      assert E.Writes(op, inv, m).value == E.Writes(op, inv, n).value;
    }
  }

  lemma ChainFrame(op: E.Op, m: Memory, n: Memory, k: nat)
    requires op.Chain? && E.ValidOp(op) && E.InBounds(op, m) && E.InBounds(op, n) && SameUses(E6(op), m, n) && k <= |op.xs|
    ensures E.ChainOf(op, m, k) == E.ChainOf(op, n, k)
  {
    hide E.ChainAt, E.LoadE6;
    LoadE6Frame(op.xs, m, n);
    LoadE6Frame(op.ys, m, n);
    E.SameCell(m, n, op.init);
  }

  lemma MDFrame(compress: (Cell, Cell) -> Cell, h: Md.Hash, m: Memory, n: Memory)
    requires Md.InBounds(h, m) && Md.InBounds(h, n) && SameUses(MD(h), m, n)
    ensures Md.Digest(compress, h, m) == Md.Digest(compress, h, n)
  {
    LoadFrame(h.blocks, m, n);
  }

  lemma PathFrame(compress: (Cell, Cell) -> Cell, p: Mp.Path, m: Memory, n: Memory)
    requires Mp.Addressed(p, m) && Mp.Addressed(p, n) && p.steps != [] && SameUses(Path(p), m, n)
    ensures Mp.Reaches(compress, p, m) == Mp.Reaches(compress, p, n) && Mp.Point(compress, p, m) == Mp.Point(compress, p, n)
  {
    hide Mk.Walk, FitsIn, Mk.Levels;
    forall k | 0 <= k < |p.steps| ensures Mp.SetupAt(p, m, k) == Mp.SetupAt(p, n, k) { }
    assert Mp.PathOf(p, m) == Mp.PathOf(p, n);
  }

  lemma DPathFrame(p: Dp.DynamicPath, m: Memory, n: Memory)
    requires Dp.Addressed(p, m) && Dp.Addressed(p, n) && SameUses(DPath(p), m, n)
    ensures Dp.TablesOf(p, m) == Dp.TablesOf(p, n) && m[p.index] == n[p.index]
  {
    LoadFrame(p.leaves.src, m, n);
    LoadFrame(p.heights.src, m, n);
    LoadFrame(p.order.src, m, n);
    LoadFrame(p.siblings.src, m, n);
  }

  lemma {:induction false} BitsFrame(b: Bt.Inst, m: Memory, n: Memory, k: nat)
    requires Bt.Valid(b) && Bt.InBounds(b, m) && Bt.InBounds(b, n) && k <= b.n && SameUses(Bits(b), m, n)
    ensures Bt.Writes(b, m, k) == Bt.Writes(b, n, k)
  {
    hide Bt.Shr, BitOf, Low;
    if k > 0 { BitsFrame(b, m, n, k - 1); }
  }

  lemma LookupFrame(l: Tb.Lookup, m: Memory, n: Memory)
    requires Tb.InBounds(l, m) && Tb.InBounds(l, n) && SameUses(Lookup(l), m, n)
    ensures Tb.Writes(l, m) == Tb.Writes(l, n)
  {
    var i := m[l.idx][0];
    if i < |l.table.src| { assert l.table.src[i] in l.table.src; }
  }

  /** Execution is a function of the values at the addresses used. */
  lemma Frame(prims: Prims, i: Instr, m: Memory, n: Memory)
    requires Valid(i) && InBounds(i, m) && InBounds(i, n) && SameUses(i, m, n)
    ensures Writes(prims, i, m) == Writes(prims, i, n)
  {
    hide Pk.PackWrites, Bt.Writes, E.Writes, Tb.Writes, Md.Digest, Mp.Reaches, Mp.Point, Dp.ExecRows, Dp.TablesOf;
    match i
    case Pack(p) => PackFrame(p, m, n);
    case Lanes(l) =>
    case Bits(b) => BitsFrame(b, m, n, b.n);
    case E6(op) => E6Frame(op, prims.inv, m, n);
    case Select(s) =>
    case Lookup(l) => LookupFrame(l, m, n);
    case MD(h) => MDFrame(prims.compress, h, m, n);
    case Path(p) => PathFrame(prims.compress, p, m, n);
    case DPath(p) => DPathFrame(p, m, n);
  }

  // ---- every cell an instruction's rows write is written by its execution ----

  predicate WritesTo(ws: seq<Write>, a: nat) { exists k :: 0 <= k < |ws| && ws[k].addr == a }

  lemma WritesToAppend(x: seq<Write>, y: seq<Write>, a: nat)
    requires WritesTo(x, a) || WritesTo(y, a)
    ensures WritesTo(x + y, a)
  {
    if WritesTo(x, a) {
      var k :| 0 <= k < |x| && x[k].addr == a;
      assert (x + y)[k].addr == a;
    } else {
      var k :| 0 <= k < |y| && y[k].addr == a;
      assert (x + y)[|x| + k].addr == a;
    }
  }

  lemma ReadOnlyWindow(w: Win.Window, a: nat)
    requires !w.item.write
    ensures Slot(a, true) !in Win.RowSlots(w)
  {
  }

  lemma PackCovers(p: Pk.Pack, mem: Memory, a: nat)
    requires Pk.Valid(p) && Pk.InBounds(p, mem) && Slot(a, true) in Pk.Slots(p)
    ensures WritesTo(Pk.PackWrites(p, mem), a)
  {
    hide Pk.StreamCell, Pk.Offset, Pk.Rotated, Pk.Flat;
    var ws := Pk.StreamWrites(p, Pk.FlatOf(p, mem), |p.stream|);
    if Slot(a, true) in Pk.HintSlots(p) {
      var c :| 0 <= c < |p.stream| && Pk.HintSlots(p)[c] == Slot(a, true);
      assert ws[c].addr == a;
      if p.last.Some? { WritesToAppend(ws, Pk.PackWrites(p, mem)[|ws|..], a); }
    } else {
      PackWindowWrites(p, a);
      assert Pk.PackWrites(p, mem)[|p.stream|].addr == a;
    }
  }

  /** The only window row that writes is the last block's. */
  lemma PackWindowWrites(p: Pk.Pack, a: nat)
    requires Pk.Valid(p) && Slot(a, true) in Concat(Pk.WindowSlots(Pk.Windows(p)))
    ensures p.last == Some(a)
  {
    hide Pk.Offset, Win.WindowAt;
    var ws := Pk.Windows(p);
    ConcatFrom(Pk.WindowSlots(ws), Slot(a, true));
    var k :| 0 <= k < |ws| && Slot(a, true) in Pk.WindowSlots(ws)[k];
    WindowItem(p, k);
    if !ws[k].item.write { ReadOnlyWindow(ws[k], a); }
  }

  lemma WindowItem(p: Pk.Pack, k: nat)
    requires Pk.Valid(p) && k < |Pk.Windows(p)|
    ensures var item := Pk.Windows(p)[k].item; item.write ==> p.last == Some(item.addr)
  {
    hide Pk.Offset;
    var i := k - |Pk.StartWindows(p)|;
    if 0 <= i < |p.items| { assert Pk.Windows(p)[k] == Pk.ItemWindow(p, i); }
    if i >= |p.items| { assert Pk.Windows(p)[k] == Pk.LastWindows(p)[i - |p.items|]; }
    if i < 0 { assert Pk.Windows(p)[k] == Pk.StartWindows(p)[k]; }
  }

  lemma {:induction false} BitsCovers(b: Bt.Inst, mem: Memory, n: nat, i: nat)
    requires Bt.Valid(b) && Bt.InBounds(b, mem) && i < n <= b.n
    ensures WritesTo(Bt.Writes(b, mem, n), b.shr[i]) && WritesTo(Bt.Writes(b, mem, n), b.bit[i])
  {
    hide Bt.Shr, BitOf, Low;
    var ws := Bt.Writes(b, mem, n);
    if i == n - 1 {
      assert ws[2 * n - 2].addr == b.shr[i] && ws[2 * n - 1].addr == b.bit[i];
    } else {
      BitsCovers(b, mem, n - 1, i);
      var prev := Bt.Writes(b, mem, n - 1);
      WritesToAppend(prev, ws[2 * n - 2..], b.shr[i]);
      WritesToAppend(prev, ws[2 * n - 2..], b.bit[i]);
      assert ws == prev + ws[2 * n - 2..];
    }
  }

  lemma BitsCover(b: Bt.Inst, mem: Memory, a: nat)
    requires Bt.Valid(b) && Bt.InBounds(b, mem) && Slot(a, true) in Bt.Slots(b)
    ensures WritesTo(Bt.Writes(b, mem, b.n), a)
  {
    hide Bt.Writes;
    assert Slot(a, true) in Concat(Bt.WriteSlots(b));
    ConcatFrom(Bt.WriteSlots(b), Slot(a, true));
    var i :| 0 <= i < b.n && Slot(a, true) in Bt.WriteSlots(b)[i];
    BitsCovers(b, mem, b.n, i);
  }

  lemma LineWrites(l: E.Line, a: nat)
    requires Slot(a, true) in E.LineSlots(l)
    ensures l.a == E.Wr(a) || l.b == E.Wr(a) || l.o == E.Wr(a)
  {
  }

  lemma E6Cover(op: E.Op, inv: E.Ext -> E.Ext, mem: Memory, a: nat)
    requires E.ValidOp(op) && E.InBounds(op, mem) && Slot(a, true) in E.Slots(op) && E.Writes(op, inv, mem).Some?
    ensures WritesTo(E.Writes(op, inv, mem).value, a)
  {
    hide E.ChainOf, E.HornerOf, E.LineSlots;
    var lines := E.Lines(op);
    ConcatFrom(E.LinesSlots(lines), Slot(a, true));
    var i :| 0 <= i < |lines| && Slot(a, true) in E.LinesSlots(lines)[i];
    LineWrites(lines[i], a);
    var ws := E.Writes(op, inv, mem).value;
    if op.Horner? {
      assert lines[i] == E.HornerLine(op, i);
      assert ws[0].addr == a;
    } else if op.Chain? {
      assert lines[i] == E.ChainLine(op, i);
      assert ws[i - 1].addr == a;
    } else {
      assert ws[0].addr == a;
    }
  }

  lemma MDCover(h: Md.Hash, a: nat)
    requires Slot(a, true) in Md.Slots(h)
    ensures a == h.out
  {
  }

  lemma PathCover(p: Mp.Path, a: nat)
    requires Slot(a, true) in Mp.Slots(p)
    ensures p.gens.Some? && a == p.xb
  {
  }

  lemma One(w: Write)
    ensures WritesTo([w], w.addr)
  {
    assert [w][0].addr == w.addr;
  }

  /** Every address an instruction's rows write is one its execution writes. */
  lemma Covers(prims: Prims, i: Instr, mem: Memory, a: nat)
    requires Valid(i) && InBounds(i, mem) && Slot(a, true) in Slots(i) && Writes(prims, i, mem).Some?
    ensures WritesTo(Writes(prims, i, mem).value, a)
  {
    hide WritesTo, Pk.PackWrites, Bt.Writes, E.Writes, Md.Digest, Mp.Reaches, Mp.Point, Dp.ExecRows, Dp.TablesOf;
    match i
    case Pack(p) => PackCovers(p, mem, a);
    case Lanes(l) => One(Writes(prims, i, mem).value[0]);
    case Bits(b) => BitsCover(b, mem, a);
    case E6(op) => E6Cover(op, prims.inv, mem, a);
    case Select(s) => One(Writes(prims, i, mem).value[0]);
    case Lookup(l) => One(Writes(prims, i, mem).value[0]);
    case MD(h) => MDCover(h, a); One(Writes(prims, i, mem).value[0]);
    case Path(p) => PathCover(p, a); One(Writes(prims, i, mem).value[0]);
    case DPath(p) =>
  }
}
