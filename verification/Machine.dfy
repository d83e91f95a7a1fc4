/** The machine that builds programs: it allocates write-once cells, counts their reads and
    records instructions. */
module MachineBuilder {
  import opened KoalaBear
  import F = ExtField
  import opened Cells
  import opened Program
  import opened InstrSound
  import opened InstrFrame
  import opened MachineSound
  import opened Builder
  import Win = ChipWindow
  import Pk = Packing
  import Bt = ChipBits
  import E = ChipE6
  import Sel = ChipSelect
  import Md = ChipMD
  import Tb = ChipTable
  import Mk = ChipMerkle
  import Mp = MerklePath
  import Dp = ChipDPath

  class Machine {
    var counts: seq<nat>           // read count of every address; its length is the number of cells
    var inputs: seq<TypedCell>     // input cells, in input order
    var consts: map<Cell, nat>     // the address of every constant
    var constList: seq<ConstCell>  // the constants in allocation order
    var tables: seq<seq<nat>>      // the cells every table copies
    var instrs: seq<Instr>         // every instruction, in execution order
    ghost var accesses: multiset<Slot>  // the accesses counted so far

    ghost function Built(): Code
      reads this
    { Code(inputs, constList, tables, instrs, counts) }

    ghost predicate Valid()
      reads this
    { Good(Built(), consts, accesses) }

    constructor ()
      ensures Valid() && Built() == Code([], [], [], [], [])
    {
      counts, inputs, consts, constList, tables, instrs := [], [], map[], [], [], [];
      accesses := multiset{};
      new;
      assert AllSlots(Built()) == [];
    }

    method Alloc() returns (a: nat)
      requires Tallied(counts, accesses)
      modifies this`counts, this`accesses
      ensures a == |old(counts)| && counts == old(counts) + [0] && accesses == old(accesses) + multiset{Slot(a, true)}
      ensures Tallied(counts, accesses)
    {
      TallyAlloc(counts, accesses);
      a := |counts|;
      counts := counts + [0];
      accesses := accesses + multiset{Slot(a, true)};
    }

    method Read(a: nat)
      requires Tallied(counts, accesses) && a < |counts|
      modifies this`counts, this`accesses
      ensures |counts| == |old(counts)| && accesses == old(accesses) + multiset{Slot(a, false)}
      ensures Tallied(counts, accesses)
    {
      TallyRead(counts, accesses, a);
      counts := counts[a := counts[a] + 1];
      accesses := accesses + multiset{Slot(a, false)};
    }

    /** Reads the cells in order. */
    method ReadAll(cells: seq<nat>)
      requires Tallied(counts, accesses) && forall i :: 0 <= i < |cells| ==> cells[i] < |counts|
      modifies this`counts, this`accesses
      ensures |counts| == |old(counts)| && accesses == old(accesses) + Bag(SourceSlots(cells))
      ensures Tallied(counts, accesses)
    {
      hide Tallied, Bag, SourceSlots;
      ReadNone(cells, accesses);
      for i := 0 to |cells|
        invariant |counts| == |old(counts)| && Tallied(counts, accesses)
        invariant accesses == old(accesses) + Bag(SourceSlots(cells[..i]))
      {
        ReadStep(cells, i, old(accesses));
        Read(cells[i]);
      }
    }

    method Input(kind: nat) returns (a: nat)
      requires Valid() && (kind == 1 || kind == 6 || kind == 8)
      modifies this
      ensures Valid() && a == |old(counts)| && |counts| == a + 1
      ensures inputs == old(inputs) + [TypedCell(a, kind)]
      ensures constList == old(constList) && tables == old(tables) && instrs == old(instrs)
    {
      hide Good, Tallied;
      AddInput(Built(), consts, accesses, kind);
      GoodTallied(Built(), consts, accesses);
      a := Alloc();
      inputs := inputs + [TypedCell(a, kind)];
    }

    /** The cell of a constant, allocated on first use. */
    method Const(v: Cell) returns (a: nat)
      requires Valid()
      modifies this
      ensures Valid() && HasConst(constList, ConstCell(a, v)) && a < |counts|
      ensures v in old(consts) ==> a == old(consts)[v] && Built() == old(Built())
      ensures v !in old(consts) ==> a == |old(counts)| && |counts| == a + 1 && constList == old(constList) + [ConstCell(a, v)]
      ensures inputs == old(inputs) && tables == old(tables) && instrs == old(instrs) && old(constList) <= constList
      ensures |old(counts)| <= |counts|
    {
      hide Good, Tallied, HasConst;
      if v in consts {
        a := consts[v];
        ConstAddress(Built(), consts, accesses, v);
        return;
      }
      AddConst(Built(), consts, accesses, v);
      GoodTallied(Built(), consts, accesses);
      a := Alloc();
      consts := consts[v := a];
      constList := constList + [ConstCell(a, v)];
      assert HasConst(constList, ConstCell(a, v)) by { ListHas(constList, |constList| - 1); }
    }

    /** A table whose entry i holds the value of cells[i]. */
    method Table(cells: seq<nat>) returns (t: Table)
      requires Valid() && cells != [] && forall i :: 0 <= i < |cells| ==> cells[i] < |counts|
      modifies this
      ensures Valid() && t == Cells.Table(|old(tables)|, cells) && tables == old(tables) + [cells]
      ensures inputs == old(inputs) && constList == old(constList) && instrs == old(instrs) && |counts| == |old(counts)|
    {
      hide Good, Tallied, Bag, SourceSlots;
      ghost var c, acc := Built(), accesses;
      GoodTallied(c, consts, acc);
      ReadAll(cells);
      AddTable(c, consts, acc, cells, counts);
      t := Cells.Table(|tables|, cells);
      tables := tables + [cells];
    }

    // ---- E6 operations ----

    method Mul(a: nat, b: nat) returns (out: nat)
      requires Valid() && a < |counts| && b < |counts|
      modifies this
      ensures Valid() && Recorded(old(Built()), Built(), E6(E.Mul(a, b, out))) && out == |old(counts)| < |counts|
    {
      hide Good, Tallied, E.Slots, Bag;
      ghost var c, acc := Built(), accesses;
      GoodTallied(c, consts, acc);
      Read(a);
      Read(b);
      out := Alloc();
      OpBag(E.Mul(a, b, out));
      Sum3(acc, Slot(a, false), Slot(b, false), Slot(out, true));
      RecordOp(c, consts, acc, E.Mul(a, b, out), counts, accesses);
      instrs := instrs + [E6(E.Mul(a, b, out))];
    }

    method Add(a: nat, b: nat) returns (out: nat)
      requires Valid() && a < |counts| && b < |counts|
      modifies this
      ensures Valid() && Recorded(old(Built()), Built(), E6(E.Add(a, b, out))) && out == |old(counts)| < |counts|
    {
      hide Good, Tallied, E.Slots, Bag;
      ghost var c, acc := Built(), accesses;
      GoodTallied(c, consts, acc);
      Read(a);
      Read(b);
      out := Alloc();
      OpBag(E.Add(a, b, out));
      Sum3(acc, Slot(a, false), Slot(b, false), Slot(out, true));
      RecordOp(c, consts, acc, E.Add(a, b, out), counts, accesses);
      instrs := instrs + [E6(E.Add(a, b, out))];
    }

    method Sub(a: nat, b: nat) returns (out: nat)
      requires Valid() && a < |counts| && b < |counts|
      modifies this
      ensures Valid() && Recorded(old(Built()), Built(), E6(E.Sub(a, b, out))) && out == |old(counts)| < |counts|
    {
      hide Good, Tallied, E.Slots, Bag;
      ghost var c, acc := Built(), accesses;
      GoodTallied(c, consts, acc);
      Read(a);
      Read(b);
      out := Alloc();
      OpBag(E.Sub(a, b, out));
      Sum3(acc, Slot(a, false), Slot(b, false), Slot(out, true));
      RecordOp(c, consts, acc, E.Sub(a, b, out), counts, accesses);
      instrs := instrs + [E6(E.Sub(a, b, out))];
    }

    /** n / d, checked as d q = n: it binds q only if d is not zero. */
    method Div(n: nat, d: nat) returns (out: nat)
      requires Valid() && n < |counts| && d < |counts|
      modifies this
      ensures Valid() && Recorded(old(Built()), Built(), E6(E.Div(n, d, out))) && out == |old(counts)| < |counts|
    {
      hide Good, Tallied, E.Slots, Bag;
      ghost var c, acc := Built(), accesses;
      GoodTallied(c, consts, acc);
      Read(d);
      out := Alloc();
      Read(n);
      OpBag(E.Div(n, d, out));
      Sum3(acc, Slot(d, false), Slot(out, true), Slot(n, false));
      RecordOp(c, consts, acc, E.Div(n, d, out), counts, accesses);
      instrs := instrs + [E6(E.Div(n, d, out))];
    }

    method AssertEqE6(a: nat, b: nat)
      requires Valid() && a < |counts| && b < |counts|
      modifies this
      ensures Valid() && Recorded(old(Built()), Built(), E6(E.Eq(a, b))) && |counts| == |old(counts)|
    {
      hide Good, Tallied, E.Slots, Bag;
      ghost var c, acc := Built(), accesses;
      GoodTallied(c, consts, acc);
      Read(a);
      Read(b);
      OpBag(E.Eq(a, b));
      Sum3(acc, Slot(a, false), Slot(b, false), Slot(0, true));
      RecordOp(c, consts, acc, E.Eq(a, b), counts, accesses);
      instrs := instrs + [E6(E.Eq(a, b))];
    }

    /** Reads every coefficient, and y for every row but the first. */
    method HornerReads(y: nat, coeffs: seq<nat>, ghost op: E.Op)
      requires Tallied(counts, accesses) && y < |counts| && coeffs != [] && (forall a :: a in coeffs ==> a < |counts|)
      requires op.Horner? && op.y == y && op.coeffs == coeffs
      modifies this`counts, this`accesses
      ensures |counts| == |old(counts)| && Tallied(counts, accesses)
      ensures accesses + multiset{Slot(op.out, true)} == old(accesses) + Bag(E.Slots(op))
    {
      hide Tallied, E.Slots, Bag, LinesBag, E.Lines;
      HornerLineAt(op, 0);
      LinesBagEnds(op);
      for i := 0 to |coeffs|
        invariant |counts| == |old(counts)| && Tallied(counts, accesses)
        invariant accesses + When(i == |coeffs|, Slot(op.out, true)) == old(accesses) + LinesBag(op, i)
      {
        HornerBagStep(op, i, old(accesses), accesses);
        assert coeffs[i] in coeffs;
        Read(coeffs[i]);
        if i > 0 { Read(y); }
      }
    }

    method Horner(y: nat, coeffs: seq<nat>) returns (out: nat)
      requires Valid() && y < |counts| && coeffs != [] && forall a :: a in coeffs ==> a < |counts|
      modifies this
      ensures Valid() && Recorded(old(Built()), Built(), E6(E.Horner(y, coeffs, out))) && out == |old(counts)| < |counts|
    {
      hide Good, Tallied, E.Slots, Bag;
      ghost var c, acc := Built(), accesses;
      ghost var op := E.Horner(y, coeffs, |counts|);
      GoodTallied(c, consts, acc);
      HornerReads(y, coeffs, op);
      out := Alloc();
      RecordOp(c, consts, acc, op, counts, accesses);
      instrs := instrs + [E6(E.Horner(y, coeffs, out))];
    }

    /** One step of a chain: its factors read, its cell allocated. */
    method ChainCell(x: nat, y: nat) returns (out: nat)
      requires Tallied(counts, accesses) && x < |counts| && y < |counts|
      modifies this`counts, this`accesses
      ensures out == |old(counts)| && |counts| == out + 1 && Tallied(counts, accesses)
      ensures accesses == old(accesses) + multiset{Slot(x, false)} + multiset{Slot(y, false)} + multiset{Slot(out, true)}
    {
      hide Tallied;
      Read(x);
      Read(y);
      out := Alloc();
    }

    /** Reads init, then the factors of every step, allocating its cell. */
    method ChainCells(init: nat, xs: seq<nat>, ys: seq<nat>, ghost op: E.Op) returns (outs: seq<nat>)
      requires Tallied(counts, accesses) && init < |counts| && |xs| == |ys| && xs != []
      requires (forall a :: a in xs ==> a < |counts|) && (forall a :: a in ys ==> a < |counts|)
      requires op == E.Chain(init, xs, ys, CellsFrom(|counts|, |xs|, 1))
      modifies this`counts, this`accesses
      ensures |counts| == |old(counts)| + |xs| && Tallied(counts, accesses) && outs == op.outs
      ensures accesses == old(accesses) + Bag(E.Slots(op))
    {
      hide Tallied, E.Slots, Bag, LinesBag, E.Lines;
      FirstLine(op);
      ChainBagStart(op, accesses);
      LinesBagEnds(op);
      Read(init);
      outs := [];
      for i := 0 to |xs|
        invariant |counts| == |old(counts)| + i && Tallied(counts, accesses) && outs == op.outs[..i]
        invariant accesses == old(accesses) + LinesBag(op, i + 1)
      {
        ChainBagStep(op, i, old(accesses), accesses);
        assert xs[i] in xs && ys[i] in ys;
        assert op.outs[..i + 1] == op.outs[..i] + [op.outs[i]];
        var out := ChainCell(xs[i], ys[i]);
        outs := outs + [out];
      }
    }

    /** The cells of the partial sums s_1..s_k of s_0 = init, s_(i+1) = s_i + xs[i] ys[i]. */
    method MulAddChain(init: nat, xs: seq<nat>, ys: seq<nat>) returns (outs: seq<nat>)
      requires Valid() && init < |counts| && |xs| == |ys| && xs != []
      requires (forall a :: a in xs ==> a < |counts|) && (forall a :: a in ys ==> a < |counts|)
      modifies this
      ensures Valid() && Recorded(old(Built()), Built(), E6(E.Chain(init, xs, ys, outs))) && |outs| == |xs|
    {
      hide Good, Tallied, E.Slots, Bag;
      ghost var c, acc := Built(), accesses;
      ghost var op := E.Chain(init, xs, ys, CellsFrom(|counts|, |xs|, 1));
      GoodTallied(c, consts, acc);
      outs := ChainCells(init, xs, ys, op);
      RecordOp(c, consts, acc, op, counts, accesses);
      instrs := instrs + [E6(E.Chain(init, xs, ys, outs))];
    }

    /** The product of the constants gs whose bit is set, from bit cells. */
    method PowBits(bits: seq<nat>, gs: seq<Elt>) returns (out: nat)
      requires Valid() && |bits| == |gs| && forall a :: a in bits ==> a < |counts|
      modifies this
      ensures Valid() && out < |counts| && old(constList) <= constList && old(instrs) <= instrs
      ensures inputs == old(inputs) && tables == old(tables)
      ensures Determines(instrs, |old(instrs)|, constList, |counts|, bits, gs, |gs|, out)
    {
      hide Good, Determines, HasConst;
      out := Const(ScalarCell(1));
      PowStart(instrs, |instrs|, constList, |counts|, bits, gs, out);
      for i := 0 to |bits|
        invariant Valid() && out < |counts| && old(constList) <= constList && old(instrs) <= instrs && |old(counts)| <= |counts|
        invariant inputs == old(inputs) && tables == old(tables)
        invariant Determines(instrs, |old(instrs)|, constList, |counts|, bits, gs, i, out)
      {
        ghost var before, list, n := instrs, constList, |counts|;
        assert bits[i] in bits;
        var k := Const(ScalarCell(SubElt(gs[i], 1)));
        var t := Mul(bits[i], k);
        ghost var mid := constList;
        var one := Const(ScalarCell(1));
        var f := Add(t, one);
        var next := Mul(out, f);
        ConstKept(mid, constList, ConstCell(k, ScalarCell(SubElt(gs[i], 1))));
        PowNext(before, instrs, |old(instrs)|, list, constList, n, |counts|, bits, gs, i, out, k, one, t, f, next);
        out := next;
      }
    }

    // ---- bits, selection, lookups, lanes ----

    method TwoCells() returns (s: nat, t: nat)
      requires Tallied(counts, accesses)
      modifies this`counts, this`accesses
      ensures s == |old(counts)| && t == s + 1 && |counts| == s + 2 && Tallied(counts, accesses)
      ensures accesses == old(accesses) + multiset{Slot(s, true)} + multiset{Slot(t, true)}
    {
      hide Tallied;
      s := Alloc();
      t := Alloc();
    }

    /** Reads v and allocates the cells of every bit. */
    method BitCells(v: nat, n: nat, ghost b: Bt.Inst) returns (shr: seq<nat>, bit: seq<nat>)
      requires Tallied(counts, accesses) && v < |counts| && 1 <= n < Bt.Width
      requires b == Bt.Inst(v, n, CellsFrom(|counts|, n, 2), CellsFrom(|counts| + 1, n, 2))
      modifies this`counts, this`accesses
      ensures |counts| == |old(counts)| + 2 * n && Tallied(counts, accesses) && shr == b.shr && bit == b.bit
      ensures accesses == old(accesses) + Bag(Bt.Slots(b))
    {
      hide Tallied, Bt.Slots, Bag, BitsBag;
      BitsBagEnds(b, accesses);
      Read(v);
      shr, bit := [], [];
      for i := 0 to n
        invariant |counts| == |old(counts)| + 2 * i && Tallied(counts, accesses) && shr == b.shr[..i] && bit == b.bit[..i]
        invariant accesses == old(accesses) + BitsBag(b, i)
      {
        BitsBagStep(b, i, old(accesses));
        assert b.shr[..i + 1] == b.shr[..i] + [b.shr[i]] && b.bit[..i + 1] == b.bit[..i] + [b.bit[i]];
        var s, t := TwoCells();
        shr, bit := shr + [s], bit + [t];
      }
    }

    /** The low n bits of the scalar cell v. */
    method Bits(v: nat, n: nat) returns (shr: seq<nat>, bit: seq<nat>)
      requires Valid() && v < |counts| && 1 <= n < Bt.Width
      modifies this
      ensures Valid() && Recorded(old(Built()), Built(), Program.Bits(Bt.Inst(v, n, shr, bit)))
    {
      hide Good, Tallied, Bt.Slots, Bag;
      ghost var c, acc := Built(), accesses;
      ghost var b := Bt.Inst(v, n, CellsFrom(|counts|, n, 2), CellsFrom(|counts| + 1, n, 2));
      GoodTallied(c, consts, acc);
      shr, bit := BitCells(v, n, b);
      RecordBits(c, consts, acc, b, counts, accesses);
      instrs := instrs + [Program.Bits(Bt.Inst(v, n, shr, bit))];
    }

    method Select(bit: nat, a: nat, b: nat) returns (out: nat)
      requires Valid() && bit < |counts| && a < |counts| && b < |counts|
      modifies this
      ensures Valid() && Recorded(old(Built()), Built(), Program.Select(Sel.Select(bit, a, b, out))) && out == |old(counts)| < |counts|
    {
      hide Good, Tallied, Bag;
      ghost var c, acc := Built(), accesses;
      GoodTallied(c, consts, acc);
      Read(bit);
      Read(a);
      Read(b);
      out := Alloc();
      RecordSelect(c, consts, acc, Sel.Select(bit, a, b, out), counts, accesses);
      instrs := instrs + [Program.Select(Sel.Select(bit, a, b, out))];
    }

    method Lookup(t: Table, idx: nat) returns (out: nat)
      requires Valid() && TableOf(tables, t) && idx < |counts|
      modifies this
      ensures Valid() && Recorded(old(Built()), Built(), Program.Lookup(Tb.Lookup(t, idx, out))) && out == |old(counts)| < |counts|
    {
      hide Good, Tallied, Bag;
      ghost var c, acc := Built(), accesses;
      GoodTallied(c, consts, acc);
      Read(idx);
      out := Alloc();
      RecordLookup(c, consts, acc, Tb.Lookup(t, idx, out), counts, accesses);
      instrs := instrs + [Program.Lookup(Tb.Lookup(t, idx, out))];
    }

    /** Lanes off..off+kind-1 of src as a cell of the given kind. */
    method Lanes(src: nat, off: nat, kind: nat) returns (out: nat)
      requires Valid() && src < |counts| && (kind == 1 || kind == 6 || kind == 8) && off + kind <= CellWidth
      modifies this
      ensures Valid() && Recorded(old(Built()), Built(), Program.Lanes(Pk.LaneCopy(src, off, kind, out))) && out == |old(counts)| < |counts|
    {
      hide Good, Tallied, Bag;
      ghost var c, acc := Built(), accesses;
      GoodTallied(c, consts, acc);
      out := Alloc();
      Read(src);
      RecordLanes(c, consts, acc, Pk.LaneCopy(src, off, kind, out), counts, accesses);
      instrs := instrs + [Program.Lanes(Pk.LaneCopy(src, off, kind, out))];
    }

    // ---- streams ----

    /** The reads of a window row: its item if read, then its stream cells. */
    method WindowRow(w: Win.Window)
      requires Tallied(counts, accesses) && WindowBelow(w, |counts|)
      modifies this`counts, this`accesses
      ensures |counts| == |old(counts)| && Tallied(counts, accesses) && accesses == old(accesses) + WindowReads(w)
    {
      hide Tallied;
      if !w.item.write { Read(w.item.addr); }
      Read(w.p);
      if w.q.Some? { Read(w.q.value); }
    }

    /** Allocates the stream cells, which the witness chip writes. */
    method StreamHints(n: nat) returns (stream: seq<nat>)
      requires Tallied(counts, accesses)
      modifies this`counts, this`accesses
      ensures stream == CellsFrom(|old(counts)|, n, 1) && |counts| == |old(counts)| + n && Tallied(counts, accesses)
      ensures accesses == old(accesses) + Bag(WriteSlots(stream))
    {
      hide Tallied, Bag;
      ghost var base, hints := |counts|, WriteSlots(CellsFrom(|counts|, n, 1));
      stream := [];
      HintNone(accesses, hints);
      for i := 0 to n
        invariant |counts| == base + i && Tallied(counts, accesses) && stream == CellsFrom(base, n, 1)[..i]
        invariant accesses == old(accesses) + Bag(hints[..i])
      {
        HintStep(base, i, old(accesses), hints);
        var a := Alloc();
        stream := stream + [a];
      }
      assert hints[..n] == hints;
    }

    /** Const while an instruction's cells are being allocated. */
    method ConstWhileBuilding(v: Cell) returns (a: nat, ghost extra: seq<ConstCell>)
      requires Tallied(counts, accesses) && ConstsOk(consts, constList)
      requires forall i :: 0 <= i < |constList| ==> constList[i].addr < |counts|
      modifies this`counts, this`accesses, this`consts, this`constList
      ensures Tallied(counts, accesses) && ConstsOk(consts, constList) && |old(counts)| <= |counts| && a < |counts|
      ensures constList == old(constList) + extra && HasConst(constList, ConstCell(a, v))
      ensures accesses == old(accesses) + ExtraBag(extra)
    {
      hide Tallied, Bag;
      if v in consts {
        a, extra := consts[v], [];
        ExtraNone(accesses);
        KnownConst(consts, constList, v);
        return;
      }
      ConstsAppend(consts, constList, |counts|, v);
      a := Alloc();
      extra := [ConstCell(a, v)];
      ExtraOne(a, v);
      consts := consts[v := a];
      constList := constList + [ConstCell(a, v)];
      ListHas(constList, |constList| - 1);
    }

    /** The reads of all of a pack's window rows. */
    method PackReads(p: Pk.Pack)
      requires Tallied(counts, accesses) && Pk.Valid(p) && PackBelow(p, |counts|, |counts|)
      modifies this`counts, this`accesses
      ensures |counts| == |old(counts)| && Tallied(counts, accesses)
      ensures accesses + When(p.last.Some?, Slot(if p.last.Some? then p.last.value else 0, true))
           == old(accesses) + WindowsBag(Pk.StartWindows(p)) + WindowsBag(Pk.ItemWindows(p)) + WindowsBag(Pk.LastWindows(p))
    {
      hide Tallied, Bag, Pk.Valid, PackBelow, WindowsBag, WindowReads, WindowBelow, Pk.StartWindows, Pk.ItemWindow, Pk.LastWindows;
      WindowsBelow(p, |counts|);
      StartBag(p, accesses);
      if p.start > 0 { WindowRow(StartWindow(p)); }
      ghost var started := accesses;
      ItemsEnds(p, started);
      SameLengths(p);
      for i := 0 to |p.items|
        invariant |counts| == |old(counts)| && Tallied(counts, accesses)
        invariant accesses == started + WindowsBag(Pk.ItemWindows(p)[..i])
      {
        ItemsStep(p, i, started);
        WindowRow(Pk.ItemWindow(p, i));
      }
      LastBag(p, accesses);
      if p.last.Some? {
        WindowRow(Pk.LastWindows(p)[0]);
        WindowRow(Pk.LastWindows(p)[1]);
      }
    }

    /** Allocates a pack's stream, its last block, and the zero constant. */
    method PackCells(start: nat, items: seq<nat>, kinds: seq<nat>) returns (p: Pk.Pack, ghost extra: seq<ConstCell>)
      requires Tallied(counts, accesses) && ConstsOk(consts, constList) && |items| == |kinds| && start < CellWidth
      requires (forall i :: 0 <= i < |kinds| ==> 1 <= kinds[i] <= CellWidth) && (forall a :: a in items ==> a < |counts|)
      requires forall i :: 0 <= i < |constList| ==> constList[i].addr < |counts|
      modifies this`counts, this`accesses, this`consts, this`constList
      ensures Tallied(counts, accesses) && ConstsOk(consts, constList) && |old(counts)| <= |counts|
      ensures constList == old(constList) + extra && HasConst(constList, ConstCell(p.zero, ZeroCell))
      ensures Pk.Valid(p) && p.start == start && p.items == items && p.kinds == kinds
      ensures PackBelow(p, |counts|, |counts|) && PackBelow(p, |old(counts)|, |counts|)
      ensures accesses == old(accesses) + Bag(WriteSlots(p.stream))
        + When(p.last.Some?, Slot(if p.last.Some? then p.last.value else 0, true)) + ExtraBag(extra)
    {
      hide Tallied, Bag, ExtraBag, HasConst, ConstsOk;
      var length := TotalLength(start, kinds);
      var stream := StreamHints(Pk.StreamCells(length));
      var last: Option<nat> := None;
      if length % CellWidth != 0 {
        var a := Alloc();
        last := Some(a);
      }
      var zero;
      zero, extra := ConstWhileBuilding(ZeroCell);
      p := Pk.Pack(start, items, kinds, stream, last, zero);
      LengthIs(p);
    }

    /** Lays the items out as the blocks a hasher compresses after start buffered zeros: the
        stream cells, the rotated last block, and the window rows that pin them. */
    method PackAt(start: nat, items: seq<nat>, kinds: seq<nat>) returns (p: Pk.Pack, blocks: seq<nat>)
      requires Valid() && |items| == |kinds| && start < CellWidth
      requires (forall i :: 0 <= i < |kinds| ==> 1 <= kinds[i] <= CellWidth) && (forall a :: a in items ==> a < |counts|)
      modifies this
      ensures Valid() && inputs == old(inputs) && tables == old(tables) && instrs == old(instrs) + [Pack(p)]
      ensures Pk.Valid(p) && p.start == start && p.items == items && p.kinds == kinds && blocks == Pk.BlockCells(p)
      ensures old(constList) <= constList && HasConst(constList, ConstCell(p.zero, ZeroCell))
    {
      hide Good, Tallied, Bag, ExtraBag, HasConst, ConstsOk, WindowsBag, Pk.Valid, PackBelow, When, WriteSlots;
      ghost var c, before, acc := Built(), consts, accesses;
      GoodTallied(c, consts, acc);
      GoodConsts(c, consts, acc);
      ConstsBelow(c, consts, acc);
      ghost var extra;
      p, extra := PackCells(start, items, kinds);
      PackReads(p);
      PackAccesses(p, acc, extra, accesses);
      PackFresh(c, extra, p, counts);
      Record(c, before, acc, extra, consts, Pack(p), counts, accesses);
      instrs := instrs + [Pack(p)];
      blocks := Pk.BlockCells(p);
    }

    // ---- hashes and paths ----

    /** The digest of the blocks from a state; with no block, the state itself. */
    method MDHashFrom(state: nat, blocks: seq<nat>) returns (out: nat)
      requires Valid() && state < |counts| && forall i :: 0 <= i < |blocks| ==> blocks[i] < |counts|
      modifies this
      ensures Valid() && out < |counts|
      ensures blocks == [] ==> out == state && Built() == old(Built())
      ensures blocks != [] ==> Recorded(old(Built()), Built(), MD(Md.Hash(state, blocks, out))) && out == |old(counts)|
    {
      hide Good, Tallied, Bag, SourceSlots;
      if blocks == [] { return state; }
      ghost var c, acc := Built(), accesses;
      GoodTallied(c, consts, acc);
      Read(state);
      ReadAll(blocks);
      out := Alloc();
      RecordMD(c, consts, acc, Md.Hash(state, blocks, out), counts, accesses);
      instrs := instrs + [MD(Md.Hash(state, blocks, out))];
    }

    /** The digest of the blocks from the zero state. */
    method MDHash(blocks: seq<nat>) returns (out: nat)
      requires Valid() && forall i :: 0 <= i < |blocks| ==> blocks[i] < |counts|
      modifies this
      ensures Valid() && out < |counts|
      ensures exists zero :: HasConst(constList, ConstCell(zero, ZeroCell)) && Hashed(old(instrs), instrs, zero, blocks, out)
    {
      hide Good, HasConst;
      var zero := Const(ZeroCell);
      out := MDHashFrom(zero, blocks);
    }

    /** Reads a path's leaf, index, root and operands. */
    method ReadPath(p: Mp.Path)
      requires Tallied(counts, accesses) && PathBelow(p, |counts|, |counts| + 1)
      modifies this`counts, this`accesses
      ensures |counts| == |old(counts)| && Tallied(counts, accesses)
      ensures accesses + When(p.gens.Some?, Slot(p.xb, true)) == old(accesses) + Bag(Mp.Slots(p))
    {
      hide Tallied, Bag, SourceSlots, Mp.Slots, When;
      PathBag(p, accesses);
      Read(p.leaf);
      Read(p.index);
      Read(p.root);
      ReadAll(Ops(p));
    }

    /** Checks that the digest at leaf is leaf number index of the tree with this root. */
    method MerklePath(leaf: nat, siblings: seq<nat>, index: nat, root: nat, injections: seq<Mk.Injection>) returns (p: Mp.Path)
      requires Valid() && PathCells(leaf, siblings, index, root, injections, |counts|)
      requires 1 <= |siblings| <= 30 && Mk.ValidWidths(injections, Pow2(|siblings|))
      modifies this
      ensures Valid() && Recorded(old(Built()), Built(), Path(p)) && |counts| == |old(counts)|
      ensures p == Mp.Path(leaf, index, root, Mk.Layout(siblings, injections, |siblings|), None, 0)
    {
      hide Good, Tallied, Bag, Mp.Slots, Mk.Layout, PathBelow, Pow2, Mk.ValidWidths, Mp.WellFormed;
      ghost var c, acc := Built(), accesses;
      GoodTallied(c, consts, acc);
      var steps := Mk.PathSteps(siblings, injections);
      p := Mp.Path(leaf, index, root, steps.value, None, 0);
      PathReady(p, siblings, injections, |counts|);
      ReadPath(p);
      RecordPath(c, consts, acc, p, counts, accesses);
      instrs := instrs + [Path(p)];
    }

    /** MerklePath that also returns the cell of the inverse domain point and the low bit. */
    method MerklePathX(leaf: nat, siblings: seq<nat>, index: nat, root: nat, gInv: Elt, injections: seq<Mk.Injection>) returns (xb: nat, p: Mp.Path)
      requires Valid() && PathCells(leaf, siblings, index, root, injections, |counts|)
      requires 1 <= |siblings| <= 30 && Mk.ValidWidths(injections, Pow2(|siblings|))
      modifies this
      ensures Valid() && Recorded(old(Built()), Built(), Path(p)) && xb == |old(counts)| < |counts|
      ensures p.leaf == leaf && p.index == index && p.root == root && p.xb == xb
      ensures p.steps == Mk.Layout(siblings, injections, |siblings|) && Mp.FactorsOf(p.gens, gInv, |siblings|)
    {
      hide Good, Tallied, Bag, Mp.Slots, Mk.Layout, PathBelow, Pow2, Mk.ValidWidths, Mp.WellFormed, PowMod;
      ghost var c, acc := Built(), accesses;
      GoodTallied(c, consts, acc);
      var steps := Mk.PathSteps(siblings, injections);
      var gens := Mp.LevelFactors(gInv, |siblings|);
      p := Mp.Path(leaf, index, root, steps.value, Some(gens), |counts|);
      PathReady(p, siblings, injections, |counts|);
      ReadPath(p);
      xb := Alloc();
      RecordPath(c, consts, acc, p, counts, accesses);
      instrs := instrs + [Path(p)];
    }

    /** The finished program. Whatever builder calls led here, every witness that meets all chip
        constraints with the sums balanced is an execution of it on the same inputs. */
    method Compile() returns (c: Code)
      requires Valid()
      ensures c == Built() && MachineSound.Built(c) && InRange(c)
      ensures forall prims: Prims, w: Witness ::
        Satisfies(prims, c, w) && NoZeroDivisor(prims, c, MemoryOf(prims, c, w)) ==>
          Execute(prims, c, w.inputs) == Some(MemoryOf(prims, c, w))
    {
      hide *;
      c := Code(inputs, constList, tables, instrs, counts);
      BuiltIs();
      GoodBuilt(c, consts, accesses);
      BuiltInRange(c);
      forall prims: Prims, w: Witness | Satisfies(prims, c, w) && NoZeroDivisor(prims, c, MemoryOf(prims, c, w))
        ensures Execute(prims, c, w.inputs) == Some(MemoryOf(prims, c, w)) {
        MachineSound.MachineSound(prims, c, w);
      }
    }

    lemma BuiltIs()
      ensures Built() == Code(inputs, constList, tables, instrs, counts)
      ensures Valid() <==> Good(Built(), consts, accesses)
    {
    }

    /** The path through the tables' groups and siblings reaches the root. */
    method MerklePathDynamic(p: Dp.DynamicPath)
      requires Valid() && ValidDPath(p) && p.index < |counts| && p.root < |counts|
      requires TableOf(tables, p.leaves) && TableOf(tables, p.heights) && TableOf(tables, p.order) && TableOf(tables, p.siblings)
      modifies this
      ensures Valid() && Recorded(old(Built()), Built(), DPath(p)) && |counts| == |old(counts)|
    {
      hide Good, Tallied, Bag, ValidDPath, TableOf;
      ghost var c, acc := Built(), accesses;
      GoodTallied(c, consts, acc);
      Read(p.index);
      Read(p.root);
      RecordDPath(c, consts, acc, p, counts, accesses);
      instrs := instrs + [DPath(p)];
    }
  }

  function WriteSlots(cells: seq<nat>): (r: seq<Slot>)
    ensures |r| == |cells| && forall i :: 0 <= i < |cells| ==> r[i] == Slot(cells[i], true)
  { seq(|cells|, i requires 0 <= i < |cells| => Slot(cells[i], true)) }

  function StartWindow(p: Pk.Pack): Win.Window
    requires Pk.Valid(p) && p.start > 0
  { Pk.StartWindows(p)[0] }

  lemma SameLengths(p: Pk.Pack)
    requires Pk.Valid(p)
    ensures |p.items| == |p.kinds|
  {
  }

  lemma HintNone(acc: multiset<Slot>, hints: seq<Slot>)
    ensures acc + Bag(hints[..0]) == acc
  {
  }

  lemma ExtraNone(acc: multiset<Slot>)
    ensures acc + ExtraBag([]) == acc
  {
  }

  lemma ExtraOne(a: nat, v: Cell)
    ensures ExtraBag([ConstCell(a, v)]) == multiset{Slot(a, true)}
  {
    assert ConstSlots(Code([], [ConstCell(a, v)], [], [], [])) == [Slot(a, true)];
  }

  lemma KnownConst(consts: map<Cell, nat>, list: seq<ConstCell>, v: Cell)
    requires ConstsOk(consts, list) && v in consts
    ensures HasConst(list, ConstCell(consts[v], v))
    ensures exists i :: 0 <= i < |list| && list[i].addr == consts[v]
  {
    assert HasConst(list, ConstCell(consts[v], v));
  }

  lemma PackAccesses(p: Pk.Pack, acc: multiset<Slot>, extra: seq<ConstCell>, now: multiset<Slot>)
    requires Pk.Valid(p)
    requires var last := When(p.last.Some?, Slot(if p.last.Some? then p.last.value else 0, true));
      now + last == acc + Bag(WriteSlots(p.stream)) + last + ExtraBag(extra)
        + WindowsBag(Pk.StartWindows(p)) + WindowsBag(Pk.ItemWindows(p)) + WindowsBag(Pk.LastWindows(p))
    ensures now == acc + ExtraBag(extra) + Bag(Pk.Slots(p))
  {
    hide Bag, ExtraBag, WindowsBag, Pk.StartWindows, Pk.ItemWindows, Pk.LastWindows, Pk.Valid, Pk.Slots;
    assert Pk.HintSlots(p) == WriteSlots(p.stream);
    PackBag(p);
    PackTotal(acc, Bag(WriteSlots(p.stream)), When(p.last.Some?, Slot(if p.last.Some? then p.last.value else 0, true)), ExtraBag(extra),
              WindowsBag(Pk.StartWindows(p)), WindowsBag(Pk.ItemWindows(p)), WindowsBag(Pk.LastWindows(p)), now);
  }

  method TotalLength(start: nat, kinds: seq<nat>) returns (length: nat)
    ensures length == Pk.Length(Pk.Pack(start, [], kinds, [], None, 0))
  {
    length := start;
    for i := 0 to |kinds|
      invariant length == Pk.Offset(Pk.Pack(start, [], kinds, [], None, 0), i)
    {
      length := length + kinds[i];
    }
  }

  lemma {:induction false} OffsetOf(p: Pk.Pack, q: Pk.Pack, n: nat)
    requires p.start == q.start && p.kinds == q.kinds && n <= |p.kinds|
    ensures Pk.Offset(p, n) == Pk.Offset(q, n)
  {
    if n > 0 { OffsetOf(p, q, n - 1); }
  }

  lemma LengthIs(p: Pk.Pack)
    ensures Pk.Length(p) == Pk.Length(Pk.Pack(p.start, [], p.kinds, [], None, 0))
  {
    OffsetOf(p, Pk.Pack(p.start, [], p.kinds, [], None, 0), |p.kinds|);
  }

  // ---- what PowBits computes ----

  /** The cell holds the operation's value. */
  predicate OpHolds(op: E.Op, mem: Memory) {
    match op
    case Mul(a, b, out) => a < |mem| && b < |mem| && out < |mem| && mem[out] == E6Cell(F.Mul(E.At(mem, a), E.At(mem, b)))
    case Add(a, b, out) => a < |mem| && b < |mem| && out < |mem| && mem[out] == E6Cell(F.Add(E.At(mem, a), E.At(mem, b)))
    case _ => true
  }

  predicate OpsHold(instrs: seq<Instr>, from: nat, mem: Memory) {
    forall k :: from <= k < |instrs| && instrs[k].E6? ==> OpHolds(instrs[k].op, mem)
  }

  predicate ConstsHold(list: seq<ConstCell>, mem: Memory) {
    forall i :: 0 <= i < |list| ==> list[i].addr < |mem| && mem[list[i].addr] == list[i].val
  }

  /** In every memory where the recorded operations and the constants hold, out is the
      product of the factors of the first i bits. */
  ghost predicate Determines(instrs: seq<Instr>, from: nat, list: seq<ConstCell>, n: nat, bits: seq<nat>, gs: seq<Elt>, i: nat, out: nat)
    requires i <= |gs| == |bits|
  {
    && out < n && (forall k :: 0 <= k < |bits| ==> bits[k] < n)
    && forall mem: Memory :: |mem| >= n && OpsHold(instrs, from, mem) && ConstsHold(list, mem) ==>
         InMemory(bits, mem) && E.At(mem, out) == E.PowBitsAt(E.LoadE6(mem, bits), gs, i)
  }

  lemma ScalarE6(v: Elt)
    ensures CellE6(ScalarCell(v)) == F.Lift(v)
  {
  }

  lemma ConstHolds(list: seq<ConstCell>, x: ConstCell, mem: Memory)
    requires HasConst(list, x) && ConstsHold(list, mem)
    ensures x.addr < |mem| && mem[x.addr] == x.val
  {
  }

  lemma ConstKept(a: seq<ConstCell>, b: seq<ConstCell>, x: ConstCell)
    requires HasConst(a, x) && a <= b
    ensures HasConst(b, x)
  {
    var i :| 0 <= i < |a| && a[i] == x;
    assert b[i] == x;
  }

  lemma PowStart(instrs: seq<Instr>, from: nat, list: seq<ConstCell>, n: nat, bits: seq<nat>, gs: seq<Elt>, out: nat)
    requires |gs| == |bits| && out < n && (forall a :: a in bits ==> a < n) && HasConst(list, ConstCell(out, ScalarCell(1)))
    ensures Determines(instrs, from, list, n, bits, gs, 0, out)
  {
    hide HasConst, OpsHold;
    forall k | 0 <= k < |bits| ensures bits[k] < n { assert bits[k] in bits; }
    forall mem: Memory | |mem| >= n && OpsHold(instrs, from, mem) && ConstsHold(list, mem)
      ensures InMemory(bits, mem) && E.At(mem, out) == E.PowBitsAt(E.LoadE6(mem, bits), gs, 0)
    {
      ConstHolds(list, ConstCell(out, ScalarCell(1)), mem);
      ScalarE6(1);
    }
  }

  lemma OpsKept(a: seq<Instr>, b: seq<Instr>, from: nat, mem: Memory)
    requires a <= b && OpsHold(b, from, mem)
    ensures OpsHold(a, from, mem)
  {
    hide OpHolds;
  }

  lemma OpAt(instrs: seq<Instr>, from: nat, mem: Memory, k: nat)
    requires OpsHold(instrs, from, mem) && from <= k < |instrs| && instrs[k].E6?
    ensures OpHolds(instrs[k].op, mem)
  {
  }

  /** The three operations of one bit. */
  predicate PowOps(instrs: seq<Instr>, at: nat, b: nat, k: nat, one: nat, acc: nat, t: nat, f: nat, out: nat) {
    && at + 3 <= |instrs|
    && instrs[at] == E6(E.Mul(b, k, t)) && instrs[at + 1] == E6(E.Add(t, one, f)) && instrs[at + 2] == E6(E.Mul(acc, f, out))
  }

  lemma PowValue(instrs: seq<Instr>, from: nat, at: nat, list: seq<ConstCell>, mem: Memory, b: nat, g: Elt,
                 k: nat, one: nat, acc: nat, t: nat, f: nat, out: nat)
    requires OpsHold(instrs, from, mem) && ConstsHold(list, mem) && from <= at && PowOps(instrs, at, b, k, one, acc, t, f, out)
    requires HasConst(list, ConstCell(k, ScalarCell(SubElt(g, 1)))) && HasConst(list, ConstCell(one, ScalarCell(1)))
    ensures b < |mem| && acc < |mem| && out < |mem|
    ensures E.At(mem, out) == F.Mul(E.At(mem, acc), F.Add(F.Mul(E.At(mem, b), F.Lift(SubElt(g, 1))), F.Lift(1)))
  {
    hide HasConst, OpsHold, F.Mul, F.Add, SubElt;
    OpAt(instrs, from, mem, at);
    OpAt(instrs, from, mem, at + 1);
    OpAt(instrs, from, mem, at + 2);
    ConstHolds(list, ConstCell(k, ScalarCell(SubElt(g, 1))), mem);
    ConstHolds(list, ConstCell(one, ScalarCell(1)), mem);
    ScalarE6(SubElt(g, 1));
    ScalarE6(1);
    E6CellRoundTrip(F.Mul(E.At(mem, b), E.At(mem, k)));
    E6CellRoundTrip(F.Add(E.At(mem, t), E.At(mem, one)));
    E6CellRoundTrip(F.Mul(E.At(mem, acc), E.At(mem, f)));
  }

  lemma PowNext(before: seq<Instr>, instrs: seq<Instr>, from: nat, list: seq<ConstCell>, list': seq<ConstCell>, n: nat, n': nat,
                bits: seq<nat>, gs: seq<Elt>, i: nat, acc: nat, k: nat, one: nat, t: nat, f: nat, out: nat)
    requires i < |gs| == |bits| && Determines(before, from, list, n, bits, gs, i, acc) && from <= |before|
    requires before <= instrs && list <= list' && n <= n' && out < n'
    requires PowOps(instrs, |before|, bits[i], k, one, acc, t, f, out)
    requires HasConst(list', ConstCell(k, ScalarCell(SubElt(gs[i], 1)))) && HasConst(list', ConstCell(one, ScalarCell(1)))
    ensures Determines(instrs, from, list', n', bits, gs, i + 1, out)
  {
    hide HasConst, OpsHold, F.Mul, F.Add, PowOps, SubElt;
    forall mem: Memory | |mem| >= n' && OpsHold(instrs, from, mem) && ConstsHold(list', mem)
      ensures InMemory(bits, mem) && E.At(mem, out) == E.PowBitsAt(E.LoadE6(mem, bits), gs, i + 1)
    {
      OpsKept(before, instrs, from, mem);
      assert ConstsHold(list, mem);
      PowValue(instrs, from, |before|, list', mem, bits[i], gs[i], k, one, acc, t, f, out);
    }
  }

  predicate PathCells(leaf: nat, siblings: seq<nat>, index: nat, root: nat, injections: seq<Mk.Injection>, n: nat) {
    && leaf < n && index < n && root < n
    && (forall j :: 0 <= j < |siblings| ==> siblings[j] < n)
    && (forall j :: 0 <= j < |injections| ==> injections[j].digest < n)
  }

  lemma PathReady(p: Mp.Path, siblings: seq<nat>, injections: seq<Mk.Injection>, n: nat)
    requires PathCells(p.leaf, siblings, p.index, p.root, injections, n) && 1 <= |siblings| <= 30
    requires p.steps == Mk.Layout(siblings, injections, |siblings|) && (p.gens.Some? ==> |p.gens.value| == |siblings| && p.xb == n)
    ensures Mp.WellFormed(p) && p.steps != [] && PathBelow(p, n, n + 1) && (p.gens.None? ==> PathBelow(p, n, n))
  {
    hide Mk.Layout, Mp.WellFormed;
    Mp.LayoutWellFormed(siblings, injections, p);
    Mp.LayoutNonEmpty(siblings, injections, |siblings|);
    forall k | 0 <= k < |p.steps| ensures p.steps[k].op < n { Mp.LayoutOps(siblings, injections, |siblings|, n, k); }
  }

  /** n addresses from base, a step apart. */
  function CellsFrom(base: nat, n: nat, step: nat): (r: seq<nat>)
    ensures |r| == n && forall i :: 0 <= i < n ==> r[i] == base + i * step
  { seq(n, i => base + i * step) }

  /** The hash of the blocks from the zero cell was recorded, if there is a block. */
  predicate Hashed(before: seq<Instr>, after: seq<Instr>, zero: nat, blocks: seq<nat>, out: nat) {
    if blocks == [] then out == zero && after == before else after == before + [MD(Md.Hash(zero, blocks, out))]
  }

  /** One instruction was recorded; inputs, constants and tables are as before. */
  predicate Recorded(c: Code, d: Code, i: Instr) {
    && d.inputs == c.inputs && d.consts == c.consts && d.tables == c.tables
    && d.instrs == c.instrs + [i] && |c.counts| <= |d.counts|
  }

  lemma ListHas(list: seq<ConstCell>, i: nat)
    requires i < |list|
    ensures HasConst(list, list[i])
  {
  }
}
