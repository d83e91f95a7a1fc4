/** Execution writes every cell once: the final memory still holds what each instruction
    wrote, and each instruction would write the same again. */
module WriteOnceRuns {
  import opened KoalaBear
  import opened Constraints
  import opened Cells
  import opened Program
  import opened InstrSound
  import opened InstrFrame
  import opened MachineSound
  import opened Builder
  import B = Bus
  import Win = ChipWindow
  import Pk = Packing
  import Bt = ChipBits
  import E = ChipE6
  import Md = ChipMD
  import Mp = MerklePath
  import Dp = ChipDPath

  function AddrSlots(ws: seq<Write>): (r: seq<Slot>)
    ensures |r| == |ws| && forall i :: 0 <= i < |ws| ==> r[i] == Slot(ws[i].addr, true)
  { seq(|ws|, i requires 0 <= i < |ws| => Slot(ws[i].addr, true)) }

  // ---- an instruction's writes are among its rows' writes, with multiplicity ----

  lemma OneIn(s: Slot, slots: seq<Slot>)
    requires s in slots
    ensures Bag([s]) <= Bag(slots)
  {
    var i :| 0 <= i < |slots| && slots[i] == s;
    assert slots == slots[..i] + [s] + slots[i + 1..];
  }

  /** One element from each sequence. */
  lemma {:induction false} PickBag(ss: seq<seq<Slot>>, xs: seq<Slot>)
    requires |xs| == |ss| && forall i :: 0 <= i < |xs| ==> xs[i] in ss[i]
    ensures Bag(xs) <= Bag(Concat(ss))
  {
    if xs != [] {
      var n := |xs| - 1;
      PickBag(ss[..n], xs[..n]);
      OneIn(xs[n], ss[n]);
      assert xs == xs[..n] + [xs[n]];
      BagAppend(xs[..n], [xs[n]]);
      BagAppend(Concat(ss[..n]), ss[n]);
    }
  }

  lemma ChainBag(op: E.Op)
    requires op.Chain? && E.ValidOp(op)
    ensures Bag(seq(|op.outs|, i requires 0 <= i < |op.outs| => Slot(op.outs[i], true))) <= Bag(E.Slots(op))
  {
    hide Bag, E.Lines, E.LineSlots, Concat;
    var ss := E.LinesSlots(E.Lines(op));
    var xs := seq(|op.outs|, i requires 0 <= i < |op.outs| => Slot(op.outs[i], true));
    FirstLine(op);
    forall i | 0 <= i < |xs| ensures xs[i] in ss[1..][i] {
      ChainSlotIn(op, i);
    }
    PickBag(ss[1..], xs);
    assert ss == [ss[0]] + ss[1..];
    ConcatAppend([ss[0]], ss[1..]);
    BagAppend(Concat([ss[0]]), Concat(ss[1..]));
    Above(Bag(xs), Bag(Concat([ss[0]])), Bag(Concat(ss[1..])));
  }

  lemma ChainSlotIn(op: E.Op, i: nat)
    requires op.Chain? && E.ValidOp(op) && i < |op.outs|
    ensures |E.Lines(op)| == |op.xs| + 1 && Slot(op.outs[i], true) in E.LineSlots(E.Lines(op)[i + 1])
  {
    assert E.Lines(op)[i + 1] == E.ChainLine(op, i + 1);
    assert E.LineSlots(E.ChainLine(op, i + 1))[2] == Slot(op.outs[i], true);
  }

  lemma Above(x: multiset<Slot>, a: multiset<Slot>, b: multiset<Slot>)
    requires x <= b
    ensures x <= a + b
  {
  }

  lemma E6WriteBag(op: E.Op, inv: E.Ext -> E.Ext, mem: Memory)
    requires E.ValidOp(op) && E.InBounds(op, mem) && E.Writes(op, inv, mem).Some?
    ensures Bag(AddrSlots(E.Writes(op, inv, mem).value)) <= Bag(E.Slots(op))
  {
    hide E.Slots, E.ChainOf, E.HornerOf;
    var ws := E.Writes(op, inv, mem).value;
    if op.Chain? {
      ChainBag(op);
      assert AddrSlots(ws) == seq(|op.outs|, i requires 0 <= i < |op.outs| => Slot(op.outs[i], true));
    } else if !op.Eq? {
      WriteSlotIn(op);
      assert AddrSlots(ws) == [Slot(op.out, true)];
      OneIn(Slot(op.out, true), E.Slots(op));
    } else {
      assert AddrSlots(ws) == [];
    }
  }

  lemma WriteSlotIn(op: E.Op)
    requires E.ValidOp(op) && !op.Chain? && !op.Eq?
    ensures Slot(op.out, true) in E.Slots(op)
  {
    var lines := E.Lines(op);
    var ss, n := E.LinesSlots(lines), |lines| - 1;
    if op.Horner? { assert lines[n] == E.HornerLine(op, n); }
    assert ss[n] == E.LineSlots(lines[n]);
    var k := |E.OptSlot(lines[n].a)| + if op.Div? then 0 else |E.OptSlot(lines[n].b)|;
    assert ss[n][k] == Slot(op.out, true);
    ConcatHas(ss, n, Slot(op.out, true));
  }

  lemma {:induction false} BitsWriteBag(b: Bt.Inst, mem: Memory, n: nat)
    requires Bt.Valid(b) && Bt.InBounds(b, mem) && n <= b.n
    ensures AddrSlots(Bt.Writes(b, mem, n)) == Concat(Bt.WriteSlots(b)[..n])
  {
    hide Bt.Shr, BitOf, Low;
    if n > 0 {
      BitsWriteBag(b, mem, n - 1);
      ConcatStep(Bt.WriteSlots(b), n - 1);
      assert Bt.WriteSlots(b)[n - 1] == [Slot(b.shr[n - 1], true), Slot(b.bit[n - 1], true)];
      assert AddrSlots(Bt.Writes(b, mem, n)) == AddrSlots(Bt.Writes(b, mem, n - 1)) + [Slot(b.shr[n - 1], true), Slot(b.bit[n - 1], true)];
    }
  }

  lemma BitsBagIn(b: Bt.Inst, mem: Memory)
    requires Bt.Valid(b) && Bt.InBounds(b, mem)
    ensures Bag(AddrSlots(Bt.Writes(b, mem, b.n))) <= Bag(Bt.Slots(b))
  {
    hide Bt.Writes;
    BitsWriteBag(b, mem, b.n);
    assert Bt.WriteSlots(b)[..b.n] == Bt.WriteSlots(b);
    BagAppend(Bt.ReadSlot(b), Concat(Bt.WriteSlots(b)));
  }

  lemma PackWriteBag(p: Pk.Pack, mem: Memory)
    requires Pk.Valid(p) && Pk.InBounds(p, mem)
    ensures Bag(AddrSlots(Pk.PackWrites(p, mem))) <= Bag(Pk.Slots(p))
  {
    hide Bag, Pk.PackWrites, Pk.Valid, Pk.Windows, Pk.HintSlots, AddrSlots, Concat;
    var hints, rest := Pk.HintSlots(p), Concat(Pk.WindowSlots(Pk.Windows(p)));
    PackAddrs(p, mem);
    BagAppend(hints, rest);
    if p.last.Some? {
      LastIn(p);
      OneIn(Slot(p.last.value, true), rest);
      BagAppend(hints, [Slot(p.last.value, true)]);
      Under(Bag(hints), Bag([Slot(p.last.value, true)]), Bag(rest));
    } else {
      assert hints + [] == hints;
      Under(Bag(hints), multiset{}, Bag(rest));
    }
  }

  lemma Under(h: multiset<Slot>, x: multiset<Slot>, r: multiset<Slot>)
    requires x <= r
    ensures h + x <= h + r && h <= h + r
  {
  }

  lemma PackAddrs(p: Pk.Pack, mem: Memory)
    requires Pk.Valid(p) && Pk.InBounds(p, mem)
    ensures AddrSlots(Pk.PackWrites(p, mem)) == Pk.HintSlots(p) + if p.last.Some? then [Slot(p.last.value, true)] else []
  {
    hide Pk.StreamCell, Pk.Offset, Pk.Rotated, Pk.Flat;
  }

  lemma LastIn(p: Pk.Pack)
    requires Pk.Valid(p) && p.last.Some?
    ensures Slot(p.last.value, true) in Concat(Pk.WindowSlots(Pk.Windows(p)))
  {
    hide Pk.Offset, Win.WindowAt;
    var ws := Pk.Windows(p);
    var n := |ws| - 1;
    LastItems(p);
    assert ws[n] == Pk.LastWindows(p)[1];
    assert Win.RowSlots(ws[n])[1] == ws[n].item;
    ConcatHas(Pk.WindowSlots(ws), n, Slot(p.last.value, true));
  }

  lemma SingleBag(i: Instr, w: Write, slots: seq<Slot>)
    requires Slot(w.addr, true) in slots
    ensures Bag(AddrSlots([w])) <= Bag(slots)
  {
    assert AddrSlots([w]) == [Slot(w.addr, true)];
    OneIn(Slot(w.addr, true), slots);
  }

  lemma WriteBag(prims: Prims, i: Instr, mem: Memory)
    requires Valid(i) && InBounds(i, mem) && Writes(prims, i, mem).Some?
    ensures Bag(AddrSlots(Writes(prims, i, mem).value)) <= Bag(Slots(i))
  {
    hide Bag, Pk.PackWrites, Bt.Writes, E.Writes, Md.Digest, Mp.Reaches, Mp.Point, Dp.ExecRows, Dp.TablesOf, AddrSlots;
    match i
    case Pack(p) => PackWriteBag(p, mem);
    case Lanes(l) => assert Slots(i)[1] == Slot(l.out, true); SingleBag(i, Writes(prims, i, mem).value[0], Slots(i));
    case Bits(b) => BitsBagIn(b, mem);
    case E6(op) => E6WriteBag(op, prims.inv, mem);
    case Select(s) => assert Slots(i)[3] == Slot(s.out, true); SingleBag(i, Writes(prims, i, mem).value[0], Slots(i));
    case Lookup(l) => assert Slots(i)[1] == Slot(l.out, true); SingleBag(i, Writes(prims, i, mem).value[0], Slots(i));
    case MD(h) => assert Slots(i)[1] == Slot(h.out, true); SingleBag(i, Writes(prims, i, mem).value[0], Slots(i));
    case Path(p) =>
      if p.gens.Some? {
        assert Slots(i)[3] == Slot(p.xb, true);
        SingleBag(i, Writes(prims, i, mem).value[0], Slots(i));
      } else {
        NoWrites(Slots(i));
      }
    case DPath(p) => NoWrites(Slots(i));
  }

  lemma NoWrites(slots: seq<Slot>)
    ensures Bag(AddrSlots([])) <= Bag(slots)
  {
    assert AddrSlots([]) == [];
  }

  // ---- no cell is written twice ----

  lemma {:induction false} ConcatTwo(ss: seq<seq<Slot>>, i: nat, j: nat, x: Slot)
    requires i < j < |ss| && x in ss[i] && x in ss[j]
    ensures Bag(Concat(ss))[x] >= 2
    decreases ss
  {
    var n := |ss| - 1;
    BagAppend(Concat(ss[..n]), ss[n]);
    if j < n {
      assert ss[..n][i] == ss[i] && ss[..n][j] == ss[j];
      ConcatTwo(ss[..n], i, j, x);
    } else {
      assert ss[..n][i] == ss[i];
      ConcatHas(ss[..n], i, x);
      assert x in Bag(Concat(ss[..n])) && x in Bag(ss[n]);
    }
  }

  lemma InBag(x: Slot, s: seq<Slot>)
    ensures x in s <==> Bag(s)[x] >= 1
  {
    assert x in s <==> x in Bag(s);
  }

  /** An available cell is not written by a later instruction. */
  lemma NotRewritten(c: Code, k: nat, j: nat, a: nat)
    requires Built(c) && a < |c.counts| && k <= j < |c.instrs|
    requires AllValid(c.instrs) && Available(c, k, a)
    ensures Slot(a, true) !in Slots(c.instrs[j])
  {
    hide Slots, Valid, InstrBuilt, AllSlots, Bag, B.WriteOnce;
    var s := Slot(a, true);
    CountParts(c, s);
    OnceAt(c, a);
    InputTaken(c, a);
    ConstTaken(c, a);
    if s in Slots(c.instrs[j]) {
      ConcatHas(InstrSlots(c.instrs), j, s);
      InBag(s, Concat(InstrSlots(c.instrs)));
      if !IsInput(c, a) && !IsConst(c, a) {
        var i :| 0 <= i < k && s in Slots(c.instrs[i]);
        ConcatTwo(InstrSlots(c.instrs), i, j, s);
      }
    }
  }

  lemma InputTaken(c: Code, a: nat)
    ensures IsInput(c, a) ==> Bag(InputSlots(c))[Slot(a, true)] >= 1
  {
    hide Bag;
    InBag(Slot(a, true), InputSlots(c));
    if i :| 0 <= i < |c.inputs| && c.inputs[i].addr == a { assert InputSlots(c)[i] == Slot(a, true); }
  }

  lemma ConstTaken(c: Code, a: nat)
    ensures IsConst(c, a) ==> Bag(ConstSlots(c))[Slot(a, true)] >= 1
  {
    hide Bag;
    InBag(Slot(a, true), ConstSlots(c));
    if i :| 0 <= i < |c.consts| && c.consts[i].addr == a { assert ConstSlots(c)[i] == Slot(a, true); }
  }

  lemma CountParts(c: Code, s: Slot)
    requires AllValid(c.instrs)
    ensures Bag(AllSlots(c))[s] == Bag(InputSlots(c))[s] + Bag(ConstSlots(c))[s] + Bag(Concat(TableSlots(c.tables)))[s] + Bag(Concat(InstrSlots(c.instrs)))[s]
  {
    hide Bag, AllSlots, InputSlots, ConstSlots, TableSlots, InstrSlots;
    BagAll(c);
  }

  lemma OnceAt(c: Code, a: nat)
    requires Built(c) && a < |c.counts|
    ensures AllValid(c.instrs) && Bag(AllSlots(c))[Slot(a, true)] == 1
  {
    hide InstrBuilt, AllSlots, Valid;
  }

  lemma WritesAreSlots(prims: Prims, i: Instr, mem: Memory, a: nat)
    requires Valid(i) && InBounds(i, mem) && Writes(prims, i, mem).Some? && WritesTo(Writes(prims, i, mem).value, a)
    ensures Slot(a, true) in Slots(i)
  {
    hide Writes, Slots, Bag;
    WriteBag(prims, i, mem);
    var ws := Writes(prims, i, mem).value;
    var k :| 0 <= k < |ws| && ws[k].addr == a;
    assert AddrSlots(ws)[k] == Slot(a, true);
    InBag(Slot(a, true), AddrSlots(ws));
    InBag(Slot(a, true), Slots(i));
  }

  /** The writes of one instruction are to distinct cells. */
  lemma DistinctWrites(prims: Prims, c: Code, k: nat, m: Memory, i: nat, j: nat)
    requires Built(c) && k < |c.instrs| && |m| == |c.counts| && AllValid(c.instrs) && InBounds(c.instrs[k], m)
    requires Writes(prims, c.instrs[k], m).Some?
    requires var ws := Writes(prims, c.instrs[k], m).value; i < j < |ws| && ws[i].addr < |c.counts|
    ensures var ws := Writes(prims, c.instrs[k], m).value; ws[i].addr != ws[j].addr
  {
    hide Writes, Slots, Bag, AllSlots, InstrBuilt, Valid, InBounds, B.WriteOnce, B.Counted, Built;
    var ws := Writes(prims, c.instrs[k], m).value;
    if ws[i].addr == ws[j].addr {
      var s := Slot(ws[i].addr, true);
      WriteBag(prims, c.instrs[k], m);
      B.CountTwo(AddrSlots(ws), i, j);
      CountParts(c, s);
      OnceAt(c, ws[i].addr);
      ConcatBag(InstrSlots(c.instrs), k);
      TwoInBag(AddrSlots(ws), s, Bag(Slots(c.instrs[k])), Bag(Concat(InstrSlots(c.instrs))));
    }
  }

  lemma TwoInBag(xs: seq<Slot>, s: Slot, b: multiset<Slot>, d: multiset<Slot>)
    requires multiset(xs)[s] >= 2 && Bag(xs) <= b <= d
    ensures d[s] >= 2
  {
  }

  lemma {:induction false} ConcatBag(ss: seq<seq<Slot>>, k: nat)
    requires k < |ss|
    ensures Bag(ss[k]) <= Bag(Concat(ss))
    decreases ss
  {
    var n := |ss| - 1;
    BagAppend(Concat(ss[..n]), ss[n]);
    if k < n {
      assert ss[..n][k] == ss[k];
      ConcatBag(ss[..n], k);
    }
  }

  // ---- the run ----

  lemma {:induction false} ApplyOther(m: Memory, ws: seq<Write>, a: nat)
    requires WritesIn(ws, |m|) && a < |m| && !WritesTo(ws, a)
    ensures Apply(m, ws)[a] == m[a]
  {
    if ws != [] {
      var n := |ws| - 1;
      assert forall k :: 0 <= k < n ==> ws[..n][k] == ws[k];
      ApplyOther(m, ws[..n], a);
      assert ws[n].addr != a;
    }
  }

  predicate Distinct(ws: seq<Write>) { forall i, j :: 0 <= i < j < |ws| ==> ws[i].addr != ws[j].addr }

  lemma {:induction false} ApplyAt(m: Memory, ws: seq<Write>, i: nat)
    requires WritesIn(ws, |m|) && Distinct(ws) && i < |ws|
    ensures Apply(m, ws)[ws[i].addr] == ws[i].val
  {
    var n := |ws| - 1;
    if i < n {
      assert forall k :: 0 <= k < n ==> ws[..n][k] == ws[k];
      ApplyAt(m, ws[..n], i);
    }
  }

  lemma StepKeeps(prims: Prims, c: Code, k: nat, j: nat, m: Memory, a: nat)
    requires Built(c) && AllValid(c.instrs) && k <= j < |c.instrs| && |m| == |c.counts| && a < |m|
    requires Step(prims, c, j, m).Some? && Available(c, k, a)
    ensures Step(prims, c, j, m).value[a] == m[a]
  {
    BuiltAt(c, j, m);
    hide Built, Available, Valid, InBounds, InstrBuilt, Slots, Writes, TablesMatch;
    var i := c.instrs[j];
    var ws := Writes(prims, i, m).value;
    if WritesTo(ws, a) {
      WritesAreSlots(prims, i, m, a);
      NotRewritten(c, k, j, a);
    } else {
      ApplyOther(m, ws, a);
    }
  }

  lemma {:induction false} RunKeeps(prims: Prims, c: Code, inputs: seq<Cell>, k: nat, j: nat, a: nat)
    requires Built(c) && MachineSound.InRange(c) && |inputs| == |c.inputs| && k <= j <= |c.instrs| && RunTo(prims, c, inputs, j).Some?
    ensures RunTo(prims, c, inputs, k).Some? && AllValid(c.instrs)
    ensures a < |c.counts| && Available(c, k, a) ==> RunTo(prims, c, inputs, j).value[a] == RunTo(prims, c, inputs, k).value[a]
    decreases j
  {
    hide Built, Available, Step;
    BuiltValid(c);
    if k < j {
      RunKeeps(prims, c, inputs, k, j - 1, a);
      if a < |c.counts| && Available(c, k, a) {
        StepKeeps(prims, c, k, j - 1, RunTo(prims, c, inputs, j - 1).value, a);
      }
    }
  }

  lemma StepWrites(prims: Prims, c: Code, k: nat, m: Memory)
    requires Built(c) && AllValid(c.instrs) && k < |c.instrs| && |m| == |c.counts| && Step(prims, c, k, m).Some?
    ensures InBounds(c.instrs[k], m) && Writes(prims, c.instrs[k], m).Some?
    ensures var ws := Writes(prims, c.instrs[k], m).value;
      && Stored(ws, Step(prims, c, k, m).value)
      && forall i :: 0 <= i < |ws| ==> Available(c, k + 1, ws[i].addr)
  {
    BuiltAt(c, k, m);
    hide Built, Available, Valid, InBounds, InstrBuilt, Slots, Writes, TablesMatch;
    var ws := Writes(prims, c.instrs[k], m).value;
    forall i, j | 0 <= i < j < |ws| ensures ws[i].addr != ws[j].addr { DistinctWrites(prims, c, k, m, i, j); }
    forall i | 0 <= i < |ws| ensures Apply(m, ws)[ws[i].addr] == ws[i].val && Available(c, k + 1, ws[i].addr) {
      ApplyAt(m, ws, i);
      assert WritesTo(ws, ws[i].addr);
      WritesAreSlots(prims, c.instrs[k], m, ws[i].addr);
      WrittenAvailable(c, k, ws[i].addr);
    }
  }

  lemma WrittenAvailable(c: Code, k: nat, a: nat)
    requires AllValid(c.instrs) && k < |c.instrs| && Slot(a, true) in Slots(c.instrs[k])
    ensures Available(c, k + 1, a)
  {
    hide Slots, Valid;
  }

  /** Each instruction of a successful run would write, on the final memory, exactly the values
      the final memory holds. */
  lemma RunStored(prims: Prims, c: Code, inputs: seq<Cell>, k: nat)
    requires Built(c) && MachineSound.InRange(c) && |inputs| == |c.inputs| && k < |c.instrs| && RunTo(prims, c, inputs, |c.instrs|).Some?
    ensures AllValid(c.instrs) && InBounds(c.instrs[k], RunTo(prims, c, inputs, |c.instrs|).value)
    ensures var mem := RunTo(prims, c, inputs, |c.instrs|).value;
      Writes(prims, c.instrs[k], mem).Some? && Stored(Writes(prims, c.instrs[k], mem).value, mem)
  {
    hide Built, Available, Step, RunTo, InBounds, InstrBuilt, Slots, Writes, TablesMatch, Valid, SameUses;
    var n := |c.instrs|;
    var mem := RunTo(prims, c, inputs, n).value;
    RunKeeps(prims, c, inputs, k + 1, n, 0);
    RunNext(prims, c, inputs, k);
    var m := RunTo(prims, c, inputs, k).value;
    StepWrites(prims, c, k, m);
    var ws := Writes(prims, c.instrs[k], m).value;
    forall i | 0 <= i < |ws| ensures mem[ws[i].addr] == ws[i].val {
      RunKeeps(prims, c, inputs, k + 1, n, ws[i].addr);
    }
    BuiltAt(c, k, mem);
    RunSameUses(prims, c, inputs, k);
    Frame(prims, c.instrs[k], m, mem);
  }

  lemma RunNext(prims: Prims, c: Code, inputs: seq<Cell>, k: nat)
    requires Built(c) && MachineSound.InRange(c) && |inputs| == |c.inputs| && k < |c.instrs| && RunTo(prims, c, inputs, k + 1).Some?
    ensures RunTo(prims, c, inputs, k).Some?
    ensures RunTo(prims, c, inputs, k + 1) == Step(prims, c, k, RunTo(prims, c, inputs, k).value)
  {
    hide Built, Step;
  }

  lemma RunSameUses(prims: Prims, c: Code, inputs: seq<Cell>, k: nat)
    requires Built(c) && MachineSound.InRange(c) && |inputs| == |c.inputs| && k < |c.instrs| && RunTo(prims, c, inputs, |c.instrs|).Some?
    ensures RunTo(prims, c, inputs, k).Some? && AllValid(c.instrs)
    ensures SameUses(c.instrs[k], RunTo(prims, c, inputs, k).value, RunTo(prims, c, inputs, |c.instrs|).value)
  {
    hide Built, Available, Step, RunTo, InBounds, Slots, Valid, Uses, TablesMatch;
    RunKeeps(prims, c, inputs, k, |c.instrs|, 0);
    var m, mem := RunTo(prims, c, inputs, k).value, RunTo(prims, c, inputs, |c.instrs|).value;
    BuiltAt(c, k, mem);
    forall a | 0 <= a < |m| && Uses(c.instrs[k], a) ensures m[a] == mem[a] {
      RunKeeps(prims, c, inputs, k, |c.instrs|, a);
    }
  }
}
