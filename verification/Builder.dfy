/** What extending a program by one piece preserves. */
module Builder {
  import opened KoalaBear
  import opened Cells
  import opened Program
  import opened InstrSound
  import opened InstrFrame
  import opened MachineSound
  import B = Bus
  import Win = ChipWindow
  import Pk = Packing
  import Bt = ChipBits
  import E = ChipE6
  import Sel = ChipSelect
  import Md = ChipMD
  import Tb = ChipTable
  import Mp = MerklePath
  import Dp = ChipDPath

  /** The read counts and the accesses recorded so far agree: every address is written once
      and its count is its number of reads. */
  ghost predicate Tallied(counts: seq<nat>, acc: multiset<Slot>) {
    && (forall s :: s in acc ==> s.addr < |counts|)
    && (forall a :: 0 <= a < |counts| ==> counts[a] == acc[Slot(a, false)] && acc[Slot(a, true)] == 1)
  }

  predicate HasConst(list: seq<ConstCell>, x: ConstCell) { x in list }

  /** The constants are deduplicated by value. */
  predicate ConstsOk(consts: map<Cell, nat>, list: seq<ConstCell>) {
    && (forall v :: v in consts ==> HasConst(list, ConstCell(consts[v], v)))
    && (forall i :: 0 <= i < |list| ==> list[i].val in consts && consts[list[i].val] == list[i].addr)
  }

  predicate TablesIn(tables: seq<seq<nat>>, n: nat) {
    forall t :: 0 <= t < |tables| ==> forall i :: 0 <= i < |tables[t]| ==> tables[t][i] < n
  }

  /** The builder's invariant. */
  ghost predicate Good(c: Code, consts: map<Cell, nat>, acc: multiset<Slot>) {
    && AllValid(c.instrs)
    && Tallied(c.counts, acc)
    && acc == Bag(AllSlots(c))
    && TablesIn(c.tables, |c.counts|)
    && ConstsOk(consts, c.consts)
    && forall k :: 0 <= k < |c.instrs| ==> InstrBuilt(c, k)
  }

  /** The invariant is what soundness assumes of a program. */
  lemma GoodBuilt(c: Code, consts: map<Cell, nat>, acc: multiset<Slot>)
    requires Good(c, consts, acc)
    ensures Built(c)
  {
    hide InstrBuilt, Slots;
    forall i | 0 <= i < |AllSlots(c)| ensures AllSlots(c)[i].addr < |c.counts| {
      assert AllSlots(c)[i] in acc;
    }
  }

  // ---- the memory only grows ----

  lemma InBoundsMono(i: Instr, m: Memory, n: Memory)
    requires InBounds(i, m) && |m| <= |n|
    ensures InBounds(i, n)
  {
  }

  /** The program grew: more cells, constants, tables and instructions, nothing removed. */
  predicate Grows(c: Code, d: Code) {
    && |c.counts| <= |d.counts| && c.inputs <= d.inputs && c.consts <= d.consts
    && c.tables <= d.tables && c.instrs <= d.instrs
  }

  lemma AvailableGrows(c: Code, d: Code, k: nat, a: nat)
    requires Grows(c, d) && AllValid(c.instrs) && AllValid(d.instrs) && k <= |c.instrs| && Available(c, k, a)
    ensures Available(d, k, a)
  {
    hide Slots, Valid;
    if IsInput(c, a) {
      var i :| 0 <= i < |c.inputs| && c.inputs[i].addr == a;
      assert d.inputs[i].addr == a;
    } else if IsConst(c, a) {
      var i :| 0 <= i < |c.consts| && c.consts[i].addr == a;
      assert d.consts[i].addr == a;
    } else {
      var j :| 0 <= j < k && Slot(a, true) in Slots(c.instrs[j]);
      assert d.instrs[j] == c.instrs[j];
    }
  }

  lemma ZeroGrows(c: Code, d: Code, a: nat)
    requires Grows(c, d) && HasZero(c, a)
    ensures HasZero(d, a)
  {
    var i :| 0 <= i < |c.consts| && c.consts[i] == ConstCell(a, ZeroCell);
    assert d.consts[i] == ConstCell(a, ZeroCell);
  }

  lemma TablesGrow(c: Code, d: Code, ts: seq<Table>)
    requires Grows(c, d) && TablesMatch(c.tables, ts)
    ensures TablesMatch(d.tables, ts)
  {
  }

  /** An instruction's conditions persist as the program grows. */
  lemma BuiltGrows(c: Code, d: Code, k: nat)
    requires Grows(c, d) && AllValid(c.instrs) && AllValid(d.instrs) && k < |c.instrs| && InstrBuilt(c, k)
    ensures InstrBuilt(d, k)
  {
    hide Available, Uses, InBounds, Valid, TablesMatch;
    var i := c.instrs[k];
    assert d.instrs[k] == i;
    forall mem: Memory | |mem| == |d.counts| ensures InBounds(i, mem) {
      InBoundsMono(i, mem[..|c.counts|], mem);
    }
    TablesGrow(c, d, TablesOf(i));
    if i.Pack? { ZeroGrows(c, d, i.pack.zero); }
    forall a: nat | Uses(i, a) ensures Available(d, k, a) { AvailableGrows(c, d, k, a); }
  }

  // ---- the accesses of a larger program ----

  function Bag(s: seq<Slot>): multiset<Slot> { multiset(s) }

  lemma BagAppend(a: seq<Slot>, b: seq<Slot>)
    ensures Bag(a + b) == Bag(a) + Bag(b)
  {
  }

  lemma ConcatLast<T>(ss: seq<seq<T>>, s: seq<T>)
    ensures Concat(ss + [s]) == Concat(ss) + s
  {
    assert (ss + [s])[..|ss|] == ss;
  }

  lemma BagAll(c: Code)
    requires AllValid(c.instrs)
    ensures Bag(AllSlots(c)) == Bag(InputSlots(c)) + Bag(ConstSlots(c)) + Bag(Concat(TableSlots(c.tables))) + Bag(Concat(InstrSlots(c.instrs)))
  {
    hide Bag, InputSlots, ConstSlots, TableSlots, InstrSlots;
    var a, b, t, i := InputSlots(c), ConstSlots(c), Concat(TableSlots(c.tables)), Concat(InstrSlots(c.instrs));
    BagAppend(a, b);
    BagAppend(a + b, t);
    BagAppend(a + b + t, i);
  }

  lemma InstrSlotsAppend(instrs: seq<Instr>, i: Instr)
    requires AllValid(instrs) && Valid(i)
    ensures AllValid(instrs + [i]) && Concat(InstrSlots(instrs + [i])) == Concat(InstrSlots(instrs)) + Slots(i)
  {
    hide Slots, Valid;
    assert InstrSlots(instrs + [i]) == InstrSlots(instrs) + [Slots(i)];
    ConcatLast(InstrSlots(instrs), Slots(i));
  }

  lemma ConstSlotsAppend(c: Code, d: Code, extra: seq<ConstCell>)
    requires d.consts == c.consts + extra
    ensures ConstSlots(d) == ConstSlots(c) + ConstSlots(Code([], extra, [], [], []))
  {
  }

  /** The constants and the instruction a builder call may add, and the new counts. */
  function Extended(c: Code, extra: seq<ConstCell>, i: Instr, counts: seq<nat>): Code {
    Code(c.inputs, c.consts + extra, c.tables, c.instrs + [i], counts)
  }

  function ExtraBag(extra: seq<ConstCell>): multiset<Slot> { Bag(ConstSlots(Code([], extra, [], [], []))) }

  lemma BagExtended(c: Code, extra: seq<ConstCell>, i: Instr, counts: seq<nat>)
    requires AllValid(c.instrs) && Valid(i)
    ensures AllValid(c.instrs + [i])
    ensures Bag(AllSlots(Extended(c, extra, i, counts))) == Bag(AllSlots(c)) + ExtraBag(extra) + Bag(Slots(i))
  {
    hide AllSlots, Bag, Slots, Valid, ConstSlots, InstrSlots, TableSlots;
    var d := Extended(c, extra, i, counts);
    InstrSlotsAppend(c.instrs, i);
    ConstSlotsAppend(c, d, extra);
    BagAll(c);
    BagAll(d);
    BagAppend(Concat(InstrSlots(c.instrs)), Slots(i));
    BagAppend(ConstSlots(c), ConstSlots(Code([], extra, [], [], [])));
    SameInputs(c, d);
  }

  lemma SameInputs(c: Code, d: Code)
    requires c.inputs == d.inputs
    ensures InputSlots(c) == InputSlots(d)
  {
  }

  /** What a builder call must ensure of the instruction it records. */
  ghost predicate Fresh(c: Code, extra: seq<ConstCell>, i: Instr, counts: seq<nat>) {
    && Valid(i) && |c.counts| <= |counts|
    && (forall mem: Memory :: |mem| == |counts| ==> InBounds(i, mem))
    && TablesMatch(c.tables, TablesOf(i))
    && (i.Pack? ==> HasConst(c.consts + extra, ConstCell(i.pack.zero, ZeroCell)))
    && (forall a: nat :: Uses(i, a) ==> a < |c.counts|)
  }

  lemma NewInstrBuilt(c: Code, consts: map<Cell, nat>, acc: multiset<Slot>, extra: seq<ConstCell>, i: Instr, counts: seq<nat>)
    requires Good(c, consts, acc) && Fresh(c, extra, i, counts) && AllValid(c.instrs + [i])
    ensures InstrBuilt(Extended(c, extra, i, counts), |c.instrs|)
  {
    hide Good, Available, Uses, InBounds, Valid, TablesMatch;
    var d, k := Extended(c, extra, i, counts), |c.instrs|;
    GoodBuilt(c, consts, acc);
    if i.Pack? {
      var j :| 0 <= j < |d.consts| && d.consts[j] == ConstCell(i.pack.zero, ZeroCell);
    }
    forall a: nat | Uses(i, a) ensures Available(d, k, a) {
      AllAvailable(c, a);
      AvailableGrows(c, d, k, a);
    }
  }

  lemma ConstsAppend(consts: map<Cell, nat>, list: seq<ConstCell>, a: nat, v: Cell)
    requires ConstsOk(consts, list) && v !in consts
    ensures ConstsOk(consts[v := a], list + [ConstCell(a, v)])
  {
  }

  lemma TablesInMono(tables: seq<seq<nat>>, m: nat, n: nat)
    requires TablesIn(tables, m) && m <= n
    ensures TablesIn(tables, n)
  {
  }

  /** Recording an instruction whose accesses were counted keeps the invariant. */
  lemma Record(c: Code, consts: map<Cell, nat>, acc: multiset<Slot>, extra: seq<ConstCell>, consts': map<Cell, nat>,
               i: Instr, counts: seq<nat>, acc': multiset<Slot>)
    requires Good(c, consts, acc) && Fresh(c, extra, i, counts) && Tallied(counts, acc')
    requires acc' == acc + ExtraBag(extra) + Bag(Slots(i)) && ConstsOk(consts', c.consts + extra)
    ensures Good(Extended(c, extra, i, counts), consts', acc')
  {
    hide Slots, Valid, Tallied, ConstsOk, InstrBuilt, AllSlots, ExtraBag, Bag, TablesIn, Fresh, AllValid;
    var d := Extended(c, extra, i, counts);
    FreshValid(c, extra, i, counts);
    BagExtended(c, extra, i, counts);
    TablesInMono(c.tables, |c.counts|, |counts|);
    NewInstrBuilt(c, consts, acc, extra, i, counts);
    forall k | 0 <= k < |d.instrs| ensures InstrBuilt(d, k) {
      if k < |c.instrs| { BuiltGrows(c, d, k); }
    }
  }

  lemma FreshValid(c: Code, extra: seq<ConstCell>, i: Instr, counts: seq<nat>)
    requires Fresh(c, extra, i, counts)
    ensures Valid(i) && |c.counts| <= |counts|
  {
    hide Valid, InBounds, Uses, TablesMatch;
  }

  // ---- counting ----

  lemma TallyAlloc(counts: seq<nat>, acc: multiset<Slot>)
    requires Tallied(counts, acc)
    ensures Tallied(counts + [0], acc + multiset{Slot(|counts|, true)})
  {
    var n := |counts|;
    assert Slot(n, true) !in acc && Slot(n, false) !in acc;
  }

  lemma TallyRead(counts: seq<nat>, acc: multiset<Slot>, a: nat)
    requires Tallied(counts, acc) && a < |counts|
    ensures Tallied(counts[a := counts[a] + 1], acc + multiset{Slot(a, false)})
  {
  }

  // ---- inputs, constants and tables ----

  lemma Unchanged(c: Code, d: Code)
    requires Grows(c, d) && c.instrs == d.instrs && AllValid(c.instrs) && forall k :: 0 <= k < |c.instrs| ==> InstrBuilt(c, k)
    ensures forall k :: 0 <= k < |d.instrs| ==> InstrBuilt(d, k)
  {
    hide InstrBuilt, AllValid;
    forall k | 0 <= k < |d.instrs| ensures InstrBuilt(d, k) { BuiltGrows(c, d, k); }
  }

  lemma BagOne(s: Slot)
    ensures Bag([s]) == multiset{s}
  {
  }

  lemma Sum4(a: multiset<Slot>, b: multiset<Slot>, t: multiset<Slot>, i: multiset<Slot>, x: multiset<Slot>)
    ensures (a + x) + b + t + i == a + b + t + i + x
    ensures a + (b + x) + t + i == a + b + t + i + x
    ensures a + b + (t + x) + i == a + b + t + i + x
  {
  }

  function PlusInput(c: Code, kind: nat): Code {
    Code(c.inputs + [TypedCell(|c.counts|, kind)], c.consts, c.tables, c.instrs, c.counts + [0])
  }

  function PlusConst(c: Code, v: Cell): Code {
    Code(c.inputs, c.consts + [ConstCell(|c.counts|, v)], c.tables, c.instrs, c.counts + [0])
  }

  function PlusTable(c: Code, cells: seq<nat>, counts: seq<nat>): Code {
    Code(c.inputs, c.consts, c.tables + [cells], c.instrs, counts)
  }

  lemma BagInput(c: Code, kind: nat)
    requires AllValid(c.instrs)
    ensures Bag(AllSlots(PlusInput(c, kind))) == Bag(AllSlots(c)) + multiset{Slot(|c.counts|, true)}
  {
    hide AllSlots, Bag, AllValid, InstrSlots, TableSlots, Concat;
    var s, d := Slot(|c.counts|, true), PlusInput(c, kind);
    BagAll(c);
    BagAll(d);
    assert InputSlots(d) == InputSlots(c) + [s] && ConstSlots(d) == ConstSlots(c);
    BagAppend(InputSlots(c), [s]);
    BagOne(s);
    Sum4(Bag(InputSlots(c)), Bag(ConstSlots(c)), Bag(Concat(TableSlots(c.tables))), Bag(Concat(InstrSlots(c.instrs))), multiset{s});
  }

  lemma BagConst(c: Code, v: Cell)
    requires AllValid(c.instrs)
    ensures Bag(AllSlots(PlusConst(c, v))) == Bag(AllSlots(c)) + multiset{Slot(|c.counts|, true)}
  {
    hide AllSlots, Bag, AllValid, InstrSlots, TableSlots, Concat;
    var s, d := Slot(|c.counts|, true), PlusConst(c, v);
    BagAll(c);
    BagAll(d);
    assert InputSlots(d) == InputSlots(c) && ConstSlots(d) == ConstSlots(c) + [s];
    BagAppend(ConstSlots(c), [s]);
    BagOne(s);
    Sum4(Bag(InputSlots(c)), Bag(ConstSlots(c)), Bag(Concat(TableSlots(c.tables))), Bag(Concat(InstrSlots(c.instrs))), multiset{s});
  }

  lemma BagTable(c: Code, cells: seq<nat>, counts: seq<nat>)
    requires AllValid(c.instrs)
    ensures Bag(AllSlots(PlusTable(c, cells, counts))) == Bag(AllSlots(c)) + Bag(SourceSlots(cells))
  {
    hide AllSlots, Bag, AllValid, InstrSlots, SourceSlots, Concat;
    var d := PlusTable(c, cells, counts);
    BagAll(c);
    BagAll(d);
    assert InputSlots(d) == InputSlots(c) && ConstSlots(d) == ConstSlots(c);
    assert TableSlots(d.tables) == TableSlots(c.tables) + [SourceSlots(cells)];
    ConcatLast(TableSlots(c.tables), SourceSlots(cells));
    BagAppend(Concat(TableSlots(c.tables)), SourceSlots(cells));
    Sum4(Bag(InputSlots(c)), Bag(ConstSlots(c)), Bag(Concat(TableSlots(c.tables))), Bag(Concat(InstrSlots(c.instrs))), Bag(SourceSlots(cells)));
  }

  lemma AddInput(c: Code, consts: map<Cell, nat>, acc: multiset<Slot>, kind: nat)
    requires Good(c, consts, acc)
    ensures Good(PlusInput(c, kind), consts, acc + multiset{Slot(|c.counts|, true)})
  {
    hide InstrBuilt, AllSlots, Bag, Tallied, ConstsOk, AllValid, TablesIn;
    TallyAlloc(c.counts, acc);
    TablesInMono(c.tables, |c.counts|, |c.counts| + 1);
    Unchanged(c, PlusInput(c, kind));
    BagInput(c, kind);
  }

  lemma AddConst(c: Code, consts: map<Cell, nat>, acc: multiset<Slot>, v: Cell)
    requires Good(c, consts, acc) && v !in consts
    ensures Good(PlusConst(c, v), consts[v := |c.counts|], acc + multiset{Slot(|c.counts|, true)})
  {
    hide InstrBuilt, AllSlots, Bag, Tallied, ConstsOk, AllValid, TablesIn;
    TallyAlloc(c.counts, acc);
    TablesInMono(c.tables, |c.counts|, |c.counts| + 1);
    ConstsAppend(consts, c.consts, |c.counts|, v);
    Unchanged(c, PlusConst(c, v));
    BagConst(c, v);
  }

  lemma AddTable(c: Code, consts: map<Cell, nat>, acc: multiset<Slot>, cells: seq<nat>, counts: seq<nat>)
    requires Good(c, consts, acc) && |counts| == |c.counts| && (forall i :: 0 <= i < |cells| ==> cells[i] < |counts|)
    requires Tallied(counts, acc + Bag(SourceSlots(cells)))
    ensures Good(PlusTable(c, cells, counts), consts, acc + Bag(SourceSlots(cells)))
  {
    hide InstrBuilt, AllSlots, Bag, Tallied, ConstsOk, AllValid, SourceSlots;
    Unchanged(c, PlusTable(c, cells, counts));
    BagTable(c, cells, counts);
  }

  lemma GoodTallied(c: Code, consts: map<Cell, nat>, acc: multiset<Slot>)
    requires Good(c, consts, acc)
    ensures Tallied(c.counts, acc)
  {
    hide InstrBuilt, AllSlots, ConstsOk, AllValid, TablesIn;
  }

  lemma ReadStep(cells: seq<nat>, i: nat, acc: multiset<Slot>)
    requires i < |cells|
    ensures acc + Bag(SourceSlots(cells[..i + 1])) == acc + Bag(SourceSlots(cells[..i])) + multiset{Slot(cells[i], false)}
  {
    assert SourceSlots(cells[..i + 1]) == SourceSlots(cells[..i]) + [Slot(cells[i], false)];
  }

  lemma ReadNone(cells: seq<nat>, acc: multiset<Slot>)
    ensures acc + Bag(SourceSlots(cells[..0])) == acc && cells[..|cells|] == cells
  {
  }

  lemma ConstAddress(c: Code, consts: map<Cell, nat>, acc: multiset<Slot>, v: Cell)
    requires Good(c, consts, acc) && v in consts
    ensures HasConst(c.consts, ConstCell(consts[v], v)) && consts[v] < |c.counts|
  {
    hide InstrBuilt, Slots, Built;
    GoodBuilt(c, consts, acc);
    BuiltInRange(c);
  }

  // ---- recording an instruction ----

  function PlusInstr(c: Code, i: Instr, counts: seq<nat>): Code {
    Code(c.inputs, c.consts, c.tables, c.instrs + [i], counts)
  }

  lemma RecordPlain(c: Code, consts: map<Cell, nat>, acc: multiset<Slot>, i: Instr, counts: seq<nat>, acc': multiset<Slot>)
    requires Good(c, consts, acc) && Fresh(c, [], i, counts) && Tallied(counts, acc')
    requires acc' == acc + Bag(Slots(i))
    ensures Good(PlusInstr(c, i, counts), consts, acc')
  {
    hide Good, Fresh, Tallied, Slots, Valid;
    GoodConsts(c, consts, acc);
    assert c.consts + [] == c.consts;
    assert ExtraBag([]) == multiset{};
    Record(c, consts, acc, [], consts, i, counts, acc');
  }

  lemma GoodConsts(c: Code, consts: map<Cell, nat>, acc: multiset<Slot>)
    requires Good(c, consts, acc)
    ensures ConstsOk(consts, c.consts)
  {
    hide InstrBuilt, AllSlots, ConstsOk, AllValid, TablesIn;
  }

  /** An E6 instruction over existing cells, writing new ones. */
  predicate OpBelow(op: E.Op, below: nat, above: nat) {
    && E.ValidOp(op) && below <= above
    && match op
       case Mul(a, b, out) => a < below && b < below && out < above
       case Add(a, b, out) => a < below && b < below && out < above
       case Sub(a, b, out) => a < below && b < below && out < above
       case Div(n, d, out) => n < below && d < below && out < above
       case Eq(a, b) => a < below && b < below
       case Horner(y, coeffs, out) => y < below && (forall a :: a in coeffs ==> a < below) && out < above
       case Chain(init, xs, ys, outs) =>
         && init < below && (forall a :: a in xs ==> a < below) && (forall a :: a in ys ==> a < below)
         && (forall a :: a in outs ==> below <= a < above)
  }

  lemma OpFresh(c: Code, op: E.Op, counts: seq<nat>)
    requires OpBelow(op, |c.counts|, |counts|)
    ensures Fresh(c, [], E6(op), counts)
  {
    forall mem: Memory | |mem| == |counts| ensures InBounds(E6(op), mem) {
      match op
      case Horner(_, coeffs, _) => AllBelow(coeffs, mem);
      case Chain(_, xs, ys, outs) => AllBelow(xs, mem); AllBelow(ys, mem); AllBelow(outs, mem);
      case _ =>
    }
  }

  lemma AllBelow(src: seq<nat>, mem: Memory)
    requires forall a :: a in src ==> a < |mem|
    ensures InMemory(src, mem)
  {
    forall i | 0 <= i < |src| ensures src[i] < |mem| { assert src[i] in src; }
  }

  lemma Sum3(acc: multiset<Slot>, x: Slot, y: Slot, z: Slot)
    ensures acc + multiset{x} + multiset{y} + multiset{z} == acc + multiset{x, y, z}
    ensures acc + multiset{x} + multiset{y} == acc + multiset{x, y}
  {
  }

  lemma RecordOp(c: Code, consts: map<Cell, nat>, acc: multiset<Slot>, op: E.Op, counts: seq<nat>, acc': multiset<Slot>)
    requires Good(c, consts, acc) && OpBelow(op, |c.counts|, |counts|) && Tallied(counts, acc')
    requires acc' == acc + Bag(E.Slots(op))
    ensures Good(PlusInstr(c, E6(op), counts), consts, acc')
  {
    hide Good, Tallied, OpBelow, E.Slots;
    OpFresh(c, op, counts);
    FreshValid(c, [], E6(op), counts);
    RecordPlain(c, consts, acc, E6(op), counts, acc');
  }

  // ---- the accesses of one-row operations ----

  lemma ConcatOne<T>(s: seq<T>)
    ensures Concat([s]) == s
  {
    assert [s][..0] == [];
    assert Concat([s]) == Concat([s][..0]) + s;
  }

  lemma OneLine(op: E.Op, l: E.Line)
    requires E.ValidOp(op) && E.Lines(op) == [l]
    ensures E.Slots(op) == E.LineSlots(l)
  {
    assert E.LinesSlots([l]) == [E.LineSlots(l)];
    ConcatOne(E.LineSlots(l));
  }

  lemma ThreeSlots(l: E.Line)
    requires l.a.Some? && l.b.Some? && l.o.Some?
    ensures Bag(E.LineSlots(l)) == multiset{l.a.value, l.b.value, l.o.value}
  {
    assert E.LineSlots(l) == [l.a.value, l.b.value, l.o.value];
  }

  lemma TwoSlots(l: E.Line)
    requires l.a.Some? && l.b.None? && l.o.Some?
    ensures Bag(E.LineSlots(l)) == multiset{l.a.value, l.o.value}
  {
    assert E.LineSlots(l) == [l.a.value, l.o.value];
  }

  lemma OpBag(op: E.Op)
    requires op.Mul? || op.Add? || op.Sub? || op.Div? || op.Eq?
    ensures op.Mul? || op.Add? || op.Sub? ==> Bag(E.Slots(op)) == multiset{Slot(op.a, false), Slot(op.b, false), Slot(op.out, true)}
    ensures op.Div? ==> Bag(E.Slots(op)) == multiset{Slot(op.d, false), Slot(op.out, true), Slot(op.n, false)}
    ensures op.Eq? ==> Bag(E.Slots(op)) == multiset{Slot(op.a, false), Slot(op.b, false)}
  {
    hide E.LineSlots;
    var l := E.Lines(op)[0];
    OneLine(op, l);
    if op.Eq? { TwoSlots(l); } else { ThreeSlots(l); }
  }

  // ---- Horner and MulAddChain ----

  lemma ConcatStep<T>(ss: seq<seq<T>>, i: nat)
    requires i < |ss|
    ensures Concat(ss[..i + 1]) == Concat(ss[..i]) + ss[i]
  {
    assert ss[..i + 1] == ss[..i] + [ss[i]];
    ConcatLast(ss[..i], ss[i]);
  }

  /** The accesses of the first i rows of an operation. */
  ghost function LinesBag(op: E.Op, i: nat): multiset<Slot>
    requires E.ValidOp(op) && i <= |E.Lines(op)|
  { Bag(Concat(E.LinesSlots(E.Lines(op))[..i])) }

  lemma LinesBagStep(op: E.Op, i: nat)
    requires E.ValidOp(op) && i < |E.Lines(op)|
    ensures LinesBag(op, i + 1) == LinesBag(op, i) + Bag(E.LineSlots(E.Lines(op)[i]))
  {
    hide E.LineSlots, E.Lines;
    var ss := E.LinesSlots(E.Lines(op));
    ConcatStep(ss, i);
    BagAppend(Concat(ss[..i]), ss[i]);
  }

  lemma LinesBagEnds(op: E.Op)
    requires E.ValidOp(op)
    ensures LinesBag(op, 0) == multiset{} && LinesBag(op, |E.Lines(op)|) == Bag(E.Slots(op))
  {
    hide E.LineSlots, E.Lines;
    var ss := E.LinesSlots(E.Lines(op));
    assert ss[..|ss|] == ss && ss[..0] == [];
  }

  function When(b: bool, s: Slot): multiset<Slot> { if b then multiset{s} else multiset{} }

  /** Row i of Horner reads its coefficient, then y on every row but the first; the last
      row's write is counted when its cell is allocated. */
  lemma HornerBagStep(op: E.Op, i: nat, acc: multiset<Slot>, now: multiset<Slot>)
    requires op.Horner? && E.ValidOp(op) && i < |op.coeffs| && now == acc + LinesBag(op, i)
    ensures now + multiset{Slot(op.coeffs[i], false)} + When(i > 0, Slot(op.y, false)) + When(i == |op.coeffs| - 1, Slot(op.out, true))
         == acc + LinesBag(op, i + 1)
  {
    hide LinesBag, Bag, E.LineSlots, E.Lines, When;
    HornerLineAt(op, i);
    LinesBagStep(op, i);
    var x, y, z := multiset{Slot(op.coeffs[i], false)}, When(i > 0, Slot(op.y, false)), When(i == |op.coeffs| - 1, Slot(op.out, true));
    Regroup(acc, LinesBag(op, i), x, y, z);
  }

  lemma HornerLineAt(op: E.Op, i: nat)
    requires op.Horner? && E.ValidOp(op) && i < |op.coeffs|
    ensures |E.Lines(op)| == |op.coeffs|
    ensures Bag(E.LineSlots(E.Lines(op)[i]))
         == multiset{Slot(op.coeffs[i], false)} + When(i > 0, Slot(op.y, false)) + When(i == |op.coeffs| - 1, Slot(op.out, true))
  {
    var l := E.HornerLine(op, i);
    assert E.Lines(op)[i] == l;
    assert E.LineSlots(l) == (if i > 0 then [Slot(op.y, false)] else []) + [Slot(op.coeffs[i], false)]
                           + if i == |op.coeffs| - 1 then [Slot(op.out, true)] else [];
  }

  lemma Regroup(acc: multiset<Slot>, b: multiset<Slot>, x: multiset<Slot>, y: multiset<Slot>, z: multiset<Slot>)
    ensures acc + b + x + y + z == acc + (b + (x + y + z))
  {
  }

  lemma ChainBagStep(op: E.Op, i: nat, acc: multiset<Slot>, now: multiset<Slot>)
    requires op.Chain? && E.ValidOp(op) && i < |op.xs| && now == acc + LinesBag(op, i + 1)
    ensures now + multiset{Slot(op.xs[i], false)} + multiset{Slot(op.ys[i], false)} + multiset{Slot(op.outs[i], true)}
         == acc + LinesBag(op, i + 2)
  {
    LinesBagStep(op, i + 1);
    var l := E.ChainLine(op, i + 1);
    assert E.Lines(op)[i + 1] == l;
    ThreeSlots(l);
    hide LinesBag, E.LineSlots, E.Lines;
    Sum3(now, Slot(op.xs[i], false), Slot(op.ys[i], false), Slot(op.outs[i], true));
    assert multiset{l.a.value, l.b.value, l.o.value} == multiset{Slot(op.xs[i], false), Slot(op.ys[i], false), Slot(op.outs[i], true)};
  }

  lemma ChainBagStart(op: E.Op, acc: multiset<Slot>)
    requires op.Chain? && E.ValidOp(op)
    ensures acc + multiset{Slot(op.init, false)} == acc + LinesBag(op, 1)
  {
    hide LinesBag, Bag, E.LineSlots, E.Lines;
    FirstLine(op);
    LinesBagStep(op, 0);
    LinesBagEnds(op);
    BagOne(Slot(op.init, false));
  }

  lemma FirstLine(op: E.Op)
    requires op.Chain? && E.ValidOp(op)
    ensures |E.Lines(op)| == |op.xs| + 1 && E.LineSlots(E.Lines(op)[0]) == [Slot(op.init, false)]
  {
    assert E.Lines(op)[0] == E.ChainLine(op, 0);
  }

  // ---- Bits ----

  ghost function BitsBag(b: Bt.Inst, i: nat): multiset<Slot>
    requires Bt.Valid(b) && i <= b.n
  { multiset{Slot(b.v, false)} + Bag(Concat(Bt.WriteSlots(b)[..i])) }

  lemma BitsBagStep(b: Bt.Inst, i: nat, acc: multiset<Slot>)
    requires Bt.Valid(b) && i < b.n
    ensures acc + BitsBag(b, i + 1) == acc + BitsBag(b, i) + multiset{Slot(b.shr[i], true)} + multiset{Slot(b.bit[i], true)}
  {
    var ss := Bt.WriteSlots(b);
    ConcatStep(ss, i);
    BagAppend(Concat(ss[..i]), ss[i]);
    assert ss[i] == [Slot(b.shr[i], true), Slot(b.bit[i], true)];
    assert Bag(ss[i]) == multiset{Slot(b.shr[i], true), Slot(b.bit[i], true)};
    hide Bt.WriteSlots;
  }

  lemma BitsBagEnds(b: Bt.Inst, acc: multiset<Slot>)
    requires Bt.Valid(b)
    ensures acc + multiset{Slot(b.v, false)} == acc + BitsBag(b, 0)
    ensures BitsBag(b, b.n) == Bag(Bt.Slots(b))
  {
    var ss := Bt.WriteSlots(b);
    assert ss[..b.n] == ss && ss[..0] == [];
    BagAppend(Bt.ReadSlot(b), Concat(ss));
    BagOne(Slot(b.v, false));
  }

  predicate BitsBelow(b: Bt.Inst, below: nat, above: nat) {
    && Bt.Valid(b) && below <= above && b.v < below
    && (forall a :: a in b.shr ==> a < above) && (forall a :: a in b.bit ==> a < above)
  }

  lemma RecordBits(c: Code, consts: map<Cell, nat>, acc: multiset<Slot>, b: Bt.Inst, counts: seq<nat>, acc': multiset<Slot>)
    requires Good(c, consts, acc) && BitsBelow(b, |c.counts|, |counts|) && Tallied(counts, acc')
    requires acc' == acc + Bag(Bt.Slots(b))
    ensures Good(PlusInstr(c, Bits(b), counts), consts, acc')
  {
    hide Good, Tallied, Bt.Slots;
    forall mem: Memory | |mem| == |counts| ensures InBounds(Bits(b), mem) { AllBelow(b.shr, mem); AllBelow(b.bit, mem); }
    RecordPlain(c, consts, acc, Bits(b), counts, acc');
  }

  // ---- the other instructions ----

  lemma RecordSelect(c: Code, consts: map<Cell, nat>, acc: multiset<Slot>, s: Sel.Select, counts: seq<nat>, acc': multiset<Slot>)
    requires Good(c, consts, acc) && Tallied(counts, acc')
    requires s.bit < |c.counts| && s.a < |c.counts| && s.b < |c.counts| && s.out < |counts| && |c.counts| <= |counts|
    requires acc' == acc + multiset{Slot(s.bit, false)} + multiset{Slot(s.a, false)} + multiset{Slot(s.b, false)} + multiset{Slot(s.out, true)}
    ensures Good(PlusInstr(c, Select(s), counts), consts, acc')
  {
    hide Good, Tallied, Bag, Sel.Slots;
    SelectBag(s);
    SumOf4(acc, Slot(s.bit, false), Slot(s.a, false), Slot(s.b, false), Slot(s.out, true));
    RecordPlain(c, consts, acc, Select(s), counts, acc');
  }

  lemma SelectBag(s: Sel.Select)
    ensures Bag(Sel.Slots(s)) == multiset{Slot(s.bit, false), Slot(s.a, false), Slot(s.b, false), Slot(s.out, true)}
  {
  }

  lemma SumOf4(acc: multiset<Slot>, x: Slot, y: Slot, z: Slot, u: Slot)
    ensures acc + multiset{x} + multiset{y} + multiset{z} + multiset{u} == acc + multiset{x, y, z, u}
  {
  }

  lemma RecordLookup(c: Code, consts: map<Cell, nat>, acc: multiset<Slot>, l: Tb.Lookup, counts: seq<nat>, acc': multiset<Slot>)
    requires Good(c, consts, acc) && Tallied(counts, acc')
    requires l.idx < |c.counts| && l.out < |counts| && |c.counts| <= |counts|
    requires l.table.tag < |c.tables| && c.tables[l.table.tag] == l.table.src
    requires acc' == acc + multiset{Slot(l.idx, false)} + multiset{Slot(l.out, true)}
    ensures Good(PlusInstr(c, Lookup(l), counts), consts, acc')
  {
    hide Good, Tallied, Bag, Tb.Slots;
    TableBelow(c, consts, acc, l.table);
    LookupBag(l);
    Sum3(acc, Slot(l.idx, false), Slot(l.out, true), Slot(0, true));
    RecordPlain(c, consts, acc, Lookup(l), counts, acc');
  }

  lemma LookupBag(l: Tb.Lookup)
    ensures Bag(Tb.Slots(l)) == multiset{Slot(l.idx, false), Slot(l.out, true)}
  {
  }

  lemma TableBelow(c: Code, consts: map<Cell, nat>, acc: multiset<Slot>, t: Table)
    requires Good(c, consts, acc) && t.tag < |c.tables| && c.tables[t.tag] == t.src
    ensures forall i :: 0 <= i < |t.src| ==> t.src[i] < |c.counts|
  {
    hide InstrBuilt, AllSlots, ConstsOk, AllValid, Tallied;
  }

  lemma RecordLanes(c: Code, consts: map<Cell, nat>, acc: multiset<Slot>, l: Pk.LaneCopy, counts: seq<nat>, acc': multiset<Slot>)
    requires Good(c, consts, acc) && Tallied(counts, acc') && Pk.ValidCopy(l)
    requires l.src < |c.counts| && l.out < |counts| && |c.counts| <= |counts|
    requires acc' == acc + multiset{Slot(l.out, true)} + multiset{Slot(l.src, false)}
    ensures Good(PlusInstr(c, Lanes(l), counts), consts, acc')
  {
    hide Good, Tallied, Bag, Win.RowSlots;
    LanesBag(l);
    Sum3(acc, Slot(l.out, true), Slot(l.src, false), Slot(0, true));
    RecordPlain(c, consts, acc, Lanes(l), counts, acc');
  }

  lemma LanesBag(l: Pk.LaneCopy)
    requires Pk.ValidCopy(l)
    ensures Bag(Win.RowSlots(Pk.CopyWindow(l))) == multiset{Slot(l.out, true), Slot(l.src, false)}
  {
    assert Win.RowSlots(Pk.CopyWindow(l)) == [Slot(l.src, false), Slot(l.out, true)];
  }

  lemma RecordMD(c: Code, consts: map<Cell, nat>, acc: multiset<Slot>, h: Md.Hash, counts: seq<nat>, acc': multiset<Slot>)
    requires Good(c, consts, acc) && Tallied(counts, acc') && h.blocks != []
    requires h.init < |c.counts| && (forall i :: 0 <= i < |h.blocks| ==> h.blocks[i] < |c.counts|) && h.out < |counts| && |c.counts| <= |counts|
    requires acc' == acc + multiset{Slot(h.init, false)} + Bag(SourceSlots(h.blocks)) + multiset{Slot(h.out, true)}
    ensures Good(PlusInstr(c, MD(h), counts), consts, acc')
  {
    hide Good, Tallied, Bag, Md.Slots, SourceSlots;
    MDBag(h, acc);
    RecordPlain(c, consts, acc, MD(h), counts, acc');
  }

  lemma MDBag(h: Md.Hash, acc: multiset<Slot>)
    ensures acc + multiset{Slot(h.init, false)} + Bag(SourceSlots(h.blocks)) + multiset{Slot(h.out, true)} == acc + Bag(Md.Slots(h))
  {
    hide Bag;
    assert Md.BlockSlots(h) == SourceSlots(h.blocks);
    var ends := [Slot(h.init, false), Slot(h.out, true)];
    BagAppend(ends, SourceSlots(h.blocks));
    BagTwo(Slot(h.init, false), Slot(h.out, true));
    Around(acc, Slot(h.init, false), Bag(SourceSlots(h.blocks)), Slot(h.out, true));
  }

  lemma BagTwo(x: Slot, y: Slot)
    ensures Bag([x, y]) == multiset{x, y}
  {
  }

  lemma Around(acc: multiset<Slot>, x: Slot, b: multiset<Slot>, y: Slot)
    ensures acc + multiset{x} + b + multiset{y} == acc + (multiset{x, y} + b)
  {
  }

  // ---- paths ----

  function Ops(p: Mp.Path): (r: seq<nat>)
    ensures |r| == |p.steps|
  { seq(|p.steps|, k requires 0 <= k < |p.steps| => p.steps[k].op) }

  predicate PathBelow(p: Mp.Path, below: nat, above: nat) {
    && below <= above && p.leaf < below && p.index < below && p.root < below
    && (forall k :: 0 <= k < |p.steps| ==> p.steps[k].op < below) && (p.gens.Some? ==> p.xb < above)
  }

  lemma PathBag(p: Mp.Path, acc: multiset<Slot>)
    ensures acc + multiset{Slot(p.leaf, false)} + multiset{Slot(p.index, false)} + multiset{Slot(p.root, false)}
              + Bag(SourceSlots(Ops(p))) + When(p.gens.Some?, Slot(p.xb, true))
         == acc + Bag(Mp.Slots(p))
  {
    hide Bag, When;
    assert Mp.StepSlots(p) == SourceSlots(Ops(p));
    BagAppend(Mp.EndSlots(p), SourceSlots(Ops(p)));
    EndsBag(p);
    Five(acc, Slot(p.leaf, false), Slot(p.index, false), Slot(p.root, false), Bag(SourceSlots(Ops(p))), When(p.gens.Some?, Slot(p.xb, true)));
  }

  lemma EndsBag(p: Mp.Path)
    ensures Bag(Mp.EndSlots(p)) == multiset{Slot(p.leaf, false), Slot(p.index, false), Slot(p.root, false)} + When(p.gens.Some?, Slot(p.xb, true))
  {
    var head := [Slot(p.leaf, false), Slot(p.index, false), Slot(p.root, false)];
    var tail := if p.gens.Some? then [Slot(p.xb, true)] else [];
    assert Mp.EndSlots(p) == head + tail;
    BagAppend(head, tail);
  }

  lemma Five(acc: multiset<Slot>, x: Slot, y: Slot, z: Slot, b: multiset<Slot>, w: multiset<Slot>)
    ensures acc + multiset{x} + multiset{y} + multiset{z} + b + w == acc + (multiset{x, y, z} + w + b)
  {
  }

  lemma RecordPath(c: Code, consts: map<Cell, nat>, acc: multiset<Slot>, p: Mp.Path, counts: seq<nat>, acc': multiset<Slot>)
    requires Good(c, consts, acc) && Tallied(counts, acc') && Mp.WellFormed(p) && p.steps != [] && PathBelow(p, |c.counts|, |counts|)
    requires acc' == acc + Bag(Mp.Slots(p))
    ensures Good(PlusInstr(c, Path(p), counts), consts, acc')
  {
    hide Good, Tallied, Bag, Mp.Slots, Mp.WellFormed;
    RecordPlain(c, consts, acc, Path(p), counts, acc');
  }

  predicate TableOf(tables: seq<seq<nat>>, t: Table) { t.tag < |tables| && tables[t.tag] == t.src }

  lemma RecordDPath(c: Code, consts: map<Cell, nat>, acc: multiset<Slot>, p: Dp.DynamicPath, counts: seq<nat>, acc': multiset<Slot>)
    requires Good(c, consts, acc) && Tallied(counts, acc') && ValidDPath(p) && |counts| == |c.counts|
    requires TableOf(c.tables, p.leaves) && TableOf(c.tables, p.heights) && TableOf(c.tables, p.order) && TableOf(c.tables, p.siblings)
    requires p.index < |c.counts| && p.root < |c.counts|
    requires acc' == acc + multiset{Slot(p.index, false)} + multiset{Slot(p.root, false)}
    ensures Good(PlusInstr(c, DPath(p), counts), consts, acc')
  {
    hide Good, Tallied, Bag;
    TableBelow(c, consts, acc, p.leaves);
    TableBelow(c, consts, acc, p.heights);
    TableBelow(c, consts, acc, p.order);
    TableBelow(c, consts, acc, p.siblings);
    BagTwo(Slot(p.index, false), Slot(p.root, false));
    Sum3(acc, Slot(p.index, false), Slot(p.root, false), Slot(0, true));
    RecordPlain(c, consts, acc, DPath(p), counts, acc');
  }

  // ---- Pack ----

  function WindowsBag(ws: seq<Win.Window>): multiset<Slot> { Bag(Concat(Pk.WindowSlots(ws))) }

  lemma WindowsBagAppend(a: seq<Win.Window>, b: seq<Win.Window>)
    ensures WindowsBag(a + b) == WindowsBag(a) + WindowsBag(b)
  {
    hide Win.RowSlots, Bag;
    assert Pk.WindowSlots(a + b) == Pk.WindowSlots(a) + Pk.WindowSlots(b);
    ConcatAppend(Pk.WindowSlots(a), Pk.WindowSlots(b));
    BagAppend(Concat(Pk.WindowSlots(a)), Concat(Pk.WindowSlots(b)));
  }

  lemma {:induction false} ConcatAppend<T>(a: seq<seq<T>>, b: seq<seq<T>>)
    ensures Concat(a + b) == Concat(a) + Concat(b)
    decreases b
  {
    if b == [] {
      assert a + b == a;
    } else {
      var n := |b| - 1;
      ConcatAppend(a, b[..n]);
      assert a + b == (a + b[..n]) + [b[n]];
      ConcatLast(a + b[..n], b[n]);
    }
  }

  lemma WindowsBagOne(w: Win.Window)
    ensures WindowsBag([w]) == Bag(Win.RowSlots(w)) && WindowsBag([]) == multiset{}
  {
    assert Pk.WindowSlots([w]) == [Win.RowSlots(w)];
    ConcatOne(Win.RowSlots(w));
    assert Pk.WindowSlots([]) == [];
  }

  /** The reads of a window row, its item first. */
  function WindowReads(w: Win.Window): multiset<Slot> {
    When(!w.item.write, w.item) + multiset{Slot(w.p, false)} + When(w.q.Some?, Slot(if w.q.Some? then w.q.value else 0, false))
  }

  lemma RowBag(w: Win.Window)
    ensures Bag(Win.RowSlots(w)) == WindowReads(w) + When(w.item.write, w.item)
  {
    var head, tail := [Slot(w.p, false), w.item], if w.q.Some? then [Slot(w.q.value, false)] else [];
    BagAppend(head, tail);
    BagTwo(Slot(w.p, false), w.item);
  }

  /** A pack's accesses: its stream's writes, and its window rows in three groups. */
  lemma PackBag(p: Pk.Pack)
    requires Pk.Valid(p)
    ensures Bag(Pk.Slots(p)) == Bag(Pk.HintSlots(p)) + (WindowsBag(Pk.StartWindows(p)) + WindowsBag(Pk.ItemWindows(p)) + WindowsBag(Pk.LastWindows(p)))
  {
    hide Bag, Pk.HintSlots, Pk.WindowSlots, Pk.StartWindows, Pk.ItemWindows, Pk.LastWindows;
    BagAppend(Pk.HintSlots(p), Concat(Pk.WindowSlots(Pk.Windows(p))));
    WindowsBagAppend(Pk.StartWindows(p), Pk.ItemWindows(p));
    WindowsBagAppend(Pk.StartWindows(p) + Pk.ItemWindows(p), Pk.LastWindows(p));
  }

  predicate PackBelow(p: Pk.Pack, below: nat, above: nat) {
    && below <= above && (forall a :: a in p.items ==> a < below) && (forall a :: a in p.stream ==> a < above)
    && (p.last.Some? ==> p.last.value < above) && p.zero < above
  }

  lemma PackFresh(c: Code, extra: seq<ConstCell>, p: Pk.Pack, counts: seq<nat>)
    requires Pk.Valid(p) && PackBelow(p, |c.counts|, |counts|) && HasConst(c.consts + extra, ConstCell(p.zero, ZeroCell))
    ensures Fresh(c, extra, Pack(p), counts)
  {
    hide Pk.Valid;
    forall mem: Memory | |mem| == |counts| ensures InBounds(Pack(p), mem) { AllBelow(p.items, mem); AllBelow(p.stream, mem); }
  }

  lemma ConstsBelow(c: Code, consts: map<Cell, nat>, acc: multiset<Slot>)
    requires Good(c, consts, acc)
    ensures forall i :: 0 <= i < |c.consts| ==> c.consts[i].addr < |c.counts|
  {
    hide Good, Built;
    GoodBuilt(c, consts, acc);
    BuiltInRange(c);
  }

  lemma HintStep(base: nat, i: nat, acc: multiset<Slot>, hints: seq<Slot>)
    requires i < |hints| && hints[i] == Slot(base + i, true)
    ensures acc + Bag(hints[..i + 1]) == acc + Bag(hints[..i]) + multiset{Slot(base + i, true)}
  {
    assert hints[..i + 1] == hints[..i] + [hints[i]];
  }

  /** The window rows whose reads are counted, in order. */
  lemma ItemsStep(p: Pk.Pack, i: nat, acc: multiset<Slot>)
    requires Pk.Valid(p) && i < |p.items|
    ensures acc + WindowsBag(Pk.ItemWindows(p)[..i + 1]) == acc + WindowsBag(Pk.ItemWindows(p)[..i]) + WindowReads(Pk.ItemWindow(p, i))
  {
    hide Pk.Valid, Pk.ItemWindow, WindowReads, Bag, WindowsBag;
    var ws, w := Pk.ItemWindows(p), Pk.ItemWindow(p, i);
    assert ws[..i + 1] == ws[..i] + [w];
    WindowsBagAppend(ws[..i], [w]);
    WindowsBagOne(w);
    RowBag(w);
    ItemIsRead(p, i);
    Plus(acc, WindowsBag(ws[..i]), WindowReads(w));
  }

  lemma ItemIsRead(p: Pk.Pack, i: nat)
    requires Pk.Valid(p) && i < |p.items|
    ensures !Pk.ItemWindow(p, i).item.write
  {
  }

  lemma Plus(a: multiset<Slot>, b: multiset<Slot>, x: multiset<Slot>)
    ensures a + (b + x) == a + b + x
    ensures a + (b + (x + multiset{})) == a + b + x
  {
  }

  lemma ItemsEnds(p: Pk.Pack, acc: multiset<Slot>)
    requires Pk.Valid(p)
    ensures acc + WindowsBag(Pk.ItemWindows(p)[..0]) == acc && Pk.ItemWindows(p)[..|p.items|] == Pk.ItemWindows(p)
  {
    hide Pk.Valid;
    assert Pk.ItemWindows(p)[..0] == [];
    assert Pk.WindowSlots([]) == [];
  }

  lemma StartBag(p: Pk.Pack, acc: multiset<Slot>)
    requires Pk.Valid(p)
    ensures p.start > 0 ==> acc + WindowsBag(Pk.StartWindows(p)) == acc + WindowReads(Pk.StartWindows(p)[0])
    ensures p.start == 0 ==> acc + WindowsBag(Pk.StartWindows(p)) == acc
  {
    hide Pk.Valid, Bag, WindowReads, Win.WindowAt;
    if p.start > 0 {
      var w := Pk.StartWindows(p)[0];
      assert Pk.StartWindows(p) == [w];
      WindowsBagOne(w);
      RowBag(w);
      StartIsRead(p);
      Plus(acc, multiset{}, WindowReads(w));
    } else {
      WindowsBagOne(Win.Window(0, None, Slot(0, false), 0, 1));
    }
  }

  lemma StartIsRead(p: Pk.Pack)
    requires Pk.Valid(p) && p.start > 0
    ensures !Pk.StartWindows(p)[0].item.write
  {
  }

  lemma LastBag(p: Pk.Pack, acc: multiset<Slot>)
    requires Pk.Valid(p)
    ensures p.last.None? ==> acc + WindowsBag(Pk.LastWindows(p)) == acc
    ensures p.last.Some? ==> |Pk.LastWindows(p)| == 2
    ensures p.last.Some? ==> (
      acc + WindowsBag(Pk.LastWindows(p))
        == acc + WindowReads(Pk.LastWindows(p)[0]) + WindowReads(Pk.LastWindows(p)[1]) + multiset{Slot(p.last.value, true)})
  {
    hide Pk.Valid, Bag, WindowReads, Win.WindowAt;
    if p.last.Some? {
      var v, w := Pk.LastWindows(p)[0], Pk.LastWindows(p)[1];
      assert Pk.LastWindows(p) == [v] + [w];
      WindowsBagAppend([v], [w]);
      WindowsBagOne(v);
      WindowsBagOne(w);
      RowBag(v);
      RowBag(w);
      LastItems(p);
      PlusThree(acc, WindowReads(v), WindowReads(w), multiset{Slot(p.last.value, true)});
    } else {
      WindowsBagOne(Win.Window(0, None, Slot(0, false), 0, 1));
    }
  }

  lemma PlusThree(a: multiset<Slot>, x: multiset<Slot>, y: multiset<Slot>, z: multiset<Slot>)
    ensures a + ((x + multiset{}) + (y + z)) == a + x + y + z
  {
  }

  lemma LastItems(p: Pk.Pack)
    requires Pk.Valid(p) && p.last.Some?
    ensures !Pk.LastWindows(p)[0].item.write && Pk.LastWindows(p)[1].item == Slot(p.last.value, true)
  {
  }

  predicate WindowBelow(w: Win.Window, n: nat) { w.p < n && w.item.addr < n && (w.q.Some? ==> w.q.value < n) }

  /** Every window of a pack is over its cells. */
  lemma WindowsBelow(p: Pk.Pack, n: nat)
    requires Pk.Valid(p) && PackBelow(p, n, n)
    ensures p.start > 0 ==> WindowBelow(Pk.StartWindows(p)[0], n)
    ensures forall i :: 0 <= i < |p.items| ==> WindowBelow(Pk.ItemWindow(p, i), n)
    ensures forall i :: 0 <= i < |Pk.LastWindows(p)| ==> WindowBelow(Pk.LastWindows(p)[i], n)
  {
    hide Pk.Offset, WindowBelow;
    Pk.ItemFits(p, 0);
    OffsetZero(p);
    if p.start > 0 { WindowAtBelow(p.stream, 0, p.start, Slot(p.zero, false), n); }
    forall i | 0 <= i < |p.items| ensures WindowBelow(Pk.ItemWindow(p, i), n) {
      Pk.ItemFits(p, i);
      assert p.items[i] in p.items;
      WindowAtBelow(p.stream, Pk.Offset(p, i), p.kinds[i], Slot(p.items[i], false), n);
    }
    if p.last.Some? {
      Pk.LastCell(p);
      var t := Pk.Tail(p);
      assert t in p.stream;
      WindowAtBelow([t], Pk.Rem(p), CellWidth - Pk.Rem(p), Slot(p.zero, false), n);
      WindowAtBelow([t, t], Pk.Rem(p), CellWidth, Slot(p.last.value, true), n);
    }
  }

  lemma OffsetZero(p: Pk.Pack)
    ensures Pk.Offset(p, 0) == p.start
  {
  }

  lemma WindowAtBelow(stream: seq<nat>, g: nat, kind: nat, item: Slot, n: nat)
    requires 1 <= kind && g + kind <= CellWidth * |stream| && (forall a :: a in stream ==> a < n) && item.addr < n && kind <= CellWidth
    ensures WindowBelow(Win.WindowAt(stream, g, kind, item), n)
  {
    var c, off := g / CellWidth, g % CellWidth;
    assert stream[c] in stream;
    if off + kind > CellWidth { assert stream[c + 1] in stream; }
  }

  /** The accesses counted by a pack: its stream and last cells, its constant and its reads. */
  lemma PackTotal(acc: multiset<Slot>, hints: multiset<Slot>, last: multiset<Slot>, extra: multiset<Slot>,
                  a: multiset<Slot>, b: multiset<Slot>, d: multiset<Slot>, now: multiset<Slot>)
    requires now + last == acc + hints + last + extra + a + b + d
    ensures now == acc + extra + (hints + (a + b + d))
  {
    forall s ensures now[s] == (acc + extra + (hints + (a + b + d)))[s] {
      assert (now + last)[s] == (acc + hints + last + extra + a + b + d)[s];
    }
  }
}
