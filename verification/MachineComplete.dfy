/** Machine completeness: a successful, well-typed execution whose assertions hold yields a
    witness that meets every constraint, with the three sums balanced. */
module MachineComplete {
  import opened KoalaBear
  import opened Constraints
  import opened Cells
  import opened Program
  import opened InstrSound
  import opened InstrFrame
  import opened InstrComplete
  import opened MachineSound
  import opened Builder
  import opened WriteOnceRuns
  import opened InstrRecords
  import opened RunRecords
  import B = Bus
  import F = ExtField
  import E = ChipE6
  import Dp = ChipDPath

  // ---- sums whose writes answer their reads ----

  lemma {:induction false} TotalAppend<T>(a: seq<B.Access<T>>, b: seq<B.Access<T>>, t: T)
    ensures B.Total(a + b, t) == B.Total(a, t) + B.Total(b, t)
    decreases b
  {
    if b == [] {
      assert a + b == a;
    } else {
      var n := |b| - 1;
      assert (a + b)[..|a| + n] == a + b[..n];
      TotalAppend(a, b[..n], t);
    }
  }

  /** A write for every active read. */
  function Answers<T>(acc: seq<B.Access<T>>): seq<B.Access<T>> {
    if acc == [] then []
    else
      var last := acc[|acc| - 1];
      Answers(acc[..|acc| - 1]) + if last.mult == -1 then [B.Access(last.tuple, 1, true)] else []
  }

  lemma {:induction false} AnswersBalance<T>(acc: seq<B.Access<T>>, t: T)
    requires forall i :: 0 <= i < |acc| ==> acc[i].mult == 0 || acc[i].mult == -1
    ensures B.Total(Answers(acc), t) == -B.Total(acc, t)
  {
    if acc != [] {
      var n := |acc| - 1;
      AnswersBalance(acc[..n], t);
      if acc[n].mult == -1 {
        var one := [B.Access(acc[n].tuple, 1, true)];
        TotalAppend(Answers(acc[..n]), one, t);
        assert one[..0] == [];
        assert B.Total(one, t) == if acc[n].tuple == t then 1 else 0;
      } else {
        TotalAppend(Answers(acc[..n]), [], t);
      }
    }
  }

  /** Without an active read of it, a tuple's total is zero. */
  lemma {:induction false} NoReads<T>(acc: seq<B.Access<T>>, t: T)
    requires forall i :: 0 <= i < |acc| ==> acc[i].tuple != t || acc[i].mult == 0
    ensures B.Total(acc, t) == 0
  {
    if acc != [] { NoReads(acc[..|acc| - 1], t); }
  }

  // ---- the rows of every instruction ----

  /** Every instruction's rows meet the constraints and agree with the memory. */
  ghost predicate RowsTraced(prims: Prims, c: Code, rows: seq<Rows>, mem: Memory, n: nat) {
    |rows| == n <= |c.instrs| && forall k :: 0 <= k < n ==> RowTraced(prims, c, rows, mem, k)
  }

  ghost predicate RowTraced(prims: Prims, c: Code, rows: seq<Rows>, mem: Memory, k: nat)
    requires k < |rows| <= |c.instrs|
  {
    && Traced(prims, c.tables, c.instrs[k], rows[k], mem)
    && (c.instrs[k].DPath? && rows[k].DPathRows? ==>
          |Dp.Hashes(rows[k].dpath)| <= |c.instrs[k].dpath.siblings.src| + |c.instrs[k].dpath.order.src| - 1)
  }

  /** Instruction k is executed on typed cells, and its assertions hold. */
  ghost predicate Proper(prims: Prims, c: Code, mem: Memory, k: nat)
    requires k < |c.instrs|
  {
    && Executed(prims, c.instrs[k], mem) && Typed(c.instrs[k], mem) && Given(prims, c.instrs[k], mem)
    && TablesMatch(c.tables, TablesOf(c.instrs[k]))
  }

  lemma {:induction false} TraceAll(prims: Prims, c: Code, mem: Memory, n: nat) returns (rows: seq<Rows>)
    requires n <= |c.instrs| && forall k :: 0 <= k < |c.instrs| ==> Proper(prims, c, mem, k)
    ensures RowsTraced(prims, c, rows, mem, n)
  {
    hide *;
    if n == 0 {
      rows := [];
      NoRowsTraced(prims, c, mem);
    } else {
      var prev := TraceAll(prims, c, mem, n - 1);
      var w := TraceOne(prims, c, mem, n - 1);
      rows := prev + [w];
      RowsTracedNext(prims, c, prev, w, mem, n - 1);
    }
  }

  lemma NoRowsTraced(prims: Prims, c: Code, mem: Memory)
    ensures RowsTraced(prims, c, [], mem, 0)
  {
  }

  lemma RowsTracedNext(prims: Prims, c: Code, prev: seq<Rows>, w: Rows, mem: Memory, n: nat)
    requires n < |c.instrs| && RowsTraced(prims, c, prev, mem, n)
    requires Traced(prims, c.tables, c.instrs[n], w, mem)
    requires c.instrs[n].DPath? && w.DPathRows? ==>
      |Dp.Hashes(w.dpath)| <= |c.instrs[n].dpath.siblings.src| + |c.instrs[n].dpath.order.src| - 1
    ensures RowsTraced(prims, c, prev + [w], mem, n + 1)
  {
    hide RowTraced, Traced, Dp.Hashes;
    forall k | 0 <= k < n + 1 ensures RowTraced(prims, c, prev + [w], mem, k) {
      RowsExtend(prims, c, prev, w, mem, k);
    }
  }

  lemma TraceOne(prims: Prims, c: Code, mem: Memory, k: nat) returns (w: Rows)
    requires k < |c.instrs| && Proper(prims, c, mem, k)
    ensures Traced(prims, c.tables, c.instrs[k], w, mem)
    ensures c.instrs[k].DPath? && w.DPathRows? ==>
      |Dp.Hashes(w.dpath)| <= |c.instrs[k].dpath.siblings.src| + |c.instrs[k].dpath.order.src| - 1
  {
    hide Executed, Typed, Given, TablesMatch, Traced, Dp.Hashes;
    w := InstrComplete.InstrComplete(prims, c.tables, c.instrs[k], mem);
  }

  lemma RowsExtend(prims: Prims, c: Code, prev: seq<Rows>, w: Rows, mem: Memory, k: nat)
    requires k <= |prev| < |c.instrs|
    requires k < |prev| ==> RowTraced(prims, c, prev, mem, k)
    requires k == |prev| ==>
      && Traced(prims, c.tables, c.instrs[k], w, mem)
      && (c.instrs[k].DPath? && w.DPathRows? ==>
            |Dp.Hashes(w.dpath)| <= |c.instrs[k].dpath.siblings.src| + |c.instrs[k].dpath.order.src| - 1)
    ensures RowTraced(prims, c, prev + [w], mem, k)
  {
    hide Traced, Dp.Hashes;
  }

  // ---- the entries of the tables sum ----

  lemma {:induction false} BlockTotal(t: nat, es: seq<EntryRow>, x: (nat, int, Cell))
    ensures B.Total(EntryWrites(t, es), x) == if x.0 == t && 0 <= x.1 < |es| && es[x.1].v == x.2 then es[x.1].cnt else 0
  {
    if es != [] {
      var n := |es| - 1;
      BlockTotal(t, es[..n], x);
      assert EntryWrites(t, es)[..n] == EntryWrites(t, es[..n]);
    }
  }

  lemma {:induction false} EntryTotal(w: Witness, n: nat, x: (nat, int, Cell))
    requires n <= |w.entries|
    ensures B.Total(Concat(EntryBlocks(w)[..n]), x) == if x.0 < n && IsEntry(w, x) then w.entries[x.0][x.1].cnt else 0
  {
    if n > 0 {
      var ss := EntryBlocks(w);
      EntryTotal(w, n - 1, x);
      ConcatStep(ss, n - 1);
      TotalAppend(Concat(ss[..n - 1]), ss[n - 1], x);
      BlockTotal(n - 1, w.entries[n - 1], x);
    } else {
      assert EntryBlocks(w)[..0] == [];
    }
  }

  // ---- the witness ----

  ghost function EntriesOf(c: Code, mem: Memory, acc: seq<B.Access<(nat, int, Cell)>>): (r: seq<seq<EntryRow>>)
    requires TablesIn(c.tables, |mem|)
    ensures |r| == |c.tables| && forall t :: 0 <= t < |c.tables| ==> |r[t]| == |c.tables[t]|
  {
    seq(|c.tables|, t requires 0 <= t < |c.tables| => EntryRowsOf(c.tables[t], t, mem, acc))
  }

  ghost function EntryRowsOf(src: seq<nat>, t: nat, mem: Memory, acc: seq<B.Access<(nat, int, Cell)>>): (r: seq<EntryRow>)
    requires forall i :: 0 <= i < |src| ==> src[i] < |mem|
    ensures |r| == |src|
  {
    seq(|src|, i requires 0 <= i < |src| => EntryRow(mem[src[i]], -B.Total(acc, (t, i, mem[src[i]]))))
  }

  function CoreOf(acc: seq<B.Access<(Cell, Cell, Cell)>>): (r: seq<CoreRow>)
    ensures |r| == |acc|
  {
    seq(|acc|, i requires 0 <= i < |acc| => CoreRow(acc[i].tuple.0, acc[i].tuple.1, acc[i].tuple.2, acc[i].mult))
  }

  /** The accesses of the rows alone. */
  ghost function RowReads(c: Code, rows: seq<Rows>): seq<B.Access<(nat, int, Cell)>>
    requires AllValid(c.instrs) && |rows| == |c.instrs| && forall k :: 0 <= k < |rows| ==> Fits(c.instrs[k], rows[k])
  { Concat(seq(|c.instrs|, k requires 0 <= k < |c.instrs| => ReadAll(EntryReads(c.instrs[k], rows[k])))) }

  ghost function RowLookUps(c: Code, rows: seq<Rows>): seq<B.Access<(Cell, Cell, Cell)>>
    requires AllValid(c.instrs) && |rows| == |c.instrs| && forall k :: 0 <= k < |rows| ==> Fits(c.instrs[k], rows[k])
  { Concat(LookUpRows(c, rows, |c.instrs|)) }

  /** The compression lookups of the first n instructions. */
  ghost function LookUpRows(c: Code, rows: seq<Rows>, n: nat): (r: seq<seq<B.Access<(Cell, Cell, Cell)>>>)
    requires AllValid(c.instrs) && n <= |rows| == |c.instrs| && forall k :: 0 <= k < |rows| ==> Fits(c.instrs[k], rows[k])
    ensures |r| == n
  { seq(n, k requires 0 <= k < n => LookUpAll(HashReads(c.instrs[k], rows[k]))) }

  /** The witness of an execution: its inputs, the table entries with their read counts, the
      instructions' rows, and one P2 row per compression looked up. */
  ghost function WitnessOf(c: Code, inputs: seq<Cell>, rows: seq<Rows>, mem: Memory): (w: Witness)
    requires AllValid(c.instrs) && |rows| == |c.instrs| && (forall k :: 0 <= k < |rows| ==> Fits(c.instrs[k], rows[k]))
    requires TablesIn(c.tables, |mem|)
  {
    Witness(inputs, EntriesOf(c, mem, RowReads(c, rows)), rows, CoreOf(Answers(RowLookUps(c, rows))))
  }

  lemma TracedFits(prims: Prims, c: Code, rows: seq<Rows>, mem: Memory)
    requires RowsTraced(prims, c, rows, mem, |c.instrs|)
    ensures AllValid(c.instrs) && |rows| == |c.instrs| && forall k :: 0 <= k < |rows| ==> Fits(c.instrs[k], rows[k])
  {
    hide Valid, Fits, PolyOk, Agree, EntriesOk, HashesOk, EntryReads, HashReads, Slots, Vals, Dp.Hashes;
    forall k | 0 <= k < |c.instrs| ensures Valid(c.instrs[k]) && Fits(c.instrs[k], rows[k]) {
      assert RowTraced(prims, c, rows, mem, k);
    }
  }

  lemma TracedAt(prims: Prims, c: Code, rows: seq<Rows>, mem: Memory, k: nat)
    requires RowsTraced(prims, c, rows, mem, |c.instrs|) && k < |c.instrs|
    ensures |rows| == |c.instrs| && Traced(prims, c.tables, c.instrs[k], rows[k], mem)
  {
    hide Traced, Dp.Hashes;
    assert RowTraced(prims, c, rows, mem, k);
  }

  // ---- the tables sum ----

  /** A read of the rows is inactive, or an entry of its table. */
  lemma ReadIsEntry(prims: Prims, c: Code, rows: seq<Rows>, mem: Memory, inputs: seq<Cell>, x: B.Access<(nat, int, Cell)>)
    requires RowsTraced(prims, c, rows, mem, |c.instrs|) && TablesIn(c.tables, |mem|)
    requires AllValid(c.instrs) && |rows| == |c.instrs| && (forall k :: 0 <= k < |rows| ==> Fits(c.instrs[k], rows[k]))
    requires x in RowReads(c, rows)
    ensures x.mult == 0 || (x.mult == -1 && IsEntry(WitnessOf(c, inputs, rows, mem), x.tuple))
  {
    hide Valid, Fits, EntryReads, RowsTraced, WitnessOf, IsEntry;
    var ss := seq(|c.instrs|, k requires 0 <= k < |c.instrs| => ReadAll(EntryReads(c.instrs[k], rows[k])));
    ConcatFrom(ss, x);
    var k :| 0 <= k < |ss| && x in ss[k];
    var es := EntryReads(c.instrs[k], rows[k]);
    var j :| 0 <= j < |es| && ReadAll(es)[j] == x;
    TracedAt(prims, c, rows, mem, k);
    ActiveEntry(prims, c, rows[k], mem, c.instrs[k], es[j]);
    if es[j].sel == 1 { EntryInWitness(c, rows, mem, inputs, es[j]); }
  }

  lemma ActiveEntry(prims: Prims, c: Code, w: Rows, mem: Memory, i: Instr, e: EntryRead)
    requires Traced(prims, c.tables, i, w, mem) && e in EntryReads(i, w)
    ensures (e.sel == 0 || e.sel == 1) && EntryOk(c.tables, mem, e)
  {
    hide Valid, Fits, PolyOk, Agree, HashesOk, EntryReads, HashReads, Slots, Vals, EntryOk;
    EntrySels(i, w, e);
  }

  lemma EntryInWitness(c: Code, rows: seq<Rows>, mem: Memory, inputs: seq<Cell>, e: EntryRead)
    requires AllValid(c.instrs) && |rows| == |c.instrs| && (forall k :: 0 <= k < |rows| ==> Fits(c.instrs[k], rows[k]))
    requires TablesIn(c.tables, |mem|) && EntryOk(c.tables, mem, e) && e.sel == 1
    ensures IsEntry(WitnessOf(c, inputs, rows, mem), (e.tag, e.idx, e.val))
  {
    hide RowReads, RowLookUps, Valid, Fits, Answers, CoreOf;
  }

  lemma EntryCount(c: Code, rows: seq<Rows>, mem: Memory, inputs: seq<Cell>, x: (nat, int, Cell))
    requires AllValid(c.instrs) && |rows| == |c.instrs| && (forall k :: 0 <= k < |rows| ==> Fits(c.instrs[k], rows[k]))
    requires TablesIn(c.tables, |mem|) && IsEntry(WitnessOf(c, inputs, rows, mem), x)
    ensures WitnessOf(c, inputs, rows, mem).entries[x.0][x.1].cnt == -B.Total(RowReads(c, rows), x)
  {
    hide RowReads, RowLookUps, Valid, Fits, Answers, CoreOf;
  }

  lemma WitnessShaped(c: Code, rows: seq<Rows>, mem: Memory, inputs: seq<Cell>)
    requires AllValid(c.instrs) && |rows| == |c.instrs| && (forall k :: 0 <= k < |rows| ==> Fits(c.instrs[k], rows[k]))
    requires TablesIn(c.tables, |mem|) && |inputs| == |c.inputs|
    ensures Shaped(c, WitnessOf(c, inputs, rows, mem))
    ensures TableAccesses(c, WitnessOf(c, inputs, rows, mem)) == Concat(EntryBlocks(WitnessOf(c, inputs, rows, mem))) + RowReads(c, rows)
    ensures HashAccesses(c, WitnessOf(c, inputs, rows, mem)) == CoreBlock(WitnessOf(c, inputs, rows, mem)) + RowLookUps(c, rows)
  {
    hide Valid, Fits, Answers, CoreOf, EntryReads, HashReads, ReadAll, LookUpAll, EntryRowsOf;
    var w := WitnessOf(c, inputs, rows, mem);
    assert LookUpBlocks(c, w) == LookUpRows(c, rows, |c.instrs|);
    HashBlocks(c, w);
    TableBlocks(c, w);
  }

  lemma TablesBalance(prims: Prims, c: Code, rows: seq<Rows>, mem: Memory, inputs: seq<Cell>)
    requires RowsTraced(prims, c, rows, mem, |c.instrs|) && TablesIn(c.tables, |mem|) && |inputs| == |c.inputs|
    requires AllValid(c.instrs) && |rows| == |c.instrs| && (forall k :: 0 <= k < |rows| ==> Fits(c.instrs[k], rows[k]))
    ensures Shaped(c, WitnessOf(c, inputs, rows, mem)) && B.Balanced(TableAccesses(c, WitnessOf(c, inputs, rows, mem)))
  {
    hide Valid, Fits, RowsTraced, WitnessOf, IsEntry, RowReads, TableAccesses, HashAccesses, Shaped, EntryBlocks;
    var w := WitnessOf(c, inputs, rows, mem);
    WitnessShaped(c, rows, mem, inputs);
    var looked := RowReads(c, rows);
    forall x ensures Zero(B.Total(TableAccesses(c, w), x)) {
      TotalAppend(Concat(EntryBlocks(w)), looked, x);
      EntriesTotal(w, x);
      if IsEntry(w, x) {
        EntryCount(c, rows, mem, inputs, x);
      } else {
        forall i | 0 <= i < |looked| ensures looked[i].tuple != x || looked[i].mult == 0 {
          ReadIsEntry(prims, c, rows, mem, inputs, looked[i]);
        }
        NoReads(looked, x);
      }
    }
  }

  lemma EntriesTotal(w: Witness, x: (nat, int, Cell))
    ensures B.Total(Concat(EntryBlocks(w)), x) == if IsEntry(w, x) then w.entries[x.0][x.1].cnt else 0
  {
    assert EntryBlocks(w)[..|w.entries|] == EntryBlocks(w);
    EntryTotal(w, |w.entries|, x);
  }

  // ---- the permutation sum ----

  lemma LookUpActive(prims: Prims, c: Code, rows: seq<Rows>, mem: Memory, x: B.Access<(Cell, Cell, Cell)>)
    requires RowsTraced(prims, c, rows, mem, |c.instrs|)
    requires AllValid(c.instrs) && |rows| == |c.instrs| && (forall k :: 0 <= k < |rows| ==> Fits(c.instrs[k], rows[k]))
    requires x in RowLookUps(c, rows)
    ensures x.mult == 0 || x.mult == -1
    ensures x.mult == -1 ==> x.tuple.2 == prims.compress(x.tuple.0, x.tuple.1)
  {
    hide Valid, Fits, HashReads, RowsTraced;
    var ss := LookUpRows(c, rows, |c.instrs|);
    ConcatFrom(ss, x);
    var k :| 0 <= k < |ss| && x in ss[k];
    var hs := HashReads(c.instrs[k], rows[k]);
    var j :| 0 <= j < |hs| && LookUpAll(hs)[j] == x;
    TracedAt(prims, c, rows, mem, k);
    ActiveHash(prims, c, rows[k], mem, c.instrs[k], hs[j]);
  }

  lemma ActiveHash(prims: Prims, c: Code, w: Rows, mem: Memory, i: Instr, h: HashRead)
    requires Traced(prims, c.tables, i, w, mem) && h in HashReads(i, w)
    ensures (h.sel == 0 || h.sel == 1) && HashOk(prims, h)
  {
    hide Valid, Fits, PolyOk, Agree, EntriesOk, EntryReads, HashReads, Slots, Vals;
    HashSels(i, w, h);
  }

  /** An answer is a read's tuple. */
  lemma {:induction false} AnswerFrom<T>(acc: seq<B.Access<T>>, j: nat)
    requires j < |Answers(acc)|
    ensures exists i :: 0 <= i < |acc| && acc[i].mult == -1 && Answers(acc)[j] == B.Access(acc[i].tuple, 1, true)
  {
    var n := |acc| - 1;
    if j < |Answers(acc[..n])| {
      AnswerFrom(acc[..n], j);
      var i :| 0 <= i < n && acc[..n][i].mult == -1 && Answers(acc[..n])[j] == B.Access(acc[..n][i].tuple, 1, true);
      assert acc[i] == acc[..n][i];
    } else {
      assert acc[n].mult == -1;
    }
  }

  lemma CoreIsAnswers(w: Witness, acc: seq<B.Access<(Cell, Cell, Cell)>>)
    requires w.core == CoreOf(Answers(acc))
    ensures CoreBlock(w) == Answers(acc)
  {
    forall j | 0 <= j < |Answers(acc)| ensures CoreBlock(w)[j] == Answers(acc)[j] { AnswerFrom(acc, j); }
  }

  lemma HashesBalance(prims: Prims, c: Code, rows: seq<Rows>, mem: Memory, inputs: seq<Cell>)
    requires RowsTraced(prims, c, rows, mem, |c.instrs|) && TablesIn(c.tables, |mem|) && |inputs| == |c.inputs|
    requires AllValid(c.instrs) && |rows| == |c.instrs| && (forall k :: 0 <= k < |rows| ==> Fits(c.instrs[k], rows[k]))
    ensures Shaped(c, WitnessOf(c, inputs, rows, mem)) && B.Balanced(HashAccesses(c, WitnessOf(c, inputs, rows, mem)))
    ensures var core := WitnessOf(c, inputs, rows, mem).core;
      forall i :: 0 <= i < |core| ==> core[i].out == prims.compress(core[i].left, core[i].right)
  {
    hide Valid, Fits, RowsTraced, RowReads, RowLookUps, TableAccesses, HashAccesses, Shaped, Answers, CoreBlock, EntriesOf;
    var w := WitnessOf(c, inputs, rows, mem);
    WitnessShaped(c, rows, mem, inputs);
    var acc := RowLookUps(c, rows);
    CoreIsAnswers(w, acc);
    forall i | 0 <= i < |acc| ensures acc[i].mult == 0 || acc[i].mult == -1 { LookUpActive(prims, c, rows, mem, acc[i]); }
    forall x ensures Zero(B.Total(HashAccesses(c, w), x)) {
      TotalAppend(Answers(acc), acc, x);
      AnswersBalance(acc, x);
    }
    forall j | 0 <= j < |w.core| ensures w.core[j].out == prims.compress(w.core[j].left, w.core[j].right) {
      AnswerFrom(acc, j);
      var i :| 0 <= i < |acc| && acc[i].mult == -1 && Answers(acc)[j] == B.Access(acc[i].tuple, 1, true);
      LookUpActive(prims, c, rows, mem, acc[i]);
    }
  }

  // ---- the P2 core has a row for every compression ----

  /** The compressions an instruction may compute. */
  function Perms(i: Instr): int {
    match i
    case MD(h) => |h.blocks|
    case Path(p) => |p.steps|
    case DPath(p) => |p.siblings.src| + |p.order.src| - 1
    case _ => 0
  }

  /** The number of compressions of a program: the rows of the P2 core. */
  function NumPerms(instrs: seq<Instr>): int {
    if instrs == [] then 0 else NumPerms(instrs[..|instrs| - 1]) + Perms(instrs[|instrs| - 1])
  }

  lemma {:induction false} AnswersAppend<T>(a: seq<B.Access<T>>, b: seq<B.Access<T>>)
    ensures Answers(a + b) == Answers(a) + Answers(b)
    decreases b
  {
    if b == [] {
      assert a + b == a;
    } else {
      var n := |b| - 1;
      assert (a + b)[..|a| + n] == a + b[..n];
      AnswersAppend(a, b[..n]);
    }
  }

  lemma {:induction false} AnswersFew<T>(a: seq<B.Access<T>>)
    ensures |Answers(a)| <= |a|
  {
    if a != [] { AnswersFew(a[..|a| - 1]); }
  }

  lemma {:induction false} DPathAnswers(rows: seq<Dp.Row>, hs: seq<HashRead>)
    requires |hs| == |rows| && forall k :: 0 <= k < |rows| ==> hs[k].sel == rows[k].started
    ensures |Answers(LookUpAll(hs))| == |Dp.Hashes(rows)|
  {
    if rows != [] {
      var n := |rows| - 1;
      DPathAnswers(rows[..n], hs[..n]);
      assert LookUpAll(hs)[..n] == LookUpAll(hs[..n]);
      assert LookUpAll(hs)[n].mult == -hs[n].sel;
    }
  }

  lemma InstrPerms(prims: Prims, c: Code, rows: seq<Rows>, mem: Memory, k: nat)
    requires RowsTraced(prims, c, rows, mem, |c.instrs|) && k < |c.instrs|
    requires |rows| == |c.instrs| && Valid(c.instrs[k]) && Fits(c.instrs[k], rows[k])
    ensures |Answers(LookUpAll(HashReads(c.instrs[k], rows[k])))| <= Perms(c.instrs[k])
  {
    hide Traced, Answers, Dp.Hashes, Mix, Dp.Left, Dp.Right;
    assert RowTraced(prims, c, rows, mem, k);
    var hs := HashReads(c.instrs[k], rows[k]);
    AnswersFew(LookUpAll(hs));
    if c.instrs[k].DPath? { DPathAnswers(rows[k].dpath, hs); }
  }

  lemma {:induction false} PermsBound(prims: Prims, c: Code, rows: seq<Rows>, mem: Memory, n: nat)
    requires RowsTraced(prims, c, rows, mem, |c.instrs|) && n <= |c.instrs|
    requires AllValid(c.instrs) && |rows| == |c.instrs| && (forall k :: 0 <= k < |rows| ==> Fits(c.instrs[k], rows[k]))
    ensures |Answers(Concat(LookUpRows(c, rows, n)))| <= NumPerms(c.instrs[..n])
  {
    hide RowsTraced, Valid, Fits, HashReads, LookUpAll, Perms;
    if n > 0 {
      PermsBound(prims, c, rows, mem, n - 1);
      var ss := LookUpRows(c, rows, n);
      assert ss[..n - 1] == LookUpRows(c, rows, n - 1);
      AnswersAppend(Concat(ss[..n - 1]), ss[n - 1]);
      InstrPerms(prims, c, rows, mem, n - 1);
      assert c.instrs[..n][..n - 1] == c.instrs[..n - 1];
    }
  }

  lemma CoreFits(prims: Prims, c: Code, rows: seq<Rows>, mem: Memory, inputs: seq<Cell>)
    requires RowsTraced(prims, c, rows, mem, |c.instrs|) && TablesIn(c.tables, |mem|)
    requires AllValid(c.instrs) && |rows| == |c.instrs| && (forall k :: 0 <= k < |rows| ==> Fits(c.instrs[k], rows[k]))
    ensures |WitnessOf(c, inputs, rows, mem).core| <= NumPerms(c.instrs)
  {
    hide RowsTraced, Valid, Fits, HashReads, LookUpAll, EntriesOf;
    var n := |c.instrs|;
    PermsBound(prims, c, rows, mem, n);
    assert c.instrs[..n] == c.instrs;
  }

  // ---- the P2 core and the read counts are what the run records ----

  /** The inputs of the compressions written. */
  function Pairs(acc: seq<B.Access<(Cell, Cell, Cell)>>): (r: seq<(Cell, Cell)>)
    ensures |r| == |acc|
  { seq(|acc|, i requires 0 <= i < |acc| => (acc[i].tuple.0, acc[i].tuple.1)) }

  lemma {:induction false} AnswersActive(hs: seq<HashRead>)
    ensures Pairs(Answers(LookUpAll(hs))) == ActiveHashes(hs)
  {
    if hs != [] {
      var n := |hs| - 1;
      AnswersActive(hs[..n]);
      assert LookUpAll(hs)[..n] == LookUpAll(hs[..n]);
      assert LookUpAll(hs)[n] == CoreRead(hs[n]);
    }
  }

  lemma PairsAppend(a: seq<B.Access<(Cell, Cell, Cell)>>, b: seq<B.Access<(Cell, Cell, Cell)>>)
    ensures Pairs(a + b) == Pairs(a) + Pairs(b)
  {
  }

  lemma {:induction false} CoreHashes(c: Code, rows: seq<Rows>, n: nat)
    requires AllValid(c.instrs) && RowsFit(c, rows) && n <= |rows| == |c.instrs| && forall k :: 0 <= k < |rows| ==> Fits(c.instrs[k], rows[k])
    ensures Pairs(Answers(Concat(LookUpRows(c, rows, n)))) == LookedUpHashes(c, rows, n)
  {
    hide Valid, Fits, HashReads, LookUpAll, Answers, ActiveHashes, Pairs, RowsFit;
    if n > 0 {
      CoreHashes(c, rows, n - 1);
      var ss := LookUpRows(c, rows, n);
      assert ss[..n - 1] == LookUpRows(c, rows, n - 1);
      AnswersAppend(Concat(ss[..n - 1]), ss[n - 1]);
      PairsAppend(Answers(Concat(ss[..n - 1])), Answers(ss[n - 1]));
      AnswersActive(HashReads(c.instrs[n - 1], rows[n - 1]));
    } else {
      NoAnswers();
    }
  }

  lemma NoAnswers()
    ensures Pairs(Answers([])) == []
  {
  }

  /** The core has one row, of count one, for every compression, in order. */
  predicate CoreLists(core: seq<CoreRow>, hashes: seq<(Cell, Cell)>) {
    |core| == |hashes| && forall i :: 0 <= i < |core| ==> (core[i].left, core[i].right) == hashes[i] && core[i].cnt == 1
  }

  lemma CoreIs(c: Code, rows: seq<Rows>, mem: Memory, inputs: seq<Cell>)
    requires AllValid(c.instrs) && RowsFit(c, rows) && |rows| == |c.instrs| && (forall k :: 0 <= k < |rows| ==> Fits(c.instrs[k], rows[k]))
    requires TablesIn(c.tables, |mem|)
    ensures CoreLists(WitnessOf(c, inputs, rows, mem).core, LookedUpHashes(c, rows, |c.instrs|))
  {
    hide Valid, Fits, RowsFit, RowReads, LookUpRows, Answers, EntriesOf, LookedUpHashes;
    CoreHashes(c, rows, |c.instrs|);
    var acc := RowLookUps(c, rows);
    var core := WitnessOf(c, inputs, rows, mem).core;
    forall j | 0 <= j < |core| ensures core[j].cnt == 1 { AnswerFrom(acc, j); }
  }

  lemma TotalNext(es: seq<EntryRead>, e: EntryRead, x: (nat, int, Cell))
    ensures B.Total(ReadAll(es + [e]), x) == B.Total(ReadAll(es), x) - if (e.tag, e.idx as int, e.val) == x then e.sel else 0
  {
    var all := ReadAll(es + [e]);
    assert all[..|es|] == ReadAll(es);
    assert all[|es|] == EntryLookup(e);
  }

  lemma ActiveCount(es: seq<EntryRead>, e: EntryRead, y: (nat, nat))
    ensures multiset(ActiveEntries(es + [e]))[y] == multiset(ActiveEntries(es))[y] + if e.sel == 1 && (e.tag, e.idx as nat) == y then 1 else 0
  {
    hide ActiveEntries;
    ActiveNext(es, e);
    CountNext(ActiveEntries(es), (e.tag, e.idx), y);
    assert ActiveEntries(es) + [] == ActiveEntries(es);
  }

  /** The reads of an entry, counted. */
  lemma {:induction false} ReadsCounted(es: seq<EntryRead>, t: nat, i: nat, v: Cell)
    requires forall k :: 0 <= k < |es| ==> es[k].sel == 0 || es[k].sel == 1
    requires forall k :: 0 <= k < |es| && es[k].sel == 1 && es[k].tag == t && es[k].idx == i ==> es[k].val == v
    ensures B.Total(ReadAll(es), (t, i, v)) + multiset(ActiveEntries(es))[(t, i)] == 0
  {
    if es == [] {
      NoneActive();
    } else {
      hide ActiveEntries, ReadAll;
      var n := |es| - 1;
      var init, e := es[..n], es[n];
      ReadsCounted(init, t, i, v);
      assert es == init + [e];
      TotalNext(init, e, (t, i, v));
      ActiveCount(init, e, (t, i));
    }
  }

  lemma CountNext(xs: seq<(nat, nat)>, x: (nat, nat), y: (nat, nat))
    ensures multiset(xs + [x])[y] == multiset(xs)[y] + if x == y then 1 else 0
  {
  }

  lemma InstrCounted(prims: Prims, c: Code, rows: seq<Rows>, mem: Memory, k: nat, t: nat, i: nat)
    requires RowsTraced(prims, c, rows, mem, |c.instrs|) && k < |c.instrs| == |rows| && Valid(c.instrs[k]) && Fits(c.instrs[k], rows[k])
    requires t < |c.tables| && i < |c.tables[t]| && c.tables[t][i] < |mem|
    ensures B.Total(ReadAll(EntryReads(c.instrs[k], rows[k])), (t, i, mem[c.tables[t][i]]))
          + multiset(ActiveEntries(EntryReads(c.instrs[k], rows[k])))[(t, i)] == 0
  {
    hide RowsTraced, Valid, Fits, EntryReads, Traced, ActiveEntries, ReadAll;
    TracedAt(prims, c, rows, mem, k);
    var es := EntryReads(c.instrs[k], rows[k]);
    forall j | 0 <= j < |es|
      ensures (es[j].sel == 0 || es[j].sel == 1) && (es[j].sel == 1 && es[j].tag == t && es[j].idx == i ==> es[j].val == mem[c.tables[t][i]])
    {
      ActiveEntry(prims, c, rows[k], mem, c.instrs[k], es[j]);
    }
    ReadsCounted(es, t, i, mem[c.tables[t][i]]);
  }

  /** The table reads of the first n instructions. */
  ghost function ReadRows(c: Code, rows: seq<Rows>, n: nat): (r: seq<seq<B.Access<(nat, int, Cell)>>>)
    requires n <= |rows| == |c.instrs| && forall k :: 0 <= k < n ==> Valid(c.instrs[k]) && Fits(c.instrs[k], rows[k])
    ensures |r| == n
  { seq(n, k requires 0 <= k < n => ReadAll(EntryReads(c.instrs[k], rows[k]))) }

  lemma {:induction false} RunCounted(prims: Prims, c: Code, rows: seq<Rows>, mem: Memory, n: nat, t: nat, i: nat)
    requires RowsTraced(prims, c, rows, mem, |c.instrs|) && RowsFit(c, rows) && n <= |c.instrs|
    requires t < |c.tables| && i < |c.tables[t]| && c.tables[t][i] < |mem|
    ensures B.Total(Concat(ReadRows(c, rows, n)), (t, i, mem[c.tables[t][i]])) + multiset(LookedUpEntries(c, rows, n))[(t, i)] == 0
  {
    hide RowsTraced, Valid, Fits, EntryReads, ReadAll, ActiveEntries;
    if n > 0 {
      RunCounted(prims, c, rows, mem, n - 1, t, i);
      var ss := ReadRows(c, rows, n);
      assert ss[..n - 1] == ReadRows(c, rows, n - 1);
      TotalAppend(Concat(ss[..n - 1]), ss[n - 1], (t, i, mem[c.tables[t][i]]));
      InstrCounted(prims, c, rows, mem, n - 1, t, i);
      EntriesNext(c, rows, n);
    }
  }

  lemma AllReadRows(c: Code, rows: seq<Rows>)
    requires AllValid(c.instrs) && |rows| == |c.instrs| && forall k :: 0 <= k < |rows| ==> Fits(c.instrs[k], rows[k])
    ensures RowReads(c, rows) == Concat(ReadRows(c, rows, |c.instrs|))
  {
    hide Valid, Fits, EntryReads, ReadAll;
    var ss := seq(|c.instrs|, k requires 0 <= k < |c.instrs| => ReadAll(EntryReads(c.instrs[k], rows[k])));
    assert ss == ReadRows(c, rows, |c.instrs|);
  }

  /** Every entry's count is the number of times it is read. */
  predicate CountsReads(entries: seq<seq<EntryRow>>, seen: multiset<(nat, nat)>) {
    forall t, i :: 0 <= t < |entries| && 0 <= i < |entries[t]| ==> entries[t][i].cnt == seen[(t, i)]
  }

  lemma CountsAre(prims: Prims, c: Code, rows: seq<Rows>, mem: Memory, inputs: seq<Cell>)
    requires RowsTraced(prims, c, rows, mem, |c.instrs|) && RowsFit(c, rows) && TablesIn(c.tables, |mem|)
    requires AllValid(c.instrs) && |rows| == |c.instrs| && (forall k :: 0 <= k < |rows| ==> Fits(c.instrs[k], rows[k]))
    ensures CountsReads(WitnessOf(c, inputs, rows, mem).entries, multiset(LookedUpEntries(c, rows, |c.instrs|)))
  {
    hide RowsTraced, Valid, Fits, RowReads, ReadRows, Answers, CoreOf, RowLookUps, LookedUpEntries;
    var w := WitnessOf(c, inputs, rows, mem);
    forall t, i | 0 <= t < |w.entries| && 0 <= i < |w.entries[t]|
      ensures w.entries[t][i].cnt == multiset(LookedUpEntries(c, rows, |c.instrs|))[(t, i)]
    {
      RunCounted(prims, c, rows, mem, |c.instrs|, t, i);
      AllReadRows(c, rows);
    }
  }

  /** Traced rows of a proper execution meet the constraints on the memory. */
  lemma TracedMeet(prims: Prims, c: Code, rows: seq<Rows>, mem: Memory)
    requires RowsTraced(prims, c, rows, mem, |c.instrs|) && forall k :: 0 <= k < |c.instrs| ==> Proper(prims, c, mem, k)
    ensures AllMeet(prims, c, rows, mem)
  {
    hide RowsTraced, Proper, Meets;
    TracedFits(prims, c, rows, mem);
    forall k | 0 <= k < |c.instrs| ensures Meets(prims, c.tables, c.instrs[k], rows[k], mem) { MeetsAt(prims, c, rows, mem, k); }
  }

  lemma MeetsAt(prims: Prims, c: Code, rows: seq<Rows>, mem: Memory, k: nat)
    requires RowsTraced(prims, c, rows, mem, |c.instrs|) && k < |c.instrs| == |rows| && Proper(prims, c, mem, k)
    ensures Meets(prims, c.tables, c.instrs[k], rows[k], mem)
  {
    hide RowsTraced, Valid, Fits, PolyOk, InBounds, Given, Typed, TablesMatch, EntriesOk, HashesOk, EntryReads, HashReads, Slots, Vals, Agree, Writes, Asserts;
    TracedAt(prims, c, rows, mem, k);
  }

  /** The P2 core lists the compressions a run on the memory records, and every table entry
      counts the reads it records and the lookups. */
  ghost predicate Recorded(prims: Prims, c: Code, w: Witness, mem: Memory) {
    && RunsOn(c, mem)
    && CoreLists(w.core, RunHashes(prims, c, mem, |c.instrs|))
    && CountsReads(w.entries, RunEntries(prims, c, mem, |c.instrs|) + RunLookups(c, mem, |c.instrs|))
  }

  lemma WitnessRecorded(prims: Prims, c: Code, rows: seq<Rows>, mem: Memory, inputs: seq<Cell>)
    requires RowsTraced(prims, c, rows, mem, |c.instrs|) && TablesIn(c.tables, |mem|)
    requires AllValid(c.instrs) && |rows| == |c.instrs| && (forall k :: 0 <= k < |rows| ==> Fits(c.instrs[k], rows[k]))
    requires forall k :: 0 <= k < |c.instrs| ==> Proper(prims, c, mem, k)
    ensures Recorded(prims, c, WitnessOf(c, inputs, rows, mem), mem)
  {
    hide RowsTraced, Valid, Fits, Proper, WitnessOf, AllMeet, CoreLists, CountsReads, RunHashes, RunEntries, RunLookups, LookedUpHashes, LookedUpEntries, RunsOn, RowsFit;
    TracedMeet(prims, c, rows, mem);
    RowsRecord(prims, c, rows, mem, |c.instrs|);
    CoreIs(c, rows, mem, inputs);
    CountsAre(prims, c, rows, mem, inputs);
  }

  // ---- inputs and constants ----

  lemma {:induction false} ApplyAppend(m: Memory, a: seq<Write>, b: seq<Write>)
    requires WritesIn(a, |m|) && WritesIn(b, |m|)
    ensures WritesIn(a + b, |m|) && Apply(m, a + b) == Apply(Apply(m, a), b)
    decreases b
  {
    if b == [] {
      assert a + b == a;
    } else {
      var n := |b| - 1;
      assert WritesIn(b[..n], |m|);
      ApplyAppend(m, a, b[..n]);
      assert a + b == (a + b[..n]) + [b[n]];
      ApplyOne(m, a + b[..n], b[n]);
    }
  }

  lemma InitialDistinct(c: Code, inputs: seq<Cell>)
    requires Built(c) && |inputs| == |c.inputs|
    ensures Distinct(InputWrites(c, inputs) + ConstWrites(c))
  {
    hide InstrBuilt, AllSlots, Valid, InputWrites, ConstWrites;
    var ws, all := InputWrites(c, inputs) + ConstWrites(c), AllSlots(c);
    forall i | 0 <= i < |ws| ensures i < |all| && all[i] == Slot(ws[i].addr, true) { InitialSlot(c, inputs, i); }
    forall i, j | 0 <= i < j < |ws| ensures ws[i].addr != ws[j].addr {
      if ws[i].addr == ws[j].addr { B.CountTwo(all, i, j); }
    }
  }

  lemma InitialSlot(c: Code, inputs: seq<Cell>, i: nat)
    requires AllValid(c.instrs) && |inputs| == |c.inputs| && i < |InputWrites(c, inputs) + ConstWrites(c)|
    ensures i < |AllSlots(c)| && AllSlots(c)[i] == Slot((InputWrites(c, inputs) + ConstWrites(c))[i].addr, true)
  {
    hide Valid, Slots, InstrSlots, TableSlots;
    if i < |inputs| { assert AllSlots(c)[i] == InputSlots(c)[i]; } else { assert AllSlots(c)[i] == ConstSlots(c)[i - |inputs|]; }
  }

  lemma InitialStored(c: Code, inputs: seq<Cell>)
    requires Built(c) && MachineSound.InRange(c) && |inputs| == |c.inputs|
    ensures Stored(InputWrites(c, inputs), Initial(c, inputs)) && Stored(ConstWrites(c), Initial(c, inputs))
  {
    hide Built, Distinct;
    var x, y, zero := InputWrites(c, inputs), ConstWrites(c), seq(|c.counts|, i => ZeroCell);
    InitialDistinct(c, inputs);
    ApplyAppend(zero, x, y);
    forall i | 0 <= i < |x + y| ensures Initial(c, inputs)[(x + y)[i].addr] == (x + y)[i].val { ApplyAt(zero, x + y, i); }
    StoredAppend(x, y, Initial(c, inputs));
  }

  /** The final memory still holds the inputs and the constants. */
  lemma EndsStored(prims: Prims, c: Code, inputs: seq<Cell>)
    requires Built(c) && MachineSound.InRange(c) && |inputs| == |c.inputs| && RunTo(prims, c, inputs, |c.instrs|).Some?
    ensures var mem := RunTo(prims, c, inputs, |c.instrs|).value;
      Stored(InputWrites(c, inputs), mem) && Stored(ConstWrites(c), mem)
  {
    hide Built, Step, Initial, WrittenBy;
    InitialStored(c, inputs);
    RunZero(prims, c, inputs);
    var mem := RunTo(prims, c, inputs, |c.instrs|).value;
    hide RunTo;
    BuiltValid(c);
    forall i | 0 <= i < |inputs| ensures mem[c.inputs[i].addr] == inputs[i] {
      assert InputWrites(c, inputs)[i].addr == c.inputs[i].addr;
      assert IsInput(c, c.inputs[i].addr);
      RunKeeps(prims, c, inputs, 0, |c.instrs|, c.inputs[i].addr);
    }
    forall i | 0 <= i < |c.consts| ensures mem[c.consts[i].addr] == c.consts[i].val {
      assert ConstWrites(c)[i].addr == c.consts[i].addr;
      assert IsConst(c, c.consts[i].addr);
      RunKeeps(prims, c, inputs, 0, |c.instrs|, c.consts[i].addr);
    }
  }

  lemma RunZero(prims: Prims, c: Code, inputs: seq<Cell>)
    requires Built(c) && MachineSound.InRange(c) && |inputs| == |c.inputs|
    ensures RunTo(prims, c, inputs, 0) == Some(Initial(c, inputs))
  {
    hide Built, Initial;
  }

  // ---- the theorem ----

  /** The run is well typed and its assertions hold. */
  ghost predicate WellTyped(prims: Prims, c: Code, mem: Memory)
    requires Built(c) && |mem| == |c.counts|
  {
    forall k :: 0 <= k < |c.instrs| ==> InstrWellTyped(prims, c, mem, k)
  }

  ghost predicate InstrWellTyped(prims: Prims, c: Code, mem: Memory, k: nat)
    requires Built(c) && |mem| == |c.counts| && k < |c.instrs|
  {
    BuiltAt(c, k, mem);
    Typed(c.instrs[k], mem) && Asserts(prims, c.instrs[k], mem)
  }

  lemma RunProper(prims: Prims, c: Code, inputs: seq<Cell>, k: nat)
    requires Built(c) && MachineSound.InRange(c) && |inputs| == |c.inputs| && k < |c.instrs| && F.Inverts(prims.inv)
    requires RunTo(prims, c, inputs, |c.instrs|).Some? && WellTyped(prims, c, RunTo(prims, c, inputs, |c.instrs|).value)
    ensures Proper(prims, c, RunTo(prims, c, inputs, |c.instrs|).value, k)
  {
    hide Built, RunTo, InBounds, InstrBuilt, Slots, Writes, TablesMatch, Valid, Typed, Asserts, Step;
    var mem := RunTo(prims, c, inputs, |c.instrs|).value;
    RunStored(prims, c, inputs, k);
    BuiltAt(c, k, mem);
    assert InstrWellTyped(prims, c, mem, k);
    EndsStored(prims, c, inputs);
    RunGiven(prims, c, mem, k);
  }

  lemma RunGiven(prims: Prims, c: Code, mem: Memory, k: nat)
    requires k < |c.instrs| && AllValid(c.instrs) && InstrBuilt(c, k) && InBounds(c.instrs[k], mem) && Stored(ConstWrites(c), mem)
    requires F.Inverts(prims.inv) && Writes(prims, c.instrs[k], mem).Some?
    ensures Given(prims, c.instrs[k], mem)
  {
    hide Uses, Available, F.Mul, TablesMatch;
    var i := c.instrs[k];
    if i.Pack? {
      var j :| 0 <= j < |c.consts| && c.consts[j] == ConstCell(i.pack.zero, ZeroCell);
      assert ConstWrites(c)[j].addr == i.pack.zero;
    }
  }

  lemma StoredAgree(c: Code, inputs: seq<Cell>, mem: Memory)
    requires |inputs| == |c.inputs| && Stored(InputWrites(c, inputs), mem) && Stored(ConstWrites(c), mem)
    ensures Agree(InputSlots(c), inputs, mem) && Agree(ConstSlots(c), ConstVals(c), mem)
  {
    forall i | 0 <= i < |inputs| ensures InputSlots(c)[i].addr < |mem| && mem[InputSlots(c)[i].addr] == inputs[i] {
      assert InputWrites(c, inputs)[i].addr == c.inputs[i].addr;
    }
    forall i | 0 <= i < |c.consts| ensures ConstSlots(c)[i].addr < |mem| && mem[ConstSlots(c)[i].addr] == ConstVals(c)[i] {
      assert ConstWrites(c)[i].addr == c.consts[i].addr;
    }
  }

  lemma WitnessAgrees(prims: Prims, c: Code, rows: seq<Rows>, mem: Memory, inputs: seq<Cell>)
    requires RowsTraced(prims, c, rows, mem, |c.instrs|) && TablesIn(c.tables, |mem|) && |inputs| == |c.inputs|
    requires AllValid(c.instrs) && |rows| == |c.instrs| && (forall k :: 0 <= k < |rows| ==> Fits(c.instrs[k], rows[k]))
    requires Stored(InputWrites(c, inputs), mem) && Stored(ConstWrites(c), mem)
    ensures Shaped(c, WitnessOf(c, inputs, rows, mem)) && PartsAgree(c, WitnessOf(c, inputs, rows, mem), mem)
  {
    hide Valid, Fits, RowsTraced, RowReads, RowLookUps, Slots, Vals, Answers, CoreOf, TableAccesses, HashAccesses, Stored;
    var w := WitnessOf(c, inputs, rows, mem);
    WitnessShaped(c, rows, mem, inputs);
    StoredAgree(c, inputs, mem);
    forall t | 0 <= t < |c.tables| ensures Agree(SourceSlots(c.tables[t]), EntryVals(w.entries[t]), mem) { }
    forall k | 0 <= k < |c.instrs| ensures Agree(Slots(c.instrs[k]), Vals(c.instrs[k], w.rows[k]), mem) {
      TracedAt(prims, c, rows, mem, k);
    }
  }

  lemma WitnessPoly(prims: Prims, c: Code, rows: seq<Rows>, mem: Memory)
    requires RowsTraced(prims, c, rows, mem, |c.instrs|)
    requires AllValid(c.instrs) && |rows| == |c.instrs| && (forall k :: 0 <= k < |rows| ==> Fits(c.instrs[k], rows[k]))
    ensures forall k :: 0 <= k < |rows| ==> PolyOk(c.instrs[k], rows[k])
  {
    hide Valid, Fits, RowsTraced, Slots, Vals, PolyOk;
    forall k | 0 <= k < |rows| ensures PolyOk(c.instrs[k], rows[k]) { TracedAt(prims, c, rows, mem, k); }
  }

  lemma BuiltTables(c: Code)
    requires Built(c)
    ensures TablesIn(c.tables, |c.counts|)
  {
    hide InstrBuilt, AllSlots, AllValid;
  }

  /** The memory sum of a witness that agrees with a memory balances. */
  lemma MemoryBalance(c: Code, w: Witness, mem: Memory)
    requires Built(c) && AllValid(c.instrs) && Shaped(c, w) && |mem| == |c.counts| && PartsAgree(c, w, mem)
    ensures |AllSlots(c)| == |AllVals(c, w)|
    ensures B.WriteOnce(AllSlots(c), |c.counts|) && B.Balanced(B.MemAccesses(AllSlots(c), AllVals(c, w), c.counts))
  {
    hide PartsAgree, AllSlots, AllVals, InstrBuilt, AllValid, Shaped, Agree;
    AgreeParts(c, w, mem);
    B.MemoryBalances(AllSlots(c), AllVals(c, w), c.counts, mem);
  }

  /** Completeness. A successful, well-typed execution of a built program whose assertions hold
      has a witness that meets every chip constraint with the memory, table and permutation
      sums balanced, with at most NumPerms compressions; its P2 rows and its table counts are
      what the run records. */
  lemma MachineComplete(prims: Prims, c: Code, inputs: seq<Cell>) returns (w: Witness)
    requires Built(c) && MachineSound.InRange(c) && Execute(prims, c, inputs).Some? && F.Inverts(prims.inv)
    requires |Execute(prims, c, inputs).value| == |c.counts| && WellTyped(prims, c, Execute(prims, c, inputs).value)
    requires |AllSlots(c)| < P
    ensures w.inputs == inputs && AllValid(c.instrs) && Shaped(c, w) && |w.core| <= NumPerms(c.instrs)
    ensures Recorded(prims, c, w, Execute(prims, c, inputs).value)
    ensures |TableAccesses(c, w)| < P && |HashAccesses(c, w)| < P ==> Satisfies(prims, c, w)
  {
    hide Built, RunTo, WellTyped, AllSlots, TableAccesses, HashAccesses, Proper, RowsTraced, NumPerms, PolyOk, Fits, Valid, WitnessOf, PartsAgree, AllVals, Recorded;
    var mem := RunTo(prims, c, inputs, |c.instrs|).value;
    forall k | 0 <= k < |c.instrs| ensures Proper(prims, c, mem, k) { RunProper(prims, c, inputs, k); }
    var rows := TraceAll(prims, c, mem, |c.instrs|);
    TracedFits(prims, c, rows, mem);
    BuiltTables(c);
    w := WitnessOf(c, inputs, rows, mem);
    WitnessInputs(c, inputs, rows, mem);
    EndsStored(prims, c, inputs);
    WitnessAgrees(prims, c, rows, mem, inputs);
    WitnessPoly(prims, c, rows, mem);
    TablesBalance(prims, c, rows, mem, inputs);
    HashesBalance(prims, c, rows, mem, inputs);
    CoreFits(prims, c, rows, mem, inputs);
    WitnessRecorded(prims, c, rows, mem, inputs);
    MemoryBalance(c, w, mem);
  }

  lemma WitnessInputs(c: Code, inputs: seq<Cell>, rows: seq<Rows>, mem: Memory)
    requires AllValid(c.instrs) && |rows| == |c.instrs| && (forall k :: 0 <= k < |rows| ==> Fits(c.instrs[k], rows[k]))
    requires TablesIn(c.tables, |mem|)
    ensures WitnessOf(c, inputs, rows, mem).inputs == inputs && WitnessOf(c, inputs, rows, mem).rows == rows
  {
    hide EntriesOf, CoreOf, Answers, RowReads, RowLookUps;
  }
}
