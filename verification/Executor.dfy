/** Executing a program on a run, instruction by instruction. */
module Executor {
  import opened KoalaBear
  import opened Cells
  import opened Program
  import opened MachineSound
  import opened InstrRecords
  import opened RunRecords
  import Pk = Packing
  import Bt = ChipBits
  import E = ChipE6
  import Sel = ChipSelect
  import Md = ChipMD
  import Tb = ChipTable
  import Mp = MerklePath
  import Dp = ChipDPath

  lemma ApplySingle(m: Memory, w: Write)
    requires w.addr < |m|
    ensures WritesIn([w], |m|) && Apply(m, [w]) == m[w.addr := w.val] && Apply(m, []) == m
  {
    ApplyOne(m, [], w);
  }

  /** The effect of an instruction: its writes, or failure with the cells unchanged. */
  ghost predicate Effect(prims: Prims, i: Instr, m: Memory, ok: bool, n: Memory)
    requires Valid(i) && InBounds(i, m)
  {
    var ws := Writes(prims, i, m);
    ok == ws.Some? && (ok ==> WritesIn(ws.value, |m|)) && n == if ok then Apply(m, ws.value) else m
  }

  method ExecInstr(prims: Prims, i: Instr, r: Run) returns (ok: bool)
    requires Valid(i) && InBounds(i, r.values)
    modifies r
    ensures Effect(prims, i, old(r.values), ok, r.values)
    ensures ok ==> r.p2 == old(r.p2) + InstrHashes(prims, i, old(r.values))
    ensures ok ==> r.tableReads == old(r.tableReads) + InstrEntries(prims, i, old(r.values))
  {
    hide Md.Hashes, Md.TraceRows, Mp.Hashes, Mp.WalkOf, Dp.Hashes, Dp.Entries,
         Pk.PackWrites, Pk.CopiedLanes, Bt.Writes, E.Writes, Sel.Writes, Tb.Writes, Md.Digest, Mp.Reaches, Mp.Point, Dp.ExecRows, Dp.TablesOf, Apply;
    ghost var m := r.values;
    ok := true;
    match i
    case Pack(p) => Pk.ExecPack(p, r);
    case Lanes(l) =>
      ApplySingle(m, Write(l.out, Pk.CopiedLanes(m[l.src], l.off, l.kind)));
      Pk.ExecLanes(l, r);
    case Bits(b) => Bt.ExecBits(b, r);
    case E6(op) => ok := E.ExecE6(op, prims.inv, r);
    case Select(s) =>
      SelectApplies(s, m);
      ok := Sel.ExecSelect(s, r);
    case Lookup(l) =>
      LookupApplies(l, m);
      ok := Tb.ExecLookup(l, r);
    case MD(h) =>
      ApplySingle(m, Write(h.out, Md.Digest(prims.compress, h, m)));
      Md.ExecMD(h, prims.compress, r);
    case Path(p) =>
      if p.gens.Some? { ApplySingle(m, Write(p.xb, Mp.Point(prims.compress, p, m))); }
      NoWrite(m);
      ok := Mp.ExecPath(p, prims.compress, r);
    case DPath(p) =>
      DPathTables(p, m);
      NoWrite(m);
      var rows := Dp.ExecDPath(p, prims.compress, r);
      ok := rows.Some?;
  }

  lemma NoWrite(m: Memory)
    ensures WritesIn([], |m|) && Apply(m, []) == m
  {
  }

  lemma SelectApplies(s: Sel.Select, m: Memory)
    requires Sel.InBounds(s, m)
    ensures Sel.Writes(s, m).Some? ==>
      && |Sel.Writes(s, m).value| == 1 && WritesIn(Sel.Writes(s, m).value, |m|)
      && Apply(m, Sel.Writes(s, m).value) == m[s.out := Sel.Writes(s, m).value[0].val]
  {
    if Sel.Writes(s, m).Some? { ApplySingle(m, Sel.Writes(s, m).value[0]); }
  }

  lemma LookupApplies(l: Tb.Lookup, m: Memory)
    requires Tb.InBounds(l, m)
    ensures Tb.Writes(l, m).Some? ==>
      && |Tb.Writes(l, m).value| == 1 && WritesIn(Tb.Writes(l, m).value, |m|)
      && Apply(m, Tb.Writes(l, m).value) == m[l.out := Tb.Writes(l, m).value[0].val]
  {
    if Tb.Writes(l, m).Some? { ApplySingle(m, Tb.Writes(l, m).value[0]); }
  }

  /** Loads the inputs, in order, after checking their lanes beyond their kinds. */
  method LoadInputs(c: Code, inputs: seq<Cell>, r: Run) returns (ok: bool)
    requires MachineSound.InRange(c) && |inputs| == |c.inputs| && |r.values| == |c.counts|
    modifies r`values
    ensures ok == forall i :: 0 <= i < |inputs| ==> HasKind(inputs[i], c.inputs[i].kind)
    ensures ok ==> r.values == Apply(old(r.values), InputWrites(c, inputs))
  {
    hide HasKind;
    ghost var ws := InputWrites(c, inputs);
    for i := 0 to |inputs|
      invariant |r.values| == |c.counts| && WritesIn(ws[..i], |c.counts|) && r.values == Apply(old(r.values), ws[..i])
      invariant forall k :: 0 <= k < i ==> HasKind(inputs[k], c.inputs[k].kind)
    {
      var typed := HasKind(inputs[i], c.inputs[i].kind);
      if !typed { return false; }
      ApplyOne(old(r.values), ws[..i], ws[i]);
      assert ws[..i + 1] == ws[..i] + [ws[i]];
      r.values := r.values[c.inputs[i].addr := inputs[i]];
    }
    assert ws[..|inputs|] == ws;
    return true;
  }

  method LoadConsts(c: Code, r: Run)
    requires MachineSound.InRange(c) && |r.values| == |c.counts|
    modifies r`values
    ensures r.values == Apply(old(r.values), ConstWrites(c))
  {
    ghost var ws := ConstWrites(c);
    for i := 0 to |c.consts|
      invariant |r.values| == |c.counts| && WritesIn(ws[..i], |c.counts|) && r.values == Apply(old(r.values), ws[..i])
    {
      ApplyOne(old(r.values), ws[..i], ws[i]);
      assert ws[..i + 1] == ws[..i] + [ws[i]];
      r.values := r.values[c.consts[i].addr := c.consts[i].val];
    }
    assert ws[..|c.consts|] == ws;
  }

  lemma StepIs(prims: Prims, c: Code, k: nat, m: Memory, ok: bool, n: Memory)
    requires Built(c) && k < |c.instrs| && |m| == |c.counts| && Valid(c.instrs[k]) && InBounds(c.instrs[k], m)
    requires Effect(prims, c.instrs[k], m, ok, n)
    ensures Step(prims, c, k, m) == if ok then Some(n) else None
  {
    hide Built, Writes, Valid, InBounds;
  }

  lemma RunStep(prims: Prims, c: Code, inputs: seq<Cell>, k: nat)
    requires Built(c) && MachineSound.InRange(c) && |inputs| == |c.inputs| && k < |c.instrs| && RunTo(prims, c, inputs, k).Some?
    ensures RunTo(prims, c, inputs, k + 1) == Step(prims, c, k, RunTo(prims, c, inputs, k).value)
  {
    hide Built, Step;
  }

  lemma {:induction false} RunFails(prims: Prims, c: Code, inputs: seq<Cell>, k: nat, n: nat)
    requires Built(c) && MachineSound.InRange(c) && |inputs| == |c.inputs| && k <= n <= |c.instrs| && RunTo(prims, c, inputs, k).None?
    ensures RunTo(prims, c, inputs, n).None?
    decreases n
  {
    hide Built, Step;
    if k < n { RunFails(prims, c, inputs, k, n - 1); }
  }

  lemma RunStart(prims: Prims, c: Code, inputs: seq<Cell>)
    requires Built(c) && MachineSound.InRange(c) && |inputs| == |c.inputs|
    ensures RunTo(prims, c, inputs, 0) == Some(Initial(c, inputs))
  {
    hide Built, Initial;
  }

  /** Runs a program on inputs. */
  method ExecuteProgram(prims: Prims, c: Code, inputs: seq<Cell>) returns (r: Option<Run>)
    requires Built(c) && MachineSound.InRange(c)
    ensures r.Some? == Execute(prims, c, inputs).Some?
    ensures r.Some? ==> fresh(r.value) && r.value.values == Execute(prims, c, inputs).value
    ensures r.Some? ==> RunsOn(c, r.value.values)
    ensures r.Some? ==> r.value.p2 == RunHashes(prims, c, r.value.values, |c.instrs|)
    ensures r.Some? ==> r.value.tableReads == RunEntries(prims, c, r.value.values, |c.instrs|)
  {
    hide RunsOn, InstrHashes, InstrEntries, Built, RunTo, Step, HasKind, Apply, Writes, Valid, InBounds;
    if |inputs| != |c.inputs| { return None; }
    var run := new Run(|c.counts|);
    var ok := LoadInputs(c, inputs, run);
    if !ok { return None; }
    LoadConsts(c, run);
    RunStart(prims, c, inputs);
    BuiltRuns(c, run.values);
    for k := 0 to |c.instrs|
      invariant RunTo(prims, c, inputs, k) == Some(run.values) && |run.values| == |c.counts| && RunsOn(c, run.values)
      invariant run.p2 == RunHashes(prims, c, run.values, k) && run.tableReads == RunEntries(prims, c, run.values, k)
    {
      ghost var m := run.values;
      BuiltAt(c, k, m);
      ok := ExecInstr(prims, c.instrs[k], run);
      StepIs(prims, c, k, m, ok, run.values);
      RunStep(prims, c, inputs, k);
      if !ok {
        RunFails(prims, c, inputs, k + 1, |c.instrs|);
        return None;
      }
      EffectLength(prims, c.instrs[k], m, run.values);
      RecordsNext(prims, c, m, k);
      StepRecords(prims, c, k, m, k + 1);
    }
    return Some(run);
  }

  lemma EffectLength(prims: Prims, i: Instr, m: Memory, n: Memory)
    requires Valid(i) && InBounds(i, m) && Effect(prims, i, m, true, n)
    ensures |n| == |m|
  {
    hide Writes, Valid, InBounds;
  }
}
