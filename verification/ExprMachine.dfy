/** The vector machine running compiled expressions over typed slots. */
module ExprMachine {
  import opened KoalaBear
  import opened ExtField
  import opened Expressions
  import opened ExprCompiler

  // ---- typed vector operations ----
  // resBase is the field type of the preallocated destination; the source
  // panics unless it is base exactly when every operand is.

  function VecAdd(resBase: bool, a: Vec, b: Vec): Vec
    requires Len(a) == Len(b) && resBase == (a.BaseVec? && b.BaseVec?)
  {
    if resBase then BaseVec(seq(|a.base|, i requires 0 <= i < |a.base| => AddElt(a.base[i], b.base[i])))
    else if a.ExtVec? && b.ExtVec? then ExtVec(seq(|a.ext|, i requires 0 <= i < |a.ext| => Add(a.ext[i], b.ext[i])))
    else if a.ExtVec? then ExtVec(seq(|a.ext|, i requires 0 <= i < |a.ext| => AddBase(a.ext[i], b.base[i])))
    else ExtVec(seq(|b.ext|, i requires 0 <= i < |b.ext| => AddBase(b.ext[i], a.base[i])))
  }

  function VecSub(resBase: bool, a: Vec, b: Vec): Vec
    requires Len(a) == Len(b) && resBase == (a.BaseVec? && b.BaseVec?)
  {
    if resBase then BaseVec(seq(|a.base|, i requires 0 <= i < |a.base| => SubElt(a.base[i], b.base[i])))
    else if a.ExtVec? && b.ExtVec? then ExtVec(seq(|a.ext|, i requires 0 <= i < |a.ext| => Sub(a.ext[i], b.ext[i])))
    else if a.ExtVec? then ExtVec(seq(|a.ext|, i requires 0 <= i < |a.ext| => SubBase(a.ext[i], b.base[i])))
    else ExtVec(seq(|b.ext|, i requires 0 <= i < |b.ext| => AddBase(Neg(b.ext[i]), a.base[i])))
  }

  function VecMul(resBase: bool, a: Vec, b: Vec): Vec
    requires Len(a) == Len(b) && resBase == (a.BaseVec? && b.BaseVec?)
  {
    if resBase then BaseVec(seq(|a.base|, i requires 0 <= i < |a.base| => MulElt(a.base[i], b.base[i])))
    else if a.ExtVec? && b.ExtVec? then ExtVec(seq(|a.ext|, i requires 0 <= i < |a.ext| => Mul(a.ext[i], b.ext[i])))
    else if a.ExtVec? then ExtVec(seq(|a.ext|, i requires 0 <= i < |a.ext| => MulByElement(a.ext[i], b.base[i])))
    else ExtVec(seq(|b.ext|, i requires 0 <= i < |b.ext| => MulByElement(b.ext[i], a.base[i])))
  }

  function VecNeg(resBase: bool, a: Vec): Vec
    requires resBase == a.BaseVec?
  {
    if resBase then BaseVec(seq(|a.base|, i requires 0 <= i < |a.base| => NegElt(a.base[i])))
    else ExtVec(seq(|a.ext|, i requires 0 <= i < |a.ext| => Neg(a.ext[i])))
  }

  function VecBatchInv(inv: Ext -> Ext, resBase: bool, a: Vec): (v: Vec)
    requires resBase == a.BaseVec?
    ensures Len(v) == Len(a) && v.BaseVec? == resBase
  {
    if resBase then BaseVec(seq(|a.base|, i requires 0 <= i < |a.base| => Inv(a.base[i])))
    else ExtVec(seq(|a.ext|, i requires 0 <= i < |a.ext| => inv(a.ext[i])))
  }

  lemma VecAddAt(a: Vec, b: Vec, r: nat)
    requires Len(a) == Len(b) && r < Len(a)
    ensures At(VecAdd(a.BaseVec? && b.BaseVec?, a, b), r) == GenAdd(At(a, r), At(b, r))
  {
    hide Add, AddBase;
    if a.BaseVec? && b.BaseVec? { LiftAdd(a.base[r], b.base[r]); }
    else if a.ExtVec? && b.BaseVec? { AddBaseIsAdd(a.ext[r], b.base[r]); }
    else if a.BaseVec? && b.ExtVec? {
      AddBaseIsAdd(b.ext[r], a.base[r]);
      AddComm(b.ext[r], Lift(a.base[r]));
    }
  }

  lemma VecSubAt(a: Vec, b: Vec, r: nat)
    requires Len(a) == Len(b) && r < Len(a)
    ensures At(VecSub(a.BaseVec? && b.BaseVec?, a, b), r) == GenSub(At(a, r), At(b, r))
  {
    hide Add, AddBase, SubBase, Neg, SubElt;
    if a.BaseVec? && b.BaseVec? { LiftSub(a.base[r], b.base[r]); }
    else if a.ExtVec? && b.BaseVec? { AddBaseIsAdd(a.ext[r], b.base[r]); }
    else if a.BaseVec? && b.ExtVec? {
      AddBaseIsAdd(Neg(b.ext[r]), a.base[r]);
      AddComm(Neg(b.ext[r]), Lift(a.base[r]));
    }
  }

  lemma VecMulAt(a: Vec, b: Vec, r: nat)
    requires Len(a) == Len(b) && r < Len(a)
    ensures At(VecMul(a.BaseVec? && b.BaseVec?, a, b), r) == GenMul(At(a, r), At(b, r))
  {
    hide Mul, MulByElement, MulElt;
  }

  lemma VecNegAt(a: Vec, r: nat)
    requires r < Len(a)
    ensures At(VecNeg(a.BaseVec?, a), r) == GenNeg(At(a, r))
  {
    hide Neg;
    if a.BaseVec? { LiftNeg(a.base[r]); }
  }

  lemma VecBatchInvAt(inv: Ext -> Ext, a: Vec, r: nat)
    requires r < Len(a)
    ensures At(VecBatchInv(inv, a.BaseVec?, a), r) == GenInverse(inv, At(a, r))
  {
    hide Inv;
  }

  /** The machine's step for an operator on operand vectors of one length. */
  function Step(inv: Ext -> Ext, op: Operator, resBase: bool, args: seq<Vec>): Vec
    requires |args| == Arity(op)
    requires forall k :: 0 <= k < |args| ==> Len(args[k]) == Len(args[0])
    requires resBase <==> forall k :: 0 <= k < |args| ==> args[k].BaseVec?
  {
    match op
    case OpAdd => VecAdd(resBase, args[0], args[1])
    case OpSub => VecSub(resBase, args[0], args[1])
    case OpMul => VecMul(resBase, args[0], args[1])
    case OpDiv => VecMul(resBase, args[0], VecBatchInv(inv, args[1].BaseVec?, args[1]))
    case OpDouble => VecAdd(resBase, args[0], args[0])
    case OpSquare => VecMul(resBase, args[0], args[0])
    case OpNegate => VecNeg(resBase, args[0])
    case OpInverse => VecBatchInv(inv, resBase, args[0])
  }

  /** Vector steps are the scalar operator at every row. */
  lemma StepAt(inv: Ext -> Ext, op: Operator, resBase: bool, args: seq<Vec>, r: nat)
    requires |args| == Arity(op)
    requires forall k :: 0 <= k < |args| ==> Len(args[k]) == Len(args[0])
    requires resBase <==> forall k :: 0 <= k < |args| ==> args[k].BaseVec?
    requires r < Len(args[0])
    ensures Len(Step(inv, op, resBase, args)) == Len(args[0])
    ensures Step(inv, op, resBase, args).BaseVec? == resBase
    ensures Arity(op) == 1 ==> At(Step(inv, op, resBase, args), r) == Apply(inv, op, [At(args[0], r)])
    ensures Arity(op) == 2 ==>
              At(Step(inv, op, resBase, args), r) == Apply(inv, op, [At(args[0], r), At(args[1], r)])
  {
    hide Add, AddBase, SubBase, Neg, SubElt, Mul, MulByElement, MulElt, Inv, AddElt, NegElt, Sub,
         GenAdd, GenSub, GenMul, GenNeg, GenInverse;
    assert args[0].BaseVec? || !resBase;
    match op
    case OpAdd => VecAddAt(args[0], args[1], r);
    case OpSub => VecSubAt(args[0], args[1], r);
    case OpMul => VecMulAt(args[0], args[1], r);
    case OpDiv =>
      VecBatchInvAt(inv, args[1], r);
      VecMulAt(args[0], VecBatchInv(inv, args[1].BaseVec?, args[1]), r);
    case OpDouble => VecAddAt(args[0], args[0], r);
    case OpSquare => VecMulAt(args[0], args[0], r);
    case OpNegate => VecNegAt(args[0], r);
    case OpInverse => VecBatchInvAt(inv, args[0], r);
  }

  // ---- leaves ----

  /** What an opLeaf instruction loads: a vector leaf as is, a scalar broadcast. */
  function LeafVec(v: LeafValue, n: nat): Vec {
    match v
    case VectorValue(vec) => vec
    case ScalarValue(s) =>
      if s.isBase then BaseVec(seq(n, _ => BasePart(s.val))) else ExtVec(seq(n, _ => s.val))
  }

  predicate LeavesUniform(g: Graph, rt: Runtime, leaves: seq<NodeId>, n: nat) {
    forall i :: 0 <= i < |leaves| && leaves[i] in rt.values && rt.values[leaves[i]].VectorValue? ==>
      Len(rt.values[leaves[i]].vec) == n
  }

  datatype Prepared = Mismatch | NoVector | Ready(n: nat, vecs: seq<Vec>)

  /** Evaluates the vector leaves, checking they share one length, then broadcasts the scalars. */
  method PrepareLeaves(g: Graph, rt: Runtime, leaves: seq<NodeId>) returns (p: Prepared)
    requires Assigned(g, rt)
    requires forall i :: 0 <= i < |leaves| ==> leaves[i] < |g| && g[leaves[i]].Leaf?
    ensures p.Mismatch? ==> forall n :: !LeavesUniform(g, rt, leaves, n)
    ensures p.NoVector? ==> forall i :: 0 <= i < |leaves| ==> !g[leaves[i]].vector
    ensures p.Ready? ==>
              && LeavesUniform(g, rt, leaves, p.n)
              && (exists i :: 0 <= i < |leaves| && g[leaves[i]].vector)
              && |p.vecs| == |leaves|
              && (forall i :: 0 <= i < |leaves| ==> p.vecs[i] == LeafVec(rt.values[leaves[i]], p.n))
  {
    var n: int := -1;
    var vecs: seq<Vec> := seq(|leaves|, _ => BaseVec([]));
    var scalarIdx: seq<nat> := [];
    var i := 0;
    while i < |leaves|
      invariant 0 <= i <= |leaves| && |vecs| == |leaves|
      invariant n >= -1
      invariant n == -1 ==> forall j :: 0 <= j < i ==> !g[leaves[j]].vector
      invariant n != -1 ==> exists j :: 0 <= j < i && g[leaves[j]].vector && Len(rt.values[leaves[j]].vec) == n
      invariant forall j :: 0 <= j < i && g[leaves[j]].vector ==>
                  Len(rt.values[leaves[j]].vec) == n && vecs[j] == rt.values[leaves[j]].vec
      invariant forall j :: 0 <= j < i && !g[leaves[j]].vector ==> j in scalarIdx
      invariant forall k :: 0 <= k < |scalarIdx| ==> scalarIdx[k] < i && !g[leaves[scalarIdx[k]]].vector
    {
      if !g[leaves[i]].vector {
        scalarIdx := scalarIdx + [i];
      } else {
        vecs := vecs[i := rt.values[leaves[i]].vec];
        if n == -1 {
          n := Len(vecs[i]);
        } else if Len(vecs[i]) != n {
          return Mismatch;
        }
      }
      i := i + 1;
    }
    if n == -1 { return NoVector; }
    var k := 0;
    while k < |scalarIdx|
      invariant 0 <= k <= |scalarIdx| && |vecs| == |leaves|
      invariant forall j :: 0 <= j < |leaves| && g[leaves[j]].vector ==> vecs[j] == rt.values[leaves[j]].vec
      invariant forall m :: 0 <= m < k ==> vecs[scalarIdx[m]] == LeafVec(rt.values[leaves[scalarIdx[m]]], n)
    {
      vecs := vecs[scalarIdx[k] := LeafVec(rt.values[leaves[scalarIdx[k]]], n)];
      k := k + 1;
    }
    p := Ready(n, vecs);
  }

  // ---- execution ----

  /** v is node i's value at every row, typed as node i is. */
  ghost predicate Computes(g: Graph, rt: Runtime, n: nat, i: NodeId, v: Vec)
    requires WellFormed(g) && i < |g| && Uniform(g, rt, n, i)
  {
    && Len(v) == n
    && v.BaseVec? == !IsExtension(g, i)
    && forall r :: 0 <= r < n ==> At(v, r) == Eval(g, rt, n, i, r)
  }

  ghost predicate UniformPlan(g: Graph, rt: Runtime, n: nat, plan: Plan)
    requires WellFormed(g)
  {
    forall j :: 0 <= j < |plan.order| ==> plan.order[j] < |g| && Uniform(g, rt, n, plan.order[j])
  }

  lemma {:induction false} CodePrefix(g: Graph, plan: Plan, k: nat, m: nat)
    requires WellFormed(g) && Sorted(g, plan.order, plan.index)
    requires k <= m <= |plan.order| == |plan.slots|
    ensures Code(g, plan.order, plan.index, plan.slots, k) <= Code(g, plan.order, plan.index, plan.slots, m)
    decreases m
  {
    hide Instr;
    if k < m { CodePrefix(g, plan, k, m - 1); }
  }

  /** At the offset of instruction k the bytecode holds exactly that instruction. */
  lemma Fetch(g: Graph, root: NodeId, plan: Plan, p: CompiledProgram, k: nat)
    requires Implements(g, root, plan, p) && k < |plan.order|
    ensures var pc := |Code(g, plan.order, plan.index, plan.slots, k)|;
            var ins := Instr(g, plan.order, plan.index, plan.slots, k);
            && |Code(g, plan.order, plan.index, plan.slots, k + 1)| == pc + |ins|
            && pc + |ins| <= |p.bytecode|
            && p.bytecode[pc..pc + |ins|] == ins
  {
    hide Instr, LastUseOf, Reach, NoClobber, Typed;
    CodePrefix(g, plan, k + 1, |plan.order|);
    Slice(p.bytecode, Code(g, plan.order, plan.index, plan.slots, k), Instr(g, plan.order, plan.index, plan.slots, k));
  }

  lemma Slice(s: seq<int>, a: seq<int>, b: seq<int>)
    requires a + b <= s
    ensures s[|a|..|a| + |b|] == b
  {
  }

  /** A leaf whose tag matches loads into a slot of its type; otherwise AsBase/AsExt panics. */
  lemma LeafComputes(g: Graph, rt: Runtime, n: nat, i: NodeId)
    requires WellFormed(g) && i < |g| && g[i].Leaf? && Assigned(g, rt) && Uniform(g, rt, n, i)
    ensures TagMatches(g, rt, i) <==> LeafVec(rt.values[i], n).BaseVec? == !IsExtension(g, i)
    ensures TagMatches(g, rt, i) ==> Computes(g, rt, n, i, LeafVec(rt.values[i], n))
  {
  }

  /** One operation: the step on vectors holding the operands holds the node. */
  lemma OperationComputes(g: Graph, rt: Runtime, n: nat, i: NodeId, args: seq<Vec>)
    requires WellFormed(g) && i < |g| && g[i].Operation? && Uniform(g, rt, n, i)
    requires |args| == Arity(g[i].op)
    requires forall k :: 0 <= k < |args| ==> Computes(g, rt, n, g[i].operands[k], args[k])
    ensures !IsExtension(g, i) <==> forall k :: 0 <= k < |args| ==> args[k].BaseVec?
    ensures forall k :: 0 <= k < |args| ==> Len(args[k]) == Len(args[0])
    ensures Computes(g, rt, n, i, Step(rt.inv, g[i].op, !IsExtension(g, i), args))
  {
    hide Step, Apply;
    var operands := g[i].operands;
    assert forall k :: 0 <= k < |args| ==> args[k].BaseVec? == !IsExtension(g, operands[k]);
    assert forall k :: 0 <= k < |args| ==> Len(args[k]) == n;
    var base := !IsExtension(g, i);
    StepShape(rt.inv, g[i].op, base, args);
    forall r | 0 <= r < n
      ensures At(Step(rt.inv, g[i].op, base, args), r) == Eval(g, rt, n, i, r)
    {
      StepAt(rt.inv, g[i].op, base, args, r);
      assert At(args[0], r) == Eval(g, rt, n, operands[0], r);
      if Arity(g[i].op) == 2 {
        assert At(args[1], r) == Eval(g, rt, n, operands[1], r);
      }
    }
  }

  lemma StepShape(inv: Ext -> Ext, op: Operator, resBase: bool, args: seq<Vec>)
    requires |args| == Arity(op)
    requires forall k :: 0 <= k < |args| ==> Len(args[k]) == Len(args[0])
    requires resBase <==> forall k :: 0 <= k < |args| ==> args[k].BaseVec?
    ensures Len(Step(inv, op, resBase, args)) == Len(args[0])
    ensures Step(inv, op, resBase, args).BaseVec? == resBase
  {
    assert args[0].BaseVec? || !resBase;
  }

  datatype Outcome = Panic | Ok(vec: Vec)

  /** The slots of the nodes still to be read after k instructions hold their values. */
  ghost predicate LiveSlotsHold(g: Graph, rt: Runtime, n: nat, plan: Plan, k: nat, slots: seq<Vec>)
    requires WellFormed(g) && UniformPlan(g, rt, n, plan)
    requires k <= |plan.order| == |plan.slots| == |plan.lastUse|
    requires forall j :: 0 <= j < |plan.slots| ==> plan.slots[j] < |slots|
  {
    forall j :: 0 <= j < k && plan.lastUse[j] >= k ==>
      Computes(g, rt, n, plan.order[j], slots[plan.slots[j]])
  }

  ghost predicate SlotsTyped(p: CompiledProgram, n: nat, slots: seq<Vec>) {
    && |slots| == |p.slotTypes|
    && forall s :: 0 <= s < |slots| ==> slots[s].BaseVec? == p.slotTypes[s] && Len(slots[s]) == n
  }

  /** Writing node k's value in its slot keeps every other live value. */
  lemma WriteKeepsLive(g: Graph, rt: Runtime, n: nat, root: NodeId, plan: Plan, p: CompiledProgram,
                       k: nat, slots: seq<Vec>, v: Vec)
    requires Implements(g, root, plan, p) && UniformPlan(g, rt, n, plan)
    requires k < |plan.order| && SlotsTyped(p, n, slots)
    requires LiveSlotsHold(g, rt, n, plan, k, slots)
    requires Computes(g, rt, n, plan.order[k], v)
    ensures SlotsTyped(p, n, slots[plan.slots[k] := v])
    ensures LiveSlotsHold(g, rt, n, plan, k + 1, slots[plan.slots[k] := v])
  {
    hide Computes, Sorted, Code, LastUseOf, Reach;
    assert v.BaseVec? == !IsExtension(g, plan.order[k]) && Len(v) == n by { ComputesShape(g, rt, n, plan.order[k], v); }
    var after := slots[plan.slots[k] := v];
    forall j | 0 <= j < k + 1 && plan.lastUse[j] >= k + 1
      ensures Computes(g, rt, n, plan.order[j], after[plan.slots[j]])
    {
      if j < k { assert plan.slots[k] != plan.slots[j]; }
    }
  }

  lemma ComputesShape(g: Graph, rt: Runtime, n: nat, i: NodeId, v: Vec)
    requires WellFormed(g) && i < |g| && Uniform(g, rt, n, i) && Computes(g, rt, n, i, v)
    ensures v.BaseVec? == !IsExtension(g, i) && Len(v) == n
  {
  }

  /** The operands of instruction k sit in the slots it names. */
  lemma OperandsHold(g: Graph, rt: Runtime, n: nat, root: NodeId, plan: Plan, p: CompiledProgram,
                     k: nat, slots: seq<Vec>, m: nat)
    requires Implements(g, root, plan, p) && UniformPlan(g, rt, n, plan)
    requires k < |plan.order| && SlotsTyped(p, n, slots)
    requires LiveSlotsHold(g, rt, n, plan, k, slots)
    requires g[plan.order[k]].Operation? && m < |g[plan.order[k]].operands|
    ensures Computes(g, rt, n, g[plan.order[k]].operands[m],
                     slots[plan.slots[plan.index[g[plan.order[k]].operands[m]]]])
  {
    OperandIsLive(g, plan.order, plan.index, plan.lastUse, k, m);
  }

  function OperatorOf(code: int): (op: Operator)
    requires 1 <= code <= 8
    ensures Opcode(op) == code
  {
    match code
    case 1 => OpAdd
    case 2 => OpSub
    case 3 => OpMul
    case 4 => OpDiv
    case 5 => OpDouble
    case 6 => OpSquare
    case 7 => OpNegate
    case _ => OpInverse
  }

  ghost predicate TagsHold(g: Graph, rt: Runtime, nodes: set<NodeId>)
    requires Assigned(g, rt)
  {
    forall x :: x in nodes && x < |g| && g[x].Leaf? ==> TagMatches(g, rt, x)
  }

  /** Everything known between two instructions. */
  ghost predicate Invariant(g: Graph, rt: Runtime, n: nat, root: NodeId, plan: Plan, p: CompiledProgram,
                            k: nat, pc: nat, slots: seq<Vec>)
    requires Implements(g, root, plan, p) && UniformPlan(g, rt, n, plan) && Assigned(g, rt)
  {
    && k <= |plan.order|
    && pc == |Code(g, plan.order, plan.index, plan.slots, k)|
    && SlotsTyped(p, n, slots)
    && LiveSlotsHold(g, rt, n, plan, k, slots)
    && forall j :: 0 <= j < k && g[plan.order[j]].Leaf? ==> TagMatches(g, rt, plan.order[j])
  }

  lemma LeafAt(g: Graph, root: NodeId, plan: Plan, p: CompiledProgram, k: nat)
    requires Implements(g, root, plan, p) && k < |plan.order| && g[plan.order[k]].Leaf?
    ensures |Leaves(g, plan.order, k)| < |p.leaves|
    ensures p.leaves[|Leaves(g, plan.order, k)|] == plan.order[k]
  {
    hide Code, LastUseOf, Reach, NoClobber, Typed, IsExtension;
    LeavesPrefix(g, plan.order, k + 1, |plan.order|);
  }

  lemma StepLeaf(g: Graph, rt: Runtime, n: nat, root: NodeId, plan: Plan, p: CompiledProgram,
                 k: nat, pc: nat, slots: seq<Vec>, v: Vec)
    requires Implements(g, root, plan, p) && UniformPlan(g, rt, n, plan) && Assigned(g, rt)
    requires Invariant(g, rt, n, root, plan, p, k, pc, slots)
    requires k < |plan.order| && g[plan.order[k]].Leaf?
    requires v == LeafVec(rt.values[plan.order[k]], n)
    ensures TagMatches(g, rt, plan.order[k]) <==> v.BaseVec? == slots[plan.slots[k]].BaseVec?
    ensures TagMatches(g, rt, plan.order[k]) ==>
              Invariant(g, rt, n, root, plan, p, k + 1, pc + 3, slots[plan.slots[k] := v])
  {
    hide Code, Sorted, LastUseOf, Reach, LiveSlotsHold, NoClobber;
    LeafComputes(g, rt, n, plan.order[k]);
    Fetch(g, root, plan, p, k);
    if TagMatches(g, rt, plan.order[k]) {
      WriteKeepsLive(g, rt, n, root, plan, p, k, slots, v);
    }
  }

  /** The operand slots an operation instruction reads. */
  ghost function ArgSlots(g: Graph, root: NodeId, plan: Plan, p: CompiledProgram, k: nat): (a: seq<nat>)
    requires Implements(g, root, plan, p) && k < |plan.order| && g[plan.order[k]].Operation?
    ensures |a| == Arity(g[plan.order[k]].op)
  {
    var operands := g[plan.order[k]].operands;
    if Arity(g[plan.order[k]].op) == 2 then
      [plan.slots[plan.index[operands[0]]], plan.slots[plan.index[operands[1]]]]
    else [plan.slots[plan.index[operands[0]]]]
  }

  lemma ArgsInRange(g: Graph, root: NodeId, plan: Plan, p: CompiledProgram, k: nat)
    requires Implements(g, root, plan, p) && k < |plan.order| && g[plan.order[k]].Operation?
    ensures forall m :: 0 <= m < |ArgSlots(g, root, plan, p, k)| ==> ArgSlots(g, root, plan, p, k)[m] < |p.slotTypes|
  {
    hide Code, LastUseOf, Reach, NoClobber, IsExtension, Leaves;
  }

  ghost predicate Loaded(slots: seq<Vec>, argSlots: seq<nat>, args: seq<Vec>) {
    |args| == |argSlots| &&
    forall m :: 0 <= m < |args| ==> argSlots[m] < |slots| && args[m] == slots[argSlots[m]]
  }

  lemma StepOperation(g: Graph, rt: Runtime, n: nat, root: NodeId, plan: Plan, p: CompiledProgram,
                      k: nat, pc: nat, slots: seq<Vec>, args: seq<Vec>)
    requires Implements(g, root, plan, p) && UniformPlan(g, rt, n, plan) && Assigned(g, rt)
    requires Invariant(g, rt, n, root, plan, p, k, pc, slots)
    requires k < |plan.order| && g[plan.order[k]].Operation?
    requires Loaded(slots, ArgSlots(g, root, plan, p, k), args)
    ensures forall m :: 0 <= m < |args| ==> Len(args[m]) == Len(args[0])
    ensures slots[plan.slots[k]].BaseVec? <==> forall m :: 0 <= m < |args| ==> args[m].BaseVec?
    ensures Invariant(g, rt, n, root, plan, p, k + 1, pc + 2 + |args|,
              slots[plan.slots[k] := Step(rt.inv, g[plan.order[k]].op, slots[plan.slots[k]].BaseVec?, args)])
  {
    hide *;
    var i := plan.order[k];
    ArgsCompute(g, rt, n, root, plan, p, k, pc, slots, args);
    FetchOperation(g, root, plan, p, k);
    AtOffset(g, rt, n, root, plan, p, k, pc, slots);
    OperationComputes(g, rt, n, i, args);
    DestinationType(g, rt, n, root, plan, p, k, pc, slots);
    Advance(g, rt, n, root, plan, p, k, pc, slots, Step(rt.inv, g[i].op, !IsExtension(g, i), args));
  }

  lemma AtOffset(g: Graph, rt: Runtime, n: nat, root: NodeId, plan: Plan, p: CompiledProgram,
                 k: nat, pc: nat, slots: seq<Vec>)
    requires Implements(g, root, plan, p) && UniformPlan(g, rt, n, plan) && Assigned(g, rt)
    requires Invariant(g, rt, n, root, plan, p, k, pc, slots) && k < |plan.order|
    ensures pc == |Code(g, plan.order, plan.index, plan.slots, k)| && |slots| == |p.slotTypes|
  {
  }

  lemma ArgsCompute(g: Graph, rt: Runtime, n: nat, root: NodeId, plan: Plan, p: CompiledProgram,
                    k: nat, pc: nat, slots: seq<Vec>, args: seq<Vec>)
    requires Implements(g, root, plan, p) && UniformPlan(g, rt, n, plan) && Assigned(g, rt)
    requires Invariant(g, rt, n, root, plan, p, k, pc, slots)
    requires k < |plan.order| && g[plan.order[k]].Operation?
    requires Loaded(slots, ArgSlots(g, root, plan, p, k), args)
    ensures |args| == Arity(g[plan.order[k]].op) == |g[plan.order[k]].operands|
    ensures WellFormed(g) && plan.order[k] < |g| && Uniform(g, rt, n, plan.order[k])
    ensures forall m :: 0 <= m < |args| ==> Computes(g, rt, n, g[plan.order[k]].operands[m], args[m])
  {
    hide Code, LastUseOf, Reach, LiveSlotsHold, NoClobber, Computes, Typed;
    forall m | 0 <= m < |args| ensures Computes(g, rt, n, g[plan.order[k]].operands[m], args[m]) {
      OperandsHold(g, rt, n, root, plan, p, k, slots, m);
    }
  }

  lemma DestinationType(g: Graph, rt: Runtime, n: nat, root: NodeId, plan: Plan, p: CompiledProgram,
                        k: nat, pc: nat, slots: seq<Vec>)
    requires Implements(g, root, plan, p) && UniformPlan(g, rt, n, plan) && Assigned(g, rt)
    requires Invariant(g, rt, n, root, plan, p, k, pc, slots) && k < |plan.order|
    ensures plan.slots[k] < |slots| && slots[plan.slots[k]].BaseVec? == !IsExtension(g, plan.order[k])
  {
  }

  /** An operation instruction: opcode, destination, operand slots. */
  lemma FetchOperation(g: Graph, root: NodeId, plan: Plan, p: CompiledProgram, k: nat)
    requires Implements(g, root, plan, p) && k < |plan.order| && g[plan.order[k]].Operation?
    ensures var pc, args := |Code(g, plan.order, plan.index, plan.slots, k)|, ArgSlots(g, root, plan, p, k);
            && |Code(g, plan.order, plan.index, plan.slots, k + 1)| == pc + 2 + |args|
            && pc + 2 + |args| <= |p.bytecode|
            && p.bytecode[pc] == Opcode(g[plan.order[k]].op)
            && p.bytecode[pc + 1] == plan.slots[k]
            && forall m :: 0 <= m < |args| ==> p.bytecode[pc + 2 + m] == args[m]
  {
    hide Code, LastUseOf, Reach, NoClobber, Typed;
    Fetch(g, root, plan, p, k);
    var pc := |Code(g, plan.order, plan.index, plan.slots, k)|;
    var ins := Instr(g, plan.order, plan.index, plan.slots, k);
    var args := ArgSlots(g, root, plan, p, k);
    forall t | 0 <= t < |ins| ensures p.bytecode[pc + t] == ins[t] {
      assert p.bytecode[pc..pc + |ins|][t] == ins[t];
    }
    assert p.bytecode[pc + 0] == ins[0] && p.bytecode[pc + 1] == ins[1];
    assert ins[2..] == args;
  }

  lemma Advance(g: Graph, rt: Runtime, n: nat, root: NodeId, plan: Plan, p: CompiledProgram,
                k: nat, pc: nat, slots: seq<Vec>, v: Vec)
    requires Implements(g, root, plan, p) && UniformPlan(g, rt, n, plan) && Assigned(g, rt)
    requires Invariant(g, rt, n, root, plan, p, k, pc, slots)
    requires k < |plan.order| && g[plan.order[k]].Operation?
    requires Computes(g, rt, n, plan.order[k], v)
    ensures Invariant(g, rt, n, root, plan, p, k + 1, |Code(g, plan.order, plan.index, plan.slots, k + 1)|,
                      slots[plan.slots[k] := v])
  {
    hide Code, Sorted, LastUseOf, Reach, LiveSlotsHold, NoClobber, Computes;
    WriteKeepsLive(g, rt, n, root, plan, p, k, slots, v);
  }

  lemma Begin(g: Graph, rt: Runtime, n: nat, root: NodeId, plan: Plan, p: CompiledProgram, slots: seq<Vec>)
    requires Implements(g, root, plan, p) && UniformPlan(g, rt, n, plan) && Assigned(g, rt)
    requires SlotsTyped(p, n, slots)
    ensures Invariant(g, rt, n, root, plan, p, 0, 0, slots)
  {
  }

  /** The program counter is inside the bytecode exactly while instructions remain. */
  lemma Remaining(g: Graph, rt: Runtime, n: nat, root: NodeId, plan: Plan, p: CompiledProgram,
                  k: nat, pc: nat, slots: seq<Vec>)
    requires Implements(g, root, plan, p) && UniformPlan(g, rt, n, plan) && Assigned(g, rt)
    requires Invariant(g, rt, n, root, plan, p, k, pc, slots)
    ensures pc < |p.bytecode| <==> k < |plan.order|
  {
    hide LastUseOf, Reach, NoClobber, Typed, LiveSlotsHold;
    if k < |plan.order| { Fetch(g, root, plan, p, k); }
  }

  lemma DecodeLeaf(g: Graph, rt: Runtime, n: nat, root: NodeId, plan: Plan, p: CompiledProgram,
                   k: nat, pc: nat, slots: seq<Vec>)
    requires Implements(g, root, plan, p) && UniformPlan(g, rt, n, plan) && Assigned(g, rt)
    requires Invariant(g, rt, n, root, plan, p, k, pc, slots)
    requires k < |plan.order| && g[plan.order[k]].Leaf?
    ensures pc + 3 <= |p.bytecode| && p.bytecode[pc] == 0 && p.bytecode[pc + 1] == plan.slots[k]
    ensures 0 <= p.bytecode[pc + 2] < |p.leaves| && p.leaves[p.bytecode[pc + 2]] == plan.order[k]
  {
    hide LastUseOf, Reach, NoClobber, Typed, LiveSlotsHold, Code;
    Fetch(g, root, plan, p, k);
    LeafAt(g, root, plan, p, k);
    var ins := Instr(g, plan.order, plan.index, plan.slots, k);
    var window := p.bytecode[pc..pc + |ins|];
    assert window[0] == p.bytecode[pc] && window[1] == p.bytecode[pc + 1] && window[2] == p.bytecode[pc + 2];
  }

  lemma DecodeOperation(g: Graph, rt: Runtime, n: nat, root: NodeId, plan: Plan, p: CompiledProgram,
                        k: nat, pc: nat, slots: seq<Vec>)
    requires Implements(g, root, plan, p) && UniformPlan(g, rt, n, plan) && Assigned(g, rt)
    requires Invariant(g, rt, n, root, plan, p, k, pc, slots)
    requires k < |plan.order| && g[plan.order[k]].Operation?
    ensures var op, args := g[plan.order[k]].op, ArgSlots(g, root, plan, p, k);
            && pc + 2 + Arity(op) <= |p.bytecode|
            && 1 <= p.bytecode[pc] <= 8 && OperatorOf(p.bytecode[pc]) == op
            && p.bytecode[pc + 1] == plan.slots[k]
            && |args| == Arity(op) && 1 <= Arity(op) <= 2
            && 0 <= p.bytecode[pc + 2] == args[0] < |slots|
            && (Arity(op) == 2 ==> 0 <= p.bytecode[pc + 3] == args[1] < |slots|)
  {
    hide *;
    Basics(g, root, plan, p, rt, n, k, pc, slots);
    FetchOperation(g, root, plan, p, k);
    AtOffset(g, rt, n, root, plan, p, k, pc, slots);
    var op, args := g[plan.order[k]].op, ArgSlots(g, root, plan, p, k);
    OpcodeInjective(op);
    ArgsInRange(g, root, plan, p, k);
    assert p.bytecode[pc + 2 + 0] == args[0];
    assert |args| == 2 ==> p.bytecode[pc + 2 + 1] == args[1];
  }

  lemma LoadedArgs(slots: seq<Vec>, argSlots: seq<nat>, args: seq<Vec>)
    requires |args| == |argSlots| <= 2
    requires |args| >= 1 ==> argSlots[0] < |slots| && args[0] == slots[argSlots[0]]
    requires |args| == 2 ==> argSlots[1] < |slots| && args[1] == slots[argSlots[1]]
    ensures Loaded(slots, argSlots, args)
  {
  }

  lemma OpcodeInjective(op: Operator)
    ensures 1 <= Opcode(op) <= 8 && OperatorOf(Opcode(op)) == op && 1 <= Arity(op) <= 2
  {
  }

  lemma Finish(g: Graph, rt: Runtime, n: nat, root: NodeId, plan: Plan, p: CompiledProgram,
               pc: nat, slots: seq<Vec>)
    requires Implements(g, root, plan, p) && UniformPlan(g, rt, n, plan) && Assigned(g, rt)
    requires Invariant(g, rt, n, root, plan, p, |plan.order|, pc, slots)
    ensures p.resultSlot < |slots|
    ensures WellFormed(g) && root < |g| && Uniform(g, rt, n, root)
    ensures Computes(g, rt, n, root, slots[p.resultSlot])
    ensures TagsHold(g, rt, Reach(g, root))
  {
    hide Code, NoClobber, Reach, Computes;
    var last := |plan.order| - 1;
    assert LastUseOf(g, plan.order, plan.index, |plan.order|, last, plan.lastUse[last]);
    forall x | x in plan.index.Keys && x < |g| && g[x].Leaf? ensures TagMatches(g, rt, x) {
      assert plan.order[plan.index[x]] == x;
    }
  }

  lemma LeafPanics(g: Graph, rt: Runtime, root: NodeId, plan: Plan, p: CompiledProgram, k: nat)
    requires Implements(g, root, plan, p) && Assigned(g, rt) && k < |plan.order| && g[plan.order[k]].Leaf?
    requires !TagMatches(g, rt, plan.order[k])
    ensures !TagsHold(g, rt, Reach(g, root))
  {
    assert plan.order[k] in plan.index.Keys;
  }

  lemma Basics(g: Graph, root: NodeId, plan: Plan, p: CompiledProgram, rt: Runtime, n: nat, k: nat, pc: nat, slots: seq<Vec>)
    requires Implements(g, root, plan, p) && UniformPlan(g, rt, n, plan) && Assigned(g, rt)
    requires Invariant(g, rt, n, root, plan, p, k, pc, slots) && k < |plan.order|
    ensures |plan.slots| == |plan.order| && plan.order[k] < |g| && plan.slots[k] < |slots|
    ensures g[plan.order[k]].Leaf? ==> plan.order[k] in rt.values
  {
  }

  lemma SlotCount(g: Graph, root: NodeId, plan: Plan, p: CompiledProgram)
    requires Implements(g, root, plan, p)
    ensures p.numSlots == |p.slotTypes|
  {
  }

  /** Zeroed backing memory for every slot, of its static type. */
  method Allocate(p: CompiledProgram, n: nat) returns (slots: array<Vec>)
    requires p.numSlots == |p.slotTypes|
    ensures fresh(slots) && SlotsTyped(p, n, slots[..])
  {
    slots := new Vec[p.numSlots](s requires 0 <= s < p.numSlots =>
      if p.slotTypes[s] then BaseVec(seq(n, _ => 0)) else ExtVec(seq(n, _ => Zero6)));
  }

  /** Runs the bytecode from freshly allocated slots.  It panics exactly when a
      leaf below the root does not carry its declared field type; otherwise the
      result slot holds the root's recursive value at every row. */
  method Execute(g: Graph, rt: Runtime, p: CompiledProgram, n: nat, leafVecs: seq<Vec>,
                 ghost root: NodeId, ghost plan: Plan) returns (r: Outcome)
    requires Implements(g, root, plan, p) && Assigned(g, rt) && UniformPlan(g, rt, n, plan)
    requires |leafVecs| == |p.leaves|
    requires forall i :: 0 <= i < |p.leaves| ==>
               p.leaves[i] in rt.values && leafVecs[i] == LeafVec(rt.values[p.leaves[i]], n)
    ensures r.Ok? <==> TagsHold(g, rt, Reach(g, root))
    ensures r.Ok? ==> Uniform(g, rt, n, root) && Computes(g, rt, n, root, r.vec)
  {
    hide *;
    assert p.numSlots == |p.slotTypes| by { SlotCount(g, root, plan, p); }
    var slots := Allocate(p, n);
    var bc := p.bytecode;
    var pc := 0;
    ghost var k := 0;
    Begin(g, rt, n, root, plan, p, slots[..]);
    while pc < |bc|
      invariant 0 <= pc && k <= |plan.order|
      invariant Invariant(g, rt, n, root, plan, p, k, pc, slots[..])
      decreases |bc| - pc
    {
      ghost var before := slots[..];
      Remaining(g, rt, n, root, plan, p, k, pc, before);
      Basics(g, root, plan, p, rt, n, k, pc, before);
      if g[plan.order[k]].Leaf? {
        DecodeLeaf(g, rt, n, root, plan, p, k, pc, before);
      } else {
        DecodeOperation(g, rt, n, root, plan, p, k, pc, before);
      }
      var code, dst := bc[pc], bc[pc + 1];
      if code == 0 {
        var lv := leafVecs[bc[pc + 2]];
        StepLeaf(g, rt, n, root, plan, p, k, pc, before, lv);
        if lv.BaseVec? != slots[dst].BaseVec? {
          LeafPanics(g, rt, root, plan, p, k);
          return Panic;
        }
        slots[dst] := lv;
        pc := pc + 3;
      } else {
        var op := OperatorOf(code);
        var args := if Arity(op) == 2 then [slots[bc[pc + 2]], slots[bc[pc + 3]]] else [slots[bc[pc + 2]]];
        LoadedArgs(before, ArgSlots(g, root, plan, p, k), args);
        StepOperation(g, rt, n, root, plan, p, k, pc, before, args);
        slots[dst] := Step(rt.inv, op, slots[dst].BaseVec?, args);
        pc := pc + 2 + |args|;
      }
      k := k + 1;
    }
    Remaining(g, rt, n, root, plan, p, k, pc, slots[..]);
    Finish(g, rt, n, root, plan, p, pc, slots[..]);
    r := Ok(slots[p.resultSlot]);
  }

  // ---- the leaves below a node decide what can run ----

  ghost predicate VectorLeaf(g: Graph, x: NodeId) { x < |g| && g[x].Leaf? && g[x].vector }

  lemma {:induction false} UniformOverReach(g: Graph, rt: Runtime, n: nat, i: NodeId)
    requires WellFormed(g) && i < |g| && Assigned(g, rt)
    ensures Uniform(g, rt, n, i) <==>
            forall x :: x in Reach(g, i) && VectorLeaf(g, x) ==> Len(rt.values[x].vec) == n
    decreases i
  {
    if g[i].Operation? {
      var operands := g[i].operands;
      forall k | 0 <= k < |operands|
        ensures Uniform(g, rt, n, operands[k]) <==>
                forall x :: x in Reach(g, operands[k]) && VectorLeaf(g, x) ==> Len(rt.values[x].vec) == n
      {
        UniformOverReach(g, rt, n, operands[k]);
      }
    }
  }

  lemma {:induction false} MultiValuedOverReach(g: Graph, i: NodeId)
    requires WellFormed(g) && i < |g|
    ensures IsMultiValued(g, i) <==> exists x :: x in Reach(g, i) && VectorLeaf(g, x)
    decreases i
  {
    if g[i].Operation? {
      var operands := g[i].operands;
      forall k | 0 <= k < |operands|
        ensures IsMultiValued(g, operands[k]) <==> exists x :: x in Reach(g, operands[k]) && VectorLeaf(g, x)
      {
        MultiValuedOverReach(g, operands[k]);
      }
      if IsMultiValued(g, i) {
        var k :| 0 <= k < |operands| && IsMultiValued(g, operands[k]);
        var x :| x in Reach(g, operands[k]) && VectorLeaf(g, x);
        assert x in Reach(g, i);
      }
    } else {
      assert i in Reach(g, i);
    }
  }

  /** The program's leaves are exactly the leaves below the root. */
  lemma LeavesAreReach(g: Graph, root: NodeId, plan: Plan, p: CompiledProgram, x: NodeId)
    requires Implements(g, root, plan, p)
    ensures x in p.leaves <==> x in Reach(g, root) && x < |g| && g[x].Leaf?
  {
    hide Code, LastUseOf, NoClobber, Typed, Reach;
    LeavesMembers(g, plan.order, |plan.order|, x);
    assert plan.order[..|plan.order|] == plan.order;
    if x in plan.index { assert plan.order[plan.index[x]] == x; }
  }

  lemma UniformEverywhere(g: Graph, rt: Runtime, root: NodeId, plan: Plan, p: CompiledProgram, n: nat)
    requires Implements(g, root, plan, p) && Assigned(g, rt)
    ensures Uniform(g, rt, n, root) <==> LeavesUniform(g, rt, p.leaves, n)
    ensures Uniform(g, rt, n, root) ==> UniformPlan(g, rt, n, plan)
  {
    hide Code, LastUseOf, NoClobber, Typed, Reach;
    UniformOverReach(g, rt, n, root);
    forall x: NodeId ensures x in p.leaves <==> x in Reach(g, root) && x < |g| && g[x].Leaf? {
      LeavesAreReach(g, root, plan, p, x);
    }
    assert LeavesUniform(g, rt, p.leaves, n) <==>
           forall x :: x in p.leaves && x in rt.values && rt.values[x].VectorValue? ==> Len(rt.values[x].vec) == n;
    if Uniform(g, rt, n, root) {
      forall j | 0 <= j < |plan.order| ensures plan.order[j] < |g| && Uniform(g, rt, n, plan.order[j]) {
        SortedIsClosed(g, plan.order, plan.index, plan.order[j]);
        UniformOverReach(g, rt, n, plan.order[j]);
      }
    }
  }

  /** When an expression runs: it has a vector leaf, its vector leaves share one
      length, and every leaf carries its declared field type. */
  ghost predicate Runs(g: Graph, rt: Runtime, root: NodeId)
    requires WellFormed(g) && root < |g| && Assigned(g, rt)
  {
    && IsMultiValued(g, root)
    && TagsHold(g, rt, Reach(g, root))
    && exists n: nat :: Uniform(g, rt, n, root)
  }

  /** v is the expression's value: at every row, what recursive evaluation gives. */
  ghost predicate IsValue(g: Graph, rt: Runtime, root: NodeId, v: Vec)
    requires WellFormed(g) && root < |g|
  {
    Uniform(g, rt, Len(v), root) && Computes(g, rt, Len(v), root, v)
  }

  method RunProgram(g: Graph, rt: Runtime, p: CompiledProgram, ghost root: NodeId, ghost plan: Plan)
    returns (r: Outcome)
    requires WellFormed(g) && root < |g| && Implements(g, root, plan, p) && Assigned(g, rt)
    ensures r.Ok? <==> Runs(g, rt, root)
    ensures r.Ok? ==> IsValue(g, rt, root, r.vec)
  {
    hide Implements, Reach, IsMultiValued, TagsHold, Uniform;
    forall x: NodeId ensures x in p.leaves <==> x in Reach(g, root) && x < |g| && g[x].Leaf? {
      LeavesAreReach(g, root, plan, p, x);
    }
    MultiValuedOverReach(g, root);
    forall n ensures Uniform(g, rt, n, root) <==> LeavesUniform(g, rt, p.leaves, n) {
      UniformEverywhere(g, rt, root, plan, p, n);
    }
    forall i | 0 <= i < |p.leaves| ensures p.leaves[i] < |g| && g[p.leaves[i]].Leaf? {
      assert p.leaves[i] in p.leaves;
    }
    var prepared := PrepareLeaves(g, rt, p.leaves);
    match prepared
    case Mismatch => r := Panic;
    case NoVector => r := Panic;
    case Ready(n, vecs) =>
      UniformEverywhere(g, rt, root, plan, p, n);
      r := Execute(g, rt, p, n, vecs, root, plan);
  }

  /** EvaluateVector of an operation: compile it, then run the bytecode.  It
      panics unless the expression runs; then every row of the result is the
      recursive evaluation of the expression at that row. */
  method EvaluateVector(g: Graph, rt: Runtime, root: NodeId) returns (r: Outcome)
    requires WellFormed(g) && root < |g| && g[root].Operation? && Assigned(g, rt)
    ensures r.Ok? <==> Runs(g, rt, root)
    ensures r.Ok? ==> IsValue(g, rt, root, r.vec)
  {
    if !IsMultiValued(g, root) {
      return Panic;
    }
    hide *;
    var p, plan := CompileExpr(g, root);
    r := RunProgram(g, rt, p, root, plan);
  }
}
