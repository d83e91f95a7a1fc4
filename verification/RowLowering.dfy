/** Pinning an expression to one row: column views become column positions. */
module RowLowering {
  import opened KoalaBear
  import opened ExtField
  import opened Expressions
  import opened Columns
  import opened Editing
  import ExprMachine
  import H = RowHashes

  datatype Column = Column(id: nat, mod: nat, ext: bool)

  datatype Symbol =
    | ColumnView(column: Column, shift: int)
    | ColumnPosition(column: Column, position: int)
    | VectorConstant(value: Elt, mod: nat)
    | ScalarConstant(value: Elt)
    | Scalar(id: nat, ext: bool)  // a cell or a coin

  type Expression = Tree<Symbol>
  type Payload = map<NodeId, Symbol>

  predicate IsVector(s: Symbol) { s.ColumnView? || s.VectorConstant? }

  function IsExt(s: Symbol): bool {
    match s
    case ColumnView(c, _) => c.ext
    case ColumnPosition(c, _) => c.ext
    case VectorConstant(_, _) => false
    case ScalarConstant(_) => false
    case Scalar(_, ext) => ext
  }

  /** The graph's leaves carry the flags of their symbols. */
  predicate Flagged(g: Graph, leaves: Payload) {
    forall i :: 0 <= i < |g| && g[i].Leaf? ==>
      i in leaves && g[i].ext == IsExt(leaves[i]) && g[i].vector == IsVector(leaves[i])
  }

  // ---- runtime ----

  datatype Env = Env(inv: Ext -> Ext, columns: map<nat, ConcreteVector>, size: nat -> nat,
                     padding: nat -> Padding, scalars: map<nat, Gen>)

  /** The column is assigned, fits its module, and is base-field unless declared otherwise. */
  predicate ColumnOk(env: Env, c: Column) {
    && c.id in env.columns && env.size(c.mod) > 0
    && Fits(env.padding(c.mod), env.size(c.mod), env.columns[c.id])
    && (!c.ext ==> env.columns[c.id].plain.BaseVec?)
  }

  /** The absolute row of a position, counted from the end when negative. */
  predicate RowOk(env: Env, c: Column, position: int) {
    0 <= position + env.size(c.mod) && position < env.size(c.mod)
  }

  function ResolvedRow(env: Env, c: Column, position: int): int {
    if position < 0 then position + env.size(c.mod) else position
  }

  predicate SymbolOk(env: Env, s: Symbol) {
    match s
    case ColumnView(c, _) => ColumnOk(env, c)
    case ColumnPosition(c, position) => ColumnOk(env, c) && RowOk(env, c, position)
    case VectorConstant(_, mod) => env.size(mod) > 0
    case ScalarConstant(_) => true
    case Scalar(id, _) => id in env.scalars && Honest(env.scalars[id])
  }

  /** The single value of a scalar leaf. */
  function SingleOf(env: Env, s: Symbol): Gen
    requires SymbolOk(env, s) && !IsVector(s)
  {
    match s
    case ColumnPosition(c, position) =>
      ElementAtN(env.padding(c.mod), env.size(c.mod), env.columns[c.id], ResolvedRow(env, c, position))
    case ScalarConstant(v) => FromBase(v)
    case Scalar(id, _) => env.scalars[id]
  }

  function BasePadded(pad: Padding, n: nat, cv: ConcreteVector): (s: seq<Elt>)
    requires Fits(pad, n, cv) && cv.plain.BaseVec?
    ensures |s| == n
  {
    var gap := n - Len(cv.plain);
    if pad.PadLeft? then Fill(cv.padding, gap) + cv.plain.base else cv.plain.base + Fill(cv.padding, gap)
  }

  /** The full-sized vector of a vector leaf. */
  function VectorOf(env: Env, s: Symbol): Vec
    requires SymbolOk(env, s) && IsVector(s)
  {
    match s
    case ColumnView(c, shift) =>
      var pad, n, cv := env.padding(c.mod), env.size(c.mod), env.columns[c.id];
      if c.ext then ExtVec(Rotated(Padded(pad, n, cv), shift)) else BaseVec(Rotated(BasePadded(pad, n, cv), shift))
    case VectorConstant(v, mod) => BaseVec(Fill(v, env.size(mod)))
  }

  predicate AllOk(env: Env, leaves: Payload) { forall i :: i in leaves ==> SymbolOk(env, leaves[i]) }

  function LeafValueOf(env: Env, s: Symbol): LeafValue
    requires SymbolOk(env, s)
  {
    if IsVector(s) then VectorValue(VectorOf(env, s)) else ScalarValue(SingleOf(env, s))
  }

  /** What the vector evaluator reads at the leaves. */
  function RuntimeOf(env: Env, leaves: Payload): Runtime
    requires AllOk(env, leaves)
  {
    Runtime(env.inv, map i | i in leaves :: LeafValueOf(env, leaves[i]))
  }

  /** Row r of a view is the column at row (r + shift) mod n. */
  lemma ViewAt(env: Env, c: Column, shift: int, r: nat)
    requires ColumnOk(env, c) && r < env.size(c.mod)
    ensures var n := env.size(c.mod);
      var v := VectorOf(env, ColumnView(c, shift));
      && 0 <= (r + shift) % n < n && Len(v) == n && Honest(At(v, r))
      && At(v, r).val == ElementAtN(env.padding(c.mod), n, env.columns[c.id], (r + shift) % n).val
  {
    hide Rotated, ElementAtN, Padded, BasePadded;
    var pad, n, cv := env.padding(c.mod), env.size(c.mod), env.columns[c.id];
    var k := (r + shift) % n;
    if c.ext {
      RotatedAt(Padded(pad, n, cv), shift, r);
      PaddedAt(pad, n, cv, k);
    } else {
      RotatedAt(BasePadded(pad, n, cv), shift, r);
      BasePaddedAt(pad, n, cv, k);
    }
  }

  lemma BasePaddedAt(pad: Padding, n: nat, cv: ConcreteVector, r: nat)
    requires Fits(pad, n, cv) && cv.plain.BaseVec? && r < n
    ensures Lift(BasePadded(pad, n, cv)[r]) == ElementAtN(pad, n, cv, r).val
  {
    hide Lift;
  }

  // ---- scalar evaluation ----

  predicate Shaped(t: Expression) {
    t.Branch? ==> |t.args| == Arity(t.op) && forall k :: 0 <= k < |t.args| ==> Shaped(t.args[k])
  }

  /** No vector leaf, and every leaf readable: EvaluateSingle does not panic. */
  predicate Scalable(env: Env, t: Expression) {
    match t
    case Atom(s) => !IsVector(s) && SymbolOk(env, s)
    case Branch(_, args) => forall k :: 0 <= k < |args| ==> Scalable(env, args[k])
  }

  function EvaluateSingle(env: Env, t: Expression): Gen
    requires Shaped(t) && Scalable(env, t)
  {
    match t
    case Atom(s) => SingleOf(env, s)
    case Branch(op, args) =>
      Apply(env.inv, op, seq(|args|, k requires 0 <= k < |args| => EvaluateSingle(env, args[k])))
  }

  // ---- lowering ----

  /** (position + shift) mod n, as the source computes it. */
  function ColumnViewAtRow(size: nat -> nat, c: Column, shift: int, position: int): Symbol
    requires size(c.mod) > 0
  {
    var target := Rem(position + shift, size(c.mod));
    ColumnPosition(c, if target < 0 then target + size(c.mod) else target)
  }

  /** The rewrite at one node; modules are sized. */
  function LowerNode(size: nat -> nat, position: int, curr: Expression, kids: seq<Expression>): Expression {
    if curr.Branch? then DefaultConstruct(curr, kids)
    else match curr.leaf
      case ColumnView(c, shift) =>
        if size(c.mod) > 0 then Atom(ColumnViewAtRow(size, c, shift, position)) else curr
      case VectorConstant(v, _) => Atom(ScalarConstant(v))
      case _ => DefaultConstruct(curr, kids)
  }

  /** The constructor handed to EditExpression. */
  function Lower(size: nat -> nat, position: int): (Expression, seq<Expression>) -> Expression {
    (curr, kids) => LowerNode(size, position, curr, kids)
  }

  /** inv agrees with the base field's inverse on base elements. */
  ghost predicate InvAgrees(inv: Ext -> Ext) { forall a: Elt :: inv(Lift(a)) == Lift(Inv(a)) }

  ghost predicate SameValue(a: Gen, b: Gen) { a.val == b.val && Honest(a) && Honest(b) }

  lemma BaseOf(a: Elt)
    ensures BasePart(Lift(a)) == a
  {
  }

  lemma AddHonest(a: Gen, b: Gen)
    requires Honest(a) && Honest(b)
    ensures Honest(GenAdd(a, b)) && Honest(GenSub(a, b)) && Honest(GenNeg(a))
  {
    hide Add, Sub, Neg, Lift, BasePart;
    var x, y := BasePart(a.val), BasePart(b.val);
    if a.isBase && b.isBase {
      LiftAdd(x, y); LiftSub(x, y);
      BaseOf(AddElt(x, y)); BaseOf(SubElt(x, y));
    }
    if a.isBase { LiftNeg(x); BaseOf(NegElt(x)); }
  }

  lemma MulHonest(a: Gen, b: Gen)
    requires Honest(a) && Honest(b)
    ensures Honest(GenMul(a, b)) && GenMul(a, b).val == Mul(a.val, b.val)
  {
    GenMulIsMul(a, b);
    hide Mul, MulByElement, Lift, BasePart, MulElt;
    if a.isBase && b.isBase { BaseOf(MulElt(BasePart(a.val), BasePart(b.val))); }
  }

  lemma InverseSame(inv: Ext -> Ext, a: Gen)
    requires InvAgrees(inv) && Honest(a)
    ensures Honest(GenInverse(inv, a)) && GenInverse(inv, a).val == inv(a.val)
  {
    hide Inv, Lift, BasePart;
    if a.isBase { BaseOf(Inv(BasePart(a.val))); }
  }

  /** An operator's value depends on its operands' values, not on their tags. */
  lemma ApplySame(inv: Ext -> Ext, op: Operator, xs: seq<Gen>, ys: seq<Gen>)
    requires InvAgrees(inv) && |xs| == |ys| == Arity(op)
    requires forall k :: 0 <= k < |xs| ==> SameValue(xs[k], ys[k])
    ensures SameValue(Apply(inv, op, xs), Apply(inv, op, ys))
  {
    hide GenMul, GenInverse, Honest, InvAgrees, Add, Sub, Neg, Mul;
    assert SameValue(xs[0], ys[0]);
    InverseSame(inv, xs[0]); InverseSame(inv, ys[0]);
    MulHonest(xs[0], xs[0]); MulHonest(ys[0], ys[0]);
    AddHonest(xs[0], xs[0]); AddHonest(ys[0], ys[0]);
    if Arity(op) == 2 {
      assert SameValue(xs[1], ys[1]);
      AddHonest(xs[0], xs[1]); AddHonest(ys[0], ys[1]);
      MulHonest(xs[0], xs[1]); MulHonest(ys[0], ys[1]);
      InverseSame(inv, xs[1]); InverseSame(inv, ys[1]);
      MulHonest(xs[0], GenInverse(inv, xs[1])); MulHonest(ys[0], GenInverse(inv, ys[1]));
    }
  }

  /** The operators are the field's: subtraction and division undo addition and multiplication. */
  lemma ApplyMeans(inv: Ext -> Ext, op: Operator, xs: seq<Gen>)
    requires InvAgrees(inv) && Inverts(inv) && |xs| == Arity(op) && forall k :: 0 <= k < |xs| ==> Honest(xs[k])
    ensures var r, a, b := Apply(inv, op, xs).val, xs[0].val, xs[|xs| - 1].val;
      match op
      case OpAdd => r == Add(a, b)
      case OpSub => Add(r, b) == a
      case OpMul => r == Mul(a, b)
      case OpDiv => b != Zero6 ==> Mul(r, b) == a
      case OpDouble => r == Add(a, a)
      case OpSquare => r == Mul(a, a)
      case OpNegate => Add(r, a) == Zero6
      case OpInverse => a != Zero6 ==> Mul(r, a) == One6
  {
    hide GenMul, GenInverse, Honest, InvAgrees, Add, Sub, Neg, Mul;
    var x, y := xs[0], xs[|xs| - 1];
    match op
    case OpSub => H.SubAdd(x.val, y.val);
    case OpMul => MulHonest(x, y);
    case OpDiv =>
      InverseSame(inv, y);
      MulHonest(x, GenInverse(inv, y));
      if y.val != Zero6 { Cancels(x.val, y.val, inv(y.val)); }
    case OpSquare => MulHonest(x, x);
    case OpNegate => AddZero(x.val); AddComm(x.val, Neg(x.val));
    case OpInverse => InverseSame(inv, x); MulComm(x.val, inv(x.val));
    case _ =>
  }

  lemma Cancels(a: Ext, b: Ext, c: Ext)
    requires Mul(b, c) == One6
    ensures Mul(Mul(a, c), b) == a
  {
    hide Mul;
    MulAssoc(a, c, b);
    MulComm(b, c);
    MulUnits(a);
    MulComm(a, One6);
  }

  // ---- the row of the vector evaluation ----

  ghost predicate Setting(g: Graph, leaves: Payload, env: Env) {
    WellFormed(g) && Described(g, leaves) && Flagged(g, leaves) && AllOk(env, leaves) && InvAgrees(env.inv)
  }

  lemma SumOfRows(position: int, shift: int, n: nat)
    requires n > 0
    ensures (position % n + shift) % n == (position + shift) % n
  {
    assert position + shift == (position % n + shift) + n * (position / n);
    AddMultiple(position % n + shift, position / n, n);
  }

  lemma SingleHonest(env: Env, s: Symbol)
    requires SymbolOk(env, s) && !IsVector(s)
    ensures Honest(SingleOf(env, s))
  {
    hide ElementAtN, Fits;
    if s.ColumnPosition? {
      var c := s.column;
      ElemHonest(env.padding(c.mod), env.size(c.mod), env.columns[c.id], ResolvedRow(env, c, s.position));
    }
  }

  /** A position is a row of the unshifted view, negative ones counted from the end. */
  lemma PositionReads(env: Env, c: Column, position: int)
    requires ColumnOk(env, c) && RowOk(env, c, position)
    ensures var n, v := env.size(c.mod), VectorOf(env, ColumnView(c, 0));
      && SymbolOk(env, ColumnPosition(c, position)) && Len(v) == n && 0 <= position % n < n
      && SameValue(SingleOf(env, ColumnPosition(c, position)), At(v, position % n))
  {
    hide ElementAtN, VectorOf, Honest;
    var n := env.size(c.mod);
    Remainder(position, n, if position < 0 then -1 else 0, if position < 0 then position + n else position);
    ViewAt(env, c, 0, position % n);
    Remainder(position % n, n, 0, position % n);
    SingleHonest(env, ColumnPosition(c, position));
  }

  lemma LowerView(env: Env, c: Column, shift: int, position: int, n: nat)
    requires ColumnOk(env, c) && n == env.size(c.mod)
    ensures var s := ColumnViewAtRow(env.size, c, shift, position);
      var v := VectorOf(env, ColumnView(c, shift));
      && SymbolOk(env, s) && !IsVector(s) && Len(v) == n && 0 <= position % n < n
      && SameValue(SingleOf(env, s), At(v, position % n))
  {
    hide ElementAtN, VectorOf, Honest;
    WrapIsMod(position + shift, n);
    SumOfRows(position, shift, n);
    ViewAt(env, c, shift, position % n);
    SingleHonest(env, ColumnViewAtRow(env.size, c, shift, position));
  }

  ghost function Lowered(g: Graph, leaves: Payload, env: Env, i: NodeId, position: int): Expression
    requires Setting(g, leaves, env) && i < |g|
  {
    Rebuild(Lower(env.size, position), Unfold(g, leaves, i))
  }

  ghost predicate PinsRow(g: Graph, leaves: Payload, env: Env, n: nat, i: NodeId, position: int)
    requires Setting(g, leaves, env) && i < |g| && n > 0 && Uniform(g, RuntimeOf(env, leaves), n, i)
  {
    var t := Lowered(g, leaves, env, i, position);
    Shaped(t) && Scalable(env, t)
    && SameValue(EvaluateSingle(env, t), Eval(g, RuntimeOf(env, leaves), n, i, position % n))
  }

  lemma LeafPins(g: Graph, leaves: Payload, env: Env, n: nat, i: NodeId, position: int)
    requires Setting(g, leaves, env) && i < |g| && n > 0 && g[i].Leaf?
    requires Uniform(g, RuntimeOf(env, leaves), n, i)
    ensures PinsRow(g, leaves, env, n, i, position)
  {
    hide Setting, VectorOf, SingleOf, InvAgrees, Honest;
    LeafFacts(g, leaves, env, i);
    var s := leaves[i];
    var rt := RuntimeOf(env, leaves);
    AtomRebuilt(g, leaves, Lower(env.size, position), i);
    if s.ColumnView? {
      ViewLength(env, s.column, s.shift);
      LowerView(env, s.column, s.shift, position, n);
    } else if s.VectorConstant? {
      ConstantLength(env, s.value, s.mod);
      ConstantRow(env, s.value, s.mod, position % n);
    } else {
      SingleHonest(env, s);
    }
  }

  lemma LeafFacts(g: Graph, leaves: Payload, env: Env, i: NodeId)
    requires Setting(g, leaves, env) && i < |g| && g[i].Leaf?
    ensures WellFormed(g) && Described(g, leaves) && AllOk(env, leaves)
    ensures i in leaves && SymbolOk(env, leaves[i])
    ensures RuntimeOf(env, leaves).values[i] == LeafValueOf(env, leaves[i])
  {
  }

  lemma ViewLength(env: Env, c: Column, shift: int)
    requires ColumnOk(env, c)
    ensures Len(VectorOf(env, ColumnView(c, shift))) == env.size(c.mod)
  {
  }

  lemma ConstantLength(env: Env, v: Elt, mod: nat)
    requires env.size(mod) > 0
    ensures Len(VectorOf(env, VectorConstant(v, mod))) == env.size(mod)
  {
  }

  lemma ConstantRow(env: Env, v: Elt, mod: nat, r: nat)
    requires env.size(mod) > r
    ensures var w := VectorOf(env, VectorConstant(v, mod));
      Len(w) == env.size(mod) && SameValue(SingleOf(env, ScalarConstant(v)), At(w, r))
  {
  }

  lemma KidsLowered(g: Graph, leaves: Payload, env: Env, i: NodeId, position: int)
    requires Setting(g, leaves, env) && i < |g| && g[i].Operation?
    ensures var t := Lowered(g, leaves, env, i, position);
      && t.Branch? && t.op == g[i].op && |t.args| == |g[i].operands| == Arity(t.op)
      && forall k :: 0 <= k < |t.args| ==> t.args[k] == Lowered(g, leaves, env, g[i].operands[k], position)
  {
    hide Lower, InvAgrees, AllOk, Flagged;
    var ops := g[i].operands;
    var kids := seq(|ops|, k requires 0 <= k < |ops| => Lowered(g, leaves, env, ops[k], position));
    BranchRebuilt(g, leaves, Lower(env.size, position), i, kids);
    LowerBranch(env.size, position, Unfold(g, leaves, i), kids);
  }

  lemma LowerBranch(size: nat -> nat, position: int, t: Expression, kids: seq<Expression>)
    requires t.Branch?
    ensures Lower(size, position)(t, kids) == Branch(t.op, kids)
  {
  }

  lemma OperationPins(g: Graph, leaves: Payload, env: Env, n: nat, i: NodeId, position: int)
    requires Setting(g, leaves, env) && i < |g| && n > 0 && g[i].Operation?
    requires Uniform(g, RuntimeOf(env, leaves), n, i)
    requires forall k :: 0 <= k < |g[i].operands| ==> PinsRow(g, leaves, env, n, g[i].operands[k], position)
    ensures PinsRow(g, leaves, env, n, i, position)
  {
    hide Lowered, SameValue, Apply, InvAgrees, AllOk, Flagged, Described, RuntimeOf;
    KidsLowered(g, leaves, env, i, position);
    var t, ops, r := Lowered(g, leaves, env, i, position), g[i].operands, position % n;
    var rt := RuntimeOf(env, leaves);
    assert rt.inv == env.inv by { InvKept(env, leaves); }
    var xs := seq(|ops|, k requires 0 <= k < |ops| => EvaluateSingle(env, t.args[k]));
    var ys := seq(|ops|, k requires 0 <= k < |ops| => Eval(g, rt, n, ops[k], r));
    ApplySame(env.inv, t.op, xs, ys);
    assert EvaluateSingle(env, t) == Apply(env.inv, t.op, xs) by {
      assert xs == seq(|t.args|, k requires 0 <= k < |t.args| => EvaluateSingle(env, t.args[k]));
    }
    assert Eval(g, rt, n, i, r) == Apply(rt.inv, t.op, ys) by {
      if Arity(t.op) == 1 { assert ys == [Eval(g, rt, n, ops[0], r)]; }
      else { assert ys == [Eval(g, rt, n, ops[0], r), Eval(g, rt, n, ops[1], r)]; }
    }
  }

  lemma InvKept(env: Env, leaves: Payload)
    requires AllOk(env, leaves)
    ensures RuntimeOf(env, leaves).inv == env.inv
  {
  }

  /** The lowered expression is scalar, and its value is row (position mod n) of the expression. */
  lemma {:induction false} LoweringPreserves(g: Graph, leaves: Payload, env: Env, n: nat, i: NodeId, position: int)
    requires Setting(g, leaves, env) && i < |g| && n > 0 && Uniform(g, RuntimeOf(env, leaves), n, i)
    ensures PinsRow(g, leaves, env, n, i, position)
    decreases i
  {
    hide PinsRow, Setting, RuntimeOf;
    assert WellFormed(g) && AllOk(env, leaves) by { SettingFacts(g, leaves, env); }
    if g[i].Leaf? {
      LeafPins(g, leaves, env, n, i, position);
    } else {
      forall k | 0 <= k < |g[i].operands| ensures PinsRow(g, leaves, env, n, g[i].operands[k], position) {
        LoweringPreserves(g, leaves, env, n, g[i].operands[k], position);
      }
      OperationPins(g, leaves, env, n, i, position);
    }
  }

  lemma SettingFacts(g: Graph, leaves: Payload, env: Env)
    requires Setting(g, leaves, env)
    ensures WellFormed(g) && Described(g, leaves) && AllOk(env, leaves)
  {
  }

  /** Against the compiled vector machine: the lowered expression reads the row it is pinned to. */
  lemma LoweredReadsRow(g: Graph, leaves: Payload, env: Env, root: NodeId, position: int, v: Vec)
    requires Setting(g, leaves, env) && root < |g| && Len(v) > 0
    requires ExprMachine.IsValue(g, RuntimeOf(env, leaves), root, v)
    ensures var t := Lowered(g, leaves, env, root, position);
      && Shaped(t) && Scalable(env, t) && 0 <= position % Len(v) < Len(v)
      && EvaluateSingle(env, t).val == At(v, position % Len(v)).val
  {
    hide Setting, RuntimeOf, Lowered, Eval, Uniform;
    LoweringPreserves(g, leaves, env, Len(v), root, position);
  }

  /** lowerToRow: the memoised walk with the lowering constructor. */
  method LowerToRow(g: Graph, leaves: Payload, env: Env, root: NodeId, position: int) returns (scalar: Expression)
    requires Setting(g, leaves, env) && root < |g|
    ensures scalar == Lowered(g, leaves, env, root, position)
    ensures forall n: nat :: n > 0 && Uniform(g, RuntimeOf(env, leaves), n, root) ==>
      && Shaped(scalar) && Scalable(env, scalar)
      && EvaluateSingle(env, scalar).val == Eval(g, RuntimeOf(env, leaves), n, root, position % n).val
  {
    hide Setting, RuntimeOf, Uniform, Eval, Reach, Lower;
    SettingFacts(g, leaves, env);
    ghost var calls;
    scalar, calls := EditExpression(g, leaves, Lower(env.size, position), root);
    forall n: nat | n > 0 && Uniform(g, RuntimeOf(env, leaves), n, root)
      ensures PinsRow(g, leaves, env, n, root, position) {
      LoweringPreserves(g, leaves, env, n, root, position);
    }
  }
}
