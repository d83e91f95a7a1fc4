/** Symbolic arithmetic expressions and their recursive evaluation.

    Expressions are pointers into an immutable heap: a node's operands were
    built before it, so node `i` of a graph refers only to smaller indices, and
    two occurrences of the same pointer are the same index.  */
module Expressions {
  import opened KoalaBear
  import opened ExtField

  datatype Operator = OpAdd | OpMul | OpSub | OpDiv | OpDouble | OpSquare | OpNegate | OpInverse

  function Arity(op: Operator): nat {
    match op
    case OpAdd | OpMul | OpSub | OpDiv => 2
    case OpDouble | OpSquare | OpNegate | OpInverse => 1
  }

  type NodeId = nat

  /** A leaf declares whether it is extension-field and whether it is a vector. */
  datatype Node =
    | Leaf(ext: bool, vector: bool)
    | Operation(op: Operator, operands: seq<NodeId>)

  type Graph = seq<Node>

  predicate WellFormed(g: Graph) {
    forall i :: 0 <= i < |g| && g[i].Operation? ==>
      && |g[i].operands| == Arity(g[i].op)
      && forall k :: 0 <= k < |g[i].operands| ==> g[i].operands[k] < i
  }

  /** Whether any leaf below node i is extension-field. */
  predicate IsExtension(g: Graph, i: NodeId)
    requires WellFormed(g) && i < |g|
    decreases i
  {
    match g[i]
    case Leaf(ext, _) => ext
    case Operation(_, operands) => exists k :: 0 <= k < |operands| && IsExtension(g, operands[k])
  }

  /** Whether any leaf below node i is a vector. */
  predicate IsMultiValued(g: Graph, i: NodeId)
    requires WellFormed(g) && i < |g|
    decreases i
  {
    match g[i]
    case Leaf(_, vector) => vector
    case Operation(_, operands) => exists k :: 0 <= k < |operands| && IsMultiValued(g, operands[k])
  }

  /** The nodes below (and including) node i. */
  ghost function Reach(g: Graph, i: NodeId): set<NodeId>
    requires WellFormed(g) && i < |g|
    decreases i
  {
    match g[i]
    case Leaf(_, _) => {i}
    case Operation(_, operands) =>
      {i} + set k, x | 0 <= k < |operands| && x in Reach(g, operands[k]) :: x
  }

  // ---- values ----

  /** A field element with its advisory base-field tag. */
  datatype Gen = Gen(val: Ext, isBase: bool)

  function FromBase(a: Elt): Gen { Gen(Lift(a), true) }
  function FromExt(x: Ext): Gen { Gen(x, false) }
  function BasePart(x: Ext): Elt { x.x0.re }

  /** x + b, touching the first coordinate only. */
  function AddBase(x: Ext, b: Elt): Ext { x.(x0 := Z2((x.x0.re + b) % P, x.x0.im)) }
  /** x - b, touching the first coordinate only. */
  function SubBase(x: Ext, b: Elt): Ext { x.(x0 := Z2((x.x0.re - b) % P, x.x0.im)) }
  /** x scaled by b, coordinate by coordinate. */
  function MulByElement(x: Ext, b: Elt): Ext { Red(ScaleZ(b, x)) }

  function GenAdd(a: Gen, b: Gen): Gen { Gen(Add(a.val, b.val), a.isBase && b.isBase) }
  function GenSub(a: Gen, b: Gen): Gen { Gen(Sub(a.val, b.val), a.isBase && b.isBase) }
  function GenNeg(a: Gen): Gen { Gen(Neg(a.val), a.isBase) }

  function GenMul(a: Gen, b: Gen): Gen {
    if a.isBase && b.isBase then FromBase(MulElt(BasePart(a.val), BasePart(b.val)))
    else if a.isBase then FromExt(MulByElement(b.val, BasePart(a.val)))
    else if b.isBase then FromExt(MulByElement(a.val, BasePart(b.val)))
    else FromExt(Mul(a.val, b.val))
  }

  function GenInverse(inv: Ext -> Ext, a: Gen): Gen {
    if a.isBase then FromBase(Inv(BasePart(a.val))) else FromExt(inv(a.val))
  }

  /** A tag is honest when a base-tagged value lies in the base field. */
  predicate Honest(a: Gen) { a.isBase ==> a.val == Lift(BasePart(a.val)) }

  // ---- vectors ----

  datatype Vec = BaseVec(base: seq<Elt>) | ExtVec(ext: seq<Ext>)

  function Len(v: Vec): nat { if v.BaseVec? then |v.base| else |v.ext| }

  function At(v: Vec, r: nat): Gen
    requires r < Len(v)
  {
    if v.BaseVec? then FromBase(v.base[r]) else FromExt(v.ext[r])
  }

  datatype LeafValue = VectorValue(vec: Vec) | ScalarValue(scalar: Gen)

  /** An assignment of the leaves, and the inverse of the extension field. */
  datatype Runtime = Runtime(inv: Ext -> Ext, values: map<NodeId, LeafValue>)

  predicate Assigned(g: Graph, rt: Runtime) {
    forall i :: 0 <= i < |g| && g[i].Leaf? ==>
      && i in rt.values
      && (g[i].vector <==> rt.values[i].VectorValue?)
      && (rt.values[i].ScalarValue? ==> Honest(rt.values[i].scalar))
  }

  /** Leaf i carries the field type it declares. */
  predicate TagMatches(g: Graph, rt: Runtime, i: NodeId)
    requires i < |g| && g[i].Leaf? && i in rt.values
  {
    match rt.values[i]
    case VectorValue(v) => v.ExtVec? == g[i].ext
    case ScalarValue(s) => s.isBase == !g[i].ext
  }

  // ---- recursive evaluation ----

  /** What the operator computes on evaluated operands. */
  function Apply(inv: Ext -> Ext, op: Operator, args: seq<Gen>): Gen
    requires |args| == Arity(op)
  {
    match op
    case OpAdd => GenAdd(args[0], args[1])
    case OpSub => GenSub(args[0], args[1])
    case OpMul => GenMul(args[0], args[1])
    case OpDiv => GenMul(args[0], GenInverse(inv, args[1]))
    case OpDouble => GenAdd(args[0], args[0])
    case OpSquare => GenMul(args[0], args[0])
    case OpNegate => GenNeg(args[0])
    case OpInverse => GenInverse(inv, args[0])
  }

  /** The vector leaves below node i all have n rows. */
  predicate Uniform(g: Graph, rt: Runtime, n: nat, i: NodeId)
    requires WellFormed(g) && i < |g|
    decreases i
  {
    match g[i]
    case Leaf(_, _) =>
      i in rt.values && (rt.values[i].VectorValue? ==> Len(rt.values[i].vec) == n)
    case Operation(_, operands) => forall k :: 0 <= k < |operands| ==> Uniform(g, rt, n, operands[k])
  }

  /** The value of node i at row r, by recursion on the expression. */
  function Eval(g: Graph, rt: Runtime, n: nat, i: NodeId, r: nat): Gen
    requires WellFormed(g) && i < |g| && Uniform(g, rt, n, i) && r < n
    decreases i
  {
    match g[i]
    case Leaf(_, _) =>
      (match rt.values[i]
       case VectorValue(v) => At(v, r)
       case ScalarValue(s) => s)
    case Operation(op, operands) =>
      if Arity(op) == 1 then Apply(rt.inv, op, [Eval(g, rt, n, operands[0], r)])
      else Apply(rt.inv, op, [Eval(g, rt, n, operands[0], r), Eval(g, rt, n, operands[1], r)])
  }

  lemma AddBaseIsAdd(x: Ext, b: Elt)
    ensures AddBase(x, b) == Add(x, Lift(b))
    ensures SubBase(x, b) == Sub(x, Lift(b))
  {
  }

  lemma MulByElementIsMul(x: Ext, b: Elt)
    ensures MulByElement(x, b) == Mul(x, Lift(b)) == Mul(Lift(b), x)
  {
    MulLift(x, b);
    MulComm(x, Lift(b));
  }

  /** On honest tags, the dispatching product is the field product. */
  lemma GenMulIsMul(a: Gen, b: Gen)
    requires Honest(a) && Honest(b)
    ensures GenMul(a, b).val == Mul(a.val, b.val)
    ensures GenMul(a, b).isBase == (a.isBase && b.isBase)
  {
    hide Mul, MulByElement;
    if a.isBase && b.isBase {
      LiftMul(BasePart(a.val), BasePart(b.val));
    } else if a.isBase {
      MulByElementIsMul(b.val, BasePart(a.val));
    } else if b.isBase {
      MulByElementIsMul(a.val, BasePart(b.val));
    }
  }

  lemma LiftSub(a: Elt, b: Elt)
    ensures Sub(Lift(a), Lift(b)) == Lift(SubElt(a, b))
  {
    hide Add, Neg, Lift;
    LiftNeg(b);
    LiftAdd(a, NegElt(b));
  }
}
