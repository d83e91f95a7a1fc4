/** The expression compiler: topological sort, liveness, slot allocation with
    two free lists, flat bytecode, and the vector machine that runs it.  */
module ExprCompiler {
  import opened KoalaBear
  import opened ExtField
  import opened Expressions

  datatype CompiledProgram = CompiledProgram(
    leaves: seq<NodeId>,
    bytecode: seq<int>,
    slotTypes: seq<bool>,  // true: the slot holds base-field values
    numSlots: nat,
    resultSlot: nat)

  /** The opcode of an operator; opcode 0 loads a leaf. */
  function Opcode(op: Operator): int {
    match op
    case OpAdd => 1
    case OpSub => 2
    case OpMul => 3
    case OpDiv => 4
    case OpDouble => 5
    case OpSquare => 6
    case OpNegate => 7
    case OpInverse => 8
  }

  // ---- 1. topological sort ----

  /** `order` lists distinct nodes, operands first; `index` is its inverse. */
  ghost predicate Sorted(g: Graph, order: seq<NodeId>, index: map<NodeId, nat>)
    requires WellFormed(g)
  {
    && (forall i :: 0 <= i < |order| ==> order[i] < |g| && order[i] in index && index[order[i]] == i)
    && (forall e :: e in index ==> index[e] < |order| && order[index[e]] == e)
    && (forall i, k :: 0 <= i < |order| && g[order[i]].Operation? && 0 <= k < |g[order[i]].operands| ==>
          g[order[i]].operands[k] in index && index[g[order[i]].operands[k]] < i)
  }

  ghost function ReachOf(g: Graph, operands: seq<NodeId>, j: nat): set<NodeId>
    requires WellFormed(g) && j <= |operands|
    requires forall k :: 0 <= k < |operands| ==> operands[k] < |g|
  {
    set k, x | 0 <= k < j && x in Reach(g, operands[k]) :: x
  }

  lemma {:induction false} ReachBelow(g: Graph, i: NodeId, x: NodeId)
    requires WellFormed(g) && i < |g| && x in Reach(g, i)
    ensures x <= i
    decreases i
  {
    if g[i].Operation? && x != i {
      var k :| 0 <= k < |g[i].operands| && x in Reach(g, g[i].operands[k]);
      ReachBelow(g, g[i].operands[k], x);
    }
  }

  /** A sorted order is closed: it holds everything below each of its nodes. */
  lemma {:induction false} SortedIsClosed(g: Graph, order: seq<NodeId>, index: map<NodeId, nat>, i: NodeId)
    requires WellFormed(g) && i < |g| && Sorted(g, order, index) && i in index
    ensures Reach(g, i) <= index.Keys
    decreases i
  {
    if g[i].Operation? {
      forall x | x in Reach(g, i) ensures x in index {
        if x != i {
          var k :| 0 <= k < |g[i].operands| && x in Reach(g, g[i].operands[k]);
          assert g[order[index[i]]].operands[k] in index;
          SortedIsClosed(g, order, index, g[i].operands[k]);
        }
      }
    }
  }

  class TopologicalSort {
    var order: seq<NodeId>
    var index: map<NodeId, nat>

    constructor ()
      ensures order == [] && index == map[]
    {
      order, index := [], map[];
    }

    /** Appends the unvisited nodes below e, children first. */
    method Visit(g: Graph, e: NodeId)
      requires WellFormed(g) && e < |g| && Sorted(g, order, index)
      modifies this
      ensures Sorted(g, order, index)
      ensures old(order) <= order
      ensures index.Keys == old(index.Keys) + Reach(g, e)
      ensures e !in old(index) ==> |order| > 0 && order[|order| - 1] == e
      decreases e
    {
      hide Sorted, ReachOf, Reach;
      if e in index {
        SortedIsClosed(g, order, index, e);
        return;
      }
      if g[e].Operation? {
        var operands := g[e].operands;
        ReachOfStep(g, operands, 0);
        var j := 0;
        while j < |operands|
          invariant 0 <= j <= |operands|
          invariant Sorted(g, order, index)
          invariant old(order) <= order
          invariant index.Keys == old(index.Keys) + ReachOf(g, operands, j)
        {
          Visit(g, operands[j]);
          ReachOfStep(g, operands, j);
          j := j + 1;
        }
        ReachOfAll(g, e);
      } else {
        ReachLeaf(g, e);
      }
      AppendSorted(g, order, index, e);
      index := index[e := |order|];
      order := order + [e];
    }
  }

  lemma ReachLeaf(g: Graph, e: NodeId)
    requires WellFormed(g) && e < |g| && g[e].Leaf?
    ensures Reach(g, e) == {e}
  {
  }

  lemma ReachOfStep(g: Graph, operands: seq<NodeId>, j: nat)
    requires WellFormed(g) && j <= |operands|
    requires forall k :: 0 <= k < |operands| ==> operands[k] < |g|
    ensures ReachOf(g, operands, 0) == {}
    ensures j < |operands| ==> ReachOf(g, operands, j + 1) == ReachOf(g, operands, j) + Reach(g, operands[j])
  {
  }

  lemma ReachOfAll(g: Graph, e: NodeId)
    requires WellFormed(g) && e < |g| && g[e].Operation?
    ensures Reach(g, e) == {e} + ReachOf(g, g[e].operands, |g[e].operands|)
    ensures forall k :: 0 <= k < |g[e].operands| ==>
              g[e].operands[k] in ReachOf(g, g[e].operands, |g[e].operands|)
    ensures e !in ReachOf(g, g[e].operands, |g[e].operands|)
  {
    var operands := g[e].operands;
    forall k | 0 <= k < |operands| ensures operands[k] in ReachOf(g, operands, |operands|) {
      ReachSelf(g, operands[k]);
    }
    forall k, x | 0 <= k < |operands| && x in Reach(g, operands[k]) ensures x != e {
      ReachBelow(g, operands[k], x);
    }
  }

  lemma AppendSorted(g: Graph, order: seq<NodeId>, index: map<NodeId, nat>, e: NodeId)
    requires WellFormed(g) && e < |g| && Sorted(g, order, index) && e !in index
    requires g[e].Operation? ==> forall k :: 0 <= k < |g[e].operands| ==> g[e].operands[k] in index
    ensures Sorted(g, order + [e], index[e := |order|])
  {
  }

  lemma ReachSelf(g: Graph, i: NodeId)
    requires WellFormed(g) && i < |g|
    ensures i in Reach(g, i)
  {
  }

  // ---- 2. leaves ----

  /** The leaves among the first k nodes of the order, in order. */
  function Leaves(g: Graph, order: seq<NodeId>, k: nat): seq<NodeId>
    requires k <= |order| && forall i :: 0 <= i < |order| ==> order[i] < |g|
  {
    if k == 0 then []
    else if g[order[k - 1]].Leaf? then Leaves(g, order, k - 1) + [order[k - 1]]
    else Leaves(g, order, k - 1)
  }

  lemma {:induction false} LeavesPrefix(g: Graph, order: seq<NodeId>, i: nat, k: nat)
    requires i <= k <= |order| && forall i :: 0 <= i < |order| ==> order[i] < |g|
    ensures Leaves(g, order, i) <= Leaves(g, order, k)
    decreases k
  {
    if i < k { LeavesPrefix(g, order, i, k - 1); }
  }

  lemma {:induction false} LeavesMembers(g: Graph, order: seq<NodeId>, k: nat, x: NodeId)
    requires k <= |order| && forall i :: 0 <= i < |order| ==> order[i] < |g|
    ensures x in Leaves(g, order, k) <==> x in order[..k] && g[x].Leaf?
  {
    if k > 0 {
      LeavesMembers(g, order, k - 1, x);
      assert order[..k] == order[..k - 1] + [order[k - 1]];
    }
  }

  // ---- 4. liveness ----

  ghost predicate Uses(g: Graph, order: seq<NodeId>, index: map<NodeId, nat>, i: nat, j: nat)
    requires WellFormed(g) && Sorted(g, order, index) && i < |order|
  {
    g[order[i]].Operation? &&
    exists k :: 0 <= k < |g[order[i]].operands| && index[g[order[i]].operands[k]] == j
  }

  /** lastUse[j] is the latest of the first k instructions reading node j, -1 if
      none reads it; the result is read after all of them. */
  ghost predicate LastUseOf(g: Graph, order: seq<NodeId>, index: map<NodeId, nat>, k: nat, j: nat, u: int)
    requires WellFormed(g) && Sorted(g, order, index) && k <= |order| && j < |order|
  {
    if j == |order| - 1 then u == |order|
    else
      && -1 <= u < k
      && (u >= 0 ==> Uses(g, order, index, u, j))
      && (forall i :: u < i < k ==> !Uses(g, order, index, i, j))
  }

  method Liveness(g: Graph, order: seq<NodeId>, index: map<NodeId, nat>) returns (lastUse: seq<int>)
    requires WellFormed(g) && Sorted(g, order, index) && |order| > 0
    ensures |lastUse| == |order|
    ensures forall j :: 0 <= j < |order| ==> LastUseOf(g, order, index, |order|, j, lastUse[j])
  {
    var n := |order|;
    lastUse := seq(n, _ => -1);
    lastUse := lastUse[n - 1 := n];
    var i := 0;
    while i < n
      invariant 0 <= i <= n && |lastUse| == n
      invariant forall j :: 0 <= j < n ==> LastUseOf(g, order, index, i, j, lastUse[j])
    {
      if g[order[i]].Operation? {
        var operands := g[order[i]].operands;
        ghost var before := lastUse;
        var k := 0;
        while k < |operands|
          invariant 0 <= k <= |operands| && |lastUse| == n
          invariant forall j :: 0 <= j < n ==>
            lastUse[j] == if j < i && exists m :: 0 <= m < k && index[operands[m]] == j then i else before[j]
        {
          var ci := index[operands[k]];
          assert ci < i;
          if i > lastUse[ci] {
            lastUse := lastUse[ci := i];
          }
          k := k + 1;
        }
        forall j | 0 <= j < n ensures LastUseOf(g, order, index, i + 1, j, lastUse[j]) {
          UsesIsBefore(g, order, index, i, j);
          assert LastUseOf(g, order, index, i, j, before[j]);
        }
      } else {
        forall j | 0 <= j < n ensures LastUseOf(g, order, index, i + 1, j, lastUse[j]) {
          assert !Uses(g, order, index, i, j);
        }
      }
      i := i + 1;
    }
  }

  lemma UsesIsBefore(g: Graph, order: seq<NodeId>, index: map<NodeId, nat>, i: nat, j: nat)
    requires WellFormed(g) && Sorted(g, order, index) && i < |order|
    ensures Uses(g, order, index, i, j) ==> j < i
  {
  }

  /** An operand is live until the instruction that reads it. */
  lemma OperandIsLive(g: Graph, order: seq<NodeId>, index: map<NodeId, nat>, lastUse: seq<int>, i: nat, k: nat)
    requires WellFormed(g) && Sorted(g, order, index)
    requires |lastUse| == |order|
    requires forall j :: 0 <= j < |order| ==> LastUseOf(g, order, index, |order|, j, lastUse[j])
    requires i < |order| && g[order[i]].Operation? && k < |g[order[i]].operands|
    ensures g[order[i]].operands[k] in index
    ensures index[g[order[i]].operands[k]] < i <= lastUse[index[g[order[i]].operands[k]]]
    ensures order[index[g[order[i]].operands[k]]] < |g|
  {
    var j := index[g[order[i]].operands[k]];
    assert Uses(g, order, index, i, j);
    assert LastUseOf(g, order, index, |order|, j, lastUse[j]);
  }

  // ---- 5. slot allocation ----

  ghost predicate Distinct(s: seq<nat>) {
    forall a, b :: 0 <= a < b < |s| ==> s[a] != s[b]
  }

  class SlotAllocator {
    var freeBase: seq<nat>
    var freeExt: seq<nat>
    var slotTypes: seq<bool>
    var nextSlot: nat

    /** No slot is listed twice, and each list holds slots of its own type. */
    ghost predicate Valid()
      reads this
    {
      && nextSlot == |slotTypes|
      && Distinct(freeBase) && Distinct(freeExt)
      && (forall s :: s in freeBase ==> s < nextSlot && slotTypes[s])
      && (forall s :: s in freeExt ==> s < nextSlot && !slotTypes[s])
    }

    ghost function Free(): set<nat>
      reads this
    {
      (set s | s in freeBase) + (set s | s in freeExt)
    }

    constructor ()
      ensures Valid() && Free() == {} && slotTypes == []
    {
      freeBase, freeExt, slotTypes, nextSlot := [], [], [], 0;
    }

    /** A slot of the wanted type that is not free any more: the most recently
        freed one, or a fresh one. */
    method GetSlot(isBase: bool) returns (s: nat)
      requires Valid()
      modifies this
      ensures Valid()
      ensures old(slotTypes) <= slotTypes
      ensures s < nextSlot && slotTypes[s] == isBase
      ensures Free() == old(Free()) - {s}
      ensures s in old(Free()) || s >= old(nextSlot)
    {
      var free := if isBase then freeBase else freeExt;
      if |free| > 0 {
        s := free[|free| - 1];
        ghost var rest := free[..|free| - 1];
        assert free == rest + [s];
        if isBase { freeBase := free[..|free| - 1]; } else { freeExt := free[..|free| - 1]; }
        assert s in free;
        return;
      }
      s := nextSlot;
      nextSlot := nextSlot + 1;
      slotTypes := slotTypes + [isBase];
    }

    method Release(s: nat, isBase: bool)
      requires Valid() && s < nextSlot && slotTypes[s] == isBase && s !in Free()
      modifies this
      ensures Valid()
      ensures slotTypes == old(slotTypes)
      ensures Free() == old(Free()) + {s}
    {
      if isBase { freeBase := freeBase + [s]; } else { freeExt := freeExt + [s]; }
    }
  }

  // ---- 6. instruction emission ----

  /** The instruction of the i-th node: opcode, destination, then its operands'
      slots, or the leaf's number. */
  function Instr(g: Graph, order: seq<NodeId>, index: map<NodeId, nat>, slots: seq<nat>, i: nat): seq<int>
    requires WellFormed(g) && i < |order| && i < |slots|
    requires forall j :: 0 <= j < |order| ==> order[j] < |g|
    requires g[order[i]].Operation? ==> forall k :: 0 <= k < |g[order[i]].operands| ==>
               g[order[i]].operands[k] in index && index[g[order[i]].operands[k]] < i
  {
    match g[order[i]]
    case Leaf(_, _) => [0, slots[i], |Leaves(g, order, i)|]
    case Operation(op, operands) =>
      if Arity(op) == 2 then
        [Opcode(op), slots[i], slots[index[operands[0]]], slots[index[operands[1]]]]
      else
        [Opcode(op), slots[i], slots[index[operands[0]]]]
  }

  /** The bytecode of the first k nodes. */
  ghost function Code(g: Graph, order: seq<NodeId>, index: map<NodeId, nat>, slots: seq<nat>, k: nat): seq<int>
    requires WellFormed(g) && Sorted(g, order, index) && k <= |order| && k <= |slots|
  {
    if k == 0 then []
    else Code(g, order, index, slots, k - 1) + Instr(g, order, index, slots, k - 1)
  }

  lemma {:induction false} CodeStable(g: Graph, order: seq<NodeId>, index: map<NodeId, nat>, slots: seq<nat>, more: seq<nat>, k: nat)
    requires WellFormed(g) && Sorted(g, order, index) && k <= |order| && k <= |slots| && slots <= more
    ensures Code(g, order, index, more, k) == Code(g, order, index, slots, k)
  {
    hide Instr;
    if k > 0 {
      CodeStable(g, order, index, slots, more, k - 1);
      InstrStable(g, order, index, slots, more, k - 1);
    }
  }

  lemma InstrStable(g: Graph, order: seq<NodeId>, index: map<NodeId, nat>, slots: seq<nat>, more: seq<nat>, i: nat)
    requires WellFormed(g) && Sorted(g, order, index) && i < |order| && i < |slots| && slots <= more
    ensures Instr(g, order, index, more, i) == Instr(g, order, index, slots, i)
  {
    hide Leaves;
  }

  /** What the compiler decided, beyond the program it returns. */
  datatype Plan = Plan(order: seq<NodeId>, index: map<NodeId, nat>, lastUse: seq<int>, slots: seq<nat>)

  /** The order and liveness of a plan for the expression at root. */
  ghost predicate Schedules(g: Graph, root: NodeId, plan: Plan) {
    && WellFormed(g) && root < |g|
    && Sorted(g, plan.order, plan.index)
    && |plan.order| > 0 && plan.order[|plan.order| - 1] == root
    && plan.index.Keys == Reach(g, root)
    && |plan.lastUse| == |plan.order|
    && (forall j :: 0 <= j < |plan.order| ==>
          LastUseOf(g, plan.order, plan.index, |plan.order|, j, plan.lastUse[j]))
  }

  /** No instruction among the first n writes the slot of a node still to be read. */
  ghost predicate NoClobber(slots: seq<nat>, lastUse: seq<int>, n: nat)
    requires n <= |slots| && n <= |lastUse|
  {
    forall j, i :: 0 <= j < i < n && i <= lastUse[j] ==> slots[i] != slots[j]
  }

  ghost predicate Typed(g: Graph, order: seq<NodeId>, slots: seq<nat>, slotTypes: seq<bool>, n: nat)
    requires WellFormed(g) && n <= |order| && n <= |slots|
    requires forall j :: 0 <= j < |order| ==> order[j] < |g|
  {
    forall j :: 0 <= j < n ==> slots[j] < |slotTypes| && slotTypes[slots[j]] == !IsExtension(g, order[j])
  }

  /** p is the program of the plan, and its slots are safe and well typed. */
  ghost predicate Implements(g: Graph, root: NodeId, plan: Plan, p: CompiledProgram) {
    && Schedules(g, root, plan)
    && |plan.slots| == |plan.order|
    && NoClobber(plan.slots, plan.lastUse, |plan.order|)
    && Typed(g, plan.order, plan.slots, p.slotTypes, |plan.order|)
    && p.numSlots == |p.slotTypes|
    && p.leaves == Leaves(g, plan.order, |plan.order|)
    && p.bytecode == Code(g, plan.order, plan.index, plan.slots, |plan.order|)
    && p.resultSlot == plan.slots[|plan.order| - 1]
  }

  /** The slots assigned so far are safe and well typed, and no node still to be
      read at instruction `now` or later has its slot on a free list. */
  ghost predicate Secure(g: Graph, root: NodeId, plan: Plan, types: seq<bool>, free: set<nat>, now: nat) {
    && Schedules(g, root, plan)
    && |plan.slots| <= |plan.order|
    && NoClobber(plan.slots, plan.lastUse, |plan.slots|)
    && Typed(g, plan.order, plan.slots, types, |plan.slots|)
    && forall j :: 0 <= j < |plan.slots| && plan.lastUse[j] >= now ==> plan.slots[j] !in free
  }

  ghost predicate Emitted(g: Graph, root: NodeId, plan: Plan, bytecode: seq<int>) {
    && Schedules(g, root, plan)
    && |plan.slots| <= |plan.order|
    && bytecode == Code(g, plan.order, plan.index, plan.slots, |plan.slots|)
  }

  /** Gives the next node a slot of its type that no live node occupies. */
  method AssignSlot(g: Graph, ghost root: NodeId, plan: Plan, alloc: SlotAllocator) returns (dst: nat)
    requires alloc.Valid() && |plan.slots| < |plan.order|
    requires Secure(g, root, plan, alloc.slotTypes, alloc.Free(), |plan.slots|)
    modifies alloc
    ensures alloc.Valid()
    ensures Secure(g, root, plan.(slots := plan.slots + [dst]), alloc.slotTypes, alloc.Free(), |plan.slots|)
  {
    ghost var types, free := alloc.slotTypes, alloc.Free();
    dst := alloc.GetSlot(!IsExtension(g, plan.order[|plan.slots|]));
    SecureExtend(g, root, plan, dst, types, alloc.slotTypes, free);
  }

  lemma SecureExtend(g: Graph, root: NodeId, plan: Plan, dst: nat, types: seq<bool>, types': seq<bool>, free: set<nat>)
    requires Secure(g, root, plan, types, free, |plan.slots|) && |plan.slots| < |plan.order|
    requires types <= types' && dst < |types'| && types'[dst] == !IsExtension(g, plan.order[|plan.slots|])
    requires dst in free || dst >= |types|
    ensures Secure(g, root, plan.(slots := plan.slots + [dst]), types', free - {dst}, |plan.slots|)
  {
    hide Sorted, LastUseOf, Reach, IsExtension;
  }

  /** A released slot belonged to a node read for the last time at instruction i. */
  ghost predicate Released(plan: Plan, i: nat, freed: set<nat>)
    requires i <= |plan.slots| && i <= |plan.lastUse|
  {
    forall s :: s in freed ==> exists j :: 0 <= j < i && plan.lastUse[j] == i && plan.slots[j] == s
  }

  /** Releases the slots of the operands whose last reader is instruction i, each once. */
  method ReleaseOperands(g: Graph, ghost root: NodeId, plan: Plan, i: nat, alloc: SlotAllocator)
    requires alloc.Valid() && |plan.slots| == i + 1
    requires Secure(g, root, plan, alloc.slotTypes, alloc.Free(), i)
    requires g[plan.order[i]].Operation?
    modifies alloc
    ensures alloc.Valid() && alloc.slotTypes == old(alloc.slotTypes)
    ensures Secure(g, root, plan, alloc.slotTypes, alloc.Free(), i + 1)
  {
    hide Sorted, LastUseOf, Reach, IsExtension, NoClobber, Released;
    SecureBasics(g, root, plan, alloc.slotTypes, alloc.Free(), i, i);
    var operands := g[plan.order[i]].operands;
    var freed: set<nat> := {};
    ReleasedNone(plan, i);
    var k := 0;
    while k < |operands|
      invariant 0 <= k <= |operands|
      invariant alloc.Valid() && alloc.slotTypes == old(alloc.slotTypes)
      invariant alloc.Free() == old(alloc.Free()) + freed
      invariant Released(plan, i, freed)
    {
      OperandIsLive(g, plan.order, plan.index, plan.lastUse, i, k);
      var ci := plan.index[operands[k]];
      if plan.lastUse[ci] == i && plan.slots[ci] !in freed {
        ReleasedOne(plan, i, freed, ci);
        freed := freed + {plan.slots[ci]};
        alloc.Release(plan.slots[ci], !IsExtension(g, plan.order[ci]));
      }
      k := k + 1;
    }
    SecureRelease(g, root, plan, alloc.slotTypes, old(alloc.Free()), i, freed);
  }

  lemma ReleasedNone(plan: Plan, i: nat)
    requires i <= |plan.slots| && i <= |plan.lastUse|
    ensures Released(plan, i, {})
  {
  }

  lemma ReleasedOne(plan: Plan, i: nat, freed: set<nat>, j: nat)
    requires i <= |plan.slots| && i <= |plan.lastUse| && Released(plan, i, freed)
    requires j < i && plan.lastUse[j] == i
    ensures Released(plan, i, freed + {plan.slots[j]})
  {
  }

  /** Slots released at i belong to no node read after i: two live nodes never share a slot. */
  lemma SecureRelease(g: Graph, root: NodeId, plan: Plan, types: seq<bool>, free: set<nat>, i: nat, freed: set<nat>)
    requires Secure(g, root, plan, types, free, i) && |plan.slots| == i + 1
    requires Released(plan, i, freed)
    ensures Secure(g, root, plan, types, free + freed, i + 1)
  {
    hide Sorted, LastUseOf, Reach, IsExtension, Typed;
    forall j | 0 <= j < i + 1 && plan.lastUse[j] >= i + 1 ensures plan.slots[j] !in free + freed {
      forall s | s in freed ensures s != plan.slots[j] {
        var c :| 0 <= c < i && plan.lastUse[c] == i && plan.slots[c] == s;
        assert if c < j then j <= plan.lastUse[c] else c <= plan.lastUse[j];
      }
    }
  }

  method Sort(g: Graph, root: NodeId) returns (order: seq<NodeId>, index: map<NodeId, nat>)
    requires WellFormed(g) && root < |g|
    ensures Sorted(g, order, index)
    ensures |order| > 0 && order[|order| - 1] == root
    ensures index.Keys == Reach(g, root)
  {
    var sort := new TopologicalSort();
    sort.Visit(g, root);
    order, index := sort.order, sort.index;
  }

  method CollectLeaves(g: Graph, order: seq<NodeId>) returns (leaves: seq<NodeId>, leafIdx: map<nat, nat>)
    requires forall j :: 0 <= j < |order| ==> order[j] < |g|
    ensures leaves == Leaves(g, order, |order|)
    ensures forall i :: 0 <= i < |order| && g[order[i]].Leaf? ==> i in leafIdx && leafIdx[i] == |Leaves(g, order, i)|
  {
    leaves, leafIdx := [], map[];
    var i := 0;
    while i < |order|
      invariant 0 <= i <= |order|
      invariant leaves == Leaves(g, order, i)
      invariant forall j :: 0 <= j < i && g[order[j]].Leaf? ==> j in leafIdx && leafIdx[j] == |Leaves(g, order, j)|
    {
      if g[order[i]].Leaf? {
        leafIdx := leafIdx[i := |leaves|];
        leaves := leaves + [order[i]];
      }
      i := i + 1;
    }
  }

  method Emit(g: Graph, ghost root: NodeId, plan: Plan, i: nat, leafIdx: map<nat, nat>) returns (code: seq<int>)
    requires Schedules(g, root, plan) && i < |plan.order| && i < |plan.slots|
    requires g[plan.order[i]].Leaf? ==> i in leafIdx && leafIdx[i] == |Leaves(g, plan.order, i)|
    ensures code == Instr(g, plan.order, plan.index, plan.slots, i)
  {
    var node, dst := g[plan.order[i]], plan.slots[i];
    if node.Operation? {
      var s1 := plan.slots[plan.index[node.operands[0]]];
      if Arity(node.op) == 2 {
        var s2 := plan.slots[plan.index[node.operands[1]]];
        code := [Opcode(node.op), dst, s1, s2];
      } else {
        code := [Opcode(node.op), dst, s1];
      }
    } else {
      code := [0, dst, leafIdx[i]];
    }
  }

  /** Compiles the expression at root.  The program implements a schedule of
      exactly the nodes below root in which no live slot is ever overwritten. */
  method CompileExpr(g: Graph, root: NodeId) returns (p: CompiledProgram, ghost plan: Plan)
    requires WellFormed(g) && root < |g|
    ensures Implements(g, root, plan, p)
  {
    hide *;
    var order, index := Sort(g, root);
    OrderInGraph(g, order, index);
    var leaves, leafIdx := CollectLeaves(g, order);
    var lastUse := Liveness(g, order, index);
    var slots: seq<nat> := [];
    var alloc := new SlotAllocator();
    var bytecode: seq<int> := [];
    var i := 0;
    Scheduled(g, root, order, index, lastUse);
    SecureStart(g, root, Plan(order, index, lastUse, slots));
    while i < |order|
      invariant 0 <= i <= |order| && |slots| == i
      invariant alloc.Valid() && fresh(alloc)
      invariant Secure(g, root, Plan(order, index, lastUse, slots), alloc.slotTypes, alloc.Free(), i)
      invariant Emitted(g, root, Plan(order, index, lastUse, slots), bytecode)
    {
      var before := Plan(order, index, lastUse, slots);
      var dst := AssignSlot(g, root, before, alloc);
      slots := slots + [dst];
      var plan' := Plan(order, index, lastUse, slots);
      SecureBasics(g, root, plan', alloc.slotTypes, alloc.Free(), i, i);
      var code := Emit(g, root, plan', i, leafIdx);
      EmitStep(g, root, before, dst, bytecode, code);
      bytecode := bytecode + code;
      if g[order[i]].Operation? {
        ReleaseOperands(g, root, plan', i, alloc);
      } else {
        SecureLeaf(g, root, plan', alloc.slotTypes, alloc.Free(), i);
      }
      i := i + 1;
    }
    p := CompiledProgram(leaves, bytecode, alloc.slotTypes, alloc.nextSlot, slots[|order| - 1]);
    plan := Plan(order, index, lastUse, slots);
    Assemble(g, root, plan, p, alloc);
  }

  lemma OrderInGraph(g: Graph, order: seq<NodeId>, index: map<NodeId, nat>)
    requires WellFormed(g) && Sorted(g, order, index)
    ensures forall j :: 0 <= j < |order| ==> order[j] < |g|
  {
  }

  lemma Scheduled(g: Graph, root: NodeId, order: seq<NodeId>, index: map<NodeId, nat>, lastUse: seq<int>)
    requires WellFormed(g) && root < |g| && Sorted(g, order, index)
    requires |order| > 0 && order[|order| - 1] == root && index.Keys == Reach(g, root)
    requires |lastUse| == |order| && forall j :: 0 <= j < |order| ==> LastUseOf(g, order, index, |order|, j, lastUse[j])
    ensures Schedules(g, root, Plan(order, index, lastUse, []))
  {
    hide Sorted, Reach, LastUseOf;
  }

  lemma SecureStart(g: Graph, root: NodeId, plan: Plan)
    requires Schedules(g, root, plan) && plan.slots == []
    ensures Secure(g, root, plan, [], {}, 0)
    ensures Emitted(g, root, plan, [])
  {
  }

  lemma SecureBasics(g: Graph, root: NodeId, plan: Plan, types: seq<bool>, free: set<nat>, now: nat, i: nat)
    requires Secure(g, root, plan, types, free, now) && i < |plan.order|
    ensures Schedules(g, root, plan) && plan.order[i] < |g|
  {
  }

  lemma SecureLeaf(g: Graph, root: NodeId, plan: Plan, types: seq<bool>, free: set<nat>, i: nat)
    requires Secure(g, root, plan, types, free, i)
    ensures Secure(g, root, plan, types, free, i + 1)
  {
  }

  lemma EmitStep(g: Graph, root: NodeId, plan: Plan, dst: nat, bytecode: seq<int>, code: seq<int>)
    requires Emitted(g, root, plan, bytecode) && |plan.slots| < |plan.order|
    requires code == Instr(g, plan.order, plan.index, plan.slots + [dst], |plan.slots|)
    ensures Emitted(g, root, plan.(slots := plan.slots + [dst]), bytecode + code)
  {
    hide Instr, LastUseOf, Reach;
    CodeStable(g, plan.order, plan.index, plan.slots, plan.slots + [dst], |plan.slots|);
  }

  lemma Assemble(g: Graph, root: NodeId, plan: Plan, p: CompiledProgram, alloc: SlotAllocator)
    requires alloc.Valid() && p.slotTypes == alloc.slotTypes && p.numSlots == alloc.nextSlot
    requires Secure(g, root, plan, p.slotTypes, alloc.Free(), |plan.order|) && |plan.slots| == |plan.order|
    requires Emitted(g, root, plan, p.bytecode)
    requires p.leaves == Leaves(g, plan.order, |plan.order|)
    requires p.resultSlot == plan.slots[|plan.order| - 1]
    ensures Implements(g, root, plan, p)
  {
  }

  /** Node a holds a value at instruction i: it is being written, or will be read there or later. */
  predicate Live(plan: Plan, a: nat, i: nat)
    requires a < |plan.lastUse|
  {
    a == i || (a < i && i <= plan.lastUse[a])
  }

  /** At instruction i of a compiled program the live nodes sit in pairwise
      distinct slots of their own types, and each operand's slot still holds the
      operand: no later instruction up to i, the destination included, uses it. */
  lemma SlotSafety(g: Graph, root: NodeId, plan: Plan, p: CompiledProgram, i: nat)
    requires Implements(g, root, plan, p) && i < |plan.order|
    ensures forall a, b :: 0 <= a < b <= i && Live(plan, a, i) && Live(plan, b, i) ==> plan.slots[a] != plan.slots[b]
    ensures plan.order[i] < |g| && plan.slots[i] < p.numSlots
    ensures p.slotTypes[plan.slots[i]] == !IsExtension(g, plan.order[i])
    ensures g[plan.order[i]].Operation? ==> forall k, m ::
      0 <= k < |g[plan.order[i]].operands| && g[plan.order[i]].operands[k] in plan.index
      && plan.index[g[plan.order[i]].operands[k]] < m <= i ==>
        plan.slots[m] != plan.slots[plan.index[g[plan.order[i]].operands[k]]]
    ensures g[plan.order[i]].Operation? ==> forall k :: 0 <= k < |g[plan.order[i]].operands| ==>
      g[plan.order[i]].operands[k] in plan.index && Live(plan, plan.index[g[plan.order[i]].operands[k]], i)
  {
    hide IsExtension, Reach, Leaves, Code;
    if g[plan.order[i]].Operation? {
      forall k | 0 <= k < |g[plan.order[i]].operands|
        ensures g[plan.order[i]].operands[k] in plan.index
        ensures plan.index[g[plan.order[i]].operands[k]] < i
        ensures i <= plan.lastUse[plan.index[g[plan.order[i]].operands[k]]] {
        OperandIsLive(g, plan.order, plan.index, plan.lastUse, i, k);
      }
    }
  }
}
