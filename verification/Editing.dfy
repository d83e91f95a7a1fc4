/** Rebuilding an expression bottom-up, visiting each shared node once. */
module Editing {
  import opened Expressions
  import opened ExprCompiler

  datatype Tree<L> = Atom(leaf: L) | Branch(op: Operator, args: seq<Tree<L>>)

  /** The tree a node of the shared graph stands for. */
  function Unfold<L>(g: Graph, leaves: map<NodeId, L>, i: NodeId): Tree<L>
    requires WellFormed(g) && i < |g| && Described(g, leaves)
    decreases i
  {
    match g[i]
    case Leaf(_, _) => Atom(leaves[i])
    case Operation(op, operands) =>
      Branch(op, seq(|operands|, k requires 0 <= k < |operands| => Unfold(g, leaves, operands[k])))
  }

  /** Every leaf of the graph has a payload. */
  predicate Described<L>(g: Graph, leaves: map<NodeId, L>) {
    forall i :: 0 <= i < |g| && g[i].Leaf? ==> i in leaves
  }

  /** The naive rebuild: the constructor applied at every occurrence, children first. */
  function Rebuild<L>(ctor: (Tree<L>, seq<Tree<L>>) -> Tree<L>, t: Tree<L>): Tree<L> {
    match t
    case Atom(_) => ctor(t, [])
    case Branch(_, args) => ctor(t, seq(|args|, k requires 0 <= k < |args| => Rebuild(ctor, args[k])))
  }

  /** Every rebuilt node carries the naive result; everything below it is rebuilt too. */
  ghost predicate Memoised<L>(g: Graph, leaves: map<NodeId, L>, ctor: (Tree<L>, seq<Tree<L>>) -> Tree<L>,
                              memo: map<NodeId, Tree<L>>)
    requires WellFormed(g) && Described(g, leaves)
  {
    forall i :: i in memo ==>
      i < |g| && memo[i] == Rebuild(ctor, Unfold(g, leaves, i)) && Reach(g, i) <= memo.Keys
  }

  /** The constructor was called once for each memoised node. */
  ghost predicate CalledOnce<L>(memo: map<NodeId, Tree<L>>, calls: seq<NodeId>) {
    && (forall a, b :: 0 <= a < b < |calls| ==> calls[a] != calls[b])
    && (forall i :: i in memo <==> i in calls)
  }

  lemma MemoAdd<L>(g: Graph, leaves: map<NodeId, L>, ctor: (Tree<L>, seq<Tree<L>>) -> Tree<L>,
                   memo: map<NodeId, Tree<L>>, i: NodeId, r: Tree<L>)
    requires WellFormed(g) && Described(g, leaves) && Memoised(g, leaves, ctor, memo) && i < |g|
    requires r == Rebuild(ctor, Unfold(g, leaves, i)) && Reach(g, i) <= memo.Keys + {i}
    ensures Memoised(g, leaves, ctor, memo[i := r])
  {
    hide Reach, Rebuild, Unfold;
  }

  lemma CallAdd<L>(memo: map<NodeId, Tree<L>>, calls: seq<NodeId>, i: NodeId, r: Tree<L>)
    requires CalledOnce(memo, calls) && i !in memo
    ensures CalledOnce(memo[i := r], calls + [i])
  {
  }

  /** The recursive state behind EditExpression. */
  class Editor<L> {
    var memo: map<NodeId, Tree<L>>
    ghost var calls: seq<NodeId>

    constructor ()
      ensures memo == map[] && calls == []
    {
      memo, calls := map[], [];
    }

    method Edit(g: Graph, leaves: map<NodeId, L>, ctor: (Tree<L>, seq<Tree<L>>) -> Tree<L>, i: NodeId)
      returns (rebuilt: Tree<L>)
      requires WellFormed(g) && i < |g| && Described(g, leaves)
      requires Memoised(g, leaves, ctor, memo) && CalledOnce(memo, calls)
      modifies this
      ensures Memoised(g, leaves, ctor, memo) && CalledOnce(memo, calls)
      ensures rebuilt == Rebuild(ctor, Unfold(g, leaves, i))
      ensures memo.Keys == old(memo.Keys) + Reach(g, i)
      decreases i
    {
      hide Reach, ReachOf, Rebuild, Memoised, CalledOnce;
      if i in memo {
        MemoHolds(g, leaves, ctor, memo, i);
        return memo[i];
      }
      if g[i].Operation? {
        var operands := g[i].operands;
        var newChildren := [];
        ReachOfStep(g, operands, 0);
        for k := 0 to |operands|
          invariant Memoised(g, leaves, ctor, memo) && CalledOnce(memo, calls)
          invariant memo.Keys == old(memo.Keys) + ReachOf(g, operands, k)
          invariant |newChildren| == k
          invariant forall j :: 0 <= j < k ==> newChildren[j] == Rebuild(ctor, Unfold(g, leaves, operands[j]))
        {
          var child := Edit(g, leaves, ctor, operands[k]);
          ReachOfStep(g, operands, k);
          newChildren := newChildren + [child];
        }
        ReachOfAll(g, i);
        BranchRebuilt(g, leaves, ctor, i, newChildren);
        rebuilt := ctor(Unfold(g, leaves, i), newChildren);
      } else {
        ReachLeaf(g, i);
        AtomRebuilt(g, leaves, ctor, i);
        rebuilt := ctor(Atom(leaves[i]), []);
      }
      MemoAdd(g, leaves, ctor, memo, i, rebuilt);
      CallAdd(memo, calls, i, rebuilt);
      memo, calls := memo[i := rebuilt], calls + [i];
    }
  }

  lemma MemoHolds<L>(g: Graph, leaves: map<NodeId, L>, ctor: (Tree<L>, seq<Tree<L>>) -> Tree<L>,
                     memo: map<NodeId, Tree<L>>, i: NodeId)
    requires WellFormed(g) && Described(g, leaves) && Memoised(g, leaves, ctor, memo) && i in memo
    ensures i < |g| && memo[i] == Rebuild(ctor, Unfold(g, leaves, i)) && Reach(g, i) <= memo.Keys
  {
  }

  lemma BranchRebuilt<L>(g: Graph, leaves: map<NodeId, L>, ctor: (Tree<L>, seq<Tree<L>>) -> Tree<L>, i: NodeId,
                         kids: seq<Tree<L>>)
    requires WellFormed(g) && i < |g| && Described(g, leaves) && g[i].Operation? && |kids| == |g[i].operands|
    requires forall j :: 0 <= j < |kids| ==> kids[j] == Rebuild(ctor, Unfold(g, leaves, g[i].operands[j]))
    ensures Rebuild(ctor, Unfold(g, leaves, i)) == ctor(Unfold(g, leaves, i), kids)
  {
    var t := Unfold(g, leaves, i);
    assert kids == seq(|t.args|, k requires 0 <= k < |t.args| => Rebuild(ctor, t.args[k]));
  }

  lemma AtomRebuilt<L>(g: Graph, leaves: map<NodeId, L>, ctor: (Tree<L>, seq<Tree<L>>) -> Tree<L>, i: NodeId)
    requires WellFormed(g) && i < |g| && Described(g, leaves) && g[i].Leaf?
    ensures Rebuild(ctor, Unfold(g, leaves, i)) == ctor(Atom(leaves[i]), [])
  {
  }

  /** The memoised walk returns the naive rebuild and calls the constructor once per distinct node. */
  method EditExpression<L>(g: Graph, leaves: map<NodeId, L>, ctor: (Tree<L>, seq<Tree<L>>) -> Tree<L>, root: NodeId)
    returns (rebuilt: Tree<L>, ghost calls: seq<NodeId>)
    requires WellFormed(g) && root < |g| && Described(g, leaves)
    ensures rebuilt == Rebuild(ctor, Unfold(g, leaves, root))
    ensures forall a, b :: 0 <= a < b < |calls| ==> calls[a] != calls[b]
    ensures forall i :: i in Reach(g, root) <==> i in calls
  {
    var editor := new Editor<L>();
    rebuilt := editor.Edit(g, leaves, ctor, root);
    calls := editor.calls;
  }

  /** DefaultConstruct: an operation over the new children, a leaf unchanged. */
  function DefaultConstruct<L>(curr: Tree<L>, kids: seq<Tree<L>>): Tree<L> {
    if curr.Branch? then Branch(curr.op, kids) else curr
  }

  /** Rebuilding with the default constructor changes nothing. */
  lemma {:induction false} DefaultIsIdentity<L>(t: Tree<L>)
    ensures Rebuild(DefaultConstruct, t) == t
  {
    if t.Branch? {
      forall k | 0 <= k < |t.args| ensures Rebuild(DefaultConstruct, t.args[k]) == t.args[k] {
        DefaultIsIdentity(t.args[k]);
      }
      assert t.args == seq(|t.args|, k requires 0 <= k < |t.args| => Rebuild(DefaultConstruct, t.args[k]));
    }
  }
}
