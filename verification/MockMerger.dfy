/** The mock merger of shard proofs: public inputs without proofs.  Coverage is
    united, message-bus products multiply, randomness contributions add, and the
    inputs every shard shares must agree.  */
module MockMerger {
  import opened KoalaBear
  import opened ExtField
  import opened Conglomeration

  // ---- coverage ----

  predicate Increasing(s: seq<nat>) {
    forall i, j :: 0 <= i < j < |s| ==> s[i] < s[j]
  }

  /** The ordered union of two coverages, None on a shard covered by both. */
  function Interleave(a: seq<nat>, b: seq<nat>): Option<seq<nat>>
    decreases |a| + |b|
  {
    if a == [] then Some(b)
    else if b == [] then Some(a)
    else if a[0] < b[0] then
      (match Interleave(a[1..], b)
       case None => None
       case Some(rest) => Some([a[0]] + rest))
    else if b[0] < a[0] then
      (match Interleave(a, b[1..])
       case None => None
       case Some(rest) => Some([b[0]] + rest))
    else None
  }

  predicate Above(x: nat, s: seq<nat>) {
    forall i :: 0 <= i < |s| ==> x < s[i]
  }

  lemma {:induction false} InterleaveUnites(a: seq<nat>, b: seq<nat>)
    requires Increasing(a) && Increasing(b)
    ensures Interleave(a, b).Some? <==> forall x :: x in a ==> x !in b
    ensures Interleave(a, b).Some? ==>
              && Increasing(Interleave(a, b).value)
              && multiset(Interleave(a, b).value) == multiset(a) + multiset(b)
    decreases |a| + |b|
  {
    if a == [] || b == [] {
    } else if a[0] < b[0] {
      InterleaveUnites(a[1..], b);
      PrependSmallest(a, b);
    } else if b[0] < a[0] {
      InterleaveUnites(a, b[1..]);
      PrependSmallest(b, a);
    } else {
      assert a[0] in a && a[0] in b;
    }
  }

  /** The head of a, below everything else, in front of the union of the rest. */
  lemma PrependSmallest(a: seq<nat>, b: seq<nat>)
    requires Increasing(a) && Increasing(b) && a != [] && b != [] && a[0] < b[0]
    ensures a[0] !in b
    ensures (forall x :: x in a ==> x !in b) <==> forall x :: x in a[1..] ==> x !in b
    ensures forall rest: seq<nat> :: Increasing(rest) && multiset(rest) == multiset(a[1..]) + multiset(b) ==>
              Increasing([a[0]] + rest) && multiset([a[0]] + rest) == multiset(a) + multiset(b)
  {
    assert a == [a[0]] + a[1..];
    forall rest: seq<nat> | Increasing(rest) && multiset(rest) == multiset(a[1..]) + multiset(b)
      ensures Increasing([a[0]] + rest) && multiset([a[0]] + rest) == multiset(a) + multiset(b)
    {
      forall i | 0 <= i < |rest| ensures a[0] < rest[i] {
        assert rest[i] in multiset(rest);
        assert rest[i] in a[1..] || rest[i] in b;
      }
    }
  }

  /** mergeCoverage: the two-index loop. */
  method MergeCoverage(a: seq<nat>, b: seq<nat>) returns (r: Option<seq<nat>>)
    ensures r == Interleave(a, b)
  {
    var merged: seq<nat> := [];
    var i, j := 0, 0;
    assert a[0..] == a && b[0..] == b;
    while i < |a| && j < |b|
      invariant 0 <= i <= |a| && 0 <= j <= |b|
      invariant Resumes(Interleave(a, b), merged, Interleave(a[i..], b[j..]))
      decreases |a| - i + |b| - j
    {
      assert a[i..][1..] == a[i + 1..] && b[j..][1..] == b[j + 1..];
      if a[i] < b[j] {
        ResumeStep(Interleave(a, b), merged, a[i], Interleave(a[i + 1..], b[j..]));
        merged := merged + [a[i]];
        i := i + 1;
      } else if b[j] < a[i] {
        ResumeStep(Interleave(a, b), merged, b[j], Interleave(a[i..], b[j + 1..]));
        merged := merged + [b[j]];
        j := j + 1;
      } else {
        return None;
      }
    }
    r := Some(merged + a[i..] + b[j..]);
    assert merged + a[i..] + b[j..] == merged + (if i == |a| then b[j..] else a[i..]);
  }

  /** whole is what is merged already, followed by what is left to merge. */
  predicate Resumes(whole: Option<seq<nat>>, merged: seq<nat>, rest: Option<seq<nat>>) {
    if rest.None? then whole.None? else whole.Some? && whole.value == merged + rest.value
  }

  lemma ResumeStep(whole: Option<seq<nat>>, merged: seq<nat>, x: nat, rest: Option<seq<nat>>)
    requires Resumes(whole, merged, if rest.None? then None else Some([x] + rest.value))
    ensures Resumes(whole, merged + [x], rest)
  {
    if rest.Some? { assert merged + ([x] + rest.value) == merged + [x] + rest.value; }
  }

  /** checkCoverageComplete: coverage is exactly 0..numShards-1. */
  method CheckCoverageComplete(coverage: seq<nat>, numShards: nat) returns (ok: bool)
    ensures ok <==> coverage == seq(numShards, i => i)
  {
    var k := 0;
    while k < numShards
      invariant 0 <= k <= numShards
      invariant k <= |coverage| && forall i :: 0 <= i < k ==> coverage[i] == i
    {
      if k >= |coverage| || coverage[k] != k { return false; }
      k := k + 1;
    }
    ok := |coverage| <= numShards;
  }

  // ---- merging ----

  /** The public-input roles of the system the shard proofs are over. */
  datatype System = System(handles: nat, seeded: bool, hashSize: nat, toSeed: seq<Elt> -> seq<Elt>)

  datatype Pub = Pub(vk: seq<Elt>, output: seq<Elt>, products: seq<Ext>, seed: seq<Elt>, contribution: seq<Elt>)

  /** A node; a merged node carries the empty proof. */
  datatype Node = Node(coverage: seq<nat>, proof: seq<Elt>, pub: Pub)

  /** The public inputs have the system's shape. */
  predicate Shaped(sys: System, pub: Pub) {
    && |pub.products| == sys.handles
    && (sys.seeded ==> |pub.contribution| == sys.hashSize)
    && (!sys.seeded ==> pub.contribution == [] && pub.seed == [])
  }

  function MulAll(x: seq<Ext>, y: seq<Ext>): seq<Ext>
    requires |x| == |y|
  {
    seq(|x|, h requires 0 <= h < |x| => Mul(x[h], y[h]))
  }

  /** The multiset-hash group: componentwise addition. */
  function CombineHash(x: seq<Elt>, y: seq<Elt>): seq<Elt>
    requires |x| == |y|
  {
    seq(|x|, c requires 0 <= c < |x| => AddElt(x[c], y[c]))
  }

  /** What the merge loop accumulates over the children. */
  datatype Acc = Acc(coverage: seq<nat>, products: seq<Ext>, contribution: seq<Elt>)

  function Agrees(a: Pub, b: Pub): bool {
    a.vk == b.vk && a.output == b.output && a.seed == b.seed
  }

  function Absorb(acc: Acc, first: Pub, child: Node): Option<Acc>
    requires |acc.products| == |child.pub.products| && |acc.contribution| == |child.pub.contribution|
  {
    match Interleave(acc.coverage, child.coverage)
    case None => None
    case Some(coverage) =>
      if !Agrees(first, child.pub) then None
      else Some(Acc(coverage, MulAll(acc.products, child.pub.products),
                    CombineHash(acc.contribution, child.pub.contribution)))
  }

  predicate AllShaped(sys: System, nodes: seq<Node>) {
    forall i :: 0 <= i < |nodes| ==> Shaped(sys, nodes[i].pub)
  }

  /** The accumulator after the first k children. */
  function AbsorbFirst(sys: System, children: seq<Node>, k: nat): (acc: Option<Acc>)
    requires 1 <= k <= |children| && AllShaped(sys, children)
    ensures acc.Some? ==> |acc.value.products| == |children[0].pub.products|
                          && |acc.value.contribution| == |children[0].pub.contribution|
  {
    if k == 1 then Some(Acc(children[0].coverage, children[0].pub.products, children[0].pub.contribution))
    else
      match AbsorbFirst(sys, children, k - 1)
      case None => None
      case Some(acc) => Absorb(acc, children[0].pub, children[k - 1])
  }

  function MergedNode(first: Pub, acc: Acc): Node {
    Node(acc.coverage, [], first.(products := acc.products, contribution := acc.contribution))
  }

  function MockMerge(sys: System, children: seq<Node>): MergeResult<Node> {
    if |children| < 2 || |children| > Arity then Rejected("child count")
    else if !AllShaped(sys, children) then Rejected("public inputs")
    else
      match AbsorbFirst(sys, children, |children|)
      case None => Rejected("children")
      case Some(acc) => Merged(MergedNode(children[0].pub, acc))
  }

  /** MockMerger.Merge: checks the shapes, then folds the children into the first. */
  method Merge(sys: System, children: seq<Node>) returns (r: MergeResult<Node>)
    ensures r == MockMerge(sys, children)
    ensures r.Merged? ==> 2 <= |children| <= Arity && r.node.proof == []
  {
    hide Interleave, MulAll, CombineHash;
    if |children| < 2 || |children| > Arity { return Rejected("child count"); }
    var i := 0;
    while i < |children|
      invariant 0 <= i <= |children|
      invariant forall j :: 0 <= j < i ==> Shaped(sys, children[j].pub)
    {
      if !Shaped(sys, children[i].pub) { return Rejected("public inputs"); }
      i := i + 1;
    }
    var first := children[0];
    var coverage, products, contribution := first.coverage, first.pub.products, first.pub.contribution;
    var k := 1;
    while k < |children|
      invariant 1 <= k <= |children|
      invariant AbsorbFirst(sys, children, k) == Some(Acc(coverage, products, contribution))
    {
      var child := children[k];
      ghost var next := AbsorbFirst(sys, children, k + 1);
      assert next == Absorb(Acc(coverage, products, contribution), first.pub, child);
      var union := MergeCoverage(coverage, child.coverage);
      if union.None? {
        FailedPrefix(sys, children, k + 1, |children|);
        return Rejected("children");
      }
      if first.pub.vk != child.pub.vk || first.pub.output != child.pub.output || first.pub.seed != child.pub.seed {
        FailedPrefix(sys, children, k + 1, |children|);
        return Rejected("children");
      }
      coverage := union.value;
      products := MulAll(products, child.pub.products);
      contribution := CombineHash(contribution, child.pub.contribution);
      k := k + 1;
    }
    r := Merged(MergedNode(first.pub, Acc(coverage, products, contribution)));
  }

  lemma {:induction false} FailedPrefix(sys: System, children: seq<Node>, k: nat, n: nat)
    requires 1 <= k <= n <= |children| && AllShaped(sys, children)
    requires AbsorbFirst(sys, children, k).None?
    ensures AbsorbFirst(sys, children, n).None?
    decreases n
  {
    if k < n { FailedPrefix(sys, children, k, n - 1); }
  }

  /** MockMerger.Finalize: the root checks. */
  method Finalize(sys: System, root: Node, numShards: nat) returns (ok: bool)
    ensures ok <==> RootOk(sys, root, numShards)
  {
    hide Sub;
    var complete := CheckCoverageComplete(root.coverage, numShards);
    if !complete { return false; }
    var h := 0;
    while h < |root.pub.products|
      invariant 0 <= h <= |root.pub.products|
      invariant forall i :: 0 <= i < h ==> root.pub.products[i] == One6
    {
      if Sub(root.pub.products[h], One6) != Zero6 {
        SubZero(root.pub.products[h], One6);
        return false;
      }
      SubZero(root.pub.products[h], One6);
      h := h + 1;
    }
    ok := sys.seeded ==> root.pub.seed == sys.toSeed(root.pub.contribution);
  }

  predicate RootOk(sys: System, root: Node, numShards: nat) {
    && root.coverage == seq(numShards, i => i)
    && (forall h :: 0 <= h < |root.pub.products| ==> root.pub.products[h] == One6)
    && (sys.seeded ==> root.pub.seed == sys.toSeed(root.pub.contribution))
  }

  lemma SubZero(x: Ext, y: Ext)
    ensures Sub(x, y) == Zero6 <==> x == y
  {
    hide Add, Neg;
    AddZero(y);
    AddZero(x);
    AddAssoc(x, Neg(y), y);
    AddComm(Neg(y), y);
  }

  // ---- what a merge adds up ----

  const CoverageSum: Monoid<multiset<nat>> := Monoid(multiset{}, (a: multiset<nat>, b: multiset<nat>) => a + b)
  const ProductSum: Monoid<Ext> := Monoid(One6, (a: Ext, b: Ext) => Mul(a, b))
  const HashSum: Monoid<Elt> := Monoid(0, (a: Elt, b: Elt) => AddElt(a, b))
  const SharedUnion: Monoid<set<Shared>> := Monoid({}, (a: set<Shared>, b: set<Shared>) => a + b)

  /** The public inputs every shard must share. */
  datatype Shared = Shared(vk: seq<Elt>, output: seq<Elt>, seed: seq<Elt>)

  const Covers: Node -> multiset<nat> := (n: Node) => multiset(n.coverage)
  const Shares: Node -> set<Shared> := (n: Node) => {Shared(n.pub.vk, n.pub.output, n.pub.seed)}

  function ProductAt(h: nat): Node -> Ext {
    (n: Node) => if h < |n.pub.products| then n.pub.products[h] else One6
  }

  function HashAt(c: nat): Node -> Elt {
    (n: Node) => if c < |n.pub.contribution| then n.pub.contribution[c] else 0
  }

  function Good(sys: System): Node -> bool {
    (n: Node) => Increasing(n.coverage) && Shaped(sys, n.pub)
  }

  lemma CoverageSumLaws()
    ensures Commutative(CoverageSum)
  {
    forall a: multiset<nat>, b: multiset<nat>, c: multiset<nat> ensures CoverageSum.op(CoverageSum.op(a, b), c) == CoverageSum.op(a, CoverageSum.op(b, c)) {
      assert a + b + c == a + (b + c);
    }
    forall a: multiset<nat>, b: multiset<nat> ensures CoverageSum.op(a, b) == CoverageSum.op(b, a) { assert a + b == b + a; }
    forall a: multiset<nat> ensures CoverageSum.op(CoverageSum.unit, a) == a { assert multiset{} + a == a; }
  }

  lemma ProductSumLaws()
    ensures Commutative(ProductSum)
  {
    hide Mul;
    forall a: Ext, b: Ext, c: Ext ensures ProductSum.op(ProductSum.op(a, b), c) == ProductSum.op(a, ProductSum.op(b, c)) {
      MulAssoc(a, b, c);
    }
    forall a: Ext, b: Ext ensures ProductSum.op(a, b) == ProductSum.op(b, a) { MulComm(a, b); }
    forall a: Ext ensures ProductSum.op(ProductSum.unit, a) == a { MulUnits(a); }
  }

  lemma AddEltLaws(a: Elt, b: Elt, c: Elt)
    ensures AddElt(AddElt(a, b), c) == AddElt(a, AddElt(b, c))
    ensures AddElt(a, b) == AddElt(b, a) && AddElt(0, a) == a
  {
  }

  lemma HashSumLaws()
    ensures Commutative(HashSum)
  {
    hide AddElt;
    forall a: Elt, b: Elt, c: Elt ensures HashSum.op(HashSum.op(a, b), c) == HashSum.op(a, HashSum.op(b, c)) {
      AddEltLaws(a, b, c);
    }
    forall a: Elt, b: Elt ensures HashSum.op(a, b) == HashSum.op(b, a) { AddEltLaws(a, b, 0); }
    forall a: Elt ensures HashSum.op(HashSum.unit, a) == a { AddEltLaws(a, 0, 0); }
  }

  lemma SharedUnionLaws()
    ensures Commutative(SharedUnion)
  {
    forall a: set<Shared>, b: set<Shared>, c: set<Shared> ensures SharedUnion.op(SharedUnion.op(a, b), c) == SharedUnion.op(a, SharedUnion.op(b, c)) {
      assert a + b + c == a + (b + c);
    }
    forall a: set<Shared>, b: set<Shared> ensures SharedUnion.op(a, b) == SharedUnion.op(b, a) { assert a + b == b + a; }
    forall a: set<Shared> ensures SharedUnion.op(SharedUnion.unit, a) == a { assert {} + a == a; }
  }

  ghost predicate AllGoodNodes(sys: System, nodes: seq<Node>) {
    forall i :: 0 <= i < |nodes| ==> Good(sys)(nodes[i])
  }

  lemma CoverageStep(children: seq<Node>, k: nat)
    requires 1 <= k <= |children|
    ensures Sum(CoverageSum, Covers, children[..k]) ==
      Sum(CoverageSum, Covers, children[..k - 1]) + multiset(children[k - 1].coverage)
    ensures k == 1 ==> Sum(CoverageSum, Covers, children[..k]) == multiset(children[0].coverage)
  {
    assert children[..k][..k - 1] == children[..k - 1];
    if k == 1 { assert Sum(CoverageSum, Covers, children[..0]) == multiset{}; }
  }

  lemma AbsorbStep(sys: System, children: seq<Node>, k: nat)
    requires AllShaped(sys, children) && 1 <= k <= |children| && AbsorbFirst(sys, children, k).Some?
    ensures k == 1 ==> AbsorbFirst(sys, children, k).value.coverage == children[0].coverage
    ensures k > 1 ==>
      && AbsorbFirst(sys, children, k - 1).Some?
      && Interleave(AbsorbFirst(sys, children, k - 1).value.coverage, children[k - 1].coverage)
           == Some(AbsorbFirst(sys, children, k).value.coverage)
  {
    hide Interleave, MulAll, CombineHash;
  }

  lemma {:induction false} AbsorbCoverage(sys: System, children: seq<Node>, k: nat)
    requires AllGoodNodes(sys, children) && 1 <= k <= |children|
    requires AbsorbFirst(sys, children, k).Some?
    ensures Increasing(AbsorbFirst(sys, children, k).value.coverage)
    ensures multiset(AbsorbFirst(sys, children, k).value.coverage) == Sum(CoverageSum, Covers, children[..k])
  {
    hide Interleave, AbsorbFirst, Sum, Increasing, Shaped;
    assert AllShaped(sys, children);
    CoverageStep(children, k);
    AbsorbStep(sys, children, k);
    if k > 1 {
      AbsorbCoverage(sys, children, k - 1);
      InterleaveUnites(AbsorbFirst(sys, children, k - 1).value.coverage, children[k - 1].coverage);
    }
  }

  lemma {:induction false} AbsorbProduct(sys: System, children: seq<Node>, k: nat, h: nat)
    requires AllShaped(sys, children) && 1 <= k <= |children| && h < sys.handles
    requires AbsorbFirst(sys, children, k).Some?
    ensures AbsorbFirst(sys, children, k).value.products[h] == Sum(ProductSum, ProductAt(h), children[..k])
  {
    hide Mul;
    assert children[..k][..k - 1] == children[..k - 1];
    if k == 1 {
      assert Sum(ProductSum, ProductAt(h), children[..0]) == One6;
      MulUnits(children[0].pub.products[h]);
    } else {
      AbsorbProduct(sys, children, k - 1, h);
    }
  }

  lemma {:induction false} AbsorbHash(sys: System, children: seq<Node>, k: nat, c: nat)
    requires AllShaped(sys, children) && 1 <= k <= |children| && sys.seeded && c < sys.hashSize
    requires AbsorbFirst(sys, children, k).Some?
    ensures AbsorbFirst(sys, children, k).value.contribution[c] == Sum(HashSum, HashAt(c), children[..k])
  {
    assert children[..k][..k - 1] == children[..k - 1];
    if k == 1 {
      assert Sum(HashSum, HashAt(c), children[..0]) == 0;
    } else {
      AbsorbHash(sys, children, k - 1, c);
    }
  }

  lemma {:induction false} AbsorbShared(sys: System, children: seq<Node>, k: nat)
    requires AllShaped(sys, children) && 1 <= k <= |children|
    requires AbsorbFirst(sys, children, k).Some?
    ensures Sum(SharedUnion, Shares, children[..k]) == Shares(children[0])
  {
    hide Interleave, MulAll, CombineHash;
    assert children[..k][..k - 1] == children[..k - 1];
    if k == 1 {
      assert Sum(SharedUnion, Shares, children[..0]) == {};
    } else {
      AbsorbShared(sys, children, k - 1);
    }
  }

  /** The mock merger adds up coverage, every handle's product, every component
      of the contributions, and the shared inputs (all children agree). */
  lemma MergeIsAdditive(sys: System, children: seq<Node>)
    requires AllGoodNodes(sys, children) && MockMerge(sys, children).Merged?
    ensures var node := MockMerge(sys, children).node;
      && Good(sys)(node)
      && Covers(node) == Sum(CoverageSum, Covers, children)
      && (forall h :: 0 <= h < sys.handles ==> ProductAt(h)(node) == Sum(ProductSum, ProductAt(h), children))
      && (sys.seeded ==> forall c :: 0 <= c < sys.hashSize ==> HashAt(c)(node) == Sum(HashSum, HashAt(c), children))
      && Shares(node) == Sum(SharedUnion, Shares, children)
  {
    var n := |children|;
    assert children[..n] == children;
    var node := MockMerge(sys, children).node;
    AbsorbCoverage(sys, children, n);
    AbsorbShared(sys, children, n);
    forall h | 0 <= h < sys.handles ensures ProductAt(h)(node) == Sum(ProductSum, ProductAt(h), children) {
      AbsorbProduct(sys, children, n, h);
    }
    if sys.seeded {
      forall c | 0 <= c < sys.hashSize ensures HashAt(c)(node) == Sum(HashSum, HashAt(c), children) {
        AbsorbHash(sys, children, n, c);
      }
    }
  }
}
