/** The root of the conglomeration does not depend on the merge tree. */
module ConglomerationRoot {
  import opened KoalaBear
  import opened ExtField
  import opened Conglomeration
  import opened MockMerger

  function Merger(sys: System): seq<Node> -> MergeResult<Node> {
    (c: seq<Node>) => MockMerge(sys, c)
  }

  // ---- the merger is additive for each quantity ----

  lemma GoodSeq(sys: System, c: seq<Node>)
    requires forall x :: x in c ==> Good(sys)(x)
    ensures AllGoodNodes(sys, c)
  {
  }

  lemma CoverageAdditive(sys: System)
    ensures Additive(CoverageSum, Covers, Good(sys), Merger(sys))
  {
    hide MockMerge, Sum;
    forall c: seq<Node> | (forall x :: x in c ==> Good(sys)(x)) && Merger(sys)(c).Merged?
      ensures Good(sys)(Merger(sys)(c).node) && Covers(Merger(sys)(c).node) == Sum(CoverageSum, Covers, c)
    {
      GoodSeq(sys, c);
      MergeIsAdditive(sys, c);
    }
  }

  lemma ProductAdditive(sys: System, h: nat)
    requires h < sys.handles
    ensures Additive(ProductSum, ProductAt(h), Good(sys), Merger(sys))
  {
    hide MockMerge, Sum;
    forall c: seq<Node> | (forall x :: x in c ==> Good(sys)(x)) && Merger(sys)(c).Merged?
      ensures Good(sys)(Merger(sys)(c).node) && ProductAt(h)(Merger(sys)(c).node) == Sum(ProductSum, ProductAt(h), c)
    {
      GoodSeq(sys, c);
      MergeIsAdditive(sys, c);
    }
  }

  lemma HashAdditive(sys: System, i: nat)
    requires sys.seeded && i < sys.hashSize
    ensures Additive(HashSum, HashAt(i), Good(sys), Merger(sys))
  {
    hide MockMerge, Sum;
    forall c: seq<Node> | (forall x :: x in c ==> Good(sys)(x)) && Merger(sys)(c).Merged?
      ensures Good(sys)(Merger(sys)(c).node) && HashAt(i)(Merger(sys)(c).node) == Sum(HashSum, HashAt(i), c)
    {
      GoodSeq(sys, c);
      MergeIsAdditive(sys, c);
    }
  }

  lemma SharedAdditive(sys: System)
    ensures Additive(SharedUnion, Shares, Good(sys), Merger(sys))
  {
    hide MockMerge, Sum;
    forall c: seq<Node> | (forall x :: x in c ==> Good(sys)(x)) && Merger(sys)(c).Merged?
      ensures Good(sys)(Merger(sys)(c).node) && Shares(Merger(sys)(c).node) == Sum(SharedUnion, Shares, c)
    {
      GoodSeq(sys, c);
      MergeIsAdditive(sys, c);
    }
  }

  // ---- compatible shards never fail to merge ----

  /** The shards agree on the shared inputs and cover each index at most once. */
  ghost predicate Compatible(nodes: seq<Node>) {
    && (forall i, j :: 0 <= i < |nodes| && 0 <= j < |nodes| ==> Shares(nodes[i]) == Shares(nodes[j]))
    && (forall x :: Sum(CoverageSum, Covers, nodes)[x] <= 1)
  }

  lemma {:induction false} CoverPrefix(nodes: seq<Node>, k: nat, n: nat)
    requires k <= n <= |nodes|
    ensures Sum(CoverageSum, Covers, nodes[..k]) <= Sum(CoverageSum, Covers, nodes[..n])
    decreases n
  {
    if k < n {
      CoverPrefix(nodes, k, n - 1);
      assert nodes[..n][..n - 1] == nodes[..n - 1];
    }
  }

  /** The next child's coverage is disjoint from what was absorbed. */
  lemma NextDisjoint(sys: System, c: seq<Node>, k: nat)
    requires AllGoodNodes(sys, c) && Compatible(c) && 1 <= k < |c|
    requires AbsorbFirst(sys, c, k).Some?
    ensures Increasing(AbsorbFirst(sys, c, k).value.coverage)
    ensures forall x :: x in AbsorbFirst(sys, c, k).value.coverage ==> x !in c[k].coverage
  {
    hide AbsorbFirst, Sum, Interleave, Increasing;
    var acc := AbsorbFirst(sys, c, k).value;
    AbsorbCoverage(sys, c, k);
    CoverPrefix(c, k + 1, |c|);
    assert c[..|c|] == c;
    CoverNext(c, k);
    Disjoint(acc.coverage, c[k].coverage, Sum(CoverageSum, Covers, c));
  }

  lemma CoverNext(c: seq<Node>, k: nat)
    requires k < |c|
    ensures Sum(CoverageSum, Covers, c[..k + 1]) == Sum(CoverageSum, Covers, c[..k]) + multiset(c[k].coverage)
  {
    assert c[..k + 1][..k] == c[..k];
  }

  lemma AgreesWithFirst(c: seq<Node>, k: nat)
    requires Compatible(c) && k < |c|
    ensures Agrees(c[0].pub, c[k].pub)
  {
    assert Shares(c[0]) == Shares(c[k]);
    assert Shared(c[0].pub.vk, c[0].pub.output, c[0].pub.seed) in Shares(c[k]);
  }

  lemma {:induction false} Absorbs(sys: System, c: seq<Node>, k: nat)
    requires AllGoodNodes(sys, c) && Compatible(c) && 1 <= k <= |c|
    ensures AbsorbFirst(sys, c, k).Some?
  {
    if k > 1 {
      Absorbs(sys, c, k - 1);
      NextDisjoint(sys, c, k - 1);
      InterleaveUnites(AbsorbFirst(sys, c, k - 1).value.coverage, c[k - 1].coverage);
      AgreesWithFirst(c, k - 1);
      hide Interleave, MulAll, CombineHash, Compatible;
    }
  }

  lemma Disjoint(a: seq<nat>, b: seq<nat>, all: multiset<nat>)
    requires multiset(a) + multiset(b) <= all && forall x :: all[x] <= 1
    ensures forall x :: x in a ==> x !in b
  {
    forall x | x in a ensures x !in b {
      assert multiset(a)[x] >= 1;
      assert (multiset(a) + multiset(b))[x] <= all[x];
    }
  }

  lemma CompatibleMerges(sys: System, c: seq<Node>)
    requires AllGoodNodes(sys, c) && Compatible(c) && 2 <= |c| <= Arity
    ensures MockMerge(sys, c).Merged?
  {
    Absorbs(sys, c, |c|);
  }

  lemma {:induction false} CoverWithin(running: seq<seq<Node>>, k: nat)
    requires k < |running|
    ensures Sum(CoverageSum, Covers, running[k]) <= SumAll(CoverageSum, Covers, running)
  {
    CoverageSumLaws();
    SumAllRemove(CoverageSum, Covers, running, k);
  }

  lemma SharesWithin(running: seq<seq<Node>>, k: nat)
    requires k < |running|
    ensures Sum(SharedUnion, Shares, running[k]) <= SumAll(SharedUnion, Shares, running)
  {
    SharedUnionLaws();
    SumAllRemove(SharedUnion, Shares, running, k);
  }

  lemma {:induction false} SharesMember(nodes: seq<Node>, i: nat)
    requires i < |nodes|
    ensures Shares(nodes[i]) <= Sum(SharedUnion, Shares, nodes)
    decreases |nodes|
  {
    if i < |nodes| - 1 { SharesMember(nodes[..|nodes| - 1], i); }
  }

  lemma {:induction false} SharesAgree(nodes: seq<Node>, s: set<Shared>)
    requires forall i :: 0 <= i < |nodes| ==> Shares(nodes[i]) == s
    ensures Sum(SharedUnion, Shares, nodes) <= s
  {
    if nodes != [] { SharesAgree(nodes[..|nodes| - 1], s); }
  }

  lemma SingletonSubset(a: Node, b: Node, s: Shared)
    requires Shares(a) <= {s} && Shares(b) <= {s}
    ensures Shares(a) == Shares(b)
  {
    assert Shared(a.pub.vk, a.pub.output, a.pub.seed) in Shares(a);
    assert Shared(b.pub.vk, b.pub.output, b.pub.seed) in Shares(b);
  }

  /** What holds between the actions of a run over good shards. */
  ghost predicate Sound(sys: System, max: nat, st: State<Node>) {
    && Conglomeration.Inv(max, st)
    && Conserved(CoverageSum, Covers, Good(sys), st)
    && Conserved(SharedUnion, Shares, Good(sys), st)
  }

  /** The children of a running merge are as compatible as the shards added. */
  lemma RunningCompatible(sys: System, max: nat, st: State<Node>, k: nat)
    requires Sound(sys, max, st) && st.err.None? && k < |st.running| && Compatible(st.added)
    ensures MockMerge(sys, st.running[k]).Merged?
  {
    var c := st.running[k];
    assert AllGoodNodes(sys, c);
    assert 2 <= |c| <= Arity;
    assert st.added != [];
    CoverWithin(st.running, k);
    SharesWithin(st.running, k);
    SharesAgree(st.added, Shares(st.added[0]));
    var s :| s in Shares(st.added[0]);
    forall i, j | 0 <= i < |c| && 0 <= j < |c| ensures Shares(c[i]) == Shares(c[j]) {
      SharesMember(c, i);
      SharesMember(c, j);
      SingletonSubset(c[i], c[j], s);
    }
    forall x ensures Sum(CoverageSum, Covers, c)[x] <= 1 {
      assert Sum(CoverageSum, Covers, st.added)[x] <= 1;
    }
    CompatibleMerges(sys, c);
  }

  // ---- every run ----

  lemma SoundStart(sys: System, max: nat)
    requires max >= 1
    ensures Sound(sys, max, Init())
  {
    var none: set<Shared> := {};
    assert none + none == none;
  }

  lemma SoundStep(sys: System, max: nat, st: State<Node>, a: Action<Node>)
    requires max >= 1 && Sound(sys, max, st) && Enabled(st, a) && (a.Arrive? ==> Good(sys)(a.node))
    ensures Sound(sys, max, Step(max, Merger(sys), st, a))
  {
    hide Conglomeration.Inv, Conserved, Step;
    StepInv(max, Merger(sys), st, a);
    CoverageSumLaws();
    CoverageAdditive(sys);
    StepConserves(CoverageSum, Covers, Good(sys), max, Merger(sys), st, a);
    SharedUnionLaws();
    SharedAdditive(sys);
    StepConserves(SharedUnion, Shares, Good(sys), max, Merger(sys), st, a);
  }

  function Arrivals(actions: seq<Action<Node>>): seq<Node> {
    if actions == [] then []
    else if actions[0].Arrive? then [actions[0].node] + Arrivals(actions[1..])
    else Arrivals(actions[1..])
  }

  /** A step without rejection records no failure and adds exactly what arrives. */
  lemma StepWithoutFailure(sys: System, max: nat, st: State<Node>, a: Action<Node>)
    requires st.err.None? && Enabled(st, a)
    requires a.Complete? ==> MockMerge(sys, st.running[a.k]).Merged?
    ensures var next := Step(max, Merger(sys), st, a);
            next.err.None? && next.added == st.added + if a.Arrive? then [a.node] else []
  {
    hide MockMerge, StartFull;
    match a
    case Arrive(node) => StartFullFrame(max, st.(ready := st.ready + [node], added := st.added + [node]));
    case Complete(k) =>
      var rest := st.(running := st.running[..k] + st.running[k + 1..]);
      StartFullFrame(max, rest.(ready := rest.ready + [MockMerge(sys, st.running[k]).node]));
    case Close => StartFullFrame(max, st.(phase := Closing));
    case Proceed =>
      if |st.ready| >= 2 { StartFullFrame(max, Start(st, |st.ready|)); }
  }

  lemma CompatiblePrefix(nodes: seq<Node>, more: seq<Node>)
    requires Compatible(nodes + more)
    ensures Compatible(nodes)
  {
    CoverageSumLaws();
    SumAppend(CoverageSum, Covers, nodes, more);
    forall i, j | 0 <= i < |nodes| && 0 <= j < |nodes| ensures Shares(nodes[i]) == Shares(nodes[j]) {
      assert Shares((nodes + more)[i]) == Shares((nodes + more)[j]);
    }
    forall x ensures Sum(CoverageSum, Covers, nodes)[x] <= 1 {
      assert Sum(CoverageSum, Covers, nodes + more)[x] <= 1;
    }
  }

  /** Compatible shards reduce without failure, whatever the interleaving. */
  lemma {:induction false} RunNeverFails(sys: System, max: nat, st: State<Node>, actions: seq<Action<Node>>)
    requires max >= 1 && Sound(sys, max, st) && st.err.None?
    requires IsRun(max, Merger(sys), st, actions) && AddsGood(Good(sys), actions)
    requires Compatible(st.added + Arrivals(actions))
    ensures var last := After(max, Merger(sys), st, actions);
            Sound(sys, max, last) && last.err.None? && last.added == st.added + Arrivals(actions)
    decreases |actions|
  {
    hide Sound, Compatible, Step;
    if actions == [] {
      assert st.added + [] == st.added;
    } else {
      var a, rest := actions[0], actions[1..];
      CompatiblePrefix(st.added, Arrivals(actions));
      if a.Complete? { RunningCompatible(sys, max, st, a.k); }
      StepWithoutFailure(sys, max, st, a);
      SoundStep(sys, max, st, a);
      var next := Step(max, Merger(sys), st, a);
      assert next.added + Arrivals(rest) == st.added + Arrivals(actions);
      assert AddsGood(Good(sys), rest);
      RunNeverFails(sys, max, next, rest);
    }
  }

  lemma {:induction false} RunSound(sys: System, max: nat, st: State<Node>, actions: seq<Action<Node>>)
    requires max >= 1 && Sound(sys, max, st)
    requires IsRun(max, Merger(sys), st, actions) && AddsGood(Good(sys), actions)
    ensures Sound(sys, max, After(max, Merger(sys), st, actions))
    decreases |actions|
  {
    hide Sound, Step;
    if actions != [] {
      SoundStep(sys, max, st, actions[0]);
      RunSound(sys, max, Step(max, Merger(sys), st, actions[0]), actions[1..]);
    }
  }

  /** The added nodes of a run are a prefix of the arrivals (all of them without failure). */
  lemma {:induction false} AddedIsArrivals(sys: System, max: nat, st: State<Node>, actions: seq<Action<Node>>)
    requires IsRun(max, Merger(sys), st, actions)
    requires After(max, Merger(sys), st, actions).err.None?
    ensures After(max, Merger(sys), st, actions).added == st.added + Arrivals(actions)
    decreases |actions|
  {
    hide Step, Merger, IsRun, After, Enabled;
    RunUnfolds(sys, max, st, actions);
    if actions == [] {
      assert st.added + [] == st.added;
    } else {
      var a := actions[0];
      if st.err.Some? {
        RunKeepsError(max, Merger(sys), st, actions);
      } else {
        StepAdds(sys, max, st, a);
        AddedIsArrivals(sys, max, Step(max, Merger(sys), st, a), actions[1..]);
      }
    }
  }

  lemma RunUnfolds(sys: System, max: nat, st: State<Node>, actions: seq<Action<Node>>)
    requires IsRun(max, Merger(sys), st, actions)
    ensures actions == [] ==> After(max, Merger(sys), st, actions) == st
    ensures actions != [] ==> Enabled(st, actions[0])
    ensures actions != [] ==>
      var next, rest := Step(max, Merger(sys), st, actions[0]), actions[1..];
      IsRun(max, Merger(sys), next, rest) && After(max, Merger(sys), st, actions) == After(max, Merger(sys), next, rest)
  {
    hide Step, Merger, Enabled;
  }

  lemma StepAdds(sys: System, max: nat, st: State<Node>, a: Action<Node>)
    requires st.err.None? && Enabled(st, a)
    ensures Step(max, Merger(sys), st, a).added == st.added + if a.Arrive? then [a.node] else []
  {
    if a.Complete? && MockMerge(sys, st.running[a.k]).Rejected? {
    } else {
      StepWithoutFailure(sys, max, st, a);
    }
  }

  // ---- the root ----

  /** What the node returned for the given shards must be, whatever the tree. */
  ghost predicate IsRoot(sys: System, shards: seq<Node>, root: Node) {
    && Increasing(root.coverage)
    && multiset(root.coverage) == Sum(CoverageSum, Covers, shards)
    && |root.pub.products| == sys.handles
    && (forall h :: 0 <= h < sys.handles ==> root.pub.products[h] == Sum(ProductSum, ProductAt(h), shards))
    && root.pub.contribution == FlatHash(sys, shards)
    && (forall i :: 0 <= i < |shards| ==> Shares(shards[i]) == Shares(root))
  }

  /** The flat sum of the shards' contributions. */
  function FlatHash(sys: System, shards: seq<Node>): seq<Elt> {
    if sys.seeded then seq(sys.hashSize, c requires 0 <= c < sys.hashSize => Sum(HashSum, HashAt(c), shards)) else []
  }

  lemma RunConservesAll(sys: System, max: nat, actions: seq<Action<Node>>, root: Node)
    requires max >= 1 && IsRun(max, Merger(sys), Init(), actions) && AddsGood(Good(sys), actions)
    requires After(max, Merger(sys), Init(), actions).phase == Closed(Success(root))
    ensures IsRoot(sys, After(max, Merger(sys), Init(), actions).added, root)
  {
    hide After, IsRun, Commutative, Additive, Sum;
    var shards := After(max, Merger(sys), Init(), actions).added;
    CoverageSumLaws();
    CoverageAdditive(sys);
    Conservation(CoverageSum, Covers, Good(sys), max, Merger(sys), actions);
    assert Good(sys)(root);
    SharedUnionLaws();
    SharedAdditive(sys);
    Conservation(SharedUnion, Shares, Good(sys), max, Merger(sys), actions);
    RootShares(shards, root);
    forall h | 0 <= h < sys.handles ensures root.pub.products[h] == Sum(ProductSum, ProductAt(h), shards) {
      ProductSumLaws();
      ProductAdditive(sys, h);
      Conservation(ProductSum, ProductAt(h), Good(sys), max, Merger(sys), actions);
    }
    if sys.seeded {
      forall c | 0 <= c < sys.hashSize ensures root.pub.contribution[c] == Sum(HashSum, HashAt(c), shards) {
        HashSumLaws();
        HashAdditive(sys, c);
        Conservation(HashSum, HashAt(c), Good(sys), max, Merger(sys), actions);
      }
    }
  }

  lemma RootShares(shards: seq<Node>, root: Node)
    requires Shares(root) == Sum(SharedUnion, Shares, shards)
    ensures forall i :: 0 <= i < |shards| ==> Shares(shards[i]) == Shares(root)
  {
    forall i | 0 <= i < |shards| ensures Shares(shards[i]) == Shares(root) {
      SharesMember(shards, i);
      SingletonSubset(shards[i], root, Shared(root.pub.vk, root.pub.output, root.pub.seed));
    }
  }

  lemma LastIsLargest(a: seq<nat>, b: seq<nat>)
    requires Increasing(b) && a != [] && multiset(a) == multiset(b)
    ensures b != [] && a[|a| - 1] <= b[|b| - 1]
  {
    assert a[|a| - 1] in multiset(b);
    var i :| 0 <= i < |b| && b[i] == a[|a| - 1];
  }

  lemma WithoutLast(a: seq<nat>)
    requires a != []
    ensures multiset(a[..|a| - 1]) == multiset(a) - multiset{a[|a| - 1]}
  {
    assert a == a[..|a| - 1] + [a[|a| - 1]];
  }

  lemma {:induction false} IncreasingUnique(a: seq<nat>, b: seq<nat>)
    requires Increasing(a) && Increasing(b) && multiset(a) == multiset(b)
    ensures a == b
    decreases |a|
  {
    if a == [] {
      assert |multiset(b)| == 0;
    } else {
      LastIsLargest(a, b);
      LastIsLargest(b, a);
      WithoutLast(a);
      WithoutLast(b);
      IncreasingUnique(a[..|a| - 1], b[..|b| - 1]);
      assert a == a[..|a| - 1] + [a[|a| - 1]] && b == b[..|b| - 1] + [b[|b| - 1]];
    }
  }

  lemma {:induction false} IncreasingOnce(a: seq<nat>, x: nat)
    requires Increasing(a)
    ensures multiset(a)[x] <= 1
  {
    if a != [] {
      var n := |a| - 1;
      IncreasingOnce(a[..n], x);
      assert a == a[..n] + [a[n]];
      if x == a[n] && x in a[..n] { assert false; }
    }
  }

  /** Whether Close succeeds is decided by the shards alone: it does exactly when
      they are compatible, whatever the interleaving and the in-flight bound. */
  lemma SuccessIffCompatible(sys: System, max: nat, actions: seq<Action<Node>>)
    requires max >= 1 && IsRun(max, Merger(sys), Init(), actions) && AddsGood(Good(sys), actions)
    requires After(max, Merger(sys), Init(), actions).phase.Closed? && Arrivals(actions) != []
    ensures var last := After(max, Merger(sys), Init(), actions);
      && (last.phase.outcome.Success? <==> Compatible(Arrivals(actions)))
      && (last.phase.outcome.Success? ==> last.added == Arrivals(actions))
  {
    hide After, IsRun, Compatible, Sound;
    var shards := Arrivals(actions);
    assert Init<Node>().added + shards == shards;
    SoundStart(sys, max);
    RunSound(sys, max, Init(), actions);
    var last := After(max, Merger(sys), Init(), actions);
    SoundOutcome(sys, max, last);
    if Compatible(shards) {
      RunNeverFails(sys, max, Init(), actions);
    }
    if last.phase.outcome.Success? {
      AddedIsArrivals(sys, max, Init(), actions);
      RunConservesAll(sys, max, actions, last.phase.outcome.node);
      RootCompatible(sys, shards, last.phase.outcome.node);
    }
  }

  lemma SoundOutcome(sys: System, max: nat, st: State<Node>)
    requires Sound(sys, max, st) && st.phase.Closed?
    ensures st.phase.outcome.Success? ==> st.err.None?
    ensures st.phase.outcome.Failure? ==> st.err.Some? || st.added == []
  {
  }

  lemma RootCompatible(sys: System, shards: seq<Node>, root: Node)
    requires IsRoot(sys, shards, root)
    ensures Compatible(shards)
  {
    forall x ensures Sum(CoverageSum, Covers, shards)[x] <= 1 {
      if x >= 0 { IncreasingOnce(root.coverage, x); }
    }
  }

  /** Two reductions of the same shards, in any orders, with any interleavings
      and bounds, agree: both fail, or both return the same coverage and the
      same public inputs. */
  lemma ScheduleIndependentRoot(sys: System, max1: nat, actions1: seq<Action<Node>>, max2: nat, actions2: seq<Action<Node>>)
    requires max1 >= 1 && IsRun(max1, Merger(sys), Init(), actions1) && AddsGood(Good(sys), actions1)
    requires max2 >= 1 && IsRun(max2, Merger(sys), Init(), actions2) && AddsGood(Good(sys), actions2)
    requires After(max1, Merger(sys), Init(), actions1).phase.Closed?
    requires After(max2, Merger(sys), Init(), actions2).phase.Closed?
    requires Arrivals(actions1) != [] && multiset(Arrivals(actions1)) == multiset(Arrivals(actions2))
    ensures var r1 := After(max1, Merger(sys), Init(), actions1).phase.outcome;
            var r2 := After(max2, Merger(sys), Init(), actions2).phase.outcome;
      && (r1.Success? <==> r2.Success?)
      && (r1.Success? ==> r1.node.coverage == r2.node.coverage && r1.node.pub == r2.node.pub)
  {
    hide After, IsRun, Compatible;
    assert Arrivals(actions2) != [] by { assert |multiset(Arrivals(actions1))| == |multiset(Arrivals(actions2))|; }
    SuccessIffCompatible(sys, max1, actions1);
    SuccessIffCompatible(sys, max2, actions2);
    if Compatible(Arrivals(actions1)) { CompatiblePermuted(Arrivals(actions1), Arrivals(actions2)); }
    if Compatible(Arrivals(actions2)) { CompatiblePermuted(Arrivals(actions2), Arrivals(actions1)); }
    var r1 := After(max1, Merger(sys), Init(), actions1).phase.outcome;
    var r2 := After(max2, Merger(sys), Init(), actions2).phase.outcome;
    if r1.Success? {
      RunConservesAll(sys, max1, actions1, r1.node);
      RunConservesAll(sys, max2, actions2, r2.node);
      RootUnique(sys, Arrivals(actions1), r1.node, Arrivals(actions2), r2.node);
    }
  }

  lemma CompatiblePermuted(a: seq<Node>, b: seq<Node>)
    requires multiset(a) == multiset(b) && Compatible(a)
    ensures Compatible(b)
  {
    CoverageSumLaws();
    SumPermuted(CoverageSum, Covers, a, b);
    forall i, j | 0 <= i < |b| && 0 <= j < |b| ensures Shares(b[i]) == Shares(b[j]) {
      assert b[i] in multiset(a) && b[j] in multiset(a);
      assert b[i] in a && b[j] in a;
    }
  }

  lemma RootUnique(sys: System, shards1: seq<Node>, r1: Node, shards2: seq<Node>, r2: Node)
    requires IsRoot(sys, shards1, r1) && IsRoot(sys, shards2, r2)
    requires shards1 != [] && multiset(shards1) == multiset(shards2)
    ensures r1.coverage == r2.coverage && r1.pub == r2.pub
  {
    hide Sum;
    CoverageSumLaws();
    SumPermuted(CoverageSum, Covers, shards1, shards2);
    IncreasingUnique(r1.coverage, r2.coverage);
    forall h | 0 <= h < sys.handles ensures r1.pub.products[h] == r2.pub.products[h] {
      ProductSumLaws();
      SumPermuted(ProductSum, ProductAt(h), shards1, shards2);
    }
    assert FlatHash(sys, shards1) == FlatHash(sys, shards2) by {
      HashSumLaws();
      forall c ensures Sum(HashSum, HashAt(c), shards1) == Sum(HashSum, HashAt(c), shards2) {
        SumPermuted(HashSum, HashAt(c), shards1, shards2);
      }
    }
    assert shards1[0] in multiset(shards2);
    assert shards1[0] in shards2;
    assert Shares(r1) == Shares(r2);
    assert Shared(r1.pub.vk, r1.pub.output, r1.pub.seed) in Shares(r2);
    assert r1.pub.products == r2.pub.products;
  }

  /** The root checks on the node of a reduction, in terms of the flat shards. */
  lemma FinalizeFlat(sys: System, shards: seq<Node>, root: Node, n: nat)
    requires IsRoot(sys, shards, root) && shards != []
    ensures RootOk(sys, root, n) <==>
      && Sum(CoverageSum, Covers, shards) == multiset(seq(n, i => i))
      && (forall h :: 0 <= h < sys.handles ==> Sum(ProductSum, ProductAt(h), shards) == One6)
      && (sys.seeded ==> shards[0].pub.seed == sys.toSeed(FlatHash(sys, shards)))
  {
    hide Sum;
    var all: seq<nat> := seq(n, i => i);
    assert Increasing(all);
    if multiset(root.coverage) == multiset(all) { IncreasingUnique(root.coverage, all); }
    assert Shares(shards[0]) == Shares(root);
    assert Shared(root.pub.vk, root.pub.output, root.pub.seed) in Shares(shards[0]);
  }

  // ---- proving a job ----

  /** The sorted copy of xs. */
  function Sorted(xs: seq<nat>): seq<nat> {
    if xs == [] then [] else Insert(Sorted(xs[..|xs| - 1]), xs[|xs| - 1])
  }

  function Insert(xs: seq<nat>, x: nat): seq<nat> {
    if xs == [] || xs[|xs| - 1] <= x then xs + [x] else Insert(xs[..|xs| - 1], x) + [xs[|xs| - 1]]
  }

  predicate Nondecreasing(xs: seq<nat>) { forall i, j :: 0 <= i < j < |xs| ==> xs[i] <= xs[j] }

  lemma {:induction false} InsertCounts(xs: seq<nat>, x: nat)
    ensures multiset(Insert(xs, x)) == multiset(xs) + multiset{x}
  {
    if xs != [] {
      var f, y := xs[..|xs| - 1], xs[|xs| - 1];
      assert xs == f + [y];
      if y > x { InsertCounts(f, x); }
    }
  }

  lemma {:induction false} InsertSorted(xs: seq<nat>, x: nat)
    requires Nondecreasing(xs)
    ensures Nondecreasing(Insert(xs, x))
  {
    if xs != [] && xs[|xs| - 1] > x {
      var f, y := xs[..|xs| - 1], xs[|xs| - 1];
      InsertSorted(f, x);
      InsertCounts(f, x);
      var r := Insert(f, x);
      forall i | 0 <= i < |r| ensures r[i] <= y {
        assert r[i] in multiset(r);
        assert r[i] in f || r[i] == x;
      }
    }
  }

  lemma {:induction false} SortedIs(xs: seq<nat>)
    ensures multiset(Sorted(xs)) == multiset(xs)
    ensures Nondecreasing(Sorted(xs))
  {
    hide Insert;
    if xs != [] {
      var f, y := xs[..|xs| - 1], xs[|xs| - 1];
      assert xs == f + [y];
      SortedIs(f);
      InsertCounts(Sorted(f), y);
      InsertSorted(Sorted(f), y);
    }
  }

  /** checkShardIndexes: a duplicate-free sorted copy, or an error; without
      sharding only shard 0 exists. */
  method CheckShardIndexes(indexes: seq<nat>, shardSize: nat) returns (r: Option<seq<nat>>)
    ensures r.Some? <==>
      && (forall x :: multiset(indexes)[x] <= 1)
      && (shardSize == 0 ==> forall x :: x in indexes ==> x == 0)
    ensures r.Some? ==> Increasing(r.value) && multiset(r.value) == multiset(indexes)
  {
    hide Increasing, Sorted;
    var sorted := Sorted(indexes);
    SortedIs(indexes);
    var k := 0;
    assert Increasing(sorted[..0]) by { NoneIncreasing(sorted); }
    while k < |sorted|
      invariant 0 <= k <= |sorted|
      invariant Increasing(sorted[..k])
      invariant shardSize == 0 ==> forall i :: 0 <= i < k ==> sorted[i] == 0
    {
      if k > 0 && sorted[k - 1] == sorted[k] {
        Twice(sorted, k);
        return None;
      }
      if shardSize == 0 && sorted[k] != 0 {
        assert sorted[k] in multiset(sorted);
        assert sorted[k] in indexes;
        return None;
      }
      ExtendIncreasing(sorted, k);
      k := k + 1;
    }
    assert sorted[..k] == sorted;
    Accepted(indexes, sorted, shardSize);
    r := Some(sorted);
  }

  lemma Accepted(indexes: seq<nat>, sorted: seq<nat>, shardSize: nat)
    requires Increasing(sorted) && multiset(sorted) == multiset(indexes)
    requires shardSize == 0 ==> forall i :: 0 <= i < |sorted| ==> sorted[i] == 0
    ensures forall x :: multiset(indexes)[x] <= 1
    ensures shardSize == 0 ==> forall x :: x in indexes ==> x == 0
  {
    forall x ensures multiset(indexes)[x] <= 1 {
      if x >= 0 { IncreasingOnce(sorted, x); }
    }
    forall x | x in indexes ensures shardSize == 0 ==> x == 0 {
      assert x in multiset(sorted);
    }
  }

  lemma ExtendIncreasing(s: seq<nat>, k: nat)
    requires k < |s| && Increasing(s[..k])
    requires forall i, j :: 0 <= i < j < |s| ==> s[i] <= s[j]
    requires k > 0 ==> s[k - 1] != s[k]
    ensures Increasing(s[..k + 1])
  {
    assert k > 0 ==> s[..k][k - 1] == s[k - 1];
    forall i | 0 <= i < k ensures s[i] < s[k] {
      if i < k - 1 { assert s[..k][i] < s[..k][k - 1]; }
    }
    assert s[..k + 1] == s[..k] + [s[k]];
  }

  lemma NoneIncreasing(s: seq<nat>)
    ensures Increasing(s[..0])
  {
  }

  lemma Twice(s: seq<nat>, k: nat)
    requires 0 < k < |s| && s[k - 1] == s[k]
    ensures multiset(s)[s[k]] >= 2
  {
    assert s == s[..k - 1] + [s[k - 1], s[k]] + s[k + 1..];
  }

  datatype Job = Refused | Proves(indexes: seq<nat>, isRoot: bool, needsMerger: bool)

  /** More than one shard to merge, or root checks to run on a sharded trace. */
  predicate NeedsMerger(shardIndexes: seq<nat>, numShards: nat, shardSize: nat) {
    var count := if shardIndexes == [] then numShards else |shardIndexes|;
    count > 1 || (count == numShards && shardSize > 0)
  }

  lemma SameBounds(a: seq<nat>, b: seq<nat>, n: nat)
    requires multiset(a) == multiset(b)
    ensures |a| == |b|
    ensures (forall x :: x in a ==> x < n) <==> (forall x :: x in b ==> x < n)
  {
    assert |multiset(a)| == |multiset(b)|;
    assert forall x :: x in a <==> x in multiset(a);
    assert forall x :: x in b <==> x in multiset(b);
  }

  /** The shard selection of runProve: all of them when none is named. */
  method SelectShards(shardIndexes: seq<nat>, numShards: nat, shardSize: nat, hasMerger: bool) returns (job: Job)
    requires forall x :: multiset(shardIndexes)[x] <= 1
    ensures job.Proves? ==>
      && job.indexes != [] && Increasing(job.indexes)
      && (forall i :: 0 <= i < |job.indexes| ==> job.indexes[i] < numShards)
      && (job.isRoot <==> job.indexes == seq(numShards, i => i))
      && (job.needsMerger <==> |job.indexes| > 1 || (job.isRoot && shardSize > 0))
      && (job.needsMerger ==> hasMerger)
      && (if shardIndexes == [] then job.isRoot else multiset(job.indexes) == multiset(shardIndexes))
    ensures job.Proves? <==>
      && (forall x :: x in shardIndexes ==> x < numShards)
      && numShards > 0
      && (NeedsMerger(shardIndexes, numShards, shardSize) ==> hasMerger)
  {
    hide Sorted;
    var indexes := Sorted(shardIndexes);
    SortedIs(shardIndexes);
    SameBounds(shardIndexes, indexes, numShards);
    if |indexes| == 0 {
      indexes := seq(numShards, i => i);
    } else {
      DistinctSorted(indexes);
    }
    if |indexes| == 0 { return Refused; }
    assert indexes[|indexes| - 1] in indexes;
    if indexes[|indexes| - 1] >= numShards { return Refused; }
    var isRoot := |indexes| == numShards;
    FullRange(indexes, numShards);
    var needsMerger := |indexes| > 1 || (isRoot && shardSize > 0);
    if needsMerger && !hasMerger { return Refused; }
    job := Proves(indexes, isRoot, needsMerger);
  }

  lemma DistinctSorted(s: seq<nat>)
    requires forall x :: multiset(s)[x] <= 1
    requires forall i, j :: 0 <= i < j < |s| ==> s[i] <= s[j]
    ensures Increasing(s)
  {
    forall i, j | 0 <= i < j < |s| ensures s[i] < s[j] {
      if s[i] == s[j] {
        assert s[i + 1] == s[i];
        Twice(s, i + 1);
      }
    }
  }

  /** n increasing indexes below n are exactly 0..n-1 (pigeonhole). */
  lemma {:induction false} FullRange(s: seq<nat>, n: nat)
    requires Increasing(s) && forall i :: 0 <= i < |s| ==> s[i] < n
    ensures |s| <= n && (|s| == n <==> s == seq(n, i => i))
  {
    forall i | 0 <= i < |s| ensures i <= s[i] <= n - |s| + i {
      AtLeastIndex(s, i);
      AtMostIndex(s, i, n);
    }
    if s != [] { AtMostIndex(s, 0, n); }
  }

  lemma {:induction false} AtLeastIndex(s: seq<nat>, i: nat)
    requires Increasing(s) && i < |s|
    ensures i <= s[i]
  {
    if i > 0 { AtLeastIndex(s, i - 1); }
  }

  lemma {:induction false} AtMostIndex(s: seq<nat>, i: nat, n: nat)
    requires Increasing(s) && i < |s| && forall i :: 0 <= i < |s| ==> s[i] < n
    ensures s[i] <= n - |s| + i
    decreases |s| - i
  {
    if i < |s| - 1 { AtMostIndex(s, i + 1, n); }
  }

  /** The shard proofs of the given indexes, over one system. */
  ghost predicate ShardsOf(sys: System, indexes: seq<nat>, shards: seq<Node>) {
    && |shards| == |indexes|
    && forall i :: 0 <= i < |shards| ==> shards[i].coverage == [indexes[i]] && Shaped(sys, shards[i].pub)
  }

  lemma {:induction false} ShardsCover(sys: System, indexes: seq<nat>, shards: seq<Node>)
    requires ShardsOf(sys, indexes, shards)
    ensures Sum(CoverageSum, Covers, shards) == multiset(indexes)
    decreases |indexes|
  {
    if shards != [] {
      var n := |shards| - 1;
      ShardsCover(sys, indexes[..n], shards[..n]);
      assert indexes == indexes[..n] + [indexes[n]];
    }
  }

  /** runProve over all the shards of a trace: for every interleaving of the
      reduction, Close succeeds exactly when the shards agree on the shared
      inputs; the root covers every shard, so Finalize never rejects coverage,
      and it accepts exactly when every handle's product over the flat shards is
      one and the seed derives from the flat sum of their contributions. */
  lemma ProveAllShards(sys: System, max: nat, actions: seq<Action<Node>>, n: nat)
    requires max >= 1 && IsRun(max, Merger(sys), Init(), actions)
    requires ShardsOf(sys, seq(n, i => i), Arrivals(actions)) && n >= 1
    requires AddsGood(Good(sys), actions)
    requires After(max, Merger(sys), Init(), actions).phase.Closed?
    ensures var shards := Arrivals(actions);
      var outcome := After(max, Merger(sys), Init(), actions).phase.outcome;
      && (outcome.Success? <==> forall i :: 0 <= i < n ==> Shares(shards[i]) == Shares(shards[0]))
      && (outcome.Success? ==>
            && outcome.node.coverage == seq(n, i => i)
            && (RootOk(sys, outcome.node, n) <==>
                  && (forall h :: 0 <= h < sys.handles ==> Sum(ProductSum, ProductAt(h), shards) == One6)
                  && (sys.seeded ==> shards[0].pub.seed == sys.toSeed(FlatHash(sys, shards)))))
  {
    hide After, IsRun, Sum;
    var shards := Arrivals(actions);
    var all: seq<nat> := seq(n, i => i);
    ShardsCover(sys, all, shards);
    SuccessIffCompatible(sys, max, actions);
    forall x ensures multiset(all)[x] <= 1 {
      if x >= 0 { IncreasingOnce(all, x); }
    }
    var outcome := After(max, Merger(sys), Init(), actions).phase.outcome;
    if outcome.Success? {
      RunConservesAll(sys, max, actions, outcome.node);
      IncreasingUnique(outcome.node.coverage, all);
      FinalizeFlat(sys, shards, outcome.node, n);
    }
  }
}
