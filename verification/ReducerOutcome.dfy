/** What Close returns, for every interleaving: the verdict of the first rejected merge, a
    merged node, or the only shard as it was added. */
module ReducerOutcome {
  import opened Conglomeration
  import opened MockMerger
  import opened ConglomerationRoot

  // ---- the first rejection ----

  /** The reason of the first rejected merge of a run. */
  function FirstRejection<N>(max: nat, merge: seq<N> -> MergeResult<N>, st: State<N>, actions: seq<Action<N>>): Option<string>
    requires IsRun(max, merge, st, actions)
    decreases |actions|
  {
    if actions == [] then None
    else if actions[0].Complete? && merge(st.running[actions[0].k]).Rejected? then Some(merge(st.running[actions[0].k]).reason)
    else FirstRejection(max, merge, Step(max, merge, st, actions[0]), actions[1..])
  }

  /** A failed Close reports the recorded error, or that nothing was added. */
  predicate ReportsError<N>(st: State<N>) {
    st.phase.Closed? ==>
      if st.phase.outcome.Success? then st.err.None? && st.running == []
      else
        || st.err == Some(st.phase.outcome.reason)
        || (st.err.None? && st.running == [] && st.added == [] && st.phase.outcome.reason == "no shard proof was added")
  }

  lemma StepRejects<N>(max: nat, merge: seq<N> -> MergeResult<N>, st: State<N>, a: Action<N>)
    requires st.err.None? && Enabled(st, a)
    ensures Step(max, merge, st, a).err
         == if a.Complete? && merge(st.running[a.k]).Rejected? then Some(merge(st.running[a.k]).reason) else None
  {
    hide StartFull;
    match a
    case Arrive(node) => StartFullFrame(max, st.(ready := st.ready + [node], added := st.added + [node]));
    case Complete(k) =>
      var rest := st.(running := st.running[..k] + st.running[k + 1..]);
      if merge(st.running[k]).Merged? { StartFullFrame(max, rest.(ready := rest.ready + [merge(st.running[k]).node])); }
    case Close => StartFullFrame(max, st.(phase := Closing));
    case Proceed => if |st.ready| >= 2 { StartFullFrame(max, Start(st, |st.ready|)); }
  }

  lemma StepReports<N>(max: nat, merge: seq<N> -> MergeResult<N>, st: State<N>, a: Action<N>)
    requires max >= 1 && Inv(max, st) && ReportsError(st) && Enabled(st, a)
    ensures ReportsError(Step(max, merge, st, a))
  {
    hide StartFull, MergeShape;
    match a
    case Arrive(node) => StartFullFrame(max, st.(ready := st.ready + [node], added := st.added + [node]));
    case Complete(k) =>
      var rest := st.(running := st.running[..k] + st.running[k + 1..]);
      if merge(st.running[k]).Merged? { StartFullFrame(max, rest.(ready := rest.ready + [merge(st.running[k]).node])); }
    case Close => StartFullFrame(max, st.(phase := Closing));
    case Proceed => if |st.ready| >= 2 { StartFullFrame(max, Start(st, |st.ready|)); }
  }

  lemma {:induction false} RunRejects<N>(max: nat, merge: seq<N> -> MergeResult<N>, st: State<N>, actions: seq<Action<N>>)
    requires max >= 1 && Inv(max, st) && ReportsError(st) && st.err.None? && IsRun(max, merge, st, actions)
    ensures After(max, merge, st, actions).err == FirstRejection(max, merge, st, actions)
    decreases |actions|
  {
    hide Inv, ReportsError, Step, Enabled;
    if actions != [] {
      RunHead(max, merge, st, actions);
      StepRejects(max, merge, st, actions[0]);
      StepInv(max, merge, st, actions[0]);
      StepReports(max, merge, st, actions[0]);
      var next := Step(max, merge, st, actions[0]);
      if next.err.Some? {
        RunKeepsError(max, merge, next, actions[1..]);
      } else {
        RunRejects(max, merge, next, actions[1..]);
      }
    }
  }

  lemma RunHead<N>(max: nat, merge: seq<N> -> MergeResult<N>, st: State<N>, actions: seq<Action<N>>)
    requires IsRun(max, merge, st, actions) && actions != []
    ensures Enabled(st, actions[0]) && (actions[0].Complete? ==> actions[0].k < |st.running|)
    ensures IsRun(max, merge, Step(max, merge, st, actions[0]), actions[1..])
  {
    hide Step;
  }

  lemma {:induction false} RunReports<N>(max: nat, merge: seq<N> -> MergeResult<N>, st: State<N>, actions: seq<Action<N>>)
    requires max >= 1 && Inv(max, st) && ReportsError(st) && IsRun(max, merge, st, actions)
    ensures ReportsError(After(max, merge, st, actions))
    decreases |actions|
  {
    hide Inv, ReportsError, Step;
    if actions != [] {
      StepInv(max, merge, st, actions[0]);
      StepReports(max, merge, st, actions[0]);
      RunReports(max, merge, Step(max, merge, st, actions[0]), actions[1..]);
    }
  }

  /** Close fails exactly when a merge was rejected before it returned or nothing was added, and
      then it reports the first rejection. */
  lemma FailureReason<N>(max: nat, merge: seq<N> -> MergeResult<N>, actions: seq<Action<N>>)
    requires max >= 1 && IsRun(max, merge, Init(), actions) && After(max, merge, Init(), actions).phase.Closed?
    ensures var st, first := After(max, merge, Init(), actions), FirstRejection(max, merge, Init(), actions);
      && (st.phase.outcome.Success? <==> first.None? && st.added != [])
      && (st.phase.outcome.Failure? && first.Some? ==> st.phase.outcome.reason == first.value)
      && (st.phase.outcome.Failure? && first.None? ==> st.phase.outcome.reason == "no shard proof was added")
  {
    InitInv<N>(max);
    RunInv(max, merge, Init(), actions);
    RunReports(max, merge, Init(), actions);
    RunRejects(max, merge, Init(), actions);
    ReducerSafety(max, merge, actions);
    hide After, IsRun, FirstRejection, MergeShape;
  }

  lemma NothingRemoved()
    ensures Removed([]) == 0
  {
  }

  // ---- where the returned node comes from ----

  /** A merged node carries a mark that only merges put on. */
  ghost predicate Marks<N(!new)>(mark: N -> bool, merge: seq<N> -> MergeResult<N>) {
    forall c :: merge(c).Merged? ==> mark(merge(c).node)
  }

  predicate HasMarked<N>(mark: N -> bool, nodes: seq<N>) { exists i :: 0 <= i < |nodes| && mark(nodes[i]) }

  /** Before the first merge the ready nodes are those added; afterwards a merge runs, or a
      merged node is ready. */
  predicate Origin<N(==)>(mark: N -> bool, st: State<N>) {
    st.err.None? ==>
      if st.merges == [] then st.ready == st.added && st.running == []
      else st.running != [] || HasMarked(mark, st.ready)
  }

  lemma StartOrigin<N>(mark: N -> bool, st: State<N>, k: nat)
    requires k <= |st.ready|
    ensures Origin(mark, Start(st, k))
  {
  }

  lemma {:induction false} StartFullOrigin<N>(mark: N -> bool, max: nat, st: State<N>)
    requires Origin(mark, st)
    ensures Origin(mark, StartFull(max, st))
    decreases |st.ready|
  {
    hide Origin;
    if |st.running| < max && |st.ready| >= Arity {
      StartOrigin(mark, st, Arity);
      StartFullOrigin(mark, max, Start(st, Arity));
    }
  }

  lemma ReadyOrigin<N>(mark: N -> bool, st: State<N>, node: N)
    requires Origin(mark, st)
    ensures Origin(mark, st.(ready := st.ready + [node], added := st.added + [node]))
  {
    var more := st.ready + [node];
    if HasMarked(mark, st.ready) {
      var i :| 0 <= i < |st.ready| && mark(st.ready[i]);
      assert mark(more[i]);
    }
  }

  lemma MergedOrigin<N>(mark: N -> bool, st: State<N>, node: N)
    requires mark(node) && (st.err.None? ==> st.merges != [])
    ensures Origin(mark, st.(ready := st.ready + [node]))
  {
    var more := st.ready + [node];
    assert mark(more[|st.ready|]);
  }

  lemma StepOrigin<N(!new)>(mark: N -> bool, max: nat, merge: seq<N> -> MergeResult<N>, st: State<N>, a: Action<N>)
    requires Origin(mark, st) && Marks(mark, merge) && Enabled(st, a)
    ensures Origin(mark, Step(max, merge, st, a))
  {
    hide StartFull, HasMarked;
    match a
    case Arrive(node) =>
      ReadyOrigin(mark, st, node);
      StartFullOrigin(mark, max, st.(ready := st.ready + [node], added := st.added + [node]));
    case Complete(k) =>
      var rest := st.(running := st.running[..k] + st.running[k + 1..]);
      if merge(st.running[k]).Merged? {
        MergedOrigin(mark, rest, merge(st.running[k]).node);
        StartFullOrigin(mark, max, rest.(ready := rest.ready + [merge(st.running[k]).node]));
      }
    case Close => StartFullOrigin(mark, max, st.(phase := Closing));
    case Proceed =>
      if |st.ready| >= 2 {
        StartOrigin(mark, st, |st.ready|);
        StartFullOrigin(mark, max, Start(st, |st.ready|));
      }
  }

  lemma {:induction false} RunOrigin<N(!new)>(mark: N -> bool, max: nat, merge: seq<N> -> MergeResult<N>, st: State<N>, actions: seq<Action<N>>)
    requires Origin(mark, st) && Marks(mark, merge) && IsRun(max, merge, st, actions)
    ensures Origin(mark, After(max, merge, st, actions))
    decreases |actions|
  {
    hide Origin, Marks, Step;
    if actions != [] {
      StepOrigin(mark, max, merge, st, actions[0]);
      RunOrigin(mark, max, merge, Step(max, merge, st, actions[0]), actions[1..]);
    }
  }

  lemma {:induction false} SomeRemoved(merges: seq<nat>)
    requires forall i :: 0 <= i < |merges| ==> merges[i] >= 2
    ensures Removed(merges) >= |merges|
  {
    if merges != [] { SomeRemoved(merges[..|merges| - 1]); }
  }

  /** A successful Close returns a merged node when several were added, and otherwise the only
      node added. */
  lemma RootOrigin<N(!new)>(mark: N -> bool, max: nat, merge: seq<N> -> MergeResult<N>, actions: seq<Action<N>>)
    requires max >= 1 && Marks(mark, merge) && IsRun(max, merge, Init(), actions)
    requires var st := After(max, merge, Init(), actions); st.phase.Closed? && st.phase.outcome.Success?
    ensures var st := After(max, merge, Init(), actions);
      && st.err.None? && st.added != []
      && (|st.added| >= 2 ==> mark(st.phase.outcome.node))
      && (|st.added| == 1 ==> st.phase.outcome.node == st.added[0])
  {
    InitInv<N>(max);
    RunInv(max, merge, Init(), actions);
    RunOrigin(mark, max, merge, Init(), actions);
    ReducerSafety(max, merge, actions);
    hide After, IsRun, MergeShape, Marks;
    SomeRemoved(After(max, merge, Init(), actions).merges);
    NothingRemoved();
  }

  // ---- the mock merger's root ----

  function NoProof(): Node -> bool { (n: Node) => n.proof == [] }

  /** A merged node has the empty proof. */
  lemma MergedProof(sys: System, c: seq<Node>)
    requires MockMerge(sys, c).Merged?
    ensures MockMerge(sys, c).node.proof == []
  {
    hide AbsorbFirst, AllShaped;
  }

  /** The node Close returns has the empty proof when several shards arrived, and is the shard
      itself, its proof kept, when one did. */
  lemma RootProof(sys: System, max: nat, actions: seq<Action<Node>>)
    requires max >= 1 && IsRun(max, Merger(sys), Init(), actions)
    requires var st := After(max, Merger(sys), Init(), actions); st.phase.Closed? && st.phase.outcome.Success?
    ensures var root, shards := After(max, Merger(sys), Init(), actions).phase.outcome.node, Arrivals(actions);
      && shards != []
      && (|shards| >= 2 ==> root.proof == [])
      && (|shards| == 1 ==> root == shards[0])
  {
    hide After, IsRun, MockMerge;
    forall c | Merger(sys)(c).Merged? ensures NoProof()(Merger(sys)(c).node) { MergedProof(sys, c); }
    RootOrigin(NoProof(), max, Merger(sys), actions);
    AddedIsArrivals(sys, max, Init(), actions);
  }
}
