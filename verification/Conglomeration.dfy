/** The reducer of the conglomeration tree: a mutex-guarded merge tree whose
    merges run in the background.  Its methods and the completion of each
    background merge hold the mutex, so a run is an interleaving of the atomic
    actions below; everything is stated for every interleaving.  */
module Conglomeration {

  datatype Option<T> = None | Some(value: T)

  /** The outcome of one merge, as the merger reports it. */
  datatype MergeResult<N> = Merged(node: N) | Rejected(reason: string)

  datatype Outcome<N> = Success(node: N) | Failure(reason: string)

  datatype Phase<N> = Adding | Closing | Closed(outcome: Outcome<N>)

  const Arity: nat := 6  // the most children one recursion step verifies

  /** The reducer's fields, its running merges (the children each goroutine
      holds), and the history of nodes added and merges started. */
  datatype State<N> = State(
    ready: seq<N>,
    running: seq<seq<N>>,
    err: Option<string>,
    phase: Phase<N>,
    added: seq<N>,
    merges: seq<nat>)

  function Init<N>(): State<N> { State([], [], None, Adding, [], []) }

  /** start: the first k ready nodes leave for a background merge. */
  function Start<N>(st: State<N>, k: nat): State<N>
    requires k <= |st.ready|
  {
    st.(ready := st.ready[k..], running := st.running + [st.ready[..k]], merges := st.merges + [k])
  }

  /** startFullMerges: full merges as long as the bound and the ready nodes allow. */
  function StartFull<N>(max: nat, st: State<N>): State<N>
    decreases |st.ready|
  {
    if |st.running| < max && |st.ready| >= Arity then StartFull(max, Start(st, Arity)) else st
  }

  /** Add: refused once a merge has failed. */
  function AddStep<N>(max: nat, st: State<N>, node: N): State<N> {
    if st.err.Some? then st
    else StartFull(max, st.(ready := st.ready + [node], added := st.added + [node]))
  }

  /** The end of the k-th running merge, with the merger's verdict. */
  function CompleteStep<N>(max: nat, st: State<N>, k: nat, verdict: MergeResult<N>): State<N>
    requires k < |st.running|
  {
    var rest := st.(running := st.running[..k] + st.running[k + 1..]);
    match verdict
    case Merged(node) => StartFull(max, rest.(ready := rest.ready + [node]))
    case Rejected(reason) => if st.err.None? then rest.(err := Some(reason)) else rest
  }

  /** Close begins: nothing more is added. */
  function CloseStep<N>(max: nat, st: State<N>): State<N> {
    StartFull(max, st.(phase := Closing))
  }

  /** Close wakes up: no merge runs any more, or one has failed. */
  function ProceedStep<N>(max: nat, st: State<N>): State<N> {
    if st.err.Some? then st.(phase := Closed(Failure(st.err.value)))
    else if |st.ready| == 0 then st.(phase := Closed(Failure("no shard proof was added")))
    else if |st.ready| == 1 then st.(phase := Closed(Success(st.ready[0])))
    else StartFull(max, Start(st, |st.ready|))
  }

  datatype Action<N> = Arrive(node: N) | Complete(k: nat) | Close | Proceed

  predicate Enabled<N>(st: State<N>, a: Action<N>) {
    match a
    case Arrive(_) => st.phase.Adding?
    case Complete(k) => k < |st.running|
    case Close => st.phase.Adding?
    case Proceed => st.phase.Closing? && (|st.running| == 0 || st.err.Some?)
  }

  function Step<N>(max: nat, merge: seq<N> -> MergeResult<N>, st: State<N>, a: Action<N>): State<N>
    requires Enabled(st, a)
  {
    match a
    case Arrive(node) => AddStep(max, st, node)
    case Complete(k) => CompleteStep(max, st, k, merge(st.running[k]))
    case Close => CloseStep(max, st)
    case Proceed => ProceedStep(max, st)
  }

  /** A run: each action enabled where it happens. */
  predicate IsRun<N>(max: nat, merge: seq<N> -> MergeResult<N>, st: State<N>, actions: seq<Action<N>>)
    decreases |actions|
  {
    actions == [] ||
    (Enabled(st, actions[0]) && IsRun(max, merge, Step(max, merge, st, actions[0]), actions[1..]))
  }

  function After<N>(max: nat, merge: seq<N> -> MergeResult<N>, st: State<N>, actions: seq<Action<N>>): State<N>
    requires IsRun(max, merge, st, actions)
    decreases |actions|
  {
    if actions == [] then st
    else After(max, merge, Step(max, merge, st, actions[0]), actions[1..])
  }

  // ---- the bound and the shape of the tree ----

  /** What merges remove: a merge of k nodes leaves one. */
  function Removed(merges: seq<nat>): int {
    if merges == [] then 0 else Removed(merges[..|merges| - 1]) + merges[|merges| - 1] - 1
  }

  predicate AllFull(merges: seq<nat>) {
    forall i :: 0 <= i < |merges| ==> merges[i] == Arity
  }

  /** Every merge has 2 to 6 children and only the last may have fewer than 6;
      a partial merge leaves it the only node. */
  predicate MergeShape<N>(st: State<N>) {
    || AllFull(st.merges)
    || (&& |st.merges| > 0
        && AllFull(st.merges[..|st.merges| - 1])
        && 2 <= st.merges[|st.merges| - 1] < Arity
        && !st.phase.Adding?
        && |st.ready| + |st.running| <= 1)
  }

  /** What holds in every state of every run. */
  ghost predicate Inv<N>(max: nat, st: State<N>) {
    && |st.running| <= max
    && (st.err.None? ==> |st.ready| >= Arity ==> |st.running| == max)
    && MergeShape(st)
    && (forall i :: 0 <= i < |st.running| ==> 2 <= |st.running[i]| <= Arity)
    && (st.err.None? ==> |st.ready| + |st.running| + Removed(st.merges) == |st.added|)
    && (st.err.None? && |st.added| > 0 ==> |st.ready| + |st.running| > 0)
    && (st.phase.Closed? && st.phase.outcome.Success? ==>
          st.err.None? && st.running == [] && st.ready == [st.phase.outcome.node])
    && (st.phase.Closed? && st.phase.outcome.Failure? ==> st.err.Some? || st.added == [])
  }

  lemma InitInv<N>(max: nat)
    requires max >= 1
    ensures Inv(max, Init<N>())
  {
  }

  /** The part of Inv that full merges restore, before they start. */
  ghost predicate Loose<N>(max: nat, st: State<N>) {
    && |st.running| <= max
    && MergeShape(st)
    && (forall i :: 0 <= i < |st.running| ==> 2 <= |st.running[i]| <= Arity)
    && (st.err.None? ==> |st.ready| + |st.running| + Removed(st.merges) == |st.added|)
    && (st.err.None? && |st.added| > 0 ==> |st.ready| + |st.running| > 0)
    && !(st.phase.Closed? && st.phase.outcome.Success?)
    && (st.phase.Closed? ==> st.err.Some? || st.added == [])
  }

  lemma {:induction false} StartFullInv<N>(max: nat, st: State<N>)
    requires Loose(max, st)
    ensures Inv(max, StartFull(max, st))
    ensures StartFull(max, st).(ready := st.ready, running := st.running, merges := st.merges) == st
    decreases |st.ready|
  {
    if |st.running| < max && |st.ready| >= Arity {
      var next := Start(st, Arity);
      assert next.merges[..|next.merges| - 1] == st.merges;
      StartFullInv(max, next);
    }
  }

  lemma AddInv<N>(max: nat, st: State<N>, node: N)
    requires Inv(max, st) && st.phase.Adding?
    ensures Inv(max, AddStep(max, st, node))
  {
    hide MergeShape;
    if st.err.None? {
      var more := st.(ready := st.ready + [node], added := st.added + [node]);
      AllFullWhileAdding(max, st, more);
      StartFullInv(max, more);
    }
  }

  lemma AllFullWhileAdding<N>(max: nat, st: State<N>, more: State<N>)
    requires Inv(max, st) && st.phase.Adding? && more.merges == st.merges
    ensures MergeShape(more)
  {
  }

  lemma CompleteInv<N>(max: nat, st: State<N>, k: nat, verdict: MergeResult<N>)
    requires Inv(max, st) && k < |st.running|
    ensures Inv(max, CompleteStep(max, st, k, verdict))
  {
    var rest := st.(running := st.running[..k] + st.running[k + 1..]);
    assert |rest.running| == |st.running| - 1;
    assert MergeShape(rest);
    match verdict
    case Merged(node) =>
      var more := rest.(ready := rest.ready + [node]);
      assert MergeShape(more);
      hide MergeShape;
      StartFullInv(max, more);
    case Rejected(_) => hide MergeShape;
  }

  lemma CloseInv<N>(max: nat, st: State<N>)
    requires Inv(max, st) && st.phase.Adding?
    ensures Inv(max, CloseStep(max, st))
  {
    AllFullWhileAdding(max, st, st.(phase := Closing));
    hide MergeShape;
    StartFullInv(max, st.(phase := Closing));
  }

  lemma ProceedInv<N>(max: nat, st: State<N>)
    requires max >= 1 && Inv(max, st) && Enabled(st, Proceed)
    ensures Inv(max, ProceedStep(max, st))
  {
    if st.err.None? && |st.ready| >= 2 {
      var last := Start(st, |st.ready|);
      assert last.merges[..|last.merges| - 1] == st.merges;
      StartFullInv(max, last);
    }
  }

  lemma StepInv<N>(max: nat, merge: seq<N> -> MergeResult<N>, st: State<N>, a: Action<N>)
    requires max >= 1 && Inv(max, st) && Enabled(st, a)
    ensures Inv(max, Step(max, merge, st, a))
  {
    hide Inv, AddStep, CompleteStep, CloseStep, ProceedStep;
    match a
    case Arrive(node) => AddInv(max, st, node);
    case Complete(k) => CompleteInv(max, st, k, merge(st.running[k]));
    case Close => CloseInv(max, st);
    case Proceed => ProceedInv(max, st);
  }

  lemma {:induction false} RunInv<N>(max: nat, merge: seq<N> -> MergeResult<N>, st: State<N>, actions: seq<Action<N>>)
    requires max >= 1 && Inv(max, st) && IsRun(max, merge, st, actions)
    ensures Inv(max, After(max, merge, st, actions))
    decreases |actions|
  {
    hide Inv, Step;
    if actions != [] {
      StepInv(max, merge, st, actions[0]);
      RunInv(max, merge, Step(max, merge, st, actions[0]), actions[1..]);
    }
  }

  lemma {:induction false} FullMergesRemove(merges: seq<nat>)
    requires AllFull(merges)
    ensures Removed(merges) == 5 * |merges|
  {
    if merges != [] { FullMergesRemove(merges[..|merges| - 1]); }
  }

  /** Reducer safety, for every schedule: the in-flight bound, the arity of every
      merge, and, when Close succeeds after n additions, exactly ceil((n-1)/5)
      merges. */
  lemma ReducerSafety<N>(max: nat, merge: seq<N> -> MergeResult<N>, actions: seq<Action<N>>)
    requires max >= 1 && IsRun(max, merge, Init(), actions)
    ensures var st := After(max, merge, Init(), actions);
      && |st.running| <= max
      && (forall i :: 0 <= i < |st.merges| ==> 2 <= st.merges[i] <= Arity)
      && (forall i :: 0 <= i < |st.merges| - 1 ==> st.merges[i] == Arity)
      && (st.phase.Closed? && st.phase.outcome.Success? ==>
            |st.added| >= 1 && |st.merges| == (|st.added| - 1 + 4) / 5)
  {
    InitInv<N>(max);
    RunInv(max, merge, Init(), actions);
    var st := After(max, merge, Init(), actions);
    hide After, IsRun;
    var m := st.merges;
    if AllFull(m) {
      FullMergesRemove(m);
    } else {
      FullMergesRemove(m[..|m| - 1]);
    }
  }

  // ---- failures and progress ----

  /** The first failure sticks: no later action replaces it. */
  lemma StepKeepsError<N>(max: nat, merge: seq<N> -> MergeResult<N>, st: State<N>, a: Action<N>)
    requires Enabled(st, a) && st.err.Some?
    ensures Step(max, merge, st, a).err == st.err
  {
    StartFullFrame(max, st);
    match a
    case Arrive(_) =>
    case Complete(k) =>
      var rest := st.(running := st.running[..k] + st.running[k + 1..]);
      match merge(st.running[k]) {
        case Merged(node) => StartFullFrame(max, rest.(ready := rest.ready + [node]));
        case Rejected(_) =>
      }
    case Close => StartFullFrame(max, st.(phase := Closing));
    case Proceed =>
  }

  lemma {:induction false} StartFullFrame<N>(max: nat, st: State<N>)
    ensures var t := StartFull(max, st);
            t.err == st.err && t.phase == st.phase && t.added == st.added
    decreases |st.ready|
  {
    if |st.running| < max && |st.ready| >= Arity { StartFullFrame(max, Start(st, Arity)); }
  }

  lemma {:induction false} RunKeepsError<N>(max: nat, merge: seq<N> -> MergeResult<N>, st: State<N>, actions: seq<Action<N>>)
    requires IsRun(max, merge, st, actions) && st.err.Some?
    ensures After(max, merge, st, actions).err == st.err
    decreases |actions|
  {
    hide Step;
    if actions != [] {
      StepKeepsError(max, merge, st, actions[0]);
      RunKeepsError(max, merge, Step(max, merge, st, actions[0]), actions[1..]);
    }
  }

  function Held<N>(running: seq<seq<N>>): nat {
    if running == [] then 0 else Held(running[..|running| - 1]) + |running[|running| - 1]|
  }

  lemma {:induction false} HeldRemove<N>(running: seq<seq<N>>, k: nat)
    requires k < |running|
    ensures Held(running[..k] + running[k + 1..]) == Held(running) - |running[k]|
    decreases |running|
  {
    var n := |running| - 1;
    var without := running[..k] + running[k + 1..];
    if k == n {
      assert without == running[..n];
    } else {
      HeldRemove(running[..n], k);
      assert without[..|without| - 1] == running[..n][..k] + running[..n][k + 1..];
    }
  }

  /** How far a closing reducer is from returning. */
  function Distance<N>(st: State<N>): nat {
    2 * (|st.ready| + Held(st.running)) + |st.ready| + if st.phase.Closed? then 0 else 1
  }

  lemma {:induction false} StartFullDistance<N>(max: nat, st: State<N>)
    ensures Distance(StartFull(max, st)) <= Distance(st)
    decreases |st.ready|
  {
    if |st.running| < max && |st.ready| >= Arity {
      StartDistance(st, Arity);
      StartFullDistance(max, Start(st, Arity));
    }
  }

  lemma StartDistance<N>(st: State<N>, k: nat)
    requires k <= |st.ready|
    ensures Distance(Start(st, k)) == Distance(st) - k
  {
    var next := Start(st, k);
    assert next.running[..|next.running| - 1] == st.running;
  }

  /** Close never deadlocks, and every step of its environment brings it nearer:
      whatever the interleaving, it returns after at most Distance steps. */
  lemma CloseProgress<N>(max: nat, merge: seq<N> -> MergeResult<N>, st: State<N>)
    requires max >= 1 && Inv(max, st) && st.phase.Closing?
    ensures Enabled(st, Proceed) || Enabled(st, Complete(0))
    ensures forall a :: Enabled(st, a) ==> Distance(Step(max, merge, st, a)) < Distance(st)
  {
    hide Step;
    forall a | Enabled(st, a) ensures Distance(Step(max, merge, st, a)) < Distance(st) {
      if a.Complete? { CompleteDistance(max, merge, st, a.k); } else { ProceedDistance(max, merge, st); }
    }
  }

  lemma CompleteDistance<N>(max: nat, merge: seq<N> -> MergeResult<N>, st: State<N>, k: nat)
    requires Inv(max, st) && st.phase.Closing? && k < |st.running|
    ensures Distance(Step(max, merge, st, Complete(k))) < Distance(st)
  {
    hide StartFull, MergeShape;
    HeldRemove(st.running, k);
    var rest := st.(running := st.running[..k] + st.running[k + 1..]);
    assert |st.running[k]| >= 2;
    match merge(st.running[k])
    case Merged(node) => StartFullDistance(max, rest.(ready := rest.ready + [node]));
    case Rejected(_) =>
  }

  lemma ProceedDistance<N>(max: nat, merge: seq<N> -> MergeResult<N>, st: State<N>)
    requires Enabled(st, Proceed)
    ensures Distance(Step(max, merge, st, Proceed)) < Distance(st)
  {
    hide StartFull;
    if st.err.None? && |st.ready| >= 2 {
      StartDistance(st, |st.ready|);
      StartFullDistance(max, Start(st, |st.ready|));
    }
  }

  // ---- conservation ----

  datatype Monoid<!M> = Monoid(unit: M, op: (M, M) -> M)

  ghost predicate Commutative<M(!new)>(m: Monoid<M>) {
    && (forall a, b, c :: m.op(m.op(a, b), c) == m.op(a, m.op(b, c)))
    && (forall a, b :: m.op(a, b) == m.op(b, a))
    && (forall a :: m.op(m.unit, a) == a)
  }

  function Sum<N, M>(m: Monoid<M>, val: N -> M, xs: seq<N>): M {
    if xs == [] then m.unit else m.op(Sum(m, val, xs[..|xs| - 1]), val(xs[|xs| - 1]))
  }

  function SumAll<N, M>(m: Monoid<M>, val: N -> M, xss: seq<seq<N>>): M {
    if xss == [] then m.unit else m.op(SumAll(m, val, xss[..|xss| - 1]), Sum(m, val, xss[|xss| - 1]))
  }

  /** What the reducer holds, in ready and running nodes together. */
  function Holdings<N, M>(m: Monoid<M>, val: N -> M, st: State<N>): M {
    m.op(Sum(m, val, st.ready), SumAll(m, val, st.running))
  }

  lemma {:induction false} SumAppend<N, M(!new)>(m: Monoid<M>, val: N -> M, xs: seq<N>, ys: seq<N>)
    requires Commutative(m)
    ensures Sum(m, val, xs + ys) == m.op(Sum(m, val, xs), Sum(m, val, ys))
    decreases |ys|
  {
    if ys == [] {
      assert xs + ys == xs;
      assert m.op(Sum(m, val, xs), m.unit) == m.op(m.unit, Sum(m, val, xs));
    } else {
      var n := |ys| - 1;
      assert (xs + ys)[..|xs + ys| - 1] == xs + ys[..n];
      SumAppend(m, val, xs, ys[..n]);
    }
  }

  lemma {:induction false} SumAllRemove<N, M(!new)>(m: Monoid<M>, val: N -> M, xss: seq<seq<N>>, k: nat)
    requires Commutative(m) && k < |xss|
    ensures SumAll(m, val, xss) == m.op(SumAll(m, val, xss[..k] + xss[k + 1..]), Sum(m, val, xss[k]))
    decreases |xss|
  {
    hide Commutative, Sum;
    var n := |xss| - 1;
    var without := xss[..k] + xss[k + 1..];
    if k == n {
      assert without == xss[..n];
    } else {
      SumAllRemove(m, val, xss[..n], k);
      assert xss[..n][k] == xss[k];
      assert without[..|without| - 1] == xss[..n][..k] + xss[..n][k + 1..];
      Swap(m, SumAll(m, val, without[..|without| - 1]), Sum(m, val, xss[k]), Sum(m, val, xss[n]));
    }
  }

  lemma Swap<M(!new)>(m: Monoid<M>, a: M, b: M, c: M)
    requires Commutative(m)
    ensures m.op(m.op(a, b), c) == m.op(m.op(a, c), b)
  {
    assert m.op(m.op(a, b), c) == m.op(a, m.op(b, c));
    assert m.op(b, c) == m.op(c, b);
    assert m.op(m.op(a, c), b) == m.op(a, m.op(c, b));
  }

  lemma Rotate<M(!new)>(m: Monoid<M>, a: M, b: M, c: M)
    requires Commutative(m)
    ensures m.op(m.op(a, b), c) == m.op(b, m.op(c, a))
    ensures m.op(m.op(a, b), c) == m.op(a, m.op(c, b))
  {
    assert m.op(m.op(a, b), c) == m.op(a, m.op(b, c));
    assert m.op(b, c) == m.op(c, b);
    assert m.op(m.op(b, c), a) == m.op(b, m.op(c, a));
    assert m.op(a, m.op(b, c)) == m.op(m.op(b, c), a);
  }

  lemma HoldingsStart<N, M(!new)>(m: Monoid<M>, val: N -> M, st: State<N>, k: nat)
    requires Commutative(m) && k <= |st.ready|
    ensures Holdings(m, val, Start(st, k)) == Holdings(m, val, st)
  {
    hide Commutative, Sum;
    assert st.ready == st.ready[..k] + st.ready[k..];
    SumAppend(m, val, st.ready[..k], st.ready[k..]);
    var next := Start(st, k);
    assert next.running[..|next.running| - 1] == st.running;
    Rotate(m, Sum(m, val, st.ready[..k]), Sum(m, val, st.ready[k..]), SumAll(m, val, st.running));
  }

  lemma {:induction false} HoldingsStartFull<N, M(!new)>(m: Monoid<M>, val: N -> M, max: nat, st: State<N>)
    requires Commutative(m)
    ensures Holdings(m, val, StartFull(max, st)) == Holdings(m, val, st)
    decreases |st.ready|
  {
    hide Commutative, Holdings;
    if |st.running| < max && |st.ready| >= Arity {
      HoldingsStart(m, val, st, Arity);
      HoldingsStartFull(m, val, max, Start(st, Arity));
    }
  }

  lemma HoldingsReady<N, M(!new)>(m: Monoid<M>, val: N -> M, st: State<N>, node: N)
    requires Commutative(m)
    ensures Holdings(m, val, st.(ready := st.ready + [node])) == m.op(Holdings(m, val, st), val(node))
    ensures Sum(m, val, st.added + [node]) == m.op(Sum(m, val, st.added), val(node))
  {
    hide Commutative;
    assert (st.ready + [node])[..|st.ready|] == st.ready;
    assert (st.added + [node])[..|st.added|] == st.added;
    Swap(m, Sum(m, val, st.ready), val(node), SumAll(m, val, st.running));
  }

  /** The merger keeps `good` nodes good and adds up their values. */
  ghost predicate Additive<N(!new), M>(m: Monoid<M>, val: N -> M, good: N -> bool, merge: seq<N> -> MergeResult<N>) {
    forall c: seq<N> :: (forall x :: x in c ==> good(x)) && merge(c).Merged? ==>
      good(merge(c).node) && val(merge(c).node) == Sum(m, val, c)
  }

  predicate AllGood<N>(good: N -> bool, st: State<N>) {
    && (forall i :: 0 <= i < |st.ready| ==> good(st.ready[i]))
    && (forall i, j :: 0 <= i < |st.running| && 0 <= j < |st.running[i]| ==> good(st.running[i][j]))
  }

  ghost predicate Conserved<N(!new), M>(m: Monoid<M>, val: N -> M, good: N -> bool, st: State<N>) {
    && AllGood(good, st)
    && (st.err.None? ==> Holdings(m, val, st) == Sum(m, val, st.added))
  }

  lemma {:induction false} StartFullGood<N>(good: N -> bool, max: nat, st: State<N>)
    requires AllGood(good, st)
    ensures AllGood(good, StartFull(max, st))
    decreases |st.ready|
  {
    if |st.running| < max && |st.ready| >= Arity {
      StartGood(good, st, Arity);
      StartFullGood(good, max, Start(st, Arity));
    }
  }

  lemma StartGood<N>(good: N -> bool, st: State<N>, k: nat)
    requires AllGood(good, st) && k <= |st.ready|
    ensures AllGood(good, Start(st, k))
  {
    var next := Start(st, k);
    forall i, j | 0 <= i < |next.running| && 0 <= j < |next.running[i]| ensures good(next.running[i][j]) {
      if i == |st.running| { assert next.running[i] == st.ready[..k]; }
    }
  }

  lemma StartFullConserves<N(!new), M(!new)>(m: Monoid<M>, val: N -> M, good: N -> bool, max: nat, st: State<N>)
    requires Commutative(m) && Conserved(m, val, good, st)
    ensures Conserved(m, val, good, StartFull(max, st))
  {
    hide Commutative, Holdings, AllGood, StartFull;
    StartFullGood(good, max, st);
    HoldingsStartFull(m, val, max, st);
    StartFullFrame(max, st);
  }

  lemma CompleteConserves<N(!new), M(!new)>(m: Monoid<M>, val: N -> M, good: N -> bool, max: nat, st: State<N>, k: nat, verdict: MergeResult<N>)
    requires Commutative(m) && Conserved(m, val, good, st) && k < |st.running|
    requires verdict.Merged? ==> good(verdict.node) && val(verdict.node) == Sum(m, val, st.running[k])
    ensures Conserved(m, val, good, CompleteStep(max, st, k, verdict))
  {
    hide Commutative, Sum, StartFull;
    var rest := st.(running := st.running[..k] + st.running[k + 1..]);
    assert AllGood(good, rest);
    match verdict
    case Merged(node) =>
      var more := rest.(ready := rest.ready + [node]);
      assert AllGood(good, more);
      hide AllGood;
      SumAllRemove(m, val, st.running, k);
      HoldingsReady(m, val, rest, node);
      Rotate(m, Sum(m, val, st.ready), val(node), SumAll(m, val, rest.running));
      Rotate(m, Sum(m, val, st.ready), SumAll(m, val, rest.running), val(node));
      Swap(m, Sum(m, val, st.ready), val(node), SumAll(m, val, rest.running));
      StartFullConserves(m, val, good, max, more);
    case Rejected(_) =>
  }

  lemma StepConserves<N(!new), M(!new)>(m: Monoid<M>, val: N -> M, good: N -> bool, max: nat,
                                  merge: seq<N> -> MergeResult<N>, st: State<N>, a: Action<N>)
    requires Commutative(m) && Additive(m, val, good, merge) && Conserved(m, val, good, st)
    requires Enabled(st, a) && (a.Arrive? ==> good(a.node))
    ensures Conserved(m, val, good, Step(max, merge, st, a))
  {
    hide Commutative, Sum, StartFull, Holdings, CompleteStep;
    match a
    case Arrive(node) =>
      if st.err.None? {
        HoldingsReady(m, val, st, node);
        var more := st.(ready := st.ready + [node], added := st.added + [node]);
        assert Holdings(m, val, more) == Holdings(m, val, st.(ready := st.ready + [node])) by { HoldingsFrame(m, val, more, st.(ready := st.ready + [node])); }
        StartFullConserves(m, val, good, max, more);
      }
    case Complete(k) =>
      var c := st.running[k];
      assert forall x :: x in c ==> good(x);
      CompleteConserves(m, val, good, max, st, k, merge(c));
    case Close =>
      HoldingsFrame(m, val, st, st.(phase := Closing));
      StartFullConserves(m, val, good, max, st.(phase := Closing));
    case Proceed =>
      HoldingsFrame(m, val, st, ProceedStep(max, st));
      if st.err.None? && |st.ready| >= 2 {
        HoldingsStart(m, val, st, |st.ready|);
        StartGood(good, st, |st.ready|);
        StartFullConserves(m, val, good, max, Start(st, |st.ready|));
      }
  }

  lemma HoldingsFrame<N, M>(m: Monoid<M>, val: N -> M, s: State<N>, t: State<N>)
    ensures s.ready == t.ready && s.running == t.running ==> Holdings(m, val, s) == Holdings(m, val, t)
  {
  }

  predicate AddsGood<N>(good: N -> bool, actions: seq<Action<N>>) {
    forall i :: 0 <= i < |actions| && actions[i].Arrive? ==> good(actions[i].node)
  }

  lemma {:induction false} RunConserves<N(!new), M(!new)>(m: Monoid<M>, val: N -> M, good: N -> bool, max: nat,
                                 merge: seq<N> -> MergeResult<N>, st: State<N>, actions: seq<Action<N>>)
    requires Commutative(m) && Additive(m, val, good, merge) && Conserved(m, val, good, st)
    requires IsRun(max, merge, st, actions) && AddsGood(good, actions)
    ensures Conserved(m, val, good, After(max, merge, st, actions))
    decreases |actions|
  {
    hide Commutative, Additive, Conserved, Step;
    if actions != [] {
      StepConserves(m, val, good, max, merge, st, actions[0]);
      RunConserves(m, val, good, max, merge, Step(max, merge, st, actions[0]), actions[1..]);
    }
  }

  /** A sum does not depend on the order of its terms. */
  lemma {:induction false} SumPermuted<N, M(!new)>(m: Monoid<M>, val: N -> M, xs: seq<N>, ys: seq<N>)
    requires Commutative(m) && multiset(xs) == multiset(ys)
    ensures Sum(m, val, xs) == Sum(m, val, ys)
    decreases |xs|
  {
    hide Commutative;
    if xs == [] {
      assert |multiset(xs)| == |multiset(ys)|;
    } else {
      var n, x := |xs| - 1, xs[|xs| - 1];
      assert xs == xs[..n] + [x];
      assert x in multiset(ys);
      var k :| 0 <= k < |ys| && ys[k] == x;
      MultisetWithout(ys, k);
      SumPermuted(m, val, xs[..n], ys[..k] + ys[k + 1..]);
      SumWithout(m, val, ys, k);
    }
  }

  lemma MultisetWithout<N>(ys: seq<N>, k: nat)
    requires k < |ys|
    ensures multiset(ys[..k] + ys[k + 1..]) == multiset(ys) - multiset{ys[k]}
  {
    assert ys == ys[..k] + [ys[k]] + ys[k + 1..];
  }

  lemma SumWithout<N, M(!new)>(m: Monoid<M>, val: N -> M, ys: seq<N>, k: nat)
    requires Commutative(m) && k < |ys|
    ensures Sum(m, val, ys) == m.op(Sum(m, val, ys[..k] + ys[k + 1..]), val(ys[k]))
  {
    hide Commutative;
    var x := ys[k];
    assert ys == ys[..k] + [x] + ys[k + 1..];
    SumAppend(m, val, ys[..k], ys[k + 1..]);
    SumAppend(m, val, ys[..k] + [x], ys[k + 1..]);
    assert (ys[..k] + [x])[..k] == ys[..k];
    Swap(m, Sum(m, val, ys[..k]), Sum(m, val, ys[k + 1..]), val(x));
  }

  /** Conservation, for every schedule and every additive quantity: without a
      failure the ready and running nodes add up to what was added, and the node
      Close returns is worth all of it. */
  lemma Conservation<N(!new), M(!new)>(m: Monoid<M>, val: N -> M, good: N -> bool, max: nat,
                                 merge: seq<N> -> MergeResult<N>, actions: seq<Action<N>>)
    requires max >= 1 && Commutative(m) && Additive(m, val, good, merge)
    requires IsRun(max, merge, Init(), actions) && AddsGood(good, actions)
    ensures var st := After(max, merge, Init(), actions);
      && (st.err.None? ==> Holdings(m, val, st) == Sum(m, val, st.added))
      && (st.phase.Closed? && st.phase.outcome.Success? ==>
            good(st.phase.outcome.node) && val(st.phase.outcome.node) == Sum(m, val, st.added))
  {
    var start := Init<N>();
    assert Conserved(m, val, good, start) by { assert m.op(m.unit, m.unit) == m.unit; }
    RunConserves(m, val, good, max, merge, start, actions);
    InitInv<N>(max);
    RunInv(max, merge, start, actions);
    var st := After(max, merge, start, actions);
    if st.phase.Closed? && st.phase.outcome.Success? {
      var node := st.phase.outcome.node;
      assert st.ready == [node] && st.running == [];
      assert [node][..0] == [];
      assert Sum(m, val, [node]) == m.op(m.unit, val(node));
      assert m.op(Sum(m, val, st.ready), m.unit) == m.op(m.unit, Sum(m, val, st.ready));
    }
  }

  // ---- the mutex-guarded object ----

  /** The reducer as the source keeps it.  Each method runs with the mutex held;
      Finish is the end of a background merge, after the merger's verdict. */
  class Reducer<N> {
    const maxInFlight: nat
    var ready: seq<N>
    var inFlight: nat
    var err: Option<string>
    ghost var running: seq<seq<N>>  // the children each background merge holds
    ghost var phase: Phase<N>
    ghost var added: seq<N>
    ghost var merges: seq<nat>

    ghost function Abs(): State<N>
      reads this
    {
      State(ready, running, err, phase, added, merges)
    }

    ghost predicate Valid()
      reads this
    {
      inFlight == |running|
    }

    constructor (maxInFlight: nat)
      ensures Valid() && Abs() == Init() && this.maxInFlight == maxInFlight
    {
      this.maxInFlight := maxInFlight;
      ready, inFlight, err := [], 0, None;
      running, phase, added, merges := [], Adding, [], [];
    }

    method StartMerge(k: nat) returns (children: seq<N>)
      requires Valid() && k <= |ready|
      modifies this
      ensures Valid() && Abs() == Start(old(Abs()), k)
      ensures children == old(ready)[..k]
    {
      children := ready[..k];
      ready := ready[k..];
      inFlight := inFlight + 1;
      running, merges := running + [children], merges + [k];
    }

    method StartFullMerges()
      requires Valid()
      modifies this
      ensures Valid() && Abs() == StartFull(maxInFlight, old(Abs()))
    {
      while inFlight < maxInFlight && |ready| >= Arity
        invariant Valid()
        invariant StartFull(maxInFlight, Abs()) == StartFull(maxInFlight, old(Abs()))
        decreases |ready|
      {
        var _ := StartMerge(Arity);
      }
    }

    method AddNode(node: N) returns (failed: Option<string>)
      requires Valid() && phase.Adding?
      modifies this
      ensures Valid() && Abs() == AddStep(maxInFlight, old(Abs()), node)
      ensures failed == old(err)
    {
      failed := err;
      if err.Some? { return; }
      ready := ready + [node];
      added := added + [node];
      StartFullMerges();
    }

    method Finish(ghost k: nat, verdict: MergeResult<N>)
      requires Valid() && k < |running|
      modifies this
      ensures Valid() && Abs() == CompleteStep(maxInFlight, old(Abs()), k, verdict)
    {
      inFlight := inFlight - 1;
      running := running[..k] + running[k + 1..];
      match verdict
      case Rejected(reason) =>
        if err.None? { err := Some(reason); }
      case Merged(node) =>
        ready := ready + [node];
        StartFullMerges();
    }

    method BeginClose()
      requires Valid() && phase.Adding?
      modifies this
      ensures Valid() && Abs() == CloseStep(maxInFlight, old(Abs()))
    {
      phase := Closing;
      StartFullMerges();
    }

    /** The body of Close after its wait; None: the last merge was started and Close waits again. */
    method ResumeClose() returns (r: Option<Outcome<N>>)
      requires Valid() && Enabled(Abs(), Proceed)
      modifies this
      ensures Valid() && Abs() == ProceedStep(maxInFlight, old(Abs()))
      ensures r == if phase.Closed? then Some(phase.outcome) else None
    {
      if err.Some? {
        r := Some(Failure(err.value));
      } else if |ready| == 0 {
        r := Some(Failure("no shard proof was added"));
      } else if |ready| == 1 {
        r := Some(Success(ready[0]));
      } else {
        var _ := StartMerge(|ready|);
        StartFullFrame(maxInFlight, Abs());
        StartFullMerges();
        return None;
      }
      phase := Closed(r.value);
    }
  }
}
