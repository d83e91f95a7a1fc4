/** The Merkle-path chip: a path with injected digests, and the domain point of its index. */
module ChipMerkle {
  import opened KoalaBear
  import opened Constraints
  import opened Cells

  // ---- the order of a path's rows ----

  /** A digest injected after the level producing a node of the given width. */
  datatype Injection = Injection(width: int, digest: nat)

  /** One row of a path: a level with its sibling, or an injection. */
  datatype Step = Step(op: nat, lvl: nat, inj: bool)

  function IsPowerOfTwo(w: int): bool
    decreases w
  {
    w == 1 || (w > 1 && w % 2 == 0 && IsPowerOfTwo(w / 2))
  }

  predicate ValidWidth(w: int, prev: int) { w > 0 && IsPowerOfTwo(w) && w <= prev }

  /** The widths are non-increasing powers of two, at most `prev`. */
  predicate ValidWidths(injections: seq<Injection>, prev: int) {
    injections == [] ||
    (ValidWidth(injections[0].width, prev) && ValidWidths(injections[1..], injections[0].width))
  }

  /** The first n injections' steps of a width, in order. */
  function StepsAt(injections: seq<Injection>, n: nat, width: int): seq<Step>
    requires n <= |injections|
  {
    if n == 0 then []
    else
      var inj := injections[n - 1];
      StepsAt(injections, n - 1, width) + if inj.width == width then [Step(inj.digest, 0, true)] else []
  }

  /** The rows of a path up to level k: the injections into the leaf, then every level
      followed by the injections at the width of the node it produces. */
  function Layout(siblings: seq<nat>, injections: seq<Injection>, k: nat): seq<Step>
    requires k <= |siblings|
  {
    (if k == 0 then [] else Layout(siblings, injections, k - 1) + [Step(siblings[k - 1], k - 1, false)])
    + StepsAt(injections, |injections|, Pow2(|siblings| - k))
  }

  /** The digests the steps inject, in order. */
  function Injected(steps: seq<Step>): seq<nat> {
    if steps == [] then []
    else
      var last := steps[|steps| - 1];
      Injected(steps[..|steps| - 1]) + if last.inj then [last.op] else []
  }

  function Digests(injections: seq<Injection>): seq<nat> {
    seq(|injections|, i requires 0 <= i < |injections| => injections[i].digest)
  }

  lemma {:induction false} PowerOfTwoIs(w: int)
    requires IsPowerOfTwo(w)
    ensures exists k: nat :: w == Pow2(k)
    decreases w
  {
    if w == 1 {
      assert w == Pow2(0);
    } else {
      PowerOfTwoIs(w / 2);
      var k: nat :| w / 2 == Pow2(k);
      assert w == Pow2(k + 1);
    }
  }

  /** No power of two lies strictly between two consecutive ones. */
  lemma {:induction false} NextPower(w: int, m: nat)
    requires IsPowerOfTwo(w) && w < Pow2(m + 1)
    ensures w <= Pow2(m)
  {
    PowerOfTwoIs(w);
    var k: nat :| w == Pow2(k);
    if k > m { Pow2Mono(m + 1, k); } else { Pow2Mono(k, m); }
  }

  lemma {:induction false} WidthsBounded(injections: seq<Injection>, prev: int, i: nat)
    requires ValidWidths(injections, prev) && i < |injections|
    ensures ValidWidth(injections[i].width, prev)
    ensures i + 1 < |injections| ==> injections[i + 1].width <= injections[i].width
    decreases injections
  {
    if i == 0 {
      if |injections| > 1 { assert injections[1..][0] == injections[1]; }
    } else {
      WidthsBounded(injections[1..], injections[0].width, i - 1);
    }
  }

  lemma {:induction false} WidthsSorted(injections: seq<Injection>, prev: int, i: nat, j: nat)
    requires ValidWidths(injections, prev) && i <= j < |injections|
    ensures injections[j].width <= injections[i].width
    decreases j
  {
    if i < j {
      WidthsSorted(injections, prev, i, j - 1);
      WidthsBounded(injections, prev, j - 1);
    }
  }

  /** Injections of other widths add no step. */
  lemma {:induction false} StepsSkip(injections: seq<Injection>, m: nat, n: nat, width: int)
    requires m <= n <= |injections|
    requires forall i :: m <= i < n ==> injections[i].width != width
    ensures StepsAt(injections, n, width) == StepsAt(injections, m, width)
    decreases n
  {
    if m < n { StepsSkip(injections, m, n - 1, width); }
  }

  lemma InjectedStep(steps: seq<Step>, s: Step)
    ensures Injected(steps + [s]) == Injected(steps) + if s.inj then [s.op] else []
  {
    assert (steps + [s])[..|steps|] == steps;
  }

  /** The cursor stands between the injections placed and those left: the former are at
      least as wide as `width`, the latter at most. */
  predicate Cursor(injections: seq<Injection>, next: nat, width: int) {
    && next <= |injections|
    && (forall i :: 0 <= i < next ==> injections[i].width > width)
    && (forall i :: next <= i < |injections| ==> injections[i].width <= width)
  }

  /** Places the injections of a width after the steps so far. */
  method Inject(injections: seq<Injection>, ghost widest: int, width: int, next: nat, before: seq<Step>) returns (steps: seq<Step>, cursor: nat)
    requires ValidWidths(injections, widest) && Cursor(injections, next, width)
    requires Injected(before) == Digests(injections)[..next]
    ensures steps == before + StepsAt(injections, |injections|, width)
    ensures next <= cursor <= |injections| && Injected(steps) == Digests(injections)[..cursor]
    ensures forall i :: 0 <= i < cursor ==> injections[i].width >= width
    ensures forall i :: cursor <= i < |injections| ==> injections[i].width < width
  {
    steps, cursor := before, next;
    StepsSkip(injections, 0, next, width);
    assert before + [] == before;
    while cursor < |injections| && injections[cursor].width == width
      invariant next <= cursor <= |injections|
      invariant steps == before + StepsAt(injections, cursor, width)
      invariant Injected(steps) == Digests(injections)[..cursor]
      invariant forall i :: 0 <= i < cursor ==> injections[i].width >= width
    {
      var s := Step(injections[cursor].digest, 0, true);
      InjectedStep(steps, s);
      steps := steps + [s];
      cursor := cursor + 1;
    }
    forall i | cursor <= i < |injections| ensures injections[i].width < width {
      WidthsSorted(injections, widest, cursor, i);
    }
    StepsSkip(injections, cursor, |injections|, width);
  }

  method CheckWidths(injections: seq<Injection>, widest: int) returns (ok: bool)
    ensures ok <==> ValidWidths(injections, widest)
  {
    var prev := widest;
    for k := 0 to |injections|
      invariant ValidWidths(injections, widest) <==> ValidWidths(injections[k..], prev)
    {
      var w := injections[k].width;
      assert injections[k..][0] == injections[k] && injections[k..][1..] == injections[k + 1..];
      if !ValidWidth(w, prev) { return false; }
      prev := w;
    }
    return true;
  }

  /** Orders the rows of a path. Valid widths always fit: every injection is placed exactly
      once, in order, right after the level producing its width. */
  method PathSteps(siblings: seq<nat>, injections: seq<Injection>) returns (r: Option<seq<Step>>)
    ensures r.Some? <==> ValidWidths(injections, Pow2(|siblings|))
    ensures r.Some? ==> r.value == Layout(siblings, injections, |siblings|)
    ensures r.Some? ==> Injected(r.value) == Digests(injections)
  {
    hide StepsAt, Injected, Pow2, ValidWidths;
    var d := |siblings|;
    var ok := CheckWidths(injections, Pow2(d));
    if !ok { return None; }
    StartCursor(injections, Pow2(d));
    var steps, next := Inject(injections, Pow2(d), Pow2(d), 0, []);
    for k := 0 to d
      invariant steps == Layout(siblings, injections, k)
      invariant next <= |injections| && Injected(steps) == Digests(injections)[..next]
      invariant forall i :: 0 <= i < next ==> injections[i].width >= Pow2(d - k)
      invariant forall i :: next <= i < |injections| ==> injections[i].width < Pow2(d - k)
    {
      var s := Step(siblings[k], k, false);
      InjectedStep(steps, s);
      NextCursor(injections, Pow2(d), next, d - k - 1);
      steps, next := Inject(injections, Pow2(d), Pow2(d - k - 1), next, steps + [s]);
    }
    NoneLeft(injections, Pow2(d), next);  // so the code's final error cannot arise
    return Some(steps);
  }

  lemma NoneLeft(injections: seq<Injection>, widest: int, next: nat)
    requires ValidWidths(injections, widest) && next <= |injections|
    requires forall i :: next <= i < |injections| ==> injections[i].width < Pow2(0)
    ensures next == |injections|
  {
    if next < |injections| { WidthsBounded(injections, widest, next); }
  }

  lemma StartCursor(injections: seq<Injection>, widest: int)
    requires ValidWidths(injections, widest)
    ensures Cursor(injections, 0, widest) && Injected([]) == Digests(injections)[..0]
  {
    forall i | 0 <= i < |injections| ensures injections[i].width <= widest { WidthsBounded(injections, widest, i); }
  }

  lemma NextCursor(injections: seq<Injection>, widest: int, next: nat, m: nat)
    requires ValidWidths(injections, widest) && next <= |injections|
    requires forall i :: 0 <= i < next ==> injections[i].width >= Pow2(m + 1)
    requires forall i :: next <= i < |injections| ==> injections[i].width < Pow2(m + 1)
    ensures Cursor(injections, next, Pow2(m))
  {
    forall i | next <= i < |injections| ensures injections[i].width <= Pow2(m) {
      WidthsBounded(injections, widest, i);
      NextPower(injections[i].width, m);
    }
  }

  // ---- the constraints ----

  /** What a step's row is set up with: the operand's value and the level's x factor. */
  datatype Setup = Setup(op: Cell, inj: bool, lvl0: bool, g: Elt)

  datatype Row = Row(b: Elt, idx: Elt, f: Elt, x: Elt, b0: Elt, cur: Cell, s: Cell, out: Cell)

  /** The constraints of an active row between its neighbours in the module. */
  predicate RowOk(isFirst: bool, isLast: bool, st: Setup, prev: Row, row: Row, next: Row) {
    var first, last, active := Bit(isFirst), Bit(isLast), 1;
    var inj, lvl0 := Bit(st.inj), Bit(st.lvl0);
    var notFirst := active - first;
    && Zero(row.b * (row.b - 1))
    && Zero(inj * row.b)
    && Zero(row.idx - row.b - (active - last) * (2 - inj) * next.idx)
    && (forall i :: 0 <= i < CellWidth ==> Zero(notFirst * (Lane(row.cur, i) - Lane(prev.out, i))))
    && Zero(row.f - (1 + row.b * (st.g - 1)))
    && Zero(first * (row.x - row.f))
    && Zero(notFirst * (row.x - prev.x * row.f))
    && Zero(lvl0 * (row.b0 - row.b))
    && Zero(notFirst * (1 - lvl0) * (row.b0 - prev.b0))
  }

  /** What the sibling read and the lookup in the P2 core state of a row. */
  predicate ReadsOk(compress: (Cell, Cell) -> Cell, st: Setup, row: Row) {
    && row.s == st.op
    && row.out == compress(Mix(row.b, row.cur, row.s), Mix(row.b, row.s, row.cur))
  }

  function At(rows: seq<Row>, i: int, other: Row): Row { if 0 <= i < |rows| then rows[i] else other }

  /** A path's rows meet the constraints, between arbitrary rows of the module. */
  predicate RowsOk(compress: (Cell, Cell) -> Cell, path: seq<Setup>, before: Row, rows: seq<Row>, after: Row) {
    && |rows| == |path|
    && forall i :: 0 <= i < |rows| ==>
         && RowOk(i == 0, i == |rows| - 1, path[i], At(rows, i - 1, before), rows[i], At(rows, i + 1, after))
         && ReadsOk(compress, path[i], rows[i])
  }

  // ---- execution ----

  function Levels(path: seq<Setup>, k: nat): nat
    requires k <= |path|
    ensures Levels(path, k) <= k
  {
    if k == 0 then 0 else Levels(path, k - 1) + if path[k - 1].inj then 0 else 1
  }

  /** A path with at least one level and no more than 30; lvl0 marks its first level and
      injections have no x factor. */
  predicate ValidPath(path: seq<Setup>) {
    && 1 <= Levels(path, |path|) <= 30
    && forall k :: 0 <= k < |path| ==>
         && path[k].lvl0 == (!path[k].inj && Levels(path, k) == 0)
         && (path[k].inj ==> path[k].g == 1)
  }

  datatype State = State(cur: Cell, index: nat, x: Elt)

  /** One step of the walk: its row (the low bit of the path's index given) and the next state. */
  function WalkRow(compress: (Cell, Cell) -> Cell, low: Elt, st: State, s: Setup): Row
    requires st.index < P
  {
    var b := if s.inj then 0 else st.index % 2;
    var out := if b == 1 then compress(s.op, st.cur) else compress(st.cur, s.op);
    Row(b, st.index, if b == 1 then s.g else 1, if b == 1 then MulElt(st.x, s.g) else st.x, low, st.cur, s.op, out)
  }

  function WalkState(compress: (Cell, Cell) -> Cell, st: State, s: Setup): State
    requires st.index < P
  {
    var row := WalkRow(compress, 0, st, s);
    State(row.out, if s.inj then st.index else st.index / 2, row.x)
  }

  /** The state before step k. */
  function StateAt(compress: (Cell, Cell) -> Cell, path: seq<Setup>, leaf: Cell, index: Elt, k: nat): (r: State)
    requires k <= |path|
    ensures r.index < P
  {
    if k == 0 then State(leaf, index, 1) else WalkState(compress, StateAt(compress, path, leaf, index, k - 1), path[k - 1])
  }

  function Walk(compress: (Cell, Cell) -> Cell, path: seq<Setup>, leaf: Cell, index: Elt): (rows: seq<Row>)
    ensures |rows| == |path|
  {
    seq(|path|, k requires 0 <= k < |path| => WalkRow(compress, index % 2, StateAt(compress, path, leaf, index, k), path[k]))
  }

  // ---- soundness ----

  // What the constraints say of a row and its neighbours, in plain terms.

  predicate ShapeMeans(isFirst: bool, isLast: bool, s: Setup, row: Row) {
    && IsBit(row.b) && (s.inj ==> row.b == 0)
    && (isLast ==> row.idx == row.b)
    && row.f == (if row.b == 1 then s.g else 1)
    && (isFirst ==> row.x == row.f)
    && (s.lvl0 ==> row.b0 == row.b)
  }

  /** A row after the first one. */
  predicate BackMeans(s: Setup, prev: Row, row: Row) {
    && row.cur == prev.out
    && row.x == MulElt(prev.x, row.f)
    && (!s.lvl0 ==> row.b0 == prev.b0)
  }

  predicate NextMeans(s: Setup, row: Row, next: Row) {
    if s.inj then Zero(row.idx - row.b - next.idx) else Zero(row.idx - row.b - 2 * next.idx)
  }

  lemma FactorMeans(b: Elt, f: Elt, g: Elt)
    requires IsBit(b)
    ensures Zero(f - (1 + b * (g - 1))) <==> f == if b == 1 then g else 1
  {
    Gate(b, g - 1);
  }

  lemma ShapeMeaning(isFirst: bool, isLast: bool, s: Setup, prev: Row, row: Row, next: Row)
    requires RowOk(isFirst, isLast, s, prev, row, next)
    ensures ShapeMeans(isFirst, isLast, s, row)
  {
    Boolean(row.b);
    Gate(Bit(s.inj), row.b);
    Gate(1 - Bit(isLast), 2 - Bit(s.inj));
    Gate((1 - Bit(isLast)) * (2 - Bit(s.inj)), next.idx);
    FactorMeans(row.b, row.f, s.g);
    Gate(Bit(isFirst), row.x - row.f);
    Gate(Bit(s.lvl0), row.b0 - row.b);
  }

  lemma BackMeaning(isLast: bool, s: Setup, prev: Row, row: Row, next: Row)
    requires RowOk(false, isLast, s, prev, row, next)
    ensures BackMeans(s, prev, row)
  {
    forall i | 0 <= i < CellWidth ensures row.cur[i] == prev.out[i] {
      assert Zero((1 - 0) * (Lane(row.cur, i) - Lane(prev.out, i)));
      Gate(1, Lane(row.cur, i) - Lane(prev.out, i));
      Same(row.cur[i], prev.out[i]);
    }
    var px, f: int := prev.x, row.f;
    Gate(1, row.x - px * f);
    Reduce(row.x, px * f);
    Gate(1, 1 - Bit(s.lvl0));
    Gate(1 * (1 - Bit(s.lvl0)), row.b0 - prev.b0);
  }

  lemma Reduce(x: Elt, y: int)
    requires Zero(x - y)
    ensures x == y % P
  {
  }

  lemma NextMeaning(isFirst: bool, s: Setup, prev: Row, row: Row, next: Row)
    requires RowOk(isFirst, false, s, prev, row, next)
    ensures NextMeans(s, row, next)
  {
    var inj := Bit(s.inj);
    assert (1 - 0) * (2 - inj) == 2 - inj;
    Gate(2 - inj, next.idx);
  }

  lemma Meaning(compress: (Cell, Cell) -> Cell, path: seq<Setup>, before: Row, rows: seq<Row>, after: Row, i: nat)
    requires RowsOk(compress, path, before, rows, after) && i < |rows|
    ensures |rows| == |path| && ShapeMeans(i == 0, i == |rows| - 1, path[i], rows[i]) && ReadsOk(compress, path[i], rows[i])
    ensures i > 0 ==> BackMeans(path[i], rows[i - 1], rows[i])
    ensures i + 1 < |rows| ==> NextMeans(path[i], rows[i], rows[i + 1])
  {
    hide RowOk, ReadsOk, ShapeMeans, BackMeans, NextMeans;
    var prev, next := At(rows, i - 1, before), At(rows, i + 1, after);
    ShapeMeaning(i == 0, i == |rows| - 1, path[i], prev, rows[i], next);
    if i > 0 { BackMeaning(i == |rows| - 1, path[i], prev, rows[i], next); }
    if i + 1 < |rows| { NextMeaning(i == 0, path[i], prev, rows[i], next); }
  }

  lemma {:induction false} LevelsMono(path: seq<Setup>, i: nat, j: nat)
    requires i <= j <= |path|
    ensures Levels(path, i) <= Levels(path, j)
    decreases j
  {
    if i < j { LevelsMono(path, i, j - 1); }
  }

  /** The index is spelled by the remaining levels' bits, so it fits them exactly. */
  lemma {:induction false} IndexFits(compress: (Cell, Cell) -> Cell, path: seq<Setup>, before: Row, rows: seq<Row>, after: Row, i: nat)
    requires RowsOk(compress, path, before, rows, after) && i < |rows| == |path| && Levels(path, |path|) <= 30
    ensures var left := Levels(path, |path|) - Levels(path, i); 0 <= left <= 30 && rows[i].idx < Pow2(left)
    ensures i + 1 < |rows| ==> rows[i + 1].idx == if path[i].inj then rows[i].idx else rows[i].idx / 2
    ensures rows[i].b == if path[i].inj then 0 else rows[i].idx % 2
    decreases |rows| - i
  {
    hide RowsOk, ReadsOk, Pow2;
    Meaning(compress, path, before, rows, after, i);
    LevelsMono(path, i, |path|);
    LevelsMono(path, i + 1, |path|);
    SmallPowers();
    if i + 1 < |rows| {
      IndexFits(compress, path, before, rows, after, i + 1);
      if path[i].inj {
        Same(rows[i].idx, rows[i + 1].idx);
      } else {
        HalfStep(rows[i].idx, rows[i].b, rows[i + 1].idx, Levels(path, |path|) - Levels(path, i + 1));
      }
    }
  }

  lemma CompressRow(compress: (Cell, Cell) -> Cell, s: Setup, row: Row)
    requires ReadsOk(compress, s, row) && IsBit(row.b)
    ensures row.s == s.op && row.out == if row.b == 1 then compress(s.op, row.cur) else compress(row.cur, s.op)
  {
    MixBit(row.b, row.cur, row.s);
    MixBit(row.b, row.s, row.cur);
  }

  lemma MulOne(x: Elt)
    ensures MulElt(x, 1) == x && MulElt(1, x) == x
  {
  }

  /** The rows are the walk from the leaf they read, at the index they read. */
  lemma {:induction false} RowsAreWalk(compress: (Cell, Cell) -> Cell, path: seq<Setup>, before: Row, rows: seq<Row>, after: Row, i: nat)
    requires RowsOk(compress, path, before, rows, after) && i < |rows| == |path| && ValidPath(path)
    ensures var st := StateAt(compress, path, rows[0].cur, rows[0].idx, i);
      && st.cur == rows[i].cur && st.index == rows[i].idx
      && rows[i] == WalkRow(compress, rows[i].b0, st, path[i])
      && (i > 0 ==> st.x == rows[i - 1].x)
  {
    hide RowsOk, ReadsOk, MulElt, Pow2;
    Meaning(compress, path, before, rows, after, i);
    IndexFits(compress, path, before, rows, after, i);
    CompressRow(compress, path[i], rows[i]);
    if i > 0 {
      RowsAreWalk(compress, path, before, rows, after, i - 1);
      IndexFits(compress, path, before, rows, after, i - 1);
      MulOne(rows[i - 1].x);
    } else {
      MulOne(rows[0].x);
    }
  }

  /** From the first level on, b0 is the index's low bit. */
  lemma LowFacts(compress: (Cell, Cell) -> Cell, path: seq<Setup>, before: Row, rows: seq<Row>, after: Row, i: nat)
    requires RowsOk(compress, path, before, rows, after) && i < |rows| == |path|
    ensures path[i].lvl0 ==> rows[i].b0 == rows[i].b
    ensures i > 0 && !path[i].lvl0 ==> rows[i].b0 == rows[i - 1].b0
  {
    hide RowsOk, ReadsOk, MulElt, NextMeans;
    Meaning(compress, path, before, rows, after, i);
  }

  lemma {:induction false} LowBitKept(compress: (Cell, Cell) -> Cell, path: seq<Setup>, before: Row, rows: seq<Row>, after: Row, i: nat)
    requires RowsOk(compress, path, before, rows, after) && i < |rows| == |path| && ValidPath(path)
    ensures Levels(path, i) == 0 ==> rows[i].idx == rows[0].idx
    ensures Levels(path, i + 1) > 0 ==> rows[i].b0 == rows[0].idx % 2
  {
    hide RowsOk, Pow2;
    LowFacts(compress, path, before, rows, after, i);
    IndexFits(compress, path, before, rows, after, i);
    if i > 0 {
      LowBitKept(compress, path, before, rows, after, i - 1);
      IndexFits(compress, path, before, rows, after, i - 1);
    }
  }

  // ---- execution's verdict ----

  function Last(rows: seq<Row>): Row
    requires rows != []
  { rows[|rows| - 1] }

  /** What execution requires: an index within the depth, and the root reached. */
  predicate Succeeds(compress: (Cell, Cell) -> Cell, path: seq<Setup>, leaf: Cell, index: Elt, root: Cell)
    requires path != []
  {
    FitsIn(index, Levels(path, |path|)) && Last(Walk(compress, path, leaf, index)).out == root
  }

  /** The cell [x, b0]. */
  function PointCell(x: Elt, b0: Elt): Cell { [x, b0, 0, 0, 0, 0, 0, 0] }

  /** Rows equal but for b0. */
  predicate SameRow(row: Row, walk: Row) {
    && row.b == walk.b && row.idx == walk.idx && row.f == walk.f && row.x == walk.x
    && row.cur == walk.cur && row.s == walk.s && row.out == walk.out
  }

  lemma RowIsWalk(compress: (Cell, Cell) -> Cell, path: seq<Setup>, before: Row, rows: seq<Row>, after: Row, i: nat)
    requires RowsOk(compress, path, before, rows, after) && i < |rows| == |path| && ValidPath(path)
    ensures SameRow(rows[i], Walk(compress, path, rows[0].cur, rows[0].idx)[i])
  {
    hide RowsOk, StateAt, ValidPath;
    RowsAreWalk(compress, path, before, rows, after, i);
  }

  /** Any rows that meet the constraints are the walk of the leaf they read: the index they
      read is below 2^depth, the walk ends in the root they read, and the point cell they
      write holds the walk's x and the index's low bit. */
  lemma MerkleSound(compress: (Cell, Cell) -> Cell, path: seq<Setup>, before: Row, rows: seq<Row>, after: Row)
    requires RowsOk(compress, path, before, rows, after) && |rows| == |path| && ValidPath(path) && path != []
    ensures var walk := Walk(compress, path, rows[0].cur, rows[0].idx);
      && rows[0].idx < Pow2(Levels(path, |path|))
      && Succeeds(compress, path, rows[0].cur, rows[0].idx, Last(rows).out)
      && Last(rows).x == Last(walk).x && Last(rows).b0 == rows[0].idx % 2
      && forall i :: 0 <= i < |rows| ==> SameRow(rows[i], walk[i])
  {
    hide RowsOk, Walk, FitsIn, Pow2, ValidPath, SameRow;
    LevelsOf(path);
    var n := |rows| - 1;
    forall i | 0 <= i < |rows| ensures SameRow(rows[i], Walk(compress, path, rows[0].cur, rows[0].idx)[i]) {
      RowIsWalk(compress, path, before, rows, after, i);
    }
    IndexFits(compress, path, before, rows, after, 0);
    FitsInIff(rows[0].idx, Levels(path, |path|));
    SameEnds(rows[n], Walk(compress, path, rows[0].cur, rows[0].idx)[n]);
    LowBitKept(compress, path, before, rows, after, n);
  }

  lemma SameEnds(row: Row, walk: Row)
    requires SameRow(row, walk)
    ensures row.x == walk.x && row.out == walk.out
  {
  }

  lemma LevelsOf(path: seq<Setup>)
    requires ValidPath(path)
    ensures 1 <= Levels(path, |path|) <= 30
  {
  }

  // ---- completeness ----

  /** The converse of the Meaning lemmas. */
  ghost predicate Means(isFirst: bool, isLast: bool, s: Setup, prev: Row, row: Row, next: Row) {
    ShapeMeans(isFirst, isLast, s, row) && (isFirst || BackMeans(s, prev, row)) && (isLast || NextMeans(s, row, next))
  }

  lemma MeansIndex(isFirst: bool, isLast: bool, s: Setup, prev: Row, row: Row, next: Row)
    requires Means(isFirst, isLast, s, prev, row, next)
    ensures Zero(row.b * (row.b - 1)) && Zero(Bit(s.inj) * row.b)
    ensures Zero(row.idx - row.b - (1 - Bit(isLast)) * (2 - Bit(s.inj)) * next.idx)
  {
    hide BackMeans;
    Gate(Bit(s.inj), row.b);
    Gate(1 - Bit(isLast), 2 - Bit(s.inj));
    Gate((1 - Bit(isLast)) * (2 - Bit(s.inj)), next.idx);
  }

  lemma MeansFactor(isFirst: bool, isLast: bool, s: Setup, prev: Row, row: Row, next: Row)
    requires Means(isFirst, isLast, s, prev, row, next)
    ensures Zero(row.f - (1 + row.b * (s.g - 1))) && Zero(Bit(isFirst) * (row.x - row.f))
    ensures Zero((1 - Bit(isFirst)) * (row.x - prev.x * row.f))
  {
    hide NextMeans;
    FactorMeans(row.b, row.f, s.g);
    Gate(Bit(isFirst), row.x - row.f);
    Gate(1 - Bit(isFirst), row.x - prev.x * row.f);
  }

  lemma MeansLow(isFirst: bool, isLast: bool, s: Setup, prev: Row, row: Row, next: Row)
    requires Means(isFirst, isLast, s, prev, row, next)
    ensures Zero(Bit(s.lvl0) * (row.b0 - row.b))
    ensures Zero((1 - Bit(isFirst)) * (1 - Bit(s.lvl0)) * (row.b0 - prev.b0))
  {
    hide NextMeans, MulElt;
    Gate(Bit(s.lvl0), row.b0 - row.b);
    Gate(1 - Bit(isFirst), 1 - Bit(s.lvl0));
    Gate((1 - Bit(isFirst)) * (1 - Bit(s.lvl0)), row.b0 - prev.b0);
  }

  lemma MeansLane(isFirst: bool, isLast: bool, s: Setup, prev: Row, row: Row, next: Row, i: nat)
    requires Means(isFirst, isLast, s, prev, row, next) && i < CellWidth
    ensures Zero((1 - Bit(isFirst)) * (Lane(row.cur, i) - Lane(prev.out, i)))
  {
    hide NextMeans, ShapeMeans, MulElt;
    Gate(1 - Bit(isFirst), Lane(row.cur, i) - Lane(prev.out, i));
  }

  lemma MeansRowOk(isFirst: bool, isLast: bool, s: Setup, prev: Row, row: Row, next: Row)
    requires ShapeMeans(isFirst, isLast, s, row)
    requires isFirst || BackMeans(s, prev, row)
    requires isLast || NextMeans(s, row, next)
    ensures RowOk(isFirst, isLast, s, prev, row, next)
  {
    hide ShapeMeans, BackMeans, NextMeans, Zero, Bit, Lane;
    MeansIndex(isFirst, isLast, s, prev, row, next);
    MeansFactor(isFirst, isLast, s, prev, row, next);
    MeansLow(isFirst, isLast, s, prev, row, next);
    forall i | 0 <= i < CellWidth ensures Zero((1 - Bit(isFirst)) * (Lane(row.cur, i) - Lane(prev.out, i))) {
      MeansLane(isFirst, isLast, s, prev, row, next, i);
    }
  }

  lemma {:induction false} StateFits(compress: (Cell, Cell) -> Cell, path: seq<Setup>, leaf: Cell, index: Elt, k: nat)
    requires k <= |path| && FitsIn(index, Levels(path, |path|))
    ensures Levels(path, k) <= Levels(path, |path|)
    ensures StateAt(compress, path, leaf, index, k).index < Pow2(Levels(path, |path|) - Levels(path, k))
    ensures Levels(path, k) == 0 ==> StateAt(compress, path, leaf, index, k).index == index
  {
    LevelsMono(path, k, |path|);
    if k == 0 {
      FitsInIff(index, Levels(path, |path|));
    } else {
      StateFits(compress, path, leaf, index, k - 1);
    }
  }

  lemma WalkShape(compress: (Cell, Cell) -> Cell, low: Elt, st: State, s: Setup, isFirst: bool, isLast: bool)
    requires st.index < P && (isFirst ==> st.x == 1) && (s.lvl0 ==> !s.inj && low == st.index % 2)
    requires isLast ==> st.index < if s.inj then 1 else 2
    ensures ShapeMeans(isFirst, isLast, s, WalkRow(compress, low, st, s))
  {
    hide MulElt;
    MulOne(s.g);
  }

  lemma WalkNext(compress: (Cell, Cell) -> Cell, low: Elt, st: State, s: Setup, t: Setup)
    requires st.index < P
    ensures var next := WalkState(compress, st, s);
      && next.index < P
      && BackMeans(t, WalkRow(compress, low, st, s), WalkRow(compress, low, next, t))
      && NextMeans(s, WalkRow(compress, low, st, s), WalkRow(compress, low, next, t))
  {
    hide MulElt;
    MulOne(WalkState(compress, st, s).x);
  }

  lemma WalkMeans(compress: (Cell, Cell) -> Cell, path: seq<Setup>, leaf: Cell, index: Elt, k: nat)
    requires k < |path| && FitsIn(index, Levels(path, |path|)) && ValidPath(path)
    ensures var rows := Walk(compress, path, leaf, index);
      && ShapeMeans(k == 0, k == |rows| - 1, path[k], rows[k])
      && (k > 0 ==> BackMeans(path[k], rows[k - 1], rows[k]))
      && (k + 1 < |rows| ==> NextMeans(path[k], rows[k], rows[k + 1]))
  {
    hide Pow2, FitsIn, WalkRow, WalkState, ShapeMeans, BackMeans, NextMeans, ValidPath, Levels, StateAt;
    var low := index % 2;
    var st := StateAt(compress, path, leaf, index, k);
    StateFits(compress, path, leaf, index, k);
    PathFacts(path, k);
    SmallPowers();
    StateNext(compress, path, leaf, index, k);
    WalkShape(compress, low, st, path[k], k == 0, k == |path| - 1);
    if k > 0 {
      StateNext(compress, path, leaf, index, k - 1);
      WalkNext(compress, low, StateAt(compress, path, leaf, index, k - 1), path[k - 1], path[k]);
    }
    if k + 1 < |path| { WalkNext(compress, low, st, path[k], path[k + 1]); }
  }

  lemma StateNext(compress: (Cell, Cell) -> Cell, path: seq<Setup>, leaf: Cell, index: Elt, k: nat)
    requires k < |path|
    ensures StateAt(compress, path, leaf, index, 0) == State(leaf, index, 1)
    ensures StateAt(compress, path, leaf, index, k + 1) == WalkState(compress, StateAt(compress, path, leaf, index, k), path[k])
  {
  }

  lemma PathFacts(path: seq<Setup>, k: nat)
    requires ValidPath(path) && k < |path|
    ensures path[k].lvl0 == (!path[k].inj && Levels(path, k) == 0)
    ensures path[k].inj ==> path[k].g == 1
    ensures k == |path| - 1 ==> Levels(path, |path|) - Levels(path, k) == if path[k].inj then 0 else 1
  {
  }

  lemma WalkReads(compress: (Cell, Cell) -> Cell, path: seq<Setup>, leaf: Cell, index: Elt, k: nat)
    requires k < |path|
    ensures ReadsOk(compress, path[k], Walk(compress, path, leaf, index)[k])
  {
    var row := Walk(compress, path, leaf, index)[k];
    MixBit(row.b, row.cur, row.s);
    MixBit(row.b, row.s, row.cur);
  }

  /** A successful execution's rows meet every constraint, whatever their neighbours. */
  lemma MerkleComplete(compress: (Cell, Cell) -> Cell, path: seq<Setup>, leaf: Cell, index: Elt, before: Row, after: Row)
    requires ValidPath(path) && FitsIn(index, Levels(path, |path|))
    ensures RowsOk(compress, path, before, Walk(compress, path, leaf, index), after)
  {
    hide Walk, ShapeMeans, BackMeans, NextMeans, ReadsOk, RowOk, ValidPath, FitsIn;
    var rows := Walk(compress, path, leaf, index);
    forall k | 0 <= k < |rows|
      ensures RowOk(k == 0, k == |rows| - 1, path[k], At(rows, k - 1, before), rows[k], At(rows, k + 1, after))
      ensures ReadsOk(compress, path[k], rows[k])
    {
      WalkMeans(compress, path, leaf, index, k);
      WalkReads(compress, path, leaf, index, k);
      MeansRowOk(k == 0, k == |rows| - 1, path[k], At(rows, k - 1, before), rows[k], At(rows, k + 1, after));
    }
  }

  // ---- the domain point ----

  /** The reversal of the low d bits of x, from its first j bits. */
  function BitRevUpTo(x: int, d: nat, j: nat): nat
    requires j <= d
  {
    if j == 0 then 0 else BitRevUpTo(x, d, j - 1) + BitOf(x, j - 1) * Pow2(d - j)
  }

  function BitRev(x: int, d: nat): nat { BitRevUpTo(x, d, d) }

  /** The first j bits of x read as a number, first bit most significant. */
  function Reversed(x: int, j: nat): nat { if j == 0 then 0 else 2 * Reversed(x, j - 1) + BitOf(x, j - 1) }

  lemma {:induction false} RevIsReversed(x: int, d: nat, j: nat)
    requires j <= d
    ensures BitRevUpTo(x, d, j) == Pow2(d - j) * Reversed(x, j)
  {
    hide BitOf;
    if j > 0 {
      RevIsReversed(x, d, j - 1);
      var p, r, b := Pow2(d - j), Reversed(x, j - 1), BitOf(x, j - 1);
      assert Pow2(d - (j - 1)) == 2 * p;
      RegroupPowers(p, r, b);
    }
  }

  lemma RegroupPowers(p: int, r: int, b: int)
    ensures (2 * p) * r + b * p == p * (2 * r + b)
  {
    assert p * (2 * r + b) == p * (2 * r) + p * b;
    assert p * (2 * r) == (2 * p) * r;
  }

  lemma {:induction false} ReversedShift(x: int, d: nat, i: nat)
    requires i <= d
    ensures Reversed(x, d) / Pow2(i) == Reversed(x, d - i)
  {
    hide BitOf;
    if i > 0 {
      ReversedShift(x, d, i - 1);
      DivPow2(Reversed(x, d), i - 1);
      BitIs(x, d - i);
    }
  }

  lemma BitIs(x: int, i: nat)
    ensures 0 <= BitOf(x, i) <= 1
  {
  }

  lemma BitRevIs(x: int, d: nat)
    ensures BitRev(x, d) == Reversed(x, d)
  {
    hide Reversed, BitRevUpTo;
    RevIsReversed(x, d, d);
    NoPower();
  }

  lemma ReversedOdd(x: int, k: nat)
    ensures Reversed(x, k + 1) % 2 == BitOf(x, k)
  {
    hide BitOf;
    BitIs(x, k);
  }

  lemma BitOfIs(x: int, i: nat, q: int)
    requires x / Pow2(i) == q
    ensures BitOf(x, i) == q % 2
  {
    hide Pow2;
  }

  /** BitRev reverses: bit d - 1 - k of the result is bit k of x, and nothing lies above bit d. */
  lemma BitRevReverses(x: int, d: nat, k: nat)
    requires k < d
    ensures BitOf(BitRev(x, d), d - 1 - k) == BitOf(x, k)
    ensures BitRev(x, d) / Pow2(d) == 0
  {
    hide Pow2, BitOf, Reversed, BitRev;
    BitRevIs(x, d);
    ReversedShift(x, d, d - 1 - k);
    BitOfIs(Reversed(x, d), d - 1 - k, Reversed(x, k + 1));
    ReversedOdd(x, k);
    ReversedShift(x, d, d);
    ReversedNone(x);
  }

  lemma ReversedNone(x: int)
    ensures Reversed(x, 0) == 0
  {
  }

  lemma NoPower()
    ensures Pow2(0) == 1
  {
  }

  /** Level l's factor is gInv^(2^(d-1-l)). */
  predicate Generators(path: seq<Setup>, gInv: Elt) {
    forall k :: 0 <= k < |path| && !path[k].inj && Levels(path, k) < Levels(path, |path|) ==>
      path[k].g == PowMod(gInv, Pow2(Levels(path, |path|) - 1 - Levels(path, k)), P)
  }

  /** The bit a level consumes. */
  lemma {:induction false} StateIndex(compress: (Cell, Cell) -> Cell, path: seq<Setup>, leaf: Cell, index: Elt, k: nat)
    requires k <= |path|
    ensures StateAt(compress, path, leaf, index, k).index == index / Pow2(Levels(path, k))
    ensures StateAt(compress, path, leaf, index, k).index % 2 == BitOf(index, Levels(path, k))
  {
    hide WalkRow, Pow2;
    SmallPowers();
    if k > 0 {
      StateIndex(compress, path, leaf, index, k - 1);
      DivPow2(index, Levels(path, k - 1));
    }
  }

  lemma PowStep(g: Elt, m: nat, b: int, e: nat, x: Elt, f: Elt)
    requires (b == 0 || b == 1) && x == PowMod(g, m, P) && f == PowMod(g, e, P)
    ensures (if b == 1 then MulElt(x, f) else x) == PowMod(g, m + b * e, P)
  {
    hide PowMod;
    PowAdd(g, m, e, P);
  }

  /** x is the inverse generator to the reversal of the index bits consumed. */
  lemma {:induction false} DomainPointAt(compress: (Cell, Cell) -> Cell, path: seq<Setup>, leaf: Cell, index: Elt, gInv: Elt, k: nat)
    requires k <= |path| && ValidPath(path) && Generators(path, gInv)
    ensures Levels(path, k) <= Levels(path, |path|)
    ensures StateAt(compress, path, leaf, index, k).x == PowMod(gInv, BitRevUpTo(index, Levels(path, |path|), Levels(path, k)), P)
  {
    hide MulElt, PowMod, Pow2, MulMod, BitOf, WalkState, WalkRow, ValidPath, StateAt, Generators;
    LevelsMono(path, k, |path|);
    if k == 0 {
      StartX(compress, path, leaf, index);
      PowZero(gInv);
    } else {
      var st := StateAt(compress, path, leaf, index, k - 1);
      var d, j := Levels(path, |path|), Levels(path, k - 1);
      DomainPointAt(compress, path, leaf, index, gInv, k - 1);
      StateIndex(compress, path, leaf, index, k - 1);
      StateNext(compress, path, leaf, index, k - 1);
      WalkX(compress, st, path[k - 1]);
      if !path[k - 1].inj {
        GeneratorAt(path, gInv, k - 1);
        PowStep(gInv, BitRevUpTo(index, d, j), BitOf(index, j), Pow2(d - 1 - j), st.x, path[k - 1].g);
      }
    }
  }

  lemma StartX(compress: (Cell, Cell) -> Cell, path: seq<Setup>, leaf: Cell, index: Elt)
    ensures StateAt(compress, path, leaf, index, 0).x == 1
  {
  }

  lemma GeneratorAt(path: seq<Setup>, gInv: Elt, k: nat)
    requires Generators(path, gInv) && k < |path| && !path[k].inj && Levels(path, k) < Levels(path, |path|)
    ensures path[k].g == PowMod(gInv, Pow2(Levels(path, |path|) - 1 - Levels(path, k)), P)
  {
    hide PowMod, Pow2, Levels;
  }

  lemma WalkX(compress: (Cell, Cell) -> Cell, st: State, s: Setup)
    requires st.index < P
    ensures WalkState(compress, st, s).x == if !s.inj && st.index % 2 == 1 then MulElt(st.x, s.g) else st.x
  {
  }

  lemma PowZero(g: Elt)
    ensures PowMod(g, 0, P) == 1
  {
  }
}
