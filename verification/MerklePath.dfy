/** Merkle-path instructions: what they authenticate, and their execution. */
module MerklePath {
  import opened KoalaBear
  import opened Constraints
  import opened Cells
  import opened ChipMerkle

  /** A path: the cells of its leaf, index and root, its rows, the x factor of every level
      when it computes the domain point, and the cell that point is written to. */
  datatype Path = Path(leaf: nat, index: nat, root: nat, steps: seq<Step>, gens: Option<seq<Elt>>, xb: nat)

  /** The number of levels among the first k steps. */
  function Count(steps: seq<Step>, k: nat): nat
    requires k <= |steps|
    ensures Count(steps, k) <= k
  {
    if k == 0 then 0 else Count(steps, k - 1) + if steps[k - 1].inj then 0 else 1
  }

  function Depth(steps: seq<Step>): nat { Count(steps, |steps|) }

  /** Levels are numbered in order, and the path has 1 to 30 of them. */
  predicate WellFormed(p: Path) {
    && 1 <= Depth(p.steps) <= 30
    && (forall k :: 0 <= k < |p.steps| && !p.steps[k].inj ==> p.steps[k].lvl == Count(p.steps, k) < Depth(p.steps))
    && (p.gens.Some? ==> |p.gens.value| == Depth(p.steps))
  }

  predicate Addressed(p: Path, mem: Memory) {
    && p.leaf < |mem| && p.index < |mem| && p.root < |mem| && (p.gens.Some? ==> p.xb < |mem|)
    && forall k :: 0 <= k < |p.steps| ==> p.steps[k].op < |mem|
  }

  function Factor(p: Path, s: Step): Elt {
    if !s.inj && p.gens.Some? && s.lvl < |p.gens.value| then p.gens.value[s.lvl] else 1
  }

  function SetupAt(p: Path, mem: Memory, k: nat): Setup
    requires Addressed(p, mem) && k < |p.steps|
  {
    var s := p.steps[k];
    Setup(mem[s.op], s.inj, !s.inj && s.lvl == 0, Factor(p, s))
  }

  /** The setup of the path's rows. */
  function PathOf(p: Path, mem: Memory): (r: seq<Setup>)
    requires Addressed(p, mem)
    ensures |r| == |p.steps|
  {
    seq(|p.steps|, k requires 0 <= k < |p.steps| => SetupAt(p, mem, k))
  }

  lemma {:induction false} LevelsCount(p: Path, mem: Memory, k: nat)
    requires Addressed(p, mem) && k <= |p.steps|
    ensures Levels(PathOf(p, mem), k) == Count(p.steps, k)
  {
    if k > 0 { LevelsCount(p, mem, k - 1); }
  }

  lemma PathIsValid(p: Path, mem: Memory)
    requires Addressed(p, mem) && WellFormed(p)
    ensures ValidPath(PathOf(p, mem)) && PathOf(p, mem) != []
    ensures Levels(PathOf(p, mem), |p.steps|) == Depth(p.steps)
  {
    hide Levels;
    LevelsCount(p, mem, |p.steps|);
    forall k | 0 <= k < |p.steps|
      ensures Levels(PathOf(p, mem), k) == Count(p.steps, k)
    {
      LevelsCount(p, mem, k);
    }
  }

  // ---- a path's steps as pathSteps orders them ----

  lemma {:induction false} CountAppend(a: seq<Step>, b: seq<Step>, k: nat)
    requires k <= |b|
    ensures Count(a + b, |a| + k) == Count(a, |a|) + Count(b, k)
  {
    if k == 0 {
      CountPrefix(a + b, a, |a|);
    } else {
      CountAppend(a, b, k - 1);
    }
  }

  lemma {:induction false} CountPrefix(s: seq<Step>, a: seq<Step>, k: nat)
    requires a <= s && k <= |a|
    ensures Count(s, k) == Count(a, k)
  {
    if k > 0 { CountPrefix(s, a, k - 1); }
  }

  lemma {:induction false} InjectionSteps(injections: seq<Injection>, n: nat, width: int, k: nat)
    requires n <= |injections| && k < |StepsAt(injections, n, width)|
    ensures StepsAt(injections, n, width)[k].inj
    decreases n
  {
    if k < |StepsAt(injections, n - 1, width)| { InjectionSteps(injections, n - 1, width, k); }
  }

  lemma {:induction false} InjectionsCount(s: seq<Step>, k: nat)
    requires k <= |s| && forall i :: 0 <= i < |s| ==> s[i].inj
    ensures Count(s, k) == 0
  {
    if k > 0 { InjectionsCount(s, k - 1); }
  }

  /** The steps of level k in a layout, without its injections. */
  function Opening(siblings: seq<nat>, injections: seq<Injection>, k: nat): seq<Step>
    requires k <= |siblings|
  {
    if k == 0 then [] else Layout(siblings, injections, k - 1) + [Step(siblings[k - 1], k - 1, false)]
  }

  function Closing(siblings: seq<nat>, injections: seq<Injection>, k: nat): seq<Step>
    requires k <= |siblings|
  {
    StepsAt(injections, |injections|, Pow2(|siblings| - k))
  }

  lemma LayoutSplit(siblings: seq<nat>, injections: seq<Injection>, k: nat)
    requires k <= |siblings|
    ensures Layout(siblings, injections, k) == Opening(siblings, injections, k) + Closing(siblings, injections, k)
    ensures forall i :: 0 <= i < |Closing(siblings, injections, k)| ==> Closing(siblings, injections, k)[i].inj
  {
    forall i | 0 <= i < |Closing(siblings, injections, k)| ensures Closing(siblings, injections, k)[i].inj {
      InjectionSteps(injections, |injections|, Pow2(|siblings| - k), i);
    }
  }

  lemma {:induction false} LayoutDepth(siblings: seq<nat>, injections: seq<Injection>, k: nat)
    requires k <= |siblings|
    ensures Depth(Layout(siblings, injections, k)) == k
  {
    var open, close := Opening(siblings, injections, k), Closing(siblings, injections, k);
    LayoutSplit(siblings, injections, k);
    hide Layout, Closing;
    CountAppend(open, close, |close|);
    InjectionsCount(close, |close|);
    if k > 0 {
      LayoutDepth(siblings, injections, k - 1);
      CountAppend(Layout(siblings, injections, k - 1), [Step(siblings[k - 1], k - 1, false)], 1);
    }
  }

  /** Levels are numbered in order in every layout. */
  lemma {:induction false} LayoutOrdered(siblings: seq<nat>, injections: seq<Injection>, k: nat, i: nat)
    requires k <= |siblings| && i < |Layout(siblings, injections, k)| && !Layout(siblings, injections, k)[i].inj
    ensures var steps := Layout(siblings, injections, k);
      steps[i].lvl == Count(steps, i) < k && steps[i].op == siblings[steps[i].lvl]
    decreases k
  {
    var steps, open, close := Layout(siblings, injections, k), Opening(siblings, injections, k), Closing(siblings, injections, k);
    LayoutSplit(siblings, injections, k);
    hide Layout, Closing, Count;
    if k > 0 {
      var prev := Layout(siblings, injections, k - 1);
      if i < |prev| {
        LayoutOrdered(siblings, injections, k - 1, i);
        CountPrefix(steps, prev, i);
      } else if i == |prev| {
        LayoutDepth(siblings, injections, k - 1);
        CountPrefix(steps, prev, i);
      }
    }
  }

  lemma LayoutWellFormed(siblings: seq<nat>, injections: seq<Injection>, p: Path)
    requires p.steps == Layout(siblings, injections, |siblings|) && 1 <= |siblings| <= 30
    requires p.gens.Some? ==> |p.gens.value| == |siblings|
    ensures WellFormed(p) && Depth(p.steps) == |siblings|
  {
    hide Layout, Count;
    LayoutDepth(siblings, injections, |siblings|);
    forall k | 0 <= k < |p.steps| && !p.steps[k].inj ensures p.steps[k].lvl == Count(p.steps, k) < |siblings| {
      LayoutOrdered(siblings, injections, |siblings|, k);
    }
  }

  // ---- what a path authenticates ----

  /** The injected digests compressed onto h, in order. */
  function Absorb(compress: (Cell, Cell) -> Cell, mem: Memory, h: Cell, steps: seq<Step>): Cell
    requires forall k :: 0 <= k < |steps| ==> steps[k].op < |mem|
  {
    if steps == [] then h
    else compress(Absorb(compress, mem, h, steps[..|steps| - 1]), mem[steps[|steps| - 1].op])
  }

  function Join(compress: (Cell, Cell) -> Cell, h: Cell, sibling: Cell, bit: int): Cell {
    if bit == 1 then compress(sibling, h) else compress(h, sibling)
  }

  predicate InLayout(siblings: seq<nat>, injections: seq<Injection>, mem: Memory) {
    && (forall k :: 0 <= k < |siblings| ==> siblings[k] < |mem|)
    && (forall k :: 0 <= k < |injections| ==> injections[k].digest < |mem|)
  }

  lemma {:induction false} StepsInMemory(injections: seq<Injection>, n: nat, width: int, mem: Memory, k: nat)
    requires n <= |injections| && k < |StepsAt(injections, n, width)|
    requires forall i :: 0 <= i < |injections| ==> injections[i].digest < |mem|
    ensures StepsAt(injections, n, width)[k].op < |mem|
    decreases n
  {
    if k < |StepsAt(injections, n - 1, width)| { StepsInMemory(injections, n - 1, width, mem, k); }
  }

  lemma ClosingInMemory(siblings: seq<nat>, injections: seq<Injection>, k: nat, mem: Memory)
    requires k <= |siblings| && InLayout(siblings, injections, mem)
    ensures forall i :: 0 <= i < |Closing(siblings, injections, k)| ==> Closing(siblings, injections, k)[i].op < |mem|
  {
    forall i | 0 <= i < |Closing(siblings, injections, k)| ensures Closing(siblings, injections, k)[i].op < |mem| {
      StepsInMemory(injections, |injections|, Pow2(|siblings| - k), mem, i);
    }
  }

  /** The path's node after k levels: at each level the node is compressed with its sibling,
      ordered by the level's index bit, then with the digests injected at its width. */
  function Auth(compress: (Cell, Cell) -> Cell, mem: Memory, leaf: Cell, siblings: seq<nat>,
                injections: seq<Injection>, index: nat, k: nat): Cell
    requires k <= |siblings| && InLayout(siblings, injections, mem)
  {
    ClosingInMemory(siblings, injections, k, mem);
    var h := if k == 0 then leaf
             else Join(compress, Auth(compress, mem, leaf, siblings, injections, index, k - 1), mem[siblings[k - 1]], BitOf(index, k - 1));
    Absorb(compress, mem, h, Closing(siblings, injections, k))
  }

  lemma {:induction false} LayoutGrows(siblings: seq<nat>, injections: seq<Injection>, k: nat, d: nat)
    requires k <= d <= |siblings|
    ensures Layout(siblings, injections, k) <= Layout(siblings, injections, d)
    decreases d - k
  {
    if k < d { LayoutGrows(siblings, injections, k + 1, d); }
  }

  /** Walking a run of injections. */
  lemma {:induction false} AbsorbRun(compress: (Cell, Cell) -> Cell, p: Path, mem: Memory, leaf: Cell, index: Elt, pos: nat, run: seq<Step>)
    requires Addressed(p, mem) && pos + |run| <= |p.steps| && p.steps[pos..pos + |run|] == run
    requires forall k :: 0 <= k < |run| ==> run[k].inj && run[k].op < |mem|
    ensures StateAt(compress, PathOf(p, mem), leaf, index, pos + |run|).cur
         == Absorb(compress, mem, StateAt(compress, PathOf(p, mem), leaf, index, pos).cur, run)
    decreases run
  {
    hide StateAt, WalkState, Levels;
    if run != [] {
      var n := |run| - 1;
      assert p.steps[pos..pos + n] == run[..n];
      AbsorbRun(compress, p, mem, leaf, index, pos, run[..n]);
      assert pos + |run[..n]| == pos + n && run[n] == p.steps[pos + n];
      StateNext(compress, PathOf(p, mem), leaf, index, pos + n);
      InjectCur(compress, StateAt(compress, PathOf(p, mem), leaf, index, pos + n), PathOf(p, mem)[pos + n]);
    }
  }

  lemma InjectCur(compress: (Cell, Cell) -> Cell, st: State, s: Setup)
    requires st.index < P && s.inj
    ensures WalkState(compress, st, s).cur == compress(st.cur, s.op)
  {
  }

  /** Walking one level. */
  lemma LevelAuth(compress: (Cell, Cell) -> Cell, p: Path, mem: Memory, leaf: Cell, index: Elt,
                  siblings: seq<nat>, injections: seq<Injection>, k: nat)
    requires Addressed(p, mem) && k < |siblings| && p.steps == Layout(siblings, injections, |siblings|)
    requires siblings[k] < |mem|
    ensures |Layout(siblings, injections, k)| < |p.steps|
    ensures var pos := |Layout(siblings, injections, k)|;
      StateAt(compress, PathOf(p, mem), leaf, index, pos + 1).cur
        == Join(compress, StateAt(compress, PathOf(p, mem), leaf, index, pos).cur, mem[siblings[k]], BitOf(index, k))
  {
    hide Layout, StateAt, Levels, WalkState, BitOf, Pow2;
    var pos := |Layout(siblings, injections, k)|;
    LevelPlace(siblings, injections, k);
    LayoutDepth(siblings, injections, k);
    LayoutGrows(siblings, injections, k, |siblings|);
    CountPrefix(p.steps, Layout(siblings, injections, k), pos);
    LevelsCount(p, mem, pos);
    StateIndex(compress, PathOf(p, mem), leaf, index, pos);
    StateNext(compress, PathOf(p, mem), leaf, index, pos);
    LevelCur(compress, StateAt(compress, PathOf(p, mem), leaf, index, pos), PathOf(p, mem)[pos]);
  }

  lemma LevelPlace(siblings: seq<nat>, injections: seq<Injection>, k: nat)
    requires k < |siblings|
    ensures var steps := Layout(siblings, injections, |siblings|); var pos := |Layout(siblings, injections, k)|;
      pos < |steps| && steps[pos] == Step(siblings[k], k, false)
  {
    LayoutGrows(siblings, injections, k + 1, |siblings|);
  }

  /** The walk over a layout computes the authenticated node. */
  lemma {:induction false} WalkAuth(compress: (Cell, Cell) -> Cell, p: Path, mem: Memory, leaf: Cell, index: Elt,
                                    siblings: seq<nat>, injections: seq<Injection>, k: nat)
    requires Addressed(p, mem) && InLayout(siblings, injections, mem) && k <= |siblings|
    requires p.steps == Layout(siblings, injections, |siblings|)
    ensures |Layout(siblings, injections, k)| <= |p.steps|
    ensures StateAt(compress, PathOf(p, mem), leaf, index, |Layout(siblings, injections, k)|).cur
         == Auth(compress, mem, leaf, siblings, injections, index, k)
    decreases k
  {
    hide Layout, StateAt, Levels, Absorb;
    var open, close := Opening(siblings, injections, k), Closing(siblings, injections, k);
    LayoutSplit(siblings, injections, k);
    LayoutGrows(siblings, injections, k, |siblings|);
    ClosingInMemory(siblings, injections, k, mem);
    assert p.steps[|open|..|open| + |close|] == close;
    AbsorbRun(compress, p, mem, leaf, index, |open|, close);
    if k == 0 {
      StateStart(compress, PathOf(p, mem), leaf, index);
    } else {
      WalkAuth(compress, p, mem, leaf, index, siblings, injections, k - 1);
      LevelAuth(compress, p, mem, leaf, index, siblings, injections, k - 1);
    }
  }

  lemma StateStart(compress: (Cell, Cell) -> Cell, path: seq<Setup>, leaf: Cell, index: Elt)
    ensures StateAt(compress, path, leaf, index, 0) == State(leaf, index, 1)
  {
  }

  lemma LevelCur(compress: (Cell, Cell) -> Cell, st: State, s: Setup)
    requires st.index < P && !s.inj
    ensures WalkState(compress, st, s).cur == Join(compress, st.cur, s.op, st.index % 2)
  {
  }

  // ---- the domain point's factors ----

  /** The x factors of MerklePathX: level l's is gInv squared d - 1 - l times. */
  method LevelFactors(gInv: Elt, d: nat) returns (gens: seq<Elt>)
    ensures |gens| == d && forall l :: 0 <= l < d ==> gens[l] == PowMod(gInv, Pow2(d - 1 - l), P)
  {
    gens := [];
    for l := 0 to d
      invariant |gens| == l && forall i :: 0 <= i < l ==> gens[i] == PowMod(gInv, Pow2(d - 1 - i), P)
    {
      var g: Elt := gInv;
      FirstPower(gInv);
      for i := 0 to d - 1 - l
        invariant g == PowMod(gInv, Pow2(i), P)
      {
        Squared(gInv, i);
        g := MulElt(g, g);
      }
      gens := gens + [g];
    }
  }

  lemma FirstPower(g: Elt)
    ensures PowMod(g, Pow2(0), P) == g
  {
    assert PowMod(g, 1, P) == MulMod(g, PowMod(g, 0, P), P);
  }

  lemma Squared(g: Elt, i: nat)
    ensures PowMod(g, Pow2(i + 1), P) == MulElt(PowMod(g, Pow2(i), P), PowMod(g, Pow2(i), P))
  {
    hide PowMod;
    PowAdd(g, Pow2(i), Pow2(i), P);
  }

  /** The factors are those of gInv. */
  predicate FactorsOf(gens: Option<seq<Elt>>, gInv: Elt, d: nat) {
    gens.Some? && |gens.value| == d && forall l :: 0 <= l < d ==> gens.value[l] == PowMod(gInv, Pow2(d - 1 - l), P)
  }

  lemma PathGenerators(p: Path, mem: Memory, gInv: Elt)
    requires Addressed(p, mem) && WellFormed(p) && FactorsOf(p.gens, gInv, Depth(p.steps))
    ensures Generators(PathOf(p, mem), gInv)
  {
    hide Levels, PowMod, Pow2, Count;
    var path := PathOf(p, mem);
    LevelsCount(p, mem, |p.steps|);
    forall k | 0 <= k < |path| && !path[k].inj && Levels(path, k) < Levels(path, |path|)
      ensures path[k].g == PowMod(gInv, Pow2(Levels(path, |path|) - 1 - Levels(path, k)), P)
    {
      LevelsCount(p, mem, k);
    }
  }

  // ---- execution ----

  function Index(p: Path, mem: Memory): Elt
    requires Addressed(p, mem)
  { mem[p.index][0] }

  function WalkOf(compress: (Cell, Cell) -> Cell, p: Path, mem: Memory): (r: seq<Row>)
    requires Addressed(p, mem)
    ensures |r| == |p.steps|
  {
    Walk(compress, PathOf(p, mem), mem[p.leaf], Index(p, mem))
  }

  /** Execution succeeds: the index fits the depth and the walk reaches the root. */
  predicate Reaches(compress: (Cell, Cell) -> Cell, p: Path, mem: Memory)
    requires Addressed(p, mem) && p.steps != []
  {
    Succeeds(compress, PathOf(p, mem), mem[p.leaf], Index(p, mem), mem[p.root])
  }

  /** The cell execution writes. */
  function Point(compress: (Cell, Cell) -> Cell, p: Path, mem: Memory): Cell
    requires Addressed(p, mem) && p.steps != []
  {
    PointCell(Last(WalkOf(compress, p, mem)).x, Index(p, mem) % 2)
  }

  function Hash(row: Row): (Cell, Cell) { if row.b == 1 then (row.s, row.cur) else (row.cur, row.s) }

  function Hashes(rows: seq<Row>): (r: seq<(Cell, Cell)>)
    ensures |r| == |rows|
  {
    seq(|rows|, k requires 0 <= k < |rows| => Hash(rows[k]))
  }

  /** One iteration of the walk. */
  lemma WalkStep(compress: (Cell, Cell) -> Cell, p: Path, mem: Memory, k: nat, st: State, bit: Elt, f: Elt, x: Elt, out: Cell)
    requires Addressed(p, mem) && k < |p.steps|
    requires StateAt(compress, PathOf(p, mem), mem[p.leaf], Index(p, mem), k) == st
    requires bit == if p.steps[k].inj then 0 else st.index % 2
    requires f == (if bit == 1 then Factor(p, p.steps[k]) else 1) && x == if bit == 1 then MulElt(st.x, f) else st.x
    requires var op := mem[p.steps[k].op]; out == if bit == 1 then compress(op, st.cur) else compress(st.cur, op)
    ensures st.index < P
    ensures WalkOf(compress, p, mem)[k] == Row(bit, st.index, f, x, Index(p, mem) % 2, st.cur, mem[p.steps[k].op], out)
    ensures StateAt(compress, PathOf(p, mem), mem[p.leaf], Index(p, mem), k + 1)
         == State(out, if p.steps[k].inj then st.index else st.index / 2, x)
  {
    hide StateAt, Levels, MulElt;
    StateNext(compress, PathOf(p, mem), mem[p.leaf], Index(p, mem), k);
  }

  /** Runs a path from its leaf. */
  method WalkPath(p: Path, compress: (Cell, Cell) -> Cell, mem: Memory) returns (rows: seq<Row>)
    requires Addressed(p, mem)
    ensures rows == WalkOf(compress, p, mem)
  {
    hide StateAt, WalkOf, PathOf, MulElt;
    ghost var path := PathOf(p, mem);
    StateStart(compress, path, mem[p.leaf], Index(p, mem));
    var cur, index: Elt, x: Elt := mem[p.leaf], mem[p.index][0], 1;
    var low: Elt := index % 2;
    rows := [];
    for k := 0 to |p.steps|
      invariant |rows| == k && StateAt(compress, path, mem[p.leaf], Index(p, mem), k) == State(cur, index, x)
      invariant rows == WalkOf(compress, p, mem)[..k]
    {
      var s := p.steps[k];
      ghost var st := State(cur, index, x);
      var op := mem[s.op];
      var bit: Elt := if s.inj then 0 else index % 2;
      var f: Elt := if bit == 1 then Factor(p, s) else 1;
      if bit == 1 { x := MulElt(x, f); }
      var left, right := cur, op;
      if bit == 1 { left, right := op, cur; }
      var out := compress(left, right);
      WalkStep(compress, p, mem, k, st, bit, f, x, out);
      rows := rows + [Row(bit, index, f, x, low, cur, op, out)];
      cur := out;
      if !s.inj { index := index / 2; }
    }
  }

  method CountLevels(steps: seq<Step>) returns (depth: nat)
    ensures depth == Depth(steps)
  {
    depth := 0;
    for k := 0 to |steps|
      invariant depth == Count(steps, k)
    {
      if !steps[k].inj { depth := depth + 1; }
    }
  }

  method RecordHashes(rows: seq<Row>, r: Run)
    modifies r`p2
    ensures r.p2 == old(r.p2) + Hashes(rows)
  {
    for k := 0 to |rows|
      invariant r.p2 == old(r.p2) + Hashes(rows)[..k]
    {
      var left, right := rows[k].cur, rows[k].s;
      if rows[k].b == 1 { left, right := rows[k].s, rows[k].cur; }
      r.p2 := r.p2 + [(left, right)];
    }
  }

  /** Executes a path: records its compressions and writes its point. It fails if the index
      does not fit the depth or the root is not reached. */
  method ExecPath(p: Path, compress: (Cell, Cell) -> Cell, r: Run) returns (ok: bool)
    requires Addressed(p, r.values) && WellFormed(p)
    modifies r
    ensures p.steps != [] && ok == Reaches(compress, p, old(r.values))
    ensures r.values == if ok && p.gens.Some? then old(r.values)[p.xb := Point(compress, p, old(r.values))] else old(r.values)
    ensures ok && p.gens.Some? ==>
      && r.values[p.xb][0] == Last(WalkOf(compress, p, old(r.values))).x
      && r.values[p.xb][1] == old(r.values[p.index])[0] % 2
      && forall i :: 2 <= i < CellWidth ==> r.values[p.xb][i] == 0
    ensures ok ==> r.p2 == old(r.p2) + Hashes(WalkOf(compress, p, old(r.values)))
    ensures r.tableReads == old(r.tableReads)
  {
    hide WalkOf, Pow2, FitsIn, PathOf, Levels, Walk;
    var depth := CountLevels(p.steps);
    LevelsCount(p, r.values, |p.steps|);
    WalkIs(compress, p, r.values);
    var index := r.values[p.index][0];
    if !FitsIn(index, depth) { return false; }
    var rows := WalkPath(p, compress, r.values);
    RecordHashes(rows, r);
    if rows[|rows| - 1].out != r.values[p.root] { return false; }
    if p.gens.Some? {
      r.values := r.values[p.xb := PointCell(rows[|rows| - 1].x, index % 2)];
    }
    return true;
  }

  lemma WalkIs(compress: (Cell, Cell) -> Cell, p: Path, mem: Memory)
    requires Addressed(p, mem)
    ensures Walk(compress, PathOf(p, mem), mem[p.leaf], Index(p, mem)) == WalkOf(compress, p, mem)
  {
  }

  // ---- main results ----

  /** The memory reads of a path's rows. */
  predicate ReadsMemory(p: Path, mem: Memory, rows: seq<Row>)
    requires Addressed(p, mem) && |rows| == |p.steps| > 0
  {
    rows[0].cur == mem[p.leaf] && ScalarCell(rows[0].idx) == mem[p.index] && Last(rows).out == mem[p.root]
  }

  /** Rows that meet the constraints and read their leaf, index and root in the memory are a
      successful execution, and the point they write is its point. */
  lemma PathSound(compress: (Cell, Cell) -> Cell, p: Path, mem: Memory, before: Row, rows: seq<Row>, after: Row)
    requires Addressed(p, mem) && WellFormed(p)
    requires RowsOk(compress, PathOf(p, mem), before, rows, after) && |rows| == |p.steps| > 0 && ReadsMemory(p, mem, rows)
    ensures Reaches(compress, p, mem) && PointCell(Last(rows).x, Last(rows).b0) == Point(compress, p, mem)
  {
    hide RowsOk, Levels, Walk, Pow2;
    PathIsValid(p, mem);
    MerkleSound(compress, PathOf(p, mem), before, rows, after);
    WalkIs(compress, p, mem);
  }

  /** A successful execution yields rows that meet every constraint and read. */
  lemma PathComplete(compress: (Cell, Cell) -> Cell, p: Path, mem: Memory, before: Row, after: Row)
    requires Addressed(p, mem) && WellFormed(p) && p.steps != []
    requires Reaches(compress, p, mem) && mem[p.index] == ScalarCell(Index(p, mem))
    ensures var rows := WalkOf(compress, p, mem);
      && RowsOk(compress, PathOf(p, mem), before, rows, after) && ReadsMemory(p, mem, rows)
      && PointCell(Last(rows).x, Last(rows).b0) == Point(compress, p, mem)
  {
    hide RowsOk, Levels, Pow2, FitsIn, MulElt;
    PathIsValid(p, mem);
    MerkleComplete(compress, PathOf(p, mem), mem[p.leaf], Index(p, mem), before, after);
    StateStart(compress, PathOf(p, mem), mem[p.leaf], Index(p, mem));
  }

  /** A successful path laid out by pathSteps authenticates its leaf: at an index below
      2^depth, its root is the hash of the path, and its point is the inverse generator to
      the reversal of the index. */
  lemma PathAuthenticates(compress: (Cell, Cell) -> Cell, p: Path, mem: Memory,
                          siblings: seq<nat>, injections: seq<Injection>, gInv: Elt)
    requires Addressed(p, mem) && InLayout(siblings, injections, mem) && 1 <= |siblings| <= 30
    requires p.steps == Layout(siblings, injections, |siblings|) != []
    requires p.gens.Some? ==> FactorsOf(p.gens, gInv, |siblings|)
    requires Reaches(compress, p, mem)
    ensures Index(p, mem) < Pow2(|siblings|)
    ensures mem[p.root] == Auth(compress, mem, mem[p.leaf], siblings, injections, Index(p, mem), |siblings|)
    ensures p.gens.Some? ==>
      && Point(compress, p, mem)[0] == PowMod(gInv, BitRev(Index(p, mem), |siblings|), P)
      && Point(compress, p, mem)[1] == Index(p, mem) % 2
      && forall i :: 2 <= i < CellWidth ==> Point(compress, p, mem)[i] == 0
  {
    hide Layout, Levels, Walk, Auth, PowMod, Pow2, BitRevUpTo;
    LayoutWellFormed(siblings, injections, p);
    PathIsValid(p, mem);
    var path := PathOf(p, mem);
    FitsInIff(Index(p, mem), |siblings|);
    WalkIs(compress, p, mem);
    WalkAuth(compress, p, mem, mem[p.leaf], Index(p, mem), siblings, injections, |siblings|);
    WalkEnds(compress, path, mem[p.leaf], Index(p, mem));
    if p.gens.Some? {
      PathGenerators(p, mem, gInv);
      DomainPointAt(compress, path, mem[p.leaf], Index(p, mem), gInv, |path|);
    }
  }

  lemma WalkEnds(compress: (Cell, Cell) -> Cell, path: seq<Setup>, leaf: Cell, index: Elt)
    requires path != []
    ensures var st := StateAt(compress, path, leaf, index, |path|); var last := Last(Walk(compress, path, leaf, index));
      st.cur == last.out && st.x == last.x
  {
    hide StateAt, MulElt;
    StateNext(compress, path, leaf, index, |path| - 1);
  }

  // ---- memory accesses ----

  function StepSlots(p: Path): (r: seq<Slot>)
    ensures |r| == |p.steps|
  { seq(|p.steps|, k requires 0 <= k < |p.steps| => Slot(p.steps[k].op, false)) }

  function StepVals(rows: seq<Row>): (r: seq<Cell>)
    ensures |r| == |rows|
  { seq(|rows|, k requires 0 <= k < |rows| => rows[k].s) }

  function EndSlots(p: Path): seq<Slot> {
    [Slot(p.leaf, false), Slot(p.index, false), Slot(p.root, false)] + if p.gens.Some? then [Slot(p.xb, true)] else []
  }

  function EndVals(p: Path, rows: seq<Row>): (r: seq<Cell>)
    requires rows != []
    ensures |r| == |EndSlots(p)|
  {
    [rows[0].cur, ScalarCell(rows[0].idx), Last(rows).out]
    + if p.gens.Some? then [PointCell(Last(rows).x, Last(rows).b0)] else []
  }

  function Slots(p: Path): seq<Slot> { EndSlots(p) + StepSlots(p) }

  function Vals(p: Path, rows: seq<Row>): seq<Cell>
    requires rows != []
  { EndVals(p, rows) + StepVals(rows) }

  /** The rows read and write what the memory holds. */
  predicate Holds(p: Path, rows: seq<Row>, mem: Memory)
    requires |rows| == |p.steps| > 0
  {
    && Addressed(p, mem) && ReadsMemory(p, mem, rows)
    && (p.gens.Some? ==> mem[p.xb] == PointCell(Last(rows).x, Last(rows).b0))
    && forall k :: 0 <= k < |rows| ==> rows[k].s == mem[p.steps[k].op]
  }

  lemma EndsMean(p: Path, rows: seq<Row>, mem: Memory)
    requires rows != []
    ensures Agree(EndSlots(p), EndVals(p, rows), mem) <==>
      && p.leaf < |mem| && p.index < |mem| && p.root < |mem|
      && mem[p.leaf] == rows[0].cur && mem[p.index] == ScalarCell(rows[0].idx) && mem[p.root] == Last(rows).out
      && (p.gens.Some? ==> p.xb < |mem| && mem[p.xb] == PointCell(Last(rows).x, Last(rows).b0))
  {
    hide ScalarCell, PointCell;
    var s, v := EndSlots(p), EndVals(p, rows);
    assert s[0].addr == p.leaf && s[1].addr == p.index && s[2].addr == p.root;
    assert v[0] == rows[0].cur && v[1] == ScalarCell(rows[0].idx) && v[2] == Last(rows).out;
    if p.gens.Some? { assert s[3].addr == p.xb && v[3] == PointCell(Last(rows).x, Last(rows).b0); }
  }

  lemma StepsMean(p: Path, rows: seq<Row>, mem: Memory)
    requires |rows| == |p.steps|
    ensures Agree(StepSlots(p), StepVals(rows), mem) <==>
      forall k :: 0 <= k < |rows| ==> p.steps[k].op < |mem| && rows[k].s == mem[p.steps[k].op]
  {
    if Agree(StepSlots(p), StepVals(rows), mem) {
      forall k | 0 <= k < |rows| ensures p.steps[k].op < |mem| && rows[k].s == mem[p.steps[k].op] {
        assert StepSlots(p)[k].addr == p.steps[k].op;
      }
    }
  }

  lemma AgreeMeans(p: Path, rows: seq<Row>, mem: Memory)
    requires |rows| == |p.steps| > 0
    ensures |Slots(p)| == |Vals(p, rows)|
    ensures Agree(Slots(p), Vals(p, rows), mem) <==> Holds(p, rows, mem)
  {
    hide Agree, ScalarCell, PointCell, EndSlots, EndVals;
    EndsMean(p, rows, mem);
    StepsMean(p, rows, mem);
    AgreeSplit(EndSlots(p), StepSlots(p), EndVals(p, rows), StepVals(rows), mem);
  }

  /** The setup of a row, which its constraints use; the operand is not part of it. */
  function Plain(p: Path, k: nat): Setup
    requires k < |p.steps|
  {
    var s := p.steps[k];
    Setup(ZeroCell, s.inj, !s.inj && s.lvl == 0, Factor(p, s))
  }

  predicate PolyOk(p: Path, before: Row, rows: seq<Row>, after: Row) {
    && |rows| == |p.steps|
    && forall i :: 0 <= i < |rows| ==>
         RowOk(i == 0, i == |rows| - 1, Plain(p, i), At(rows, i - 1, before), rows[i], At(rows, i + 1, after))
  }

  /** The compression looked up by a row. */
  predicate HashOk(compress: (Cell, Cell) -> Cell, row: Row) {
    row.out == compress(Mix(row.b, row.cur, row.s), Mix(row.b, row.s, row.cur))
  }

  lemma OperandFree(isFirst: bool, isLast: bool, s: Setup, t: Setup, prev: Row, row: Row, next: Row)
    requires s.inj == t.inj && s.lvl0 == t.lvl0 && s.g == t.g
    ensures RowOk(isFirst, isLast, s, prev, row, next) <==> RowOk(isFirst, isLast, t, prev, row, next)
  {
  }

  lemma RowsMean(compress: (Cell, Cell) -> Cell, p: Path, mem: Memory, before: Row, rows: seq<Row>, after: Row)
    requires |rows| == |p.steps| > 0 && Holds(p, rows, mem)
    requires forall i :: 0 <= i < |rows| ==> HashOk(compress, rows[i])
    ensures PolyOk(p, before, rows, after) <==> RowsOk(compress, PathOf(p, mem), before, rows, after)
  {
    hide RowOk;
    var path := PathOf(p, mem);
    forall i | 0 <= i < |rows|
      ensures ReadsOk(compress, path[i], rows[i])
      ensures RowOk(i == 0, i == |rows| - 1, Plain(p, i), At(rows, i - 1, before), rows[i], At(rows, i + 1, after))
         <==> RowOk(i == 0, i == |rows| - 1, path[i], At(rows, i - 1, before), rows[i], At(rows, i + 1, after))
    {
      OperandFree(i == 0, i == |rows| - 1, Plain(p, i), path[i], At(rows, i - 1, before), rows[i], At(rows, i + 1, after));
    }
  }

  /** A layout's operands are the siblings and the injected digests. */
  lemma {:induction false} LayoutOps(siblings: seq<nat>, injections: seq<Injection>, k: nat, n: nat, i: nat)
    requires k <= |siblings| && i < |Layout(siblings, injections, k)|
    requires (forall j :: 0 <= j < |siblings| ==> siblings[j] < n) && (forall j :: 0 <= j < |injections| ==> injections[j].digest < n)
    ensures Layout(siblings, injections, k)[i].op < n
    decreases k
  {
    var open, close := Opening(siblings, injections, k), Closing(siblings, injections, k);
    LayoutSplit(siblings, injections, k);
    hide Layout, Closing;
    if i >= |open| {
      ClosingOp(siblings, injections, k, n, i - |open|);
    } else if i < |open| - 1 {
      LayoutOps(siblings, injections, k - 1, n, i);
    }
  }

  lemma ClosingOp(siblings: seq<nat>, injections: seq<Injection>, k: nat, n: nat, i: nat)
    requires k <= |siblings| && i < |Closing(siblings, injections, k)| && forall j :: 0 <= j < |injections| ==> injections[j].digest < n
    ensures Closing(siblings, injections, k)[i].op < n
  {
    StepsInMemory(injections, |injections|, Pow2(|siblings| - k), seq(n, x => ZeroCell), i);
  }

  lemma LayoutNonEmpty(siblings: seq<nat>, injections: seq<Injection>, k: nat)
    requires 1 <= k <= |siblings|
    ensures Layout(siblings, injections, k) != []
  {
  }
}
