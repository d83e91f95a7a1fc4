/** Memory cells, accesses to the memory, and one run of a program. */
module Cells {
  import opened KoalaBear
  import opened Constraints
  import opened ExtField

  const CellWidth: nat := 8

  /** The value of a memory cell: a digest, an E6 value in lanes 0..5, or a scalar in lane 0. */
  type Cell = c: seq<Elt> | |c| == CellWidth witness [0, 0, 0, 0, 0, 0, 0, 0]

  const ZeroCell: Cell := [0, 0, 0, 0, 0, 0, 0, 0]

  function ScalarCell(v: Elt): Cell { [v, 0, 0, 0, 0, 0, 0, 0] }

  function E6Cell(x: Ext): Cell {
    [x.x0.re, x.x0.im, x.x1.re, x.x1.im, x.x2.re, x.x2.im, 0, 0]
  }

  function CellE6(c: Cell): Ext { Z6(Z2(c[0], c[1]), Z2(c[2], c[3]), Z2(c[4], c[5])) }

  lemma E6CellRoundTrip(x: Ext)
    ensures CellE6(E6Cell(x)) == x
  {
  }

  /** A lane as an integer, for the arithmetic of the constraints. */
  function Lane(c: Cell, i: nat): int
    requires i < CellWidth
  { c[i] }

  /** Lane-wise x + b (y - x). */
  function Mix(b: Elt, x: Cell, y: Cell): Cell {
    seq(CellWidth, i requires 0 <= i < CellWidth => (Lane(x, i) + b * (Lane(y, i) - Lane(x, i))) % P)
  }

  lemma MixBit(b: Elt, x: Cell, y: Cell)
    requires b == 0 || b == 1
    ensures Mix(b, x, y) == if b == 1 then y else x
  {
    forall i | 0 <= i < CellWidth ensures Mix(b, x, y)[i] == if b == 1 then y[i] else x[i] {
      Gate(b, Lane(y, i) - Lane(x, i));
    }
  }

  /** The lanes beyond kind are zero. */
  predicate HasKind(c: Cell, kind: nat) {
    forall k :: kind <= k < CellWidth ==> c[k] == 0
  }

  /** The code's uninterpreted primitives: the compression and the inverse in E6. */
  datatype Prims = Prims(compress: (Cell, Cell) -> Cell, inv: Ext -> Ext)

  // ---- memory ----

  type Memory = seq<Cell>

  /** One memory access of a chip row: a read of an address, or its write. */
  datatype Slot = Slot(addr: nat, write: bool)

  /** Every access reads or writes the value the memory holds at its address. */
  predicate Agree(slots: seq<Slot>, vals: seq<Cell>, mem: Memory) {
    && |slots| == |vals|
    && forall i :: 0 <= i < |slots| ==> slots[i].addr < |mem| && mem[slots[i].addr] == vals[i]
  }

  function Concat<T>(ss: seq<seq<T>>): seq<T> {
    if ss == [] then [] else Concat(ss[..|ss| - 1]) + ss[|ss| - 1]
  }

  lemma {:induction false} ConcatHas<T>(ss: seq<seq<T>>, i: nat, x: T)
    requires i < |ss| && x in ss[i]
    ensures x in Concat(ss)
    decreases ss
  {
    if i < |ss| - 1 {
      assert ss[..|ss| - 1][i] == ss[i];
      ConcatHas(ss[..|ss| - 1], i, x);
    }
  }

  lemma {:induction false} ConcatFrom<T>(ss: seq<seq<T>>, x: T)
    requires x in Concat(ss)
    ensures exists i :: 0 <= i < |ss| && x in ss[i]
  {
    var n := |ss| - 1;
    if x in Concat(ss[..n]) {
      ConcatFrom(ss[..n], x);
      var i :| 0 <= i < n && x in ss[..n][i];
      assert x in ss[i];
    } else {
      assert x in ss[n];
    }
  }

  lemma AgreeSplit(a: seq<Slot>, b: seq<Slot>, x: seq<Cell>, y: seq<Cell>, mem: Memory)
    requires |a| == |x| && |b| == |y|
    ensures Agree(a + b, x + y, mem) <==> Agree(a, x, mem) && Agree(b, y, mem)
  {
    if Agree(a + b, x + y, mem) {
      forall i | 0 <= i < |a| ensures a[i].addr < |mem| && mem[a[i].addr] == x[i] {
        assert (a + b)[i] == a[i] && (x + y)[i] == x[i];
      }
      forall i | 0 <= i < |b| ensures b[i].addr < |mem| && mem[b[i].addr] == y[i] {
        assert (a + b)[|a| + i] == b[i] && (x + y)[|x| + i] == y[i];
      }
    }
  }

  /** The rows' accesses agree together exactly when each row's do. */
  lemma {:induction false} AgreeFlat(ss: seq<seq<Slot>>, vs: seq<seq<Cell>>, mem: Memory)
    requires |ss| == |vs| && forall i :: 0 <= i < |ss| ==> |ss[i]| == |vs[i]|
    ensures |Concat(ss)| == |Concat(vs)|
    ensures Agree(Concat(ss), Concat(vs), mem) <==> forall i :: 0 <= i < |ss| ==> Agree(ss[i], vs[i], mem)
  {
    hide Agree;
    if ss == [] {
      assert Agree([], [], mem) by { AgreeEmpty(mem); }
    } else {
      var n := |ss| - 1;
      AgreeFlat(ss[..n], vs[..n], mem);
      AgreeSplit(Concat(ss[..n]), ss[n], Concat(vs[..n]), vs[n], mem);
      assert forall i :: 0 <= i < n ==> ss[..n][i] == ss[i] && vs[..n][i] == vs[i];
    }
  }

  lemma AgreeEmpty(mem: Memory)
    ensures Agree([], [], mem)
  {
  }

  /** A table of the machine: its tag and the cells its entries copy. */
  datatype Table = Table(tag: nat, src: seq<nat>)

  predicate InMemory(src: seq<nat>, mem: Memory) { forall i :: 0 <= i < |src| ==> src[i] < |mem| }

  /** The values of the cells at src. */
  function Load(mem: Memory, src: seq<nat>): (r: seq<Cell>)
    requires InMemory(src, mem)
    ensures |r| == |src| && forall i :: 0 <= i < |src| ==> r[i] == mem[src[i]]
  {
    seq(|src|, i requires 0 <= i < |src| => mem[src[i]])
  }

  datatype Write = Write(addr: nat, val: Cell)

  predicate WritesIn(ws: seq<Write>, n: nat) { forall i :: 0 <= i < |ws| ==> ws[i].addr < n }

  /** The memory holds every written value. */
  predicate Stored(ws: seq<Write>, mem: Memory) {
    WritesIn(ws, |mem|) && forall i :: 0 <= i < |ws| ==> mem[ws[i].addr] == ws[i].val
  }

  lemma StoredAppend(a: seq<Write>, b: seq<Write>, mem: Memory)
    ensures Stored(a + b, mem) <==> Stored(a, mem) && Stored(b, mem)
  {
    if Stored(a + b, mem) {
      forall i | 0 <= i < |a| ensures a[i].addr < |mem| && mem[a[i].addr] == a[i].val { assert (a + b)[i] == a[i]; }
      forall i | 0 <= i < |b| ensures b[i].addr < |mem| && mem[b[i].addr] == b[i].val { assert (a + b)[|a| + i] == b[i]; }
    }
  }

  /** The memory after the writes, in order. */
  function Apply(mem: Memory, ws: seq<Write>): (r: Memory)
    requires WritesIn(ws, |mem|)
    ensures |r| == |mem|
  {
    if ws == [] then mem
    else
      var last := ws[|ws| - 1];
      Apply(mem, ws[..|ws| - 1])[last.addr := last.val]
  }

  lemma ApplyOne(mem: Memory, ws: seq<Write>, w: Write)
    requires WritesIn(ws, |mem|) && w.addr < |mem|
    ensures WritesIn(ws + [w], |mem|) && Apply(mem, ws + [w]) == Apply(mem, ws)[w.addr := w.val]
  {
    assert (ws + [w])[..|ws|] == ws;
  }

  datatype Option<+T> = None | Some(value: T)

  /** One execution of a program: the cells' values, the compressions recorded for
      the P2 core, and the read counts of the table entries (table tag, index). */
  class Run {
    var values: Memory
    var p2: seq<(Cell, Cell)>
    var tableReads: multiset<(nat, nat)>

    constructor (nCells: nat)
      ensures values == seq(nCells, i => ZeroCell) && p2 == [] && tableReads == multiset{}
    {
      values := seq(nCells, i => ZeroCell);
      p2 := [];
      tableReads := multiset{};
    }
  }
}
