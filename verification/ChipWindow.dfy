/** The window chip: windows of a stream of cells, and the blocks they pin. */
module ChipWindow {
  import opened KoalaBear
  import opened Constraints
  import opened Cells

  /** A window row: the item (read, or written) is the kind elements at offset off of the
      cell p, continued in q when they do not fit. */
  datatype Window = Window(p: nat, q: Option<nat>, item: Slot, off: nat, kind: nat)

  predicate ValidWindow(w: Window) { w.off < CellWidth && 1 <= w.kind <= CellWidth }

  datatype Row = Row(p: Cell, q: Cell, i: Cell)

  /** Lane j of p and q side by side. */
  function W(row: Row, j: nat): int
    requires j < 2 * CellWidth
  { if j < CellWidth then Lane(row.p, j) else Lane(row.q, j - CellWidth) }

  /** The sum of off_o * W(o + k) for o < n, off one-hot. */
  function Selected(off: nat, row: Row, k: nat, n: nat): int
    requires n <= CellWidth && k < CellWidth
  {
    if n == 0 then 0 else Selected(off, row, k, n - 1) + Bit(n - 1 == off) * W(row, n - 1 + k)
  }

  /** len_k: the item has more than k lanes; lane 0 has no selector. */
  function LenAt(kind: nat, k: nat): int { if k == 0 then 1 else Bit(k < kind) }

  /** i_k = len_k * sum_o off_o * W(o + k). */
  predicate LaneOk(w: Window, row: Row, k: nat)
    requires k < CellWidth
  {
    Zero(Lane(row.i, k) - LenAt(w.kind, k) * Selected(w.off, row, k, CellWidth))
  }

  predicate RowOk(w: Window, row: Row) { forall k :: 0 <= k < CellWidth ==> LaneOk(w, row, k) }

  lemma {:induction false} OneHot(off: nat, row: Row, k: nat, n: nat)
    requires n <= CellWidth && k < CellWidth
    ensures Selected(off, row, k, n) == if off < n then W(row, off + k) else 0
  {
    if n > 0 {
      OneHot(off, row, k, n - 1);
      Gate(Bit(n - 1 == off), W(row, n - 1 + k));
    }
  }

  /** The constraint with the selectors resolved. */
  lemma LaneMeans(w: Window, row: Row, k: nat)
    requires ValidWindow(w) && k < CellWidth
    ensures LaneOk(w, row, k) <==> row.i[k] == if k < w.kind then W(row, w.off + k) else 0
  {
    OneHot(w.off, row, k, CellWidth);
    Gate(LenAt(w.kind, k), Selected(w.off, row, k, CellWidth));
    Reduced(row.i[k], if k < w.kind then W(row, w.off + k) else 0);
  }

  lemma Reduced(x: Elt, y: int)
    requires 0 <= y < P
    ensures Zero(x - y) <==> x == y
  {
  }

  // ---- streams ----

  /** Element g of the cells at stream. */
  function StreamLane(mem: Memory, stream: seq<nat>, g: nat): Elt
    requires InMemory(stream, mem) && g < CellWidth * |stream|
  {
    mem[stream[g / CellWidth]][g % CellWidth]
  }

  /** The window of kind elements from element g of a stream. */
  function WindowAt(stream: seq<nat>, g: nat, kind: nat, item: Slot): Window
    requires 1 <= kind && g + kind <= CellWidth * |stream|
  {
    var c, off := g / CellWidth, g % CellWidth;
    Window(stream[c], if off + kind > CellWidth then Some(stream[c + 1]) else None, item, off, kind)
  }

  predicate Addressed(w: Window, mem: Memory) {
    w.p < |mem| && (w.q.Some? ==> w.q.value < |mem|) && w.item.addr < |mem|
  }

  /** The row reads and writes what the memory holds. */
  predicate Agrees(w: Window, row: Row, mem: Memory) {
    Addressed(w, mem) && row.p == mem[w.p] && (w.q.Some? ==> row.q == mem[w.q.value]) && row.i == mem[w.item.addr]
  }

  /** The row as traced: q is zero when it is not read. */
  function RowOf(w: Window, mem: Memory): Row
    requires Addressed(w, mem)
  {
    Row(mem[w.p], if w.q.Some? then mem[w.q.value] else ZeroCell, mem[w.item.addr])
  }

  /** The item is the stream's elements from g, and zero beyond its kind. */
  predicate CoversLane(mem: Memory, stream: seq<nat>, g: nat, kind: nat, item: Cell, k: nat)
    requires InMemory(stream, mem) && g + kind <= CellWidth * |stream| && k < CellWidth
  {
    item[k] == if k < kind then StreamLane(mem, stream, g + k) else 0
  }

  predicate Covers(mem: Memory, stream: seq<nat>, g: nat, kind: nat, item: Cell)
    requires InMemory(stream, mem) && g + kind <= CellWidth * |stream|
  {
    forall k :: 0 <= k < CellWidth ==> CoversLane(mem, stream, g, kind, item, k)
  }

  lemma WindowLane(stream: seq<nat>, g: nat, kind: nat, item: Slot, mem: Memory, row: Row, k: nat)
    requires 1 <= kind <= CellWidth && g + kind <= CellWidth * |stream| && InMemory(stream, mem) && k < kind
    requires Agrees(WindowAt(stream, g, kind, item), row, mem)
    ensures W(row, g % CellWidth + k) == StreamLane(mem, stream, g + k)
  {
    var off := g % CellWidth;
    if off + k < CellWidth {
      assert (g + k) / CellWidth == g / CellWidth && (g + k) % CellWidth == off + k;
    } else {
      assert (g + k) / CellWidth == g / CellWidth + 1 && (g + k) % CellWidth == off + k - CellWidth;
    }
  }

  /** A window row that meets its constraint and its accesses states exactly that its item
      covers the stream; the q lanes of a row that does not read q are irrelevant. */
  lemma WindowMeans(stream: seq<nat>, g: nat, kind: nat, item: Slot, mem: Memory, row: Row)
    requires 1 <= kind <= CellWidth && g + kind <= CellWidth * |stream| && InMemory(stream, mem)
    requires Agrees(WindowAt(stream, g, kind, item), row, mem)
    ensures RowOk(WindowAt(stream, g, kind, item), row) <==> Covers(mem, stream, g, kind, mem[item.addr])
  {
    hide LaneOk, CoversLane;
    var w := WindowAt(stream, g, kind, item);
    forall k | 0 <= k < CellWidth ensures LaneOk(w, row, k) <==> CoversLane(mem, stream, g, kind, mem[item.addr], k) {
      WindowLaneMeans(stream, g, kind, item, mem, row, k);
    }
  }

  lemma WindowLaneMeans(stream: seq<nat>, g: nat, kind: nat, item: Slot, mem: Memory, row: Row, k: nat)
    requires 1 <= kind <= CellWidth && g + kind <= CellWidth * |stream| && InMemory(stream, mem) && k < CellWidth
    requires Agrees(WindowAt(stream, g, kind, item), row, mem)
    ensures LaneOk(WindowAt(stream, g, kind, item), row, k) <==> CoversLane(mem, stream, g, kind, mem[item.addr], k)
  {
    hide LaneOk, StreamLane;
    LaneMeans(WindowAt(stream, g, kind, item), row, k);
    if k < kind { WindowLane(stream, g, kind, item, mem, row, k); }
  }

  // ---- memory accesses ----

  function RowSlots(w: Window): seq<Slot> {
    [Slot(w.p, false), w.item] + if w.q.Some? then [Slot(w.q.value, false)] else []
  }

  function RowVals(w: Window, row: Row): (r: seq<Cell>)
    ensures |r| == |RowSlots(w)|
  {
    [row.p, row.i] + if w.q.Some? then [row.q] else []
  }

  lemma RowAgrees(w: Window, row: Row, mem: Memory)
    ensures Agree(RowSlots(w), RowVals(w, row), mem) <==> Agrees(w, row, mem)
  {
    var s, v := RowSlots(w), RowVals(w, row);
    assert s[0].addr == w.p && v[0] == row.p && s[1].addr == w.item.addr && v[1] == row.i;
    if w.q.Some? { assert s[2].addr == w.q.value && v[2] == row.q; }
  }
}
