/** Pack lays items out as the blocks of a Merkle-Damgard hash; Lanes extracts lanes. */
module Packing {
  import opened KoalaBear
  import opened Constraints
  import opened Cells
  import opened ChipWindow

  // ---- the blocks a hasher compresses ----

  function StreamCells(length: nat): nat { (length + CellWidth - 1) / CellWidth }

  /** Cell c of the elements laid out contiguously, zero beyond them. */
  function StreamCell(flat: seq<Elt>, c: nat): Cell {
    seq(CellWidth, j requires 0 <= j < CellWidth => if c * CellWidth + j < |flat| then flat[c * CellWidth + j] else 0)
  }

  function Stream(flat: seq<Elt>): (r: seq<Cell>)
    ensures |r| == StreamCells(|flat|)
  {
    seq(StreamCells(|flat|), c requires 0 <= c < StreamCells(|flat|) => StreamCell(flat, c))
  }

  /** The cell whose lane j is lane (j + r) mod 8. */
  function Rotated(c: Cell, r: nat): Cell {
    seq(CellWidth, j requires 0 <= j < CellWidth => c[(j + r) % CellWidth])
  }

  function Zeros(n: nat): (r: seq<Elt>)
    ensures |r| == n && forall i :: 0 <= i < n ==> r[i] == 0
  { seq(n, i => 0) }

  /** The blocks of a flat buffer: the last partial one right-aligned. */
  function Blocks(flat: seq<Elt>): (r: seq<Cell>)
    ensures |r| == StreamCells(|flat|)
  {
    var s := Stream(flat);
    var rem := |flat| % CellWidth;
    if rem == 0 then s else s[|s| - 1 := Rotated(s[|s| - 1], rem)]
  }

  /** Whole blocks hold their elements in order; the last partial block is left-padded with
      zeros, as the hasher pads it. */
  lemma BlocksPad(flat: seq<Elt>, c: nat)
    requires c < StreamCells(|flat|)
    ensures var from := c * CellWidth;
      from < |flat| && Blocks(flat)[c] ==
        if from + CellWidth <= |flat| then flat[from..from + CellWidth]
        else Zeros(CellWidth - (|flat| - from)) + flat[from..]
  {
    var from := c * CellWidth;
    if from + CellWidth > |flat| {
      var rem := |flat| % CellWidth;
      assert rem == |flat| - from;
      forall j | 0 <= j < CellWidth
        ensures Rotated(StreamCell(flat, c), rem)[j] == (Zeros(CellWidth - rem) + flat[from..])[j]
      {
        if j + rem < CellWidth { assert (j + rem) % CellWidth == j + rem; } else { assert (j + rem) % CellWidth == j + rem - CellWidth; }
      }
    }
  }

  method Rotate(c: Cell, r: nat) returns (res: Cell)
    ensures res == Rotated(c, r)
  {
    var a := new Elt[CellWidth](i => 0);
    for j := 0 to CellWidth
      invariant forall i :: 0 <= i < j ==> a[i] == c[(i + r) % CellWidth]
    {
      a[j] := c[(j + r) % CellWidth];
    }
    res := a[..];
  }

  /** Fills one cell of a stream. */
  method FillCell(flat: seq<Elt>, c: nat) returns (res: Cell)
    ensures res == StreamCell(flat, c)
  {
    var a := new Elt[CellWidth](i => 0);
    for j := 0 to CellWidth
      invariant forall i :: 0 <= i < j ==> a[i] == StreamCell(flat, c)[i]
      invariant forall i :: j <= i < CellWidth ==> a[i] == 0
    {
      var p := c * CellWidth + j;
      if p < |flat| { a[j] := flat[p]; }
    }
    res := a[..];
  }

  method MDBlocks(start: nat, xs: seq<Elt>) returns (res: seq<Cell>)
    ensures res == Blocks(Zeros(start) + xs)
  {
    var flat := Zeros(start) + xs;
    res := [];
    for c := 0 to StreamCells(|flat|)
      invariant |res| == c && forall i :: 0 <= i < c ==> res[i] == StreamCell(flat, i)
    {
      var v := FillCell(flat, c);
      res := res + [v];
    }
    assert res == Stream(flat);
    var rem := |flat| % CellWidth;
    if rem != 0 {
      var v := Rotate(res[|res| - 1], rem);
      res := res[|res| - 1 := v];
    }
  }

  // ---- the instruction ----

  /** The items and their kinds after start buffered zeros, the stream cells, the rotated
      last block if the stream ends in a partial cell, and the cell of the zero constant. */
  datatype Pack = Pack(start: nat, items: seq<nat>, kinds: seq<nat>, stream: seq<nat>, last: Option<nat>, zero: nat)

  /** The position of item n in the stream. */
  function Offset(p: Pack, n: nat): nat
    requires n <= |p.kinds|
  {
    if n == 0 then p.start else Offset(p, n - 1) + p.kinds[n - 1]
  }

  function Length(p: Pack): nat { Offset(p, |p.kinds|) }

  predicate Valid(p: Pack) {
    && |p.items| == |p.kinds| && p.start < CellWidth
    && (forall i :: 0 <= i < |p.kinds| ==> 1 <= p.kinds[i] <= CellWidth)
    && |p.stream| == StreamCells(Length(p))
    && p.last.Some? == (Length(p) % CellWidth != 0)
  }

  predicate InBounds(p: Pack, mem: Memory) {
    && InMemory(p.items, mem) && InMemory(p.stream, mem)
    && (p.last.Some? ==> p.last.value < |mem|) && p.zero < |mem|
  }

  /** The start zeros and the first n items' lanes. */
  function Flat(p: Pack, mem: Memory, n: nat): (r: seq<Elt>)
    requires Valid(p) && InBounds(p, mem) && n <= |p.items|
    ensures |r| == Offset(p, n)
  {
    if n == 0 then Zeros(p.start) else Flat(p, mem, n - 1) + mem[p.items[n - 1]][..p.kinds[n - 1]]
  }

  function FlatOf(p: Pack, mem: Memory): (r: seq<Elt>)
    requires Valid(p) && InBounds(p, mem)
    ensures |r| == Length(p)
  { Flat(p, mem, |p.items|) }

  lemma {:induction false} OffsetMono(p: Pack, m: nat, n: nat)
    requires m <= n <= |p.kinds|
    ensures Offset(p, m) <= Offset(p, n)
    decreases n
  {
    if m < n { OffsetMono(p, m, n - 1); }
  }

  lemma ItemFits(p: Pack, i: nat)
    requires Valid(p) && i <= |p.items|
    ensures Offset(p, i) <= CellWidth * |p.stream| && (i < |p.items| ==> Offset(p, i) + p.kinds[i] <= CellWidth * |p.stream|)
  {
    hide Offset, StreamCells;
    CeilFits(Length(p));
    OffsetMono(p, i, |p.kinds|);
    if i < |p.items| {
      OffsetMono(p, i + 1, |p.kinds|);
      OffsetStep(p, i);
    }
  }

  lemma OffsetStep(p: Pack, i: nat)
    requires i < |p.kinds|
    ensures Offset(p, i + 1) == Offset(p, i) + p.kinds[i]
  {
  }

  lemma CeilFits(length: nat)
    ensures length <= CellWidth * StreamCells(length)
  {
  }

  lemma LastCell(p: Pack)
    requires Valid(p) && p.last.Some?
    ensures p.stream != [] && (|p.stream| - 1) * CellWidth + Length(p) % CellWidth == Length(p)
  {
  }

  /** The last stream cell and the elements it holds. */
  function Tail(p: Pack): nat
    requires p.stream != []
  { p.stream[|p.stream| - 1] }

  function Rem(p: Pack): nat { Length(p) % CellWidth }

  // ---- what the window rows pin ----

  predicate ItemCovered(p: Pack, mem: Memory, i: nat)
    requires Valid(p) && InBounds(p, mem) && i < |p.items|
  {
    ItemFits(p, i);
    Covers(mem, p.stream, Offset(p, i), p.kinds[i], mem[p.items[i]])
  }

  predicate StartCovered(p: Pack, mem: Memory)
    requires Valid(p) && InBounds(p, mem)
  {
    p.start > 0 ==> (ItemFits(p, 0); Covers(mem, p.stream, 0, p.start, mem[p.zero]))
  }

  predicate LastCovered(p: Pack, mem: Memory)
    requires Valid(p) && InBounds(p, mem)
  {
    p.last.Some? ==> (
      LastCell(p);
      && Covers(mem, [Tail(p)], Rem(p), CellWidth - Rem(p), mem[p.zero])
      && Covers(mem, [Tail(p), Tail(p)], Rem(p), CellWidth, mem[p.last.value]))
  }

  /** Every window row of the pack holds. */
  predicate Covered(p: Pack, mem: Memory)
    requires Valid(p) && InBounds(p, mem)
  {
    StartCovered(p, mem) && LastCovered(p, mem) && forall i :: 0 <= i < |p.items| ==> ItemCovered(p, mem, i)
  }

  /** Element g of the layout: an item's lane, or a zero. */
  function Want(p: Pack, mem: Memory, g: nat): Elt
    requires Valid(p) && InBounds(p, mem)
  { if g < Length(p) then FlatOf(p, mem)[g] else 0 }

  lemma {:induction false} PrefixPinned(p: Pack, mem: Memory, n: nat, g: nat)
    requires Valid(p) && InBounds(p, mem) && mem[p.zero] == ZeroCell && Covered(p, mem)
    requires n <= |p.items| && g < Offset(p, n)
    ensures g < CellWidth * |p.stream| && StreamLane(mem, p.stream, g) == Flat(p, mem, n)[g]
    decreases n
  {
    hide StreamLane, Offset, LastCovered, Covers;
    ItemFits(p, n);
    if n == 0 {
      FlatStart(p, mem);
      CoveredLane(mem, p.stream, 0, p.start, mem[p.zero], g);
    } else {
      OffsetStep(p, n - 1);
      ItemFits(p, n - 1);
      var from := Offset(p, n - 1);
      if g < from {
        PrefixPinned(p, mem, n - 1, g);
      } else {
        assert ItemCovered(p, mem, n - 1);
        CoveredLane(mem, p.stream, from, p.kinds[n - 1], mem[p.items[n - 1]], g - from);
      }
    }
  }

  lemma FlatStart(p: Pack, mem: Memory)
    requires Valid(p) && InBounds(p, mem)
    ensures Offset(p, 0) == p.start && Flat(p, mem, 0) == Zeros(p.start)
  {
  }

  lemma CoveredLane(mem: Memory, stream: seq<nat>, g: nat, kind: nat, item: Cell, k: nat)
    requires InMemory(stream, mem) && g + kind <= CellWidth * |stream| && k < CellWidth && Covers(mem, stream, g, kind, item)
    ensures item[k] == if k < kind then StreamLane(mem, stream, g + k) else 0
  {
    assert CoversLane(mem, stream, g, kind, item, k);
  }

  lemma PairLane(mem: Memory, t: nat, g: nat)
    requires t < |mem| && g < 2 * CellWidth
    ensures StreamLane(mem, [t, t], g) == mem[t][g % CellWidth]
    ensures g < CellWidth ==> StreamLane(mem, [t], g) == mem[t][g]
  {
    assert g / CellWidth == 0 || g / CellWidth == 1;
  }

  /** Every lane of the stream is determined: the start zeros, the items, the padding. */
  lemma LanePinned(p: Pack, mem: Memory, c: nat, j: nat)
    requires Valid(p) && InBounds(p, mem) && mem[p.zero] == ZeroCell && Covered(p, mem)
    requires c < |p.stream| && j < CellWidth
    ensures mem[p.stream[c]][j] == Want(p, mem, c * CellWidth + j)
  {
    hide Offset, Flat, Covers, StartCovered, ItemCovered;
    var g := c * CellWidth + j;
    LaneOf(mem, p.stream, c, j);
    if g < Length(p) {
      PrefixPinned(p, mem, |p.items|, g);
    } else {
      LastCellIndex(p, c, j);
      LastCell(p);
      CoveredLane(mem, [Tail(p)], Rem(p), CellWidth - Rem(p), mem[p.zero], j - Rem(p));
      PairLane(mem, Tail(p), j);
    }
  }

  lemma LaneOf(mem: Memory, stream: seq<nat>, c: nat, j: nat)
    requires InMemory(stream, mem) && c < |stream| && j < CellWidth
    ensures c * CellWidth + j < CellWidth * |stream|
    ensures StreamLane(mem, stream, c * CellWidth + j) == mem[stream[c]][j]
  {
    assert (c * CellWidth + j) / CellWidth == c && (c * CellWidth + j) % CellWidth == j;
  }

  lemma LastCellIndex(p: Pack, c: nat, j: nat)
    requires Valid(p) && c < |p.stream| && j < CellWidth && c * CellWidth + j >= Length(p)
    ensures c == |p.stream| - 1 && p.last.Some? && Rem(p) <= j
  {
    hide Offset;
  }

  /** The blocks a pack returns: its stream, the last cell replaced by its rotation. */
  function BlockCells(p: Pack): (r: seq<nat>)
    ensures |r| == |p.stream|
  {
    if p.last.Some? && p.stream != [] then p.stream[|p.stream| - 1 := p.last.value] else p.stream
  }

  /** Execution's values: the stream, the rotated last cell, and items within their kinds. */
  predicate Packed(p: Pack, mem: Memory)
    requires Valid(p) && InBounds(p, mem)
  {
    && (forall c :: 0 <= c < |p.stream| ==> mem[p.stream[c]] == StreamCell(FlatOf(p, mem), c))
    && (p.last.Some? ==> (LastCell(p); mem[p.last.value] == Rotated(mem[Tail(p)], Rem(p))))
    && (forall i :: 0 <= i < |p.items| ==> HasKind(mem[p.items[i]], p.kinds[i]))
  }

  lemma LastRotated(p: Pack, mem: Memory)
    requires Valid(p) && InBounds(p, mem) && p.last.Some?
    ensures p.stream != []
    ensures mem[p.last.value] == Rotated(mem[Tail(p)], Rem(p)) <==> Covers(mem, [Tail(p), Tail(p)], Rem(p), CellWidth, mem[p.last.value])
  {
    hide Offset;
    LastCell(p);
    var t, rem, out := Tail(p), Rem(p), mem[p.last.value];
    forall k | 0 <= k < CellWidth ensures CoversLane(mem, [t, t], rem, CellWidth, out, k) <==> out[k] == Rotated(mem[t], rem)[k] {
      PairLane(mem, t, rem + k);
    }
    if Covers(mem, [t, t], rem, CellWidth, out) {
      forall k | 0 <= k < CellWidth ensures out[k] == Rotated(mem[t], rem)[k] { assert CoversLane(mem, [t, t], rem, CellWidth, out, k); }
    }
  }

  lemma PackedItem(p: Pack, mem: Memory, i: nat)
    requires Valid(p) && InBounds(p, mem) && i < |p.items| && ItemCovered(p, mem, i)
    ensures HasKind(mem[p.items[i]], p.kinds[i])
  {
    hide Offset, Covers;
    ItemFits(p, i);
    forall k | p.kinds[i] <= k < CellWidth ensures mem[p.items[i]][k] == 0 {
      CoveredLane(mem, p.stream, Offset(p, i), p.kinds[i], mem[p.items[i]], k);
    }
  }

  /** The window rows force exactly the values execution computes. */
  lemma CoveredIsPacked(p: Pack, mem: Memory)
    requires Valid(p) && InBounds(p, mem) && mem[p.zero] == ZeroCell && Covered(p, mem)
    ensures Packed(p, mem)
  {
    hide Offset, Flat, Covers, StartCovered, ItemCovered;
    forall c | 0 <= c < |p.stream| ensures mem[p.stream[c]] == StreamCell(FlatOf(p, mem), c) {
      forall j | 0 <= j < CellWidth ensures mem[p.stream[c]][j] == StreamCell(FlatOf(p, mem), c)[j] { LanePinned(p, mem, c, j); }
    }
    if p.last.Some? { LastRotated(p, mem); }
    forall i | 0 <= i < |p.items| ensures HasKind(mem[p.items[i]], p.kinds[i]) { PackedItem(p, mem, i); }
  }

  lemma FlatItem(p: Pack, mem: Memory, n: nat, i: nat, k: nat)
    requires Valid(p) && InBounds(p, mem) && i < n <= |p.items| && k < p.kinds[i]
    ensures Offset(p, i) + k < Offset(p, n) && Flat(p, mem, n)[Offset(p, i) + k] == mem[p.items[i]][k]
    decreases n
  {
    hide Offset, Valid;
    KindFits(p, n - 1);
    OffsetStep(p, n - 1);
    if i < n - 1 {
      FlatItem(p, mem, n - 1, i, k);
    }
  }

  lemma KindFits(p: Pack, i: nat)
    requires Valid(p) && i < |p.items|
    ensures |p.kinds| == |p.items| && p.kinds[i] <= CellWidth
  {
  }

  lemma FlatStartLane(p: Pack, mem: Memory, n: nat, k: nat)
    requires Valid(p) && InBounds(p, mem) && n <= |p.items| && k < p.start
    ensures k < Offset(p, n) && Flat(p, mem, n)[k] == 0
    decreases n
  {
    if n > 0 { FlatStartLane(p, mem, n - 1, k); }
  }

  lemma PackedLane(p: Pack, mem: Memory, g: nat)
    requires Valid(p) && InBounds(p, mem) && Packed(p, mem) && g < CellWidth * |p.stream|
    ensures StreamLane(mem, p.stream, g) == Want(p, mem, g)
  {
    hide Offset, Flat;
    var c, j := g / CellWidth, g % CellWidth;
    assert g == c * CellWidth + j;
    assert mem[p.stream[c]] == StreamCell(FlatOf(p, mem), c);
  }

  lemma PackedItemCovered(p: Pack, mem: Memory, i: nat)
    requires Valid(p) && InBounds(p, mem) && Packed(p, mem) && i < |p.items|
    ensures ItemCovered(p, mem, i)
  {
    hide Offset, Flat, StreamLane;
    ItemFits(p, i);
    var from, kind, item := Offset(p, i), p.kinds[i], mem[p.items[i]];
    forall k | 0 <= k < CellWidth ensures CoversLane(mem, p.stream, from, kind, item, k) {
      if k < kind {
        FlatItem(p, mem, |p.items|, i, k);
        PackedLane(p, mem, from + k);
      } else {
        assert HasKind(item, kind);
      }
    }
  }

  lemma PackedStartCovered(p: Pack, mem: Memory)
    requires Valid(p) && InBounds(p, mem) && Packed(p, mem) && mem[p.zero] == ZeroCell
    ensures StartCovered(p, mem)
  {
    hide Flat, StreamLane;
    ItemFits(p, 0);
    if p.start > 0 {
      forall k | 0 <= k < CellWidth ensures CoversLane(mem, p.stream, 0, p.start, mem[p.zero], k) {
        if k < p.start {
          FlatStartLane(p, mem, |p.items|, k);
          PackedLane(p, mem, k);
        }
      }
    }
  }

  lemma PackedLastCovered(p: Pack, mem: Memory)
    requires Valid(p) && InBounds(p, mem) && Packed(p, mem) && mem[p.zero] == ZeroCell
    ensures LastCovered(p, mem)
  {
    hide Offset, Flat, StreamLane;
    if p.last.Some? {
      LastCell(p);
      LastRotated(p, mem);
      var t, rem, pad := Tail(p), Rem(p), CellWidth - Rem(p);
      forall k | 0 <= k < CellWidth ensures CoversLane(mem, [t], rem, pad, mem[p.zero], k) {
        if k < pad {
          PairLane(mem, t, rem + k);
          assert mem[t] == StreamCell(FlatOf(p, mem), |p.stream| - 1);
        }
      }
    }
  }

  /** The converse: execution's values meet every window row. */
  lemma PackedIsCovered(p: Pack, mem: Memory)
    requires Valid(p) && InBounds(p, mem) && Packed(p, mem) && mem[p.zero] == ZeroCell
    ensures Covered(p, mem)
  {
    hide Packed, ItemCovered, StartCovered, LastCovered;
    PackedStartCovered(p, mem);
    PackedLastCovered(p, mem);
    forall i | 0 <= i < |p.items| ensures ItemCovered(p, mem, i) { PackedItemCovered(p, mem, i); }
  }

  /** The returned cells hold the blocks the hasher compresses for the items' elements. */
  lemma PackedBlocks(p: Pack, mem: Memory)
    requires Valid(p) && InBounds(p, mem) && Packed(p, mem)
    ensures InMemory(BlockCells(p), mem) && Load(mem, BlockCells(p)) == Blocks(FlatOf(p, mem))
  {
    hide Offset, Flat, StreamCell;
    if p.last.Some? { LastCell(p); }
    var want := Blocks(FlatOf(p, mem));
    forall c | 0 <= c < |p.stream| ensures mem[BlockCells(p)[c]] == want[c] {
      assert mem[p.stream[c]] == StreamCell(FlatOf(p, mem), c);
    }
  }

  // ---- the window rows ----

  function ItemWindow(p: Pack, i: nat): Window
    requires Valid(p) && i < |p.items|
  {
    ItemFits(p, i);
    WindowAt(p.stream, Offset(p, i), p.kinds[i], Slot(p.items[i], false))
  }

  function StartWindows(p: Pack): seq<Window>
    requires Valid(p)
  {
    ItemFits(p, 0);
    if p.start > 0 then [WindowAt(p.stream, 0, p.start, Slot(p.zero, false))] else []
  }

  function ItemWindows(p: Pack): seq<Window>
    requires Valid(p)
  { seq(|p.items|, i requires 0 <= i < |p.items| => ItemWindow(p, i)) }

  /** The last cell's padding pinned to zero, and its rotation written. */
  function LastWindows(p: Pack): seq<Window>
    requires Valid(p)
  {
    if p.last.None? then []
    else
      LastCell(p);
      [WindowAt([Tail(p)], Rem(p), CellWidth - Rem(p), Slot(p.zero, false)),
       WindowAt([Tail(p), Tail(p)], Rem(p), CellWidth, Slot(p.last.value, true))]
  }

  /** The window rows of a pack, in the order it adds them. */
  function Windows(p: Pack): seq<Window>
    requires Valid(p)
  { StartWindows(p) + ItemWindows(p) + LastWindows(p) }

  /** Every window has a row that meets its constraint and the accesses. */
  ghost predicate RowsHold(ws: seq<Window>, rows: seq<Row>, mem: Memory) {
    |rows| == |ws| && forall i :: 0 <= i < |ws| ==> RowOk(ws[i], rows[i]) && Agrees(ws[i], rows[i], mem)
  }

  lemma StartRowsCovered(p: Pack, mem: Memory, rows: seq<Row>)
    requires Valid(p) && InBounds(p, mem) && RowsHold(StartWindows(p), rows, mem)
    ensures StartCovered(p, mem)
  {
    hide Covers, RowOk, WindowAt;
    ItemFits(p, 0);
    if p.start > 0 { WindowMeans(p.stream, 0, p.start, Slot(p.zero, false), mem, rows[0]); }
  }

  lemma ItemRowCovered(p: Pack, mem: Memory, i: nat, row: Row)
    requires Valid(p) && InBounds(p, mem) && i < |p.items| && RowOk(ItemWindow(p, i), row) && Agrees(ItemWindow(p, i), row, mem)
    ensures ItemCovered(p, mem, i)
  {
    hide Covers, RowOk, WindowAt;
    ItemFits(p, i);
    WindowMeans(p.stream, Offset(p, i), p.kinds[i], Slot(p.items[i], false), mem, row);
  }

  lemma LastRowsCovered(p: Pack, mem: Memory, rows: seq<Row>)
    requires Valid(p) && InBounds(p, mem) && RowsHold(LastWindows(p), rows, mem)
    ensures LastCovered(p, mem)
  {
    hide Covers, RowOk, WindowAt;
    if p.last.Some? {
      LastCell(p);
      WindowMeans([Tail(p)], Rem(p), CellWidth - Rem(p), Slot(p.zero, false), mem, rows[0]);
      WindowMeans([Tail(p), Tail(p)], Rem(p), CellWidth, Slot(p.last.value, true), mem, rows[1]);
    }
  }

  lemma RowsSplit(a: seq<Window>, b: seq<Window>, rows: seq<Row>, mem: Memory)
    requires RowsHold(a + b, rows, mem)
    ensures RowsHold(a, rows[..|a|], mem) && RowsHold(b, rows[|a|..], mem)
  {
    hide RowOk, Agrees;
    forall i | 0 <= i < |a| ensures RowOk(a[i], rows[..|a|][i]) && Agrees(a[i], rows[..|a|][i], mem) {
      assert (a + b)[i] == a[i];
    }
    forall i | 0 <= i < |b| ensures RowOk(b[i], rows[|a|..][i]) && Agrees(b[i], rows[|a|..][i], mem) {
      assert (a + b)[|a| + i] == b[i];
    }
  }

  /** Soundness: any stream cells meeting the window rows hold what execution computes, on
      every lane, and the returned cells are the hasher's blocks of the items' elements. */
  lemma PackSound(p: Pack, mem: Memory, rows: seq<Row>)
    requires Valid(p) && InBounds(p, mem) && mem[p.zero] == ZeroCell && RowsHold(Windows(p), rows, mem)
    ensures Packed(p, mem)
    ensures InMemory(BlockCells(p), mem) && Load(mem, BlockCells(p)) == Blocks(FlatOf(p, mem))
  {
    hide StartWindows, LastWindows, StartCovered, LastCovered, ItemCovered, Packed, ItemWindow, RowOk, Agrees;
    var front := StartWindows(p) + ItemWindows(p);
    RowsSplit(front, LastWindows(p), rows, mem);
    var head := rows[..|front|];
    RowsSplit(StartWindows(p), ItemWindows(p), head, mem);
    var items := head[|StartWindows(p)|..];
    StartRowsCovered(p, mem, head[..|StartWindows(p)|]);
    LastRowsCovered(p, mem, rows[|front|..]);
    forall i | 0 <= i < |p.items| ensures ItemCovered(p, mem, i) {
      assert ItemWindows(p)[i] == ItemWindow(p, i);
      ItemRowCovered(p, mem, i, items[i]);
    }
    CoveredIsPacked(p, mem);
    PackedBlocks(p, mem);
  }

  // ---- completeness ----

  predicate Traced(ws: seq<Window>, rows: seq<Row>, mem: Memory) {
    |rows| == |ws| && forall i :: 0 <= i < |ws| ==> Addressed(ws[i], mem) && rows[i] == RowOf(ws[i], mem)
  }

  lemma TracedRow(stream: seq<nat>, g: nat, kind: nat, item: Slot, mem: Memory, row: Row)
    requires 1 <= kind <= CellWidth && g + kind <= CellWidth * |stream| && InMemory(stream, mem) && item.addr < |mem|
    requires Covers(mem, stream, g, kind, mem[item.addr])
    requires var w := WindowAt(stream, g, kind, item); Addressed(w, mem) && row == RowOf(w, mem)
    ensures var w := WindowAt(stream, g, kind, item); RowOk(w, row) && Agrees(w, row, mem)
  {
    WindowMeans(stream, g, kind, item, mem, row);
  }

  lemma WindowInMemory(stream: seq<nat>, g: nat, kind: nat, item: Slot, mem: Memory)
    requires 1 <= kind <= CellWidth && g + kind <= CellWidth * |stream| && InMemory(stream, mem) && item.addr < |mem|
    ensures Addressed(WindowAt(stream, g, kind, item), mem)
  {
  }

  lemma ItemRowTraced(p: Pack, mem: Memory, i: nat)
    requires Valid(p) && InBounds(p, mem) && i < |p.items|
    ensures var w := ItemWindow(p, i);
      && Addressed(w, mem)
      && (ItemCovered(p, mem, i) ==> RowOk(w, RowOf(w, mem)) && Agrees(w, RowOf(w, mem), mem))
  {
    hide Offset, Covers, WindowAt, RowOk;
    ItemFits(p, i);
    WindowInMemory(p.stream, Offset(p, i), p.kinds[i], Slot(p.items[i], false), mem);
    if ItemCovered(p, mem, i) {
      TracedRow(p.stream, Offset(p, i), p.kinds[i], Slot(p.items[i], false), mem, RowOf(ItemWindow(p, i), mem));
    }
  }

  lemma StartRowTraced(p: Pack, mem: Memory)
    requires Valid(p) && InBounds(p, mem) && StartCovered(p, mem) && p.start > 0
    ensures var w := StartWindows(p)[0]; Addressed(w, mem) && RowOk(w, RowOf(w, mem)) && Agrees(w, RowOf(w, mem), mem)
  {
    hide Covers, WindowAt, RowOk;
    ItemFits(p, 0);
    WindowInMemory(p.stream, 0, p.start, Slot(p.zero, false), mem);
    TracedRow(p.stream, 0, p.start, Slot(p.zero, false), mem, RowOf(StartWindows(p)[0], mem));
  }

  lemma LastRowsTraced(p: Pack, mem: Memory, i: nat)
    requires Valid(p) && InBounds(p, mem) && LastCovered(p, mem) && i < |LastWindows(p)|
    ensures var w := LastWindows(p)[i]; Addressed(w, mem) && RowOk(w, RowOf(w, mem)) && Agrees(w, RowOf(w, mem), mem)
  {
    hide Offset, Covers, WindowAt, RowOk;
    LastCell(p);
    var t, rem := Tail(p), Rem(p);
    if i == 0 {
      WindowInMemory([t], rem, CellWidth - rem, Slot(p.zero, false), mem);
      TracedRow([t], rem, CellWidth - rem, Slot(p.zero, false), mem, RowOf(LastWindows(p)[0], mem));
    } else {
      WindowInMemory([t, t], rem, CellWidth, Slot(p.last.value, true), mem);
      TracedRow([t, t], rem, CellWidth, Slot(p.last.value, true), mem, RowOf(LastWindows(p)[1], mem));
    }
  }

  /** Completeness: execution's values, on items within their kinds, meet every window row. */
  lemma PackComplete(p: Pack, mem: Memory, rows: seq<Row>)
    requires Valid(p) && InBounds(p, mem) && mem[p.zero] == ZeroCell && Packed(p, mem)
    requires Traced(Windows(p), rows, mem)
    ensures RowsHold(Windows(p), rows, mem)
  {
    hide LastWindows, StartCovered, LastCovered, ItemCovered, Packed, ItemWindow, RowOk, Agrees, RowOf;
    PackedIsCovered(p, mem);
    var ws := Windows(p);
    forall k | 0 <= k < |ws| ensures RowOk(ws[k], rows[k]) && Agrees(ws[k], rows[k], mem) {
      var i := k - |StartWindows(p)|;
      if i < 0 {
        StartRowTraced(p, mem);
      } else if i < |p.items| {
        ItemRowTraced(p, mem, i);
      } else {
        LastRowsTraced(p, mem, i - |p.items|);
      }
    }
  }

  // ---- execution ----

  function StreamWrites(p: Pack, flat: seq<Elt>, n: nat): (ws: seq<Write>)
    requires n <= |p.stream|
    ensures |ws| == n
  { seq(n, c requires 0 <= c < n => Write(p.stream[c], StreamCell(flat, c))) }

  /** The cells execution writes. */
  function PackWrites(p: Pack, mem: Memory): (ws: seq<Write>)
    requires Valid(p) && InBounds(p, mem)
    ensures WritesIn(ws, |mem|)
  {
    var flat := FlatOf(p, mem);
    var ws := StreamWrites(p, flat, |p.stream|);
    if p.last.None? then ws
    else
      LastCell(p);
      ws + [Write(p.last.value, Rotated(StreamCell(flat, |p.stream| - 1), Rem(p)))]
  }

  /** The elements of the items after the start zeros. */
  method Flatten(p: Pack, mem: Memory) returns (flat: seq<Elt>)
    requires Valid(p) && InBounds(p, mem)
    ensures flat == FlatOf(p, mem)
  {
    flat := Zeros(p.start);
    for i := 0 to |p.items|
      invariant flat == Flat(p, mem, i)
    {
      flat := flat + mem[p.items[i]][..p.kinds[i]];
    }
  }

  method ExecPack(p: Pack, r: Run)
    requires Valid(p) && InBounds(p, r.values)
    modifies r`values
    ensures r.values == Apply(old(r.values), PackWrites(p, old(r.values)))
  {
    hide Offset, StreamCell, Rotated, Valid;
    ghost var before := r.values;
    var flat := Flatten(p, r.values);
    for c := 0 to |p.stream|
      invariant |r.values| == |before| && r.values == Apply(before, StreamWrites(p, flat, c))
      invariant c > 0 ==> r.values[p.stream[c - 1]] == StreamCell(flat, c - 1)
    {
      var v := FillCell(flat, c);
      StreamWritesStep(p, flat, c, before);
      r.values := r.values[p.stream[c] := v];
    }
    if p.last.Some? {
      LastCell(p);
      var v := Rotate(r.values[p.stream[|p.stream| - 1]], |flat| % CellWidth);
      ApplyOne(before, StreamWrites(p, flat, |p.stream|), Write(p.last.value, v));
      r.values := r.values[p.last.value := v];
    }
  }

  lemma StreamWritesStep(p: Pack, flat: seq<Elt>, c: nat, mem: Memory)
    requires c < |p.stream| && InMemory(p.stream, mem)
    ensures WritesIn(StreamWrites(p, flat, c), |mem|) && WritesIn(StreamWrites(p, flat, c + 1), |mem|)
    ensures Apply(mem, StreamWrites(p, flat, c + 1)) == Apply(mem, StreamWrites(p, flat, c))[p.stream[c] := StreamCell(flat, c)]
  {
    hide StreamCell;
    var w := Write(p.stream[c], StreamCell(flat, c));
    assert StreamWrites(p, flat, c + 1) == StreamWrites(p, flat, c) + [w];
    ApplyOne(mem, StreamWrites(p, flat, c), w);
  }

  // ---- Lanes ----

  /** Lanes off..off+kind-1 of the cell src, in lanes 0..kind-1 of the cell out. */
  datatype LaneCopy = LaneCopy(src: nat, off: nat, kind: nat, out: nat)

  predicate ValidCopy(l: LaneCopy) { 1 <= l.kind && l.off + l.kind <= CellWidth }

  function CopiedLanes(c: Cell, off: nat, kind: nat): Cell
    requires off + kind <= CellWidth
  { c[off..off + kind] + Zeros(CellWidth - kind) }

  function CopyWindow(l: LaneCopy): Window
    requires ValidCopy(l)
  { WindowAt([l.src], l.off, l.kind, Slot(l.out, true)) }

  /** The row of a lane copy holds exactly when its output is the copied lanes, zero beyond. */
  lemma LanesExact(l: LaneCopy, mem: Memory, row: Row)
    requires ValidCopy(l) && l.src < |mem| && l.out < |mem| && Agrees(CopyWindow(l), row, mem)
    ensures RowOk(CopyWindow(l), row) <==> mem[l.out] == CopiedLanes(mem[l.src], l.off, l.kind)
  {
    hide RowOk;
    WindowMeans([l.src], l.off, l.kind, Slot(l.out, true), mem, row);
    var want := CopiedLanes(mem[l.src], l.off, l.kind);
    forall k | 0 <= k < CellWidth ensures CoversLane(mem, [l.src], l.off, l.kind, mem[l.out], k) <==> mem[l.out][k] == want[k] {
      if k < l.kind { PairLane(mem, l.src, l.off + k); }
    }
    if Covers(mem, [l.src], l.off, l.kind, mem[l.out]) {
      forall k | 0 <= k < CellWidth ensures mem[l.out][k] == want[k] { assert CoversLane(mem, [l.src], l.off, l.kind, mem[l.out], k); }
    }
  }

  method ExecLanes(l: LaneCopy, r: Run)
    requires ValidCopy(l) && l.src < |r.values| && l.out < |r.values|
    modifies r`values
    ensures r.values == old(r.values)[l.out := CopiedLanes(old(r.values)[l.src], l.off, l.kind)]
  {
    var c := new Elt[CellWidth](i => 0);
    var src := r.values[l.src];
    for k := 0 to l.kind
      invariant r.values == old(r.values)
      invariant forall i :: 0 <= i < k ==> c[i] == src[l.off + i]
      invariant forall i :: k <= i < CellWidth ==> c[i] == 0
    {
      c[k] := src[l.off + k];
    }
    assert c[..] == CopiedLanes(src, l.off, l.kind);
    r.values := r.values[l.out := c[..]];
  }

  // ---- memory accesses ----

  /** The witness chip writes the stream cells; the window rows read them and the items. */
  function HintSlots(p: Pack): (r: seq<Slot>)
    ensures |r| == |p.stream|
  { seq(|p.stream|, c requires 0 <= c < |p.stream| => Slot(p.stream[c], true)) }

  function WindowSlots(ws: seq<Window>): (r: seq<seq<Slot>>)
    ensures |r| == |ws|
  { seq(|ws|, i requires 0 <= i < |ws| => RowSlots(ws[i])) }

  function WindowVals(ws: seq<Window>, rows: seq<Row>): (r: seq<seq<Cell>>)
    requires |ws| == |rows|
    ensures |r| == |ws| && forall i :: 0 <= i < |ws| ==> |r[i]| == |WindowSlots(ws)[i]|
  { seq(|ws|, i requires 0 <= i < |ws| => RowVals(ws[i], rows[i])) }

  function Slots(p: Pack): seq<Slot>
    requires Valid(p)
  { HintSlots(p) + Concat(WindowSlots(Windows(p))) }

  function Vals(p: Pack, hints: seq<Cell>, rows: seq<Row>): seq<Cell>
    requires Valid(p) && |rows| == |Windows(p)|
  { hints + Concat(WindowVals(Windows(p), rows)) }

  predicate HintsAgree(p: Pack, hints: seq<Cell>, mem: Memory)
    requires |hints| == |p.stream|
  { InMemory(p.stream, mem) && forall c :: 0 <= c < |p.stream| ==> mem[p.stream[c]] == hints[c] }

  predicate RowsAgree(ws: seq<Window>, rows: seq<Row>, mem: Memory)
    requires |rows| == |ws|
  { forall i :: 0 <= i < |ws| ==> Agrees(ws[i], rows[i], mem) }

  lemma WindowsAgree(ws: seq<Window>, rows: seq<Row>, mem: Memory)
    requires |rows| == |ws|
    ensures |Concat(WindowSlots(ws))| == |Concat(WindowVals(ws, rows))|
    ensures Agree(Concat(WindowSlots(ws)), Concat(WindowVals(ws, rows)), mem) <==> RowsAgree(ws, rows, mem)
  {
    hide Agree, Agrees, RowSlots, RowVals;
    var s, v := WindowSlots(ws), WindowVals(ws, rows);
    AgreeFlat(s, v, mem);
    forall i | 0 <= i < |ws| ensures Agree(s[i], v[i], mem) <==> Agrees(ws[i], rows[i], mem) {
      RowAgrees(ws[i], rows[i], mem);
    }
  }

  lemma HintsMean(p: Pack, hints: seq<Cell>, mem: Memory)
    requires |hints| == |p.stream|
    ensures Agree(HintSlots(p), hints, mem) <==> HintsAgree(p, hints, mem)
  {
    if Agree(HintSlots(p), hints, mem) {
      forall c | 0 <= c < |p.stream| ensures p.stream[c] < |mem| && mem[p.stream[c]] == hints[c] {
        assert HintSlots(p)[c].addr == p.stream[c];
      }
    }
  }

  lemma AgreeMeans(p: Pack, hints: seq<Cell>, rows: seq<Row>, mem: Memory)
    requires Valid(p) && |rows| == |Windows(p)| && |hints| == |p.stream|
    ensures |Slots(p)| == |Vals(p, hints, rows)|
    ensures Agree(Slots(p), Vals(p, hints, rows), mem) <==> HintsAgree(p, hints, mem) && RowsAgree(Windows(p), rows, mem)
  {
    hide Agree, Windows, RowsAgree, HintsAgree, HintSlots, WindowSlots, WindowVals;
    var ws := Windows(p);
    WindowsAgree(ws, rows, mem);
    HintsMean(p, hints, mem);
    AgreeSplit(HintSlots(p), Concat(WindowSlots(ws)), hints, Concat(WindowVals(ws, rows)), mem);
  }
}
