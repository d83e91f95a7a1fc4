/** The inclusion check: every selected row of A appears among the selected
    rows of B.  The fast form keeps one set of row hashes per target group and
    probes a single representative of the padding rows.  */
module Inclusion {
  import opened KoalaBear
  import opened ExtField
  import opened Expressions
  import opened Columns
  import opened Tables
  import opened RowHashes
  import B = Barycentric

  /** Assignments are keyed by column identifier; sizes and padding belong to modules. */
  datatype Assignment = Assignment(columns: map<nat, ConcreteVector>, size: nat -> nat, padding: nat -> Padding)

  predicate Readable(rt: Assignment, v: View) {
    && Id(v.column) in rt.columns
    && Fits(rt.padding(v.column.mod), rt.size(v.column.mod), rt.columns[Id(v.column)])
  }

  predicate EntryReadable(rt: Assignment, mod: nat, e: Entry) {
    e.Col? ==> e.view.column.mod == mod && Readable(rt, e.view)
  }

  /** A constructed table all of whose columns are assigned. */
  predicate Ready(rt: Assignment, t: Table) {
    && Constructed(t)
    && (forall j :: 0 <= j < |t.entries| ==> EntryReadable(rt, t.mod, t.entries[j]))
    && (t.selector.SelectedBy? ==> Readable(rt, t.selector.view))
  }

  predicate AllReady(rt: Assignment, ts: seq<Table>) { forall k :: 0 <= k < |ts| ==> Ready(rt, ts[k]) }

  function ElemAt(rt: Assignment, v: View, idx: int): Gen
    requires Readable(rt, v) && rt.size(v.column.mod) > 0
  {
    var n := rt.size(v.column.mod);
    WrapIsMod(idx + v.shift, n);
    ElementAtN(rt.padding(v.column.mod), n, rt.columns[Id(v.column)], Wrap(idx + v.shift, n))
  }

  function EntryAt(rt: Assignment, mod: nat, e: Entry, idx: int): Gen
    requires EntryReadable(rt, mod, e) && rt.size(mod) > 0
  {
    match e
    case Constant(c) => FromBase(c)
    case Col(v) => ElemAt(rt, v, idx)
  }

  /** The logical row idx of a table, padding included. */
  function Row(rt: Assignment, t: Table, idx: int): seq<Ext>
    requires Ready(rt, t) && rt.size(t.mod) > 0
  {
    seq(|t.entries|, j requires 0 <= j < |t.entries| => EntryAt(rt, t.mod, t.entries[j], idx).val)
  }

  predicate Selected(rt: Assignment, t: Table, idx: int)
    requires Ready(rt, t) && rt.size(t.mod) > 0
  {
    t.selector.SelectedBy? ==> ElemAt(rt, t.selector.view, idx).val != Zero6
  }

  /** The selected rows of a table, all logical rows considered. */
  ghost function AllRows(rt: Assignment, t: Table): iset<seq<Ext>>
    requires Ready(rt, t)
  {
    iset i | 0 <= i < rt.size(t.mod) && Selected(rt, t, i) :: Row(rt, t, i)
  }

  // ---- the rows the fast form looks at ----

  predicate EntryUnshifted(e: Entry) { e.Col? ==> e.view.shift == 0 }

  predicate HasZeroShift(t: Table) {
    && (forall j :: 0 <= j < |t.entries| ==> EntryUnshifted(t.entries[j]))
    && (t.selector.SelectedBy? ==> t.selector.view.shift == 0)
  }

  function FirstViewFrom(t: Table, j: nat): (v: View)
    requires Constructed(t) && j <= |t.entries|
    requires forall i :: 0 <= i < j ==> t.entries[i].Constant?
    ensures t.selector == SelectedBy(v) || Col(v) in t.entries
    decreases |t.entries| - j
  {
    if j == |t.entries| then t.selector.view
    else if t.entries[j].Col? then t.entries[j].view
    else FirstViewFrom(t, j + 1)
  }

  /** The first column view, or the selector when every entry is a constant. */
  function FirstView(t: Table): (v: View)
    requires Constructed(t)
    ensures t.selector == SelectedBy(v) || Col(v) in t.entries
  {
    FirstViewFrom(t, 0)
  }

  /** It is the entry after leading constants, in declaration order. */
  lemma {:induction false} FirstViewIs(t: Table, j: nat, i: nat)
    requires Constructed(t) && j <= |t.entries| && forall k :: 0 <= k < j ==> t.entries[k].Constant?
    requires i <= |t.entries| && (i < |t.entries| ==> t.entries[i].Col?) && forall k :: 0 <= k < i ==> t.entries[k].Constant?
    ensures if i < |t.entries| then Col(FirstViewFrom(t, j)) == t.entries[i] else t.selector == SelectedBy(FirstViewFrom(t, j))
    decreases |t.entries| - j
  {
    if j < i { FirstViewIs(t, j + 1, i); }
  }

  lemma FirstReadable(rt: Assignment, t: Table)
    requires Ready(rt, t)
    ensures Readable(rt, FirstView(t)) && FirstView(t).column.mod == t.mod
  {
    var v := FirstView(t);
    if Col(v) in t.entries {
      var j :| 0 <= j < |t.entries| && t.entries[j] == Col(v);
      assert EntryReadable(rt, t.mod, t.entries[j]);
    }
  }

  function PlainLen(rt: Assignment, v: View): nat
    requires Readable(rt, v)
  {
    Len(rt.columns[Id(v.column)].plain)
  }

  /** The plain length the fast form takes for the whole table. */
  function DataLen(rt: Assignment, t: Table): (k: nat)
    requires Ready(rt, t)
    ensures k <= rt.size(t.mod)
  {
    FirstReadable(rt, t);
    PlainLen(rt, FirstView(t))
  }

  predicate Batches(rt: Assignment, t: Table) { !rt.padding(t.mod).PadNone? && HasZeroShift(t) }

  /** The first padding row, standing for all of them. */
  function Anchor(rt: Assignment, t: Table): nat
    requires Ready(rt, t)
  {
    if rt.padding(t.mod).PadLeft? then 0 else DataLen(rt, t)
  }

  function DataStart(rt: Assignment, t: Table): nat
    requires Ready(rt, t)
  {
    if rt.padding(t.mod).PadLeft? then rt.size(t.mod) - DataLen(rt, t) else 0
  }

  /** Whether the fast form looks at row idx. */
  predicate Probed(rt: Assignment, t: Table, idx: int)
    requires Ready(rt, t)
  {
    && 0 <= idx < rt.size(t.mod)
    && (Batches(rt, t) ==>
         idx == Anchor(rt, t) || DataStart(rt, t) <= idx < DataStart(rt, t) + DataLen(rt, t))
  }

  ghost function ProbedRows(rt: Assignment, t: Table): iset<seq<Ext>>
    requires Ready(rt, t)
  {
    iset i | 0 <= i < rt.size(t.mod) && Probed(rt, t, i) && Selected(rt, t, i) :: Row(rt, t, i)
  }

  // ---- when one padding row stands for all ----

  /** No column of the table reaches into the padding of its first view. */
  predicate FirstIsLongest(rt: Assignment, t: Table)
    requires Ready(rt, t)
  {
    && (forall j :: 0 <= j < |t.entries| && t.entries[j].Col? ==>
         EntryReadable(rt, t.mod, t.entries[j]) && PlainLen(rt, t.entries[j].view) <= DataLen(rt, t))
    && (t.selector.SelectedBy? ==> PlainLen(rt, t.selector.view) <= DataLen(rt, t))
  }

  /** The guard under which the single probe is exact: a full scan, at most one
      padding row, or no column longer than the first view. */
  predicate AnchorExact(rt: Assignment, t: Table)
    requires Ready(rt, t)
  {
    !Batches(rt, t) || rt.size(t.mod) - DataLen(rt, t) <= 1 || FirstIsLongest(rt, t)
  }

  /** A padding row of the whole table. */
  predicate InPadding(rt: Assignment, t: Table, idx: int)
    requires Ready(rt, t)
  {
    && 0 <= idx < rt.size(t.mod)
    && !(DataStart(rt, t) <= idx < DataStart(rt, t) + DataLen(rt, t))
  }

  lemma PaddingElem(rt: Assignment, v: View, n: nat, k: nat, idx: int)
    requires Readable(rt, v) && v.shift == 0 && n == rt.size(v.column.mod) && 0 <= idx < n
    requires !rt.padding(v.column.mod).PadNone? && PlainLen(rt, v) <= k <= n
    requires if rt.padding(v.column.mod).PadLeft? then idx < n - k else idx >= k
    ensures ElemAt(rt, v, idx) == FromBase(rt.columns[Id(v.column)].padding)
  {
    WrapIsMod(idx, n);
    Remainder(idx, n, 0, idx);
  }

  lemma PaddingAlike(rt: Assignment, t: Table, i: int, k: int)
    requires Ready(rt, t) && Batches(rt, t) && FirstIsLongest(rt, t)
    requires InPadding(rt, t, i) && InPadding(rt, t, k)
    ensures Row(rt, t, i) == Row(rt, t, k)
    ensures Selected(rt, t, i) == Selected(rt, t, k)
  {
    hide ElemAt;
    var n, d := rt.size(t.mod), DataLen(rt, t);
    forall j | 0 <= j < |t.entries| ensures Row(rt, t, i)[j] == Row(rt, t, k)[j] {
      assert EntryReadable(rt, t.mod, t.entries[j]) && EntryUnshifted(t.entries[j]);
      if t.entries[j].Col? {
        PaddingElem(rt, t.entries[j].view, n, d, i);
        PaddingElem(rt, t.entries[j].view, n, d, k);
      }
    }
    if t.selector.SelectedBy? {
      PaddingElem(rt, t.selector.view, n, d, i);
      PaddingElem(rt, t.selector.view, n, d, k);
    }
  }

  /** Every selected row equals a probed selected row. */
  lemma Represented(rt: Assignment, t: Table, i: int)
    requires Ready(rt, t) && AnchorExact(rt, t) && 0 <= i < rt.size(t.mod) && Selected(rt, t, i)
    ensures Row(rt, t, i) in ProbedRows(rt, t)
  {
    hide Row, Selected, FirstIsLongest, DataLen, Batches;
    if Probed(rt, t, i) {
    } else {
      var a := Anchor(rt, t);
      assert InPadding(rt, t, i) && InPadding(rt, t, a);
      assert Probed(rt, t, a);
      if rt.size(t.mod) - DataLen(rt, t) > 1 {
        PaddingAlike(rt, t, i, a);
      }
    }
  }

  lemma ProbedIsAll(rt: Assignment, t: Table)
    requires Ready(rt, t)
    ensures ProbedRows(rt, t) <= AllRows(rt, t)
    ensures AnchorExact(rt, t) ==> ProbedRows(rt, t) == AllRows(rt, t)
  {
    hide Row, Selected, Probed, AnchorExact;
    if AnchorExact(rt, t) {
      forall i | 0 <= i < rt.size(t.mod) && Selected(rt, t, i) ensures Row(rt, t, i) in ProbedRows(rt, t) {
        Represented(rt, t, i);
      }
    }
  }

  // ---- and only then ----

  /** The same table sizes, padding directions and plain lengths, other values. */
  ghost predicate SameShape(rt: Assignment, other: Assignment) {
    && rt.size == other.size && rt.padding == other.padding && rt.columns.Keys == other.columns.Keys
    && forall id :: id in rt.columns ==>
         && Len(rt.columns[id].plain) == Len(other.columns[id].plain)
         && rt.columns[id].plain.BaseVec? == other.columns[id].plain.BaseVec?
  }

  lemma ReadableByShape(rt: Assignment, other: Assignment, v: View)
    requires SameShape(rt, other) && Readable(rt, v)
    ensures Readable(other, v) && PlainLen(other, v) == PlainLen(rt, v)
  {
    assert Id(v.column) in rt.columns.Keys && Id(v.column) in other.columns.Keys;
  }

  lemma ReadyByShape(rt: Assignment, other: Assignment, t: Table)
    requires SameShape(rt, other) && Ready(rt, t)
    ensures Ready(other, t) && DataLen(other, t) == DataLen(rt, t)
  {
    hide Id, Fits;
    forall j | 0 <= j < |t.entries| ensures EntryReadable(other, t.mod, t.entries[j]) {
      assert EntryReadable(rt, t.mod, t.entries[j]);
      if t.entries[j].Col? { ReadableByShape(rt, other, t.entries[j].view); }
    }
    if t.selector.SelectedBy? { ReadableByShape(rt, other, t.selector.view); }
    FirstReadable(rt, t);
    ReadableByShape(rt, other, FirstView(t));
  }

  lemma FirstIsLongestByShape(rt: Assignment, other: Assignment, t: Table)
    requires SameShape(rt, other) && Ready(rt, t) && FirstIsLongest(rt, t)
    ensures Ready(other, t) && FirstIsLongest(other, t)
  {
    hide Id, Fits, DataLen, PlainLen;
    ReadyByShape(rt, other, t);
    forall j | 0 <= j < |t.entries| && t.entries[j].Col?
      ensures EntryReadable(other, t.mod, t.entries[j]) && PlainLen(other, t.entries[j].view) <= DataLen(other, t) {
      assert EntryReadable(rt, t.mod, t.entries[j]);
      ReadableByShape(rt, other, t.entries[j].view);
    }
    if t.selector.SelectedBy? { ReadableByShape(rt, other, t.selector.view); }
  }

  /** Whether the guard holds depends on the shape alone. */
  lemma ExactByShape(rt: Assignment, other: Assignment, t: Table)
    requires SameShape(rt, other) && Ready(rt, t) && AnchorExact(rt, t)
    ensures Ready(other, t) && AnchorExact(other, t)
  {
    ReadyByShape(rt, other, t);
    if FirstIsLongest(rt, t) { FirstIsLongestByShape(rt, other, t); }
  }

  function Typed(v: Vec, s: seq<Elt>): (w: Vec)
    ensures Len(w) == |s| && w.BaseVec? == v.BaseVec?
  {
    if v.BaseVec? then BaseVec(s) else ExtVec(seq(|s|, k requires 0 <= k < |s| => Lift(s[k])))
  }

  lemma TypedAt(v: Vec, s: seq<Elt>, k: nat)
    requires k < |s|
    ensures At(Typed(v, s), k).val == Lift(s[k])
  {
  }

  /** A column of ones. */
  function Ones(v: Vec): ConcreteVector { ConcreteVector(Typed(v, seq(Len(v), _ => 1)), 1) }

  /** A column that is zero on every probed row and one on a hidden row; d is the
      plain length of the first view. */
  function Spike(left: bool, d: nat, v: Vec): ConcreteVector {
    if left then ConcreteVector(Typed(v, seq(Len(v), k => if k == Len(v) - d - 1 then 1 else 0)), 0)
    else ConcreteVector(Typed(v, seq(Len(v), k => if k <= d then 0 else 1)), 1)
  }

  function SpikeRow(left: bool, n: nat, d: nat): int { if left then n - d - 1 else d + 1 }

  function Spiked(rt: Assignment, id: nat, left: bool, d: nat): Assignment {
    rt.(columns := map c | c in rt.columns ::
          if c == id then Spike(left, d, rt.columns[c].plain) else Ones(rt.columns[c].plain))
  }

  lemma SpikedShape(rt: Assignment, id: nat, left: bool, d: nat)
    ensures SameShape(rt, Spiked(rt, id, left, d))
  {
  }

  lemma OnesAt(pad: Padding, n: nat, v: Vec, pos: int)
    requires Fits(pad, n, Ones(v)) && 0 <= pos < n
    ensures ElementAtN(pad, n, Ones(v), pos).val == One6
  {
    var s := seq(Len(v), _ => 1);
    if pad.PadLeft? {
      if pos >= n - Len(v) { TypedAt(v, s, pos - (n - Len(v))); }
    } else if pos < Len(v) {
      TypedAt(v, s, pos);
    }
  }

  lemma SpikeAt(left: bool, n: nat, d: nat, v: Vec, pos: int)
    requires Fits(if left then PadLeft else PadRight, n, Spike(left, d, v)) && 0 <= pos < n
    requires d < Len(v) && d + 2 <= n
    ensures left && (pos == 0 || n - d <= pos) ==>
      ElementAtN(PadLeft, n, Spike(left, d, v), pos).val == Zero6
    ensures !left && pos <= d ==> ElementAtN(PadRight, n, Spike(left, d, v), pos).val == Zero6
    ensures pos == SpikeRow(left, n, d) ==>
      ElementAtN(if left then PadLeft else PadRight, n, Spike(left, d, v), pos).val == One6
  {
    if left {
      var s := seq(Len(v), k => if k == Len(v) - d - 1 then 1 else 0);
      if pos >= n - Len(v) { TypedAt(v, s, pos - (n - Len(v))); }
    } else {
      var s := seq(Len(v), k => if k <= d then 0 else 1);
      if pos < Len(v) { TypedAt(v, s, pos); }
    }
  }

  /** A view longer than the first one. */
  predicate Overhangs(rt: Assignment, t: Table, v: View)
    requires Ready(rt, t)
  {
    && v.column.mod == t.mod && v.shift == 0 && Readable(rt, v) && DataLen(rt, t) < PlainLen(rt, v)
    && (t.selector == SelectedBy(v) || Col(v) in t.entries)
  }

  lemma FindOverhang(rt: Assignment, t: Table) returns (v: View)
    requires Ready(rt, t) && HasZeroShift(t) && !FirstIsLongest(rt, t)
    ensures Overhangs(rt, t, v)
  {
    hide DataLen, PlainLen, Readable;
    if t.selector.SelectedBy? && DataLen(rt, t) < PlainLen(rt, t.selector.view) {
      v := t.selector.view;
    } else {
      assert forall j :: 0 <= j < |t.entries| ==> EntryReadable(rt, t.mod, t.entries[j]);
      var j :| 0 <= j < |t.entries| && t.entries[j].Col? && DataLen(rt, t) < PlainLen(rt, t.entries[j].view);
      assert EntryUnshifted(t.entries[j]);
      v := t.entries[j].view;
    }
  }

  lemma UnshiftedAt(rt: Assignment, v: View, i: int)
    requires Readable(rt, v) && v.shift == 0 && 0 <= i < rt.size(v.column.mod)
    ensures ElemAt(rt, v, i) ==
      ElementAtN(rt.padding(v.column.mod), rt.size(v.column.mod), rt.columns[Id(v.column)], i)
  {
    hide ElementAtN;
    WrapIsMod(i, rt.size(v.column.mod));
    Remainder(i, rt.size(v.column.mod), 0, i);
  }

  /** The spiked column separates the hidden row from every probed row. */
  lemma SpikeSeparates(rt: Assignment, t: Table, v: View, i: int)
    requires Ready(rt, t) && Batches(rt, t) && Overhangs(rt, t, v) && DataLen(rt, t) + 2 <= rt.size(t.mod)
    requires 0 <= i < rt.size(t.mod)
    ensures var sp := Spiked(rt, Id(v.column), rt.padding(t.mod).PadLeft?, DataLen(rt, t));
      && Readable(sp, v)
      && (Probed(rt, t, i) ==> ElemAt(sp, v, i).val == Zero6)
      && (i == SpikeRow(rt.padding(t.mod).PadLeft?, rt.size(t.mod), DataLen(rt, t)) ==> ElemAt(sp, v, i).val == One6)
  {
    hide DataLen, ElemAt, ElementAtN, Id, Spike, HasZeroShift;
    var left, n, d := rt.padding(t.mod).PadLeft?, rt.size(t.mod), DataLen(rt, t);
    var sp := Spiked(rt, Id(v.column), left, d);
    SpikedShape(rt, Id(v.column), left, d);
    ReadableByShape(rt, sp, v);
    UnshiftedAt(sp, v, i);
    SpikeAt(left, n, d, rt.columns[Id(v.column)].plain, i);
  }

  lemma OthersAreOnes(rt: Assignment, id: nat, left: bool, d: nat, v: View, i: int)
    requires Readable(rt, v) && Id(v.column) != id && 0 <= i < rt.size(v.column.mod)
    ensures Readable(Spiked(rt, id, left, d), v)
    ensures ElemAt(Spiked(rt, id, left, d), v, i).val == One6
  {
    hide ElementAtN, Id, Ones, Spike;
    var sp := Spiked(rt, id, left, d);
    SpikedShape(rt, id, left, d);
    ReadableByShape(rt, sp, v);
    var n := rt.size(v.column.mod);
    WrapIsMod(i + v.shift, n);
    OnesAt(rt.padding(v.column.mod), n, rt.columns[Id(v.column)].plain, Wrap(i + v.shift, n));
  }

  lemma SelectorAlike(rt: Assignment, t: Table, v: View, i: int)
    requires Ready(rt, t) && Batches(rt, t) && Overhangs(rt, t, v) && DataLen(rt, t) + 2 <= rt.size(t.mod)
    requires 0 <= i < rt.size(t.mod)
    ensures var left := rt.padding(t.mod).PadLeft?;
      var sp := Spiked(rt, Id(v.column), left, DataLen(rt, t));
      && Ready(sp, t)
      && (i == SpikeRow(left, rt.size(t.mod), DataLen(rt, t)) ==> Selected(sp, t, i))
      && (t.selector == SelectedBy(v) && Probed(rt, t, i) ==> !Selected(sp, t, i))
  {
    hide DataLen, ElemAt, Spike, Ones, SpikeRow, Probed, HasZeroShift;
    var left, d := rt.padding(t.mod).PadLeft?, DataLen(rt, t);
    var sp := Spiked(rt, Id(v.column), left, d);
    SpikedShape(rt, Id(v.column), left, d);
    ReadyByShape(rt, sp, t);
    SpikeSeparates(rt, t, v, i);
    assert Zero6 != One6;
    if t.selector.SelectedBy? {
      var u := t.selector.view;
      if Id(u.column) != Id(v.column) {
        OthersAreOnes(rt, Id(v.column), left, d, u, i);
      } else {
        SameElem(rt, sp, t, u, v, i);
      }
    }
  }

  /** Two unshifted views of one column of the module read alike. */
  lemma SameElem(rt: Assignment, sp: Assignment, t: Table, u: View, v: View, i: int)
    requires Ready(rt, t) && HasZeroShift(t) && t.selector == SelectedBy(u) && v.shift == 0
    requires Id(u.column) == Id(v.column) && u.column.mod == v.column.mod
    requires Readable(sp, u) && Readable(sp, v) && 0 <= i < sp.size(u.column.mod)
    ensures ElemAt(sp, u, i) == ElemAt(sp, v, i)
  {
  }

  lemma RowEntry(rt: Assignment, t: Table, v: View, i: int) returns (j: nat)
    requires Ready(rt, t) && Col(v) in t.entries && rt.size(t.mod) > 0
    ensures j < |t.entries| && EntryReadable(rt, t.mod, t.entries[j]) && t.entries[j] == Col(v)
    ensures forall k :: j < |Row(rt, t, k)| && Row(rt, t, k)[j] == ElemAt(rt, v, k).val
  {
    hide ElemAt;
    j :| j < |t.entries| && t.entries[j] == Col(v);
    assert EntryReadable(rt, t.mod, t.entries[j]);
  }

  /** Outside the guard some assignment of the same shape hides a selected row from the fast form. */
  lemma HiddenRow(rt: Assignment, t: Table) returns (sp: Assignment, h: int)
    requires Ready(rt, t) && !AnchorExact(rt, t)
    ensures SameShape(rt, sp) && Ready(sp, t) && 0 <= h < sp.size(t.mod)
    ensures Row(sp, t, h) in AllRows(sp, t) && Row(sp, t, h) !in ProbedRows(sp, t)
  {
    hide ElemAt, Spiked, HasZeroShift, FirstIsLongest, DataLen, Row, Selected;
    assert HasZeroShift(t) by { assert Batches(rt, t); }
    var v := FindOverhang(rt, t);
    var left, d := rt.padding(t.mod).PadLeft?, DataLen(rt, t);
    sp := Spiked(rt, Id(v.column), left, d);
    h := SpikeRow(left, rt.size(t.mod), d);
    SpikedShape(rt, Id(v.column), left, d);
    ReadyByShape(rt, sp, t);
    SelectorAlike(rt, t, v, h);
    forall i | 0 <= i < sp.size(t.mod) && Probed(sp, t, i) && Selected(sp, t, i)
      ensures Row(sp, t, i) != Row(sp, t, h) {
      assert Probed(rt, t, i);
      SelectorAlike(rt, t, v, i);
      SpikeSeparates(rt, t, v, i);
      SpikeSeparates(rt, t, v, h);
      var j := RowEntry(sp, t, v, i);
      assert Row(sp, t, i)[j] != Row(sp, t, h)[j];
    }
  }

  /** The single padding probe sees every selected row for all values of a given
      shape exactly under the guard. */
  lemma AnchorExactIff(rt: Assignment, t: Table)
    requires Ready(rt, t)
    ensures AnchorExact(rt, t) <==>
      forall other :: SameShape(rt, other) ==> Ready(other, t) && ProbedRows(other, t) == AllRows(other, t)
  {
    hide AnchorExact, ProbedRows, AllRows, Ready;
    if AnchorExact(rt, t) {
      forall other | SameShape(rt, other)
        ensures Ready(other, t) && ProbedRows(other, t) == AllRows(other, t) {
        ExactByShape(rt, other, t);
        ProbedIsAll(other, t);
      }
    } else {
      var sp, h := HiddenRow(rt, t);
      assert ProbedRows(sp, t) != AllRows(sp, t);
    }
  }

  // ---- row hashes ----

  lemma EntryHonest(rt: Assignment, mod: nat, e: Entry, idx: int)
    requires EntryReadable(rt, mod, e) && rt.size(mod) > 0
    ensures Honest(EntryAt(rt, mod, e, idx))
  {
    hide ElementAtN;
    if e.Col? {
      var v, n := e.view, rt.size(mod);
      WrapIsMod(idx + v.shift, n);
      ElemHonest(rt.padding(mod), n, rt.columns[Id(v.column)], Wrap(idx + v.shift, n));
    }
  }

  /** The dispatching arithmetic of the source computes the sum of row[j] alpha^(m - 1 - j). */
  method RowHash(alpha: Ext, rt: Assignment, t: Table, idx: int) returns (h: Ext)
    requires Ready(rt, t) && rt.size(t.mod) > 0
    ensures h == Horner(alpha, Row(rt, t, idx)) == B.Sum(PowerTerms(alpha, Row(rt, t, idx)))
  {
    hide PowerTerms, B.Sum, EntryAt, GenMul, Mul, Add, Readable, Constructed;
    var acc := FromExt(Zero6);
    ghost var row := Row(rt, t, idx);
    for j := 0 to |t.entries|
      invariant !acc.isBase && acc.val == Horner(alpha, row[..j])
    {
      assert EntryReadable(rt, t.mod, t.entries[j]);
      var e := EntryAt(rt, t.mod, t.entries[j], idx);
      EntryHonest(rt, t.mod, t.entries[j], idx);
      GenMulIsMul(acc, FromExt(alpha));
      acc := GenAdd(GenMul(acc, FromExt(alpha)), e);
      assert row[..j + 1][..j] == row[..j];
    }
    assert row[..|row|] == row;
    HornerIsPowers(alpha, row);
    h := acc.val;
  }

  /** Hash h comes from a selected row of t in [lo, hi). */
  ghost predicate HashIn(rt: Assignment, alpha: Ext, t: Table, lo: int, hi: int, h: Ext)
    requires Ready(rt, t)
  {
    exists i :: lo <= i < hi && 0 <= i < rt.size(t.mod) && Selected(rt, t, i)
      && h == Horner(alpha, Row(rt, t, i))
  }

  /** Hash h comes from one of the rows. */
  ghost predicate Hashes(alpha: Ext, rows: iset<seq<Ext>>, h: Ext) {
    exists r :: r in rows && h == Horner(alpha, r)
  }

  lemma HashStep(rt: Assignment, alpha: Ext, t: Table, lo: int, k: int, h: Ext)
    requires Ready(rt, t) && 0 <= lo <= k < rt.size(t.mod)
    ensures HashIn(rt, alpha, t, lo, k + 1, h) <==>
      HashIn(rt, alpha, t, lo, k, h) || (Selected(rt, t, k) && h == Horner(alpha, Row(rt, t, k)))
  {
    hide Row, Selected, Horner, Ready;
  }

  lemma HashProbed(rt: Assignment, alpha: Ext, t: Table, h: Ext)
    requires Ready(rt, t)
    ensures !Batches(rt, t) ==> (Hashes(alpha, ProbedRows(rt, t), h) <==> HashIn(rt, alpha, t, 0, rt.size(t.mod), h))
    ensures Batches(rt, t) ==> (Hashes(alpha, ProbedRows(rt, t), h) <==>
      || HashIn(rt, alpha, t, Anchor(rt, t), Anchor(rt, t) + 1, h)
      || HashIn(rt, alpha, t, DataStart(rt, t), DataStart(rt, t) + DataLen(rt, t), h))
  {
    hide Row, Selected, Horner, Ready, Batches, DataLen, DataStart, Anchor;
    var lo, hi := DataStart(rt, t), DataStart(rt, t) + DataLen(rt, t);
    if Hashes(alpha, ProbedRows(rt, t), h) {
      var r :| r in ProbedRows(rt, t) && h == Horner(alpha, r);
      var i :| 0 <= i < rt.size(t.mod) && Probed(rt, t, i) && Selected(rt, t, i) && r == Row(rt, t, i);
    }
    if i :| 0 <= i < rt.size(t.mod) && Probed(rt, t, i) && Selected(rt, t, i) && h == Horner(alpha, Row(rt, t, i)) {
      assert Row(rt, t, i) in ProbedRows(rt, t);
    }
    if !Batches(rt, t) && HashIn(rt, alpha, t, 0, rt.size(t.mod), h) {
      var i :| 0 <= i < rt.size(t.mod) && Selected(rt, t, i) && h == Horner(alpha, Row(rt, t, i));
      assert Probed(rt, t, i);
    }
    if Batches(rt, t) && HashIn(rt, alpha, t, lo, hi, h) {
      var i :| lo <= i < hi && 0 <= i < rt.size(t.mod) && Selected(rt, t, i) && h == Horner(alpha, Row(rt, t, i));
      assert Probed(rt, t, i);
    }
    if Batches(rt, t) && HashIn(rt, alpha, t, Anchor(rt, t), Anchor(rt, t) + 1, h) {
      assert Probed(rt, t, Anchor(rt, t));
    }
  }

  // ---- the fast form ----

  method AddRows(bSet: set<Ext>, alpha: Ext, rt: Assignment, t: Table, lo: nat, hi: nat) returns (s: set<Ext>)
    requires Ready(rt, t) && lo <= hi <= rt.size(t.mod)
    ensures forall h :: h in s <==> h in bSet || HashIn(rt, alpha, t, lo, hi, h)
  {
    hide Row, Selected, Horner, Ready, HashIn;
    s := bSet;
    assert forall h :: !HashIn(rt, alpha, t, lo, lo, h) by { NoHash(rt, alpha, t, lo); }
    for k := lo to hi
      invariant forall h :: h in s <==> h in bSet || HashIn(rt, alpha, t, lo, k, h)
    {
      forall h { HashStep(rt, alpha, t, lo, k, h); }
      if Selected(rt, t, k) {
        var x := RowHash(alpha, rt, t, k);
        s := s + {x};
      }
    }
  }

  lemma NoHash(rt: Assignment, alpha: Ext, t: Table, lo: int)
    requires Ready(rt, t)
    ensures forall h :: !HashIn(rt, alpha, t, lo, lo, h)
  {
  }

  /** Adds the hashes of the probed selected rows of t to bSet. */
  method BuildSet(bSet: set<Ext>, alpha: Ext, rt: Assignment, t: Table) returns (s: set<Ext>)
    requires Ready(rt, t)
    ensures forall h :: h in s <==> h in bSet || Hashes(alpha, ProbedRows(rt, t), h)
  {
    hide HashIn, Hashes, ProbedRows, Ready, HasZeroShift;
    forall h { HashProbed(rt, alpha, t, h); }
    var n := rt.size(t.mod);
    if rt.padding(t.mod).PadNone? || !HasZeroShift(t) {
      s := AddRows(bSet, alpha, rt, t, 0, n);
      return;
    }
    var plainLen := DataLen(rt, t);
    var gap := n - plainLen;
    var dataStart := if rt.padding(t.mod).PadLeft? then gap else 0;
    s := bSet;
    if gap > 0 {
      var anchor := if rt.padding(t.mod).PadLeft? then 0 else plainLen;
      s := AddRows(s, alpha, rt, t, anchor, anchor + 1);
    } else {
      Widen(rt, alpha, t, Anchor(rt, t), Anchor(rt, t) + 1, dataStart, dataStart + plainLen);
    }
    s := AddRows(s, alpha, rt, t, dataStart, dataStart + plainLen);
  }

  lemma Widen(rt: Assignment, alpha: Ext, t: Table, a: int, b: int, lo: int, hi: int)
    requires Ready(rt, t) && lo <= 0 && rt.size(t.mod) <= hi
    ensures forall h :: HashIn(rt, alpha, t, a, b, h) ==> HashIn(rt, alpha, t, lo, hi, h)
  {
    hide Ready, Row, Selected, Horner;
  }

  method CheckRows(bSet: set<Ext>, alpha: Ext, rt: Assignment, t: Table, lo: nat, hi: nat) returns (ok: bool)
    requires Ready(rt, t) && lo <= hi <= rt.size(t.mod)
    ensures ok <==> forall h :: HashIn(rt, alpha, t, lo, hi, h) ==> h in bSet
  {
    hide Row, Selected, Horner, Ready, HashIn;
    NoHash(rt, alpha, t, lo);
    for k := lo to hi
      invariant forall h :: HashIn(rt, alpha, t, lo, k, h) ==> h in bSet
    {
      forall h { HashStep(rt, alpha, t, lo, k, h); }
      if Selected(rt, t, k) {
        var x := RowHash(alpha, rt, t, k);
        if x !in bSet {
          assert HashIn(rt, alpha, t, lo, k + 1, x);
          HashGrows(rt, alpha, t, lo, k + 1, hi, x);
          return false;
        }
      }
    }
    ok := true;
  }

  lemma HashGrows(rt: Assignment, alpha: Ext, t: Table, lo: int, k: int, hi: int, h: Ext)
    requires Ready(rt, t) && k <= hi && HashIn(rt, alpha, t, lo, k, h)
    ensures HashIn(rt, alpha, t, lo, hi, h)
  {
    hide Row, Selected, Horner, Ready;
  }

  /** Whether every probed selected row of t hashes into bSet. */
  method CheckSet(bSet: set<Ext>, alpha: Ext, rt: Assignment, t: Table) returns (ok: bool)
    requires Ready(rt, t)
    ensures ok <==> forall h :: Hashes(alpha, ProbedRows(rt, t), h) ==> h in bSet
  {
    hide HashIn, Hashes, ProbedRows, Ready, HasZeroShift;
    forall h { HashProbed(rt, alpha, t, h); }
    var n := rt.size(t.mod);
    if rt.padding(t.mod).PadNone? || !HasZeroShift(t) {
      ok := CheckRows(bSet, alpha, rt, t, 0, n);
      return;
    }
    var plainLen := DataLen(rt, t);
    var gap := n - plainLen;
    var dataStart := if rt.padding(t.mod).PadLeft? then gap else 0;
    if gap > 0 {
      var anchor := if rt.padding(t.mod).PadLeft? then 0 else plainLen;
      ok := CheckRows(bSet, alpha, rt, t, anchor, anchor + 1);
      if !ok { return; }
    } else {
      Widen(rt, alpha, t, Anchor(rt, t), Anchor(rt, t) + 1, dataStart, dataStart + plainLen);
    }
    ok := CheckRows(bSet, alpha, rt, t, dataStart, dataStart + plainLen);
  }

  // ---- target sets and their cache ----

  /** Hash h comes from a selected row of one of the tables, all rows considered. */
  ghost predicate Target(rt: Assignment, alpha: Ext, ts: seq<Table>, h: Ext)
    requires AllReady(rt, ts)
  {
    exists k :: 0 <= k < |ts| && Hashes(alpha, AllRows(rt, ts[k]), h)
  }

  /** The same over the rows the fast form probes. */
  ghost predicate ProbedTarget(rt: Assignment, alpha: Ext, ts: seq<Table>, h: Ext)
    requires AllReady(rt, ts)
  {
    exists k :: 0 <= k < |ts| && Hashes(alpha, ProbedRows(rt, ts[k]), h)
  }

  ghost predicate AllExact(rt: Assignment, ts: seq<Table>)
    requires AllReady(rt, ts)
  {
    forall k :: 0 <= k < |ts| ==> AnchorExact(rt, ts[k])
  }

  lemma TargetExact(rt: Assignment, alpha: Ext, ts: seq<Table>, h: Ext)
    requires AllReady(rt, ts) && AllExact(rt, ts)
    ensures ProbedTarget(rt, alpha, ts, h) <==> Target(rt, alpha, ts, h)
  {
    hide Hashes, AllRows, ProbedRows, AnchorExact, Ready;
    forall k | 0 <= k < |ts| ensures ProbedRows(rt, ts[k]) == AllRows(rt, ts[k]) {
      ProbedIsAll(rt, ts[k]);
    }
  }

  lemma TargetStep(rt: Assignment, alpha: Ext, ts: seq<Table>, k: nat, h: Ext)
    requires AllReady(rt, ts) && k < |ts|
    ensures ProbedTarget(rt, alpha, ts[..k + 1], h) <==>
      ProbedTarget(rt, alpha, ts[..k], h) || Hashes(alpha, ProbedRows(rt, ts[k]), h)
  {
    hide Hashes, ProbedRows, Ready;
    var s := ts[..k + 1];
    assert s[k] == ts[k] && forall i :: 0 <= i < k ==> s[i] == ts[..k][i];
  }

  /** The query's verdict when every logical row is looked at and nothing is cached. */
  ghost predicate Accepts(rt: Assignment, alpha: Ext, a: seq<Table>, b: seq<Table>)
    requires AllReady(rt, a) && AllReady(rt, b)
  {
    forall h :: Target(rt, alpha, a, h) ==> Target(rt, alpha, b, h)
  }

  ghost predicate ProbedAccepts(rt: Assignment, alpha: Ext, a: seq<Table>, b: seq<Table>)
    requires AllReady(rt, a) && AllReady(rt, b)
  {
    forall h :: ProbedTarget(rt, alpha, a, h) ==> ProbedTarget(rt, alpha, b, h)
  }

  lemma AcceptsExact(rt: Assignment, alpha: Ext, a: seq<Table>, b: seq<Table>)
    requires AllReady(rt, a) && AllReady(rt, b) && AllExact(rt, a) && AllExact(rt, b)
    ensures ProbedAccepts(rt, alpha, a, b) <==> Accepts(rt, alpha, a, b)
  {
    hide ProbedTarget, Target, AllExact, AllReady;
    forall h { TargetExact(rt, alpha, a, h); }
    forall h { TargetExact(rt, alpha, b, h); }
  }

  /** The union of the selected rows of the tables. */
  ghost predicate Contains(rt: Assignment, ts: seq<Table>, r: seq<Ext>)
    requires AllReady(rt, ts)
  {
    exists k :: 0 <= k < |ts| && r in AllRows(rt, ts[k])
  }

  /** alpha separates the rows of A from the other rows of B. */
  ghost predicate NoCollision(rt: Assignment, alpha: Ext, a: seq<Table>, b: seq<Table>)
    requires AllReady(rt, a) && AllReady(rt, b)
  {
    forall r, q :: Contains(rt, a, r) && Contains(rt, b, q) && Horner(alpha, r) == Horner(alpha, q) ==> r == q
  }

  lemma TargetIsContained(rt: Assignment, alpha: Ext, ts: seq<Table>, h: Ext)
    requires AllReady(rt, ts)
    ensures Target(rt, alpha, ts, h) <==> exists r :: Contains(rt, ts, r) && h == Horner(alpha, r)
  {
    hide AllRows, Ready, Horner;
    if Target(rt, alpha, ts, h) {
      var k :| 0 <= k < |ts| && Hashes(alpha, AllRows(rt, ts[k]), h);
      var r :| r in AllRows(rt, ts[k]) && h == Horner(alpha, r);
      assert Contains(rt, ts, r);
    }
    if r :| Contains(rt, ts, r) && h == Horner(alpha, r) {
      var k :| 0 <= k < |ts| && r in AllRows(rt, ts[k]);
      assert Hashes(alpha, AllRows(rt, ts[k]), h);
    }
  }

  /** An included table is accepted under every alpha; without collisions, only then. */
  lemma InclusionMeaning(rt: Assignment, alpha: Ext, a: seq<Table>, b: seq<Table>)
    requires AllReady(rt, a) && AllReady(rt, b)
    ensures (forall r :: Contains(rt, a, r) ==> Contains(rt, b, r)) ==> Accepts(rt, alpha, a, b)
    ensures NoCollision(rt, alpha, a, b) && Accepts(rt, alpha, a, b) ==>
      forall r :: Contains(rt, a, r) ==> Contains(rt, b, r)
  {
    hide Contains, Target, AllReady, Horner;
    forall h { TargetIsContained(rt, alpha, a, h); }
    forall h { TargetIsContained(rt, alpha, b, h); }
    if NoCollision(rt, alpha, a, b) && Accepts(rt, alpha, a, b) {
      forall r | Contains(rt, a, r) ensures Contains(rt, b, r) {
        var h := Horner(alpha, r);
        assert Target(rt, alpha, a, h);
        var q :| Contains(rt, b, q) && h == Horner(alpha, q);
      }
    }
  }

  // ---- how often a missing row is accepted ----

  /** The selected rows of a table among its first n, in order. */
  function SelectedRows(rt: Assignment, t: Table, n: nat): seq<seq<Ext>>
    requires Ready(rt, t) && n <= rt.size(t.mod)
  {
    if n == 0 then []
    else SelectedRows(rt, t, n - 1) + if Selected(rt, t, n - 1) then [Row(rt, t, n - 1)] else []
  }

  /** The selected rows of a group of tables, in order. */
  function GroupRows(rt: Assignment, ts: seq<Table>): seq<seq<Ext>>
    requires AllReady(rt, ts)
  {
    if ts == [] then []
    else
      var t := ts[|ts| - 1];
      GroupRows(rt, ts[..|ts| - 1]) + SelectedRows(rt, t, rt.size(t.mod))
  }

  lemma {:induction false} SelectedAre(rt: Assignment, t: Table, n: nat, r: seq<Ext>)
    requires Ready(rt, t) && n <= rt.size(t.mod)
    ensures r in SelectedRows(rt, t, n) <==> exists i :: 0 <= i < n && Selected(rt, t, i) && r == Row(rt, t, i)
    ensures r in SelectedRows(rt, t, n) ==> |r| == |t.entries|
  {
    hide Selected, Ready, EntryAt;
    if n > 0 {
      SelectedAre(rt, t, n - 1, r);
      if i :| 0 <= i < n && Selected(rt, t, i) && r == Row(rt, t, i) { assert i < n - 1 || i == n - 1; }
    }
  }

  lemma {:induction false} GroupAre(rt: Assignment, ts: seq<Table>, r: seq<Ext>)
    requires AllReady(rt, ts)
    ensures r in GroupRows(rt, ts) <==> Contains(rt, ts, r)
  {
    hide Ready, Row, Selected, SelectedRows;
    if ts != [] {
      var n := |ts| - 1;
      GroupAre(rt, ts[..n], r);
      SelectedAre(rt, ts[n], rt.size(ts[n].mod), r);
      if k :| 0 <= k < |ts| && r in AllRows(rt, ts[k]) { assert k < n ==> ts[..n][k] == ts[k]; }
      if k :| 0 <= k < n && r in AllRows(rt, ts[..n][k]) { assert r in AllRows(rt, ts[k]); }
    }
  }

  lemma GroupWidth(rt: Assignment, ts: seq<Table>, m: nat, r: seq<Ext>)
    requires AllReady(rt, ts) && (forall k :: 0 <= k < |ts| ==> |ts[k].entries| == m) && Contains(rt, ts, r)
    ensures |r| == m
  {
    hide Ready, Selected, EntryAt;
    var k :| 0 <= k < |ts| && r in AllRows(rt, ts[k]);
  }

  /** A group that misses a row of A is accepted for at most (m - 1) values of alpha per selected
      row of B, m being the width of the tables. */
  lemma FewFalseAccepts(inv: Ext -> Ext, rt: Assignment, a: seq<Table>, b: seq<Table>, m: nat, r: seq<Ext>, s: set<Ext>)
    requires B.FieldInverse(inv) && AllReady(rt, a) && AllReady(rt, b) && Contains(rt, a, r) && !Contains(rt, b, r) && |r| == m
    requires forall k :: 0 <= k < |b| ==> |b[k].entries| == m
    requires forall alpha :: alpha in s ==> Accepts(rt, alpha, a, b)
    ensures |s| <= |GroupRows(rt, b)| * (m - 1)
  {
    hide Contains, Target, AllReady, Horner, Hits, GroupRows, B.FieldInverse;
    var qs := GroupRows(rt, b);
    GroupAre(rt, b, r);
    forall k | 0 <= k < |qs| ensures |qs[k]| == m {
      GroupAre(rt, b, qs[k]);
      GroupWidth(rt, b, m, qs[k]);
    }
    forall alpha | alpha in s ensures Hits(alpha, r, qs) { AcceptedHits(rt, alpha, a, b, r); }
    FewHits(inv, r, qs, s);
  }

  lemma AcceptedHits(rt: Assignment, alpha: Ext, a: seq<Table>, b: seq<Table>, r: seq<Ext>)
    requires AllReady(rt, a) && AllReady(rt, b) && Accepts(rt, alpha, a, b) && Contains(rt, a, r)
    ensures Hits(alpha, r, GroupRows(rt, b))
  {
    hide Contains, Target, AllReady, Horner, GroupRows;
    var h := Horner(alpha, r);
    TargetIsContained(rt, alpha, a, h);
    TargetIsContained(rt, alpha, b, h);
    var q :| Contains(rt, b, q) && h == Horner(alpha, q);
    GroupAre(rt, b, q);
    var qs := GroupRows(rt, b);
    var k :| 0 <= k < |qs| && qs[k] == q;
  }

  /** Every cached set is the probed target of every keyable group with that key. */
  ghost predicate Faithful(rt: Assignment, alpha: Ext, sets: map<string, set<Ext>>) {
    forall ts: seq<Table>, h: Ext :: AllReady(rt, ts) && AllKeyable(ts) && Key(ts) in sets ==>
      (h in sets[Key(ts)] <==> ProbedTarget(rt, alpha, ts, h))
  }

  lemma FaithfulAdd(rt: Assignment, alpha: Ext, sets: map<string, set<Ext>>, ts: seq<Table>, s: set<Ext>)
    requires Faithful(rt, alpha, sets) && AllReady(rt, ts) && AllKeyable(ts)
    requires forall h :: h in s <==> ProbedTarget(rt, alpha, ts, h)
    ensures Faithful(rt, alpha, sets[Key(ts) := s])
  {
    hide ProbedTarget, AllReady, AllKeyable, Key;
    forall us: seq<Table>, h: Ext | AllReady(rt, us) && AllKeyable(us) && Key(us) in sets[Key(ts) := s]
      ensures h in sets[Key(ts) := s][Key(us)] <==> ProbedTarget(rt, alpha, us, h) {
      if Key(us) == Key(ts) {
        ReadyConstructed(rt, us); ReadyConstructed(rt, ts);
        KeyInjective(us, ts);
      }
    }
  }

  lemma ReadyConstructed(rt: Assignment, ts: seq<Table>)
    requires AllReady(rt, ts)
    ensures AllConstructed(ts)
  {
  }

  /** The row-hash sets of the target groups seen so far, all under one alpha. */
  class InclusionSetCache {
    const alpha: Ext
    var sets: map<string, set<Ext>>

    constructor (alpha: Ext)
      ensures this.alpha == alpha && sets == map[]
      ensures forall rt :: Valid(rt)
    {
      this.alpha := alpha;
      sets := map[];
    }

    ghost predicate Valid(rt: Assignment)
      reads this
    {
      Faithful(rt, alpha, sets)
    }

    method SetFor(rt: Assignment, ts: seq<Table>) returns (s: set<Ext>)
      requires Valid(rt) && AllReady(rt, ts)
      modifies this
      ensures Valid(rt)
      ensures forall h :: h in s <==> ProbedTarget(rt, alpha, ts, h)
      ensures sets == old(sets) || (AllKeyable(ts) && sets == old(sets)[Key(ts) := s])
    {
      hide ProbedTarget, Ready, Key, TableKeyable, Hashes, ProbedRows;
      var key, keyable := InclusionSetKey(ts);
      if keyable && key in sets {
        s := sets[key];
        return;
      }
      s := {};
      assert forall h :: !ProbedTarget(rt, alpha, ts[..0], h) by { NoTarget(rt, alpha, ts[..0]); }
      for k := 0 to |ts|
        invariant sets == old(sets)
        invariant forall h :: h in s <==> ProbedTarget(rt, alpha, ts[..k], h)
      {
        s := BuildSet(s, alpha, rt, ts[k]);
        forall h { TargetStep(rt, alpha, ts, k, h); }
      }
      assert ts[..|ts|] == ts;
      if keyable {
        FaithfulAdd(rt, alpha, sets, ts, s);
        sets := sets[key := s];
      }
    }

    /** The cached fast form gives the verdict of the fast form alone, and of the full scan under the guard. */
    method CheckInclusion(rt: Assignment, a: seq<Table>, b: seq<Table>) returns (ok: bool)
      requires Valid(rt) && AllReady(rt, a) && AllReady(rt, b)
      modifies this
      ensures Valid(rt)
      ensures ok <==> ProbedAccepts(rt, alpha, a, b)
      ensures AllExact(rt, a) && AllExact(rt, b) ==> (ok <==> Accepts(rt, alpha, a, b))
    {
      hide ProbedTarget, Ready, Hashes, ProbedRows, AllExact, Faithful, Accepts;
      if AllExact(rt, a) && AllExact(rt, b) { AcceptsExact(rt, alpha, a, b); }
      var bSet := SetFor(rt, b);
      NoTarget(rt, alpha, a[..0]);
      for k := 0 to |a|
        invariant Valid(rt)
        invariant forall h :: ProbedTarget(rt, alpha, a[..k], h) ==> ProbedTarget(rt, alpha, b, h)
      {
        ok := CheckSet(bSet, alpha, rt, a[k]);
        forall h { TargetStep(rt, alpha, a, k, h); }
        if !ok {
          ghost var h :| Hashes(alpha, ProbedRows(rt, a[k]), h) && h !in bSet;
          TargetMember(rt, alpha, a, k, h);
          return;
        }
      }
      assert a[..|a|] == a;
      ok := true;
    }

    /** One pass over many queries sharing the cache: the verdict of checking each alone. */
    method CheckPass(rt: Assignment, queries: seq<(seq<Table>, seq<Table>)>) returns (ok: bool)
      requires Valid(rt)
      requires forall q :: 0 <= q < |queries| ==> AllReady(rt, queries[q].0) && AllReady(rt, queries[q].1)
      modifies this
      ensures Valid(rt)
      ensures ok <==> forall q :: 0 <= q < |queries| ==> ProbedAccepts(rt, alpha, queries[q].0, queries[q].1)
    {
      hide ProbedAccepts, AllReady, AllExact, Accepts, Faithful;
      for q := 0 to |queries|
        invariant Valid(rt)
        invariant forall i :: 0 <= i < q ==> ProbedAccepts(rt, alpha, queries[i].0, queries[i].1)
      {
        ok := CheckInclusion(rt, queries[q].0, queries[q].1);
        if !ok { return; }
      }
      ok := true;
    }
  }

  lemma NoTarget(rt: Assignment, alpha: Ext, ts: seq<Table>)
    requires ts == [] && AllReady(rt, ts)
    ensures forall h :: !ProbedTarget(rt, alpha, ts, h)
  {
  }

  lemma TargetMember(rt: Assignment, alpha: Ext, ts: seq<Table>, k: nat, h: Ext)
    requires AllReady(rt, ts) && k < |ts| && Hashes(alpha, ProbedRows(rt, ts[k]), h)
    ensures ProbedTarget(rt, alpha, ts, h)
  {
  }

  // ---- the fast form accepting too much ----

  /** Rows (0,0), (0,0), (0,1), (0,0) on a right-padded module of four rows: the
      first column stores one row and the second three. */
  function ShortFirst(): Table {
    Table([Col(View(Registered(0, 0), 0)), Col(View(Registered(0, 1), 0))], NoSelector, 0)
  }

  /** The single row (0,0). */
  function ZeroRow(): Table {
    Table([Col(View(Registered(1, 0), 0)), Col(View(Registered(1, 0), 0))], NoSelector, 1)
  }

  function Uneven(): Assignment {
    Assignment(map[Id(Registered(0, 0)) := ConcreteVector(BaseVec([0]), 0),
                Id(Registered(0, 1)) := ConcreteVector(BaseVec([0, 0, 1]), 0),
                Id(Registered(1, 0)) := ConcreteVector(BaseVec([0]), 0)],
            m => if m == 0 then 4 else 1,
            m => if m == 0 then PadRight else PadNone)
  }

  lemma UnevenReady()
    ensures Ready(Uneven(), ShortFirst()) && Ready(Uneven(), ZeroRow())
    ensures DataLen(Uneven(), ShortFirst()) == 1
  {
    var rt := Uneven();
    assert ShortFirst().entries[0].Col? && ZeroRow().entries[0].Col?;
    assert Len(rt.columns[Id(Registered(0, 1))].plain) == 3;
  }

  lemma UnevenElem(i: int)
    requires 0 <= i < 4
    ensures var rt, u, v := Uneven(), View(Registered(0, 0), 0), View(Registered(0, 1), 0);
      Readable(rt, u) && Readable(rt, v)
      && ElemAt(rt, u, i).val == Zero6 && ElemAt(rt, v, i).val == (if i == 2 then One6 else Zero6)
  {
    hide ElemAt;
    var rt, u, v := Uneven(), View(Registered(0, 0), 0), View(Registered(0, 1), 0);
    assert Len(rt.columns[Id(v.column)].plain) == 3;
    UnshiftedAt(rt, u, i);
    UnshiftedAt(rt, v, i);
  }

  lemma UnevenRow(i: int)
    requires 0 <= i < 4
    ensures Ready(Uneven(), ShortFirst()) && Ready(Uneven(), ZeroRow())
    ensures Row(Uneven(), ShortFirst(), i) == if i == 2 then [Zero6, One6] else [Zero6, Zero6]
  {
    hide ElemAt, Id, DataLen;
    UnevenReady();
    UnevenElem(i);
    var a := ShortFirst();
    assert EntryReadable(Uneven(), 0, a.entries[0]) && EntryReadable(Uneven(), 0, a.entries[1]);
  }

  lemma ZeroRowIsZero()
    ensures Ready(Uneven(), ZeroRow()) && Row(Uneven(), ZeroRow(), 0) == [Zero6, Zero6]
  {
    hide ElemAt, DataLen;
    UnevenReady();
    var rt, b, v := Uneven(), ZeroRow(), View(Registered(1, 0), 0);
    assert EntryReadable(rt, 1, b.entries[0]) && EntryReadable(rt, 1, b.entries[1]);
    UnshiftedAt(rt, v, 0);
  }

  lemma HornerPair(alpha: Ext, x: Ext)
    ensures Horner(alpha, [Zero6, x]) == x
  {
    hide Add, Mul;
    assert Horner(alpha, []) == Zero6;
    assert [Zero6][..0] == [];
    assert Horner(alpha, [Zero6]) == Add(Mul(Zero6, alpha), Zero6);
    assert [Zero6, x][..1] == [Zero6];
    MulUnits(alpha);
    AddZero(Zero6);
    AddZero(x);
  }

  /** Under every alpha the fast form accepts although row (0,1) is absent from B. */
  lemma AcceptsTooMuch(alpha: Ext)
    ensures AllReady(Uneven(), [ShortFirst()]) && AllReady(Uneven(), [ZeroRow()])
    ensures ProbedAccepts(Uneven(), alpha, [ShortFirst()], [ZeroRow()])
    ensures !Accepts(Uneven(), alpha, [ShortFirst()], [ZeroRow()])
  {
    hide Row, Horner, Ready, DataLen, Id;
    UnevenReady();
    var rt, a, b := Uneven(), ShortFirst(), ZeroRow();
    forall i | 0 <= i < 4
      ensures Row(rt, a, i) == (if i == 2 then [Zero6, One6] else [Zero6, Zero6])
    {
      UnevenRow(i);
    }
    ZeroRowIsZero();
    HornerPair(alpha, Zero6);
    HornerPair(alpha, One6);
    assert Row(rt, b, 0) in ProbedRows(rt, b);
    assert Hashes(alpha, ProbedRows(rt, b), Zero6);
    forall h | ProbedTarget(rt, alpha, [a], h) ensures ProbedTarget(rt, alpha, [b], h) {
      OnlyZero(alpha, h);
      TargetMember(rt, alpha, [b], 0, h);
    }
    assert Row(rt, a, 2) in AllRows(rt, a);
    assert Hashes(alpha, AllRows(rt, a), One6);
    assert Hashes(alpha, AllRows(rt, [a][0]), One6);
    assert Target(rt, alpha, [a], One6);
    OnlyZeroInB(alpha);
  }

  lemma OnlyZero(alpha: Ext, h: Ext)
    requires AllReady(Uneven(), [ShortFirst()]) && ProbedTarget(Uneven(), alpha, [ShortFirst()], h)
    ensures h == Zero6
  {
    hide Row, Horner, Ready, DataLen, Id;
    var rt, a := Uneven(), ShortFirst();
    assert [a][0] == a;
    UnevenReady();
    var r :| r in ProbedRows(rt, a) && h == Horner(alpha, r);
    var i :| 0 <= i < 4 && Probed(rt, a, i) && r == Row(rt, a, i);
    assert i != 2;
    UnevenRow(i);
    HornerPair(alpha, Zero6);
  }

  lemma OnlyZeroInB(alpha: Ext)
    requires AllReady(Uneven(), [ZeroRow()])
    ensures !Target(Uneven(), alpha, [ZeroRow()], One6)
  {
    hide Row, Horner, Ready, Id;
    var rt, b := Uneven(), ZeroRow();
    assert [b][0] == b;
    ZeroRowIsZero();
    HornerPair(alpha, Zero6);
    assert Zero6 != One6;
    forall r | r in AllRows(rt, b) ensures Horner(alpha, r) == Zero6 {
      var i :| 0 <= i < 1 && r == Row(rt, b, i);
    }
    assert !Hashes(alpha, AllRows(rt, [b][0]), One6);
  }
}
