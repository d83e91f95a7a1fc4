/** Lookup tables, their rows, and the cache key of a group of tables. */
module Tables {
  import opened KoalaBear
  import opened ExtField
  import opened Expressions
  import opened Columns

  /** A registered column's identifier packs its module and its position there. */
  datatype Column = Unregistered(mod: nat) | Registered(mod: nat, pos: nat)

  const Slots: int := 0x1_0000
  const Positions: int := 0x100_0000_0000

  predicate InRange(c: Column) { c.Registered? ==> c.mod < Slots && c.pos < Positions }

  /** Kind tag 1, then 16 bits of module, then 40 bits of position; 0 when unregistered. */
  function Id(c: Column): nat {
    if c.Unregistered? then 0 else (0x1_0000 + c.mod) * Positions + c.pos
  }

  lemma IdInjective(c: Column, d: Column)
    requires InRange(c) && InRange(d) && Id(c) == Id(d) != 0
    ensures c == d
  {
  }

  datatype View = View(column: Column, shift: int)
  datatype Entry = Constant(value: Elt) | Col(view: View)
  datatype Selector = NoSelector | SelectedBy(view: View)
  datatype Table = Table(entries: seq<Entry>, selector: Selector, mod: nat)

  predicate ViewOf(mod: nat, v: View) { v.column.mod == mod && InRange(v.column) }

  /** What the table constructors enforce. */
  predicate Constructed(t: Table) {
    && |t.entries| > 0
    && (forall j :: 0 <= j < |t.entries| && t.entries[j].Col? ==> ViewOf(t.mod, t.entries[j].view))
    && (t.selector.SelectedBy? ==> ViewOf(t.mod, t.selector.view))
    && (t.selector.SelectedBy? || exists j :: 0 <= j < |t.entries| && t.entries[j].Col?)
  }

  predicate AllConstructed(ts: seq<Table>) { forall k :: 0 <= k < |ts| ==> Constructed(ts[k]) }

  // ---- the key of a group of tables ----

  /** '0'-'9' then 'a'-'z'. */
  function Digit(d: nat): char
    requires d < 36
  {
    if d < 10 then '0' + d as char else 'a' + (d - 10) as char
  }

  predicate IsDigit(c: char) { '0' <= c <= '9' || 'a' <= c <= 'z' }

  function DigitValue(c: char): int {
    if c <= '9' then c as int - '0' as int else c as int - 'a' as int + 10
  }

  function Digits(n: nat): (s: string)
    ensures |s| > 0 && forall k :: 0 <= k < |s| ==> IsDigit(s[k])
  {
    if n < 36 then [Digit(n)] else Digits(n / 36) + [Digit(n % 36)]
  }

  /** The number a digit string denotes. */
  function Number(s: string): int {
    if |s| == 0 then 0 else Number(s[..|s| - 1]) * 36 + DigitValue(s[|s| - 1])
  }

  lemma {:induction false} NumberOfDigits(n: nat)
    ensures Number(Digits(n)) == n
  {
    if n < 36 {
      assert Number([Digit(n)]) == Number([Digit(n)][..0]) * 36 + DigitValue(Digit(n));
    } else {
      NumberOfDigits(n / 36);
      var s := Digits(n / 36);
      assert (s + [Digit(n % 36)])[..|s|] == s;
    }
  }

  predicate Stops(s: string) { |s| > 0 && !IsDigit(s[0]) }

  lemma ConcatAt(b: string, s: string, k: nat)
    requires k < |b + s|
    ensures k < |b| ==> (b + s)[k] == b[k]
  {
  }

  lemma NotShorter(a: string, b: string, r: string, s: string)
    requires Stops(r) && a + r == b + s && forall k :: 0 <= k < |b| ==> IsDigit(b[k])
    ensures |b| <= |a|
  {
    assert (a + r)[|a|] == r[0];
    ConcatAt(b, s, |a|);
  }

  /** A number followed by a delimiter is read back unambiguously. */
  lemma DigitsRead(n: nat, m: nat, r: string, s: string)
    requires Stops(r) && Stops(s) && Digits(n) + r == Digits(m) + s
    ensures n == m && r == s
  {
    var a, b := Digits(n), Digits(m);
    NotShorter(a, b, r, s);
    NotShorter(b, a, s, r);
    assert a == (a + r)[..|a|] && b == (b + s)[..|b|];
    assert r == (a + r)[|a|..] && s == (b + s)[|b|..];
    NumberOfDigits(n); NumberOfDigits(m);
  }

  function Signed(k: int): string { if k < 0 then "-" + Digits(-k) else Digits(k) }

  lemma DropFirst(c: string, x: string, y: string)
    requires |c| == 1 && c + x == c + y
    ensures x == y
  {
    assert (c + x)[1..] == x && (c + y)[1..] == y;
  }

  lemma SignedStart(k: int, r: string)
    ensures k < 0 ==> Signed(k) + r == "-" + (Digits(-k) + r)
    ensures k >= 0 ==> |Signed(k)| > 0 && IsDigit((Signed(k) + r)[0])
  {
    hide Digits;
  }

  lemma SignedRead(j: int, k: int, r: string, s: string)
    requires Stops(r) && Stops(s) && Signed(j) + r == Signed(k) + s
    ensures j == k && r == s
  {
    hide Digits;
    SignedStart(j, r); SignedStart(k, s);
    assert !IsDigit('-');
    if j < 0 && k < 0 {
      DropFirst("-", Digits(-j) + r, Digits(-k) + s);
      DigitsRead(-j, -k, r, s);
    } else if j >= 0 && k >= 0 {
      DigitsRead(j, k, r, s);
    }
  }

  function ViewKey(v: View): string { Digits(Id(v.column)) + ":" + Signed(v.shift) + "," }

  lemma ViewRead(v: View, w: View, r: string, s: string)
    requires InRange(v.column) && InRange(w.column) && Id(v.column) != 0 && Id(w.column) != 0
    requires ViewKey(v) + r == ViewKey(w) + s
    ensures v == w && r == s
  {
    hide Digits, Signed, Id;
    var x, y := Signed(v.shift) + ("," + r), Signed(w.shift) + ("," + s);
    assert ViewKey(v) + r == Digits(Id(v.column)) + (":" + x);
    assert ViewKey(w) + s == Digits(Id(w.column)) + (":" + y);
    DigitsRead(Id(v.column), Id(w.column), ":" + x, ":" + y);
    assert x == (":" + x)[1..] && y == (":" + y)[1..];
    SignedRead(v.shift, w.shift, "," + r, "," + s);
    assert r == ("," + r)[1..] && s == ("," + s)[1..];
    IdInjective(v.column, w.column);
  }

  function EntryKey(e: Entry): string {
    match e
    case Constant(c) => "#" + Digits(c) + ","
    case Col(v) => ViewKey(v)
  }

  predicate Keyable(v: View) { Id(v.column) != 0 }
  predicate EntryKeyable(e: Entry) { e.Col? ==> Keyable(e.view) }
  predicate EntryInRange(e: Entry) { e.Col? ==> InRange(e.view.column) }

  lemma ViewStart(v: View, r: string)
    ensures |ViewKey(v)| > 0 && IsDigit(ViewKey(v)[0])
    ensures (ViewKey(v) + r)[0] == ViewKey(v)[0]
  {
    hide Digits, Signed, Id;
  }

  lemma ConstantStart(c: Elt, r: string)
    ensures EntryKey(Constant(c)) + r == "#" + (Digits(c) + ("," + r))
  {
    hide Digits;
  }

  lemma ConstantRead(c: Elt, d: Elt, r: string, s: string)
    requires EntryKey(Constant(c)) + r == EntryKey(Constant(d)) + s
    ensures c == d && r == s
  {
    hide Digits, EntryKey;
    ConstantStart(c, r); ConstantStart(d, s);
    DropFirst("#", Digits(c) + ("," + r), Digits(d) + ("," + s));
    DigitsRead(c, d, "," + r, "," + s);
    DropFirst(",", r, s);
  }

  /** A view's key never starts as a constant's does. */
  lemma NoMix(c: Elt, v: View, r: string, s: string)
    ensures EntryKey(Constant(c)) + r != ViewKey(v) + s
  {
    hide Digits, EntryKey, ViewKey;
    ConstantStart(c, r);
    ViewStart(v, s);
    assert !IsDigit('#');
  }

  lemma EntryRead(e: Entry, f: Entry, r: string, s: string)
    requires EntryInRange(e) && EntryInRange(f) && EntryKeyable(e) && EntryKeyable(f)
    requires EntryKey(e) + r == EntryKey(f) + s
    ensures e == f && r == s
  {
    if e.Constant? && f.Constant? {
      ConstantRead(e.value, f.value, r, s);
    } else if e.Constant? {
      NoMix(e.value, f.view, r, s);
    } else if f.Constant? {
      NoMix(f.value, e.view, s, r);
    } else {
      ViewRead(e.view, f.view, r, s);
    }
  }

  function EntriesKey(es: seq<Entry>): string {
    if es == [] then "" else EntryKey(es[0]) + EntriesKey(es[1..])
  }

  predicate Entries(es: seq<Entry>) {
    forall j :: 0 <= j < |es| ==> EntryInRange(es[j]) && EntryKeyable(es[j])
  }

  lemma EntryStart(e: Entry, r: string)
    ensures |EntryKey(e)| > 0 && (EntryKey(e) + r)[0] == EntryKey(e)[0] != ';'
    ensures EntryKey(e)[0] != '|'
  {
    hide Digits, ViewKey, Id;
    if e.Col? { ViewStart(e.view, r); }
  }

  lemma {:induction false} EntriesRead(es: seq<Entry>, fs: seq<Entry>, r: string, s: string)
    requires Entries(es) && Entries(fs)
    requires EntriesKey(es) + (";" + r) == EntriesKey(fs) + (";" + s)
    ensures es == fs && r == s
    decreases |es|
  {
    hide EntryKey, EntryInRange, EntryKeyable;
    var x, y := EntriesKey(es) + (";" + r), EntriesKey(fs) + (";" + s);
    if es != [] {
      EntryStart(es[0], EntriesKey(es[1..]) + (";" + r));
      assert x == EntryKey(es[0]) + (EntriesKey(es[1..]) + (";" + r));
    } else {
      assert x == ";" + r;
    }
    if fs != [] {
      EntryStart(fs[0], EntriesKey(fs[1..]) + (";" + s));
      assert y == EntryKey(fs[0]) + (EntriesKey(fs[1..]) + (";" + s));
    } else {
      assert y == ";" + s;
    }
    if es == [] {
      assert x[1..] == r && y[1..] == s;
    } else {
      EntryRead(es[0], fs[0], EntriesKey(es[1..]) + (";" + r), EntriesKey(fs[1..]) + (";" + s));
      EntriesRead(es[1..], fs[1..], r, s);
      assert es == [es[0]] + es[1..] && fs == [fs[0]] + fs[1..];
    }
  }

  function SelectorKey(s: Selector): string { if s.SelectedBy? then ViewKey(s.view) else "" }

  predicate SelectorOk(s: Selector) { s.SelectedBy? ==> InRange(s.view.column) && Keyable(s.view) }

  lemma SelectorRead(a: Selector, b: Selector, r: string, s: string)
    requires SelectorOk(a) && SelectorOk(b)
    requires SelectorKey(a) + ("|" + r) == SelectorKey(b) + ("|" + s)
    ensures a == b && r == s
  {
    hide ViewKey, Id;
    var x, y := SelectorKey(a) + ("|" + r), SelectorKey(b) + ("|" + s);
    if a.SelectedBy? { ViewStart(a.view, "|" + r); } else { assert x == "|" + r; }
    if b.SelectedBy? { ViewStart(b.view, "|" + s); } else { assert y == "|" + s; }
    if a.SelectedBy? {
      ViewRead(a.view, b.view, "|" + r, "|" + s);
    }
    assert r == ("|" + r)[1..] && s == ("|" + s)[1..];
  }

  function TableKey(t: Table): string { EntriesKey(t.entries) + ";" + SelectorKey(t.selector) + "|" }

  predicate TableKeyable(t: Table) {
    (forall j :: 0 <= j < |t.entries| ==> EntryKeyable(t.entries[j]))
    && (t.selector.SelectedBy? ==> Keyable(t.selector.view))
  }

  /** The module is pinned by any view of the table. */
  lemma ModulePinned(t: Table, u: Table)
    requires Constructed(t) && Constructed(u) && t.entries == u.entries && t.selector == u.selector
    ensures t == u
  {
    if t.selector.NoSelector? {
      var j :| 0 <= j < |t.entries| && t.entries[j].Col?;
      assert u.entries[j].Col?;
    }
  }

  lemma TableRead(t: Table, u: Table, r: string, s: string)
    requires Constructed(t) && Constructed(u) && TableKeyable(t) && TableKeyable(u)
    requires TableKey(t) + r == TableKey(u) + s
    ensures t == u && r == s
  {
    hide EntriesKey, SelectorKey, Id;
    var x, y := SelectorKey(t.selector) + ("|" + r), SelectorKey(u.selector) + ("|" + s);
    assert TableKey(t) + r == EntriesKey(t.entries) + (";" + x);
    assert TableKey(u) + s == EntriesKey(u.entries) + (";" + y);
    EntriesRead(t.entries, u.entries, x, y);
    SelectorRead(t.selector, u.selector, r, s);
    ModulePinned(t, u);
  }

  function Key(ts: seq<Table>): string {
    if ts == [] then "" else Key(ts[..|ts| - 1]) + TableKey(ts[|ts| - 1])
  }

  function KeyFront(ts: seq<Table>): string {
    if ts == [] then "" else TableKey(ts[0]) + KeyFront(ts[1..])
  }

  lemma {:induction false} KeyIsKeyFront(ts: seq<Table>)
    ensures Key(ts) == KeyFront(ts)
  {
    hide TableKey;
    if |ts| == 1 {
      assert ts[..0] == [] && ts[1..] == [];
    } else if |ts| > 1 {
      var i := |ts| - 1;
      KeyIsKeyFront(ts[..i]);
      KeyIsKeyFront(ts[1..]);
      KeyIsKeyFront(ts[1..i]);
      assert ts[..i][1..] == ts[1..i] && ts[1..][..i - 1] == ts[1..i];
    }
  }

  predicate AllKeyable(ts: seq<Table>) { forall k :: 0 <= k < |ts| ==> TableKeyable(ts[k]) }

  lemma {:induction false} KeyFrontInjective(ts: seq<Table>, us: seq<Table>)
    requires AllConstructed(ts) && AllConstructed(us) && AllKeyable(ts) && AllKeyable(us)
    requires KeyFront(ts) == KeyFront(us)
    ensures ts == us
    decreases |ts|
  {
    hide TableKey, Constructed, TableKeyable;
    if ts != [] { TableKeyNonempty(ts[0]); }
    if us != [] { TableKeyNonempty(us[0]); }
    if ts != [] {
      TableRead(ts[0], us[0], KeyFront(ts[1..]), KeyFront(us[1..]));
      KeyFrontInjective(ts[1..], us[1..]);
      assert ts == [ts[0]] + ts[1..] && us == [us[0]] + us[1..];
    }
  }

  lemma TableKeyNonempty(t: Table)
    ensures |TableKey(t)| > 0
  {
  }

  /** Equal keys come from equal groups of tables. */
  lemma KeyInjective(ts: seq<Table>, us: seq<Table>)
    requires AllConstructed(ts) && AllConstructed(us) && AllKeyable(ts) && AllKeyable(us)
    ensures Key(ts) == Key(us) <==> ts == us
  {
    if Key(ts) == Key(us) {
      KeyIsKeyFront(ts); KeyIsKeyFront(us);
      KeyFrontInjective(ts, us);
    }
  }

  // ---- building the key ----

  method AppendEntries(key: string, es: seq<Entry>) returns (r: string, ok: bool)
    ensures ok <==> forall j :: 0 <= j < |es| ==> EntryKeyable(es[j])
    ensures ok ==> r == key + EntriesKey(es)
  {
    hide EntryKey, Keyable;
    r, ok := key, true;
    var j := 0;
    assert es[0..] == es && key + EntriesKey(es) == r + EntriesKey(es[0..]);
    while j < |es|
      invariant 0 <= j <= |es|
      invariant forall i :: 0 <= i < j ==> EntryKeyable(es[i])
      invariant key + EntriesKey(es) == r + EntriesKey(es[j..])
    {
      if es[j].Col? && !Keyable(es[j].view) { return r, false; }
      assert es[j..][0] == es[j] && es[j..][1..] == es[j + 1..];
      assert r + (EntryKey(es[j]) + EntriesKey(es[j + 1..])) == r + EntryKey(es[j]) + EntriesKey(es[j + 1..]);
      r := r + EntryKey(es[j]);
      j := j + 1;
    }
    assert r + "" == r;
  }

  /** The key of a group, refused when some column has no registered identity. */
  method InclusionSetKey(ts: seq<Table>) returns (key: string, ok: bool)
    ensures ok <==> AllKeyable(ts)
    ensures ok ==> key == Key(ts)
  {
    hide EntriesKey, EntryKeyable, Keyable, ViewKey;
    key, ok := "", true;
    for k := 0 to |ts|
      invariant forall i :: 0 <= i < k ==> TableKeyable(ts[i])
      invariant key == Key(ts[..k])
    {
      ghost var before := key;
      key, ok := AppendEntries(key, ts[k].entries);
      if !ok { return "", false; }
      key := key + ";";
      if ts[k].selector.SelectedBy? {
        if !Keyable(ts[k].selector.view) { return "", false; }
        key := key + ViewKey(ts[k].selector.view);
      }
      key := key + "|";
      assert key == before + TableKey(ts[k]);
      assert ts[..k + 1][..k] == ts[..k];
    }
    assert ts[..|ts|] == ts;
  }
}
