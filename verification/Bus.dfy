/** The bus: signed multiplicities of tuples that balance modulo P. Each log-derivative sum
    is idealised as the balance of every tuple's multiplicity, with fewer than P accesses. */
module Bus {
  import opened KoalaBear
  import opened Cells

  /** One access: a write with its multiplicity, or a read with minus its selector. */
  datatype Access<T> = Access(tuple: T, mult: int, write: bool)

  /** The total multiplicity of a tuple. */
  function Total<T(==)>(acc: seq<Access<T>>, t: T): int {
    if acc == [] then 0
    else
      var last := acc[|acc| - 1];
      Total(acc[..|acc| - 1], t) + if last.tuple == t then last.mult else 0
  }

  ghost predicate Balanced<T(!new)>(acc: seq<Access<T>>) { forall t :: Zero(Total(acc, t)) }

  /** Reads count zero or minus one. */
  predicate ReadsOnce<T>(acc: seq<Access<T>>) {
    forall i :: 0 <= i < |acc| && !acc[i].write ==> acc[i].mult == 0 || acc[i].mult == -1
  }

  predicate Written<T(==)>(acc: seq<Access<T>>, t: T) { exists j :: 0 <= j < |acc| && acc[j].write && acc[j].tuple == t }

  /** Without a write, a tuple's total is minus its number of active reads. */
  lemma {:induction false} OnlyReads<T>(acc: seq<Access<T>>, t: T)
    requires ReadsOnce(acc) && !Written(acc, t)
    ensures -|acc| <= Total(acc, t) <= 0
    ensures (exists i :: 0 <= i < |acc| && acc[i].tuple == t && acc[i].mult == -1) ==> Total(acc, t) < 0
  {
    if acc != [] {
      var n := |acc| - 1;
      var init := acc[..n];
      assert forall i :: 0 <= i < n ==> init[i] == acc[i];
      assert forall j :: 0 <= j < n && init[j].write ==> acc[j].write;
      OnlyReads(init, t);
      assert acc[n].tuple == t ==> !acc[n].write;
    }
  }

  /** A balanced active read matches a write of its tuple. */
  lemma ReadMatches<T(!new)>(acc: seq<Access<T>>, i: nat)
    requires Balanced(acc) && |acc| < P && ReadsOnce(acc)
    requires i < |acc| && acc[i].mult == -1 && !acc[i].write
    ensures Written(acc, acc[i].tuple)
  {
    var t := acc[i].tuple;
    assert Zero(Total(acc, t));
    if !Written(acc, t) {
      OnlyReads(acc, t);
    }
  }

  // ---- the memory ----

  predicate InRange(slots: seq<Slot>, n: nat) { forall i :: 0 <= i < |slots| ==> slots[i].addr < n }

  /** Every address below n has exactly one write. */
  predicate WriteOnce(slots: seq<Slot>, n: nat) {
    InRange(slots, n) && forall a :: 0 <= a < n ==> multiset(slots)[Slot(a, true)] == 1
  }

  /** The access of a slot: a write counts its address's reads, a read minus one. */
  function MemAccess(s: Slot, v: Cell, counts: seq<nat>): Access<(nat, Cell)>
    requires s.addr < |counts|
  {
    Access((s.addr, v), if s.write then counts[s.addr] else -1, s.write)
  }

  function MemAccesses(slots: seq<Slot>, vals: seq<Cell>, counts: seq<nat>): (r: seq<Access<(nat, Cell)>>)
    requires |slots| == |vals| && InRange(slots, |counts|)
    ensures |r| == |slots|
  {
    seq(|slots|, i requires 0 <= i < |slots| => MemAccess(slots[i], vals[i], counts))
  }

  /** Where an address is written. */
  function Writer(slots: seq<Slot>, a: nat): (i: nat)
    requires Slot(a, true) in slots
    ensures i < |slots| && slots[i] == Slot(a, true)
  {
    if slots[|slots| - 1] == Slot(a, true) then |slots| - 1 else Writer(slots[..|slots| - 1], a)
  }

  lemma OneWriter(slots: seq<Slot>, i: nat, j: nat)
    requires i < |slots| && j < |slots| && slots[i] == slots[j] && multiset(slots)[slots[i]] == 1
    ensures i == j
  {
    if i < j { CountTwo(slots, i, j); }
    if j < i { CountTwo(slots, j, i); }
  }

  lemma CountTwo(slots: seq<Slot>, i: nat, j: nat)
    requires i < j < |slots| && slots[i] == slots[j]
    ensures multiset(slots)[slots[i]] >= 2
  {
    var a, b := slots[..j], slots[j..];
    assert slots == a + b;
    assert a[i] == slots[i] && b[0] == slots[j];
    assert slots[i] in multiset(a) && slots[i] in multiset(b);
  }

  lemma HasWriter(slots: seq<Slot>, n: nat, a: nat)
    requires WriteOnce(slots, n) && a < n
    ensures Slot(a, true) in slots
  {
    assert Slot(a, true) in multiset(slots);
  }

  /** The memory the writes define. */
  ghost function MemoryOf(slots: seq<Slot>, vals: seq<Cell>, n: nat): (mem: Memory)
    requires |slots| == |vals| && WriteOnce(slots, n)
    ensures |mem| == n
  {
    seq(n, a requires 0 <= a < n => (HasWriter(slots, n, a); vals[Writer(slots, a)]))
  }

  /** Write-once memory: if the sum balances, every read returns the value written at its
      address. */
  lemma MemorySound(slots: seq<Slot>, vals: seq<Cell>, counts: seq<nat>)
    requires |slots| == |vals| < P && WriteOnce(slots, |counts|) && Balanced(MemAccesses(slots, vals, counts))
    ensures Agree(slots, vals, MemoryOf(slots, vals, |counts|))
  {
    var n, acc := |counts|, MemAccesses(slots, vals, counts);
    var mem := MemoryOf(slots, vals, n);
    forall i | 0 <= i < |slots| ensures slots[i].addr < n && mem[slots[i].addr] == vals[i] {
      SlotAgrees(slots, vals, counts, i);
    }
  }

  lemma SlotAgrees(slots: seq<Slot>, vals: seq<Cell>, counts: seq<nat>, i: nat)
    requires |slots| == |vals| < P && WriteOnce(slots, |counts|) && Balanced(MemAccesses(slots, vals, counts)) && i < |slots|
    ensures slots[i].addr < |counts| && MemoryOf(slots, vals, |counts|)[slots[i].addr] == vals[i]
  {
    var acc, a := MemAccesses(slots, vals, counts), slots[i].addr;
    HasWriter(slots, |counts|, a);
    var w := Writer(slots, a);
    var j := i;
    if !slots[i].write {
      assert ReadsOnce(acc);
      ReadMatches(acc, i);
      j :| 0 <= j < |acc| && acc[j].write && acc[j].tuple == acc[i].tuple;
    }
    assert slots[j] == Slot(a, true);
    OneWriter(slots, j, w);
  }

  /** The multiplicities of an address and a value, when every access agrees with a memory. */
  function Net(slots: seq<Slot>, counts: seq<nat>, mem: Memory, t: (nat, Cell)): int
    requires |mem| == |counts|
  {
    if t.0 < |mem| && mem[t.0] == t.1 then
      var written: int := counts[t.0] * multiset(slots)[Slot(t.0, true)];
      written - multiset(slots)[Slot(t.0, false)]
    else 0
  }

  lemma {:induction false} TotalIsNet(slots: seq<Slot>, vals: seq<Cell>, counts: seq<nat>, mem: Memory, t: (nat, Cell))
    requires |slots| == |vals| && InRange(slots, |counts|) && |mem| == |counts| && Agree(slots, vals, mem)
    ensures Total(MemAccesses(slots, vals, counts), t) == Net(slots, counts, mem, t)
  {
    if slots != [] {
      var n := |slots| - 1;
      var acc := MemAccesses(slots, vals, counts);
      assert slots == slots[..n] + [slots[n]];
      assert acc[..n] == MemAccesses(slots[..n], vals[..n], counts);
      TotalIsNet(slots[..n], vals[..n], counts, mem, t);
      NetStep(slots[..n], slots[n], counts, mem, t);
    }
  }

  lemma NetStep(slots: seq<Slot>, s: Slot, counts: seq<nat>, mem: Memory, t: (nat, Cell))
    requires |mem| == |counts| && s.addr < |mem|
    ensures Net(slots + [s], counts, mem, t) == Net(slots, counts, mem, t)
      + if t.0 == s.addr && t.1 == mem[s.addr] then (if s.write then counts[s.addr] else -1) else 0
  {
    if t.0 == s.addr && t.1 == mem[s.addr] {
      var c, w := counts[t.0], multiset(slots)[Slot(t.0, true)];
      assert c * (w + 1) == c * w + c;
    }
  }

  /** The multiplicity written at every address is its number of reads. */
  predicate Counted(slots: seq<Slot>, counts: seq<nat>) {
    forall a :: 0 <= a < |counts| ==> counts[a] == multiset(slots)[Slot(a, false)]
  }

  /** Completeness: accesses that all agree with a memory balance. */
  lemma MemoryBalances(slots: seq<Slot>, vals: seq<Cell>, counts: seq<nat>, mem: Memory)
    requires |slots| == |vals| && WriteOnce(slots, |counts|) && Counted(slots, counts)
    requires |mem| == |counts| && Agree(slots, vals, mem)
    ensures Balanced(MemAccesses(slots, vals, counts))
  {
    var acc := MemAccesses(slots, vals, counts);
    forall t ensures Zero(Total(acc, t)) {
      TotalIsNet(slots, vals, counts, mem, t);
      if t.0 < |mem| { assert counts[t.0] * 1 == counts[t.0]; }
    }
  }
}
