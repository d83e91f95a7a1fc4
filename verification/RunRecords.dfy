/** What running a program records: the compressions and the table entries of its
    instructions, which are exactly what the rows of any witness look up. */
module RunRecords {
  import opened KoalaBear
  import opened Cells
  import opened Program
  import opened InstrSound
  import opened InstrFrame
  import opened InstrRecords
  import opened MachineSound
  import opened WriteOnceRuns

  // ---- the records of a memory ----

  /** Every instruction addresses the memory. */
  predicate RunsOn(c: Code, mem: Memory) { forall k :: 0 <= k < |c.instrs| ==> Valid(c.instrs[k]) && InBounds(c.instrs[k], mem) }

  lemma BuiltRuns(c: Code, mem: Memory)
    requires Built(c) && |mem| == |c.counts|
    ensures RunsOn(c, mem)
  {
    hide Built, Valid, InBounds, InstrBuilt, TablesMatch;
    forall k | 0 <= k < |c.instrs| ensures Valid(c.instrs[k]) && InBounds(c.instrs[k], mem) { BuiltAt(c, k, mem); }
  }

  /** The compressions of the first n instructions, on a memory. */
  ghost function RunHashes(prims: Prims, c: Code, mem: Memory, n: nat): seq<(Cell, Cell)>
    requires RunsOn(c, mem) && n <= |c.instrs|
  { if n == 0 then [] else RunHashes(prims, c, mem, n - 1) + InstrHashes(prims, c.instrs[n - 1], mem) }

  /** The table entries the dynamic paths of the first n instructions read. */
  ghost function RunEntries(prims: Prims, c: Code, mem: Memory, n: nat): multiset<(nat, nat)>
    requires RunsOn(c, mem) && n <= |c.instrs|
  { if n == 0 then multiset{} else RunEntries(prims, c, mem, n - 1) + InstrEntries(prims, c.instrs[n - 1], mem) }

  /** The table entries the lookups among the first n instructions read. */
  ghost function RunLookups(c: Code, mem: Memory, n: nat): multiset<(nat, nat)>
    requires RunsOn(c, mem) && n <= |c.instrs|
  { if n == 0 then multiset{} else RunLookups(c, mem, n - 1) + InstrLookups(c.instrs[n - 1], mem) }

  // ---- later instructions change no record ----

  /** Running instruction k changes no cell that it or an earlier instruction uses. */
  lemma StepSameUses(prims: Prims, c: Code, k: nat, j: nat, m: Memory)
    requires Built(c) && j <= k < |c.instrs| && |m| == |c.counts| && Step(prims, c, k, m).Some?
    ensures SameUses(c.instrs[j], m, Step(prims, c, k, m).value)
  {
    hide Built, Step, InBounds, Valid, Uses, Available, TablesMatch;
    BuiltAt(c, j, m);
    var n := Step(prims, c, k, m).value;
    forall a | 0 <= a < |m| && Uses(c.instrs[j], a) ensures m[a] == n[a] { StepKeeps(prims, c, j, k, m, a); }
  }

  lemma {:induction false} StepRecords(prims: Prims, c: Code, k: nat, m: Memory, n: nat)
    requires Built(c) && n <= k + 1 && k < |c.instrs| && |m| == |c.counts| && Step(prims, c, k, m).Some?
    ensures RunsOn(c, m) && RunsOn(c, Step(prims, c, k, m).value)
    ensures RunHashes(prims, c, m, n) == RunHashes(prims, c, Step(prims, c, k, m).value, n)
    ensures RunEntries(prims, c, m, n) == RunEntries(prims, c, Step(prims, c, k, m).value, n)
  {
    hide Built, Step, InBounds, Valid, SameUses, InstrHashes, InstrEntries, InstrLookups;
    var next := Step(prims, c, k, m).value;
    BuiltRuns(c, m);
    BuiltRuns(c, next);
    if n > 0 {
      StepRecords(prims, c, k, m, n - 1);
      StepSameUses(prims, c, k, n - 1, m);
      RecordFrame(prims, c.instrs[n - 1], m, next);
    }
  }

  lemma RecordsNext(prims: Prims, c: Code, mem: Memory, k: nat)
    requires RunsOn(c, mem) && k < |c.instrs|
    ensures RunHashes(prims, c, mem, k + 1) == RunHashes(prims, c, mem, k) + InstrHashes(prims, c.instrs[k], mem)
    ensures RunEntries(prims, c, mem, k + 1) == RunEntries(prims, c, mem, k) + InstrEntries(prims, c.instrs[k], mem)
  {
    hide Valid, InBounds, InstrHashes, InstrEntries;
  }

  // ---- what the rows look up ----

  predicate RowsFit(c: Code, rows: seq<Rows>) {
    && |rows| == |c.instrs|
    && forall k :: 0 <= k < |rows| ==> Valid(c.instrs[k]) && Fits(c.instrs[k], rows[k])
  }

  /** The compressions the rows of the first n instructions look up. */
  ghost function LookedUpHashes(c: Code, rows: seq<Rows>, n: nat): seq<(Cell, Cell)>
    requires RowsFit(c, rows) && n <= |rows|
  {
    if n == 0 then [] else LookedUpHashes(c, rows, n - 1) + ActiveHashes(HashReads(c.instrs[n - 1], rows[n - 1]))
  }

  /** The table entries the rows of the first n instructions look up. */
  ghost function LookedUpEntries(c: Code, rows: seq<Rows>, n: nat): seq<(nat, nat)>
    requires RowsFit(c, rows) && n <= |rows|
  {
    if n == 0 then [] else LookedUpEntries(c, rows, n - 1) + ActiveEntries(EntryReads(c.instrs[n - 1], rows[n - 1]))
  }

  /** Every instruction's rows meet its constraints on the memory. */
  ghost predicate AllMeet(prims: Prims, c: Code, rows: seq<Rows>, mem: Memory) {
    |rows| == |c.instrs| && forall k :: 0 <= k < |rows| ==> Meets(prims, c.tables, c.instrs[k], rows[k], mem)
  }

  lemma MeetFit(prims: Prims, c: Code, rows: seq<Rows>, mem: Memory)
    requires AllMeet(prims, c, rows, mem)
    ensures RowsFit(c, rows) && RunsOn(c, mem)
  {
    hide Valid, Fits, PolyOk, InBounds, Given, Agree, TablesMatch, EntriesOk, HashesOk, EntryReads, HashReads, Slots, Vals;
    forall k | 0 <= k < |rows| ensures Valid(c.instrs[k]) && Fits(c.instrs[k], rows[k]) && InBounds(c.instrs[k], mem) {
      assert Meets(prims, c.tables, c.instrs[k], rows[k], mem);
    }
  }

  /** Rows that meet the constraints look up exactly what the run records. */
  lemma {:induction false} RowsRecord(prims: Prims, c: Code, rows: seq<Rows>, mem: Memory, n: nat)
    requires AllMeet(prims, c, rows, mem) && n <= |c.instrs|
    ensures RowsFit(c, rows) && RunsOn(c, mem) && LookedUpHashes(c, rows, n) == RunHashes(prims, c, mem, n)
    ensures multiset(LookedUpEntries(c, rows, n)) == RunEntries(prims, c, mem, n) + RunLookups(c, mem, n)
  {
    hide Meets, RowsFit, ActiveHashes, ActiveEntries, HashReads, EntryReads, InstrHashes, InstrEntries, InstrLookups, Valid, Fits, InBounds;
    MeetFit(prims, c, rows, mem);
    if n > 0 {
      RowsRecord(prims, c, rows, mem, n - 1);
      InstrRecords.InstrRecords(prims, c.tables, c.instrs[n - 1], rows[n - 1], mem);
      EntriesNext(c, rows, n);
    }
  }

  lemma EntriesNext(c: Code, rows: seq<Rows>, n: nat)
    requires RowsFit(c, rows) && 0 < n <= |rows|
    ensures multiset(LookedUpEntries(c, rows, n))
         == multiset(LookedUpEntries(c, rows, n - 1)) + multiset(ActiveEntries(EntryReads(c.instrs[n - 1], rows[n - 1])))
  {
    hide ActiveEntries, EntryReads, Valid, Fits;
  }

  /** Every witness looks up what executing the program on its inputs records: the same
      compressions in the same order, and as many reads of each table entry. */
  lemma WitnessRecords(prims: Prims, c: Code, w: Witness)
    requires Built(c) && Satisfies(prims, c, w) && NoZeroDivisor(prims, c, MemoryOf(prims, c, w))
    ensures RowsFit(c, w.rows) && MachineSound.InRange(c) && Execute(prims, c, w.inputs).Some?
    ensures var mem, n := Execute(prims, c, w.inputs).value, |c.instrs|;
      && RunsOn(c, mem) && LookedUpHashes(c, w.rows, n) == RunHashes(prims, c, mem, n)
      && multiset(LookedUpEntries(c, w.rows, n)) == RunEntries(prims, c, mem, n) + RunLookups(c, mem, n)
  {
    hide Built, Satisfies, MemoryOf, NoZeroDivisor, Meets, RowsFit, Valid, Fits, Execute, Executed;
    SatisfiesShape(prims, c, w);
    MachineSound.MachineSound(prims, c, w);
    forall k | 0 <= k < |c.instrs| ensures Meets(prims, c.tables, c.instrs[k], w.rows[k], MemoryOf(prims, c, w)) {
      InstrMeets(prims, c, w, k);
    }
    RowsRecord(prims, c, w.rows, MemoryOf(prims, c, w), |c.instrs|);
  }
}
