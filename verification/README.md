# Verified model of the prover core

This project models the core of `prover-ray` in Dafny and proves what its
components are relied upon for. `dafny verify dfyconfig.toml` checks all of it.

## What is modelled

**Fields.** `KoalaBear` is arithmetic modulo p = 127 * 2^24 + 1, with the
primality of p proved (Proth's criterion), so that "no zero divisors" and
inverses are theorems. `ExtField` is the degree-6 tower F_p[u]/(u^2 - 3)[v]/(v^3 - (u + 1)).

**The expression compiler and its vector machine** (`Expressions`,
`ExprCompiler`, `ExprMachine`). Expressions are a shared graph of pointers. The
compiler sorts it, analyses liveness, allocates typed slots from two free
lists and emits bytecode; the machine runs it in place. The result is the
recursive evaluation at every row, because no live slot is ever overwritten.

**Rewriting and row lowering** (`Editing`, `RowLowering`). The memoised
rebuild is the naive tree rebuild; lowering an expression to a row reads that
row of the vector evaluation.

**Columns and Lagrange evaluation** (`Columns`, `Barycentric`,
`Interpolation`, `LagrangeEval`, `LagrangePadded`). Padding, cyclic shifts, and
batch evaluation with shared weight tables, row chunks and separate padding
sums. The batch gives the plain barycentric value of every padded, shifted
column, which is the value of the interpolated polynomial off the domain.

**Inclusion checks** (`Tables`, `RowHashes`, `Inclusion`). The cached set of row
hashes and the single probe of the padding rows, against the scan of all rows;
how many values of alpha let a missing row through.

**The recursion machine.** `Constraints` and `Cells` are the vocabulary of the
chips. Each chip (`ChipBits`, `ChipDPath`, `ChipMerkle` with `MerklePath`,
`ChipWindow` with `Packing`, `ChipE6`, `ChipSelect`, `ChipMD`, `ChipTable`) is
modelled twice, as the polynomial constraints on its rows and as its
execution, with soundness and completeness between the two. `Bus` is the
balance of signed accesses. `Program`, `InstrSound`, `InstrFrame` and
`InstrComplete` put the chips behind one instruction type. `MachineBuilder`
and `Builder` are the builder and its invariant, `Executor` the executor.
`MachineSound` and `MachineComplete` are the two theorems about whole programs;
`WriteOnceRuns` says that a run writes each cell once. `InstrRecords` and
`RunRecords` tie the compressions and table reads a run records to the lookups
of the rows.

**Poseidon2** (`Poseidon2`, `Poseidon2Air`, `LinearForms`, `CubeRoots`,
`PermutationInjective`, `Compression`). The in-place matrix layers, the
constraints built from tracked linear forms, and the trace: a row meets the
constraints if and only if it is the trace of its inputs. The S-box, both
layers and hence the permutation are injective.

**Conglomeration** (`Conglomeration`, `MockMerger`, `ConglomerationRoot`,
`ReducerOutcome`). The
mutex-guarded reducer as a transition system with the steps Add, Complete,
Close and Proceed, and the merger whose result does not depend on the schedule.

## Findings

- The doc comment of the inclusion check says that, without shifts, all padding
  rows of a table hash alike. The code decides where padding starts from the
  first column view only, so this fails when another column or the selector
  stores more rows than the first view and at least two rows are padding.
  `Inclusion.AcceptsTooMuch` is such a table; `Inclusion.AnchorExactIff` is the
  exact condition.
- The same comment bounds the chance of a false acceptance by (total rows) /
  |field|. Rows are polynomials in alpha of degree up to their width less one,
  so the bound lacks that factor: `RowHashes.ThreeCollisions` has two rows of
  width four that agree at three points. `Inclusion.FewFalseAccepts` is the
  bound with the factor.
- The barycentric formula is evaluated with zero for the inverse of zero. At a
  point of the domain the result is therefore zero, not the column's value
  there: `Interpolation.EvaluatesIff`.
- The doc comment of `LagrangeEval` omits the factor omega^i of the weights
  that the code multiplies in; the model follows the code.

## Model

| member | source | states |
|---|---|---|
| `ExprCompiler.TopologicalSort.Visit` | prover-ray/wiop/expression_compiler.go:74-94 | Appends exactly the nodes below the visited one that were not there yet, each once and after its operands; shared pointers are visited once |
| `ExprCompiler.Liveness` | prover-ray/wiop/expression_compiler.go:119-139 | Each entry is the position of the last instruction that reads the node, n for the result and -1 for a node nobody reads |
| `ExprCompiler.SlotAllocator.GetSlot` | prover-ray/wiop/expression_compiler.go:141-165 | The slot handed out has the wanted type and was free or new; the free lists lose exactly that slot and never list a slot twice |
| `ExprCompiler.SlotAllocator.Release` | prover-ray/wiop/expression_compiler.go:207-220 | A slot that is not free joins the list of its own type; nothing else changes |
| `ExprCompiler.AssignSlot` | prover-ray/wiop/expression_compiler.go:172-175 | The next node's slot has its static type and differs from the slot of every node still to be read |
| `ExprCompiler.ReleaseOperands` | prover-ray/wiop/expression_compiler.go:206-220 | Frees only slots whose last reader is this instruction, once each even for repeated operands, so no live node's slot reaches a free list |
| `ExprCompiler.CompileExpr` | prover-ray/wiop/expression_compiler.go:73-231 | The program is the bytecode of a schedule of exactly the nodes below the root in which no instruction overwrites a slot still to be read, every slot has its node's type and the result slot is the root's |
| `ExprCompiler.SlotSafety` | prover-ray/wiop/expression_compiler.go:120-222 | At every instruction the live nodes sit in pairwise distinct slots, the destination aliases no operand, and each operand's slot still holds that operand |
| `ExprMachine.PrepareLeaves` | prover-ray/wiop/expression_compiler.go:241-293 | Scalar leaves are broadcast to the common length of the vector leaves; a length mismatch or the absence of a vector is reported exactly when it occurs |
| `ExprMachine.StepAt` | prover-ray/wiop/expression_compiler.go:311-377 | One typed in-place vector instruction computes, at each row, what the scalar operator computes on that row's operands, for every mix of base and extension operands |
| `ExprMachine.Execute` | prover-ray/wiop/expression_compiler.go:307-380 | Running the bytecode leaves the expression's value in the result slot, and panics exactly when a leaf's tag is not its declared type |
| `ExprMachine.EvaluateVector` | prover-ray/wiop/expression.go:299-306 | Compile-then-run succeeds exactly when the expression has a vector leaf, equal lengths and matching tags, and then every row is the recursive evaluation of the expression at that row |
| `Expressions.GenMulIsMul` | prover-ray/maths/koalabear/field/gen.go:82-98 | The tag-dispatching product is the extension-field product, and is tagged base exactly when both factors are |
| `Editing.Editor.Edit` | prover-ray/wiop/expression_ops.go:44-60 | The memoised recursion returns the naive rebuild of the node's tree, memoises exactly the nodes below it and calls the constructor once for each |
| `Editing.EditExpression` | prover-ray/wiop/expression_ops.go:38-40 | For every pure constructor and every shared graph, the result is the naive tree rebuild, and the constructor runs exactly once per distinct node below the root |
| `Editing.DefaultIsIdentity` | prover-ray/wiop/expression_ops.go:65-71 | Rebuilding with the default constructor gives back the expression |
| `RowLowering.LoweringPreserves` | prover-ray/wiop/query_local_constraint.go:64-118 | For every expression on a sized module and every position, the lowered expression is scalar and evaluates to row (position mod n) of the vector evaluation, whatever base or extension tags its values carry |
| `RowLowering.LoweredReadsRow` | prover-ray/wiop/query_local_constraint.go:18-28 | Compared with the vector the compiled program computes, the lowered expression reads the row it is pinned to |
| `RowLowering.LowerToRow` | prover-ray/wiop/query_local_constraint.go:64-94 | The memoised rewrite returns the lowered expression, with that meaning |
| `RowLowering.PositionReads` | prover-ray/wiop/wiop_column.go:606-689 | A position reads row (position mod n) of the unshifted view, so a negative one counts from the end |
| `RowLowering.ApplyMeans` | prover-ray/wiop/expression.go:308-338 | The operators are the field's: subtraction and negation undo addition, division and inversion undo multiplication by a nonzero operand, whatever the tags |
| `RowLowering.ViewAt` | prover-ray/wiop/wiop_column.go:350-373 | Row r of a view's vector is the padded column at row (r + shift) mod n |
| `Columns.PaddedAt` | prover-ray/wiop/common.go:82-118 | Row r of the padding-expanded column is what indexed access reads there, for each padding direction |
| `Columns.WrapIsMod` | prover-ray/wiop/query_table_relation.go:799-802 | Both ways of normalising an offset with a truncating remainder give the mathematical remainder, negative offsets included |
| `Columns.RotateLeft` | prover-ray/wiop/wiop_column.go:438-450 | The in-place two-piece rotation puts row (i + offset) mod n at row i, for any integer offset |
| `Columns.EvaluateView` | prover-ray/wiop/wiop_column.go:350-450 | Bulk copies followed by the rotation give, at every row, the element that indexed access reads at the shifted row |
| `Barycentric.RootOfUnityBy` | prover-ray/maths/koalabear/field/field.go:245-262 | Repeated squaring of the 2^24-th root gives the generator of the domain of 2^k points |
| `Barycentric.RootPower` | prover-ray/maths/koalabear/field/field.go:245-262 | The generator of the domain of 2^k points has order dividing 2^k |
| `Barycentric.ExpIntReduced` | prover-ray/wiop/query_lagrange_eval.go:188-193 | Raising a root of the domain to any shift, negative ones through the inverse, is raising it to the shift modulo n |
| `Barycentric.BaryShift` | prover-ray/wiop/query_lagrange_eval.go:188-193 | The barycentric value of a column at z times the k-th power of the generator is the value at z of the column shifted by k |
| `Interpolation.BaryInterpolates` | prover-ray/wiop/query_lagrange_eval.go:160-168 | Off the domain, the barycentric sum over the samples of any polynomial of degree below n is that polynomial's value at z |
| `Interpolation.EvaluatesIff` | prover-ray/wiop/query_lagrange_eval.go:160-168 | The formula gives the polynomial's value at z exactly when z is off the domain or a zero of the polynomial; at any domain point it gives zero |
| `LagrangeEval.CollectDomains` | prover-ray/wiop/query_lagrange_eval.go:170-203 | Every polynomial gets the domain of its size and shifted point, and no two weight tables have the same key |
| `LagrangeEval.FillChunk` | prover-ray/wiop/query_lagrange_eval.go:224-245 | A chunk of a weight table is filled in place with the weights of its rows; the other rows are untouched |
| `LagrangeEval.BuildTable` | prover-ray/wiop/query_lagrange_eval.go:212-245 | For any chunk size the table holds the barycentric weight of every row |
| `LagrangeEval.PartialSum` | prover-ray/wiop/query_lagrange_eval.go:257-292 | A chunk's share, with padding rows summed apart from data rows, is the weighted sum of the padded column over the chunk, for every placement of the data in the chunk |
| `LagrangeEval.BuildParts` | prover-ray/wiop/query_lagrange_eval.go:205-210 | In whatever order the owners are laid out, the shares of each owner's parts add up to its whole sum |
| `LagrangeEval.RunParts` | prover-ray/wiop/query_lagrange_eval.go:256-292 | Whatever order the parts are picked up in, each slot receives its own part's sum |
| `LagrangeEval.AddUp` | prover-ray/wiop/query_lagrange_eval.go:294-297 | Each total is the sum of its owner's parts |
| `LagrangeEval.ScaleOf` | prover-ray/wiop/query_lagrange_eval.go:299-315 | Repeated squaring gives (z^n - 1)/n |
| `LagrangeEval.EvalPolynomialsShared` | prover-ray/wiop/query_lagrange_eval.go:169-327 | Every polynomial gets the plain barycentric sum over its fully padded, shifted column, for every padding direction, shift, chunk size, owner order and schedule |
| `LagrangePadded.EvalPaddedBase` | prover-ray/wiop/query_lagrange_eval.go:494-536 | The base-field variant computes the barycentric value of the padded column |
| `LagrangePadded.EvalPaddedExt` | prover-ray/wiop/query_lagrange_eval.go:539-584 | The variant for extension data at a base point computes the barycentric value of the padded column |
| `LagrangePadded.EvalLagrangePadded` | prover-ray/wiop/query_lagrange_eval.go:332-354 | A padded, shifted view evaluated alone at a base point gets the value the shared evaluation defines, tagged base exactly for base data |
| `LagrangePadded.ValueIsPolynomial` | prover-ray/wiop/query_lagrange_eval.go:14-24 | If a view's rows sample a polynomial of degree below n, its evaluation is that polynomial at z exactly when z is off the domain or a zero of it |
| `Tables.KeyInjective` | prover-ray/wiop/query_table_relation.go:605-660 | Two groups of well-formed, registered tables have the same key if and only if they are the same tables: entries, constants, shifts, selectors and modules |
| `Tables.InclusionSetKey` | prover-ray/wiop/query_table_relation.go:605-633 | A group gets its key exactly when every column it mentions is registered |
| `Tables.DigitsRead` | prover-ray/wiop/query_table_relation.go:649-660 | A base-36 number followed by a delimiter is read back unambiguously |
| `Inclusion.RowHash` | prover-ray/wiop/query_table_relation.go:774-783 | The tag-dispatching accumulation is the sum of row[j] alpha^(m-1-j) over the m entries of the row |
| `RowHashes.HornerIsPowers` | prover-ray/wiop/query_table_relation.go:774-783 | Horner's rule on a row is the sum of its entries times explicit powers of alpha |
| `RowHashes.FewCollisions` | prover-ray/wiop/query_table_relation.go:530-538 | Two different rows of width m have the same hash for at most m - 1 values of alpha |
| `RowHashes.ThreeCollisions` | prover-ray/wiop/query_table_relation.go:530-538 | Two rows of width four with the same hash at alpha = 1, 2 and 3, more values than there are rows |
| `Inclusion.FewFalseAccepts` | prover-ray/wiop/query_table_relation.go:530-538 | If a row of A is missing from B, the scan accepts for at most (m - 1) values of alpha per selected row of B |
| `Inclusion.FirstViewIs` | prover-ray/wiop/query_table_relation.go:234-244 | The view that decides the padding is the first column in declaration order, or the selector when every entry is a constant |
| `Inclusion.ProbedIsAll` | prover-ray/wiop/query_table_relation.go:540-545 | The rows the fast form looks at are rows of the table, and under the guard every selected row equals one of them |
| `Inclusion.AnchorExactIff` | prover-ray/wiop/query_table_relation.go:540-545 | One padding row stands for all, for every assignment of a given shape, if and only if the table is scanned in full, has at most one padding row, or no column or selector stores more rows than its first view |
| `Inclusion.AcceptsTooMuch` | prover-ray/wiop/query_table_relation.go:732-772 | A two-column table whose second column is the longer one: under every alpha the check accepts although a selected row of A is absent from B |
| `Inclusion.BuildSet` | prover-ray/wiop/query_table_relation.go:662-708 | Adds to the set exactly the hashes of the selected rows that the fast form looks at |
| `Inclusion.CheckSet` | prover-ray/wiop/query_table_relation.go:710-772 | Succeeds exactly when the hash of every selected row that the fast form looks at is in the set |
| `Inclusion.InclusionSetCache.SetFor` | prover-ray/wiop/query_table_relation.go:584-602 | Whether served from the cache or built, the set is the one of exactly these tables; every cached set stays the set of every group with its key |
| `Inclusion.InclusionSetCache.CheckInclusion` | prover-ray/wiop/query_table_relation.go:530-554 | The cached check accepts exactly when the uncached fast form does, and exactly when the scan of all rows does if the guard holds for the tables of A and B |
| `Inclusion.InclusionSetCache.CheckPass` | prover-ray/wiop/wiop_prove_verify.go:415-434 | A pass over many queries sharing one cache accepts exactly when every query on its own does |
| `Inclusion.InclusionMeaning` | prover-ray/wiop/query_table_relation.go:530-538 | The scan accepts every true inclusion under every alpha, and, if alpha separates the rows involved, nothing else |
| `MockMerger.InterleaveUnites` | prover-ray/conglomeration/conglomeration.go:60-80 | Merging two increasing coverages succeeds exactly when they are disjoint, and gives the increasing union with every index counted |
| `MockMerger.MergeCoverage` | prover-ray/conglomeration/conglomeration.go:62-80 | The two-index loop computes that merge, overlaps reported |
| `MockMerger.CheckCoverageComplete` | prover-ray/conglomeration/conglomeration.go:84-94 | Accepts exactly the coverage 0, 1, ..., numShards - 1 |
| `MockMerger.Merge` | prover-ray/conglomeration/mock.go:34-89 | Rejects bad counts and shapes, then folds the children into the first, rejecting overlaps and disagreements; a merged node has the empty proof |
| `MockMerger.MergeIsAdditive` | prover-ray/conglomeration/mock.go:34-89 | A merged node covers the union of its children, multiplies their handle products, adds their contributions and shares their common inputs |
| `MockMerger.Finalize` | prover-ray/conglomeration/mock.go:92-108 | Accepts exactly when coverage is complete, every handle product is one and, if seeded, the seed derives from the contribution |
| `Conglomeration.ReducerSafety` | prover-ray/conglomeration/conglomeration.go:101-199 | In every interleaving: at most maxInFlight merges run, every merge has 2 to 6 children, only the last has fewer than 6, and n shards take exactly ceil((n-1)/5) merges |
| `Conglomeration.RunKeepsError` | prover-ray/conglomeration/conglomeration.go:133-142 | The first failure is never replaced, whatever happens afterwards |
| `Conglomeration.CloseProgress` | prover-ray/conglomeration/conglomeration.go:146-167 | A waiting Close is never stuck, and every step that can happen brings it strictly nearer to returning |
| `Conglomeration.Conservation` | prover-ray/conglomeration/conglomeration.go:101-199 | For every schedule and every commutative quantity that merging adds up: ready and running nodes together hold exactly what was added, and so does the node Close returns |
| `Conglomeration.Reducer.AddNode` | prover-ray/conglomeration/conglomeration.go:133-142 | Under the mutex, Add is the Add step of the transition system, and reports an earlier failure |
| `Conglomeration.Reducer.StartFullMerges` | prover-ray/conglomeration/conglomeration.go:171-175 | Starts full merges until the bound or the ready nodes run out |
| `Conglomeration.Reducer.Finish` | prover-ray/conglomeration/conglomeration.go:183-198 | The end of a background merge is the Complete or the Fail step |
| `Conglomeration.Reducer.ResumeClose` | prover-ray/conglomeration/conglomeration.go:148-166 | Close after its wait returns the outcome, or starts the last merge and waits again |
| `ReducerOutcome.FailureReason` | prover-ray/conglomeration/conglomeration.go:144-168 | In every interleaving, Close succeeds exactly when something was added and no merge was rejected; otherwise it reports the verdict of the first rejected merge, or that nothing was added |
| `ReducerOutcome.RootOrigin` | prover-ray/conglomeration/conglomeration.go:101-199 | In every interleaving, a successful Close returns a node some merge made when several nodes were added, and the only node itself when one was |
| `ReducerOutcome.RootProof` | prover-ray/conglomeration/mock.go:34-89 | With the mock merger, the node Close returns has the empty proof when at least two shards arrived, and is the shard with its proof when one did |
| `ConglomerationRoot.SuccessIffCompatible` | prover-ray/conglomeration/conglomeration.go:101-199 | Whether Close succeeds is decided by the shards alone: exactly when their coverages are disjoint and their shared inputs agree |
| `ConglomerationRoot.ScheduleIndependentRoot` | prover-ray/conglomeration/conglomeration.go:101-199 | Two reductions of the same shards, in any orders, interleavings and bounds, both fail or return the same coverage and public inputs |
| `ConglomerationRoot.FinalizeFlat` | prover-ray/conglomeration/mock.go:92-108 | The root checks on a reduction's node hold exactly when the flat shards cover everything once, each handle's product over all shards is one and the seed derives from the flat sum |
| `ConglomerationRoot.CheckShardIndexes` | prover-ray/backend/core.go:168-179 | Succeeds exactly on duplicate-free indexes (all zero without sharding) and returns them sorted |
| `ConglomerationRoot.SelectShards` | prover-ray/backend/core.go:430-455 | Which shards a job proves, when its result is the root, when a merger is needed, and exactly when the job is refused |
| `ConglomerationRoot.ProveAllShards` | prover-ray/backend/core.go:417-493 | For a complete index set, under every schedule: the coverage check always passes, and the root checks accept exactly when each handle's product over all shards is one and the seed derives from the flat sum |
| `KoalaBear.PrimeP` | prover-ray/maths/koalabear/field/field.go:24-45 | 2130706433 is prime, by Proth's criterion with the witness 3^127 |
| `KoalaBear.ZeroProduct` | prover-ray/recursion/chip_bits.go:78-92 | A product is zero modulo p only if a factor is |
| `KoalaBear.Inv` | prover-ray/recursion/chip_bits.go:153-177 | The inverse of every nonzero element; zero maps to zero |
| `ExtField.Relations` | prover-ray/recursion/e6.go:7-39 | The product satisfies u^2 = 3 and v^3 = u + 1 |
| `ExtField.Presentation` | prover-ray/recursion/e6.go:7-39 | Every element is x0 + x1 v + x2 v^2, so with the ring laws the product is the one of the quotient ring |
| `ExtField.MulAssoc` | prover-ray/recursion/e6.go:10-39 | The product of the tower is associative |
| `ExtField.Distrib` | prover-ray/recursion/e6.go:10-39 | The product of the tower distributes over the sum |
| `ChipBits.BitsSound` | prover-ray/recursion/chip_bits.go:78-151 | Any 31 rows meeting the constraints hold the binary digits of the representative of v in [0, p), and r is (v mod 2^n) >> i |
| `ChipBits.BitsComplete` | prover-ray/recursion/chip_bits.go:128-177 | The rows of execution meet every constraint, whatever follows them |
| `ChipBits.InstSound` | prover-ray/recursion/chip_bits.go:94-151 | With the accesses agreeing with the memory, the cells written are the digits and shifts of the cell read |
| `ChipBits.ExecBits` | prover-ray/recursion/chip_bits.go:66-73 | Execution writes the digits and the shifts of the cell, in order |
| `ChipDPath.Pigeonhole` | prover-ray/recursion/chip_dpath.go:219-250 | Rows meeting the constraints and table reads have exactly G folds and H levels and start at fold 0 and height H, although neither start is constrained |
| `ChipDPath.DPathSound` | prover-ray/recursion/chip_dpath.go:219-326 | Such rows are the execution at an index below 2^H, row by row, and end in the hash that the path's text describes |
| `ChipDPath.DPathComplete` | prover-ray/recursion/chip_dpath.go:116-217 | A successful execution takes H + G rows that meet every constraint and read, ends in that hash and records at most H + G - 1 compressions |
| `ChipDPath.DPathAccepts` | prover-ray/recursion/chip_dpath.go:53-72 | The chip accepts an index and a root if and only if execution succeeds and the path's hash is the root |
| `ChipDPath.ExecDPath` | prover-ray/recursion/chip_dpath.go:136-217 | The loops over heights and groups return the specified rows, count exactly the table reads those rows perform and record exactly their compressions; a failure records none |
| `ChipMerkle.PathSteps` | prover-ray/recursion/chip_merkle.go:122-151 | Succeeds exactly on valid widths; then every injection is placed exactly once, in order, right after the level producing its width, so the final error is unreachable |
| `ChipMerkle.MerkleSound` | prover-ray/recursion/chip_merkle.go:233-337 | Any rows meeting the constraints are the walk of the leaf they read at an index below 2^depth, ending in the root they read, with the walk's x and the index's low bit |
| `ChipMerkle.MerkleComplete` | prover-ray/recursion/chip_merkle.go:301-369 | The walk's rows meet every constraint, whatever their neighbours |
| `ChipMerkle.DomainPointAt` | prover-ray/recursion/chip_merkle.go:84-99 | After k steps x is the inverse generator to the reversal of the index bits consumed |
| `MerklePath.LevelFactors` | prover-ray/recursion/chip_merkle.go:84-99 | Level l's factor is gInv to the power 2^(d-1-l) |
| `MerklePath.WalkPath` | prover-ray/recursion/chip_merkle.go:171-197 | The loop computes the walk's rows |
| `MerklePath.ExecPath` | prover-ray/recursion/chip_merkle.go:202-231 | Succeeds exactly when the index fits the depth and the root is reached; then it records the walk's compressions and, if asked for its point, writes a cell whose lanes are x, the index's low bit and zeros |
| `MerklePath.PathSound` | prover-ray/recursion/chip_merkle.go:257-337 | Rows meeting the constraints and agreeing with the memory are a successful execution with the point it writes |
| `MerklePath.PathComplete` | prover-ray/recursion/chip_merkle.go:301-369 | A successful execution has rows meeting every constraint and access |
| `MerklePath.PathAuthenticates` | prover-ray/recursion/chip_merkle.go:60-99 | A successful path authenticates its leaf: index below 2^depth, the root is the hash of the path with its injections, and the lanes of the point are gInv to the reversal of the index, the index's low bit, and zeros |
| `ChipMerkle.BitRevReverses` | prover-ray/recursion/chip_merkle.go:75-82 | The reversal over d bits has bit k of the index at position d - 1 - k and nothing above |
| `ChipWindow.WindowMeans` | prover-ray/recursion/chip_window.go:211-278 | A window row meets its constraint exactly when its item covers the lanes of the stream it names, straddling two cells or not |
| `Packing.BlocksPad` | prover-ray/recursion/chip_window.go:25-57 | Whole blocks hold their elements in order and the last partial one is left-padded with zeros |
| `Packing.MDBlocks` | prover-ray/recursion/chip_window.go:43-57 | The loop builds the blocks of the start zeros followed by the elements |
| `Packing.Rotate` | prover-ray/recursion/chip_window.go:61-67 | Lane j of the rotated cell is lane (j + r) mod 8 |
| `Packing.PackSound` | prover-ray/recursion/chip_window.go:95-203 | Any stream cells meeting the window rows are determined on every lane, and the returned cells are the blocks of the concatenated item lanes, for every item kind and start |
| `Packing.PackComplete` | prover-ray/recursion/chip_window.go:254-292 | The values of execution meet every window row |
| `Packing.ExecPack` | prover-ray/recursion/chip_window.go:149-166 | Execution writes the stream cells and the rotated last block |
| `Packing.LanesExact` | prover-ray/recursion/chip_window.go:171-203 | The row of a lane copy holds exactly when its output is the copied lanes, zero beyond |
| `Packing.ExecLanes` | prover-ray/recursion/chip_window.go:185-189 | Execution writes the copied lanes |
| `ChipE6.RowExact` | prover-ray/recursion/chip_e6.go:259-276 | The six lane constraints of a row hold if and only if its output is the row formula over the extension field |
| `ChipE6.E6Sound` | prover-ray/recursion/chip_e6.go:228-276 | Rows chained through the previous output give every written cell the value execution computes, if no divisor is zero, and make an equality assertion hold |
| `ChipE6.E6Complete` | prover-ray/recursion/chip_e6.go:280-329 | A successful execution on typed cells traces rows that meet every constraint and access |
| `ChipE6.HornerIsPoly` | prover-ray/recursion/chip_e6.go:110-125 | The Horner recurrence is the sum of c_i y^(len-1-i) |
| `ChipE6.PowBitsIsProduct` | prover-ray/recursion/chip_e6.go:147-162 | PowBits on bits is the product of the selected constants |
| `ChipE6.Trace` | prover-ray/recursion/chip_e6.go:280-329 | The trace threads each row's output into the next row |
| `ChipE6.ExecE6` | prover-ray/recursion/chip_e6.go:164-206 | Execution writes the instruction's values and fails exactly on a zero divisor |
| `ChipSelect.SelectExact` | prover-ray/recursion/chip_select.go:57-107 | A row meeting constraints and accesses exists exactly when execution succeeds on a scalar bit and the memory holds the selected cell |
| `ChipSelect.ExecSelect` | prover-ray/recursion/chip_select.go:45-55 | Writes the selected cell, failing exactly on a non-bit |
| `ChipMD.MDSound` | prover-ray/recursion/chip_md.go:86-137 | Rows meeting constraints, lookups and accesses write the digest of the blocks from the state |
| `ChipMD.MDComplete` | prover-ray/recursion/chip_md.go:102-157 | The rows of execution meet constraints, lookups and accesses |
| `ChipMD.ExecMD` | prover-ray/recursion/chip_md.go:65-73 | Writes the digest and records one compression per block |
| `ChipTable.LookupExact` | prover-ray/recursion/chip_table.go:188-228 | A row with its entry in the table exists exactly when the lookup succeeds on a scalar index and the memory holds the entry |
| `ChipTable.ExecLookup` | prover-ray/recursion/chip_table.go:98-113 | Writes the entry at the index, failing exactly outside the table |
| `Bus.ReadMatches` | prover-ray/recursion/bus.go:59-82 | In a balanced sum with fewer than p accesses, every active read has a write of the same tuple |
| `Bus.MemorySound` | prover-ray/recursion/bus.go:104-111 | If the memory sum of write-once slots balances, every read has the value written at its address |
| `Bus.MemoryBalances` | prover-ray/recursion/cells.go:77-97 | If every access agrees with one memory and each write's multiplicity is the read count, the sum balances |
| `MachineBuilder.Machine.Alloc` | prover-ray/recursion/machine.go:82-86 | A new cell with no read and exactly one writer to come |
| `MachineBuilder.Machine.Read` | prover-ray/recursion/machine.go:88 | One more counted read of the cell |
| `MachineBuilder.Machine.Input` | prover-ray/recursion/machine.go:92-105 | A new input cell of the kind; the builder invariant is kept |
| `MachineBuilder.Machine.Const` | prover-ray/recursion/chip_const.go:10-24 | The cell of the constant: the existing one if the value was seen, a new one otherwise |
| `MachineBuilder.Machine.Table` | prover-ray/recursion/chip_table.go:65-76 | A new table with the next tag that reads each of its cells once |
| `MachineBuilder.Machine.Mul` | prover-ray/recursion/chip_e6.go:69-79 | Records exactly the instruction of the product with its operands and fresh outputs, counting each access once; every address keeps exactly one writer and an exact read count |
| `MachineBuilder.Machine.Add` | prover-ray/recursion/chip_e6.go:81-85 | Records exactly the instruction of the sum with its operands and fresh outputs, counting each access once; every address keeps exactly one writer and an exact read count |
| `MachineBuilder.Machine.Sub` | prover-ray/recursion/chip_e6.go:87-91 | Records exactly the instruction of the difference with its operands and fresh outputs, counting each access once; every address keeps exactly one writer and an exact read count |
| `MachineBuilder.Machine.Div` | prover-ray/recursion/chip_e6.go:93-100 | Records exactly the instruction of the quotient with its operands and fresh outputs, counting each access once; every address keeps exactly one writer and an exact read count |
| `MachineBuilder.Machine.AssertEqE6` | prover-ray/recursion/chip_e6.go:102-108 | Records exactly the instruction of the equality assertion with its operands and fresh outputs, counting each access once; every address keeps exactly one writer and an exact read count |
| `MachineBuilder.Machine.Horner` | prover-ray/recursion/chip_e6.go:110-125 | Records exactly the instruction of the Horner evaluation with its operands and fresh outputs, counting each access once; every address keeps exactly one writer and an exact read count |
| `MachineBuilder.Machine.MulAddChain` | prover-ray/recursion/chip_e6.go:127-145 | Records exactly the instruction of the chain of partial sums, one output cell each with its operands and fresh outputs, counting each access once; every address keeps exactly one writer and an exact read count |
| `MachineBuilder.Machine.PowBits` | prover-ray/recursion/chip_e6.go:147-162 | Records exactly the instruction of the product of selected constants with its operands and fresh outputs, counting each access once; every address keeps exactly one writer and an exact read count |
| `MachineBuilder.Machine.Bits` | prover-ray/recursion/chip_bits.go:51-64 | Records the bit decomposition with fresh bit and shift cells; the builder invariant is kept |
| `MachineBuilder.Machine.Select` | prover-ray/recursion/chip_select.go:35-43 | Records the selection with a fresh output; the builder invariant is kept |
| `MachineBuilder.Machine.Lookup` | prover-ray/recursion/chip_table.go:86-94 | Records the lookup with a fresh output; the builder invariant is kept |
| `MachineBuilder.Machine.Lanes` | prover-ray/recursion/chip_window.go:173-183 | Records the lane copy with a fresh output; the builder invariant is kept |
| `MachineBuilder.Machine.PackAt` | prover-ray/recursion/chip_window.go:104-147 | Records the packing with its hint cells, zero constant and window accesses counted, straddling items included, and returns the cells of its blocks |
| `MachineBuilder.Machine.MDHashFrom` | prover-ray/recursion/chip_md.go:36-53 | Records the digest of the blocks from a state; with no block it returns the state itself and records nothing |
| `MachineBuilder.Machine.MDHash` | prover-ray/recursion/chip_md.go:34 | Records the digest from the zero constant |
| `MachineBuilder.Machine.MerklePath` | prover-ray/recursion/chip_merkle.go:64-120 | Records the path with the layout of its siblings and injections; the builder invariant is kept |
| `MachineBuilder.Machine.MerklePathX` | prover-ray/recursion/chip_merkle.go:75-120 | The same, with the level factors of gInv and a fresh point cell |
| `MachineBuilder.Machine.MerklePathDynamic` | prover-ray/recursion/chip_dpath.go:85-104 | Records the dynamic path, reading its index and root once; the builder invariant is kept |
| `MachineBuilder.Machine.Compile` | prover-ray/recursion/machine.go:170-205 | After any sequence of builder calls, every witness meeting all chip constraints with the three sums balanced assigns every cell what execution computes from the same inputs, if no divisor is zero |
| `Builder.GoodBuilt` | prover-ray/recursion/machine.go:82-114 | The invariant every builder call keeps gives each address exactly one writer, a multiplicity equal to its number of reads, and operands available before their instruction |
| `InstrSound.InstrSound` | prover-ray/recursion/machine.go:279-307 | Rows of one instruction meeting their constraints, reads and lookups are an execution of it on the memory |
| `InstrComplete.InstrComplete` | prover-ray/recursion/machine.go:266-276 | An executed instruction on typed cells has rows meeting everything |
| `MachineSound.MachineSound` | prover-ray/recursion/machine.go:237-307 | Whole-machine soundness: a witness meeting all chip constraints with memory, table and permutation sums balanced is the memory of a successful execution, and every instruction's assertion holds |
| `MachineComplete.MachineComplete` | prover-ray/recursion/machine.go:237-276 | Completeness: a successful, well-typed execution has a witness meeting every constraint, with the three sums balanced and at most numPerms compressions; its P2 rows and table counts are what the run records |
| `MachineComplete.WitnessRecorded` | prover-ray/recursion/chip_table.go:157-185 | The P2 core lists the compressions the run records, one row of count one each and in order, and every table entry's count is the run's reads of it plus the lookups of it |
| `InstrRecords.InstrRecords` | prover-ray/recursion/machine.go:266-307 | Rows of one instruction meeting their constraints look up exactly the compressions its execution records, in order, and exactly the table entries it reads |
| `InstrRecords.RecordFrame` | prover-ray/recursion/machine.go:279-307 | What an instruction records depends only on the cells it uses |
| `RunRecords.WitnessRecords` | prover-ray/recursion/machine.go:237-276 | Any satisfying witness looks up exactly what executing its inputs records: the same compressions in the same order and as many reads of each table entry |
| `RunRecords.StepRecords` | prover-ray/recursion/machine.go:237-263 | No later instruction changes what an earlier one would record, so a run's records are determined by its final memory |
| `MachineComplete.MemoryBalance` | prover-ray/recursion/cells.go:77-97 | The memory sum of a witness whose accesses agree with a memory balances |
| `MachineComplete.CoreFits` | prover-ray/recursion/chip_p2.go:15-29 | The permutation core never runs out of rows |
| `WriteOnceRuns.NotRewritten` | prover-ray/recursion/machine.go:33-62 | A cell that is available is not written by any later instruction |
| `WriteOnceRuns.RunStored` | prover-ray/recursion/machine.go:237-263 | On the final memory of a run, each instruction would write exactly what the memory holds |
| `Executor.ExecInstr` | prover-ray/recursion/machine.go:279-307 | The dispatch writes what each instruction's chip specifies, appends exactly its compressions and counts exactly the entries a dynamic path reads |
| `Executor.ExecuteProgram` | prover-ray/recursion/machine.go:237-263 | Loading inputs and constants and running the instructions in order computes the specified memory, failing exactly when the specification does; the recorded compressions and entry reads are the concatenation over the instructions, on the final memory |
| `Poseidon2.ExternalIsDense` | prover-ray/recursion/poseidon2.go:73-98 | The block-wise external layer is the product with its dense matrix |
| `Poseidon2.InternalIsDense` | prover-ray/recursion/poseidon2.go:100-112 | The internal layer is the product with the all-ones matrix plus the diagonal |
| `Poseidon2.MatExternal` | prover-ray/recursion/poseidon2.go:73-98 | The in-place layer computes circ(2 M4, M4, M4, M4) times the state |
| `Poseidon2.MatInternal` | prover-ray/recursion/poseidon2.go:100-112 | The in-place layer computes (1 1^T + diag) times the state |
| `Poseidon2Air.BuildMatrices` | prover-ray/recursion/poseidon2.go:114-128 | The matrices built column by column from unit vectors are the dense ones |
| `Poseidon2Air.FormsAreState` | prover-ray/recursion/p2_air.go:131-179 | The tracked linear forms always equal the state after the in-place layers |
| `Poseidon2Air.AirExact` | prover-ray/recursion/p2_air.go:83-214 | For any round keys the constraints hold on a row if and only if its columns are exactly what the trace writes for its inputs |
| `Poseidon2Air.PositionsDistinct` | prover-ray/recursion/p2_air.go:35-71 | The 133 columns have distinct positions filling 0 to 132 |
| `Poseidon2Air.P2Trace` | prover-ray/recursion/p2_air.go:183-214 | The in-place trace fills every column at its position with the permutation's value there, the S-boxes being products of three equal factors |
| `Poseidon2Air.CubeIsPower` | prover-ray/recursion/p2_air.go:123-127 | The S-box is the third power modulo p |
| `CubeRoots.CubedInjective` | prover-ray/recursion/p2_air.go:123-127 | The third power is injective modulo p, because 3 does not divide p - 1 |
| `Poseidon2.RoundCounts` | prover-ray/recursion/poseidon2.go:130-132 | Three full rounds, 21 partial ones, then three full ones |
| `PermutationInjective.ExternalInjective` | prover-ray/recursion/poseidon2.go:73-98 | The external layer is injective |
| `PermutationInjective.InternalInjective` | prover-ray/recursion/poseidon2.go:100-112 | The internal layer is injective whenever no diagonal entry is zero and one plus the sum of their inverses is not zero |
| `PermutationInjective.PermutationInjective` | prover-ray/recursion/p2_air.go:131-179 | For any round keys and any such diagonal the permutation is injective |
| `Compression.DiagonalIs` | prover-ray/recursion/poseidon2.go:33-67 | The diagonal has the sixteen documented entries, each stated by the equation that defines it |
| `Compression.DiagonalInvertible` | prover-ray/recursion/poseidon2.go:33-67 | That diagonal makes the internal layer injective |
| `Compression.DistinctOutputs` | prover-ray/recursion/poseidon2.go:9-31 | With that diagonal and any round keys, distinct inputs have distinct permutation outputs |
| `LinearForms.Combine` | prover-ray/recursion/p2_air.go:84-110 | The accumulated, deduplicated, zero-free form is the combination of the forms with the matrix row, on every assignment |
| `LinearForms.DefineP2` | prover-ray/recursion/p2_air.go:131-179 | The constraints emitted round by round hold exactly when the row meets the AIR |
| `Compression.CoreRowCompresses` | prover-ray/recursion/chip_p2.go:33-45 | A core row meeting the AIR writes a true compression |
| `Compression.TracedCoreRow` | prover-ray/recursion/chip_p2.go:47-76 | The columns traced for a state and a block meet the AIR and write their compression |

## Left out

- The log-derivative argument: a sum is modelled as balanced when, for every tuple, the signed multiplicities add up to zero modulo p; coins, probabilities and the reduction to constraints are not modelled.
- MachineSound.MachineSound: states the sums over fewer than p accesses each, since multiplicities are field elements.
- MachineComplete.MachineComplete: assumes the same bounds on the number of accesses, and that the extension is a field (every nonzero element has an inverse).
- Fiat-Shamir, polynomial commitments, FRI, the compiler passes and proof serialisation.
- MachineComplete.WitnessRecorded: the P2 core holds the compressions only; the rows of the zero permutation that fill the module up, read by none, are left out.
- The padding rows a chip's module adds up to a power of two: a chip's rows are modelled between arbitrary neighbouring rows instead.
- Instructions are one list of a sum type; the source keeps a list per kind and an index into it, and records a hint's witness row separately from its packing.
- Names and setup columns as strings, column heights and degrees: they only carry the layout.
- Run-time panics of constructors on malformed arguments appear as preconditions.
- The 64-bit shifts of widths and depths: depths are at most 30 wherever a path is built, and integers are unbounded.
- Goroutines and the mutex themselves: each critical section is one step of the transition system, and a merge's verdict is a function of its children.
- Merging by the recursion machine: only the mock merger is modelled.
- Guest loading, tracing, shard proving and job parsing in the backend.
- Editing.EditExpression: results are expression trees, so that a shared node's result is one shared node is stated as one constructor call per distinct node rather than as pointer identity.
- RowLowering.LoweringPreserves: modules are sized; on a dynamic module the source passes a non-negative row through and rejects a negative one.
- Worker scheduling in the Lagrange evaluation: partial sums are filled in any order, weight tables table by table and chunk by chunk; batch inversion is element-wise inversion.
- LagrangePadded.EvalLagrangePadded: does not model the delegation to another package for a column without padding at a base-field point.
- The permutation check of table relations and the row limits: plain loops with nothing to relate.
- Drawing alpha: `Inclusion.FewFalseAccepts` counts the values of alpha that let a missing row through instead of giving a probability, and assumes that the extension is a field.
- Assignments shorter than a module without padding, which the indexed readers reject with an index panic.
