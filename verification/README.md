# A verified model of pefa

pefa is a small columnar query engine over Apache Arrow tables. A query chains projections
and filters; executing it optimises the plan, filters chunked columns eight rows at a time
into a bit-packed bitmap with a compiled predicate, and copies the selected rows into new
chunks. This project models that path in Dafny, layer by layer, and proves that all of it
together computes what the query means on rows.

Check everything with `dafny verify dfyconfig.toml`.

## The layers

| file | models |
|---|---|
| FixedWidth, Expressions | integer column types, bit patterns, literals narrowed to a column type; boolean expressions |
| PredicateCompiler | the visitor that appends instructions to a builder, and the meaning of an instruction list |
| Bitmaps, FilterKernel | bytes with the first row in the most significant bit; the kernel's loops over bytes and over rows of one byte |
| Layout | where chunks lie over bytes; the kernel calls as row ranges |
| Tables, FilterExecution | chunked columns; the two passes of kernel calls over a column |
| Compaction, Materialization | the selected rows in new chunks, as a function and as the nested loops |
| Execution | the executor that joins bitmaps in place, and the three operations on contexts |
| LogicalPlan, PlanOptimizer | plan nodes as objects, the rebuilding pass and the pass that joins filters by changing nodes it has built |
| PlanSteps, Queries | plans as lists of steps and what running them does; queries, their meaning on rows, their plans and their fused form |
| Correctness, SafeLayouts, OptimiserOnLayouts | plans against meaning; queries on layouts that are not admissible, as built and as optimised |
| ChunkBoundaries | where the chunks of a result end, as built and as optimised |
| QueryCompiler | the query object with `Execute` |
| PlainQueries, QueryExamples | queries as a caller makes them: what their last operation does to the rows, in plain terms, and small tables with the rows that come back |

Methods are proved against functions: `TreeBits` is the bitmap of an expression,
`Materialised` the chunks of a materialised column, `Run` the effect of a plan, `Rewrite`
the effect of a pass. What these functions are worth is then proved as lemmas. Lemmas whose
names end in `Written` say what the basic definitions mean with the numbers and operators
written out.

A query has two readings. Read `Narrowed`, a literal is what is left of it in the width of
its column; this is what the engine computes, for every literal. Read `Numeric`, it is the
number it was written as. Both agree where `ExactLiteral` holds (`ReadingsAgree`).

## What was found

For a chunk that starts at row `o`, let `r` be the number of rows up to the next byte
boundary and `L` its length.

- The kernel computes `L - r` in unsigned arithmetic. A layout with `L >= r` for every chunk
  is called *safe*. For any other chunk the length wraps, and the kernel is told to write far
  beyond the bitmap (`WrappedLengthLeavesBitmap`; `WrapExample` has chunks of 3 and 2 rows).
  The plan as built executes without leaving its buffers if and only if its first filter
  compares columns of safe layout, or meets a first column without chunks and does nothing
  (`QueryIsDefinedIff`).
- The leading edge narrows the length to eight bits before taking a minimum
  (pefa/kernels/filter.cpp:122-123), so with `L mod 256 < r` some rows are never filtered
  and stay selected. A layout with `L mod 256 >= r` for every chunk is called *admissible*.
  Chunks of 1 and 256 rows are safe and not admissible (`NarrowingExample`).
- On safe layouts it is known exactly what comes out: a comparison counts as true where no
  kernel call looks at the row (`BitIsPasses`), the first run of filters keeps the rows that
  pass so, and everything after it is exact (`ExecutionGives`). No matching row is ever lost.
- Queries over all tables of a layout are answered exactly if and only if the layout is
  admissible (`QueriesAnsweredIff`).
- Only the columns that the first run of filters compares matter for this, since every later
  filter meets chunks written by materialisation, which start at multiples of 16384.
- The optimiser widens that first run: it fuses filters before any of them is materialised.
  So it can turn a defined plan into one that is not, and add rows, but it loses none
  (`OptimiserAddsRows`). With zeros in one chunk of 5 rows of column a and in chunks of 3 and
  2 rows of column b, filtering by a and then by b is defined only as built
  (`LosesDefinednessExample`). It preserves execution on all tables whose columns have a
  given layout, or are in one chunk, if and only if that layout is admissible
  (`OptimiserPreservesIff`).
- As built and as optimised the fields and rows of a result are the same on admissible
  layouts, but its chunks may end elsewhere (`BoundariesAgreeIff`): 16384 zeros and a one,
  filtered for zeros twice, give one chunk as built and an empty second one as optimised
  (`BoundariesExample`).
- Integer literals are cut to the width of the column. `ExactLiteral` says for each operator
  exactly which literals still compare as numbers.
- A filter standing directly on a filter, which no query builds since the constructor from a
  plan is private, replaces the lower bitmap when executed but is joined by the optimiser
  (`BareFiltersAgreeIff`, `BareFiltersExample`).
- Materialising throws when there is no bitmap. For queries this happens exactly when the
  first filter meets a table whose first column has no chunks (`FindsNoChunks`).

## Model

| member | source | states |
|---|---|---|
| FixedWidth.ConstIsPattern | pefa/utils/llvm_helpers.h:51-81 | whichever helper a literal goes through, the emitted constant is the literal's two's complement pattern in the column's width |
| FixedWidth.RangesWritten | pefa/utils/llvm_helpers.h:51-81 | the values that each of the eight types holds, as numbers |
| FixedWidth.ConstantsWritten | pefa/utils/llvm_helpers.h:51-81 | the constant emitted for a literal in each of the eight types, as a remainder by a written-out power of two |
| FixedWidth.CutWritten | pefa/utils/llvm_helpers.h:51-81 | what is left of a value in each of the eight types: it differs by a multiple of the written-out width and lies in the range |
| FixedWidth.ComparisonWritten | pefa/utils/llvm_helpers.h:129-174 | for values and literals of the column's type each of the six emitted comparisons decides what its operator says: >, <, >=, <=, ==, != |
| FixedWidth.MachineCompareIsNarrowed | pefa/utils/llvm_helpers.h:129-174 | for every literal and each operator, written out, the emitted comparison is comparison as numbers of the stored value with what is left of the literal in the column's width |
| FixedWidth.ComparisonExact | pefa/utils/llvm_helpers.h:129-174 | for all eight integer types and each operator, written out, the chosen signed or unsigned instruction on bit patterns is comparison of the stored value with the literal, if the literal is representable or one of the two harmless overflows |
| FixedWidth.ComparisonExactIff | pefa/utils/llvm_helpers.h:129-186 | comparison is exact on every stored value if and only if ExactLiteral holds; outside it a value that is misjudged is given |
| PredicateCompiler.EmissionKeepsValues | pefa/kernels/filter.cpp:39-50 | the values of emitted instructions are a prefix of the values after any further emission |
| PredicateCompiler.JoinInstructions | pefa/kernels/filter.cpp:39-50 | the joining instructions compute and and or of their operands' truth values |
| Expressions.JoinedOnPattern | pefa/kernels/filter.cpp:39-50 | on a stored pattern a conjunction is the and, and a disjunction the or, of both sides |
| PredicateCompiler.IRBuilder.Emit | pefa/kernels/filter.cpp:47-48 | appends one instruction and returns its register |
| PredicateCompiler.IrEmitVisitor.Visit | pefa/kernels/filter.cpp:39-74 | existing code stays a prefix, and the result operand evaluates to the expression's truth value for every argument |
| FilterKernels.FilterKernel.Compile | pefa/kernels/filter.cpp:142-176 | the compiled predicate agrees with the expression on the bit pattern of every value |
| FilterKernels.FilterKernel.PredicateByte | pefa/kernels/filter.cpp:233-262 | bit j of the byte, from the most significant, is the predicate on the j-th of eight rows |
| FilterKernels.FilterKernel.FilterFunc | pefa/kernels/filter.cpp:178-276 | exactly the bits of the whole bytes that fit the given length are ANDed with the rows' truth values; up to seven rows at the end are left out |
| FilterKernels.FilterKernel.FilterRemainingFunc | pefa/kernels/filter.cpp:279-333 | exactly the given bits of one byte are ANDed with the rows' truth values |
| FilterKernels.FilterKernel.Execute | pefa/kernels/filter.cpp:100-111 | filters as many whole bytes of rows from the offset on as the unsigned 64-bit length says, one byte further if the offset is not zero, provided these lie in the chunk and the bitmap; an uncompiled kernel is refused and changes nothing |
| FilterKernels.FilterKernel.ExecuteRemaining | pefa/kernels/filter.cpp:113-134 | filters the first or last rows of a chunk, with the length narrowed to eight bits; an uncompiled kernel is refused and changes nothing |
| Layout.CallsPartitionRows | pefa/execution/execution.cpp:61-88 | the calls of both passes cover every row exactly once, skipped rows never, and nothing beyond the last row |
| Layout.ByteKernelsWriteDisjointBytes | pefa/kernels/filter.h:10-12 | byte kernels of different chunks write disjoint bytes |
| Layout.EdgesAvoidByteKernels | pefa/kernels/filter.h:10-12 | an edge call stays in one byte, which no byte kernel writes |
| Layout.AnyOrderOfCalls | pefa/execution/execution.cpp:61-88 | every permutation of the calls produces the same bitmap |
| Layout.PassesProduceKernelBits | pefa/execution/execution.cpp:51-90 | both passes leave each row's truth value, ones at skipped rows and ones as padding |
| Layout.KernelExactIff | pefa/kernels/filter.cpp:113-130 | on a safe layout every predicate is reproduced exactly if and only if the layout is admissible |
| Layout.NarrowingExample | pefa/kernels/filter.cpp:121-123 | chunks of 1 and 256 rows: safe, and exactly rows 1 to 7 are skipped |
| Bitmaps.BytesForBounds | pefa/execution/execution.cpp:54 | the bytes allocated hold all bits asked for and fewer than eight more |
| Bitmaps.FilteredWritten | pefa/kernels/filter.cpp:179-189 | filtering clears the bits of rows that do not match, sets none and leaves those beside the rows alone |
| FilterExecution.FirstPass | pefa/execution/execution.cpp:62-76 | leaves the bitmap that the byte calls of all chunks leave |
| FilterExecution.SecondPass | pefa/execution/execution.cpp:77-88 | leaves the bitmap that the edge calls of all chunks leave, including a last partial byte that is a chunk's only one |
| FilterExecution.FilterColumn | pefa/execution/execution.cpp:54-89 | a fresh buffer holding exactly KernelBits of the column, with a bit for every row and fewer than eight more |
| FilterExecution.WrappedLengthLeavesBitmap | pefa/kernels/filter.cpp:106-107 | if the chunk ends before the next byte boundary the length passed on wraps, and the bytes it stands for go beyond the bitmap |
| FilterExecution.KernelsStayInsideIff | pefa/execution/execution.cpp:62-76 | all calls of the first pass stay inside chunk and bitmap if and only if the layout is safe |
| FilterExecution.WrapExample | pefa/kernels/filter.cpp:106-107 | chunks of 3 and 2 rows: the second call has a wrapped length and leaves the one-byte bitmap |
| FilterExecution.RoutesAgree | pefa/kernels/filter.cpp:162-176 | for an expression over one column the joined bitmaps of its comparisons equal the bitmap of the whole expression as one predicate, on every layout the kernels can handle |
| FilterExecution.JoinedBits | pefa/execution/execution.cpp:39-47 | the bits of a conjunction are the and, those of a disjunction the or, of the bits of both sides |
| Execution.JoinInPlace | pefa/execution/execution.cpp:39-47 | each byte of the left buffer becomes the bitwise & or or of both, the right buffer is unchanged |
| Execution.FilterByKernel | pefa/kernels/filter.cpp:142-176 | one kernel compiled for any expression over one column, run once by both passes, gives the bitmap that the executor joins from the comparisons |
| Execution.FilterExprExecutor.Visit | pefa/execution/execution.cpp:34-90 | for every expression tree the result is fresh, has a bit for every row and fewer than eight more, and holds TreeBits; nothing that existed changes but the buffer field, so a saved left buffer survives the visit of the right side |
| Correctness.CompareBit | pefa/execution/execution.cpp:51-90 | for every literal, the bit of a comparison is the narrowed comparison of that row, or one where the row is skipped; as numbers where the literal is exact |
| Correctness.BitIsPasses | pefa/kernels/filter.cpp:113-130 | on every layout the kernels can handle the bit of a row is the expression's value with the comparisons that skip the row counted as true |
| Correctness.PassesBetween | pefa/kernels/filter.cpp:113-130 | every matching row passes, and a row that passes without matching is skipped by some comparison |
| Correctness.BitExactUnlessSkipped | pefa/execution/execution.cpp:34-90 | the bit of every row that no comparison skips is the expression's value on the row, whatever happens to other rows |
| Correctness.BitmapExact | pefa/execution/execution.cpp:34-90 | if the compared columns, each with its own chunking, have admissible layouts, every row's bit is the expression's value on the row, for every literal narrowed and for exact ones as numbers |
| Correctness.MatchingRowKept | pefa/kernels/filter.cpp:113-130 | on any layouts the kernels can handle no bit of a matching row is cleared, in either reading |
| Correctness.PaddingStaysOne | pefa/execution/execution.cpp:54-55 | all bits from the number of rows to the end of the last byte stay one |
| Correctness.FewPaddingBits | pefa/execution/execution.cpp:54-55 | fewer than eight padding bits follow the rows |
| Correctness.RowWritten | pefa/query_compiler/query_compiler.cpp:56 | a row holds the values of all columns, in the order of the columns |
| Correctness.KeptPositions | pefa/query_compiler/query_compiler.cpp:37-39 | the rows kept are those at the positions that satisfy the expression, each once, in order |
| Compaction.PositionsSound | pefa/execution/execution.cpp:139-140 | the selected positions, each once, ascending |
| Compaction.CompactAt | pefa/execution/execution.cpp:135-141 | the row at the i-th selected position moves to position i, and there are as many rows as ones |
| Compaction.CompactCompose | pefa/execution/execution.cpp:135-141 | selecting twice is selecting once by the conjunction, the second selection being looked up at old positions |
| Compaction.MaterialisedIsCompaction | pefa/execution/execution.cpp:113-153 | for every chunking and bitmap the output chunks hold exactly the selected rows in order; there is a chunk, all but the last are full |
| Compaction.LastChunk | pefa/execution/execution.cpp:127-151 | the last chunk is full only if the last row is selected, and not empty if it is |
| Compaction.MaterialisedLens | pefa/execution/execution.cpp:117-152 | the length of every output chunk, and so their number: full chunks and one for the rest, also for no rest if there is no row or unselected rows come last |
| Compaction.MaterialisedLayout | pefa/execution/execution.cpp:117-152 | chunk boundaries depend on the bitmap alone |
| Compaction.WellChunkedIsAdmissible | pefa/execution/execution.cpp:117-152 | the layout of a materialised column is admissible for the next filter |
| Materialization.CopyRows | pefa/execution/execution.cpp:135-141 | copies rows of one chunk until one of both chunks is exhausted, an unselected row being overwritten by the next; all indices in range |
| Materialization.FillChunk | pefa/execution/execution.cpp:131-146 | fills a chunk or runs out of rows; the cursors always point at the same row and stay within int |
| Materialization.MaterializeColumn | pefa/execution/execution.cpp:113-153 | terminates for every chunking and returns the selected rows, in order, well chunked |
| Execution.ProjectContext | pefa/execution/execution.cpp:13-24 | a new context without a bitmap whose i-th column has the i-th name and is one of the old columns |
| Execution.GenerateFilterBitmap | pefa/execution/execution.cpp:97-111 | a new context on the same table with the expression's bitmap, and without one exactly if there is no column or the first one has no chunk |
| Execution.MaterializeFilter | pefa/execution/execution.cpp:155-191 | a new context with every column materialised and no bitmap, or an exception exactly if there is no bitmap |
| Correctness.OneLayout | pefa/execution/execution.cpp:155-191 | all columns of a materialised table share one layout |
| Correctness.SelectionStep | pefa/query_compiler/query_compiler.cpp:37-43 | filter and materialisation keep the rows with a one in the bitmap, and leave admissible, non-empty layouts |
| Correctness.FilterStep | pefa/query_compiler/query_compiler.cpp:37-43 | if the compared columns have admissible layouts, exactly the rows satisfying the expression are kept, for every literal narrowed and for exact ones as numbers |
| Correctness.ProjectStep | pefa/query_compiler/query_compiler.cpp:33-35 | projecting a table is projecting its rows, as ProjectionWritten says, and keeps its layouts |
| Queries.ProjectionWritten | pefa/execution/execution.cpp:13-24 | a projection gives a field for each name, in order, and each row's values under those names; without names there is no row |
| Queries.ComparisonOnRow | pefa/utils/llvm_helpers.h:129-174 | a comparison on a row compares the value in the named field with the literal, each operator written out, in both readings |
| Queries.JoinedOnRow | pefa/execution/execution.cpp:34-49 | on a row a conjunction is the and, a disjunction the or, of both sides |
| Queries.EitherKeeps | pefa/execution/execution.cpp:34-49 | a disjunction keeps the rows that either side keeps, a conjunction those that both keep |
| Queries.LastOperation | pefa/query_compiler/query_compiler.cpp:18-25 | the last operation of a query is applied to what the operations before it mean |
| Correctness.FiltersCompose | pefa/execution/execution.cpp:155-190 | materialising by any bitmap, filtering what is left and materialising again gives the rows of one materialisation by the AND of both bitmaps on the original table, for every literal |
| LogicalPlans.LogicalPlan.Projection | pefa/query_compiler/logical_plan.cpp:10-12 | a node whose plan is the input's plan followed by the projection |
| LogicalPlans.LogicalPlan.FilterNode | pefa/query_compiler/logical_plan.cpp:14-16 | a node whose plan is the input's plan followed by the filter |
| LogicalPlans.LogicalPlan.MaterializeFilterNode | pefa/query_compiler/logical_plan.cpp:41-42 | a node whose plan is the input's plan followed by materialisation |
| PlanOptimizers.OptimizerPass.OnVisitJoin | pefa/query_compiler/lp_optimizer/join_filter_pass.cpp:4-16 | the result's plan becomes JoinFilter of it, also across materialisations that are dropped; a filter at the top stays the same node with its expression ANDed; only nodes the pass built are changed |
| PlanOptimizers.OptimizerPass.Visit | pefa/query_compiler/logical_plan.cpp:18-35 | visiting bottom-up rewrites the plan onto what the pass already holds; the visited plan is unchanged |
| PlanOptimizers.OptimizerPass.Execute | pefa/query_compiler/lp_optimizer/plan_optimizer.cpp:14-29 | the rewritten plan consists of nodes of the pass, and the input plan is unchanged |
| PlanOptimizers.PlanOptimizer.Optimize | pefa/query_compiler/lp_optimizer/plan_optimizer.cpp:6-12 | fresh passes run in order give the composition of their rewrites, on new nodes |
| Queries.JoinFiltersIsFuse | pefa/query_compiler/lp_optimizer/join_filter_pass.cpp:4-16 | the pass on the plan of a query gives the plan of the query with adjacent filters fused |
| Queries.FuseRun | pefa/query_compiler/lp_optimizer/join_filter_pass.cpp:5-6 | a run of filters becomes one filter by the left-nested AND in source order |
| Queries.FusePair | pefa/query_compiler/lp_optimizer/join_filter_pass.cpp:5-6 | two filters become one by the AND of the first filter's expression with the second's |
| PlanSteps.JoinFilterWritten | pefa/query_compiler/lp_optimizer/join_filter_pass.cpp:5-13 | the lower filter's expression comes first in the AND, with and without a materialisation between |
| Queries.FuseKeepsSelects | pefa/query_compiler/lp_optimizer/plan_optimizer.cpp:22-24 | the projections stay, in order |
| Queries.FusePreservesMeaning | pefa/query_compiler/lp_optimizer/join_filter_pass.cpp:4-16 | the fused query has the same meaning on every relation, in either reading |
| Queries.ReadingsAgree | pefa/utils/llvm_helpers.h:51-81 | if its literals can be compared exactly, a query on values of the columns' types means the same narrowed and as numbers |
| Correctness.OptimiserNormalises | pefa/query_compiler/lp_optimizer/join_filter_pass.cpp:4-16 | in the optimised plan no filter stands on a filter or materialisation and each is directly below one materialisation; a second fresh pass changes nothing |
| Correctness.BareFiltersAgreeIff | pefa/execution/execution.cpp:107-109 | for a filter directly on a filter, which no query builds, the pass preserves execution if and only if every row the upper one keeps satisfies the lower one, for every literal |
| Correctness.BareFiltersAsNumbers | pefa/execution/execution.cpp:107-109 | with exact literals that condition is the same on numbers |
| Correctness.ExecutionIsMeaning | pefa/query_compiler/query_compiler.cpp:27-44 | executing a query's plan gives exactly the rows the query means, in order, for every literal narrowed and for exact ones as numbers; it throws exactly when FindsNoChunks |
| Correctness.OptimisedExecutionIsMeaning | pefa/query_compiler/query_compiler.cpp:46-57 | the same for the optimised plan |
| Correctness.FindsNoChunksWritten | pefa/execution/execution.cpp:101-103 | behind projections only, the first filter finds no chunks exactly if the table's first column, or the column named first by the last projection, has none |
| Correctness.OptimiserPreservesExecution | pefa/query_compiler/lp_optimizer/join_filter_pass.cpp:4-16 | where the first run of filters compares columns of admissible layout, the plan as built and as optimised both throw, or give equal fields and rows, for every literal |
| SafeLayouts.QueryIsDefinedIff | pefa/kernels/filter.cpp:106-107 | the plan as built executes without undefined behaviour if and only if its first filter compares columns of safe layout or meets a first column without chunks; it throws exactly in the latter case |
| SafeLayouts.OptimisedQueryIsDefinedIff | pefa/query_compiler/query_compiler.cpp:46-57 | the optimised plan is defined if and only if the first run of filters compares columns of safe layout or meets a first column without chunks; it throws exactly in the latter case |
| SafeLayouts.ExecutionGives | pefa/query_compiler/query_compiler.cpp:27-44 | wherever the plan as built is defined, it gives exactly what the query means after its first filter on the rows that pass that filter |
| SafeLayouts.OptimisedExecutionGives | pefa/query_compiler/query_compiler.cpp:46-57 | the same for the optimised plan and the first run of filters |
| SafeLayouts.LosesNoRow | pefa/kernels/filter.cpp:113-130 | on safe layouts the rows a query means are among the rows execution gives, in order, for every literal |
| SafeLayouts.LosesNoRowAsNumbers | pefa/kernels/filter.cpp:113-130 | the same for the rows the query means as numbers, where its literals are exact |
| SafeLayouts.InadmissibleKeepsExtraRows | pefa/kernels/filter.cpp:122-123 | for every safe layout that is not admissible, a table and a query that gets rows it should not |
| SafeLayouts.QueriesAnsweredIff | pefa/query_compiler/query_compiler.cpp:46-57 | queries on tables of a layout are all answered exactly if and only if the layout is admissible, in either reading |
| SafeLayouts.ExecutionDelivers | pefa/query_compiler/query_compiler.cpp:46-57 | the outcome of the optimised plan of every well-typed query: when it throws, exactly which rows it gives, that no row is lost, and when these are the rows meant, for every literal; and that this is the meaning as numbers where literals are exact |
| SafeLayouts.ExecutionWritten | pefa/query_compiler/query_compiler.cpp:46-57 | a query that begins with a filter throws exactly if the first column has no chunks, and one that ends in a projection has its names for columns |
| OptimiserOnLayouts.OptimiserAddsRows | pefa/query_compiler/lp_optimizer/join_filter_pass.cpp:4-16 | where the plan as built is undefined so is the optimised one; the optimised one is defined if and only if the first run of filters compares columns of safe layout, and then all rows of the plan as built are among its rows, in order |
| OptimiserOnLayouts.OptimiserLosesDefinedness | pefa/query_compiler/lp_optimizer/join_filter_pass.cpp:8-13 | for every layout that is not safe, a table and a query that is defined as built and not as optimised |
| OptimiserOnLayouts.LosesDefinednessExample | pefa/query_compiler/lp_optimizer/join_filter_pass.cpp:8-13 | five zeros in one chunk of a and chunks of 3 and 2 of b: two filters are defined as built, not as optimised |
| OptimiserOnLayouts.OptimiserGivesExtraRows | pefa/query_compiler/lp_optimizer/join_filter_pass.cpp:8-13 | for every safe layout that is not admissible, a table and a query that gives no rows as built and some as optimised |
| OptimiserOnLayouts.OptimiserPreservesIff | pefa/query_compiler/lp_optimizer/join_filter_pass.cpp:4-16 | the optimiser preserves the execution of all queries on all tables whose columns have a layout, or are in one chunk, if and only if the layout is admissible |
| ChunkBoundaries.LayoutOfResult | pefa/execution/execution.cpp:117-152 | the chunk lengths of a query's result follow from the number of rows and from whether its last filter keeps the last row it is given |
| ChunkBoundaries.BoundariesAgreeIff | pefa/query_compiler/lp_optimizer/join_filter_pass.cpp:8-13 | on admissible layouts the results as built and as optimised have the same chunk boundaries if and only if there is no column or filter, the rows do not fill their chunks exactly, or the last filter and the last run of filters agree on keeping the last row they are given |
| ChunkBoundaries.BoundariesExample | pefa/query_compiler/lp_optimizer/join_filter_pass.cpp:8-13 | 16384 zeros and a one, filtered for zeros twice: chunks of 16384 rows as built, of 16384 and 0 as optimised |
| OptimiserOnLayouts.BareFiltersExample | pefa/execution/execution.cpp:107-109 | one row of value 0 under two bare filters: kept as built, dropped as optimised |
| QueryCompilers.ExecutePlanVisitor.Visit | pefa/query_compiler/query_compiler.cpp:27-44 | the visitor's context becomes what running the plan's steps gives, and an exception ends the visit |
| QueryCompilers.QueryCompiler.Project | pefa/query_compiler/query_compiler.cpp:18-20 | a new query with one more projection; this one is unchanged |
| QueryCompilers.QueryCompiler.Filter | pefa/query_compiler/query_compiler.cpp:22-25 | a new query with one more filter; this one is unchanged |
| QueryCompilers.QueryCompiler.Execute | pefa/query_compiler/query_compiler.cpp:46-57 | for every literal: throws exactly when FindsNoChunks, which for a query beginning with a filter is a first column without chunks; returns exactly what Given says where the compared columns have safe layouts, under the names of a projection if it ends in one; loses no row; on admissible layouts of the columns first filtered returns exactly the rows the query means; where literals are exact that is the meaning as numbers; the query's plan is unchanged |
| PlainQueries.CompareLast | pefa/query_compiler/query_compiler.cpp:22-25 | a query with one more comparison returns exactly those rows, in order, whose value in the named field is >, <, >=, <=, == or != the literal |
| PlainQueries.EitherLast | pefa/query_compiler/query_compiler.cpp:22-25 | a query with one more disjunction returns exactly those rows, in order, that satisfy one side or the other |
| PlainQueries.ProjectLast | pefa/query_compiler/query_compiler.cpp:18-20 | a query with one more projection returns a column for each name, in order, with the values the rows have under it |
| QueryExamples.GreaterExample | pefa/utils/llvm_helpers.h:129-174 | 3 and 7 filtered for a > 5 give 7 |
| QueryExamples.WidthExample | pefa/utils/llvm_helpers.h:51-81 | 70000 in a 32-bit column does not equal 4464 |
| QueryExamples.SignExample | pefa/utils/llvm_helpers.h:129-174 | -1 in a signed column is less than 0 |
| QueryExamples.EitherExample | pefa/execution/execution.cpp:39-47 | 1, 2 and 3 filtered for a == 1 or a == 2 give 1 and 2 |
| QueryExamples.NoChunksExample | pefa/execution/execution.cpp:101-103 | filtering a column without chunks throws |
| QueryExamples.ProjectExample | pefa/execution/execution.cpp:13-24 | columns come back in the order of the names, with their values |

## Left out

- The JIT, symbol lookup and LLVM passes (pefa/jit): the emitted loops are modelled as the methods they describe, and the compiled predicate as a function value.
- Floating point, decimal and string columns, and literals that are not ints: every column has one of the eight integer types.
- Boolean constants in expressions: the executor has no case for them, so they leave a stale buffer; the expression type does not contain them.
- Arrow's validity bitmaps, sliced arrays, allocation and schema metadata: a chunk is a sequence of values. The source ignores nulls.
- Chunk metadata of execution contexts (pefa/execution/execution_context.cpp): created and never read.
- The visitor field m_last_op of the predicate compiler: assigned and never read.
- The type switch of materialize_filter: one generic MaterializeColumn stands for its instances.
- The class hierarchies of nodes and passes: one class each, with the dynamic type as a constant field, since nodes and passes are told apart only by it.
- Exceptions are results: KernelNotCompiled as a status, UnreachableException as an absent value.
- Missing or ambiguous column names, and an unset plan: the source dereferences null there; such calls are excluded.
- CSV reading, benchmarks and build files.
