# Second-stage aggregate merge of a sharded query layer, in Dafny

A sharded query layer sends a logical aggregate query to every shard. Each shard
returns partial results. This project models the code that merges those
partials into one cursor, and proves properties of that model. It has three
parts:

- **The COUNT aggregator** (`count.dfy`, module `CountAggregator`). It adds up
  the shard-local partial counts found at one column of a batch of shard rows.
  - SQL-NULL wrappers are skipped.
  - The runtime kind of the first non-null value selects the adder.
  - A column where every value is NULL gives back its first value unchanged.
  - A kind with no adder fails with `AggregateFuncNotFound`.
  - An index outside the row fails with `InvalidAggregateColumnIndex`.
  - The accumulator wraps around at its kind's fixed width, as Go integer
    arithmetic does. `int` and `uint` are taken to be 64 bits wide, as on the
    64-bit platforms Go targets.
- **The aggregate merger without GROUP BY** (`aggregatemerger.dfy`, module
  `AggregateMerger`, class `Rows`). It is a cursor that yields exactly one
  merged row. To build it, the cursor takes the first row of every shard and
  evaluates every aggregator over those rows, in declaration order.
- **The aggregate merger with GROUP BY**. It is split across three files:
  - `groupkey.dfy` (module `GroupKey`): the kind-dispatched lexicographic key
    comparison.
  - `grouping.dfy` (module `Grouping`): the eager bucketing of every shard row
    by its group key, with the keys kept in first-seen order.
  - `groupbymerger.dfy` (module `GroupByMerger`, class `AggregatorRows`): the
    cursor that yields, for each key in turn, the key values followed by every
    aggregator's value over that key's bucket.

Two files are shared by all three parts:

- `values.dfy` (module `Values`) holds the value universe:
  - plain scalars, whose kinds match the kinds of the COUNT table;
  - SQL-nullable wrappers;
  - column descriptors;
  - the error taxonomy;
  - the abstract shard row source.
- `cursor.dfy` (module `MergerCursor`) holds what the two mergers share:
  - the aggregator interface, which is a function from a batch of rows to a
    value or an error;
  - evaluating every aggregator in order until the first failure;
  - closing every shard best-effort while collecting all the failures;
  - `ColumnTypes`, which hides the two synthetic columns that the AVG rewrite
    inserts after each AVG column.

Runtime panics of the Go code become preconditions:

- a failed type assertion;
- an out-of-range index or slice;
- a nil comparison function in the dispatch table.

Errors that Go returns become `Failure` values.

## Model

| member | source | states |
|---|---|---|
| Values.Unwrapped | internal/merger/internal/aggregatemerger/aggregator/count.go:67-68 | a value is NULL exactly when it is an invalid wrapper; plain values and valid wrappers stand for their scalar |
| CountAggregator.WrapMod | internal/merger/internal/aggregatemerger/aggregator/count.go:60-66 | the accumulator always lies in its kind's range, and values already in range are kept |
| CountAggregator.WrapInWindow | internal/merger/internal/aggregatemerger/aggregator/count.go:60-66 | an integer kind's accumulator lies in that kind's two's-complement or unsigned window and keeps values already in it; float kinds keep the exact value |
| CountAggregator.HasCountFunc | internal/merger/internal/aggregatemerger/aggregator/count.go:80-93 | the table has an adder for exactly the numeric kinds, and none for strings and booleans |
| CountAggregator.WrapAdd | internal/merger/internal/aggregatemerger/aggregator/count.go:62-64 | adding into a wrapped accumulator equals wrapping the exact sum, for every kind |
| CountAggregator.Count.Aggregate | internal/merger/internal/aggregatemerger/aggregator/count.go:30-43 | an out-of-range index fails with InvalidAggregateColumnIndex, and only then; an all-NULL column gives its first value; otherwise the first non-null kind selects: no adder gives AggregateFuncNotFound, an adder gives the wrapped sum of every non-null number |
| CountAggregator.NewCount | internal/merger/internal/aggregatemerger/aggregator/count.go:45-58 | the name is "COUNT" and the descriptor is the argument unchanged |
| CountAggregator.NullableAggregator | internal/merger/internal/aggregatemerger/aggregator/count.go:68 | the non-null rows are empty exactly when there is no kind, and exactly when the column is all NULL |
| CountAggregator.CountNullable | internal/merger/internal/aggregatemerger/aggregator/count.go:67-78 | all NULL gives the first value unchanged; otherwise the kind of the first non-null value decides between AggregateFuncNotFound and the wrapped sum of the non-null numbers |
| CountAggregator.CountAggregate | internal/merger/internal/aggregatemerger/aggregator/count.go:60-66 | the loop's result is the column's exact sum held in an accumulator of the adder's kind |
| CountAggregator.CountNullableAggregator | internal/merger/internal/aggregatemerger/aggregator/count.go:67-78 | running the selected adder's loop over the non-null rows gives exactly the COUNT result CountNullable specifies |
| CountAggregator.NonNullRowsTyped | internal/merger/internal/aggregatemerger/aggregator/count.go:63 | in a well-typed column whose first non-null kind is k, every non-null row holds a plain number of kind k, so the adder's type assertion cannot fail |
| CountAggregator.NonNullRowsEmpty | internal/merger/internal/aggregatemerger/aggregator/count.go:69-72 | the non-null rows are empty exactly when every value is NULL |
| CountAggregator.FirstNonNullKindNone | internal/merger/internal/aggregatemerger/aggregator/count.go:68-72 | there is no non-null kind exactly when every value is NULL |
| CountAggregator.NonNullRowsSum | internal/merger/internal/aggregatemerger/aggregator/count.go:68-77 | summing the unwrapped non-null rows equals the reference sum of non-null values, so valid wrappers and plain values both contribute |
| CountAggregator.NonNullTotalPermutation | internal/merger/internal/aggregatemerger/aggregator/count.go:61-65 | two row lists that are permutations of each other have the same sum of non-null values |
| CountAggregator.FirstNonNullKindUniform | internal/merger/internal/aggregatemerger/aggregator/count.go:68-73 | when every non-null value has kind k and one exists, the kind selected is k, since NULL wrappers of other kinds do not count |
| CountAggregator.AggregateOrderIndependent | internal/merger/internal/aggregatemerger/aggregator/count.go:61-65 | when every non-null value has the same kind and some value is non-null, reordering the shard rows keeps the batch well formed and does not change the COUNT result |
| CountAggregator.AllNullDependsOnOrder | internal/merger/internal/aggregatemerger/aggregator/count.go:69-71 | an all-NULL column gives its first row's wrapper, so there the result depends on the order: NULL int then NULL float gives the int wrapper, the reverse gives the float one |
| CountAggregator.CountAddsPartialCounts | internal/merger/internal/aggregatemerger/aggregator/count_test.go:37-51 | 10, 20, 30 merge to 60 |
| CountAggregator.CountRejectsStrings | internal/merger/internal/aggregatemerger/aggregator/count_test.go:53-64 | string partials fail with AggregateFuncNotFound |
| CountAggregator.CountRejectsBadIndex | internal/merger/internal/aggregatemerger/aggregator/count_test.go:66-80 | index 20 on one-column rows fails with InvalidAggregateColumnIndex |
| CountAggregator.CountSkipsNullOfOtherKind | internal/merger/internal/aggregatemerger/aggregator/count_test.go:82-104 | valid int 4, a NULL float and valid int 7 merge to the int 11 |
| CountAggregator.CountAllNullReturnsFirst | internal/merger/internal/aggregatemerger/aggregator/count_test.go:106-128 | three NULLs give the first NULL wrapper unchanged |
| CountAggregator.CountValidWrappers | internal/merger/internal/aggregatemerger/aggregator/count_test.go:130-153 | valid wrappers 8, 9, 8 merge to 25 |
| CountAggregator.CountMixedWrappersAndPlain | internal/merger/internal/aggregatemerger/aggregator/count_test.go:155-172 | valid 8, NULL and plain 8 merge to 16 |
| MergerCursor.AvgIndexes | internal/merger/internal/aggregatemerger/merger.go:44-48 | the positions collected are exactly the indexes of the AVG aggregators, at most one per aggregator |
| MergerCursor.AvgIndexesConcat | internal/merger/internal/aggregatemerger/merger.go:44-48 | AVG positions are collected in aggregator order: those of a concatenation are those of each part, in turn |
| MergerCursor.AvgIndexesSingle | internal/merger/internal/aggregatemerger/merger.go:46-48 | one aggregator contributes its index exactly when its name is "AVG" |
| MergerCursor.Evaluate | internal/merger/internal/aggregatemerger/merger.go:158-169 | the values are, in order, the successful results of the aggregators before the first failure; no failure means every aggregator gave one; a failure is the error of the aggregator right after them |
| MergerCursor.EvaluateSucceeds | internal/merger/internal/aggregatemerger/merger.go:160-166 | evaluation succeeds exactly when every aggregator succeeds |
| MergerCursor.EvaluateFailurePersists | internal/merger/internal/aggregatemerger/merger.go:161-164 | after the first failure no further aggregator changes the outcome |
| MergerCursor.CloseFailures | internal/merger/internal/aggregatemerger/merger.go:226-234 | every shard's close failure is reported, and every reported failure comes from some shard |
| MergerCursor.CloseAll | internal/merger/internal/aggregatemerger/merger.go:226-234 | the loop closes every shard and collects exactly the close failures |
| MergerCursor.CollapseAsWritten | internal/merger/internal/aggregatemerger/merger.go:106-116 | with no AVG column the types are returned unchanged; otherwise the result ends at the last AVG column, so it has that column's position plus one types less two per earlier AVG column |
| MergerCursor.CollapseAsWrittenDropsTrailingColumns | internal/merger/internal/aggregatemerger/merger.go:109-116 | the loop as written maps the shard columns AVG(a), SUM(a), COUNT(a), COUNT(b) to one type for two visible columns |
| MergerCursor.Collapse | internal/merger/internal/aggregatemerger/merger.go:106-108 | with no AVG column the types are returned unchanged |
| MergerCursor.CollapseLength | internal/merger/internal/aggregatemerger/merger.go:109-116 | each AVG column hides exactly two column types |
| MergerCursor.CollapseKeepsTrailingColumns | internal/merger/internal/aggregatemerger/merger.go:109-116 | the intended collapse of AVG(a), SUM(a), COUNT(a), COUNT(b) keeps AVG(a) and COUNT(b) |
| MergerCursor.CollapseIsVisible | internal/merger/internal/aggregatemerger/merger.go:109-116 | the collapse keeps exactly the columns that are not one of the two right after an AVG column, in order |
| MergerCursor.CollapseColumnTypes | internal/merger/internal/aggregatemerger/merger.go:109-116 | the loop computes the intended collapse |
| AggregateMerger.FirstRow | internal/merger/internal/aggregatemerger/merger.go:185-197 | a shard's scan error is returned; a shard with no row gives AggregateHasEmptyRows; otherwise its first row |
| AggregateMerger.FirstRows | internal/merger/internal/aggregatemerger/merger.go:172-183 | succeeds exactly when every shard gives a row, and then holds every shard's first row in shard order |
| AggregateMerger.FirstRowsFirstFailure | internal/merger/internal/aggregatemerger/merger.go:175-179 | the error is that of the first shard that gives no row |
| AggregateMerger.MergeRow | internal/merger/internal/aggregatemerger/merger.go:135-183 | succeeds exactly when every shard gives a row and every aggregator succeeds over those rows, and then holds one value per aggregator in order; a shard failure is returned as is; otherwise the error of the first failing aggregator |
| AggregateMerger.EmptyShardFails | internal/merger/internal/aggregatemerger/merger.go:192-195 | an empty shard after shards that all gave a row makes the merge fail with AggregateHasEmptyRows |
| AggregateMerger.NewMerger | internal/merger/internal/aggregatemerger/merger.go:41-56 | column names are the aggregators' select names in order; the AVG positions are those of AvgIndexes |
| AggregateMerger.Merger.Merge | internal/merger/internal/aggregatemerger/merger.go:58-82 | an empty list gives EmptyRows; a missing entry gives RowsIsNull; otherwise a fresh valid cursor over the shards, not closed, Next not called, no row, no error |
| AggregateMerger.Rows.constructor | internal/merger/internal/aggregatemerger/merger.go:71-80 | the cursor starts open, before Next, with no row and no error |
| AggregateMerger.Rows.ColumnTypes | internal/merger/internal/aggregatemerger/merger.go:96-117 | closed gives RowsClosed; otherwise shard 0's column-type error, or shard 0's types with the AVG columns collapsed |
| AggregateMerger.Rows.Next | internal/merger/internal/aggregatemerger/merger.go:123-155 | true at most once: only on a first call on an open cursor whose merged row exists, which it then holds; a closed cursor changes nothing; any other call closes the cursor, and an error is recorded as the merged row's failure |
| AggregateMerger.Rows.ExecuteAggregateCalculation | internal/merger/internal/aggregatemerger/merger.go:158-169 | the loop gives every aggregator's value in order, or the first aggregator error |
| AggregateMerger.Rows.GetSqlRowsData | internal/merger/internal/aggregatemerger/merger.go:172-183 | the loop gives every shard's first row, or the first shard's error |
| AggregateMerger.Rows.Scan | internal/merger/internal/aggregatemerger/merger.go:199-220 | a recorded error wins, then RowsClosed, then ScanNotNext for an empty row; a success is exactly the merged row, and on an open cursor with no error after a successful Next, Scan succeeds with that row |
| AggregateMerger.Rows.Close | internal/merger/internal/aggregatemerger/merger.go:222-235 | the cursor is closed, every shard is closed and every close failure is returned; nothing else changes |
| AggregateMerger.Rows.Columns | internal/merger/internal/aggregatemerger/merger.go:237-244 | RowsClosed exactly when closed, otherwise the visible column names |
| AggregateMerger.Rows.Err | internal/merger/internal/aggregatemerger/merger.go:246-250 | an error is reported exactly when Next ran and the merged row failed; it is then that failure's error, and the cursor is closed |
| GroupKey.CompareNum | internal/merger/internal/groupbymerger/aggregator_merger.go:285-294 | -1, 0 and 1 exactly for <, == and > |
| GroupKey.StrLessIrreflexive | internal/merger/internal/groupbymerger/aggregator_merger.go:285-294 | no string is less than itself |
| GroupKey.StrLessAsymmetric | internal/merger/internal/groupbymerger/aggregator_merger.go:285-294 | two strings are never each less than the other |
| GroupKey.StrLessTotal | internal/merger/internal/groupbymerger/aggregator_merger.go:285-294 | two different strings are ordered one way or the other |
| GroupKey.StrLessTransitive | internal/merger/internal/groupbymerger/aggregator_merger.go:285-294 | string order is transitive |
| GroupKey.CompareStr | internal/merger/internal/groupbymerger/aggregator_merger.go:285-294 | -1, 0 and 1 exactly for less, equal and greater in the string order |
| GroupKey.CompareBool | internal/merger/internal/groupbymerger/aggregator_merger.go:317-326 | 0 exactly for equal values; false sorts before true |
| GroupKey.CompareScalar | internal/merger/internal/groupbymerger/aggregator_merger.go:300-315 | the per-kind comparison gives -1, 0 or 1, and 0 exactly for equal values |
| GroupKey.ScalarAntisymmetric | internal/merger/internal/groupbymerger/aggregator_merger.go:285-294 | swapping the arguments negates the result |
| GroupKey.ScalarTransitive | internal/merger/internal/groupbymerger/aggregator_merger.go:285-294 | the per-kind order is transitive |
| GroupKey.Compare | internal/merger/internal/groupbymerger/aggregator_merger.go:273-283 | the key comparison gives -1, 0 or 1 |
| GroupKey.CompareKey | internal/merger/internal/groupbymerger/aggregator_merger.go:273-283 | the early-exit loop computes the lexicographic comparison |
| GroupKey.CompareZeroIffEqual | internal/merger/internal/groupbymerger/aggregator_merger.go:273-283 | equal-length comparable keys compare as 0 exactly when they are equal |
| GroupKey.CompareAntisymmetric | internal/merger/internal/groupbymerger/aggregator_merger.go:273-283 | swapping two equal-length keys keeps them comparable and negates the result |
| GroupKey.CompareTransitive | internal/merger/internal/groupbymerger/aggregator_merger.go:273-283 | the key order is transitive |
| GroupKey.CompareFirstDifference | internal/merger/internal/groupbymerger/aggregator_merger.go:273-283 | the first position where the keys differ decides the comparison |
| Grouping.ScanUntilError | internal/merger/internal/groupbymerger/aggregator_merger.go:109-117 | no error exactly when no shard's scan fails; a reported error is some shard's scan error |
| Grouping.ScanUntilErrorConcat | internal/merger/internal/groupbymerger/aggregator_merger.go:109-117 | without errors the rows read are the shards' rows concatenated in shard order |
| Grouping.ScanErrorPersists | internal/merger/internal/groupbymerger/aggregator_merger.go:114-117 | the first failed scan decides the outcome |
| Grouping.GroupShape | internal/merger/internal/groupbymerger/aggregator_merger.go:118-136 | every bucket holds at least one row, every listed key has a bucket, and there are at most as many keys as rows |
| Grouping.BuildKey | internal/merger/internal/groupbymerger/aggregator_merger.go:119-122 | the key holds the row's value at each group-by column, in column order |
| Grouping.KeyOfEqual | internal/merger/internal/groupbymerger/aggregator_merger.go:119-122 | two rows share a key exactly when they agree at every group-by column |
| Grouping.Filter | internal/merger/internal/groupbymerger/aggregator_merger.go:123-136 | the reference bucket holds only rows read that have the given key |
| Grouping.FilterComplete | internal/merger/internal/groupbymerger/aggregator_merger.go:123-136 | every row with the given key is in the reference bucket |
| Grouping.FirstIndex | internal/merger/internal/groupbymerger/aggregator_merger.go:130-131 | the position of the first row with the key, or the row count when there is none |
| Grouping.GroupKeys | internal/merger/internal/groupbymerger/aggregator_merger.go:123-136 | the map and the key list hold the same keys, which are exactly the keys of the rows read; the list is ordered by first occurrence |
| Grouping.GroupCovers | internal/merger/internal/groupbymerger/aggregator_merger.go:118-136 | every row's key has a bucket |
| Grouping.GroupIndexFacts | internal/merger/internal/groupbymerger/aggregator_merger.go:123-136 | the key list holds each bucket's key exactly once |
| Grouping.GroupBucketIsFilter | internal/merger/internal/groupbymerger/aggregator_merger.go:123-136 | each bucket holds exactly the rows with its key, in scan order |
| Grouping.RowInExactlyOneBucket | internal/merger/internal/groupbymerger/aggregator_merger.go:118-136 | every row is in the bucket of its key and in no other bucket |
| Grouping.GroupSizes | internal/merger/internal/groupbymerger/aggregator_merger.go:118-136 | the bucket sizes add up to the number of rows read |
| GroupByMerger.KeysCompareAsEquality | internal/merger/internal/groupbymerger/aggregator_merger.go:123-126 | on the keys of the rows read, the comparison is 0 exactly for equal keys, and swapping two keys negates it |
| GroupByMerger.KeysCompareTransitive | internal/merger/internal/groupbymerger/aggregator_merger.go:123-126 | on the keys of the rows read, the comparison is transitive; with KeysCompareAsEquality it is a strict order whose equivalence is equality, so an equality-keyed map behaves as the comparison-keyed tree map |
| GroupByMerger.MergedGroup | internal/merger/internal/groupbymerger/aggregator_merger.go:196-210 | succeeds exactly when every aggregator does, and then holds the key values followed by each aggregator's value over the bucket; a failure is the error of the first failing aggregator, all those before it having succeeded |
| GroupByMerger.GroupRowsAreBuckets | internal/merger/internal/groupbymerger/aggregator_merger.go:200-202 | the bucket aggregated for the i-th key is exactly the rows read that have that key |
| GroupByMerger.NewAggregatorMerger | internal/merger/internal/groupbymerger/aggregator_merger.go:46-65 | column names are the group columns' select names followed by the aggregators'; the AVG positions are those of AvgIndexes |
| GroupByMerger.AggregatorMerger.Merge | internal/merger/internal/groupbymerger/aggregator_merger.go:68-101 | EmptyRows, then RowsIsNull, then shard 0's column-type error, then the first scan error are checked in that order; otherwise a fresh valid cursor at -1 over the grouping of every row read |
| GroupByMerger.AggregatorMerger.GetCols | internal/merger/internal/groupbymerger/aggregator_merger.go:103-140 | the nested loop gives the first scan error, or the grouping specified by Group |
| GroupByMerger.AggregatorRows.constructor | internal/merger/internal/groupbymerger/aggregator_merger.go:89-100 | the cursor starts open at -1, with no error |
| GroupByMerger.AggregatorRows.ColumnTypes | internal/merger/internal/groupbymerger/aggregator_merger.go:158-177 | closed gives RowsClosed; otherwise the stored types with the AVG columns collapsed |
| GroupByMerger.AggregatorRows.Next | internal/merger/internal/groupbymerger/aggregator_merger.go:184-214 | a closed cursor changes nothing and gives false; otherwise the position advances by one; true exactly when a group is there and merges, and then the row is that group's merged row; past the last group or on an aggregator error the cursor closes |
| GroupByMerger.AggregatorRows.AggregateGroup | internal/merger/internal/groupbymerger/aggregator_merger.go:196-210 | the loop gives the group's merged row, or the first aggregator error |
| GroupByMerger.AggregatorRows.Scan | internal/merger/internal/groupbymerger/aggregator_merger.go:216-235 | a recorded error wins, then RowsClosed, then ScanNotNext before the first Next; a success is exactly the current group's merged row, and on an open cursor with no error positioned on a group, Scan succeeds with that group's row |
| GroupByMerger.AggregatorRows.Close | internal/merger/internal/groupbymerger/aggregator_merger.go:238-251 | the cursor is closed, every shard is closed and every close failure is returned; nothing else changes |
| GroupByMerger.AggregatorRows.Columns | internal/merger/internal/groupbymerger/aggregator_merger.go:254-261 | RowsClosed exactly when closed, otherwise the visible column names |
| GroupByMerger.AggregatorRows.Err | internal/merger/internal/groupbymerger/aggregator_merger.go:263-267 | an error is reported exactly when the cursor closed on a group whose merge failed, and it is that failure's error |

## Left out

- Context cancellation: the check at the entry of both `Merge` methods is left out, because a context is not a value the merge computes with.
- Locks: the read/write lock of both cursors is left out. The model is single-threaded.
- `NextResultSet`: left out; it always returns false.
- Destination conversion in `Scan`: `rows.ConvertAssign` is foreign code. `Scan` returns the whole current row instead of converting it into destinations, so conversion errors are not modelled.
- The row scanner and shard sources are abstracted:
  - A shard is a given list of rows, a scan error (standing for any error of the scanner), a column-type result and a close result.
  - Its column-type result is fixed, so a later change of a shard's metadata is not modelled.
  - Consuming a shard's rows by scanning is not modelled.
- `multierr` is modelled as the list of close failures.
- The ordered tree map is modelled as a Dafny map keyed by equality; `KeysCompareAsEquality` (0 exactly for equal keys, antisymmetry) and `KeysCompareTransitive` justify this. Its constructor and `Put` errors are not modelled, because the comparator and keys are never nil.
- Other aggregators: MIN, MAX, SUM and AVG are not part of this model. The mergers take any aggregator as a function from a batch of rows to a value or an error. COUNT is modelled on its own, with its own preconditions.
- `SelectName` and `nullableAggregator` are defined in files that are not part of this model:
  - the select name is a field of the column descriptor;
  - only the observable effect of the nullable pre-pass is modelled.
- CountAggregator.Count.Aggregate: float kinds carry only integral values, and float rounding is not modelled.
- CountAggregator.Count.Aggregate: it requires a non-empty batch. When the index lies within the first row, it also requires every row to have that column and, if the first non-null value is a number, every non-null value to be of its kind. In Go, `cols[0]` of an empty batch, an index past the end of a later row and the adder's type assertion panic otherwise; `NonNullRowsTyped` shows the kind condition is what the type assertion needs.
- CountAggregator.CountAggregate: it requires every value to be a plain number of the adder's kind. This is the Go type assertion.
- GroupByMerger.AggregatorMerger.Merge: it requires every row read to have the group-by columns, and every two keys read to be comparable. The tree map may never compare some pairs, for example when there is a single key, so this asks slightly more than Go needs to avoid a panic.
- AggregateMerger.Rows.ColumnTypes: it uses the corrected collapse, which keeps the columns after the last AVG pair; see Findings. On an open cursor, its precondition asks for the two synthetic columns of every AVG column to be present.
- GroupByMerger.AggregatorRows.ColumnTypes: it uses the corrected collapse too, with the same precondition.
- GroupByMerger.AggregatorRows.Next: when an aggregator fails, the partly built current row is not kept. Go keeps it, but `Scan` returns the recorded error first, so the row is never read.

## Findings

The documented design of `ColumnTypes` hides only the two synthetic columns that the AVG rewrite inserts right after each AVG column. The code's loop never appends the columns after the last AVG pair. The model follows the code in `MergerCursor.CollapseAsWritten`, and the cursors use the corrected collapse.

| source | as written | input that shows it | evidently intended | confidence | as-written member | corrected member |
|---|---|---|---|---|---|---|
| internal/merger/internal/aggregatemerger/merger.go:109-116 | the loop appends `ts[prev:idx+1]` for each AVG index and returns, so every column after the last AVG's synthetic pair is dropped | shard columns AVG(a), SUM(a), COUNT(a), COUNT(b) with AVG index 0 give one column type for the two visible columns AVG(a), COUNT(b) | append `ts[prev:]` after the loop, so that only the synthetic columns are hidden | medium, not executed | MergerCursor.CollapseAsWrittenDropsTrailingColumns | MergerCursor.CollapseIsVisible |
| internal/merger/internal/groupbymerger/aggregator_merger.go:169-176 | the same loop over the stored column types drops every group or aggregate column after the last AVG's synthetic pair | the same layout behind a GROUP BY: AVG(a), SUM(a), COUNT(a), COUNT(b) with AVG index 0 | append `columnTypes[prev:]` after the loop | medium, not executed | MergerCursor.CollapseAsWrittenDropsTrailingColumns | MergerCursor.CollapseKeepsTrailingColumns |
