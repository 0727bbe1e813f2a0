# ORC page source: a Dafny model

This project models the page-adaptation layer of Trino's Hive connector for ORC
files, `OrcPageSource`. On each `getNextPage` call the page source pulls a raw
page from the ORC record reader. It derives the page's deleted-rows mask, from the
deleted-rows provider when there is one and otherwise the identity mask. It then
builds one output block per configured column adaptation, in declared order, and
returns a page whose row count is the mask's surviving count. It closes itself
when the reader has no more pages. On a read failure it closes with suppression
and rethrows the failure, classified as a `TrinoException`.

Modules:

- `Blocks`: values, blocks (run-length `Rle` or `Array`), row blocks built from
  field blocks, and pages.
- `Masks`: the deleted-rows mask, taken abstractly as the strictly increasing
  list of kept raw positions. `NoMask` is the identity mask and `Apply` is selection.
- `Longs`: Java `long` arithmetic, which wraps around at 64 bits.
- `Failures`: throwables as objects (suppressed list, identity) and `handleException`.
- `Adaptations`: the column adaptations (null column, source column with its
  single-use `MaskingBlockLoader`, ACID row id, original-file row id with
  `createRowIdBlock`).
- `Reader`: the record reader as a script of batches and failures with a file
  position and a close count, plus the statistics sink.
- `PageSource`: the `OrcPageSource` class with `getNextPage`, `close`,
  `closeWithSuppression` and `isFinished`.
- `Scenarios`: a client that reads two batches (5 and 3 raw rows, rows 2 and 4 of
  the first deleted) through a source column and a null column.

## Notes on the code

- There is no short-circuit for a page with zero raw rows. Every adaptation
  runs and yields a zero-length block.
- The original-file row-id adaptation takes its own `startingRowId` at
  construction. It does not depend on whether `originalFileRowId` is present.
  `StartRowIdIsFirstRowId` shows that the two agree when they hold the same value.
- Java's `long` additions wrap around, and the model writes this out
  (`Longs.ToLong`). "Strictly increasing ids" is proved only when no id overflows.

## Model

| member | source | states |
|---|---|---|
| Masks.NoMaskForPage | plugin/trino-hive/src/main/java/io/trino/plugin/hive/orc/OrcPageSource.java:142 | the identity mask fits the page and keeps all of its raw rows |
| Masks.Apply | plugin/trino-hive/src/main/java/io/trino/plugin/hive/orc/OrcPageSource.java:310 | the masked block has the surviving count; position i holds the source value at the i-th kept raw position; the identity mask returns the block itself |
| Masks.SurvivingCountBounded | plugin/trino-hive/src/main/java/io/trino/plugin/hive/orc/OrcPageSource.java:147 | the surviving count never exceeds the raw count, and equals it under the identity mask |
| Masks.KeepAllIsIdentity | plugin/trino-hive/src/main/java/io/trino/plugin/hive/orc/OrcPageSource.java:140-142 | a mask that keeps as many rows as the page has keeps every position, so with no deletions the output is a straight re-projection of the input |
| Longs.AddLong | plugin/trino-hive/src/main/java/io/trino/plugin/hive/orc/OrcPageSource.java:393 | Java long addition: the result is a long, and it is the exact sum when that fits |
| Longs.AddLongAssociates | plugin/trino-hive/src/main/java/io/trino/plugin/hive/orc/OrcPageSource.java:393 | `filePosition + startingRowId + index`, wrapped at each step, equals the exact sum wrapped once |
| Failures.Throwable.AddSuppressed | plugin/trino-hive/src/main/java/io/trino/plugin/hive/orc/OrcPageSource.java:203 | appends to the suppressed list; self-suppression is excluded |
| Failures.CursorErrorMessage | plugin/trino-hive/src/main/java/io/trino/plugin/hive/orc/OrcPageSource.java:158 | the generic read-failure message is the fixed prefix followed by the data source id |
| Failures.Classify | plugin/trino-hive/src/main/java/io/trino/plugin/hive/orc/OrcPageSource.java:150-159 | a TrinoException passes through (iff); an OrcCorruptionException becomes HIVE_BAD_DATA (iff); anything else becomes HIVE_CURSOR_ERROR with a message naming the data source |
| Failures.HandleException | plugin/trino-hive/src/main/java/io/trino/plugin/hive/orc/OrcPageSource.java:150-159 | the result is always a TrinoException: the same object when the input is one, otherwise a fresh one with the classified code and message and the input as cause |
| Adaptations.NullColumnBlock | plugin/trino-hive/src/main/java/io/trino/plugin/hive/orc/OrcPageSource.java:253-256 | a block of the surviving count whose every position is null |
| Adaptations.AcidRowIdBlock | plugin/trino-hive/src/main/java/io/trino/plugin/hive/orc/OrcPageSource.java:324-335 | the ACID row id of surviving row i is the row (transaction, row id, bucket) read from the three fixed channels at the i-th kept raw position |
| Adaptations.RowIdsWrapOnce | plugin/trino-hive/src/main/java/io/trino/plugin/hive/orc/OrcPageSource.java:391-394 | every synthesised id equals `filePosition + startingRowId + i` wrapped to a long |
| Adaptations.RowIdBlock | plugin/trino-hive/src/main/java/io/trino/plugin/hive/orc/OrcPageSource.java:389-396 | the row-id block has one id per raw position: `filePosition + startingRowId + i` as a long |
| Adaptations.CreateRowIdBlock | plugin/trino-hive/src/main/java/io/trino/plugin/hive/orc/OrcPageSource.java:389-396 | the loop fills the id array so that the block is exactly the row-id block of the raw positions |
| Adaptations.OriginalFileRowIdBlock | plugin/trino-hive/src/main/java/io/trino/plugin/hive/orc/OrcPageSource.java:375-387 | surviving row i is (0, the id of its RAW position, the constant bucket value): ids are synthesised for all raw rows and masked afterwards |
| Adaptations.OriginalFileRowIdsIncrease | plugin/trino-hive/src/main/java/io/trino/plugin/hive/orc/OrcPageSource.java:375-394 | without overflow the surviving ids are exactly `filePosition + startingRowId + p` for the kept raw positions p, and they are strictly increasing |
| Adaptations.OriginalFileRowIdsExample | plugin/trino-hive/src/main/java/io/trino/plugin/hive/orc/OrcPageSource.java:391-394 | starting row id 1000 at file position 50 gives ids 1050, 1051, 1052; with the middle row deleted, 1050 and 1052 remain |
| Adaptations.MaskingBlockLoader.constructor | plugin/trino-hive/src/main/java/io/trino/plugin/hive/orc/OrcPageSource.java:299-303 | the loader holds the page's mask and source block until it fires |
| Adaptations.MaskingBlockLoader.Load | plugin/trino-hive/src/main/java/io/trino/plugin/hive/orc/OrcPageSource.java:306-316 | the first load returns the mask applied to the source block and drops both references; every later load fails with "Already loaded" and changes nothing |
| Adaptations.ProducedHasSurvivingCount | plugin/trino-hive/src/main/java/io/trino/plugin/hive/orc/OrcPageSource.java:279-282 | every adaptation's block has the mask's surviving count; a source column's loader yields exactly its lazy block's declared count, holding the source values at the kept positions |
| Adaptations.SourceColumnBlock | plugin/trino-hive/src/main/java/io/trino/plugin/hive/orc/OrcPageSource.java:279-283 | a lazy block of the surviving count behind a fresh loader that holds the mask and the column's source block |
| Adaptations.AdaptBlock | plugin/trino-hive/src/main/java/io/trino/plugin/hive/orc/OrcPageSource.java:210 | each adaptation variant produces the block its variant defines |
| Reader.RecordReader.NextPage | plugin/trino-hive/src/main/java/io/trino/plugin/hive/orc/OrcPageSource.java:125 | the reader pops one scripted step: a batch (the file position moves to its first row), a failure, or null once the script is exhausted |
| PageSource.StartRowId | plugin/trino-hive/src/main/java/io/trino/plugin/hive/orc/OrcPageSource.java:137-138 | present exactly when `originalFileRowId` is present, and then `originalFileRowId + filePosition` |
| PageSource.StartRowIdIsFirstRowId | plugin/trino-hive/src/main/java/io/trino/plugin/hive/orc/OrcPageSource.java:137-138 | the start row id handed to the deleted-rows provider is the synthesised id of the page's first raw row |
| PageSource.MaskFor | plugin/trino-hive/src/main/java/io/trino/plugin/hive/orc/OrcPageSource.java:140-142 | the mask fits the page; with no deleted-rows provider it is the identity mask and the output count equals the raw count; with a provider it is the provider's mask for the page and its start row id |
| PageSource.AdaptedPageIsConsistent | plugin/trino-hive/src/main/java/io/trino/plugin/hive/orc/OrcPageSource.java:143-147 | every block of the output page has the page's row count, which is at most the raw count and equal to it under the identity mask |
| PageSource.AdaptPage | plugin/trino-hive/src/main/java/io/trino/plugin/hive/orc/OrcPageSource.java:143-147 | the block loop builds a page whose count is the mask's surviving count and whose block i is what adaptation i produces; every lazy block has a freshly created loader and no two blocks share one |
| PageSource.OrcPageSource.IsFinished | plugin/trino-hive/src/main/java/io/trino/plugin/hive/orc/OrcPageSource.java:110-113 | true exactly when the source is closed; Close, CloseWithSuppression and the end-of-data path of GetNextPage leave it true |
| PageSource.OrcPageSource.constructor | plugin/trino-hive/src/main/java/io/trino/plugin/hive/orc/OrcPageSource.java:79-95 | a new page source is open and holds the given reader, adaptations, provider and original-file row id |
| PageSource.OrcPageSource.MaskAt | plugin/trino-hive/src/main/java/io/trino/plugin/hive/orc/OrcPageSource.java:137-142 | the mask of a raw page is derived from the start row id at the reader's file position |
| PageSource.OrcPageSource.Close | plugin/trino-hive/src/main/java/io/trino/plugin/hive/orc/OrcPageSource.java:161-177 | afterwards the source is finished; a second close changes nothing and throws nothing; a first close records the statistic and closes the reader exactly once, rethrowing an IOException as a fresh UncheckedIOException |
| PageSource.OrcPageSource.CloseWithSuppression | plugin/trino-hive/src/main/java/io/trino/plugin/hive/orc/OrcPageSource.java:194-206 | closes, attaches a runtime close failure to the original as suppressed unless it is the same object, keeps the original's earlier suppressed failures, and lets only a java.lang.Error escape |
| PageSource.OrcPageSource.GetNextPage | plugin/trino-hive/src/main/java/io/trino/plugin/hive/orc/OrcPageSource.java:120-148 | on a batch: a page with the mask's surviving count and block i from adaptation i, the source still open, no statistic recorded, the reader's positions advanced past the batch, and every lazy block behind its own freshly created loader, so no two columns share one; on exhaustion: close and null; on a read failure: close with suppression first, then the classified failure (an uncaught java.lang.Error leaves the source and the statistics as they were); on exhaustion and failure the reader's positions are unchanged |
| Scenarios.TwoBatchesWithDeletions | plugin/trino-hive/src/main/java/io/trino/plugin/hive/orc/OrcPageSource.java:120-148 | batches of 5 and 3 raw rows, with rows 2 and 4 of the first deleted, yield pages of 3 and 3 rows, the second read at file position 5; the source then finishes, having recorded its statistic exactly once |
| Scenarios.FirstColumnLoadsOnce | plugin/trino-hive/src/main/java/io/trino/plugin/hive/orc/OrcPageSource.java:279-316 | the first page's source column loads the kept values 10, 11, 13 once; loading again fails |
| Scenarios.ColumnsLoadIndependently | plugin/trino-hive/src/main/java/io/trino/plugin/hive/orc/OrcPageSource.java:279-283 | two source columns over the same channel get separate loaders, so loading the first still leaves the second to load the full block |

## Left out

- `UpdatedRowAdaptation` (lines 343-360) is not modelled. It hands the page, its unchanged channels and the mask to `HiveUpdateProcessor`, which is not part of this model.
- `getCompletedBytes`, `getReadTimeNanos`, `getSystemMemoryUsage` and `getColumnTypes` are left out. They pass through to the data source, the memory context or the reader, with no logic of their own. `toString` is left out too.
- The record reader's decoding, its I/O and its byte and time counters are left out. The reader is a script of batches and failures with a file position. After a close it keeps following its script.
- `OrcDeletedRows.MaskDeletedRowsFunction` is not part of this model. A mask is the strictly increasing list of kept positions. The provider is a total function of the page and the start row id, and is required to fit every page.
- `OrcFileWriter.computeBucketValue` is not part of this model. The original-file row-id adaptation holds the bucket value already encoded as `computeBucketValue(bucketId, 0)`.
- The `HiveUpdatablePageSource` channel constants are not part of this model. They are taken as 0 (original transaction), 1 (bucket) and 2 (row id).
- `LazyBlock` memoisation and the deferred decoding of reader blocks are left out. Reader blocks are already loaded, so `getLoadedBlock` is the identity. Memory accounting is left out too.
- Block types are left out. A null column keeps only its type's name, and blocks carry untyped values.
- A source column index beyond the page's channels would raise `IndexOutOfBoundsException`. The reader reads the projected columns, so this cannot happen, and the page source's invariant requires that every scripted batch has the channels its adaptations read.
- The reader's file positions are contiguous: each batch starts where the previous one ended. A real ORC reader can skip row groups, so its positions can jump; the page source only reads the position and no contract here depends on contiguity beyond the scenario.
- Close failures are modelled only from the reader's `close`. The statistics sink and `getMaxCombinedBytesPerRow` are taken never to throw.
- Failures.HandleException: the message of a HIVE_BAD_DATA exception, and of the UncheckedIOException made in Close, is left absent. Java derives it from the cause, and the model does not say what it is.
- Page position counts are unbounded naturals, not 32-bit `int`.
- The reader's `filePosition` and `nextRowPosition`, `originalFileRowId` and `startingRowId` are unbounded integers, not 64-bit `long`: every row id and start row id is wrapped to 64 bits with `ToLong`/`AddLong`, but advancing `nextRowPosition` by a batch's row count does not wrap, because a reader never gets near 2^63 rows.
