/**
 * A client of the page source: two raw batches of 5 and 3 rows, rows 2 and 4
 * of the first deleted, read through one source column and one null column.
 */
module Scenarios {
  import opened Wrappers
  import opened Blocks
  import opened Masks
  import opened Failures
  import opened Adaptations
  import opened Reader
  import opened PageSource

  const FIRST_BATCH: Page := Page(5, [Array(LongValues([10, 11, 12, 13, 14]))])
  const SECOND_BATCH: Page := Page(3, [Array(LongValues([20, 21, 22]))])

  /** The deleted-rows provider of the scenario: rows 2 and 4 of the first batch are deleted. */
  function ScenarioDeletedRows(page: Page, startRowId: Option<int>): Mask
  {
    if page == FIRST_BATCH then Keep(5, [0, 1, 3]) else NoMaskForPage(page)
  }

  lemma ScenarioDeletedRowsFit()
    ensures DeletedRowsFit(Some(ScenarioDeletedRows))
  {
    assert Fits(Keep(5, [0, 1, 3]), 5);
  }

  /**
   * The page source reads 3 + 3 rows, the second batch at file position 5, and
   * then finishes on its own, having recorded its statistic once.
   */
  method TwoBatchesWithDeletions() returns (rowCounts: seq<nat>, secondPosition: int, recorded: seq<int>, finished: bool)
    ensures rowCounts == [3, 3]
    ensures secondPosition == 5
    ensures recorded == [64]
    ensures finished
  {
    var source := NewScenarioSource();
    var r1, r2, r3;
    ghost var e1, e2, e3;
    r1, e1 := source.GetNextPage();
    assert r1.page.positionCount == 3 by {
      assert MaskFor(Some(ScenarioDeletedRows), FIRST_BATCH, None) == Keep(5, [0, 1, 3]);
    }
    r2, e2 := source.GetNextPage();
    assert r2.page.positionCount == 3;
    secondPosition := source.recordReader.filePosition;
    r3, e3 := source.GetNextPage();
    rowCounts := [r1.page.positionCount, r2.page.positionCount];
    recorded := source.stats.maxCombinedBytesPerRow;
    finished := source.IsFinished() && r3.EndOfData?;
  }

  /** The first column of the first page loads the kept values once; a second load fails. */
  method FirstColumnLoadsOnce() returns (firstColumn: LoadResult, reloaded: LoadResult)
    ensures firstColumn == Loaded(Array(LongValues([10, 11, 13])))
    ensures reloaded == Failed("Already loaded")
  {
    var source := NewScenarioSource();
    var r1;
    ghost var e1;
    r1, e1 := source.GetNextPage();
    assert MaskFor(Some(ScenarioDeletedRows), FIRST_BATCH, None) == Keep(5, [0, 1, 3]);
    var out1 := r1.page;
    assert Produced(SourceColumn(0), FIRST_BATCH, Keep(5, [0, 1, 3]), 0, out1.blocks[0]);
    var loader := out1.blocks[0].loader;
    assert loader in Loaders(out1.blocks);
    firstColumn := loader.Load();
    reloaded := loader.Load();
  }

  /** Two columns over the same channel get their own loaders: loading the first leaves the second pending. */
  method ColumnsLoadIndependently() returns (first: LoadResult, second: LoadResult)
    ensures first == Loaded(FIRST_BATCH.blocks[0])
    ensures second == Loaded(FIRST_BATCH.blocks[0])
  {
    var adaptations := [SourceColumn(0), SourceColumn(0)];
    var mask := NoMaskForPage(FIRST_BATCH);
    var out := AdaptPage(adaptations, FIRST_BATCH, mask, 0);
    assert Produced(SourceColumn(0), FIRST_BATCH, mask, 0, out.blocks[0]);
    assert Produced(SourceColumn(0), FIRST_BATCH, mask, 0, out.blocks[1]);
    var loader0, loader1 := out.blocks[0].loader, out.blocks[1].loader;
    assert loader0 in Loaders(out.blocks) && loader1 in Loaders(out.blocks);
    assert loader0 != loader1;
    first := loader0.Load();
    second := loader1.Load();
  }

  method NewScenarioSource() returns (source: OrcPageSource)
    ensures fresh(source) && fresh(source.recordReader) && fresh(source.stats)
    ensures source.Valid() && !source.closed && source.stats.maxCombinedBytesPerRow == []
    ensures source.recordReader.maxCombinedBytesPerRow == 64
    ensures source.recordReader.steps == [Batch(FIRST_BATCH), Batch(SECOND_BATCH)]
    ensures source.recordReader.nextRowPosition == 0 && source.recordReader.closeFailure == None
    ensures source.columnAdaptations == [SourceColumn(0), NullColumn("varchar")]
    ensures source.deletedRows == Some(ScenarioDeletedRows) && source.originalFileRowId == None
  {
    assert WellFormed(FIRST_BATCH) && WellFormed(SECOND_BATCH);
    var reader := new RecordReader([Batch(FIRST_BATCH), Batch(SECOND_BATCH)], 0, 64, None);
    var stats := new FileFormatDataSourceStats();
    var adaptations := [SourceColumn(0), NullColumn("varchar")];
    ScenarioDeletedRowsFit();
    assert AdaptationsReadWithin(adaptations, FIRST_BATCH) && AdaptationsReadWithin(adaptations, SECOND_BATCH);
    source := new OrcPageSource(reader, adaptations, "file.orc", Some(ScenarioDeletedRows), None, stats);
  }
}
