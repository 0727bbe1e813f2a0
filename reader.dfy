/**
 * The collaborators of the page source, reduced to what it observes: the ORC
 * record reader as a script of batches and failures with a file position, and
 * the statistics sink it reports to on close.
 */
module Reader {
  import opened Wrappers
  import opened Blocks
  import opened Failures

  /** What one `nextPage` call of the reader does: return a batch, or throw. */
  datatype ReadStep = Batch(page: Page) | Fault(exception: Throwable)

  datatype ReadOutcome = Returned(page: Page) | NoMorePages | Threw(exception: Throwable)

  class RecordReader {
    /** The outcomes of the remaining `nextPage` calls; once empty, `nextPage` returns null. */
    var steps: seq<ReadStep>
    /** The row position in the file of the first row of the batch last returned. */
    var filePosition: int
    /** The row position in the file of the first row of the next batch. */
    var nextRowPosition: int
    const maxCombinedBytesPerRow: int
    /** What `close` throws, if anything. */
    const closeFailure: Option<Throwable>
    /** How many times `close` was called: the reader's resources are released on the first. */
    var closeCalls: nat

    ghost predicate Valid()
      reads this
    {
      forall k :: 0 <= k < |steps| && steps[k].Batch? ==> WellFormed(steps[k].page)
    }

    constructor (steps: seq<ReadStep>, firstRowPosition: int, maxCombinedBytesPerRow: int, closeFailure: Option<Throwable>)
      requires forall k :: 0 <= k < |steps| && steps[k].Batch? ==> WellFormed(steps[k].page)
      ensures Valid()
      ensures this.steps == steps && filePosition == firstRowPosition && nextRowPosition == firstRowPosition
      ensures this.maxCombinedBytesPerRow == maxCombinedBytesPerRow && this.closeFailure == closeFailure
      ensures closeCalls == 0
    {
      this.steps := steps;
      filePosition := firstRowPosition;
      nextRowPosition := firstRowPosition;
      this.maxCombinedBytesPerRow := maxCombinedBytesPerRow;
      this.closeFailure := closeFailure;
      closeCalls := 0;
    }

    method NextPage() returns (r: ReadOutcome)
      requires Valid()
      modifies this`steps, this`filePosition, this`nextRowPosition
      ensures Valid()
      ensures steps == if old(steps) == [] then [] else old(steps)[1..]
      ensures old(steps) == [] ==>
                r == NoMorePages && filePosition == old(filePosition) && nextRowPosition == old(nextRowPosition)
      ensures old(steps) != [] && old(steps)[0].Fault? ==>
                && r == Threw(old(steps)[0].exception)
                && filePosition == old(filePosition) && nextRowPosition == old(nextRowPosition)
      ensures old(steps) != [] && old(steps)[0].Batch? ==>
                && r == Returned(old(steps)[0].page)
                && filePosition == old(nextRowPosition)
                && nextRowPosition == old(nextRowPosition) + old(steps)[0].page.positionCount
    {
      if steps == [] {
        return NoMorePages;
      }
      var step := steps[0];
      steps := steps[1..];
      match step
      case Fault(e) =>
        r := Threw(e);
      case Batch(page) =>
        filePosition := nextRowPosition;
        nextRowPosition := nextRowPosition + page.positionCount;
        r := Returned(page);
    }

    method Close() returns (thrown: Option<Throwable>)
      modifies this`closeCalls
      ensures closeCalls == old(closeCalls) + 1
      ensures thrown == closeFailure
    {
      closeCalls := closeCalls + 1;
      thrown := closeFailure;
    }
  }

  /** The statistics sink: one entry per recorded maximum of combined bytes per row. */
  class FileFormatDataSourceStats {
    var maxCombinedBytesPerRow: seq<int>

    constructor ()
      ensures maxCombinedBytesPerRow == []
    {
      maxCombinedBytesPerRow := [];
    }

    method AddMaxCombinedBytesPerRow(value: int)
      modifies this
      ensures maxCombinedBytesPerRow == old(maxCombinedBytesPerRow) + [value]
    {
      maxCombinedBytesPerRow := maxCombinedBytesPerRow + [value];
    }
  }
}
