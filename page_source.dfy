/**
 * `OrcPageSource`: pulls raw pages from the record reader, derives each page's
 * deleted-rows mask, builds one output block per column adaptation and
 * manages the close lifecycle and the translation of read failures.
 */
module PageSource {
  import opened Wrappers
  import opened Blocks
  import opened Masks
  import opened Longs
  import opened Failures
  import opened Adaptations
  import opened Reader

  /** The deleted-rows provider: the mask of a page, given its starting row id if known. */
  type DeletedRows = (Page, Option<int>) -> Mask

  /** The provider derives, for every page, a mask over that page's raw rows. */
  ghost predicate DeletedRowsFit(deletedRows: Option<DeletedRows>)
  {
    deletedRows.Some? ==>
      forall page: Page, startRowId: Option<int> {:trigger deletedRows.value(page, startRowId)} ::
        WellFormed(page) ==> Fits(deletedRows.value(page, startRowId), page.positionCount)
  }

  /** The row id, among all the original files of the bucket, of the page's first row; absent when unknown. */
  function StartRowId(originalFileRowId: Option<int>, filePosition: int): (r: Option<int>)
    ensures r.Some? <==> originalFileRowId.Some?
    ensures r.Some? && IsLong(originalFileRowId.value + filePosition) ==> r.value == originalFileRowId.value + filePosition
  {
    match originalFileRowId
    case None => None
    case Some(rowId) => Some(AddLong(rowId, filePosition))
  }

  /** The start row id handed to the provider is the synthesised id of the page's first raw row. */
  lemma StartRowIdIsFirstRowId(originalFileRowId: int, filePosition: int)
    ensures StartRowId(Some(originalFileRowId), filePosition) == Some(RowIdAt(filePosition, originalFileRowId, 0))
  {
    AddLongAssociates(filePosition, originalFileRowId, 0);
  }

  /** The mask for a page: from the provider when there is one, else the identity mask. */
  function MaskFor(deletedRows: Option<DeletedRows>, page: Page, startRowId: Option<int>): (m: Mask)
    requires WellFormed(page) && DeletedRowsFit(deletedRows)
    ensures Fits(m, page.positionCount)
    ensures deletedRows.None? ==> m == NoMask(page.positionCount) && PositionCount(m) == page.positionCount
    ensures deletedRows.Some? ==> m == deletedRows.value(page, startRowId)
  {
    match deletedRows
    case None => NoMaskForPage(page)
    case Some(provider) => provider(page, startRowId)
  }

  /** A page handed to the consumer: its row count and its blocks, one per column adaptation. */
  datatype OutPage = OutPage(positionCount: nat, blocks: seq<OutBlock>)

  /** The outcome of `getNextPage`: a page, null at the end of the data, or an exception. */
  datatype PageResult = NextPage(page: OutPage) | EndOfData | Thrown(exception: Throwable)

  /** The objects behind the lazy blocks of a page. */
  function Loaders(blocks: seq<OutBlock>): set<MaskingBlockLoader>
  {
    set i | 0 <= i < |blocks| && blocks[i].Lazy? :: blocks[i].loader
  }

  /** Every adaptation reads only channels the page has. */
  predicate AdaptationsReadWithin(adaptations: seq<ColumnAdaptation>, page: Page)
  {
    forall i :: 0 <= i < |adaptations| ==> ReadsWithin(adaptations[i], page)
  }

  /**
   * The page built from raw page `page` at file position `filePosition`: its
   * count is the mask's surviving count and block `i` is what adaptation `i`
   * produces.
   */
  ghost predicate Adapted(adaptations: seq<ColumnAdaptation>, m: Mask, page: Page, filePosition: int, out: OutPage)
    requires WellFormed(page) && AdaptationsReadWithin(adaptations, page) && Fits(m, page.positionCount)
    reads Loaders(out.blocks)
  {
    && out.positionCount == PositionCount(m)
    && |out.blocks| == |adaptations|
    && forall i :: 0 <= i < |adaptations| ==> Produced(adaptations[i], page, m, filePosition, out.blocks[i])
  }

  /** No two lazy blocks share a loader, so loading one column never fires another's. */
  predicate DistinctLoaders(blocks: seq<OutBlock>)
  {
    forall j, k :: 0 <= j < k < |blocks| && blocks[j].Lazy? && blocks[k].Lazy? ==> blocks[j].loader != blocks[k].loader
  }

  /** The block loop of `getNextPage`: block `i` of the output page is adaptation `i`'s block. */
  method AdaptPage(adaptations: seq<ColumnAdaptation>, page: Page, mask: Mask, filePosition: int) returns (out: OutPage)
    requires WellFormed(page) && AdaptationsReadWithin(adaptations, page) && Fits(mask, page.positionCount)
    ensures Adapted(adaptations, mask, page, filePosition, out)
    ensures forall b :: b in Loaders(out.blocks) ==> fresh(b)
    ensures DistinctLoaders(out.blocks)
  {
    var blocks := new OutBlock[|adaptations|](_ => Eager(Rle(Null, 0)));
    for i := 0 to |adaptations|
      modifies blocks
      invariant forall k :: 0 <= k < i ==> Produced(adaptations[k], page, mask, filePosition, blocks[k])
      invariant forall k :: 0 <= k < i && blocks[k].Lazy? ==> fresh(blocks[k].loader)
      invariant forall j, k :: 0 <= j < k < i && blocks[j].Lazy? && blocks[k].Lazy? ==> blocks[j].loader != blocks[k].loader
    {
      blocks[i] := AdaptBlock(adaptations[i], page, mask, filePosition);
    }
    out := OutPage(PositionCount(mask), blocks[..]);
  }

  /**
   * Every block of an adapted page has the page's row count, which never
   * exceeds the raw count; with the identity mask it is the raw count itself.
   */
  lemma {:induction false} AdaptedPageIsConsistent(adaptations: seq<ColumnAdaptation>, m: Mask, page: Page, filePosition: int, out: OutPage)
    requires WellFormed(page) && AdaptationsReadWithin(adaptations, page) && Fits(m, page.positionCount)
    requires Adapted(adaptations, m, page, filePosition, out)
    ensures forall i :: 0 <= i < |out.blocks| ==> OutCount(out.blocks[i]) == out.positionCount
    ensures out.positionCount <= page.positionCount
    ensures m.NoMask? ==> out.positionCount == page.positionCount
  {
    SurvivingCountBounded(m, page.positionCount);
    forall i | 0 <= i < |out.blocks|
      ensures OutCount(out.blocks[i]) == out.positionCount
    {
      ProducedHasSurvivingCount(adaptations[i], page, m, filePosition, out.blocks[i]);
    }
  }

  /** What a first `close` throws, given what the reader's `close` throws: an IOException is wrapped as unchecked. */
  predicate CloseErrorOf(readerFailure: Option<Throwable>, thrown: Option<Throwable>)
  {
    match readerFailure
    case None => thrown.None?
    case Some(f) =>
      if IsIOException(f.kind) then thrown.Some? && thrown.value.kind == UncheckedIO && thrown.value.cause == readerFailure
      else thrown == readerFailure
  }

  /** `closeWithSuppression` attaches a runtime close failure to the original, unless it is the same object. */
  function SuppressedBy(original: Throwable, closeError: Option<Throwable>): seq<Throwable>
  {
    if closeError.Some? && IsRuntimeException(closeError.value.kind) && closeError.value != original
    then [closeError.value] else []
  }

  class OrcPageSource {
    const recordReader: RecordReader
    const columnAdaptations: seq<ColumnAdaptation>
    const dataSourceId: string
    const deletedRows: Option<DeletedRows>
    /** Row id of the first row of this file among the original files of its bucket, if known. */
    const originalFileRowId: Option<int>
    const stats: FileFormatDataSourceStats
    var closed: bool
    /** The reader's close count when this page source took it over. */
    ghost const readerClosesBefore: nat

    /**
     * The reader's script is well formed and fits the adaptations, and the
     * reader has been closed once by this page source if it is closed, never twice.
     */
    ghost predicate Valid()
      reads this, recordReader
    {
      && recordReader.Valid()
      && DeletedRowsFit(deletedRows)
      && (forall k :: 0 <= k < |recordReader.steps| && recordReader.steps[k].Batch? ==>
            AdaptationsReadWithin(columnAdaptations, recordReader.steps[k].page))
      && recordReader.closeCalls == readerClosesBefore + (if closed then 1 else 0)
    }

    constructor (recordReader: RecordReader, columnAdaptations: seq<ColumnAdaptation>, dataSourceId: string,
                 deletedRows: Option<DeletedRows>, originalFileRowId: Option<int>, stats: FileFormatDataSourceStats)
      requires recordReader.Valid() && DeletedRowsFit(deletedRows)
      requires forall k :: 0 <= k < |recordReader.steps| && recordReader.steps[k].Batch? ==>
                 AdaptationsReadWithin(columnAdaptations, recordReader.steps[k].page)
      ensures Valid() && !closed
      ensures this.recordReader == recordReader && this.columnAdaptations == columnAdaptations
      ensures this.dataSourceId == dataSourceId && this.deletedRows == deletedRows
      ensures this.originalFileRowId == originalFileRowId && this.stats == stats
    {
      this.recordReader := recordReader;
      this.columnAdaptations := columnAdaptations;
      this.dataSourceId := dataSourceId;
      this.deletedRows := deletedRows;
      this.originalFileRowId := originalFileRowId;
      this.stats := stats;
      closed := false;
      readerClosesBefore := recordReader.closeCalls;
    }

    /** `isFinished`: the source is finished exactly when it has been closed. */
    function IsFinished(): (r: bool)
      reads this
      ensures r <==> closed
    {
      closed
    }

    /**
     * The state after a close attempt, from the state before it: a page source
     * that was closed stays as it was; otherwise it is closed, has recorded its
     * statistic and closed the reader once, and `closeError` is what close threw.
     */
    ghost predicate ClosedFrom(wasClosed: bool, readerClosesBefore: nat, statsBefore: seq<int>, closeError: Option<Throwable>)
      reads this, recordReader, stats
    {
      && closed
      && (wasClosed ==>
            && closeError.None?
            && recordReader.closeCalls == readerClosesBefore
            && stats.maxCombinedBytesPerRow == statsBefore)
      && (!wasClosed ==>
            && recordReader.closeCalls == readerClosesBefore + 1
            && stats.maxCombinedBytesPerRow == statsBefore + [recordReader.maxCombinedBytesPerRow]
            && CloseErrorOf(recordReader.closeFailure, closeError))
    }

    /** `close`: idempotent; `closed` is set before the reader is touched. */
    method Close() returns (thrown: Option<Throwable>)
      requires Valid()
      modifies this`closed, recordReader`closeCalls, stats
      ensures Valid() && IsFinished()
      ensures ClosedFrom(old(closed), old(recordReader.closeCalls), old(stats.maxCombinedBytesPerRow), thrown)
      ensures thrown.Some? && thrown != recordReader.closeFailure ==> fresh(thrown.value)
    {
      if closed {
        return None;
      }
      closed := true;
      stats.AddMaxCombinedBytesPerRow(recordReader.maxCombinedBytesPerRow);
      var failure := recordReader.Close();
      if failure.Some? && IsIOException(failure.value.kind) {
        var unchecked := new Throwable(UncheckedIO, None, failure);
        return Some(unchecked);
      }
      thrown := failure;
    }

    /**
     * `closeWithSuppression`: close, and attach a runtime failure of close to
     * `throwable` as suppressed unless it is that very object. Only a
     * `java.lang.Error` from close escapes.
     */
    method CloseWithSuppression(throwable: Throwable) returns (escaped: Option<Throwable>, ghost closeError: Option<Throwable>)
      requires Valid()
      modifies this`closed, recordReader`closeCalls, stats, throwable
      ensures Valid() && IsFinished()
      ensures ClosedFrom(old(closed), old(recordReader.closeCalls), old(stats.maxCombinedBytesPerRow), closeError)
      ensures closeError.Some? && closeError != recordReader.closeFailure ==> fresh(closeError.value)
      ensures throwable.suppressed == old(throwable.suppressed) + SuppressedBy(throwable, closeError)
      ensures escaped == if closeError.Some? && !IsRuntimeException(closeError.value.kind) then closeError else None
    {
      var thrown := Close();
      closeError := thrown;
      escaped := None;
      if thrown.Some? {
        var e := thrown.value;
        if IsRuntimeException(e.kind) {
          if throwable != e {
            throwable.AddSuppressed(e);
          }
        } else {
          escaped := thrown;
        }
      }
    }

    /** The throwable the next `nextPage` call of the reader raises, as a frame. */
    function PendingFault(): set<object>
      reads this, recordReader
    {
      if recordReader.steps != [] && recordReader.steps[0].Fault? then {recordReader.steps[0].exception} else {}
    }

    /** The mask of a raw page read at `filePosition`. */
    ghost function MaskAt(page: Page, filePosition: int): (m: Mask)
      requires WellFormed(page) && DeletedRowsFit(deletedRows)
      ensures Fits(m, page.positionCount)
    {
      MaskFor(deletedRows, page, StartRowId(originalFileRowId, filePosition))
    }

    /**
     * `getNextPage`. On a batch: the page built by the adaptations under the
     * batch's mask, the source staying open. On the end of the data: close, and
     * null unless close threw. On a read failure: close with suppression, then
     * the classified failure (a `java.lang.Error` is neither caught nor closed on).
     */
    method GetNextPage() returns (r: PageResult, ghost closeError: Option<Throwable>)
      requires Valid()
      modifies this`closed, recordReader, stats, PendingFault()
      ensures Valid()
      ensures recordReader.steps == if old(recordReader.steps) == [] then [] else old(recordReader.steps)[1..]
      ensures closeError.Some? && closeError != recordReader.closeFailure ==> fresh(closeError.value)
      ensures old(recordReader.steps) == [] || old(recordReader.steps)[0].Fault? ==>
                recordReader.filePosition == old(recordReader.filePosition)
                && recordReader.nextRowPosition == old(recordReader.nextRowPosition)
      ensures old(recordReader.steps) == [] ==>
                && IsFinished()
                && ClosedFrom(old(closed), old(recordReader.closeCalls), old(stats.maxCombinedBytesPerRow), closeError)
                && r == (if closeError.Some? then Thrown(closeError.value) else EndOfData)
      ensures old(recordReader.steps) != [] && old(recordReader.steps)[0].Fault? ==>
                var e := old(recordReader.steps)[0].exception;
                if !IsException(e.kind) then
                  && r == Thrown(e) && closeError.None? && closed == old(closed)
                  && recordReader.closeCalls == old(recordReader.closeCalls)
                  && stats.maxCombinedBytesPerRow == old(stats.maxCombinedBytesPerRow)
                  && e.suppressed == old(e.suppressed)
                else
                  && ClosedFrom(old(closed), old(recordReader.closeCalls), old(stats.maxCombinedBytesPerRow), closeError)
                  && e.suppressed == old(e.suppressed) + SuppressedBy(e, closeError)
                  && if closeError.Some? && !IsRuntimeException(closeError.value.kind) then r == Thrown(closeError.value)
                     else
                       && r.Thrown? && r.exception.kind.TrinoException?
                       && match Classify(dataSourceId, e.kind)
                          case PassThrough => r.exception == e
                          case Wrap(code, message) =>
                            && fresh(r.exception)
                            && r.exception.kind == TrinoException(code) && r.exception.message == message
                            && r.exception.cause == Some(e)
      ensures old(recordReader.steps) != [] && old(recordReader.steps)[0].Batch? ==>
                var page := old(recordReader.steps)[0].page;
                && WellFormed(page) && AdaptationsReadWithin(columnAdaptations, page)
                && closed == old(closed) && closeError.None?
                && recordReader.closeCalls == old(recordReader.closeCalls)
                && stats.maxCombinedBytesPerRow == old(stats.maxCombinedBytesPerRow)
                && recordReader.filePosition == old(recordReader.nextRowPosition)
                && recordReader.nextRowPosition == old(recordReader.nextRowPosition) + page.positionCount
                && r.NextPage?
                && Adapted(columnAdaptations, MaskAt(page, recordReader.filePosition), page, recordReader.filePosition, r.page)
                && (forall b :: b in Loaders(r.page.blocks) ==> fresh(b))
                && DistinctLoaders(r.page.blocks)
    {
      closeError := None;
      ghost var steps := recordReader.steps;
      var outcome := recordReader.NextPage();
      match outcome
      case Threw(e) =>
        if !IsException(e.kind) {
          return Thrown(e), None;
        }
        var escaped;
        escaped, closeError := CloseWithSuppression(e);
        if escaped.Some? {
          return Thrown(escaped.value), closeError;
        }
        var classified := HandleException(dataSourceId, e);
        r := Thrown(classified);
      case NoMorePages =>
        var thrown := Close();
        closeError := thrown;
        r := if thrown.Some? then Thrown(thrown.value) else EndOfData;
      case Returned(page) =>
        assert steps[0].Batch? && steps[0].page == page;
        var filePosition := recordReader.filePosition;
        var startRowId := StartRowId(originalFileRowId, filePosition);
        var mask := MaskFor(deletedRows, page, startRowId);
        var out := AdaptPage(columnAdaptations, page, mask, filePosition);
        r := NextPage(out);
    }
  }
}
