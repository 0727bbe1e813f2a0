/**
 * Column adaptations: how each output column of a page is built from the raw
 * page, its deleted-rows mask and the reader's file position.
 */
module Adaptations {
  import opened Wrappers
  import opened Blocks
  import opened Masks
  import opened Longs

  /** Channels of the ACID columns in a raw page of a transactional file. */
  const ORIGINAL_TRANSACTION_CHANNEL: nat := 0
  const BUCKET_CHANNEL: nat := 1
  const ROW_ID_CHANNEL: nat := 2

  /** The transaction id given to every row of an original (non-ACID) file. */
  const ORIGINAL_FILE_TRANSACTION_ID: int := 0

  /**
   * The adaptation variants. `OriginalFileRowIdColumn` holds the bucket value
   * already encoded from the bucket id (`computeBucketValue(bucketId, 0)`).
   */
  datatype ColumnAdaptation =
    | NullColumn(typeName: string)
    | SourceColumn(index: nat)
    | RowIdColumn
    | OriginalFileRowIdColumn(startingRowId: int, bucketValue: int)

  /** The raw page has every channel the adaptation reads. */
  predicate ReadsWithin(a: ColumnAdaptation, page: Page)
  {
    match a
    case SourceColumn(index) => index < |page.blocks|
    case RowIdColumn =>
      && ORIGINAL_TRANSACTION_CHANNEL < |page.blocks|
      && ROW_ID_CHANNEL < |page.blocks|
      && BUCKET_CHANNEL < |page.blocks|
    case _ => true
  }

  // ---------------------------------------------------------------- null column

  /** A run-length block of null, as long as the surviving rows. */
  function NullColumnBlock(m: Mask): (r: Block)
    ensures Count(r) == PositionCount(m)
    ensures forall i :: 0 <= i < Count(r) ==> ValueAt(r, i) == Null
  {
    Rle(Null, PositionCount(m))
  }

  // ------------------------------------------------------------- ACID row ids

  /** The ACID row id of each surviving row: its transaction, row id and bucket, zipped. */
  function AcidRowIdBlock(page: Page, m: Mask): (r: Block)
    requires WellFormed(page) && ReadsWithin(RowIdColumn, page)
    requires Fits(m, page.positionCount)
    ensures Count(r) == PositionCount(m)
    ensures forall i :: 0 <= i < Count(r) ==>
              ValueAt(r, i) == Row([ValueAt(page.blocks[ORIGINAL_TRANSACTION_CHANNEL], Kept(m)[i]),
                                    ValueAt(page.blocks[ROW_ID_CHANNEL], Kept(m)[i]),
                                    ValueAt(page.blocks[BUCKET_CHANNEL], Kept(m)[i])])
  {
    var fields := [page.blocks[ORIGINAL_TRANSACTION_CHANNEL], page.blocks[ROW_ID_CHANNEL], page.blocks[BUCKET_CHANNEL]];
    var rows := FromFieldBlocks(page.positionCount, fields);
    var r := Apply(m, rows);
    assert forall i :: 0 <= i < Count(r) ==> ValueAt(r, i) == RowAt(fields, Kept(m)[i]);
    r
  }

  // --------------------------------------------------- original-file row ids

  /** The id of raw row `index`, computed as Java does: `filePosition + startingRowId + index` on longs. */
  function RowIdAt(filePosition: int, startingRowId: int, index: nat): int
  {
    AddLong(AddLong(filePosition, startingRowId), index)
  }

  lemma RowIdsWrapOnce(filePosition: int, startingRowId: int, n: nat)
    ensures forall i :: 0 <= i < n ==> RowIdAt(filePosition, startingRowId, i) == ToLong(filePosition + startingRowId + i)
  {
    forall i | 0 <= i < n
      ensures RowIdAt(filePosition, startingRowId, i) == ToLong(filePosition + startingRowId + i)
    {
      AddLongAssociates(filePosition, startingRowId, i);
    }
  }

  /** The synthesised row ids of the `n` raw rows, one per physical position. */
  function RowIdBlock(filePosition: int, startingRowId: int, n: nat): (r: Block)
    ensures Count(r) == n
    ensures forall i :: 0 <= i < n ==> ValueAt(r, i) == Long(ToLong(filePosition + startingRowId + i))
  {
    RowIdsWrapOnce(filePosition, startingRowId, n);
    Array(LongValues(seq(n, i requires 0 <= i < n => RowIdAt(filePosition, startingRowId, i))))
  }

  /** `createRowIdBlock`: fill a long array with the id of each raw position. */
  method CreateRowIdBlock(filePosition: int, startingRowId: int, positionCount: nat) returns (b: Block)
    ensures b == RowIdBlock(filePosition, startingRowId, positionCount)
  {
    var translatedRowIds := new int[positionCount];
    for index := 0 to positionCount
      invariant forall k :: 0 <= k < index ==> translatedRowIds[k] == RowIdAt(filePosition, startingRowId, k)
    {
      translatedRowIds[index] := AddLong(AddLong(filePosition, startingRowId), index);
    }
    assert translatedRowIds[..] == seq(positionCount, i requires 0 <= i < positionCount => RowIdAt(filePosition, startingRowId, i));
    b := Array(LongValues(translatedRowIds[..]));
  }

  /**
   * The original-file row id of each surviving row: transaction 0, the id
   * synthesised from the row's RAW position, and the constant bucket value.
   * The ids are made for all raw rows first and the mask is applied after.
   */
  function OriginalFileRowIdBlock(startingRowId: int, bucketValue: int, page: Page, m: Mask, filePosition: int): (r: Block)
    requires Fits(m, page.positionCount)
    ensures Count(r) == PositionCount(m)
    ensures forall i :: 0 <= i < Count(r) ==>
              ValueAt(r, i) == Row([Long(ORIGINAL_FILE_TRANSACTION_ID),
                                    Long(ToLong(filePosition + startingRowId + Kept(m)[i])),
                                    Long(bucketValue)])
  {
    var positionCount := page.positionCount;
    var fields := [Rle(Long(ORIGINAL_FILE_TRANSACTION_ID), positionCount),
                   RowIdBlock(filePosition, startingRowId, positionCount),
                   Rle(Long(bucketValue), positionCount)];
    var rows := FromFieldBlocks(positionCount, fields);
    var r := Apply(m, rows);
    assert forall i :: 0 <= i < Count(r) ==> ValueAt(r, i) == RowAt(fields, Kept(m)[i]);
    r
  }

  /**
   * When no id of the page overflows a long, the surviving ids are exactly
   * `filePosition + startingRowId + p` for the kept raw positions `p`, and
   * they are strictly increasing.
   */
  lemma OriginalFileRowIdsIncrease(startingRowId: int, bucketValue: int, page: Page, m: Mask, filePosition: int)
    requires Fits(m, page.positionCount)
    requires LONG_MIN <= filePosition + startingRowId
    requires filePosition + startingRowId + page.positionCount <= LONG_MAX + 1
    ensures var r := OriginalFileRowIdBlock(startingRowId, bucketValue, page, m, filePosition);
            && (forall i :: 0 <= i < Count(r) ==> ValueAt(r, i).fields[1] == Long(filePosition + startingRowId + Kept(m)[i]))
            && (forall i, j :: 0 <= i < j < Count(r) ==> ValueAt(r, i).fields[1].n < ValueAt(r, j).fields[1].n)
  {
    var r := OriginalFileRowIdBlock(startingRowId, bucketValue, page, m, filePosition);
    forall i | 0 <= i < Count(r)
      ensures ValueAt(r, i).fields[1] == Long(filePosition + startingRowId + Kept(m)[i])
    {
      assert Kept(m)[i] < page.positionCount;
    }
  }

  /** Three raw rows at file position 50 of a file whose rows start at id 1000; the middle one deleted. */
  lemma OriginalFileRowIdsExample()
    ensures RowIdBlock(50, 1000, 3) == Array([Long(1050), Long(1051), Long(1052)])
    ensures var r := OriginalFileRowIdBlock(1000, 7, Page(3, []), Keep(3, [0, 2]), 50);
            Count(r) == 2 && ValueAt(r, 0).fields[1] == Long(1050) && ValueAt(r, 1).fields[1] == Long(1052)
  {
    var b := RowIdBlock(50, 1000, 3);
    assert ValueAt(b, 0) == Long(1050) && ValueAt(b, 1) == Long(1051) && ValueAt(b, 2) == Long(1052);
    assert Fits(Keep(3, [0, 2]), 3);
  }

  // -------------------------------------------------------- source column

  /**
   * The loader behind a source column's lazy block. It fires at most once:
   * loading applies the mask to the source block and drops both references.
   */
  class MaskingBlockLoader {
    var maskDeletedRows: Option<Mask>
    var sourceBlock: Option<Block>

    ghost predicate Valid()
      reads this
    {
      && (maskDeletedRows.Some? <==> sourceBlock.Some?)
      && (maskDeletedRows.Some? ==> Fits(maskDeletedRows.value, Count(sourceBlock.value)))
    }

    /** Holds the mask and the block of one page until the block is first read. */
    predicate Pending(m: Mask, source: Block)
      reads this
    {
      maskDeletedRows == Some(m) && sourceBlock == Some(source)
    }

    constructor (m: Mask, source: Block)
      requires Fits(m, Count(source))
      ensures Valid() && Pending(m, source)
    {
      maskDeletedRows := Some(m);
      sourceBlock := Some(source);
    }

    method Load() returns (r: LoadResult)
      requires Valid()
      modifies this
      ensures Valid()
      ensures old(maskDeletedRows).None? ==> r == Failed("Already loaded") && unchanged(this)
      ensures old(maskDeletedRows).Some? ==>
                && r == Loaded(Apply(old(maskDeletedRows).value, old(sourceBlock).value))
                && maskDeletedRows.None? && sourceBlock.None?
    {
      if maskDeletedRows.None? {
        return Failed("Already loaded");
      }
      var resultBlock := Apply(maskDeletedRows.value, sourceBlock.value);
      maskDeletedRows := None;
      sourceBlock := None;
      r := Loaded(resultBlock);
    }
  }

  datatype LoadResult = Loaded(block: Block) | Failed(message: string)

  /** An output block: built at once, or a lazy block of a declared count behind a loader. */
  datatype OutBlock =
    | Eager(block: Block)
    | Lazy(positionCount: nat, loader: MaskingBlockLoader)

  function OutCount(b: OutBlock): nat
  {
    match b
    case Eager(block) => Count(block)
    case Lazy(n, _) => n
  }

  /** What each adaptation produces for a page, its mask and the file position. */
  ghost predicate Produced(a: ColumnAdaptation, page: Page, m: Mask, filePosition: int, out: OutBlock)
    requires WellFormed(page) && ReadsWithin(a, page) && Fits(m, page.positionCount)
    reads if out.Lazy? then {out.loader} else {}
  {
    match a
    case NullColumn(_) => out == Eager(NullColumnBlock(m))
    case SourceColumn(index) =>
      && out.Lazy?
      && out.positionCount == PositionCount(m)
      && out.loader.Valid()
      && out.loader.Pending(m, page.blocks[index])
    case RowIdColumn => out == Eager(AcidRowIdBlock(page, m))
    case OriginalFileRowIdColumn(startingRowId, bucketValue) =>
      out == Eager(OriginalFileRowIdBlock(startingRowId, bucketValue, page, m, filePosition))
  }

  /**
   * Every produced block has the mask's surviving count, and a source column's
   * loader, when it fires, yields a block of exactly its declared count holding
   * the source values at the surviving positions.
   */
  lemma ProducedHasSurvivingCount(a: ColumnAdaptation, page: Page, m: Mask, filePosition: int, out: OutBlock)
    requires WellFormed(page) && ReadsWithin(a, page) && Fits(m, page.positionCount)
    requires Produced(a, page, m, filePosition, out)
    ensures OutCount(out) == PositionCount(m) <= page.positionCount
    ensures a.SourceColumn? ==>
              var loaded := Apply(m, page.blocks[a.index]);
              && Count(loaded) == out.positionCount
              && forall i :: 0 <= i < Count(loaded) ==> ValueAt(loaded, i) == ValueAt(page.blocks[a.index], Kept(m)[i])
  {
    SurvivingCountBounded(m, page.positionCount);
  }

  /** `SourceColumn.block`: a lazy block of the surviving count whose loader masks the source block. */
  method SourceColumnBlock(index: nat, page: Page, m: Mask) returns (out: OutBlock)
    requires WellFormed(page) && index < |page.blocks| && Fits(m, page.positionCount)
    ensures out.Lazy? && fresh(out.loader)
    ensures Produced(SourceColumn(index), page, m, 0, out)
  {
    var block := page.blocks[index];
    var loader := new MaskingBlockLoader(m, block);
    out := Lazy(PositionCount(m), loader);
  }

  /** `ColumnAdaptation.block`, dispatched over the variants. */
  method AdaptBlock(a: ColumnAdaptation, page: Page, m: Mask, filePosition: int) returns (out: OutBlock)
    requires WellFormed(page) && ReadsWithin(a, page) && Fits(m, page.positionCount)
    ensures out.Lazy? ==> fresh(out.loader)
    ensures Produced(a, page, m, filePosition, out)
  {
    match a
    case NullColumn(_) =>
      out := Eager(NullColumnBlock(m));
    case SourceColumn(index) =>
      out := SourceColumnBlock(index, page, m);
    case RowIdColumn =>
      out := Eager(AcidRowIdBlock(page, m));
    case OriginalFileRowIdColumn(startingRowId, bucketValue) =>
      var positionCount := page.positionCount;
      var rowIds := CreateRowIdBlock(filePosition, startingRowId, positionCount);
      var rows := FromFieldBlocks(positionCount, [Rle(Long(ORIGINAL_FILE_TRANSACTION_ID), positionCount),
                                                  rowIds,
                                                  Rle(Long(bucketValue), positionCount)]);
      out := Eager(Apply(m, rows));
  }
}
