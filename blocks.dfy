/**
 * Column values, blocks and pages, at the level of their sequence semantics.
 * A block is either a run-length block (one value repeated `count` times) or
 * an array of values; a page is a row count and an ordered list of blocks.
 */
module Blocks {

  /** A cell of a column: SQL null, a long or integer, or a row of fields. */
  datatype Value = Null | Long(n: int) | Row(fields: seq<Value>)

  datatype Block =
    | Rle(value: Value, count: nat)
    | Array(values: seq<Value>)

  /** The number of positions of a block. */
  function Count(b: Block): nat
  {
    match b
    case Rle(_, n) => n
    case Array(vs) => |vs|
  }

  /** The value at position `p` of a block. */
  function ValueAt(b: Block, p: nat): Value
    requires p < Count(b)
  {
    match b
    case Rle(v, _) => v
    case Array(vs) => vs[p]
  }

  /** Every field block has `n` positions. */
  predicate FieldsHaveCount(fields: seq<Block>, n: nat)
  {
    forall k :: 0 <= k < |fields| ==> Count(fields[k]) == n
  }

  /** The row at position `p` of a row block whose fields are `fields`. */
  function RowAt(fields: seq<Block>, p: nat): Value
    requires forall k :: 0 <= k < |fields| ==> p < Count(fields[k])
  {
    Row(seq(|fields|, k requires 0 <= k < |fields| => ValueAt(fields[k], p)))
  }

  /** A row block of `n` rows that zips the field blocks position by position. */
  function FromFieldBlocks(n: nat, fields: seq<Block>): (r: Block)
    requires FieldsHaveCount(fields, n)
    ensures Count(r) == n
    ensures forall p :: 0 <= p < n ==> ValueAt(r, p) == RowAt(fields, p)
  {
    Array(seq(n, p requires 0 <= p < n => RowAt(fields, p)))
  }

  /** Long values for a sequence of Java longs. */
  function LongValues(xs: seq<int>): (r: seq<Value>)
    ensures |r| == |xs|
    ensures forall i :: 0 <= i < |xs| ==> r[i] == Long(xs[i])
  {
    seq(|xs|, i requires 0 <= i < |xs| => Long(xs[i]))
  }

  /** A batch of rows: every block shares the page's position count. */
  datatype Page = Page(positionCount: nat, blocks: seq<Block>)

  predicate WellFormed(page: Page)
  {
    FieldsHaveCount(page.blocks, page.positionCount)
  }
}
