/**
 * The deleted-rows mask of one page, taken abstractly: the strictly increasing
 * list of raw positions that survive deletion. `NoMask` is the mask used when
 * no row of the page is deleted; applying it returns the block itself.
 */
module Masks {
  import opened Blocks

  datatype Mask = NoMask(rawCount: nat) | Keep(rawCount: nat, kept: seq<nat>)

  predicate StrictlyIncreasing(s: seq<int>)
  {
    forall i, j :: 0 <= i < j < |s| ==> s[i] < s[j]
  }

  /** The surviving raw positions, in order. */
  function Kept(m: Mask): seq<nat>
  {
    match m
    case NoMask(n) => seq(n, i requires 0 <= i < n => i)
    case Keep(_, kept) => kept
  }

  /** The mask was derived for a page of `n` raw rows. */
  predicate Fits(m: Mask, n: nat)
  {
    && m.rawCount == n
    && StrictlyIncreasing(Kept(m))
    && forall i :: 0 <= i < |Kept(m)| ==> Kept(m)[i] < n
  }

  /** `MaskDeletedRowsFunction.noMaskForPage`: nothing is deleted. */
  function NoMaskForPage(page: Page): (m: Mask)
    ensures Fits(m, page.positionCount)
    ensures PositionCount(m) == page.positionCount
  {
    NoMask(page.positionCount)
  }

  /** The number of surviving rows. */
  function PositionCount(m: Mask): (c: nat)
    ensures c == |Kept(m)|
  {
    match m
    case NoMask(n) => n
    case Keep(_, kept) => |kept|
  }

  /** Masking a block selects the values at the surviving positions. */
  function Apply(m: Mask, b: Block): (r: Block)
    requires Fits(m, Count(b))
    ensures Count(r) == PositionCount(m)
    ensures forall i :: 0 <= i < Count(r) ==> ValueAt(r, i) == ValueAt(b, Kept(m)[i])
    ensures m.NoMask? ==> r == b
  {
    match m
    case NoMask(_) => b
    case Keep(_, kept) => Array(seq(|kept|, i requires 0 <= i < |kept| => ValueAt(b, kept[i])))
  }

  /** A strictly increasing sequence of positions below `n` has at most `n` elements. */
  lemma {:induction false} IncreasingBelowIsShort(s: seq<int>, n: nat)
    requires StrictlyIncreasing(s)
    requires forall i :: 0 <= i < |s| ==> 0 <= s[i] < n
    ensures |s| <= n
  {
    if s != [] {
      var last := s[|s| - 1];
      var init := s[..|s| - 1];
      assert last < n;
      assert StrictlyIncreasing(init);
      assert forall i :: 0 <= i < |init| ==> 0 <= init[i] < last by {
        forall i | 0 <= i < |init| ensures 0 <= init[i] < last {
          assert init[i] == s[i];
        }
      }
      IncreasingBelowIsShort(init, last);
    }
  }

  /** Masking never adds rows: the surviving count is at most the raw count. */
  lemma SurvivingCountBounded(m: Mask, n: nat)
    requires Fits(m, n)
    ensures PositionCount(m) <= n
    ensures m.NoMask? ==> PositionCount(m) == n
  {
    IncreasingBelowIsShort(Kept(m), n);
  }

  /** A mask that keeps every raw position behaves like the identity mask. */
  lemma KeepAllIsIdentity(m: Mask, b: Block)
    requires Fits(m, Count(b))
    requires PositionCount(m) == Count(b)
    ensures Kept(m) == Kept(NoMask(Count(b)))
    ensures forall i :: 0 <= i < Count(b) ==> ValueAt(Apply(m, b), i) == ValueAt(b, i)
  {
    KeptIsIdentity(Kept(m), Count(b));
  }

  /** A strictly increasing sequence of `n` positions below `n` is 0, 1, ..., n-1. */
  lemma {:induction false} KeptIsIdentity(s: seq<nat>, n: nat)
    requires |s| == n
    requires StrictlyIncreasing(s)
    requires forall i :: 0 <= i < |s| ==> s[i] < n
    ensures forall i :: 0 <= i < n ==> s[i] == i
  {
    if n > 0 {
      var init := s[..n - 1];
      assert s[n - 1] == n - 1 by {
        IncreasingBelowIsShort(init, s[n - 1]);
      }
      forall i | 0 <= i < |init| ensures init[i] < n - 1 {
        assert init[i] == s[i];
      }
      KeptIsIdentity(init, n - 1);
      forall i | 0 <= i < n ensures s[i] == i {
        if i < n - 1 { assert s[i] == init[i]; }
      }
    }
  }
}
