/**
 The block-unit converter of fsusg.c: `adjust_blocks` rescales a count of
 `fromsize`-byte blocks into a count of `tosize`-byte blocks.

 The C code divides with the language's `/`, which truncates toward zero;
 Dafny's `/` is Euclidean, so the truncating quotient is written out as `CDiv`.
 Block counts are unbounded integers here: the C `long` product in the coarser
 case can overflow, and the model does not reproduce that.
 */
module Blocks {

  /** C's signed division by a positive divisor: the quotient is truncated
      toward zero, so the remainder takes the sign of the dividend. */
  function CDiv(a: int, b: int): (q: int)
    requires 0 < b
    ensures 0 <= a ==> 0 <= a - q * b < b
    ensures a < 0 ==> -b < a - q * b <= 0
  {
    if 0 <= a then a / b else -((-a) / b)
  }

  /** The number of `tosize`-byte blocks reported for `blocks` blocks of
      `fromsize` bytes. Both sizes must be positive: the C code divides by
      each of them on one of its branches. */
  function AdjustBlocks(blocks: int, fromsize: int, tosize: int): (r: int)
    requires 0 < fromsize && 0 < tosize
    ensures fromsize == tosize ==> r == blocks
    ensures 0 <= blocks ==> 0 <= r
  {
    if fromsize == tosize then blocks
    else if fromsize > tosize then blocks * (fromsize / tosize)
    else CDiv(blocks + 1, tosize / fromsize)
  }

  /** When the source blocks are a whole multiple of the target size, the
      conversion is exact: the result describes the same number of bytes. */
  lemma AdjustKeepsBytes(blocks: int, fromsize: int, tosize: int)
    requires 0 < tosize <= fromsize && fromsize % tosize == 0
    ensures AdjustBlocks(blocks, fromsize, tosize) * tosize == blocks * fromsize
  {
    if fromsize != tosize {
      assert fromsize == (fromsize / tosize) * tosize;
    }
  }

  /** With finer source blocks and a count that is not negative, the result is
      the largest number of whole target blocks that fits in one source block
      more than was reported. */
  lemma AdjustFinerBounds(blocks: int, fromsize: int, tosize: int)
    requires 0 < fromsize < tosize && -1 <= blocks
    ensures var r := AdjustBlocks(blocks, fromsize, tosize);
            var k := tosize / fromsize;
            r * k <= blocks + 1 < (r + 1) * k
  {
    var k := tosize / fromsize;
    assert 1 <= k by { DivAtLeastOne(tosize, fromsize); }
    var r := AdjustBlocks(blocks, fromsize, tosize);
    assert r == CDiv(blocks + 1, k);
    assert (r + 1) * k == r * k + k;
  }

  /** For the ratio the code was written for (256 to 512 bytes, any size to
      twice that size) the result is the count rounded up: r = ceil(blocks / 2). */
  lemma AdjustHalvingRoundsUp(blocks: int, fromsize: int)
    requires 0 < fromsize && 0 <= blocks
    ensures var r := AdjustBlocks(blocks, fromsize, 2 * fromsize);
            2 * r - 1 <= blocks <= 2 * r
  {
    assert (2 * fromsize) / fromsize == 2 by { DivMultiple(2, fromsize); }
    AdjustFinerBounds(blocks, fromsize, 2 * fromsize);
  }

  /** The promise to round up does not hold once the target is three or more
      times the source size: a single source block disappears entirely
      (one 128-byte block becomes zero 512-byte blocks). */
  lemma AdjustFinerCanDropBlock(fromsize: int, tosize: int)
    requires 0 < fromsize && 3 * fromsize <= tosize
    ensures AdjustBlocks(1, fromsize, tosize) == 0
  {
    var k := tosize / fromsize;
    assert 3 <= k by { DivMono(3 * fromsize, tosize, fromsize); DivMultiple(3, fromsize); }
    assert 2 / k == 0;
  }

  /** Converting never reverses the order of two counts: a smaller free count
      stays no larger than a bigger total once both are rescaled. */
  lemma AdjustMonotone(b1: int, b2: int, fromsize: int, tosize: int)
    requires 0 < fromsize && 0 < tosize && b1 <= b2
    ensures AdjustBlocks(b1, fromsize, tosize) <= AdjustBlocks(b2, fromsize, tosize)
  {
    if fromsize > tosize {
      var k := fromsize / tosize;
      assert (b2 - b1) * k >= 0;
      assert b2 * k - b1 * k == (b2 - b1) * k;
    } else if fromsize < tosize {
      var k := tosize / fromsize;
      assert 1 <= k by { DivAtLeastOne(tosize, fromsize); }
      CDivMonotone(b1 + 1, b2 + 1, k);
    }
  }

  /** Truncating division by a positive divisor is monotone in the dividend. */
  lemma CDivMonotone(a1: int, a2: int, b: int)
    requires 0 < b && a1 <= a2
    ensures CDiv(a1, b) <= CDiv(a2, b)
  {
    if 0 <= a1 {
      DivMono(a1, a2, b);
      assert CDiv(a1, b) == a1 / b && CDiv(a2, b) == a2 / b;
    } else if a2 < 0 {
      DivMono(-a2, -a1, b);
      assert CDiv(a1, b) == -((-a1) / b) && CDiv(a2, b) == -((-a2) / b);
    } else {
      DivNonNegative(-a1, b);
      DivNonNegative(a2, b);
      assert CDiv(a1, b) == -((-a1) / b) && CDiv(a2, b) == a2 / b;
    }
  }

  lemma DivNonNegative(a: int, b: int)
    requires 0 <= a && 0 < b
    ensures 0 <= a / b
  {
  }

  /** Euclidean division of non-negative numbers is monotone in the dividend. */
  lemma DivMono(a1: int, a2: int, b: int)
    requires 0 <= a1 <= a2 && 0 < b
    ensures a1 / b <= a2 / b
  {
    var q1, q2 := a1 / b, a2 / b;
    assert q1 * b <= a1 && a2 < q2 * b + b;
    if q1 > q2 {
      MulAtLeast(q1 - q2, b);
    }
  }

  lemma MulAtLeast(d: int, b: int)
    requires 1 <= d && 0 < b
    ensures b <= d * b
  {
  }

  /** A few conversions a reader can check by hand, including Ultrix's fixed
      1024-to-512 case, which doubles the count. */
  lemma AdjustExamples()
    ensures AdjustBlocks(100, 2048, 512) == 400
    ensures AdjustBlocks(100, 1024, 512) == 200
    ensures AdjustBlocks(100, 256, 512) == 50
    ensures AdjustBlocks(101, 256, 512) == 51
    ensures AdjustBlocks(1, 128, 512) == 0
  {
  }

  lemma DivAtLeastOne(a: int, b: int)
    requires 0 < b <= a
    ensures 1 <= a / b
  {
  }

  lemma DivMultiple(k: int, b: int)
    requires 0 < b
    ensures (k * b) / b == k
  {
    var q, r := (k * b) / b, (k * b) % b;
    assert k * b == q * b + r && 0 <= r < b;
    assert (k - q) * b == r;
    if k != q {
      if k > q { MulAtLeast(k - q, b); } else { MulAtLeast(q - k, b); }
    }
  }
}
