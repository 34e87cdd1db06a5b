/**
 * The 128 x 32 frame the application composes before handing it to the
 * display (class DmdFrame). Its storage is the raw frame buffer layout shared
 * with the display driver: 32 rows of 128 bytes, row-major, one 4-bit dot per
 * byte.
 */
module DmdFrames {
  import opened Bits
  import opened Dotmaps

  /** Bytes per row of the raw frame buffer. */
  const RawWidth := 128
  /** Rows of the raw frame buffer. */
  const RawHeight := 32
  /** Bytes of the raw frame buffer. */
  const RawSize := RawWidth * RawHeight

  /** Offset of byte `[y][x]` in a row-major raw buffer. */
  function RawIndex(x: int, y: int): (k: nat)
    requires 0 <= x < RawWidth && 0 <= y < RawHeight
    ensures k < RawSize
  {
    y * RawWidth + x
  }

  /** Distinct cells of the raw buffer have distinct offsets. */
  lemma RawIndexInjective(x1: int, y1: int, x2: int, y2: int)
    requires 0 <= x1 < RawWidth && 0 <= y1 < RawHeight
    requires 0 <= x2 < RawWidth && 0 <= y2 < RawHeight
    ensures RawIndex(x1, y1) == RawIndex(x2, y2) ==> x1 == x2 && y1 == y2
  {
  }

  /** Whether (x, y) falls in the `w` x `h` rectangle whose top-left corner is (left, top). */
  predicate InRect(x: int, y: int, left: int, top: int, w: int, h: int)
  {
    left <= x < left + w && top <= y < top + h
  }

  class DmdFrame {
    var dots: array<byte>
    var width: int
    var height: int

    /** The buffer has the raw frame size, the frame is 128 x 32, and every cell holds a 4-bit value. */
    ghost predicate Valid()
      reads this, dots
    {
      && dots.Length == RawSize
      && width == RawWidth && height == RawHeight
      && forall i :: 0 <= i < dots.Length ==> dots[i] < 16
    }

    /** A 128 x 32 frame with every cell 0. */
    constructor ()
      ensures Valid() && fresh(dots)
      ensures forall x, y :: CheckRange(x, y) ==> GetDot(x, y) == 0
    {
      width := RawWidth;
      height := RawHeight;
      dots := new byte[RawSize];
      new;
      Clear(0);
    }

    /** Whether (x, y) is a cell of the frame: false as soon as either coordinate is past an edge. */
    function CheckRange(x: int, y: int): (inRange: bool)
      reads this
      ensures inRange <==> 0 <= x < width && 0 <= y < height
    {
      if x < 0 || y < 0 || x >= width || y >= height then false else true
    }

    /** The cell at (x, y); 0 outside the frame. */
    function GetDot(x: int, y: int): (d: byte)
      reads this, dots
      requires Valid()
      ensures d < 16
      ensures !CheckRange(x, y) ==> d == 0
    {
      if !CheckRange(x, y) then 0 else dots[RawIndex(x, y)]
    }

    /** Stores the low four bits of `v` at (x, y); nothing happens outside the frame. */
    method SetDot(x: int, y: int, v: byte)
      requires Valid()
      modifies dots
      ensures Valid()
      ensures CheckRange(x, y) ==> GetDot(x, y) == v & 0x0F
      ensures !CheckRange(x, y) ==> dots[..] == old(dots[..])
      ensures forall x', y' :: (x' != x || y' != y) ==> GetDot(x', y') == old(GetDot(x', y'))
    {
      if !CheckRange(x, y) {
        return;
      }
      dots[RawIndex(x, y)] := v & 0x0F;
      forall x', y' | x' != x || y' != y
        ensures GetDot(x', y') == old(GetDot(x', y'))
      {
        if CheckRange(x', y') {
          RawIndexInjective(x, y, x', y');
        }
      }
    }

    /** Sets every cell to the low four bits of `v`. */
    method Clear(v: byte)
      requires dots.Length == RawSize && width == RawWidth && height == RawHeight
      modifies dots
      ensures Valid()
      ensures forall x, y :: CheckRange(x, y) ==> GetDot(x, y) == v & 0x0F
    {
      forall i | 0 <= i < dots.Length {
        dots[i] := v & 0x0F;
      }
    }

    /** The value a blit writes to cell (x, y) that held `before`: the source dot where the source mask bit is 0, else `before`. */
    function BlitCell(dmp: Dotmap, sourceX: int, sourceY: int, destX: int, destY: int, x: int, y: int, before: byte): byte
      reads dmp, dmp.dots, dmp.mask
      requires dmp.Valid()
    {
      if dmp.GetMask(x - destX + sourceX, y - destY + sourceY) == 0
      then dmp.GetDot(x - destX + sourceX, y - destY + sourceY)
      else before
    }

    /** What `DotBlt` leaves in cell (x, y) that held `before`: the blitted value inside the destination rectangle, `before` outside it. */
    function Blitted(dmp: Dotmap, sourceX: int, sourceY: int, sourceWidth: int, sourceHeight: int,
                     destX: int, destY: int, x: int, y: int, before: byte): byte
      reads dmp, dmp.dots, dmp.mask
      requires dmp.Valid()
    {
      if InRect(x, y, destX, destY, sourceWidth, sourceHeight)
      then BlitCell(dmp, sourceX, sourceY, destX, destY, x, y, before)
      else before
    }

    /**
     * Copies the `sourceWidth` x `sourceHeight` rectangle of `dmp` at
     * (sourceX, sourceY) to (destX, destY), keeping the destination cell wherever
     * the source mask bit is 1 (which includes every source pixel outside `dmp`).
     * The destination is not range-checked, so the rectangle must lie in the frame.
     */
    method DotBlt(dmp: Dotmap, sourceX: int, sourceY: int, sourceWidth: int, sourceHeight: int, destX: int, destY: int)
      requires Valid() && dmp.Valid()
      requires dmp.dots != dots && dmp.mask != dots
      requires sourceWidth > 0 && sourceHeight > 0 ==>
        0 <= destX && destX + sourceWidth <= RawWidth && 0 <= destY && destY + sourceHeight <= RawHeight
      modifies dots
      ensures Valid()
      ensures forall x, y ::
        GetDot(x, y) == Blitted(dmp, sourceX, sourceY, sourceWidth, sourceHeight, destX, destY, x, y, old(GetDot(x, y)))
    {
      var bltSrcX, bltDestX := sourceX, destX;
      while bltSrcX < sourceX + sourceWidth
        invariant Valid()
        invariant bltDestX - destX == bltSrcX - sourceX
        invariant bltSrcX == sourceX || sourceX < bltSrcX <= sourceX + sourceWidth
        invariant forall x, y ::
          GetDot(x, y) == Blitted(dmp, sourceX, sourceY, bltSrcX - sourceX, sourceHeight, destX, destY, x, y, old(GetDot(x, y)))
      {
        ghost var done := bltSrcX - sourceX;
        BltColumn(dmp, sourceX, sourceY, sourceHeight, destX, destY, bltSrcX, bltDestX);
        forall x, y
          ensures GetDot(x, y) == Blitted(dmp, sourceX, sourceY, done + 1, sourceHeight, destX, destY, x, y, old(GetDot(x, y)))
        {
          if x != bltDestX {
            assert InRect(x, y, destX, destY, done + 1, sourceHeight) == InRect(x, y, destX, destY, done, sourceHeight);
          }
        }
        bltSrcX, bltDestX := bltSrcX + 1, bltDestX + 1;
      }
      forall x, y
        ensures GetDot(x, y) == Blitted(dmp, sourceX, sourceY, sourceWidth, sourceHeight, destX, destY, x, y, old(GetDot(x, y)))
      {
        assert GetDot(x, y) == Blitted(dmp, sourceX, sourceY, bltSrcX - sourceX, sourceHeight, destX, destY, x, y, old(GetDot(x, y)));
      }
    }

    /** The inner loop of `DotBlt`: blits source column `bltSrcX` into destination column `bltDestX`. */
    method BltColumn(dmp: Dotmap, sourceX: int, sourceY: int, sourceHeight: int, destX: int, destY: int, bltSrcX: int, bltDestX: int)
      requires Valid() && dmp.Valid()
      requires dmp.dots != dots && dmp.mask != dots
      requires bltDestX - destX == bltSrcX - sourceX
      requires sourceHeight > 0 ==> 0 <= bltDestX < RawWidth && 0 <= destY && destY + sourceHeight <= RawHeight
      modifies dots
      ensures Valid()
      ensures forall x, y ::
        GetDot(x, y) == (
          if x == bltDestX && destY <= y < destY + sourceHeight
          then BlitCell(dmp, sourceX, sourceY, destX, destY, x, y, old(GetDot(x, y)))
          else old(GetDot(x, y)))
    {
      var bltSrcY, bltDestY := sourceY, destY;
      while bltSrcY < sourceY + sourceHeight
        invariant Valid()
        invariant bltDestY - destY == bltSrcY - sourceY
        invariant bltSrcY == sourceY || sourceY < bltSrcY <= sourceY + sourceHeight
        invariant forall x, y ::
          GetDot(x, y) == (
            if x == bltDestX && destY <= y < bltDestY
            then BlitCell(dmp, sourceX, sourceY, destX, destY, x, y, old(GetDot(x, y)))
            else old(GetDot(x, y)))
      {
        var bltDot: byte;
        var k := RawIndex(bltDestX, bltDestY);
        if dmp.GetMask(bltSrcX, bltSrcY) != 0 {
          bltDot := dots[k];
        } else {
          bltDot := dmp.GetDot(bltSrcX, bltSrcY);
        }
        dots[k] := bltDot;
        forall x, y
          ensures GetDot(x, y) == (
            if x == bltDestX && destY <= y < bltDestY + 1
            then BlitCell(dmp, sourceX, sourceY, destX, destY, x, y, old(GetDot(x, y)))
            else old(GetDot(x, y)))
        {
          if CheckRange(x, y) {
            RawIndexInjective(x, y, bltDestX, bltDestY);
          }
        }
        bltSrcY, bltDestY := bltSrcY + 1, bltDestY + 1;
      }
    }
  }
}
