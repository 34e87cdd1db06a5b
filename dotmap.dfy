/**
 * A bitmap of 4-bit dots with a 1-bit-per-pixel transparency mask
 * (class Dotmap). Dots are packed two per byte, even columns in the low half
 * and odd columns in the high half; mask bits are packed eight per byte, column
 * `x` in bit `x % 8`. Each row of either array starts on a byte boundary.
 */
module Dotmaps {
  import opened Bits

  /** Byte offset of pixel column `x` of row `y` in a packed array `rowBytes` bytes wide. */
  function Offset(x: nat, y: nat, perByte: nat, rowBytes: nat): nat
    requires perByte > 0
  {
    x / perByte + y * rowBytes
  }

  /** Multiplication by a natural number is monotonic. */
  lemma {:induction false} MulMono(a: nat, b: nat, c: nat)
    requires a <= b
    ensures a * c <= b * c
  {
    if c > 0 {
      MulMono(a, b, c - 1);
      assert a * c == a * (c - 1) + a;
      assert b * c == b * (c - 1) + b;
    }
  }

  /** An in-range pixel column falls in one of the `rowBytes` bytes of its row. */
  lemma ColumnByteInRow(x: nat, w: nat, perByte: nat, rowBytes: nat)
    requires perByte > 0 && rowBytes == CeilDiv(w, perByte) && x < w
    ensures x / perByte < rowBytes
  {
    if x / perByte >= rowBytes {
      MulMono(rowBytes, x / perByte, perByte);
      assert false;
    }
  }

  /** Every in-range pixel lies inside a packed array of `rowBytes * h` bytes. */
  lemma OffsetInBounds(x: nat, y: nat, w: nat, h: nat, perByte: nat, rowBytes: nat)
    requires perByte > 0 && rowBytes == CeilDiv(w, perByte)
    requires x < w && y < h
    ensures Offset(x, y, perByte, rowBytes) < rowBytes * h
  {
    ColumnByteInRow(x, w, perByte, rowBytes);
    MulMono(y + 1, h, rowBytes);
    assert (y + 1) * rowBytes == y * rowBytes + rowBytes;
  }

  /** The row starting `hi` is at least one whole row past the row starting `lo`. */
  lemma RowStartsApart(lo: nat, hi: nat, rowBytes: nat)
    requires lo < hi
    ensures lo * rowBytes + rowBytes <= hi * rowBytes
  {
    MulMono(lo + 1, hi, rowBytes);
    assert (lo + 1) * rowBytes == lo * rowBytes + rowBytes;
  }

  /** A position `q + y * rowBytes` with `q < rowBytes` determines both `y` and `q`. */
  lemma RowMajorUnique(q1: nat, y1: nat, q2: nat, y2: nat, rowBytes: nat)
    requires q1 < rowBytes && q2 < rowBytes
    requires q1 + y1 * rowBytes == q2 + y2 * rowBytes
    ensures y1 == y2 && q1 == q2
  {
    if y1 < y2 {
      RowStartsApart(y1, y2, rowBytes);
    } else if y2 < y1 {
      RowStartsApart(y2, y1, rowBytes);
    }
  }

  /** Two pixels whose columns fall within the row share a byte only when they are on one row and in one group of `perByte` columns. */
  lemma OffsetInjective(x1: nat, y1: nat, x2: nat, y2: nat, perByte: nat, rowBytes: nat)
    requires perByte > 0 && x1 / perByte < rowBytes && x2 / perByte < rowBytes
    requires Offset(x1, y1, perByte, rowBytes) == Offset(x2, y2, perByte, rowBytes)
    ensures y1 == y2 && x1 / perByte == x2 / perByte
  {
    RowMajorUnique(x1 / perByte, y1, x2 / perByte, y2, rowBytes);
  }

  class Dotmap {
    var dots: array<byte>
    var mask: array<byte>
    var width: int
    var height: int
    var widthBytesDots: int
    var widthBytesMask: int

    /** The sizes are 16-bit, the byte widths are the pixel width rounded up to whole bytes, and the arrays hold exactly the rows. */
    ghost predicate Valid()
      reads this
    {
      && 0 <= width < 0x1_0000
      && 0 <= height < 0x1_0000
      && widthBytesDots == CeilDiv(width, 2)
      && widthBytesMask == CeilDiv(width, 8)
      && dots.Length == widthBytesDots * height
      && mask.Length == widthBytesMask * height
      && dots != mask
    }

    /** An empty dotmap. The source's null arrays are modelled as arrays of length 0. */
    constructor ()
      ensures Valid() && fresh(dots) && fresh(mask)
      ensures width == 0 && height == 0 && dots.Length == 0 && mask.Length == 0
    {
      dots := new byte[0];
      mask := new byte[0];
      width, height := 0, 0;
      widthBytesDots, widthBytesMask := 0, 0;
    }

    /** Whether (x, y) is a pixel of this dotmap: false as soon as either coordinate is past an edge. */
    function CheckRange(x: int, y: int): (inRange: bool)
      reads this
      ensures inRange <==> 0 <= x < width && 0 <= y < height
    {
      if x < 0 || y < 0 || x >= width || y >= height then false else true
    }

    /** Byte offset of pixel (x, y) in `dots`. */
    function DotOffset(x: int, y: int): (k: nat)
      reads this
      requires Valid() && CheckRange(x, y)
      ensures k < dots.Length
    {
      OffsetInBounds(x, y, width, height, 2, widthBytesDots);
      Offset(x, y, 2, widthBytesDots)
    }

    /** Byte offset of pixel (x, y) in `mask`. */
    function MaskOffset(x: int, y: int): (k: nat)
      reads this
      requires Valid() && CheckRange(x, y)
      ensures k < mask.Length
    {
      OffsetInBounds(x, y, width, height, 8, widthBytesMask);
      Offset(x, y, 8, widthBytesMask)
    }

    /** The dot at (x, y); 0 outside the dotmap. */
    function GetDot(x: int, y: int): (d: byte)
      reads this, dots
      requires Valid()
      ensures d < 16
      ensures !CheckRange(x, y) ==> d == 0
    {
      if !CheckRange(x, y) then 0
      else Nibble(dots[DotOffset(x, y)], x % 2 == 1)
    }

    /** The mask bit at (x, y) as 0 or 1; 1 (transparent) outside the dotmap. */
    function GetMask(x: int, y: int): (m: byte)
      reads this, mask
      requires Valid()
      ensures m <= 1
      ensures !CheckRange(x, y) ==> m == 1
    {
      if !CheckRange(x, y) then 1
      else if BitSet(mask[MaskOffset(x, y)], x % 8) then 1 else 0
    }

    /** Re-allocates the dotmap as `w` x `h` with every dot and mask bit 0. */
    method Create(w: int, h: int)
      requires 0 <= w < 0x1_0000 && 0 <= h < 0x1_0000
      modifies this
      ensures Valid() && fresh(dots) && fresh(mask)
      ensures width == w && height == h
      ensures widthBytesDots == CeilDiv(w, 2) && widthBytesMask == CeilDiv(w, 8)
      ensures forall i :: 0 <= i < dots.Length ==> dots[i] == 0
      ensures forall i :: 0 <= i < mask.Length ==> mask[i] == 0
      ensures forall x, y :: CheckRange(x, y) ==> GetDot(x, y) == 0 && GetMask(x, y) == 0
    {
      widthBytesDots := CeilDiv(w, 2);
      widthBytesMask := CeilDiv(w, 8);
      width := w;
      height := h;
      dots := new byte[widthBytesDots * height];
      mask := new byte[widthBytesMask * height];
      ClearDots();
      ClearMask();
    }

    /** Copies `len` bytes of `data` over the dots when `len` is the size of the dot array; returns false in every case. */
    method SetDotsFromRaw(data: seq<byte>, len: int) returns (ret: bool)
      requires Valid()
      requires 0 <= len < 0x1_0000 && len <= |data|
      modifies dots
      ensures !ret
      ensures dots[..] == if len == dots.Length then data[..len] else old(dots[..])
    {
      ret := false;
      if len != widthBytesDots * height {
        return;
      }
      forall i | 0 <= i < len {
        dots[i] := data[i];
      }
    }

    /** Copies `len` bytes of `data` over the mask when `len` is the size of the mask array; returns false in every case. */
    method SetMaskFromRaw(data: seq<byte>, len: int) returns (ret: bool)
      requires Valid()
      requires 0 <= len < 0x1_0000 && len <= |data|
      modifies mask
      ensures !ret
      ensures mask[..] == if len == mask.Length then data[..len] else old(mask[..])
    {
      ret := false;
      if len != widthBytesMask * height {
        return;
      }
      forall i | 0 <= i < len {
        mask[i] := data[i];
      }
    }

    /** Sets the dot at (x, y) to the low four bits of `d` by read-modify-write of its byte. */
    method SetDot(x: int, y: int, d: byte)
      requires Valid()
      modifies dots
      ensures CheckRange(x, y) ==> dots[..] == old(dots[..])[DotOffset(x, y) := WithNibble(old(dots[DotOffset(x, y)]), x % 2 == 1, d)]
      ensures !CheckRange(x, y) ==> dots[..] == old(dots[..])
      ensures CheckRange(x, y) ==> GetDot(x, y) == d & 0x0F
      ensures forall x', y' :: (x' != x || y' != y) ==> GetDot(x', y') == old(GetDot(x', y'))
    {
      if !CheckRange(x, y) {
        return;
      }
      var k := DotOffset(x, y);
      dots[k] := WithNibble(dots[k], x % 2 == 1, d);
      forall x', y' | x' != x || y' != y
        ensures GetDot(x', y') == old(GetDot(x', y'))
      {
        if CheckRange(x', y') && DotOffset(x', y') == k {
          ColumnByteInRow(x, width, 2, widthBytesDots);
          ColumnByteInRow(x', width, 2, widthBytesDots);
          OffsetInjective(x, y, x', y', 2, widthBytesDots);
          assert x' % 2 != x % 2;
        }
      }
    }

    /** Sets the mask bit at (x, y) to 1 when `m` is non-zero and to 0 otherwise. */
    method SetMask(x: int, y: int, m: byte)
      requires Valid()
      modifies mask
      ensures CheckRange(x, y) ==> mask[..] == old(mask[..])[MaskOffset(x, y) := WithBit(old(mask[MaskOffset(x, y)]), x % 8, m != 0)]
      ensures !CheckRange(x, y) ==> mask[..] == old(mask[..])
      ensures CheckRange(x, y) ==> GetMask(x, y) == if m != 0 then 1 else 0
      ensures forall x', y' :: (x' != x || y' != y) ==> GetMask(x', y') == old(GetMask(x', y'))
    {
      if !CheckRange(x, y) {
        return;
      }
      var k := MaskOffset(x, y);
      mask[k] := WithBit(mask[k], x % 8, m != 0);
      forall x', y' | x' != x || y' != y
        ensures GetMask(x', y') == old(GetMask(x', y'))
      {
        if CheckRange(x', y') && MaskOffset(x', y') == k {
          ColumnByteInRow(x, width, 8, widthBytesMask);
          ColumnByteInRow(x', width, 8, widthBytesMask);
          OffsetInjective(x, y, x', y', 8, widthBytesMask);
          WithBitOther(old(mask[k]), x % 8, m != 0, x' % 8);
        }
      }
    }

    /** Sets every byte of the dots to `d` in both halves, so every dot reads the low four bits of `d`. */
    method Fill(d: byte)
      requires Valid()
      modifies dots
      ensures forall i :: 0 <= i < dots.Length ==> dots[i] == (d & 0x0F) | (d << 4)
      ensures forall x, y :: CheckRange(x, y) ==> GetDot(x, y) == d & 0x0F
    {
      var b := (d & 0x0F) | (d << 4);
      forall i | 0 <= i < dots.Length {
        dots[i] := b;
      }
      assert Nibble(b, false) == d & 0x0F && Nibble(b, true) == d & 0x0F;
    }

    /** The rectangle fill is declared but has an empty body: it changes nothing. */
    method FillRect(x: int, y: int, w: int, h: int, d: byte)
      requires Valid()
      ensures Valid()
      ensures forall x', y' :: GetDot(x', y') == old(GetDot(x', y'))
    {
    }

    /** Zeroes every byte of the dots; the mask is untouched. */
    method ClearDots()
      requires Valid()
      modifies dots
      ensures forall i :: 0 <= i < dots.Length ==> dots[i] == 0
      ensures forall x, y :: CheckRange(x, y) ==> GetDot(x, y) == 0
    {
      forall i | 0 <= i < dots.Length {
        dots[i] := 0;
      }
    }

    /** Zeroes every byte of the mask; the dots are untouched. */
    method ClearMask()
      requires Valid()
      modifies mask
      ensures forall i :: 0 <= i < mask.Length ==> mask[i] == 0
      ensures forall x, y :: CheckRange(x, y) ==> GetMask(x, y) == 0
    {
      forall i | 0 <= i < mask.Length {
        mask[i] := 0;
      }
      forall x, y | CheckRange(x, y) ensures GetMask(x, y) == 0 {
        ZeroByteBits(mask[MaskOffset(x, y)]);
      }
    }

    /**
     * Assignment from another dotmap: re-creates this one with the other's size and
     * copies its arrays. The byte count is passed as a 16-bit length, so an array of
     * 0x10000 bytes or more is truncated, fails the size check and stays zero.
     * Assigning a dotmap to itself re-creates its arrays before the copy reads them,
     * so the copy reads the new zeroed arrays: the size is kept and every dot and
     * mask bit becomes 0.
     */
    method CopyFrom(rhs: Dotmap)
      requires rhs.Valid()
      modifies this
      ensures Valid() && fresh(dots) && fresh(mask)
      ensures width == old(rhs.width) && height == old(rhs.height)
      ensures rhs != this ==>
        dots[..] == if rhs.dots.Length < 0x1_0000 then rhs.dots[..] else seq(dots.Length, _ => 0)
      ensures rhs != this ==>
        mask[..] == if rhs.mask.Length < 0x1_0000 then rhs.mask[..] else seq(mask.Length, _ => 0)
      ensures rhs != this && rhs.dots.Length < 0x1_0000 ==> forall x, y :: GetDot(x, y) == rhs.GetDot(x, y)
      ensures rhs != this && rhs.mask.Length < 0x1_0000 ==> forall x, y :: GetMask(x, y) == rhs.GetMask(x, y)
      ensures rhs == this ==> dots[..] == seq(dots.Length, _ => 0) && mask[..] == seq(mask.Length, _ => 0)
      ensures rhs == this ==> forall x, y :: CheckRange(x, y) ==> GetDot(x, y) == 0 && GetMask(x, y) == 0
    {
      Create(rhs.width, rhs.height);
      ghost var zeroDots, zeroMask := dots[..], mask[..];
      assert zeroDots == seq(dots.Length, _ => 0);
      assert zeroMask == seq(mask.Length, _ => 0);
      var ok := SetDotsFromRaw(rhs.dots[..], (widthBytesDots * height) % 0x1_0000);
      ok := SetMaskFromRaw(rhs.mask[..], (widthBytesMask * height) % 0x1_0000);
      if rhs == this {
        assert dots[..] == zeroDots && mask[..] == zeroMask;
        ZeroArraysClear();
      }
    }

    /** A dotmap whose arrays hold only zero bytes has every dot and mask bit 0. */
    lemma ZeroArraysClear()
      requires Valid() && dots[..] == seq(dots.Length, _ => 0) && mask[..] == seq(mask.Length, _ => 0)
      ensures forall x, y :: CheckRange(x, y) ==> GetDot(x, y) == 0 && GetMask(x, y) == 0
    {
      forall x, y | CheckRange(x, y)
        ensures GetDot(x, y) == 0 && GetMask(x, y) == 0
      {
        assert dots[DotOffset(x, y)] == 0;
        assert mask[MaskOffset(x, y)] == 0;
        ZeroByteBits(mask[MaskOffset(x, y)]);
      }
    }
  }
}
