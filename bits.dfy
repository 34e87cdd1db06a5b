/**
 * Byte-level helpers shared by the display code: the two 4-bit pixel values
 * packed into one byte, single bits of a byte, and the 16-bit unsigned
 * integers the firmware stores in its records.
 */
module Bits {

  /** One byte of memory. */
  type byte = bv8

  /** An unsigned 16-bit integer (`uint16_t`). */
  type u16 = x: int | 0 <= x < 0x1_0000

  /** An unsigned 32-bit integer (`unsigned long` / `uint32_t` on the target). */
  type u32 = x: int | 0 <= x < 0x1_0000_0000

  /** The 4-bit value in the low half (`high == false`) or high half of `b`. */
  function Nibble(b: byte, high: bool): (n: byte)
    ensures n < 16
  {
    if high then b >> 4 else b & 0x0F
  }

  /**
   * `b` with one half replaced by the low four bits of `d`: for the high half the
   * source masks the byte with 0x0F and ORs in `d << 4` (the shift drops what does
   * not fit in a byte), for the low half it masks with 0xF0 and ORs in `d & 0x0F`.
   */
  function WithNibble(b: byte, high: bool, d: byte): (r: byte)
    ensures Nibble(r, high) == d & 0x0F
    ensures Nibble(r, !high) == Nibble(b, !high)
  {
    if high then (b & 0x0F) | (d << 4) else (b & 0xF0) | (d & 0x0F)
  }

  /** The byte with only bit `k` set: `1 << k`, tabulated. */
  function Bit(k: nat): (m: byte)
    requires k < 8
  {
    if k == 0 then 0x01 else if k == 1 then 0x02 else if k == 2 then 0x04 else if k == 3 then 0x08
    else if k == 4 then 0x10 else if k == 5 then 0x20 else if k == 6 then 0x40 else 0x80
  }

  /** The table is the shift the source writes. */
  lemma BitIsShift(k: nat)
    requires k < 8
    ensures Bit(k) == (1 as byte) << k
  {
  }

  /** Whether bit `k` of `b` is set (`b & (1 << k)` is non-zero). */
  predicate BitSet(b: byte, k: nat)
    requires k < 8
  {
    b & Bit(k) != 0
  }

  /** `b` with bit `k` set (`b |= 1 << k`) or cleared (`b &= ~(1 << k)`). */
  function WithBit(b: byte, k: nat, on: bool): (r: byte)
    requires k < 8
    ensures BitSet(r, k) == on
  {
    if on then b | Bit(k) else b & !Bit(k)
  }

  /** Setting or clearing bit `k` leaves every other bit as it was. */
  lemma WithBitOther(b: byte, k: nat, on: bool, j: nat)
    requires k < 8 && j < 8 && j != k
    ensures BitSet(WithBit(b, k, on), j) == BitSet(b, j)
  {
  }

  /** A byte whose bits are all zero has no bit set, and the converse. */
  lemma ZeroByteBits(b: byte)
    ensures b == 0 <==> forall k :: 0 <= k < 8 ==> !BitSet(b, k)
  {
    if b != 0 {
      assert BitSet(b, 0) || BitSet(b, 1) || BitSet(b, 2) || BitSet(b, 3)
          || BitSet(b, 4) || BitSet(b, 5) || BitSet(b, 6) || BitSet(b, 7);
    }
  }

  /** Bit `k` (k < 4) of the value 15 is set and bit `k` of 0 is not. */
  lemma NibbleExtremes(k: nat)
    requires k < 4
    ensures BitSet(15, k) && !BitSet(0, k)
  {
  }

  /** The byte whose value is `v`, counted up from 0. */
  function ByteOf(v: nat): (b: byte)
    requires v < 256
  {
    if v == 0 then 0 else ByteOf(v - 1) + 1
  }

  /** Adding one to a byte below 255 adds one to its value. */
  lemma ByteSucc(b: byte)
    requires b as int < 255
    ensures (b + 1) as int == b as int + 1
  {
  }

  /** The byte of a value below 256 has that value. */
  lemma {:induction false} ByteOfInt(v: nat)
    requires v < 256
    ensures ByteOf(v) as int == v
  {
    if v > 0 {
      ByteOfInt(v - 1);
      ByteSucc(ByteOf(v - 1));
    }
  }

  /** The byte of a byte's value is that byte. */
  lemma {:induction false} IntOfByte(b: byte)
    ensures ByteOf(b as int) == b
    decreases b as int
  {
    if b != 0 {
      ByteSucc(b - 1);
      IntOfByte(b - 1);
    }
  }

  /** The smallest number of `per`-sized units that hold `n` items: `n / per` rounded up. */
  function CeilDiv(n: nat, per: nat): (r: nat)
    requires per > 0
    ensures r * per >= n
    ensures r == 0 || (r - 1) * per < n
  {
    n / per + (if n % per != 0 then 1 else 0)
  }
}
