/**
 * The display refresh engine (class Dmd): a timer interrupt that shifts one
 * scan row of one bit-plane into the panel per tick and returns how long that
 * bit-plane stays lit, and the two-buffer hand-off between the foreground
 * (`SetFrame`) and the interrupt.
 *
 * The hardware is replaced by an output trace: every `digitalWriteFast` is a
 * `PinWrite` appended to `pins`, and the interval timer is the pair of fields
 * `timerArmed` / `timerPeriod`.
 */
module Dmds {
  import opened Bits
  import opened DmdFrames

  /** Scan rows per bit-plane; rows `row` and `row + 16` are shifted together. */
  const ScanRows := 16
  /** Bit-planes per full frame. */
  const BitPlanes := 4
  /** Bytes read per scan row; each byte supplies two shifted columns. */
  const ColumnBytes := 64
  /** Refresh ticks per full frame (16 rows times 4 bit-planes). */
  const TicksPerFrame := 64

  /** The panel's control and data lines. */
  datatype Pin = EN | R1 | R2 | LA | LB | LC | LD | LT | SK

  /** One `digitalWriteFast(pin, level)`; `high` is true when the written value is non-zero. */
  datatype PinWrite = PinWrite(pin: Pin, high: bool)

  // ---------------------------------------------------------------------------
  // The (row, bit-plane) scan position
  // ---------------------------------------------------------------------------

  /** The scan position: the fields `row` and `frame` (the bit-plane). */
  datatype ScanPos = ScanPos(row: int, plane: int)

  predicate ValidPos(p: ScanPos)
  {
    0 <= p.row < 16 && 0 <= p.plane < 4
  }

  /** The tick of a full frame at which position `p` is scanned: sixteen ticks per bit-plane, rows in order. */
  function Linear(p: ScanPos): int
  {
    p.row + (if p.plane == 0 then 0 else if p.plane == 1 then 16 else if p.plane == 2 then 32 else 48)
  }

  /** How long the bit-plane stays lit after its tick; any other value takes the `default` label shared with plane 0. */
  function Dwell(plane: int): (ticks: int)
  {
    if plane == 1 then 2
    else if plane == 2 then 30
    else if plane == 3 then 45
    else 1
  }

  /** Whether the tick at `p` finishes a full frame, the only tick at which the in-use buffer is re-selected. */
  predicate Wraps(p: ScanPos)
  {
    p.row == 15 && p.plane == 3
  }

  /**
   * The position after one tick: the next row, and after the last row the next
   * bit-plane. It goes back to (0, 0) exactly when the tick finishes a full frame.
   */
  function NextPos(p: ScanPos): (q: ScanPos)
    requires ValidPos(p)
    ensures ValidPos(q)
    ensures Wraps(p) <==> q == ScanPos(0, 0)
  {
    var row := p.row + 1;
    if row == ScanRows then
      var plane := p.plane + 1;
      if plane == BitPlanes then ScanPos(0, 0) else ScanPos(0, plane)
    else ScanPos(row, p.plane)
  }

  /** One tick is one step of the 64-tick cycle. */
  lemma NextLinear(p: ScanPos)
    requires ValidPos(p)
    ensures Linear(NextPos(p)) == if Wraps(p) then 0 else Linear(p) + 1
  {
  }

  /** The position after `n` ticks from `p`. */
  function Advance(p: ScanPos, n: nat): (q: ScanPos)
    requires ValidPos(p)
    ensures ValidPos(q)
  {
    if n == 0 then p else NextPos(Advance(p, n - 1))
  }

  /** Until the end of the full frame, `n` ticks move the position `n` steps on. */
  lemma {:induction false} AdvanceLinear(p: ScanPos, n: nat)
    requires ValidPos(p) && Linear(p) + n < TicksPerFrame
    ensures Linear(Advance(p, n)) == Linear(p) + n
  {
    if n > 0 {
      AdvanceLinear(p, n - 1);
      var a := Advance(p, n - 1);
      assert Advance(p, n) == NextPos(a);
      NextLinear(a);
      assert Linear(a) == Linear(p) + n - 1;
      assert !Wraps(a);
    }
  }

  /** A tick finishes the full frame exactly when it is the last of the 64. */
  lemma WrapsLast(p: ScanPos)
    requires ValidPos(p)
    ensures Wraps(p) <==> Linear(p) == TicksPerFrame - 1
  {
  }

  /** A valid position is determined by its tick number. */
  lemma LinearInjective(p: ScanPos, q: ScanPos)
    requires ValidPos(p) && ValidPos(q) && Linear(p) == Linear(q)
    ensures p == q
  {
  }

  /** Ticks compose: `a + b` ticks are `a` ticks and then `b` more. */
  lemma {:induction false} AdvanceSplit(p: ScanPos, a: nat, b: nat)
    requires ValidPos(p)
    ensures Advance(p, a + b) == Advance(Advance(p, a), b)
  {
    if b > 0 {
      AdvanceSplit(p, a, b - 1);
      assert Advance(p, a + b) == NextPos(Advance(p, a + b - 1));
    }
  }

  /** The tick `64 - Linear(p)` ticks after `p` is the first of the next full frame. */
  lemma WrapPoint(p: ScanPos)
    requires ValidPos(p)
    ensures Linear(Advance(p, TicksPerFrame - Linear(p))) == 0
  {
    var w := TicksPerFrame - 1 - Linear(p);
    var a := Advance(p, w);
    AdvanceLinear(p, w);
    assert Linear(a) == TicksPerFrame - 1;
    LinearInjective(a, ScanPos(15, 3));
    NextLinear(a);
    assert Advance(p, w + 1) == NextPos(a);
  }

  /** Up to 64 ticks move the position that many steps around the 64-tick cycle, wrapping once past tick 63. */
  lemma AdvanceCycle(p: ScanPos, n: nat)
    requires ValidPos(p) && n <= TicksPerFrame
    ensures Linear(Advance(p, n)) ==
      if Linear(p) + n < TicksPerFrame then Linear(p) + n else Linear(p) + n - TicksPerFrame
  {
    if Linear(p) + n >= TicksPerFrame {
      var w := TicksPerFrame - Linear(p);
      var z := Advance(p, w);
      WrapPoint(p);
      assert Linear(z) == 0;
      AdvanceSplit(p, w, n - w);
      assert Advance(p, n) == Advance(z, n - w);
      AdvanceLinear(z, n - w);
    } else {
      AdvanceLinear(p, n);
    }
  }

  /** From any position, 64 ticks come back to that position. */
  lemma FullFrameReturns(p: ScanPos)
    requires ValidPos(p)
    ensures Advance(p, TicksPerFrame) == p
  {
    AdvanceCycle(p, TicksPerFrame);
    LinearInjective(Advance(p, TicksPerFrame), p);
  }

  /** From any position, the next 64 ticks visit 64 different (row, bit-plane) pairs. */
  lemma FullFrameDistinct(p: ScanPos)
    requires ValidPos(p)
    ensures forall i, j :: 0 <= i < j < TicksPerFrame ==> Advance(p, i) != Advance(p, j)
  {
    forall i, j | 0 <= i < j < TicksPerFrame
      ensures Advance(p, i) != Advance(p, j)
    {
      AdvanceCycle(p, i);
      AdvanceCycle(p, j);
    }
  }

  /** The number of ticks from `p` to the next scan of `q`: the difference of their tick numbers, around the cycle. */
  function TicksBetween(p: ScanPos, q: ScanPos): (i: nat)
    requires ValidPos(p) && ValidPos(q)
    ensures i < TicksPerFrame
  {
    if Linear(q) >= Linear(p) then Linear(q) - Linear(p) else Linear(q) - Linear(p) + TicksPerFrame
  }

  /** From any position, every (row, bit-plane) pair is scanned within the next 64 ticks, `TicksBetween` ticks later. */
  lemma ScanReaches(p: ScanPos, q: ScanPos)
    requires ValidPos(p) && ValidPos(q)
    ensures Advance(p, TicksBetween(p, q)) == q
  {
    var i := TicksBetween(p, q);
    AdvanceCycle(p, i);
    LinearInjective(Advance(p, i), q);
  }

  /**
   * From any position, the tick `63 - Linear(p)` ticks later (so at most 64
   * ticks away, counting the current one) finishes the full frame, and no
   * earlier tick does. This bounds how long `WaitSync` can spin.
   */
  lemma WrapWithinFrame(p: ScanPos)
    requires ValidPos(p)
    ensures 0 <= TicksPerFrame - 1 - Linear(p) < TicksPerFrame
    ensures Wraps(Advance(p, TicksPerFrame - 1 - Linear(p)))
    ensures forall k :: 0 <= k < TicksPerFrame - 1 - Linear(p) ==> !Wraps(Advance(p, k))
  {
    var w := TicksPerFrame - 1 - Linear(p);
    AdvanceLinear(p, w);
    WrapsLast(Advance(p, w));
    forall k | 0 <= k < w
      ensures !Wraps(Advance(p, k))
    {
      AdvanceLinear(p, k);
      WrapsLast(Advance(p, k));
    }
  }

  /** Total lit time of the `n` ticks that start at position `p`. */
  function DwellSum(p: ScanPos, n: nat): int
    requires ValidPos(p)
  {
    if n == 0 then 0 else DwellSum(p, n - 1) + Dwell(Advance(p, n - 1).plane)
  }

  /** The bit-plane scanned at tick `t` of a full frame. */
  lemma PlaneOfTick(p: ScanPos, t: nat)
    requires ValidPos(p) && Linear(p) == 0 && t < TicksPerFrame
    ensures Advance(p, t).plane == if t < 16 then 0 else if t < 32 then 1 else if t < 48 then 2 else 3
  {
    AdvanceLinear(p, t);
  }

  /** Partial sums of the dwell table from the start of a full frame: sixteen ticks of each bit-plane, weighted 1, 2, 30 and 45. */
  lemma {:induction false} DwellSumPlanes(p: ScanPos, n: nat)
    requires ValidPos(p) && Linear(p) == 0 && n <= TicksPerFrame
    ensures DwellSum(p, n) ==
      (if n <= 16 then n
       else if n <= 32 then 16 + (n - 16) * 2
       else if n <= 48 then 48 + (n - 32) * 30
       else 528 + (n - 48) * 45)
  {
    if n > 0 {
      DwellSumPlanes(p, n - 1);
      PlaneOfTick(p, n - 1);
    }
  }

  /** The dwells of one full frame add up to 16 * (1 + 2 + 30 + 45). */
  lemma FullFrameDwell(p: ScanPos)
    requires ValidPos(p) && Linear(p) == 0
    ensures DwellSum(p, TicksPerFrame) == 16 * (1 + 2 + 30 + 45)
  {
    DwellSumPlanes(p, TicksPerFrame);
  }

  // ---------------------------------------------------------------------------
  // The data bits of one scan row
  // ---------------------------------------------------------------------------

  /** Clock pulses per scan row: two per byte column. */
  const Shifts := 2 * ColumnBytes

  /** The level a dot of byte `[y][col]` puts on its data line for bit-plane `plane`: bit `plane` of the byte's low (`high == false`) or high nibble. */
  function DotBit(buf: seq<byte>, y: int, plane: int, col: int, high: bool): bool
    requires |buf| == RawSize && 0 <= y < RawHeight && 0 <= plane < BitPlanes && 0 <= col < ColumnBytes
  {
    BitSet(Nibble(buf[RawIndex(col, y)], high), plane)
  }

  /** The levels of the shifts of byte columns 0 .. n-1 on the data line that carries raw row `y`: low nibble, then high nibble, column by column. */
  function RowBitsTo(buf: seq<byte>, y: int, plane: int, n: nat): (bs: seq<bool>)
    requires |buf| == RawSize && 0 <= y < RawHeight && 0 <= plane < BitPlanes && n <= ColumnBytes
    ensures |bs| == 2 * n
  {
    if n == 0 then []
    else RowBitsTo(buf, y, plane, n - 1) + [DotBit(buf, y, plane, n - 1, false), DotBit(buf, y, plane, n - 1, true)]
  }

  /** Shift `2 * col + colBit` of the first `n` columns carries the low (`colBit == 0`) or high nibble's bit of column `col`. */
  lemma {:induction false} RowBitsToAt(buf: seq<byte>, y: int, plane: int, n: nat, col: int, colBit: int)
    requires |buf| == RawSize && 0 <= y < RawHeight && 0 <= plane < BitPlanes && n <= ColumnBytes
    requires 0 <= col < n && 0 <= colBit < 2
    ensures RowBitsTo(buf, y, plane, n)[2 * col + colBit] == DotBit(buf, y, plane, col, colBit == 1)
  {
    if col < n - 1 {
      RowBitsToAt(buf, y, plane, n - 1, col, colBit);
    }
  }

  /** The 128 levels a scan row puts on the data line that carries raw row `y`. */
  function RowBits(buf: seq<byte>, y: int, plane: int): (bs: seq<bool>)
    requires |buf| == RawSize && 0 <= y < RawHeight && 0 <= plane < BitPlanes
    ensures |bs| == Shifts
  {
    RowBitsTo(buf, y, plane, ColumnBytes)
  }

  /**
   * The nibble selection (`colBit & 1`) and bit test `UpdateRow` performs at
   * byte column `col`, pass `colBit`, give level `2 * col + colBit` of the
   * row's bits.
   */
  lemma RowBitsAt(buf: seq<byte>, y: int, plane: int, col: int, colBit: int)
    requires |buf| == RawSize && 0 <= y < RawHeight && 0 <= plane < BitPlanes && 0 <= col < ColumnBytes && 0 <= colBit < 2
    ensures RowBits(buf, y, plane)[2 * col + colBit] == BitSet(Nibble(buf[RawIndex(col, y)], colBit % 2 == 1), plane)
  {
    RowBitsToAt(buf, y, plane, ColumnBytes, col, colBit);
  }

  /** A raw buffer whose bytes all hold `v`. */
  function Uniform(v: byte): (s: seq<byte>)
    ensures |s| == RawSize
    ensures forall i :: 0 <= i < |s| ==> s[i] == v
  {
    seq(RawSize, _ => v)
  }

  /**
   * The two uniform buffers of the design's intensity examples: a buffer of
   * zero bytes shifts no set bit on any bit-plane, and a buffer of bytes 15
   * (what `DmdFrame::Clear(15)` leaves) shifts set bits on the low-nibble
   * (even) shifts and clear bits on the high-nibble (odd) shifts, because the
   * scan takes two dots from each byte.
   */
  lemma UniformBuffers(plane: int)
    requires 0 <= plane < BitPlanes
    ensures forall y, col, high :: 0 <= y < RawHeight && 0 <= col < ColumnBytes ==> !DotBit(Uniform(0), y, plane, col, high)
    ensures forall y, col, high :: 0 <= y < RawHeight && 0 <= col < ColumnBytes ==> DotBit(Uniform(15), y, plane, col, high) == !high
  {
    NibbleExtremes(plane);
    assert Nibble(15, false) == 15 && Nibble(15, true) == 0 && Nibble(0, false) == 0 && Nibble(0, true) == 0;
  }

  // ---------------------------------------------------------------------------
  // The pin writes of one scan row
  // ---------------------------------------------------------------------------

  /** A single `digitalWriteFast`. */
  function WriteOne(pin: Pin, high: bool): seq<PinWrite>
  {
    [PinWrite(pin, high)]
  }

  /** One clock pulse with levels `r1` and `r2` on the data lines: clock high, R1, R2, clock low. */
  function Shift(r1: bool, r2: bool): seq<PinWrite>
  {
    [PinWrite(SK, true), PinWrite(R1, r1), PinWrite(R2, r2), PinWrite(SK, false)]
  }

  /** Shift `k` of a scan row whose R1 levels are `d1` and R2 levels `d2`. */
  function ShiftAt(d1: seq<bool>, d2: seq<bool>, k: int): seq<PinWrite>
    requires |d1| == Shifts && |d2| == Shifts && 0 <= k < Shifts
  {
    Shift(d1[k], d2[k])
  }

  /** The first `n` (0, 1 or 2) shifts taken from byte column `col`: the low nibble's, then the high nibble's. */
  function ShiftsUpTo(d1: seq<bool>, d2: seq<bool>, col: int, n: int): seq<PinWrite>
    requires |d1| == Shifts && |d2| == Shifts && 0 <= col < ColumnBytes
  {
    if n <= 0 then []
    else if n == 1 then ShiftAt(d1, d2, 2 * col)
    else ShiftAt(d1, d2, 2 * col) + ShiftAt(d1, d2, 2 * col + 1)
  }

  /** The output-enable write that opens byte column `col`: EN high (display off) from column `brightness` on. */
  function EnableWrites(col: int, brightness: int): seq<PinWrite>
  {
    if col >= brightness then [PinWrite(EN, true)] else []
  }

  /** The writes of byte column `col`. */
  function ColumnWrites(d1: seq<bool>, d2: seq<bool>, brightness: int, col: int): seq<PinWrite>
    requires |d1| == Shifts && |d2| == Shifts && 0 <= col < ColumnBytes
  {
    EnableWrites(col, brightness) + ShiftsUpTo(d1, d2, col, 2)
  }

  /** The writes of byte columns 0 .. n-1. */
  function ColumnsWrites(d1: seq<bool>, d2: seq<bool>, brightness: int, n: nat): seq<PinWrite>
    requires |d1| == Shifts && |d2| == Shifts && n <= ColumnBytes
  {
    if n == 0 then [] else ColumnsWrites(d1, d2, brightness, n - 1) + ColumnWrites(d1, d2, brightness, n - 1)
  }

  /** Bit `k` (0 to 3) of a row number (`row & (1 << k)` is non-zero). */
  predicate RowBit(row: nat, k: nat)
    requires k < 4
  {
    (if k == 0 then row else if k == 1 then row / 2 else if k == 2 then row / 4 else row / 8) % 2 == 1
  }

  /** The address lines LA..LD set to levels `a0`..`a3`. */
  function Address(a0: bool, a1: bool, a2: bool, a3: bool): seq<PinWrite>
  {
    WriteOne(LA, a0) + WriteOne(LB, a1) + WriteOne(LC, a2) + WriteOne(LD, a3)
  }

  /** Latch low, the address lines LA..LD at levels `a0`..`a3`, latch high, then EN low (display on). */
  function Latch(a0: bool, a1: bool, a2: bool, a3: bool): seq<PinWrite>
  {
    [PinWrite(LT, false), PinWrite(LA, a0), PinWrite(LB, a1), PinWrite(LC, a2), PinWrite(LD, a3), PinWrite(LT, true), PinWrite(EN, false)]
  }

  /** The latch sequence for scan row `row`: its bits 0..3 on LA..LD. */
  function LatchWrites(row: nat): seq<PinWrite>
  {
    Latch(RowBit(row, 0), RowBit(row, 1), RowBit(row, 2), RowBit(row, 3))
  }

  /** Every write of one `UpdateRow` call for scan row `row`, whose R1 levels are `d1` and R2 levels `d2`. */
  function RowTrace(d1: seq<bool>, d2: seq<bool>, row: nat, brightness: int): seq<PinWrite>
    requires |d1| == Shifts && |d2| == Shifts
  {
    ColumnsWrites(d1, d2, brightness, ColumnBytes) + LatchWrites(row)
  }

  /** Every write of one `UpdateRow` call for scan row `row` of bit-plane `plane` of the raw buffer `buf`. */
  function UpdateTrace(buf: seq<byte>, row: int, plane: int, brightness: int): seq<PinWrite>
    requires |buf| == RawSize && 0 <= row < ScanRows && 0 <= plane < BitPlanes
  {
    RowTrace(RowBits(buf, row, plane), RowBits(buf, row + 16, plane), row, brightness)
  }

  /** Proof helper for the scan loops: concatenation is associative. */
  lemma AppendThen(t0: seq<PinWrite>, t1: seq<PinWrite>, t2: seq<PinWrite>, a: seq<PinWrite>, b: seq<PinWrite>, ab: seq<PinWrite>)
    requires t1 == t0 + a && t2 == t1 + b && ab == a + b
    ensures t2 == t0 + ab
  {
  }

  /** Proof helper for `ShiftRow`: a trace holding the first `col` byte columns, followed by column `col`, holds the first `col + 1`. */
  lemma ColumnsWritesStep(t0: seq<PinWrite>, t1: seq<PinWrite>, t2: seq<PinWrite>, d1: seq<bool>, d2: seq<bool>, brightness: int, col: nat)
    requires |d1| == Shifts && |d2| == Shifts && col < ColumnBytes
    requires t1 == t0 + ColumnsWrites(d1, d2, brightness, col)
    requires t2 == t1 + ColumnWrites(d1, d2, brightness, col)
    ensures t2 == t0 + ColumnsWrites(d1, d2, brightness, col + 1)
  {
    AppendThen(t0, t1, t2, ColumnsWrites(d1, d2, brightness, col), ColumnWrites(d1, d2, brightness, col),
      ColumnsWrites(d1, d2, brightness, col + 1));
  }

  /** A row's trace is its 64 byte columns followed by its latch sequence. */
  lemma UpdateTraceSplit(t0: seq<PinWrite>, t1: seq<PinWrite>, t2: seq<PinWrite>, buf: seq<byte>, row: int, plane: int, brightness: int,
                         d1: seq<bool>, d2: seq<bool>)
    requires |buf| == RawSize && 0 <= row < ScanRows && 0 <= plane < BitPlanes
    requires d1 == RowBits(buf, row, plane) && d2 == RowBits(buf, row + 16, plane)
    requires t1 == t0 + ColumnsWrites(d1, d2, brightness, ColumnBytes)
    requires t2 == t1 + LatchWrites(row)
    ensures t2 == t0 + UpdateTrace(buf, row, plane, brightness)
  {
    AppendThen(t0, t1, t2, ColumnsWrites(d1, d2, brightness, ColumnBytes), LatchWrites(row), UpdateTrace(buf, row, plane, brightness));
  }

  /** Proof helper for `ShiftColumn`: taking one more shift from a byte column appends that shift. */
  lemma ShiftsUpToStep(d1: seq<bool>, d2: seq<bool>, col: int, n: int)
    requires |d1| == Shifts && |d2| == Shifts && 0 <= col < ColumnBytes && 0 <= n < 2
    ensures ShiftsUpTo(d1, d2, col, n + 1) == ShiftsUpTo(d1, d2, col, n) + ShiftAt(d1, d2, 2 * col + n)
  {
    if n == 0 {
      assert [] + ShiftAt(d1, d2, 2 * col) == ShiftAt(d1, d2, 2 * col);
    }
  }

  // ---------------------------------------------------------------------------
  // What a trace does to each pin
  // ---------------------------------------------------------------------------

  /** The levels written to pin `p` by the first `n` writes of `t`, in order. */
  function LevelsTo(t: seq<PinWrite>, p: Pin, n: nat): (ls: seq<bool>)
    requires n <= |t|
    ensures |ls| <= n
  {
    if n == 0 then []
    else LevelsTo(t, p, n - 1) + (if t[n - 1].pin == p then [t[n - 1].high] else [])
  }

  /** The levels written to pin `p`, in order. */
  function Levels(t: seq<PinWrite>, p: Pin): (ls: seq<bool>)
    ensures |ls| <= |t|
  {
    LevelsTo(t, p, |t|)
  }

  /** The level of pin `p` after the first `n` writes of `t`, when it was `init` before them. */
  function LastLevelTo(t: seq<PinWrite>, p: Pin, init: bool, n: nat): bool
    requires n <= |t|
  {
    if n == 0 then init
    else if t[n - 1].pin == p then t[n - 1].high
    else LastLevelTo(t, p, init, n - 1)
  }

  /** The level of pin `p` after the writes `t`, when it was `init` before them. */
  function LastLevel(t: seq<PinWrite>, p: Pin, init: bool): bool
  {
    LastLevelTo(t, p, init, |t|)
  }

  /** A single write sets only its own pin. */
  lemma WriteLevels(q: Pin, h: bool, p: Pin, init: bool)
    ensures Levels(WriteOne(q, h), p) == if q == p then [h] else []
    ensures LastLevel(WriteOne(q, h), p, init) == if q == p then h else init
  {
    assert LevelsTo(WriteOne(q, h), p, 0) == [];
    assert LastLevelTo(WriteOne(q, h), p, init, 0) == init;
  }

  /** Only the first `n` writes count. */
  lemma {:induction false} LevelsToPrefix(s: seq<PinWrite>, t: seq<PinWrite>, p: Pin, init: bool, n: nat)
    requires n <= |s| && n <= |t| && s[..n] == t[..n]
    ensures LevelsTo(s, p, n) == LevelsTo(t, p, n)
    ensures LastLevelTo(s, p, init, n) == LastLevelTo(t, p, init, n)
  {
    if n > 0 {
      assert s[n - 1] == s[..n][n - 1] == t[..n][n - 1] == t[n - 1];
      assert s[..n - 1] == s[..n][..n - 1];
      assert t[..n - 1] == t[..n][..n - 1];
      LevelsToPrefix(s, t, p, init, n - 1);
    }
  }

  /** Pin levels over a prefix of `a + b` that reaches `m` writes into `b`. */
  lemma {:induction false} LevelsToAppend(a: seq<PinWrite>, b: seq<PinWrite>, p: Pin, init: bool, m: nat)
    requires m <= |b|
    ensures LevelsTo(a + b, p, |a| + m) == Levels(a, p) + LevelsTo(b, p, m)
    ensures LastLevelTo(a + b, p, init, |a| + m) == LastLevelTo(b, p, LastLevel(a, p, init), m)
  {
    if m == 0 {
      assert (a + b)[..|a|] == a[..|a|];
      LevelsToPrefix(a + b, a, p, init, |a|);
    } else {
      LevelsToAppend(a, b, p, init, m - 1);
      assert (a + b)[|a| + m - 1] == b[m - 1];
    }
  }

  /** The writes to a pin in two traces in sequence are those of the first, then those of the second. */
  lemma LevelsAppend(a: seq<PinWrite>, b: seq<PinWrite>, p: Pin)
    ensures Levels(a + b, p) == Levels(a, p) + Levels(b, p)
  {
    LevelsToAppend(a, b, p, false, |b|);
  }

  /** A pin's level after two traces is its level after the second, started from its level after the first. */
  lemma LastLevelAppend(a: seq<PinWrite>, b: seq<PinWrite>, p: Pin, init: bool)
    ensures LastLevel(a + b, p, init) == LastLevel(b, p, LastLevel(a, p, init))
  {
    LevelsToAppend(a, b, p, init, |b|);
  }

  /** What one clock pulse writes to each pin. */
  lemma ShiftLevels(r1: bool, r2: bool, p: Pin)
    ensures Levels(Shift(r1, r2), p) ==
      if p == SK then [true, false] else if p == R1 then [r1] else if p == R2 then [r2] else []
  {
    var t := Shift(r1, r2);
    var l1 := if p == SK then [true] else [];
    var l2 := l1 + if p == R1 then [r1] else [];
    var l3 := l2 + if p == R2 then [r2] else [];
    assert LevelsTo(t, p, 1) == l1 by { assert LevelsTo(t, p, 0) == []; }
    assert LevelsTo(t, p, 2) == l2;
    assert LevelsTo(t, p, 3) == l3;
    assert LevelsTo(t, p, 4) == l3 + if p == SK then [false] else [];
  }

  /** A clock pulse leaves EN as it was. */
  lemma ShiftKeepsEnable(r1: bool, r2: bool, init: bool)
    ensures LastLevel(Shift(r1, r2), EN, init) == init
  {
    var t := Shift(r1, r2);
    assert LastLevelTo(t, EN, init, 0) == init;
    assert LastLevelTo(t, EN, init, 4) == LastLevelTo(t, EN, init, 0);
  }

  /** The writes of one byte column to a pin: those of its enable write, then those of its two shifts. */
  lemma ColumnSplit(d1: seq<bool>, d2: seq<bool>, brightness: int, c: int, p: Pin)
    requires |d1| == Shifts && |d2| == Shifts && 0 <= c < ColumnBytes
    ensures Levels(ColumnWrites(d1, d2, brightness, c), p) ==
      Levels(EnableWrites(c, brightness), p) + (Levels(Shift(d1[2 * c], d2[2 * c]), p) + Levels(Shift(d1[2 * c + 1], d2[2 * c + 1]), p))
  {
    var en, s0, s1 := EnableWrites(c, brightness), Shift(d1[2 * c], d2[2 * c]), Shift(d1[2 * c + 1], d2[2 * c + 1]);
    assert ColumnWrites(d1, d2, brightness, c) == en + (s0 + s1);
    LevelsAppend(en, s0 + s1, p);
    LevelsAppend(s0, s1, p);
  }

  /** The enable write of a byte column is a single EN high from column `brightness` on. */
  lemma EnableLevels(c: int, brightness: int, p: Pin)
    ensures Levels(EnableWrites(c, brightness), p) == if p == EN && c >= brightness then [true] else []
  {
    WriteLevels(EN, true, p, false);
  }

  /** The data line `p` is given the levels of shifts 2c and 2c+1 by byte column `c`. */
  lemma ColumnData(d1: seq<bool>, d2: seq<bool>, brightness: int, c: int, p: Pin)
    requires |d1| == Shifts && |d2| == Shifts && 0 <= c < ColumnBytes
    requires p == R1 || p == R2
    ensures Levels(ColumnWrites(d1, d2, brightness, c), p) == [DataLine(d1, d2, p)[2 * c], DataLine(d1, d2, p)[2 * c + 1]]
  {
    ColumnSplit(d1, d2, brightness, c, p);
    EnableLevels(c, brightness, p);
    ShiftLevels(d1[2 * c], d2[2 * c], p);
    ShiftLevels(d1[2 * c + 1], d2[2 * c + 1], p);
  }

  /** Byte column `c` pulses the clock twice. */
  lemma ColumnClock(d1: seq<bool>, d2: seq<bool>, brightness: int, c: int)
    requires |d1| == Shifts && |d2| == Shifts && 0 <= c < ColumnBytes
    ensures Levels(ColumnWrites(d1, d2, brightness, c), SK) == [true, false, true, false]
  {
    ColumnSplit(d1, d2, brightness, c, SK);
    EnableLevels(c, brightness, SK);
    ShiftLevels(d1[2 * c], d2[2 * c], SK);
    ShiftLevels(d1[2 * c + 1], d2[2 * c + 1], SK);
  }

  /** Byte column `c` writes EN once, high, when it is at or past `brightness`, and otherwise not at all. */
  lemma ColumnEnable(d1: seq<bool>, d2: seq<bool>, brightness: int, c: int)
    requires |d1| == Shifts && |d2| == Shifts && 0 <= c < ColumnBytes
    ensures Levels(ColumnWrites(d1, d2, brightness, c), EN) == if c >= brightness then [true] else []
  {
    ColumnSplit(d1, d2, brightness, c, EN);
    EnableLevels(c, brightness, EN);
    ShiftLevels(d1[2 * c], d2[2 * c], EN);
    ShiftLevels(d1[2 * c + 1], d2[2 * c + 1], EN);
  }

  /** The EN level one byte column leaves: high from column `brightness` on, else unchanged. */
  lemma ColumnKeepsEnable(d1: seq<bool>, d2: seq<bool>, brightness: int, c: int, init: bool)
    requires |d1| == Shifts && |d2| == Shifts && 0 <= c < ColumnBytes
    ensures LastLevel(ColumnWrites(d1, d2, brightness, c), EN, init) == (c >= brightness || init)
  {
    var en, s0, s1 := EnableWrites(c, brightness), ShiftAt(d1, d2, 2 * c), ShiftAt(d1, d2, 2 * c + 1);
    assert ColumnWrites(d1, d2, brightness, c) == en + (s0 + s1);
    var e := LastLevel(en, EN, init);
    assert e == (c >= brightness || init) by {
      WriteLevels(EN, true, EN, init);
    }
    LastLevelAppend(en, s0 + s1, EN, init);
    LastLevelAppend(s0, s1, EN, e);
    ShiftKeepsEnable(d1[2 * c], d2[2 * c], e);
    ShiftKeepsEnable(d1[2 * c + 1], d2[2 * c + 1], e);
  }

  /** The levels on pin `p` over byte columns 0 .. c: those over columns 0 .. c-1, then those of column `c`. */
  lemma ColumnsStep(d1: seq<bool>, d2: seq<bool>, brightness: int, c: nat, p: Pin)
    requires |d1| == Shifts && |d2| == Shifts && c < ColumnBytes
    ensures Levels(ColumnsWrites(d1, d2, brightness, c + 1), p) ==
      Levels(ColumnsWrites(d1, d2, brightness, c), p) + Levels(ColumnWrites(d1, d2, brightness, c), p)
  {
    LevelsAppend(ColumnsWrites(d1, d2, brightness, c), ColumnWrites(d1, d2, brightness, c), p);
  }

  /** The raw row a data line carries during scan row `row`: R1 the top half's `row`, R2 the bottom half's `row + 16`. */
  function LineRow(row: int, p: Pin): int
  {
    if p == R2 then row + 16 else row
  }

  /** The levels a data line is given: R1 gets `d1`, R2 gets `d2`. */
  function DataLine(d1: seq<bool>, d2: seq<bool>, p: Pin): seq<bool>
  {
    if p == R2 then d2 else d1
  }

  /** Proof helper for the data-line lemmas: extending a prefix of `d` by two elements. */
  lemma SliceStep(d: seq<bool>, c: nat)
    requires 2 * c + 2 <= |d|
    ensures d[..2 * c + 2] == d[..2 * c] + [d[2 * c], d[2 * c + 1]]
  {
  }

  /** The levels on data line `p` over byte columns 0 .. n-1: its levels for shifts 0 .. 2n-1, in order. */
  lemma {:induction false} ColumnsData(d1: seq<bool>, d2: seq<bool>, brightness: int, n: nat, p: Pin)
    requires |d1| == Shifts && |d2| == Shifts && n <= ColumnBytes
    requires p == R1 || p == R2
    ensures Levels(ColumnsWrites(d1, d2, brightness, n), p) == DataLine(d1, d2, p)[..2 * n]
  {
    if n > 0 {
      var c := n - 1;
      var d := DataLine(d1, d2, p);
      var prev := Levels(ColumnsWrites(d1, d2, brightness, c), p);
      var last := Levels(ColumnWrites(d1, d2, brightness, c), p);
      assert Levels(ColumnsWrites(d1, d2, brightness, n), p) == prev + last by {
        ColumnsStep(d1, d2, brightness, c, p);
      }
      assert prev == d[..2 * c] by {
        ColumnsData(d1, d2, brightness, c, p);
      }
      assert last == [d[2 * c], d[2 * c + 1]] by {
        ColumnData(d1, d2, brightness, c, p);
      }
      SliceStep(d, c);
    }
  }

  /** `m` clock pulses: high, low, `m` times. */
  function Pulses(m: nat): (ps: seq<bool>)
    ensures |ps| == 2 * m
  {
    if m == 0 then [] else Pulses(m - 1) + [true, false]
  }

  /** In `m` pulses the clock is high at the even steps and low at the odd ones. */
  lemma {:induction false} PulsesAlternate(m: nat)
    ensures forall k :: 0 <= k < 2 * m ==> Pulses(m)[k] == (k % 2 == 0)
  {
    if m > 0 {
      PulsesAlternate(m - 1);
      var ps := Pulses(m);
      assert ps == Pulses(m - 1) + [true, false];
      forall k | 0 <= k < 2 * m
        ensures ps[k] == (k % 2 == 0)
      {
        if k < 2 * m - 2 {
          assert ps[k] == Pulses(m - 1)[k];
        }
      }
    }
  }

  /** The clock levels over byte columns 0 .. n-1: two pulses per column. */
  lemma {:induction false} ColumnsClock(d1: seq<bool>, d2: seq<bool>, brightness: int, n: nat)
    requires |d1| == Shifts && |d2| == Shifts && n <= ColumnBytes
    ensures Levels(ColumnsWrites(d1, d2, brightness, n), SK) == Pulses(2 * n)
  {
    if n > 0 {
      var c := n - 1;
      var prev := Pulses(2 * c);
      assert Levels(ColumnsWrites(d1, d2, brightness, n), SK) == prev + [true, false, true, false] by {
        ColumnsStep(d1, d2, brightness, c, SK);
        ColumnClock(d1, d2, brightness, c);
        ColumnsClock(d1, d2, brightness, c);
      }
      assert Pulses(2 * n) == prev + [true, false, true, false] by {
        assert Pulses(2 * c + 1) == prev + [true, false];
      }
    }
  }

  /** The EN writes of byte columns 0 .. n-1: one, high, for each column at or past `brightness`. */
  lemma {:induction false} ColumnsEnable(d1: seq<bool>, d2: seq<bool>, brightness: int, n: nat)
    requires |d1| == Shifts && |d2| == Shifts && n <= ColumnBytes
    requires 0 <= brightness
    ensures |Levels(ColumnsWrites(d1, d2, brightness, n), EN)| == if n <= brightness then 0 else n - brightness
    ensures forall k :: 0 <= k < |Levels(ColumnsWrites(d1, d2, brightness, n), EN)| ==>
      Levels(ColumnsWrites(d1, d2, brightness, n), EN)[k]
  {
    if n > 0 {
      var c := n - 1;
      var ls := Levels(ColumnsWrites(d1, d2, brightness, n), EN);
      var prev := Levels(ColumnsWrites(d1, d2, brightness, c), EN);
      ColumnsStep(d1, d2, brightness, c, EN);
      ColumnEnable(d1, d2, brightness, c);
      assert ls == prev + (if c >= brightness then [true] else []);
      ColumnsEnable(d1, d2, brightness, c);
    }
  }

  /** Started with EN low, after byte columns 0 .. n-1 the display is off (EN high) exactly when column `n - 1` is at or past `brightness`. */
  lemma {:induction false} ColumnsEnableState(d1: seq<bool>, d2: seq<bool>, brightness: int, n: nat)
    requires |d1| == Shifts && |d2| == Shifts && 1 <= n <= ColumnBytes
    ensures LastLevel(ColumnsWrites(d1, d2, brightness, n), EN, false) == (n - 1 >= brightness)
  {
    var c := n - 1;
    var e := LastLevel(ColumnsWrites(d1, d2, brightness, c), EN, false);
    assert LastLevel(ColumnsWrites(d1, d2, brightness, n), EN, false)
        == LastLevel(ColumnWrites(d1, d2, brightness, c), EN, e) by {
      LastLevelAppend(ColumnsWrites(d1, d2, brightness, c), ColumnWrites(d1, d2, brightness, c), EN, false);
    }
    if c > 0 {
      ColumnsEnableState(d1, d2, brightness, c);
    } else {
      assert e == LastLevelTo([], EN, false, 0);
    }
    ColumnKeepsEnable(d1, d2, brightness, c, e);
  }

  /** Setting the address lines touches neither the data, clock nor enable lines. */
  lemma AddressLevels(a0: bool, a1: bool, a2: bool, a3: bool, p: Pin)
    requires p == R1 || p == R2 || p == SK || p == EN
    ensures Levels(Address(a0, a1, a2, a3), p) == []
  {
    var w0, w1, w2, w3 := WriteOne(LA, a0), WriteOne(LB, a1), WriteOne(LC, a2), WriteOne(LD, a3);
    assert Levels(w0, p) == [] && Levels(w1, p) == [] && Levels(w2, p) == [] && Levels(w3, p) == [] by {
      WriteLevels(LA, a0, p, false);
      WriteLevels(LB, a1, p, false);
      WriteLevels(LC, a2, p, false);
      WriteLevels(LD, a3, p, false);
    }
    LevelsAppend(w0 + w1 + w2, w3, p);
    LevelsAppend(w0 + w1, w2, p);
    LevelsAppend(w0, w1, p);
  }

  /** The latch sequence touches neither the data nor the clock lines, and writes EN once, low. */
  lemma LatchLevels(a0: bool, a1: bool, a2: bool, a3: bool, p: Pin)
    requires p == R1 || p == R2 || p == SK || p == EN
    ensures Levels(Latch(a0, a1, a2, a3), p) == if p == EN then [false] else []
  {
    var lo, ad, hi, en := WriteOne(LT, false), Address(a0, a1, a2, a3), WriteOne(LT, true), WriteOne(EN, false);
    assert Latch(a0, a1, a2, a3) == lo + ad + hi + en;
    assert Levels(lo, p) == [] && Levels(ad, p) == [] && Levels(hi, p) == [] by {
      WriteLevels(LT, false, p, false);
      AddressLevels(a0, a1, a2, a3, p);
      WriteLevels(LT, true, p, false);
    }
    assert Levels(en, p) == if p == EN then [false] else [] by {
      WriteLevels(EN, false, p, false);
    }
    LevelsAppend(lo + ad + hi, en, p);
    LevelsAppend(lo + ad, hi, p);
    LevelsAppend(lo, ad, p);
  }

  /** Over a whole row, each data line is given exactly its 128 levels, in order. */
  lemma RowLevelsData(d1: seq<bool>, d2: seq<bool>, row: nat, brightness: int, p: Pin)
    requires |d1| == Shifts && |d2| == Shifts
    requires p == R1 || p == R2
    ensures Levels(RowTrace(d1, d2, row, brightness), p) == DataLine(d1, d2, p)
  {
    var cs := Levels(ColumnsWrites(d1, d2, brightness, ColumnBytes), p);
    assert Levels(RowTrace(d1, d2, row, brightness), p) == cs by {
      LevelsAppend(ColumnsWrites(d1, d2, brightness, ColumnBytes), LatchWrites(row), p);
      LatchLevels(RowBit(row, 0), RowBit(row, 1), RowBit(row, 2), RowBit(row, 3), p);
    }
    ColumnsData(d1, d2, brightness, ColumnBytes, p);
    assert DataLine(d1, d2, p)[..Shifts] == DataLine(d1, d2, p);
  }

  /**
   * The data clocked into the panel by one `UpdateRow`: 128 shifts, and on
   * shifts `2 * col` and `2 * col + 1` R1 carries bit `plane` of the low and
   * then the high nibble of byte `[row][col]`, R2 the same for byte
   * `[row + 16][col]`.
   */
  lemma RowData(buf: seq<byte>, row: int, plane: int, brightness: int, p: Pin)
    requires |buf| == RawSize && 0 <= row < ScanRows && 0 <= plane < BitPlanes
    requires p == R1 || p == R2
    ensures |Levels(UpdateTrace(buf, row, plane, brightness), p)| == Shifts
    ensures forall col, high :: 0 <= col < ColumnBytes ==>
      Levels(UpdateTrace(buf, row, plane, brightness), p)[2 * col + (if high then 1 else 0)]
        == DotBit(buf, LineRow(row, p), plane, col, high)
  {
    var y := LineRow(row, p);
    var ls := Levels(UpdateTrace(buf, row, plane, brightness), p);
    assert ls == RowBits(buf, y, plane) by {
      RowLevelsData(RowBits(buf, row, plane), RowBits(buf, row + 16, plane), row, brightness, p);
    }
    forall col, high | 0 <= col < ColumnBytes
      ensures ls[2 * col + (if high then 1 else 0)] == DotBit(buf, y, plane, col, high)
    {
      RowBitsToAt(buf, y, plane, ColumnBytes, col, if high then 1 else 0);
    }
  }

  /** The clock of one `UpdateRow`: it goes high and then low once per shift, 128 times. */
  lemma RowClock(d1: seq<bool>, d2: seq<bool>, row: nat, brightness: int)
    requires |d1| == Shifts && |d2| == Shifts
    ensures |Levels(RowTrace(d1, d2, row, brightness), SK)| == 2 * Shifts
    ensures forall k :: 0 <= k < 2 * Shifts ==> Levels(RowTrace(d1, d2, row, brightness), SK)[k] == (k % 2 == 0)
  {
    var cs := Levels(ColumnsWrites(d1, d2, brightness, ColumnBytes), SK);
    assert Levels(RowTrace(d1, d2, row, brightness), SK) == cs by {
      LevelsAppend(ColumnsWrites(d1, d2, brightness, ColumnBytes), LatchWrites(row), SK);
      LatchLevels(RowBit(row, 0), RowBit(row, 1), RowBit(row, 2), RowBit(row, 3), SK);
    }
    ColumnsClockAlternate(d1, d2, brightness, ColumnBytes);
  }

  /** The clock over byte columns 0 .. n-1 is high at the even writes and low at the odd ones, 4n writes in all. */
  lemma ColumnsClockAlternate(d1: seq<bool>, d2: seq<bool>, brightness: int, n: nat)
    requires |d1| == Shifts && |d2| == Shifts && n <= ColumnBytes
    ensures |Levels(ColumnsWrites(d1, d2, brightness, n), SK)| == 4 * n
    ensures forall k :: 0 <= k < 4 * n ==> Levels(ColumnsWrites(d1, d2, brightness, n), SK)[k] == (k % 2 == 0)
  {
    ColumnsClock(d1, d2, brightness, n);
    PulsesAlternate(2 * n);
  }

  /**
   * Output-enable control of one `UpdateRow`, started with the display enabled
   * (EN low): after the writes of byte columns 0 .. n-1 the display is off (EN
   * high) exactly when column `n - 1` is at or past `brightness`; EN is written
   * high once for each of the `64 - brightness` such columns and low once at the
   * very end.
   */
  lemma RowEnable(d1: seq<bool>, d2: seq<bool>, row: nat, brightness: int)
    requires |d1| == Shifts && |d2| == Shifts
    requires 0 <= brightness <= 63
    ensures forall n :: 1 <= n <= ColumnBytes ==>
      LastLevel(ColumnsWrites(d1, d2, brightness, n), EN, false) == (n - 1 >= brightness)
    ensures |Levels(RowTrace(d1, d2, row, brightness), EN)| == ColumnBytes - brightness + 1
    ensures forall k :: 0 <= k < ColumnBytes - brightness ==> Levels(RowTrace(d1, d2, row, brightness), EN)[k]
    ensures !Levels(RowTrace(d1, d2, row, brightness), EN)[ColumnBytes - brightness]
  {
    forall n | 1 <= n <= ColumnBytes
      ensures LastLevel(ColumnsWrites(d1, d2, brightness, n), EN, false) == (n - 1 >= brightness)
    {
      ColumnsEnableState(d1, d2, brightness, n);
    }
    var cs := Levels(ColumnsWrites(d1, d2, brightness, ColumnBytes), EN);
    assert Levels(RowTrace(d1, d2, row, brightness), EN) == cs + [false] by {
      LevelsAppend(ColumnsWrites(d1, d2, brightness, ColumnBytes), LatchWrites(row), EN);
      LatchLevels(RowBit(row, 0), RowBit(row, 1), RowBit(row, 2), RowBit(row, 3), EN);
    }
    ColumnsEnable(d1, d2, brightness, ColumnBytes);
  }

  /**
   * The row address: the last seven writes of `UpdateRow` are latch low, the
   * four address lines carrying bits 0..3 of `row` (so together they spell
   * `row` in binary), latch high and EN low.
   */
  lemma RowAddress(d1: seq<bool>, d2: seq<bool>, row: nat, brightness: int)
    requires |d1| == Shifts && |d2| == Shifts && row < ScanRows
    ensures var t := RowTrace(d1, d2, row, brightness);
      && |t| >= 7
      && t[|t| - 7] == PinWrite(LT, false)
      && t[|t| - 6].pin == LA && t[|t| - 5].pin == LB && t[|t| - 4].pin == LC && t[|t| - 3].pin == LD
      && (if t[|t| - 6].high then 1 else 0) + (if t[|t| - 5].high then 2 else 0)
         + (if t[|t| - 4].high then 4 else 0) + (if t[|t| - 3].high then 8 else 0) == row
      && t[|t| - 2] == PinWrite(LT, true)
      && t[|t| - 1] == PinWrite(EN, false)
  {
    var t := RowTrace(d1, d2, row, brightness);
    var l := LatchWrites(row);
    assert l == [PinWrite(LT, false), PinWrite(LA, RowBit(row, 0)), PinWrite(LB, RowBit(row, 1)), PinWrite(LC, RowBit(row, 2)),
                 PinWrite(LD, RowBit(row, 3)), PinWrite(LT, true), PinWrite(EN, false)];
    assert t[|t| - 7..] == l;
  }

  // ---------------------------------------------------------------------------
  // The driver object
  // ---------------------------------------------------------------------------

  class Dmd {
    /** `buffer1` and `buffer2`, each a raw frame of 32 rows of 128 bytes. */
    var buffers: seq<seq<byte>>
    /** Indices 0 (`buffer1`) or 1 (`buffer2`) standing for the three buffer pointers. */
    var bufferActive: int
    var bufferInactive: int
    var bufferInUse: int
    var frame: int
    var row: int
    var brightness: int
    var active: bool
    /** Whether the refresh interval timer is running, and its period in microseconds. */
    var timerArmed: bool
    var timerPeriod: int
    /** Every pin write so far. */
    var pins: seq<PinWrite>

    /** Two raw buffers, three pointers into them with the published and scratch ones distinct, and the scan position and brightness in range. */
    ghost predicate Valid()
      reads this`buffers, this`bufferActive, this`bufferInactive, this`bufferInUse, this`row, this`frame, this`brightness
    {
      && |buffers| == 2
      && |buffers[0]| == RawSize && |buffers[1]| == RawSize
      && 0 <= bufferActive < 2 && 0 <= bufferInactive < 2 && 0 <= bufferInUse < 2
      && bufferActive != bufferInactive
      && ValidPos(ScanPos(row, frame))
      && 0 <= brightness <= 63
    }

    /** The scan position held in `row` and `frame`. */
    function Pos(): ScanPos
      reads this`row, this`frame
    {
      ScanPos(row, frame)
    }

    /** The single instance is a global, so its buffers start zeroed. */
    constructor ()
      ensures Valid()
      ensures buffers == [seq(RawSize, _ => 0), seq(RawSize, _ => 0)]
      ensures bufferActive == 0 && bufferInactive == 1 && bufferInUse == 0
      ensures frame == 0 && row == 0 && !active && brightness == 0
      ensures !timerArmed && pins == []
    {
      buffers := [seq(RawSize, _ => 0), seq(RawSize, _ => 0)];
      bufferActive := 0;
      bufferInactive := 1;
      bufferInUse := 0;
      frame := 0;
      row := 0;
      active := false;
      brightness := 0;
      timerArmed := false;
      timerPeriod := 0;
      pins := [];
    }

    /** Sets the refresh running and arms the timer for 1 microsecond. */
    method Start()
      requires Valid()
      modifies this
      ensures Valid()
      ensures active && timerArmed && timerPeriod == 1
      ensures buffers == old(buffers) && bufferActive == old(bufferActive) && bufferInactive == old(bufferInactive)
      ensures bufferInUse == old(bufferInUse) && Pos() == old(Pos()) && brightness == old(brightness) && pins == old(pins)
    {
      active := true;
      timerArmed := true;
      timerPeriod := 1;
    }

    /** Only clears the flag: the pending tick still runs, and then does not re-arm the timer. */
    method Stop()
      requires Valid()
      modifies this`active
      ensures Valid() && !active
    {
      active := false;
    }

    function IsActive(): (r: bool)
      reads this
    {
      active
    }

    /** Accepts and stores `set` exactly when it is in [0, 63]; otherwise returns false and keeps the brightness. */
    method SetBrightness(level: int) returns (ret: bool)
      requires Valid()
      modifies this`brightness
      ensures Valid()
      ensures ret <==> 0 <= level <= 63
      ensures brightness == if ret then level else old(brightness)
    {
      if level < 0 || level > 63 {
        ret := false;
      } else {
        brightness := level;
        ret := true;
      }
    }

    /** The stored brightness, which `SetBrightness` keeps within [0, 63]. */
    function GetBrightness(): (level: int)
      requires Valid()
      reads this
      ensures 0 <= level <= 63
    {
      brightness
    }

    /** The condition on which `WaitSync`'s busy-wait ends: the buffer being scanned is not the scratch buffer. */
    predicate SyncReached()
      reads this
    {
      bufferInUse != bufferInactive
    }

    /**
     * Copies the frame into the scratch (inactive) buffer, then exchanges the
     * published and scratch pointers. The buffer being scanned is overwritten
     * only when it is the scratch buffer, which is excluded once `SyncReached`.
     */
    method SetFrame(source: DmdFrame)
      requires Valid() && source.Valid()
      modifies this
      ensures Valid()
      ensures buffers == old(buffers)[old(bufferInactive) := source.dots[..]]
      ensures bufferActive == old(bufferInactive) && bufferInactive == old(bufferActive)
      ensures buffers[bufferActive] == source.dots[..]
      ensures bufferInUse == old(bufferInUse) && Pos() == old(Pos())
      ensures brightness == old(brightness) && active == old(active) && pins == old(pins)
      ensures timerArmed == old(timerArmed) && timerPeriod == old(timerPeriod)
      ensures old(SyncReached()) ==> buffers[bufferInUse] == old(buffers[bufferInUse])
    {
      buffers := buffers[bufferInactive := source.dots[..]];
      var bufferTemp := bufferActive;
      bufferActive := bufferInactive;
      bufferInactive := bufferTemp;
    }

    /**
     * Returns true once `SyncReached` holds; the busy-wait before that point,
     * during which only the refresh interrupt can change the state, is not part
     * of this model, so the call is modelled from the state in which the loop
     * exits. `timeout` is ignored.
     */
    method WaitSync(timeout: u32) returns (r: bool)
      requires Valid() && SyncReached()
      ensures r
    {
      r := true;
    }

    /**
     * One refresh tick's row output: shifts the 128 columns of scan row `row`
     * of bit-plane `frame` from the in-use buffer, latches the row address,
     * returns the bit-plane's dwell, advances the scan position and, only when
     * the full frame wraps, adopts the published buffer.
     */
    method UpdateRow() returns (ret: int)
      requires Valid()
      modifies this`pins, this`row, this`frame, this`bufferInUse
      ensures Valid()
      ensures pins == old(pins) + UpdateTrace(buffers[old(bufferInUse)], old(row), old(frame), brightness)
      ensures ret == Dwell(old(frame))
      ensures Pos() == NextPos(old(Pos()))
      ensures bufferInUse == if Wraps(old(Pos())) then bufferActive else old(bufferInUse)
    {
      OutputRow();
      ret := DwellOf(frame);
      NextRow();
    }

    /** The pin output of `UpdateRow`: the 64 byte columns of the current scan row from the in-use buffer, then the latch sequence. */
    method OutputRow()
      requires Valid()
      modifies this`pins
      ensures pins == old(pins) + UpdateTrace(buffers[bufferInUse], row, frame, brightness)
    {
      var buf := buffers[bufferInUse];
      ghost var d1, d2 := RowBits(buf, row, frame), RowBits(buf, row + 16, frame);
      ghost var t0 := pins;
      ShiftRow(buf, d1, d2);
      ghost var t1 := pins;
      LatchRow();
      UpdateTraceSplit(t0, t1, pins, buf, row, frame, brightness, d1, d2);
    }

    /** `buf` is a raw frame and the scan position is in range, so scan row `row` of bit-plane `frame` can be read from it. */
    predicate Scanning(buf: seq<byte>)
      reads this`row, this`frame
    {
      |buf| == RawSize && 0 <= row < ScanRows && 0 <= frame < BitPlanes
    }

    /** The column loop of `UpdateRow`: the 64 byte columns of scan row `row` of bit-plane `frame` of `buf`, in order. */
    method ShiftRow(buf: seq<byte>, ghost d1: seq<bool>, ghost d2: seq<bool>)
      requires Scanning(buf) && d1 == RowBits(buf, row, frame) && d2 == RowBits(buf, row + 16, frame)
      modifies this`pins
      ensures pins == old(pins) + ColumnsWrites(d1, d2, brightness, ColumnBytes)
    {
      var col := 0;
      while col < ColumnBytes
        invariant 0 <= col <= ColumnBytes
        invariant pins == old(pins) + ColumnsWrites(d1, d2, brightness, col)
      {
        ghost var t1 := pins;
        ShiftColumn(buf, col, d1, d2);
        ColumnsWritesStep(old(pins), t1, pins, d1, d2, brightness, col);
        col := col + 1;
      }
    }

    /** The dwell `switch` of `UpdateRow`: 1, 2, 30 and 45 for bit-planes 0 to 3, and the `default` label shared with 0. */
    static method DwellOf(frame: int) returns (ret: int)
      ensures ret == Dwell(frame)
    {
      if frame == 1 {
        ret := 2;
      } else if frame == 2 {
        ret := 30;
      } else if frame == 3 {
        ret := 45;
      } else {
        ret := 1;
      }
    }

    /** The step at the end of `UpdateRow`: next row, wrapping into the next bit-plane, and at the full-frame wrap the published buffer becomes the one in use. */
    method NextRow()
      requires Valid()
      modifies this`row, this`frame, this`bufferInUse
      ensures Valid()
      ensures Pos() == NextPos(old(Pos()))
      ensures bufferInUse == if Wraps(old(Pos())) then bufferActive else old(bufferInUse)
    {
      row := row + 1;
      if row == ScanRows {
        row := 0;
        frame := frame + 1;
        if frame == BitPlanes {
          frame := 0;
          bufferInUse := bufferActive;
        }
      }
    }

    /** The body of `UpdateRow`'s column loop: EN high from column `brightness` on, then the two shifts of byte column `col`. */
    method ShiftColumn(buf: seq<byte>, col: int, ghost d1: seq<bool>, ghost d2: seq<bool>)
      requires Scanning(buf) && 0 <= col < ColumnBytes && d1 == RowBits(buf, row, frame) && d2 == RowBits(buf, row + 16, frame)
      modifies this`pins
      ensures pins == old(pins) + ColumnWrites(d1, d2, brightness, col)
    {
      if col >= brightness {
        pins := pins + [PinWrite(EN, true)];
      }
      ghost var start := pins;
      assert start == old(pins) + EnableWrites(col, brightness);
      var colBit := 0;
      while colBit < 2
        invariant 0 <= colBit <= 2
        invariant pins == start + ShiftsUpTo(d1, d2, col, colBit)
      {
        ghost var t1 := pins;
        ShiftBit(buf, col, colBit, d1, d2);
        ShiftsUpToStep(d1, d2, col, colBit);
        AppendThen(start, t1, pins, ShiftsUpTo(d1, d2, col, colBit), ShiftAt(d1, d2, 2 * col + colBit), ShiftsUpTo(d1, d2, col, colBit + 1));
        colBit := colBit + 1;
      }
      AppendThen(old(pins), start, pins, EnableWrites(col, brightness), ShiftsUpTo(d1, d2, col, 2), ColumnWrites(d1, d2, brightness, col));
    }

    /** One pass of the inner loop: bit `frame` of the low (`colBit` 0) or high nibble of bytes `[row][col]` and `[row + 16][col]` clocked out. */
    method ShiftBit(buf: seq<byte>, col: int, colBit: int, ghost d1: seq<bool>, ghost d2: seq<bool>)
      requires Scanning(buf) && 0 <= col < ColumnBytes && 0 <= colBit < 2 && d1 == RowBits(buf, row, frame) && d2 == RowBits(buf, row + 16, frame)
      modifies this`pins
      ensures pins == old(pins) + ShiftAt(d1, d2, 2 * col + colBit)
    {
      var data1 := Nibble(buf[RawIndex(col, row)], colBit % 2 == 1);
      var data2 := Nibble(buf[RawIndex(col, row + 16)], colBit % 2 == 1);
      ShiftOut(BitSet(data1, frame), BitSet(data2, frame));
      RowBitsAt(buf, row, frame, col, colBit);
      RowBitsAt(buf, row + 16, frame, col, colBit);
    }

    /** One clock pulse: clock high, the two data lines, clock low. */
    method ShiftOut(r1: bool, r2: bool)
      modifies this`pins
      ensures pins == old(pins) + Shift(r1, r2)
    {
      pins := pins + [PinWrite(SK, true)];
      pins := pins + [PinWrite(R1, r1)];
      pins := pins + [PinWrite(R2, r2)];
      pins := pins + [PinWrite(SK, false)];
    }

    /** The end of `UpdateRow`'s output: latch low, row address, latch high, display enabled. */
    method LatchRow()
      requires 0 <= row
      modifies this`pins
      ensures pins == old(pins) + LatchWrites(row)
    {
      pins := pins + [PinWrite(LT, false)];
      pins := pins + [PinWrite(LA, RowBit(row, 0))];
      pins := pins + [PinWrite(LB, RowBit(row, 1))];
      pins := pins + [PinWrite(LC, RowBit(row, 2))];
      pins := pins + [PinWrite(LD, RowBit(row, 3))];
      pins := pins + [PinWrite(LT, true)];
      pins := pins + [PinWrite(EN, false)];
    }

    /** The interrupt handler: stops the timer, updates a row, and re-arms the timer with the returned dwell only while the display is active. */
    method IsrDmd()
      requires Valid()
      modifies this`pins, this`row, this`frame, this`bufferInUse, this`timerArmed, this`timerPeriod
      ensures Valid()
      ensures pins == old(pins) + UpdateTrace(buffers[old(bufferInUse)], old(row), old(frame), brightness)
      ensures Pos() == NextPos(old(Pos()))
      ensures bufferInUse == if Wraps(old(Pos())) then bufferActive else old(bufferInUse)
      ensures timerArmed == active
      ensures active ==> timerPeriod == Dwell(old(frame))
    {
      timerArmed := false;
      var isrDelay := UpdateRow();
      if active {
        timerArmed := true;
        timerPeriod := isrDelay;
      }
    }
  }
}
