# DotClk core, modelled in Dafny

DotClk is firmware for a clock on a 128 x 32 dot-matrix display (DMD) with
sixteen grey levels. This project models its core and proves properties of
that model:

- **the refresh engine** (`Dmd`, module `Dmds`): a timer interrupt scans one row
  of one bit-plane per tick, clocks 128 dots onto the panel's two data lines,
  latches the row address and waits a dwell time that depends on the bit-plane.
  Frames are handed over through two raw buffers: one published, one scratch.
- **the frame grid** (`DmdFrame`, module `DmdFrames`): 128 x 32 cells of four
  bits, with a masked rectangle blit from a dotmap.
- **packed bitmaps** (`Dotmap`, module `Dotmaps`): two 4-bit dots per byte and a
  1-bit transparency mask per pixel.
- **fonts** (`Font`, module `Fonts`): a character table (code, width, kerning)
  over a horizontal strip of glyphs, and the rendering of a string into a
  dotmap, with per-character blanking.
- **scene playback** (`Scene`, module `Scenes`): a state machine over stored
  frames with optional blank first and last frames.
- **the push button** (`Button`, module `Buttons`): a debouncer reporting
  OFF, RISING, ON and ON_HOLD.
- **the colour cycler** (`ColourControl`, module `ColourControls`): a fixed
  colour, or a timer interrupt stepping through seven colours.
- **the settings store** (`Config`, module `Configs`): a record behind a count
  header in EEPROM.

Each class of the firmware is a Dafny `class` with its fields. Each
operation that changes state is a `method`, proved against specification
functions. Lemmas then prove what the firmware promises about those
functions.

The hardware becomes values:

- Pin writes are appended to a trace of `PinWrite` events.
- Timers are a flag plus a period.
- The pin level and the millisecond clock are parameters of `Button.Read`.
- The display's colour setter is a sink recording what it is given.
- The EEPROM is a byte array.
- The frame read from a scene file is a `Dotmap` parameter.

Bytes are `bv8`, and 16- and 32-bit unsigned values are subset types of `int`.
Wrap-around is written out where the source relies on it: the 16-bit width
accumulator of `GetCharOffset` and the 32-bit `millis()` difference.

`DmdFrameRaw.h` is not part of this model. It is read as 32 rows of 128
bytes, because `DmdFrame` indexes it as `[y][x]` with `x < 128` and `Dmd`
indexes it as `[row][col]` with `col < 64`. Each of the two indexings is
modelled as written; no end-to-end pixel claim through the display is made.

## Model

| member | source | states |
|---|---|---|
| Dmds.Dmd.constructor | Dmd.cpp:17-32 | The active and in-use pointers both name `buffer1` and the inactive one `buffer2`; the scan position is (0, 0); the display is inactive, brightness 0, no timer armed, no pin written. |
| Dmds.Dmd.Start | Dmd.cpp:76-81 | Sets the flag and arms the timer for one microsecond; buffers, pointers, position, brightness and pins unchanged. |
| Dmds.Dmd.Stop | Dmd.cpp:86-90 | Only clears the active flag. |
| Dmds.Dmd.IsActive | Dmd.cpp:95-98 | The running flag: true after `Start`, false after `Stop` and on construction. |
| Dmds.Dmd.GetBrightness | Dmd.cpp:126-129 | The brightness held, always within 0..63, the range `SetBrightness` accepts. |
| Dmds.Dmd.SetBrightness | Dmd.cpp:103-121 | Succeeds exactly when the level is in 0..63, storing it; otherwise returns false and keeps the old brightness. |
| Dmds.Dmd.SetFrame | Dmd.cpp:134-145 | Copies the frame into the inactive buffer only, then swaps active and inactive. The in-use pointer, the scan position and everything else are untouched. When the wait condition held before the call, the buffer being scanned is unchanged. |
| Dmds.Dmd.SyncReached | Dmd.cpp:153 | The busy-wait's exit: the buffer being scanned is not the scratch buffer, i.e. the last frame published has been picked up. |
| Dmds.Dmd.WaitSync | Dmd.cpp:150-159 | Called once its exit condition holds (the buffer being scanned is not the inactive one), it ignores the timeout and returns true. |
| Dmds.Dmd.UpdateRow | Dmd.cpp:189-282 | Appends exactly the pin trace of one scan row of the in-use buffer. Returns the dwell of the bit-plane scanned, taken before the step. Steps the position. Re-selects the in-use buffer, as the published one, only at the full-frame wrap. |
| Dmds.Dmd.OutputRow | Dmd.cpp:196-239 | The pin output of a row: the 64 column writes, then the latch sequence. |
| Dmds.UpdateTraceSplit | Dmd.cpp:196-239 | A row update's writes are those of its 64 byte columns followed by its latch sequence. |
| Dmds.Dmd.ShiftRow | Dmd.cpp:196-224 | The column loop appends the writes of byte columns 0..63 in order. R1 levels come from raw row `row`, R2 levels from raw row `row + 16`. |
| Dmds.ColumnsWritesStep | Dmd.cpp:196-224 | Each pass of the column loop appends the writes of the next byte column after those of the columns before it. |
| Dmds.Dmd.ShiftColumn | Dmd.cpp:199-223 | One byte column: EN high when the column is at or past the brightness, then its two shifts. |
| Dmds.Dmd.ShiftBit | Dmd.cpp:204-222 | One shift: clock high, R1 and R2 given bit `frame` of the selected nibble of bytes `[row][col]` and `[row+16][col]`, then clock low. |
| Dmds.Dmd.ShiftOut | Dmd.cpp:214-222 | A clock pulse writes SK high, R1, R2, then SK low. |
| Dmds.Dmd.LatchRow | Dmd.cpp:226-239 | Latch low, the row's bits 0..3 on LA..LD, latch high, EN low. |
| Dmds.Dmd.DwellOf | Dmd.cpp:242-260 | Dwell 1, 2, 30, 45 for bit-planes 0..3; any other value takes the `default` label shared with 0. |
| Dmds.Dmd.NextRow | Dmd.cpp:262-279 | The row advances and wraps into the next bit-plane, and the bit-plane wraps at 4. Only on the wrap of both does the published buffer become the one in use. |
| Dmds.Dmd.IsrDmd | Dmd.cpp:164-179 | Performs one row update. The timer is re-armed, with that row's dwell, exactly when the display is active. |
| Dmds.NextPos | Dmd.cpp:262-279 | A step stays in rows 0..15 and bit-planes 0..3, and returns to (0, 0) exactly at the full-frame wrap. |
| Dmds.NextLinear | Dmd.cpp:262-279 | A step adds one to the tick number within a full frame, or goes to 0 at the wrap. |
| Dmds.AdvanceLinear | Dmd.cpp:262-279 | Before the wrap, `n` steps add `n` to the tick number. |
| Dmds.LinearInjective | Dmd.cpp:262-279 | A valid position is determined by its tick number. |
| Dmds.AdvanceSplit | Dmd.cpp:262-279 | `a + b` steps are `a` steps followed by `b` steps. |
| Dmds.WrapPoint | Dmd.cpp:262-279 | Exactly `64 - tick` steps from any position reach tick 0. |
| Dmds.AdvanceCycle | Dmd.cpp:262-279 | Up to 64 steps move the tick number around the 64-tick cycle, wrapping once. |
| Dmds.FullFrameReturns | Dmd.cpp:262-279 | From any position, 64 calls return to that position. |
| Dmds.FullFrameDistinct | Dmd.cpp:262-279 | From any position, 64 calls visit 64 different (row, bit-plane) pairs. |
| Dmds.TicksBetween | Dmd.cpp:262-279 | The distance from one position to another is below 64 calls. |
| Dmds.ScanReaches | Dmd.cpp:262-279 | Every (row, bit-plane) pair is scanned within the next 64 calls, after `TicksBetween` of them. |
| Dmds.WrapWithinFrame | Dmd.cpp:270-278 | Within 64 calls the full-frame wrap happens, so the published buffer is adopted. No earlier call in between wraps. |
| Dmds.WrapsLast | Dmd.cpp:270-278 | A tick finishes the full frame exactly when it is the 64th of the frame (row 15 of bit-plane 3). |
| Dmds.PlaneOfTick | Dmd.cpp:242-279 | From (0, 0), calls 0-15 scan bit-plane 0, 16-31 plane 1, 32-47 plane 2, 48-63 plane 3. |
| Dmds.DwellSumPlanes | Dmd.cpp:242-279 | Closed form of the dwell times of the first `n` calls of a full frame. |
| Dmds.FullFrameDwell | Dmd.cpp:242-279 | The dwells of one full frame sum to 16 * (1 + 2 + 30 + 45). |
| Dmds.RowBitsToAt | Dmd.cpp:202-219 | Shift `2*col + colBit` carries bit `frame` of the low (colBit 0) or high nibble of byte `[y][col]`. |
| Dmds.RowBitsAt | Dmd.cpp:202-219 | Over a whole row, shift `2*col + colBit` carries bit `frame` of that nibble of byte `[y][col]`. |
| Dmds.UniformBuffers | Dmd.cpp:208-219 | A buffer of 0 bytes drives every data bit low. A buffer of 15s drives the low-nibble shifts high and the high-nibble shifts low. |
| Dmds.ShiftsUpToStep | Dmd.cpp:202-223 | The inner loop appends one shift per pass, in column order. |
| Dmds.WriteLevels | Dmd.cpp:200-239 | A single pin write sets only its own pin. |
| Dmds.LevelsToPrefix | Dmd.cpp:196-239 | The levels a pin was given depend only on the writes so far. |
| Dmds.LevelsToAppend | Dmd.cpp:196-239 | The levels over a prefix that runs into a second trace are those of the first trace, then those of the second. |
| Dmds.LevelsAppend | Dmd.cpp:196-239 | A pin's levels over two traces in sequence are its levels in each, concatenated. |
| Dmds.LastLevelAppend | Dmd.cpp:196-239 | A pin's level after two traces is its level after the second, started from its level after the first. |
| Dmds.ShiftLevels | Dmd.cpp:214-222 | A shift writes SK high then low, R1 once, R2 once, and no other pin. |
| Dmds.ShiftKeepsEnable | Dmd.cpp:214-222 | A shift leaves EN as it was. |
| Dmds.ColumnSplit | Dmd.cpp:199-223 | A column's writes to a pin are its enable write, then its two shifts. |
| Dmds.EnableLevels | Dmd.cpp:199-200 | A column writes EN once, high, exactly when it is at or past the brightness. |
| Dmds.ColumnData | Dmd.cpp:202-219 | Byte column `c` gives a data line its levels for shifts `2c` and `2c + 1`. |
| Dmds.ColumnClock | Dmd.cpp:202-222 | Each byte column pulses the clock twice. |
| Dmds.ColumnEnable | Dmd.cpp:199-200 | A column writes EN high exactly when it is at or past the brightness. |
| Dmds.ColumnKeepsEnable | Dmd.cpp:199-223 | After a column, EN is high from the brightness column on, else unchanged. |
| Dmds.ColumnsStep | Dmd.cpp:196-224 | The column loop's writes grow one column at a time. |
| Dmds.ColumnsData | Dmd.cpp:196-224 | Over columns 0..n-1, a data line is given its first `2n` levels, in order. |
| Dmds.Pulses | Dmd.cpp:214-222 | `m` clock pulses are `2m` levels. |
| Dmds.PulsesAlternate | Dmd.cpp:214-222 | In a pulse train the clock is high at even steps and low at odd steps. |
| Dmds.ColumnsClock | Dmd.cpp:196-224 | The clock levels over `n` columns are `2n` pulses. |
| Dmds.ColumnsEnable | Dmd.cpp:196-200 | Over `n` columns, EN is written once per column at or past the brightness, always high. |
| Dmds.ColumnsEnableState | Dmd.cpp:196-200 | After `n` columns started with EN low, the display is off exactly when column `n - 1` is at or past the brightness. |
| Dmds.AddressLevels | Dmd.cpp:230-233 | Setting the address lines touches no data, clock or enable line. |
| Dmds.LatchLevels | Dmd.cpp:226-239 | The latch sequence writes EN once, low, and touches no data or clock line. |
| Dmds.RowLevelsData | Dmd.cpp:196-239 | Over a whole row update, each data line is given exactly its 128 levels, in order. |
| Dmds.RowData | Dmd.cpp:196-239 | For each column and nibble, a row update gives R1 bit `frame` of byte `[row][col]` and R2 that of `[row+16][col]`. |
| Dmds.RowClock | Dmd.cpp:196-239 | A row update pulses the clock 128 times, high then low. |
| Dmds.ColumnsClockAlternate | Dmd.cpp:196-224 | Over `n` columns the clock alternates high and low, `4n` writes in all. |
| Dmds.RowEnable | Dmd.cpp:196-239 | Across the row, the display turns off at the brightness column and stays off. A row writes EN high once per column at or past the brightness, then low once at the end. |
| Dmds.RowAddress | Dmd.cpp:226-239 | A row update ends with latch low, then LA..LD carrying the row number's bits 0..3, then latch high, then EN low. |
| DmdFrames.DmdFrame.constructor | DmdFrame.cpp:5-10 | A new frame is 128 x 32 with every cell 0. |
| DmdFrames.DmdFrame.CheckRange | DmdFrame.cpp:76-87 | True exactly when 0 ≤ x < width and 0 ≤ y < height. |
| DmdFrames.DmdFrame.GetDot | DmdFrame.cpp:12-22 | Reads a 4-bit cell; 0 outside the frame. |
| DmdFrames.DmdFrame.SetDot | DmdFrame.cpp:24-35 | In range, the cell then reads `v & 0x0F`. No other cell changes. Out of range, nothing changes. |
| DmdFrames.DmdFrame.Clear | DmdFrame.cpp:37-40 | Every cell reads `v & 0x0F`. |
| DmdFrames.DmdFrame.DotBlt | DmdFrame.cpp:42-66 | Each cell of the destination rectangle gets the source dot where the source mask bit is 0 and keeps its value where it is 1. Cells outside the rectangle are unchanged, and source pixels outside the dotmap change nothing. |
| DmdFrames.DmdFrame.BltColumn | DmdFrame.cpp:48-64 | The inner loop blits one destination column and changes no other cell. |
| DmdFrames.RawIndex | DmdFrame.cpp:21 | A `[y][x]` cell lies inside the 4096-byte raw buffer. |
| DmdFrames.RawIndexInjective | DmdFrame.cpp:21 | Distinct cells have distinct offsets. |
| Dotmaps.Dotmap.constructor | Dotmap.cpp:13-22 | An empty 0 x 0 dotmap. |
| Dotmaps.Dotmap.Create | Dotmap.cpp:63-81 | Sets the byte widths to the pixel width over 2 and over 8, rounded up, allocates fresh arrays, and zeroes every dot and mask bit. |
| Dotmaps.Dotmap.DotOffset | Dotmap.cpp:173 | The byte of an in-range dot is inside the dot array. |
| Dotmaps.Dotmap.MaskOffset | Dotmap.cpp:246 | The byte of an in-range mask bit is inside the mask array. |
| Dotmaps.Dotmap.GetDot | Dotmap.cpp:199-229 | Reads the pixel's nibble (below 16); 0 outside the dotmap. |
| Dotmaps.Dotmap.GetMask | Dotmap.cpp:268-291 | Reads the pixel's mask bit as 0 or 1; 1 outside the dotmap. |
| Dotmaps.Dotmap.SetDot | Dotmap.cpp:161-194 | In range, a read-modify-write of one byte: the pixel then reads `d & 0x0F`, and its byte's other nibble, every other byte and every other pixel keep their values. Out of range, a no-op. |
| Dotmaps.Dotmap.SetMask | Dotmap.cpp:234-263 | In range, the pixel's mask then reads 1 if `m` is non-zero, else 0. Every other bit keeps its value. Out of range, a no-op. |
| Dotmaps.Dotmap.Fill | Dotmap.cpp:312-315 | Every byte becomes `(d & 0x0F) \| (d << 4)`, so every in-range dot reads `d & 0x0F`. |
| Dotmaps.Dotmap.FillRect | Dotmap.cpp:320-323 | The rectangle overload has an empty body and changes nothing. |
| Dotmaps.Dotmap.ClearDots | Dotmap.cpp:328-331 | Zeroes the dots only. |
| Dotmaps.Dotmap.ClearMask | Dotmap.cpp:336-339 | Zeroes the mask only. |
| Dotmaps.Dotmap.SetDotsFromRaw | Dotmap.cpp:120-135 | Copies only when `len` is the size of the dot array, and returns false in every case. |
| Dotmaps.Dotmap.SetMaskFromRaw | Dotmap.cpp:140-156 | Copies only when `len` is the size of the mask array, and returns false in every case. |
| Dotmaps.Dotmap.CopyFrom | Dotmap.cpp:35-58 | Assignment from another dotmap: width, height and every dot and mask bit equal the other's. Assignment to itself keeps the size, but the re-created arrays are what the copy reads, so every dot and mask bit becomes 0. |
| Dotmaps.Dotmap.ZeroArraysClear | Dotmap.cpp:37 | Zeroed arrays, as `Create` leaves them, read 0 at every dot and mask bit. |
| Dotmaps.Dotmap.CheckRange | Dotmap.cpp:349-360 | True exactly when 0 ≤ x < width and 0 ≤ y < height. |
| Dotmaps.ColumnByteInRow | Dotmap.cpp:69-70 | An in-range column's byte lies within its row. |
| Dotmaps.OffsetInBounds | Dotmap.cpp:76-77 | Every in-range pixel lies inside the allocated array. |
| Dotmaps.OffsetInjective | Dotmap.cpp:173 | Two pixels share a byte only when they are on one row and in one group of columns. |
| Bits.Nibble | Dotmap.cpp:217-226 | A nibble is below 16. |
| Bits.WithNibble | Dotmap.cpp:179-190 | The nibble written reads back as `d & 0x0F`, and the other nibble is kept. |
| Bits.BitIsShift | Dotmap.cpp:254 | The bit table is `1 << k`. |
| Bits.WithBit | Dotmap.cpp:252-259 | Setting or clearing bit `k` makes it read as asked. |
| Bits.WithBitOther | Dotmap.cpp:252-259 | Setting or clearing bit `k` leaves every other bit. |
| Bits.ZeroByteBits | Dotmap.cpp:330 | A zero byte has no bit set, and the converse. |
| Bits.CeilDiv | Dotmap.cpp:69-70 | The rounded-up quotient is the fewest units that hold `n` items. |
| Fonts.FirstMatch | Font.cpp:181-195 | The index found is the first record with the code, or the table's length when there is none. |
| Fonts.CharLookup | Font.cpp:181-230 | Width and kerning come from the first matching record (0 if none). The offset is the sum of the widths before it, modulo 2^16; with no match it is the sum of all widths. |
| Fonts.SetThenLookup | Font.cpp:70-88 | After a record is set, with no earlier record for its code, lookups of that code return its width and kerning. Its offset is the sum of the widths before it. |
| Fonts.WidthsBeforePrefix | Font.cpp:197-214 | The offset sum depends only on the records before the match. |
| Fonts.AddWraps | Font.cpp:197-214 | Accumulating in a 16-bit unsigned variable wraps like the full sum. |
| Fonts.EncodeRecord | Font.h:7-14 | A packed record is 5 bytes. |
| Fonts.DecodeEncodeRecord | Font.h:7-14 | Decoding the 5 bytes of a record gives it back. |
| Fonts.EncodeDecodeRecord | Font.h:7-14 | Every 5 bytes are the encoding of the record they decode to. |
| Fonts.DecodeTable | Font.cpp:62 | A table stored in `5n` bytes holds `n` records. |
| Fonts.DecodeEncodeTable | Font.cpp:62 | Decoding a stored table gives it back. |
| Fonts.EncodeDecodeTable | Font.cpp:62 | Every byte string of whole records is the encoding of its table. |
| Fonts.LastCoverWins | Font.cpp:117-152 | Where glyphs overlap because of kerning, the last character covering a column decides its dot and mask. |
| Fonts.UncoveredIsClear | Font.cpp:114-152 | A column no character covers keeps dot 0 and mask bit 0 from `Create`. |
| Fonts.StoredUnchanged | Font.cpp:141-142 | Copying a font dot or mask bit through `SetDot`/`SetMask` keeps its value. |
| Fonts.Font.constructor | Font.cpp:6-9 | A font without a table. |
| Fonts.Font.Create | Font.cpp:16-24 | Copies the strip's width, height and pixels, and allocates a table of `chars` records. Given the font's own strip, the size is kept and every pixel becomes 0, as in a dotmap's self-assignment. |
| Fonts.Font.SetCharInfoFromRaw | Font.cpp:50-68 | Succeeds exactly when `len` is `chars * 5`. The table then becomes the records decoded from the bytes; on failure it is unchanged. |
| Fonts.Font.SetCharInfo | Font.cpp:70-88 | Fails without change when `idx` is negative, `idx` is at least `chars`, or there is no table. Otherwise it replaces record `idx` only. |
| Fonts.Font.GetCharWidth | Font.cpp:181-195 | The width of the first record with the code, 0 when there is none. |
| Fonts.Font.GetCharOffset | Font.cpp:197-214 | The 16-bit sum of the widths before the first record with the code, or of all widths when there is none. |
| Fonts.Font.GetCharKerning | Font.cpp:216-230 | The kerning of the first record with the code, 0 when there is none. |
| Fonts.Font.MeasureString | Font.cpp:97-111 | The string's width: the advances (width minus kerning) of all characters but the last, plus the last one's width. For an empty string it is the width of code 0, the terminator. |
| Fonts.Font.DmpFromString | Font.cpp:90-155 | The dotmap gets that width and the strip's height. Each pixel holds the dot and mask of the last character covering its column. Character `i` is drawn from column Σ_{j<i}(wⱼ − kⱼ). Blanked characters give dot 0 and mask 1; others copy the strip from their offset. Columns no character covers stay 0. |
| Fonts.Font.DrawString | Font.cpp:117-152 | Starting from a blank dotmap, drawing the characters in order leaves each pixel with the dot and mask of the last character covering its column. |
| Fonts.Font.DrawChar | Font.cpp:118-152 | One pass of the character loop draws character `i` over every earlier one, and moves the pen by its width minus its kerning. |
| Fonts.Font.DrawGlyph | Font.cpp:130-145 | The row loop draws every strip row of the character and changes no pixel outside its columns. |
| Fonts.Font.DrawCharRow | Font.cpp:132-144 | The column loop draws one row of the character and changes no other pixel. |
| Fonts.Font.DrawPixel | Font.cpp:134-143 | A blanked character gives dot 0 and mask 1; otherwise the pixel copies the strip's dot and mask. No other pixel changes. |
| Fonts.Font.PutPixel | Font.cpp:134-143 | A `SetDot`/`SetMask` pair: the pixel takes the dot's low four bits and mask bit 1 exactly when the mask value is non-zero. No other pixel changes. |
| Scenes.Scene.constructor | Scene.cpp:12-16 | No frames, none loaded. |
| Scenes.Scene.Create | Scene.cpp:22-78 | Keeps the last storyboard record's fields. `doFirst` is NA exactly when the first-frame delay is 0, else TODO; `doLast` likewise for the last-frame delay. The frame count is the dotmap count and no frame is loaded. Always succeeds. |
| Scenes.Scene.LoadItem | Scene.cpp:39-61 | One storyboard record read: the held settings become that record's. |
| Scenes.Scene.NextFrame | Scene.cpp:85-143 | The state moves by `Step`. The result is false exactly at `EndOfScene`. A blank frame zeroes dots and mask at the same size; a load copies the stored frame; the end leaves the frame untouched. |
| Scenes.Scene.AdvanceSpecials | Scene.cpp:89-109 | `doFirst` goes TODO to INPROC and anything else to DONE. `doLast` does the same only when every stored frame was loaded on entry. |
| Scenes.Scene.ClearFrame | Scene.cpp:114-115 | Every dot and mask bit of the frame reads 0. |
| Scenes.Scene.Eof | Scene.cpp:80-83 | Every frame has been loaded and no last frame is pending or in progress. |
| Scenes.Scene.GetFrameDelay | Scene.cpp:150-169 | The first frame's delay while it is in progress, else the last frame's while that is, else the normal delay. |
| Scenes.Scene.GetFrameLayer | Scene.cpp:171-190 | The first frame's layer while it is in progress, else the last frame's once that is in progress or done, else the normal layer. |
| Scenes.Scene.GetClockStyle | Scene.cpp:192-195 | The clock style of the last storyboard record. |
| Scenes.StepBounded | Scene.cpp:111-122 | `curFrame` grows by at most one and never passes `cntFrames`. A blank first frame consumes no stored frame. |
| Scenes.EndIff | Scene.cpp:111-142 | A call fails exactly when every stored frame was loaded and neither a blank first nor a blank last frame is starting. |
| Scenes.SuccessLowersPending | Scene.cpp:85-143 | Each successful call lowers the count of remaining frames, so a scene cannot play forever. |
| Scenes.EndIsFinal | Scene.cpp:80-143 | Once `Eof` holds and no first frame is pending, every call fails and `Eof` keeps holding. |
| Scenes.TailRun | Scene.cpp:85-143 | Once the first frame is settled, the calls load the remaining frames in order, then give a blank last frame if one is asked for, then end. |
| Scenes.CreatedSceneRun | Scene.cpp:69-143 | A created scene plays an optional blank first frame, every stored frame, an optional blank last frame, then ends. |
| Scenes.Actions | Scene.cpp:85-143 | `k` calls have `k` outcomes. |
| Scenes.SettingsAfterStep | Scene.cpp:150-190 | After a blank first frame the first-frame delay and layer apply. After a blank last frame the last-frame ones apply. |
| Buttons.Button.constructor | Button.cpp:5-17 | Debounce 100 ms, hold 1000 ms, not risen, last reading HIGH. |
| Buttons.Button.Read | Button.cpp:19-72 | Returns `Event` of the old state and moves the state by `Next`, with the pin level and the clock readings as parameters. |
| Buttons.ReleaseResets | Button.cpp:61-69 | A released button reads OFF and resets its start time, `risen` and its last reading. |
| Buttons.PressStartsTiming | Button.cpp:24-30 | The first pressed sample after a released one reads OFF and records the press time. |
| Buttons.DebounceHoldsOff | Button.cpp:31-56 | A held press reads OFF until it has lasted longer than 100 ms, and such a sample changes no state. |
| Buttons.RisingIff | Button.cpp:33-54 | RISING exactly when held past the debounce time and not yet risen; afterwards `risen` is set. |
| Buttons.HeldAfterRising | Button.cpp:36-48 | After RISING, a held button reads ON up to 1000 ms and ON_HOLD after that. |
| Buttons.NeverFalling | Button.cpp:19-72 | `BTN_FALLING` is never returned. |
| Buttons.RisenStaysQuiet | Button.cpp:49-54 | While the button stays pressed, a risen button never reads RISING again. |
| Buttons.RisingOncePerPress | Button.cpp:49-54 | RISING is returned at most once per continuous press. |
| Buttons.Events | Button.cpp:19-72 | A run of samples gives one event per sample. |
| ColourControls.ColourControl.constructor | ColourControl.cpp:16-19 | Colour 0, timer stopped. |
| ColourControls.ColourControl.SetColour | ColourControl.cpp:21-38 | The same colour does nothing. 7 stores itself and starts the 60000000 µs timer without pushing a colour. Any other new value stops the timer, stores itself and pushes itself. The tick counter is kept. |
| ColourControls.ColourControl.IsrTimer | ColourControl.cpp:3-14 | Steps the static counter and pushes its new value. The stored colour stays 7. |
| ColourControls.NextColour | ColourControl.cpp:7-11 | The counter stays in 0..6. |
| ColourControls.NextColourMod | ColourControl.cpp:7-11 | The counter counts modulo 7. |
| ColourControls.Ticks | ColourControl.cpp:3-14 | `k` ticks push `k` colours. |
| ColourControls.TicksAt | ColourControl.cpp:3-14 | Tick `i` pushes `(c + i + 1) mod 7`, so every value pushed is at most 6 and never 7, repeating every 7 ticks. |
| ColourControls.FirstCycle | ColourControl.cpp:3-14 | From the initial counter the ticks push 1, 2, 3, 4, 5, 6, 0. |
| Configs.CopyCount | Config.cpp:116-141 | A copy moves at most `len` bytes and never passes the end of the EEPROM. |
| Configs.Config.ReadBytes | Config.cpp:116-126 | Copies exactly min(len, L − address) bytes (0 past the end) into the front of the buffer, returns that count, and leaves the rest of the buffer. |
| Configs.Config.WriteBytes | Config.cpp:131-141 | Writes exactly that many bytes from `address` on, returns the count, and changes no other EEPROM byte. |
| Configs.Config.ReadEeprom | Config.cpp:72-93 | Reads the header. Returns true exactly when it reads as 12, and only then reads the record from the bytes after the header. |
| Configs.Config.WriteEeprom | Config.cpp:98-111 | Sets the header to 12, writes it and then the record as far as they fit, keeps the record, and returns true. |
| Configs.Config.constructor | Config.cpp:12-29 | With a valid stored header, loads the record and leaves the EEPROM alone. Otherwise sets the defaults on a zeroed record and writes the settings. Either way the header held ends as 12. |
| Configs.Config.GetCfgItems | Config.cpp:34-43 | Re-reads from EEPROM only when the header held is not 12, then returns the record. |
| Configs.Config.SetCfgItems | Config.cpp:48-62 | Replaces the record. With `write` it writes the settings and returns their result; without it the EEPROM and header are untouched and the result is true. |
| Configs.ReadWithRoom | Config.cpp:72-93 | With room for header and record, the header is bytes 0..3 and a valid header loads bytes 4.. as the record. |
| Configs.WriteThenRead | Config.cpp:72-111 | Writing then reading finds the header valid and leaves the record unchanged, whatever the EEPROM's size. |
| Configs.DefaultItems | Config.cpp:15-25 | The default record has the record's size. |
| Configs.DefaultsAsSet | Config.cpp:15-25 | The default record: DST off, 24-hour time, brightness 10, 5-second delay, font "STANDARD" with its NUL, colour red (0); every later byte 0. |

## Left out

- Hardware and timers: `Dmd::Initialise` (pin modes), the `IntervalTimer` calls and the `isrDmd` trampoline. The timers are a flag plus a period; pin writes are a trace.
- Concurrency between the refresh interrupt and the foreground code is not modelled. Dmds.Dmd.WaitSync: the busy-wait is not modelled; its exit condition is a precondition.
- File parsing: `Dotmap::Create(File&)`, `Font::Create(File&)`, `Font::GetFontName` and the file reads of `Scene::Create`. The scene storyboard is a sequence of records. The frame `Scene::NextFrame` loads from the file is a `Dotmap` parameter.
- Heap management: `new`/`delete`, destructors and `Delete()`. Arrays are fresh Dafny arrays; a null dotmap array is an empty one.
- Serial debug output; `Globals.cpp`; `Setup.cpp`; `Utils.cpp`.
- Declared but undefined members: `Config::setValues`, `GetShowBrandValue`, `GetClockDelayValue`, `Button::ReadRaw`, `Scene::GetCustomX`/`GetCustomY`.
- `ConfigItems` is a byte record of a size given to the constructor, because `FONTNAME` is not part of this model. Only the field offsets the defaults need are fixed. The header `int` is four little-endian bytes.
- Uninitialised fields start at 0 in the model: `Font::chars`, the storyboard fields of `Scene`, `Button::timeLast`. The initial `Button::timeLast` is never read before the first press sets it.
- Fonts.Font.Create: the records of a fresh table are indeterminate in the source, so the contract states only the table's length.
- Fonts.Font.DmpFromString: the model requires the string's width to be in 0..65535, the range `Dotmap::Create` can store.
- Fonts.Font.DmpFromString: the blanking string is `None` for a null pointer. A blanking string shorter than the text reads as not `'-'` beyond its end, where the source reads past the terminator.
- Fonts.Font.DmpFromString: the text is the bytes before the C string's terminating NUL. A sequence holding a 0 byte is no C string; the model draws such a byte as character 0 where the source would stop.
- Fonts.Font.DrawChar: the kerning is looked up before the glyph is drawn rather than after. The lookup reads only the table, which drawing does not change.
- Buttons.Button.Read: `millis()` is read twice when a press starts; both readings are parameters.
- DmdFrames.DmdFrame.DotBlt: the destination rectangle must lie inside the frame, because the source writes `frame.dots` without a range check.
- Dotmaps.Dotmap.CopyFrom: the pixel equalities hold when the source's arrays are shorter than 65536 bytes; longer ones overflow the `uint16_t` length of `SetDotsFromRaw`, and the copy is skipped.
- Scenes.CreatedSceneRun: requires at least one stored frame. With none, a blank first frame is immediately followed by the end, even if a blank last frame was asked for.
- Scenes.Scene.Create, Scenes.Scene.NextFrame, Dmds.Dmd.UpdateRow, Fonts.Font.DmpFromString: split into helper methods (`LoadItem`, `AdvanceSpecials`, `ClearFrame`, `OutputRow`, `ShiftRow`, `DrawString`, `DrawChar`, `PutPixel` and others). The helpers do the same steps in the same order.
