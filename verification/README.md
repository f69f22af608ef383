# IS31FL3730 Scroll pHAT driver — Dafny model

This project models the driver class `IS31FL3730` of the Scroll pHAT library. The class drives an
11-column by 5-row LED matrix through an IS31FL3730 controller on an I2C bus. The model covers:

- **Column framebuffer** (`FrameBuffer`). This is a growable sequence of columns. Each column is a
  non-negative integer whose bits 0..4 are the rows, top to bottom. `set_col` grows the buffer
  with zero columns. `set_pixel` sets or clears one bit, raises IndexError past the end, and never
  grows the buffer.
- **Window compositor** (`Window`, `Rotation`). This builds the 12-byte draw frame from 11 columns
  read circularly from the scroll offset. With the rotate flag set, the column order is reversed
  and each column's five row bits are mirrored (`rotate5bits`). The frame ends with the 0xFF
  terminator. Python slicing is modelled in full, including clamping and negative bounds, so the
  frame is defined for every state, not only for valid ones.
- **Text renderer** (`FontRenderer`). Glyphs have variable width. A one-column gap follows each
  glyph. A space, or a character the font lacks, is a three-column blank. The driver pushes once
  after the whole string.
- **Graph renderer** (`GraphRenderer`). Each sample is scaled to a level, `int((v - low) / span * 5)`.
  The level becomes a bar built by the source's own chain of or-masks. `low` and `high` default to
  the samples' minimum and maximum. The source's errors are modelled as results:
  - ValueError when a default must be taken from an empty sequence;
  - ZeroDivisionError when the span is zero and there is at least one sample.
- **Error counter** (`ErrorCounter`). Each failed draw write is counted and never raised. The
  operator notice fires on the write that brings the count to exactly ten.
- **Driver state machine** (`Driver`). A `Driver` value holds the buffer, offset, rotate flag,
  error count and font. Each public operation maps a state and a bus outcome (`busOk`) to a `Step`:
  the new state, the bus writes made and the notice flag. A Python exception becomes a `Raised`
  value that carries the state at the moment of the raise. `Valid` is the state invariant: at
  least 11 columns, and the offset inside the buffer. Every operation keeps `Valid` except
  `set_buffer`, whose contract says exactly when it does.

The source's quirks are modelled as written:

- `set_mode` sends the fixed 5x11 mode byte whatever mode it is given.
- The graph bar lights no row at levels 0 and 1, and never exactly four rows. Level 4 lights
  three rows, and level 5 or more lights all five.
- On an empty buffer, `scroll` and `scroll_to` first change the offset and then raise ZeroDivisionError.

`buffer_len`, `load_font` and `io_errors` are plain field reads and writes: `Driver.BufferLen`,
`Driver.LoadFont` and `Driver.IoErrors`. `Driver.BufferLenAcrossOperations` states how `buffer_len`
moves under `set_col`, `set_pixel`, `scroll` and `clear`. `Driver.IoErrorsCountsFailures` states that `io_errors`
grows by exactly the number of failed pushes, and `Driver.TenFailedPushes` states what it reports
after ten failed pushes.

## Model

| member | source | states |
|---|---|---|
| `Bits.SetBit` | library/scrollphat/IS31FL3730.py:154 | `x \| (1 << k)`: bit k of the result is set and every other bit is as in x |
| `Bits.ClearBit` | library/scrollphat/IS31FL3730.py:156 | `x & ~(1 << k)`: bit k of the result is clear and every other bit is as in x |
| `Bits.SetThenClear` | library/scrollphat/IS31FL3730.py:152-156 | setting bit k and then clearing it gives x back if and only if bit k of x was clear |
| `Rotation.Rotate5` | library/scrollphat/IS31FL3730.py:21-33 | rotate5bits always returns a value in [0, 31] |
| `Rotation.Rotate5Mirror` | library/scrollphat/IS31FL3730.py:21-33 | bit k of the result is bit 4 - k of the input for k < 5, and no bit from 5 up is set |
| `Rotation.Rotate5LowBitsOnly` | library/scrollphat/IS31FL3730.py:21-33 | the result depends only on the input's low five bits: `Rotate5(x) == Rotate5(x % 32)` |
| `Rotation.Rotate5Involution` | library/scrollphat/IS31FL3730.py:21-33 | mirroring twice is the identity on [0, 31] |
| `FrameBuffer.Zeros` | library/scrollphat/IS31FL3730.py:137 | `[0] * n` has length n and every column is 0 |
| `FrameBuffer.SetCol` | library/scrollphat/IS31FL3730.py:63-67 | new length is max(old length, x + 1); column x holds the value; other old columns are unchanged; other added columns are 0 |
| `FrameBuffer.SetColLastWins` | library/scrollphat/IS31FL3730.py:63-67 | a second set_col at the same index overrides the first completely |
| `FrameBuffer.SetColCommutes` | library/scrollphat/IS31FL3730.py:63-67 | set_col calls at different indices can be swapped, grow-and-zero-fill included |
| `FrameBuffer.SetPixel` | library/scrollphat/IS31FL3730.py:152-156 | IndexError exactly when x is past the end; otherwise the length is kept, the other columns are kept, and in column x only bit y changes: set if the value is truthy, cleared if not |
| `FrameBuffer.SetPixelThenClear` | library/scrollphat/IS31FL3730.py:152-156 | set_pixel(x, y, 1) then set_pixel(x, y, 0) restores the buffer if and only if the pixel was off |
| `FrameBuffer.WriteColumnsSpec` | library/scrollphat/IS31FL3730.py:63-67 | a run of set_col calls at x, x + 1, ...: the columns land in order; old columns outside the run are kept; new columns outside the run are zero; the length is max(old, x + run length) |
| `FrameBuffer.WriteColumnsAppend` | library/scrollphat/IS31FL3730.py:80-85 | writing a concatenation of columns is writing the first part, then the second part where the first ended |
| `Window.Slice` | library/scrollphat/IS31FL3730.py:37-40 | Python slicing agrees with the plain subsequence when the bounds are in range, and is never longer than the sequence |
| `Window.Visible` | library/scrollphat/IS31FL3730.py:36-40 | the window taken from the buffer is never longer than 11 columns, for any buffer and any offset |
| `Window.Reverse` | library/scrollphat/IS31FL3730.py:43 | `list.reverse()` keeps the length, and position i holds the element that was at position length - 1 - i |
| `Window.MirrorAll` | library/scrollphat/IS31FL3730.py:44-45 | the loop keeps the length, and column i becomes rotate5bits of the old column i |
| `Window.VisibleWraps` | library/scrollphat/IS31FL3730.py:36-40 | with at least 11 columns and the offset in range, the window has 11 columns and column i is buffer[(offset + i) mod length], whether or not it wraps |
| `Window.Frame` | library/scrollphat/IS31FL3730.py:35-47 | every frame has between 1 and 12 bytes and ends with the 0xFF terminator, even in states that are not valid |
| `Window.FrameLayout` | library/scrollphat/IS31FL3730.py:35-47 | in a valid state the frame has 12 bytes ending in 0xFF; byte i is buffer[(offset + i) mod length], or with rotation Rotate5(buffer[(offset + 10 - i) mod length]) |
| `Window.RotatedFrameUndoes` | library/scrollphat/IS31FL3730.py:42-45 | for five-bit columns, mirroring the rotated frame's bytes gives the unrotated frame in reverse order |
| `Window.FrameOfSinglePixel` | library/scrollphat/IS31FL3730.py:35-47 | eleven blank columns with column 0 set to 1 give the frame [1, 0, ..., 0, 0xFF] |
| `Window.FrameWraps` | library/scrollphat/IS31FL3730.py:39-40 | the buffer [5..15] at offset 9 gives the wrapped frame [14, 15, 5, ..., 13, 0xFF] |
| `FontRenderer.LayoutSnoc` | library/scrollphat/IS31FL3730.py:70-85 | one more character appends exactly that character's columns to the layout |
| `FontRenderer.LayoutAppend` | library/scrollphat/IS31FL3730.py:70-85 | the layout of a concatenation is the concatenation of the layouts |
| `FontRenderer.LayoutWidth` | library/scrollphat/IS31FL3730.py:70-85 | the layout's width is the cursor advance: 3 per blank, glyph width + 1 per glyph |
| `FontRenderer.LayoutOfChar` | library/scrollphat/IS31FL3730.py:71-85 | a space or a character missing from the font is three zero columns; any other character is its glyph followed by one zero column |
| `FontRenderer.WriteBlank` | library/scrollphat/IS31FL3730.py:71-77 | the three set_col(x, 0) calls write the blank's three zero columns and advance the cursor by 3 |
| `FontRenderer.WriteGlyph` | library/scrollphat/IS31FL3730.py:78-85 | the glyph loop writes the glyph's columns and then the gap column, advancing the cursor by width + 1 |
| `FontRenderer.WriteChars` | library/scrollphat/IS31FL3730.py:70-85 | the character loop performs the set_col calls of the whole layout, in order, from x |
| `FontRenderer.WriteString` | library/scrollphat/IS31FL3730.py:69-85 | the layout lands from x0 on; columns below x0 are untouched; the cursor ends at x0 plus the text width; the empty string leaves the buffer unchanged |
| `GraphRenderer.Truncate` | library/scrollphat/IS31FL3730.py:106 | `int()` truncates toward zero: the result is within 1 of the argument, on the zero side |
| `GraphRenderer.Tier` | library/scrollphat/IS31FL3730.py:108-118 | the or-chain gives 0 for levels up to 1, 0b10000 for 2, 0b11000 for 3, 0b11100 for 4, and 0b11111 for 5 and above |
| `GraphRenderer.TierRows` | library/scrollphat/IS31FL3730.py:108-118 | the rows lit at each level: bottom row from level 2, the next from 3, the middle from 4, the top two only from 5 |
| `GraphRenderer.TierMonotone` | library/scrollphat/IS31FL3730.py:108-118 | a higher level never turns a row off, and every bar is filled from the bottom row up |
| `GraphRenderer.Min` | library/scrollphat/IS31FL3730.py:93-94 | min(values) is one of the samples and no sample is smaller |
| `GraphRenderer.Max` | library/scrollphat/IS31FL3730.py:96-97 | max(values) is one of the samples and no sample is larger |
| `GraphRenderer.Bounds` | library/scrollphat/IS31FL3730.py:93-97 | ValueError exactly when a default is needed and there are no samples; otherwise the given bounds, or min and max as defaults |
| `GraphRenderer.Graph` | library/scrollphat/IS31FL3730.py:92-121 | ValueError for a missing default; ZeroDivisionError exactly when the span is 0 and there is a sample; otherwise column i is Tier(Level(values[i])) for each sample, later columns are kept, and the length is max(old length, sample count) |
| `GraphRenderer.Level` | library/scrollphat/IS31FL3730.py:103-106 | the scaled level of the sample low is 0 and of the sample high is 5, whenever the span is not zero |
| `GraphRenderer.LevelRange` | library/scrollphat/IS31FL3730.py:99-106 | with a non-zero span, a sample between the bounds has level 0..5, whichever bound is larger; low has level 0 and high has level 5 |
| `GraphRenderer.LevelMonotone` | library/scrollphat/IS31FL3730.py:99-119 | with a positive span, a larger sample never gets a lower level or a bar with fewer rows |
| `GraphRenderer.AutoScaleExtremes` | library/scrollphat/IS31FL3730.py:92-119 | when auto-scaled, the smallest sample's column is dark and the largest sample's column is full |
| `ErrorCounter.Record` | library/scrollphat/IS31FL3730.py:49-54 | a successful write keeps the count; a failed write adds exactly 1; the notice fires if and only if a failure brings the count to exactly 10 |
| `ErrorCounter.Run` | library/scrollphat/IS31FL3730.py:49-54 | over a run of writes, the final count is the start count plus the number of failures, with one notice flag per write |
| `ErrorCounter.NoNoticeAfterThreshold` | library/scrollphat/IS31FL3730.py:52-54 | once the count is 10 or more, no later write prints the notice |
| `ErrorCounter.NoticeAtMostOnce` | library/scrollphat/IS31FL3730.py:52-54 | in any run of writes, the notice is printed at most once |
| `ErrorCounter.NoticeIffCrossing` | library/scrollphat/IS31FL3730.py:52-54 | some write prints the notice if and only if the run takes the count from below 10 to 10 or more |
| `ErrorCounter.ConsecutiveFailures` | library/scrollphat/IS31FL3730.py:51-54 | n failures in a row add n, and the i-th prints if and only if it brings the count to 10 |
| `ErrorCounter.TenFailures` | library/scrollphat/IS31FL3730.py:51-54 | ten failures from a count of 0 reach 10, and only the tenth prints |
| `Driver.Initialize` | library/scrollphat/IS31FL3730.py:13-19 | eleven zero columns, offset 0, error count 0, no rotation, one mode write of 0x03 to register 0x00 at address 0x60; a failed mode write raises IOError |
| `Driver.SetMode` | library/scrollphat/IS31FL3730.py:56-57 | whatever the mode argument, the single write carries [0x03]; a failure propagates as IOError with the state unchanged |
| `Driver.Update` | library/scrollphat/IS31FL3730.py:35-54 | exactly one write, to register 0x01 at 0x60, carrying the frame; only the error count changes, by 1 on failure and not at all on success; the notice fires if and only if a failure makes it 10 |
| `Driver.UpdateFrame` | library/scrollphat/IS31FL3730.py:35-50 | in a valid state the pushed payload has 12 bytes, ends in 0xFF, and holds the circular or rotated window |
| `Driver.Updates` | library/scrollphat/IS31FL3730.py:35-54 | a run of pushes gives one notice flag per push, changes only the error count, and raises it by at most the number of pushes |
| `Driver.UpdatesCount` | library/scrollphat/IS31FL3730.py:49-54 | over any run of pushes, the driver's count and notices are the error counter's, and the notice appears at most once |
| `Driver.TenFailedPushes` | library/scrollphat/IS31FL3730.py:13-19 | after initialize, ten failed pushes make io_errors report 10, and only the tenth push printed the notice |
| `Driver.SetCol` | library/scrollphat/IS31FL3730.py:63-67 | only the buffer changes, by set_col, and the state invariant is kept |
| `Driver.SetPixel` | library/scrollphat/IS31FL3730.py:152-156 | IndexError with the state unchanged exactly when x is past the end; otherwise the buffer becomes the framebuffer's set_pixel result, nothing else changes, its length is kept, and the invariant is kept |
| `Driver.SetBuffer` | library/scrollphat/IS31FL3730.py:124-125 | the replacement is stored verbatim; afterwards the invariant holds if and only if the replacement has at least 11 columns and the offset lies inside it |
| `Driver.BufferLen` | library/scrollphat/IS31FL3730.py:127-128 | returns len(buffer): 0 exactly for the empty buffer, and in a valid state at least 11 and beyond the offset |
| `Driver.BufferLenAcrossOperations` | library/scrollphat/IS31FL3730.py:63-67 | buffer_len after set_col(x, v) is max(old length, x + 1); a successful set_pixel or scroll keeps it; after clear it is 11 |
| `Driver.LoadFont` | library/scrollphat/IS31FL3730.py:140-141 | the new font is stored; buffer, offset, rotation and error count are unchanged, and so is validity |
| `Driver.IoErrorsCountsFailures` | library/scrollphat/IS31FL3730.py:149-150 | after any run of pushes, io_errors reports the count before the run plus the number of failed pushes |
| `Driver.Reduce` | library/scrollphat/IS31FL3730.py:132 | Python's `%` with a positive length gives the value in [0, length) that is congruent to its argument |
| `Driver.Scroll` | library/scrollphat/IS31FL3730.py:130-133 | on an empty buffer, ZeroDivisionError after the offset was moved; otherwise the new offset is in [0, length) and congruent to offset + delta, the buffer is kept, and the one push goes to register 0x01 at 0x60 with the frame at the new offset; the error count and notice follow the error counter |
| `Driver.ScrollTo` | library/scrollphat/IS31FL3730.py:143-147 | on an empty buffer, ZeroDivisionError after the offset was set to pos; otherwise the offset is in [0, length) and congruent to pos, the buffer is kept, and the one push goes to register 0x01 at 0x60 with the frame at the new offset; the error count and notice follow the error counter |
| `Driver.ScrollBack` | library/scrollphat/IS31FL3730.py:130-133 | on any non-empty buffer, scroll(delta) followed by scroll(-delta) brings the offset to the old offset mod the length and keeps the buffer, for any integer delta and any starting offset |
| `Driver.ScrollBackInRange` | library/scrollphat/IS31FL3730.py:130-133 | from an offset inside the buffer, scroll(delta) followed by scroll(-delta) restores the offset exactly |
| `Driver.ScrollToAgreesWithScroll` | library/scrollphat/IS31FL3730.py:130-147 | scroll_to(offset + delta) has the same outcome as scroll(delta), the ZeroDivisionError on an empty buffer included |
| `Driver.Clear` | library/scrollphat/IS31FL3730.py:135-138 | eleven zero columns at offset 0; rotate flag and font are kept; the state is valid; the one push is eleven zero bytes then 0xFF, rotated or not, to register 0x01 at 0x60; the error count and notice follow the error counter |
| `Driver.WriteString` | library/scrollphat/IS31FL3730.py:69-86 | the text's layout is written from x0; columns below x0 are untouched; offset, rotation and font are kept; exactly one draw push, even for the empty string, which leaves the buffer unchanged; the step is the push of the state with the new buffer, so the error count and notice follow the error counter |
| `Driver.Graph` | library/scrollphat/IS31FL3730.py:92-122 | a raise leaves the state unchanged and happens exactly on a missing default (ValueError) or a zero span with a sample (ZeroDivisionError); otherwise column i is the bar for sample i, later columns are kept, the invariant is kept, and the step is the one push of the state with the new buffer, so the error count and notice follow the error counter |

## Left out

- The I2C transport (`smbus.SMBus(1)` and `write_i2c_block_data`, lines 14, 50, 57 and 61) is not modelled. Each write is recorded as a `BusWrite`, and whether it succeeded is an input (`busOk`). A failure to open the bus in `initialize` is not modelled.
- The `print` at line 54 is modelled only as the `notice` flag of a `Step`.
- `set_brightness` (lines 59-61) is not modelled: it stores the level and makes one bus write, with no logic of its own.
- `graph` is modelled with Python 3's true division at line 104. The file does not import `division` from `__future__`, so under Python 2 with int samples and bounds, `value /= span` floor-divides. There `graph([0, 5, 10])` gives the middle sample level 0 and so a dark bar, where the model gives level 2 and the bottom row lit. Python 2's integer division is not modelled.
- Default arguments are not modelled: `scroll(delta = 1)`, `scroll_to(pos = 0)`, `write_string(chars, x = 0)` and `set_mode(mode=MODE_5X11)` (lines 130, 143, 69 and 56) take every argument explicitly in the model. A call relying on a default is the model's call with that value.
- `graph` uses floating-point division, and IEEE rounding is not modelled. Samples and bounds are exact reals, and `int()` truncates toward zero. Python ints and floats both map to `real`.
- Negative column indices are not modelled. Python reads these from the end of the buffer. `set_col`, `set_pixel` and `write_string` take `x` and `x0` as natural numbers.
- `set_pixel` with a negative `y` is not modelled, because `1 << y` raises ValueError there. `y` is a natural number.
- Negative column values are not modelled. Python ints can be negative, and `rotate5bits` and `set_pixel` would then work on two's-complement bits. Columns are natural numbers.
- The `window` attribute that `update` stores on the object (line 37) is not kept in the state. It is recomputed on every push and appears as the payload of the draw write.
- Nothing in this class sets the rotate flag after `initialize`; callers assign the attribute directly. It is a plain field of `Driver`.
- Driver.SetBuffer: the model treats the buffer as a value, so aliasing is not modelled. `set_buffer` (line 125) keeps a reference to the caller's list, and `set_col`, `write_string`, `graph` and `set_pixel` (lines 65, 67, 154 and 156) then change that same list in place. A later change the caller makes to its list would change what the next `update` sends. The model's state holds its own copy of the columns.
- The class constructor (lines 4-11) is not modelled as an operation. It only stores the bus factory, the font and the constants `0x60`, `0x00`, `0x19` and `0x03`. These appear as constants, and the font is a parameter of `Initialize`.
