# Key event engine and OLED framebuffer

A Dafny model of two firmware components.

**The key event engine of `HardWare/key.c`.** Each 10 ms tick takes one key
reading and advances a state machine:
- it debounces the reading;
- it measures how long the key is held, and latches a one-shot long press
  and a repeating hold;
- it folds short presses into click, double-click and triple-click events
  with a countdown window.

Events land in a single-slot latch, which `key_get_state` reads and clears.

In the model, the pure function `Key.Step` states one tick branch by branch.
The class `Key.KeyScanner` holds the thresholds, the six function-static
counters and the latch as fields, and its methods are proved to move that
state exactly as `Step` says. Module `KeyProperties` proves the engine's
rules about `Step` and about runs of ticks (`Key.Run`). Key selection
(`key_read`, GPIO and ADC) is a loop proved against a first-match
specification.

**The OLED framebuffer of `Drivers/HardWare/oled.c`.** This is a static
8-page × 128-column byte array. Bit `k` of byte `[p][c]` is the pixel at row
`p*8+k`, column `c`.

`Oled.Display` keeps it as an `array2<bv8>`. Every drawing routine is a
method that changes the array in place with the same loops, clipping and bit
operations as the C code. Each method is proved to leave every byte equal to
a byte-level function in `OledPixels` or `OledText`. Lemmas then state what
those functions do to each pixel (`Lit(b, k)`):
- what is set;
- what is cleared;
- what is flipped;
- what is left alone.

`OledText` also covers the text path:
- how `oled_show_string` splits a byte string into one- and two-byte
  characters;
- where it draws each character;
- how the Chinese glyph lookup picks an entry.

`OledCursor` covers the three controller commands of `oled_set_cursor`.

Integer widths are modelled explicitly:
- `uint8_t`/`uint16_t` counters wrap (`Ints.Inc8`, `Ints.Inc16`);
- the 16-bit timeout is truncated when loaded into the 8-bit timer
  (`Ints.Truncate8`);
- string `x` advances modulo 256.

## Model

| member | source | states |
|---|---|---|
| Key.Periods | HardWare/key.c:29-35 | each threshold is its millisecond argument divided down to whole 10 ms ticks: `t*10 <= ms < (t+1)*10` |
| Key.KeyScanner.constructor | HardWare/key.c:94-99 | static initial state: no key confirmed, counters zero, no pending key, latch (NONE, NO_KEY) |
| Key.KeyScanner.PeriodSetting | HardWare/key.c:29-35 | the thresholds become `Periods` of the arguments and no counter or latch changes |
| Key.KeyScanner.Init | HardWare/key.c:42-46 | the recommended 500/1000/250 ms give 50/100/25 ticks; the engine state is unchanged |
| KeyProperties.RecommendedSettings | HardWare/key.c:45 | `Periods(500, 1000, 250)` is 50, 100 and 25 ticks |
| Key.FirstActive | HardWare/key.c:67-73 | the result is NO_KEY exactly when no pin is at its polarity, and otherwise the value of the lowest-index pin that is |
| Key.KeyRead | HardWare/key.c:65-73 | the early-return loop returns `FirstActive` of the pin levels |
| Key.AdcThresholds | HardWare/key.c:47-55 | one threshold per key: the midpoint of its divider level and the next key's (full scale for the last), wrapped to `uint16_t` before halving |
| Key.FirstBelow | HardWare/key.c:76-83 | the result is the value of the first key whose threshold is at least the sample, and NO_KEY when every threshold is below it |
| Key.KeyReadAdc | HardWare/key.c:74-84 | the early-return loop returns `FirstBelow` of the sample |
| KeyProperties.LadderThresholds | HardWare/key.c:47-55 | for the configured resistors the thresholds are 783, 2012, 2673 and 3492 |
| KeyProperties.LadderSelectsKey | HardWare/key.c:74-84 | each key's nominal divider level selects that key, and a full-scale reading selects none |
| Key.KeyScanner.Tick | HardWare/key.c:92-190 | the counters and the latch move as `Step` of the old state and the reading; the thresholds are unchanged |
| Key.KeyScanner.ScanPhase | HardWare/key.c:103-166 | the debounce, release, press-duration, long-press and hold branches move the state as `ScanStep` |
| Key.KeyScanner.TimerPhase | HardWare/key.c:168-189 | the multi-click countdown moves the state as `TimerStep` |
| Key.KeyScanner.Scan | HardWare/key.c:101 | a tick that reads the GPIO keys first is `Step` with `FirstActive` of the pin levels |
| Key.KeyScanner.GetState | HardWare/key.c:197-203 | returns the latched pair, leaves the latch (NONE, NO_KEY) and touches nothing else |
| KeyProperties.DebounceRule | HardWare/key.c:105-142 | a reading equal to the confirmed key clears the counter and keeps the key; a differing one bumps the 8-bit counter and replaces the key exactly when the bumped counter reaches the threshold |
| KeyProperties.ChangeAfterConfirmationIsImmediate | HardWare/key.c:105-110 | the counter is not cleared on confirmation, so a change on the next tick is confirmed at once |
| KeyProperties.DebounceCounterExceedsThreshold | HardWare/key.c:107-110 | readings 1, 1, 2 from power-up leave the counter at 3, above the threshold, with key 2 confirmed |
| KeyProperties.ConfirmedRelease | HardWare/key.c:113-129 | after a long press a release latches (UP, pending key) and leaves click count, timer and pending key; after a short press it counts a click, makes the released key pending and loads the timer; both zero the press duration |
| KeyProperties.ConfirmedPress | HardWare/key.c:131-136 | a confirmed press, also straight from another key, makes the key pending and leaves press duration, click count, timer and latch alone |
| KeyProperties.ClickCountUncapped | HardWare/key.c:124 | a fourth short press counts 4 (MAX_CLICK_COUNT is not consulted); the closing window then keeps the event and only overwrites the value |
| KeyProperties.QuietRun | HardWare/key.c:140-189 | with no key down and no window open, idle ticks only clear the debounce counter and latch nothing |
| KeyProperties.ZeroWindowLosesClick | HardWare/key.c:124-126 | a 2560 ms timeout is 256 ticks, loaded into the 8-bit timer as 0, so a short click is counted but never reported however long the key stays released |
| KeyProperties.TimeoutTruncated | HardWare/key.c:126 | a 3000 ms timeout is 300 ticks in `uint16_t` but loads the 8-bit timer with 44 |
| KeyProperties.HeldTick | HardWare/key.c:145-165 | a held key bumps the 16-bit duration; long press is latched exactly when it equals the long threshold and clears the click count; otherwise hold is latched when it is at least the hold threshold and a multiple of ten; otherwise the latch is kept |
| KeyProperties.HeldRun | HardWare/key.c:145-147 | over n held ticks the duration grows by exactly n, the key stays confirmed and a running multi-click timer counts down by n (stopping at 0) |
| KeyProperties.NoEarlyLongPress | HardWare/key.c:150-155 | no long press is latched while the duration is below the long threshold |
| KeyProperties.LongPressAtThreshold | HardWare/key.c:150-155 | (LONG_PRESS, key) is latched, and the click count cleared, on the tick the duration reaches the long threshold, also while an earlier click's window is open, unless that window closes on the same tick |
| KeyProperties.NoEarlyHold | HardWare/key.c:157-164 | no hold is latched while the duration is below the hold threshold |
| KeyProperties.HoldOnCadence | HardWare/key.c:157-164 | (HOLD, key) is latched on every tick whose duration is at least the hold threshold, a multiple of ten and not the long threshold, unless an open multi-click window closes on that tick |
| KeyProperties.Countdown | HardWare/key.c:169-188 | a running timer drops by one; on reaching zero counts 1, 2, 3 latch CLICK, DOUBLE_CLICK, TRIPLE_CLICK and any other count keeps the event, the value becomes the pending key, count and pending key reset |
| KeyProperties.WindowCloseWins | HardWare/key.c:169-189 | the countdown runs last, so a window closing on a tick overrides the value latched earlier in that tick |
| KeyProperties.IdleRun | HardWare/key.c:169-188 | with no key down an open window counts down one per tick; each tick clears the debounce counter and changes nothing else until the window closes with the aggregated event for the pending key |
| KeyProperties.ShortHoldKeeps | HardWare/key.c:145-189 | a key held short of the long threshold, with no window open or one that stays open, keeps the click count and the pending key, and the latch too while below the hold threshold |
| KeyProperties.ShortPress | HardWare/key.c:105-189 | one short press (two ticks to confirm, m held, two to release) from a settled released engine counts a click, makes the key pending and restarts the window at the 8-bit timeout less the release tick, keeping the latch below the hold threshold; a one-tick timeout closes the window at once with the aggregated event |
| KeyProperties.ClicksRun | HardWare/key.c:105-189 | n short presses, each inside the window the previous one opened and followed by one idle tick, latch nothing and leave n clicks of the key counted with the window two ticks short of the timeout |
| KeyProperties.MultiClick | HardWare/key.c:105-189 | after n short presses inside the window nothing is latched until it closes, and on that tick the event n maps to (CLICK, DOUBLE_CLICK, TRIPLE_CLICK for 1, 2, 3) is latched for the key and the click state is reset |
| KeyProperties.NeverDown | HardWare/key.c:92-190 | no run of ticks ever latches DOWN |
| KeyProperties.TakeClears | HardWare/key.c:197-203 | reading hands out the latch, a second read with no tick between gets (NONE, NO_KEY), and no counter changes |
| KeyProperties.SingleClickScenario | HardWare/key.c:92-190 | key 1 pressed for three ticks and released yields (CLICK, 1) after the 250 ms window, read once |
| KeyProperties.DoubleAndTripleClickScenario | HardWare/key.c:169-188 | with the recommended settings, two and three three-tick presses of key 1 give (DOUBLE_CLICK, 1) and (TRIPLE_CLICK, 1) 23 idle ticks after the last press; the triple press has latched nothing one tick earlier |
| KeyProperties.LongPressScenario | HardWare/key.c:145-164 | key 2 held from power-up latches LONG_PRESS after 50 ticks of duration, not after 49, and HOLD at 100 and 110 |
| OledCursor.CursorCommand | Drivers/HardWare/oled.c:29-36 | three bytes; for pages 0-7 they are commands B0h-B7h, 10h-1Fh and 00h-0Fh, and they decode back to the page and the column |
| Oled.Display.constructor | Drivers/HardWare/oled.c:8 | the static buffer is 8 × 128 bytes, all zero |
| Oled.Display.ClearAll | Drivers/HardWare/oled.c:84-94 | every byte is 0 |
| Oled.Display.ReverseAll | Drivers/HardWare/oled.c:43-53 | every byte is complemented, so a second call restores it |
| Oled.Display.DrawPoint | Drivers/HardWare/oled.c:313-319 | every byte becomes `PointByte` of its old value |
| OledPixels.PointPixels | Drivers/HardWare/oled.c:313-319 | a pixel is lit afterwards exactly when it was lit or it is the on-screen point (x, y); nothing else changes |
| Oled.Display.ClearArea | Drivers/HardWare/oled.c:104-118 | every byte becomes `ClearAreaByte` of its old value |
| OledPixels.ClearAreaPixels | Drivers/HardWare/oled.c:104-118 | a pixel is lit afterwards exactly when it was lit and lies outside [x, x+w) × [y, y+h) |
| Oled.Display.ReverseArea | Drivers/HardWare/oled.c:63-77 | as written: every byte becomes `AsWrittenReverseAreaByte`, the XOR of `~(1 << i%8)` for every on-screen row i of the area |
| OledPixels.AsWrittenReverseAreaPixels | Drivers/HardWare/oled.c:63-77 | as written, a pixel of an area column flips exactly when the parity of the area's rows on its page differs from whether its own row is in the area; other columns are unchanged |
| OledPixels.AsWrittenReverseOnePixel | Drivers/HardWare/oled.c:73 | as written, reversing the single pixel (0, 0) of a blank byte lights the other seven rows and not that pixel |
| OledPixels.ReverseAreaTwice | Drivers/HardWare/oled.c:63-77 | both as written and corrected, two identical calls restore every byte |
| Oled.Display.ReverseAreaCorrected | Drivers/HardWare/oled.c:63-77 | corrected: every byte becomes `ReverseAreaByte`, the XOR of `1 << i%8` for every on-screen row of the area |
| OledPixels.ReverseAreaPixels | Drivers/HardWare/oled.c:63-77 | corrected: a pixel flips exactly when it lies in [x, x+w) × [y, y+h) |
| Oled.Display.DrawRectangle | Drivers/HardWare/oled.c:329-355 | every byte becomes `RectangleByte` of its old value, filled or outline by `fill` |
| Oled.Display.FillRectangle | Drivers/HardWare/oled.c:332-341 | the filled branch's nested point loop leaves every byte `RectangleByte(…, true)` of its old value |
| OledPixels.FilledRectanglePixels | Drivers/HardWare/oled.c:332-341 | filled: a pixel is lit afterwards exactly when it was lit or lies in the rectangle |
| Oled.Display.DrawOutline | Drivers/HardWare/oled.c:342-354 | the outline branch's two point loops leave every byte `RectangleByte(…, false)` of its old value |
| OledPixels.OutlineRectanglePixels | Drivers/HardWare/oled.c:342-354 | outline: a pixel is lit afterwards exactly when it was lit, or is in the columns of the rectangle on row y or row y+h-1, or is in its rows on column x or x+w-1 |
| Oled.Display.ShowImage | Drivers/HardWare/oled.c:166-193 | every byte becomes `ImageByte` of its old value: the area cleared, then each image byte ORed in shifted by y%8 with its spill on the next page, skipping columns ≥ 128 and pages ≥ 8 |
| Oled.Display.ShowImagePages | Drivers/HardWare/oled.c:172-192 | the page loop ORs the first `(h-1)/8+1` image pages (one page when h is 0) into the buffer |
| Oled.Display.ShowImageColumn | Drivers/HardWare/oled.c:176-190 | one image byte's low part is ORed into page y/8+i and its spill into the next page, when on screen; nothing else changes |
| OledPixels.ShiftUpLit | Drivers/HardWare/oled.c:183 | bit k of `v << s` in a byte is bit k-s of v |
| OledPixels.ShiftDownLit | Drivers/HardWare/oled.c:188 | bit k of `v >> (8-s)` is bit k+8-s of v, and nothing is left when s is 0 |
| OledPixels.ImagePixels | Drivers/HardWare/oled.c:166-193 | inside the w × h box a pixel is exactly the image's pixel; below the box, down to the last image page, image pixels are added to the old ones; elsewhere the pixel is unchanged |
| Oled.Display.ShowChar | Drivers/HardWare/oled.c:203-220 | every byte becomes `CharByte` of its old value |
| OledText.CharPixels | Drivers/HardWare/oled.c:203-220 | sizes 6, 7, 8 draw glyph `ch - ' '` of the 6×8, 7×12 or 8×16 font as an image of width = size: inside the box a pixel is the glyph's, below it down to the glyph's last page glyph pixels are added, elsewhere nothing changes; any other size changes nothing |
| Oled.Display.ShowChinese | Drivers/HardWare/oled.c:262-285 | a two-byte character draws the 12×12 or 16×16 glyph the table lookup finds |
| Oled.Display.ShowUnit | Drivers/HardWare/oled.c:256-285 | one character drawn at x: `UnitByte` of every old byte |
| OledText.FindCharacter | Drivers/HardWare/oled.c:276-282 | the lookup stops at the first entry whose index equals the key or is empty, and every earlier entry is neither |
| Oled.LookUp | Drivers/HardWare/oled.c:276-282 | the lookup loop returns `FindCharacter` of the table and the key |
| OledText.UnitsOfBytes | Drivers/HardWare/oled.c:238-255 | splitting the bytes of well-formed characters followed by NUL (or nothing) gives the characters back |
| OledText.BytesOfUnits | Drivers/HardWare/oled.c:238-255 | the characters' bytes are a prefix of the string, and what remains is empty, starts with NUL, or is a lead byte directly before the NUL |
| OledText.UnitsStep | Drivers/HardWare/oled.c:240-255 | a byte below 80h is a one-byte character; a lead byte followed by a non-NUL byte is a two-byte character; a lead byte before the NUL ends the string |
| Oled.NextUnit | Drivers/HardWare/oled.c:240-255 | the segmentation step returns the next character and where the rest starts, or stops exactly when no character is left |
| Oled.Display.ShowString | Drivers/HardWare/oled.c:230-287 | every byte ends as the string's characters drawn one after the other, each at x advanced as `uint8_t` by the earlier characters' widths (size, or 12/16 for two bytes) |
| Oled.Display.ShowStringUnit | Drivers/HardWare/oled.c:256-285 | one pass of the loop draws the next character and advances x by its width modulo 256 |
| OledText.StringOutside | Drivers/HardWare/oled.c:256-285 | a column outside every character's box is left unchanged by drawing the string |

## Left out

- Bus transport is not modelled: `oled_init`, `oled_update_all`, `oled_update_area`, `oled_show_setting` and the command send of `oled_set_cursor`. They only push bytes to the controller through HAL calls; `OledCursor.CursorCommand` gives the bytes.
- `oled_printf` is not modelled: it formats with `vsnprintf`, and its output is what `ShowString` takes.
- `oled_show_font_string` is not modelled: it is compiled out (`OLED_FONT_GBK_EN` is 0) and reads FATFS files.
- Font glyph data is not part of this model. The tables of `oled_font.h` are a parameter (`OledText.Fonts`) with the declared entry sizes, and the Chinese tables end with an entry whose index is empty.
- Physical sensing is an input: the pin levels go to `KeyRead`/`Scan`, and the ADC sample goes to `KeyReadAdc`.
- Concurrency between `key_get_state` and `key_tick` is not modelled: the two calls are sequential.
- The ADC build is modelled as `AdcThresholds` and `KeyReadAdc` next to the GPIO build. `key_init` keeps its thresholds in a static table; the model passes them as an argument.
- Drawing routines whose `uint8_t` loop counter is compared against `x + width` or `y + height` require those sums to be at most 255. Otherwise the C loops never end.
- `ShowImage` requires the image to hold all `(h-1)/8+1` pages × w bytes, also for columns past the screen edge that the C loop skips. A shorter image would make the C code read past its end for on-screen columns.
- `ShowChar` and `ShowString` require `ch >= ' '` and a glyph for it, because `ch - ' '` outside the table is undefined in C.
- `ShowString` requires a two-byte character to be drawn at size 7 or 8. At any other size the C code reads through a NULL glyph table.
- `ShowString` requires every character to fit its `uint8_t` loops (`Drawable`). A long string can wrap `x` so that a later character never finishes.
- `LookUp` keeps the table index as an unbounded natural number, where the C code uses `uint16_t`. Tables have fewer than 65536 entries.

## Findings

| source | as written | input that shows it | evidently intended | confidence | as-written member | corrected member |
|---|---|---|---|---|---|---|
| Drivers/HardWare/oled.c:73 | `oled_reverse_area` XORs each area pixel's byte with `~(0x01 << (i % 8))`. This flips the other seven rows of the page and not the pixel itself. | `oled_reverse_area(0, 0, 1, 1)` on a blank buffer turns byte [0][0] into FEh | XOR with `0x01 << (i % 8)`, flipping exactly the pixels of the area | not executed | OledPixels.AsWrittenReverseOnePixel | Oled.Display.ReverseAreaCorrected |
