/** The command bytes `oled_set_cursor` sends before a page of the
    framebuffer (section 10.1 of the SSD1306 datasheet: set page start
    address for page addressing mode, set higher and lower column start
    address). */
module OledCursor {

  /** `oled_cursor_cmd`: page B0h, higher column nibble 10h, lower column
      nibble 00h. */
  const CursorBase: seq<bv8> := [0xB0, 0x10, 0x00]

  /** `oled_set_cursor(page, x)`. For a page 0 to 7 the bytes are the
      commands B0h-B7h, 10h-1Fh and 00h-0Fh, and they give back the page
      and the column. */
  function CursorCommand(page: bv8, x: bv8): (r: seq<bv8>)
    ensures |r| == 3
    ensures page < 8 ==> 0xB0 <= r[0] <= 0xB7 && 0x10 <= r[1] <= 0x1F && r[2] <= 0x0F
    ensures page < 8 ==> DecodeCursor(r) == (page, x)
  {
    [CursorBase[0] | page, CursorBase[1] | ((x & 0xF0) >> 4), CursorBase[2] | (x & 0x0F)]
  }

  /** The page and column the controller reads from the three commands. */
  function DecodeCursor(r: seq<bv8>): (bv8, bv8)
    requires |r| == 3
  {
    (r[0] & 0x07, ((r[1] & 0x0F) << 4) | (r[2] & 0x0F))
  }
}
