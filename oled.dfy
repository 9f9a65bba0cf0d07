/** The framebuffer of `Drivers/HardWare/oled.c` and its drawing routines,
    done in place on the 8 x 128 byte array as the driver does them. Each
    routine is proved to leave every byte equal to the byte function of
    `OledPixels` applied to its old value; the pixel lemmas there say what
    that means on screen. */
module Oled {
  import opened Ints
  import opened OledPixels
  import opened OledText

  /** `oled_display_buffer` and the routines that draw into it. */
  class Display {
    /** Page `p`, column `c`. */
    const buffer: array2<bv8>

    predicate Valid()
    {
      buffer.Length0 == Pages && buffer.Length1 == Columns
    }

    /** The buffer starts dark, as a zero-initialised `static` array. */
    constructor()
      ensures Valid() && fresh(buffer)
      ensures forall p, c :: 0 <= p < Pages && 0 <= c < Columns ==> buffer[p, c] == 0
    {
      buffer := new bv8[Pages, Columns]((p, c) => 0);
    }

    /** `oled_clear_all`: every byte becomes 0. */
    method ClearAll()
      requires Valid()
      modifies buffer
      ensures forall p, c :: 0 <= p < Pages && 0 <= c < Columns ==> buffer[p, c] == 0
    {
      var i := 0;
      while i < Pages
        invariant 0 <= i <= Pages
        invariant forall p, c :: 0 <= p < i && 0 <= c < Columns ==> buffer[p, c] == 0
      {
        var j := 0;
        while j < Columns
          invariant 0 <= j <= Columns
          invariant forall p, c :: 0 <= p < i && 0 <= c < Columns ==> buffer[p, c] == 0
          invariant forall c :: 0 <= c < j ==> buffer[i, c] == 0
        {
          buffer[i, j] := 0x00;
          j := j + 1;
        }
        i := i + 1;
      }
    }

    /** `oled_reverse_all`: every byte is XORed with `0xFF`. */
    method ReverseAll()
      requires Valid()
      modifies buffer
      ensures forall p, c :: 0 <= p < Pages && 0 <= c < Columns ==> buffer[p, c] == old(buffer[p, c]) ^ 0xFF
    {
      var i := 0;
      while i < Pages
        invariant 0 <= i <= Pages
        invariant forall p, c :: 0 <= p < i && 0 <= c < Columns ==> buffer[p, c] == old(buffer[p, c]) ^ 0xFF
        invariant forall p, c :: i <= p < Pages && 0 <= c < Columns ==> buffer[p, c] == old(buffer[p, c])
      {
        var j := 0;
        while j < Columns
          invariant 0 <= j <= Columns
          invariant forall p, c :: 0 <= p < i && 0 <= c < Columns ==> buffer[p, c] == old(buffer[p, c]) ^ 0xFF
          invariant forall c :: 0 <= c < j ==> buffer[i, c] == old(buffer[i, c]) ^ 0xFF
          invariant forall c :: j <= c < Columns ==> buffer[i, c] == old(buffer[i, c])
          invariant forall p, c :: i < p < Pages && 0 <= c < Columns ==> buffer[p, c] == old(buffer[p, c])
        {
          buffer[i, j] := buffer[i, j] ^ 0xFF;
          j := j + 1;
        }
        i := i + 1;
      }
    }

    /** `oled_draw_point(x, y)`. */
    method DrawPoint(x: u8, y: u8)
      requires Valid()
      modifies buffer
      ensures forall p, c :: 0 <= p < Pages && 0 <= c < Columns ==>
        buffer[p, c] == PointByte(old(buffer[p, c]), p, c, x, y)
    {
      if x < Width && y < Height {
        buffer[y / 8, x] := buffer[y / 8, x] | Bit(y % 8);
      }
    }

    /** `oled_clear_area(x, y, width, height)`. The `uint8_t` loop counters
        are compared with `int` sums, so a sum above 255 would never end the
        loop. */
    method ClearArea(x: u8, y: u8, w: u8, h: u8)
      requires Valid()
      requires y + h <= 0xFF && (h == 0 || x + w <= 0xFF)
      modifies buffer
      ensures forall p, c :: 0 <= p < Pages && 0 <= c < Columns ==>
        buffer[p, c] == ClearAreaByte(old(buffer[p, c]), p, c, x, y, w, h)
    {
      var i: u8 := y;
      while i < y + h
        invariant y <= i <= y + h
        invariant forall p, c :: 0 <= p < Pages && 0 <= c < Columns ==>
          buffer[p, c] == ClearAreaByte(old(buffer[p, c]), p, c, x, y, w, i - y)
      {
        ClearAreaRow(x, i, w);
        forall p, c | 0 <= p < Pages && 0 <= c < Columns
          ensures buffer[p, c] == ClearAreaByte(old(buffer[p, c]), p, c, x, y, w, i - y + 1)
        {
          ClearAreaNextRow(old(buffer[p, c]), p, c, x, y, w, i);
        }
        i := i + 1;
      }
    }

    /** The inner loop of `oled_clear_area`: row `i` of columns
        `[x, x + w)`. */
    method ClearAreaRow(x: u8, i: u8, w: u8)
      requires Valid()
      requires x + w <= 0xFF
      modifies buffer
      ensures forall p, c :: 0 <= p < Pages && 0 <= c < Columns ==>
        buffer[p, c] == ClearAreaByte(old(buffer[p, c]), p, c, x, i, w, 1)
    {
      var j: u8 := x;
      while j < x + w
        invariant x <= j <= x + w
        invariant forall p, c :: 0 <= p < Pages && 0 <= c < Columns ==>
          buffer[p, c] == ClearAreaByte(old(buffer[p, c]), p, c, x, i, j - x, 1)
      {
        if i < Height && j < Width {
          buffer[i / 8, j] := buffer[i / 8, j] & !Bit(i % 8);
        }
        forall p, c | 0 <= p < Pages && 0 <= c < Columns
          ensures buffer[p, c] == ClearAreaByte(old(buffer[p, c]), p, c, x, i, j - x + 1, 1)
        {
          if c == j && i / 8 == p {
            ClearAreaColumnHere(old(buffer[p, c]), p, x, i, j);
          } else {
            ClearAreaColumnElsewhere(old(buffer[p, c]), p, c, x, i, j);
          }
        }
        j := j + 1;
      }
    }

    /** `oled_reverse_area(x, y, width, height)` as written: each pixel of
        the area XORs its byte with `~(0x01 << (i % 8))`. */
    method ReverseArea(x: u8, y: u8, w: u8, h: u8)
      requires Valid()
      requires y + h <= 0xFF && (h == 0 || x + w <= 0xFF)
      modifies buffer
      ensures forall p, c :: 0 <= p < Pages && 0 <= c < Columns ==>
        buffer[p, c] == AsWrittenReverseAreaByte(old(buffer[p, c]), p, c, x, y, w, h)
    {
      var i: u8 := y;
      while i < y + h
        invariant y <= i <= y + h
        invariant forall p, c :: 0 <= p < Pages && 0 <= c < Columns ==>
          buffer[p, c] == AsWrittenReverseAreaByte(old(buffer[p, c]), p, c, x, y, w, i - y)
      {
        ReverseAreaRow(x, i, w);
        forall p, c | 0 <= p < Pages && 0 <= c < Columns
          ensures buffer[p, c] == AsWrittenReverseAreaByte(old(buffer[p, c]), p, c, x, y, w, i - y + 1)
        {
          AsWrittenReverseAreaNextRow(old(buffer[p, c]), p, c, x, y, w, i);
        }
        i := i + 1;
      }
    }

    /** The inner loop of `oled_reverse_area` as written. */
    method ReverseAreaRow(x: u8, i: u8, w: u8)
      requires Valid()
      requires x + w <= 0xFF
      modifies buffer
      ensures forall p, c :: 0 <= p < Pages && 0 <= c < Columns ==>
        buffer[p, c] == AsWrittenReverseAreaByte(old(buffer[p, c]), p, c, x, i, w, 1)
    {
      var j: u8 := x;
      while j < x + w
        invariant x <= j <= x + w
        invariant forall p, c :: 0 <= p < Pages && 0 <= c < Columns ==>
          buffer[p, c] == AsWrittenReverseAreaByte(old(buffer[p, c]), p, c, x, i, j - x, 1)
      {
        if i < Height && j < Width {
          buffer[i / 8, j] := buffer[i / 8, j] ^ !Bit(i % 8);
        }
        forall p, c | 0 <= p < Pages && 0 <= c < Columns
          ensures buffer[p, c] == AsWrittenReverseAreaByte(old(buffer[p, c]), p, c, x, i, j - x + 1, 1)
        {
          if c == j && i / 8 == p {
            AsWrittenReverseAreaColumnHere(old(buffer[p, c]), p, x, i, j);
          } else {
            AsWrittenReverseAreaColumnElsewhere(old(buffer[p, c]), p, c, x, i, j);
          }
        }
        j := j + 1;
      }
    }

    /** `oled_reverse_area(x, y, width, height)` inverting one bit per
        pixel, `^= 0x01 << (i % 8)`. */
    method ReverseAreaCorrected(x: u8, y: u8, w: u8, h: u8)
      requires Valid()
      requires y + h <= 0xFF && (h == 0 || x + w <= 0xFF)
      modifies buffer
      ensures forall p, c :: 0 <= p < Pages && 0 <= c < Columns ==>
        buffer[p, c] == ReverseAreaByte(old(buffer[p, c]), p, c, x, y, w, h)
    {
      var i: u8 := y;
      while i < y + h
        invariant y <= i <= y + h
        invariant forall p, c :: 0 <= p < Pages && 0 <= c < Columns ==>
          buffer[p, c] == ReverseAreaByte(old(buffer[p, c]), p, c, x, y, w, i - y)
      {
        ReverseAreaRowCorrected(x, i, w);
        forall p, c | 0 <= p < Pages && 0 <= c < Columns
          ensures buffer[p, c] == ReverseAreaByte(old(buffer[p, c]), p, c, x, y, w, i - y + 1)
        {
          ReverseAreaNextRow(old(buffer[p, c]), p, c, x, y, w, i);
        }
        i := i + 1;
      }
    }

    /** The inner loop of the corrected `oled_reverse_area`. */
    method ReverseAreaRowCorrected(x: u8, i: u8, w: u8)
      requires Valid()
      requires x + w <= 0xFF
      modifies buffer
      ensures forall p, c :: 0 <= p < Pages && 0 <= c < Columns ==>
        buffer[p, c] == ReverseAreaByte(old(buffer[p, c]), p, c, x, i, w, 1)
    {
      var j: u8 := x;
      while j < x + w
        invariant x <= j <= x + w
        invariant forall p, c :: 0 <= p < Pages && 0 <= c < Columns ==>
          buffer[p, c] == ReverseAreaByte(old(buffer[p, c]), p, c, x, i, j - x, 1)
      {
        if i < Height && j < Width {
          buffer[i / 8, j] := buffer[i / 8, j] ^ Bit(i % 8);
        }
        forall p, c | 0 <= p < Pages && 0 <= c < Columns
          ensures buffer[p, c] == ReverseAreaByte(old(buffer[p, c]), p, c, x, i, j - x + 1, 1)
        {
          if c == j && i / 8 == p {
            ReverseAreaColumnHere(old(buffer[p, c]), p, x, i, j);
          } else {
            ReverseAreaColumnElsewhere(old(buffer[p, c]), p, c, x, i, j);
          }
        }
        j := j + 1;
      }
    }

    /** `oled_draw_rectangle(x, y, width, height, fill)`, point by point
        with `oled_draw_point`. The `uint8_t` counters never pass 255, so
        each loop that runs needs its end to stay below 256. */
    method DrawRectangle(x: u8, y: u8, w: u8, h: u8, fill: u8)
      requires Valid()
      requires x + w <= 0xFF && ((fill != 0 && w == 0) || y + h <= 0xFF)
      modifies buffer
      ensures forall p, c :: 0 <= p < Pages && 0 <= c < Columns ==>
        buffer[p, c] == RectangleByte(old(buffer[p, c]), p, c, x, y, w, h, fill != 0)
    {
      if fill != 0 {
        FillRectangle(x, y, w, h);
      } else {
        DrawOutline(x, y, w, h);
      }
    }

    /** The `fill` branch of `oled_draw_rectangle`: every point of the
        rectangle, column by column. */
    method FillRectangle(x: u8, y: u8, w: u8, h: u8)
      requires Valid()
      requires x + w <= 0xFF && (w == 0 || y + h <= 0xFF)
      modifies buffer
      ensures forall p, c :: 0 <= p < Pages && 0 <= c < Columns ==>
        buffer[p, c] == RectangleByte(old(buffer[p, c]), p, c, x, y, w, h, true)
    {
      ghost var start := Snapshot();
      var i: u8 := x;
      while i < x + w
        invariant x <= i <= x + w
        invariant forall p, c :: 0 <= p < Pages && 0 <= c < Columns ==>
          buffer[p, c] == FillProgress(start[p][c], p, c, x, y, h, i, y)
      {
        FillColumn(x, y, h, i, start);
        i := i + 1;
      }
      forall p, c | 0 <= p < Pages && 0 <= c < Columns
        ensures buffer[p, c] == RectangleByte(start[p][c], p, c, x, y, w, h, true)
      {
        FillDone(start[p][c], p, c, x, y, w, h);
      }
    }

    /** The inner loop of the filled branch: column `i`, row by row, onto
        the buffer as it was at `start`. */
    method FillColumn(x: u8, y: u8, h: u8, i: u8, ghost start: seq<seq<bv8>>)
      requires Valid() && x <= i && y + h <= 0xFF
      requires |start| == Pages && forall p :: 0 <= p < Pages ==> |start[p]| == Columns
      requires forall p, c :: 0 <= p < Pages && 0 <= c < Columns ==>
        buffer[p, c] == FillProgress(start[p][c], p, c, x, y, h, i, y)
      modifies buffer
      ensures forall p, c :: 0 <= p < Pages && 0 <= c < Columns ==>
        buffer[p, c] == FillProgress(start[p][c], p, c, x, y, h, i + 1, y)
    {
      var j: u8 := y;
      while j < y + h
        invariant y <= j <= y + h
        invariant forall p, c :: 0 <= p < Pages && 0 <= c < Columns ==>
          buffer[p, c] == FillProgress(start[p][c], p, c, x, y, h, i, j)
      {
        DrawPoint(i, j);
        forall p, c | 0 <= p < Pages && 0 <= c < Columns
          ensures buffer[p, c] == FillProgress(start[p][c], p, c, x, y, h, i, j + 1)
        {
          FillStep(start[p][c], p, c, x, y, h, i, j);
        }
        j := j + 1;
      }
      forall p, c | 0 <= p < Pages && 0 <= c < Columns
        ensures buffer[p, c] == FillProgress(start[p][c], p, c, x, y, h, i + 1, y)
      {
        FillColumnDone(start[p][c], p, c, x, y, h, i);
      }
    }

    /** The other branch of `oled_draw_rectangle`: the top and bottom rows
        of the columns, then the left and right columns of the rows. */
    method DrawOutline(x: u8, y: u8, w: u8, h: u8)
      requires Valid()
      requires x + w <= 0xFF && y + h <= 0xFF
      modifies buffer
      ensures forall p, c :: 0 <= p < Pages && 0 <= c < Columns ==>
        buffer[p, c] == RectangleByte(old(buffer[p, c]), p, c, x, y, w, h, false)
    {
      var i: u8 := x;
      while i < x + w
        invariant x <= i <= x + w
        invariant forall p, c :: 0 <= p < Pages && 0 <= c < Columns ==>
          buffer[p, c] == EdgesProgress(old(buffer[p, c]), p, c, x, y, h, i)
      {
        DrawPoint(i, y);
        DrawPoint(i, LastRow(y, h));
        forall p, c | 0 <= p < Pages && 0 <= c < Columns
          ensures buffer[p, c] == EdgesProgress(old(buffer[p, c]), p, c, x, y, h, i + 1)
        {
          EdgesStep(old(buffer[p, c]), p, c, x, y, h, i);
        }
        i := i + 1;
      }
      forall p, c | 0 <= p < Pages && 0 <= c < Columns
        ensures buffer[p, c] == OutlineProgress(old(buffer[p, c]), p, c, x, y, w, h, y)
      {
        OutlineStart(old(buffer[p, c]), p, c, x, y, w, h);
      }
      i := y;
      while i < y + h
        invariant y <= i <= y + h
        invariant forall p, c :: 0 <= p < Pages && 0 <= c < Columns ==>
          buffer[p, c] == OutlineProgress(old(buffer[p, c]), p, c, x, y, w, h, i)
      {
        DrawPoint(x, i);
        DrawPoint(LastRow(x, w), i);
        forall p, c | 0 <= p < Pages && 0 <= c < Columns
          ensures buffer[p, c] == OutlineProgress(old(buffer[p, c]), p, c, x, y, w, h, i + 1)
        {
          OutlineStep(old(buffer[p, c]), p, c, x, y, w, h, i);
        }
        i := i + 1;
      }
    }

    /** `oled_show_image(x, y, image, width, height)`: the area is cleared,
        then byte `[i][j]` of the image is ORed into page `y / 8 + i` shifted
        up by `y % 8` and into the page below shifted down by `8 - y % 8`,
        wherever that page and column `x + j` are on the screen. */
    method ShowImage(x: u8, y: u8, img: seq<bv8>, w: u8, h: u8)
      requires Valid()
      requires y + h <= 0xFF && (h == 0 || x + w <= 0xFF)
      requires ImagePages(h) * w <= |img|
      modifies buffer
      ensures forall p, c :: 0 <= p < Pages && 0 <= c < Columns ==>
        buffer[p, c] == ImageByte(old(buffer[p, c]), p, c, x, y, img, w, h)
    {
      ClearArea(x, y, w, h);
      ShowImagePages(x, y, img, w, h);
    }

    /** The outer loop of `oled_show_image`, page by page, onto the cleared
        area. */
    method ShowImagePages(x: u8, y: u8, img: seq<bv8>, w: u8, h: u8)
      requires Valid()
      requires ImagePages(h) * w <= |img|
      modifies buffer
      ensures forall p, c :: 0 <= p < Pages && 0 <= c < Columns ==>
        buffer[p, c] == ImageProgress(old(buffer[p, c]), p, c, x, y, img, w, ImagePages(h), 0)
    {
      ghost var cleared := Snapshot();
      var i: u8 := 0;
      while i < ImagePages(h)
        invariant 0 <= i <= ImagePages(h)
        invariant forall p, c :: 0 <= p < Pages && 0 <= c < Columns ==>
          buffer[p, c] == ImageProgress(cleared[p][c], p, c, x, y, img, w, i, 0)
      {
        ImagePageIndex(i, ImagePages(h), w);
        ShowImagePage(x, y, img, w, i, cleared);
        i := i + 1;
      }
    }

    /** The bytes of the buffer, page by page. */
    ghost function Snapshot(): (s: seq<seq<bv8>>)
      requires Valid()
      reads this, buffer
      ensures |s| == Pages
      ensures forall p :: 0 <= p < Pages ==> |s[p]| == Columns
      ensures forall p, c :: 0 <= p < Pages && 0 <= c < Columns ==> s[p][c] == buffer[p, c]
    {
      seq(Pages, p requires 0 <= p < Pages reads buffer =>
        seq(Columns, c requires 0 <= c < Columns reads buffer => buffer[p, c]))
    }

    /** The inner loop of `oled_show_image`: image page `i`, column by
        column, onto the buffer that was `cleared` before the first page. */
    method ShowImagePage(x: u8, y: u8, img: seq<bv8>, w: u8, i: u8, ghost cleared: seq<seq<bv8>>)
      requires Valid()
      requires i * w + w <= |img|
      requires |cleared| == Pages && forall p :: 0 <= p < Pages ==> |cleared[p]| == Columns
      requires forall p, c :: 0 <= p < Pages && 0 <= c < Columns ==>
        buffer[p, c] == ImageProgress(cleared[p][c], p, c, x, y, img, w, i, 0)
      modifies buffer
      ensures forall p, c :: 0 <= p < Pages && 0 <= c < Columns ==>
        buffer[p, c] == ImageProgress(cleared[p][c], p, c, x, y, img, w, i + 1, 0)
    {
      var j: u8 := 0;
      while j < w
        invariant 0 <= j <= w
        invariant forall p, c :: 0 <= p < Pages && 0 <= c < Columns ==>
          buffer[p, c] == ImageProgress(cleared[p][c], p, c, x, y, img, w, i, j)
      {
        var v := img[i * w + j];
        ShowImageColumn(x, y, ShiftUp(v, y % 8), ShiftDown(v, y % 8), i, j);
        forall p, c | 0 <= p < Pages && 0 <= c < Columns
          ensures buffer[p, c] == ImageProgress(cleared[p][c], p, c, x, y, img, w, i, j + 1)
        {
          ImageStep(cleared[p][c], p, c, x, y, img, w, i, j);
        }
        j := j + 1;
      }
      forall p, c | 0 <= p < Pages && 0 <= c < Columns
        ensures buffer[p, c] == ImageProgress(cleared[p][c], p, c, x, y, img, w, i + 1, 0)
      {
        ImagePageDone(cleared[p][c], p, c, x, y, img, w, i);
      }
    }

    /** One pass of the inner loop of `oled_show_image`, byte by byte:
        image byte `[i][j]`, shifted up into `lo` and down into `hi`, is
        drawn by `OrColumn`. This wrapper only lifts `OrColumn`'s
        per-byte ensures to the byte function `ImageColumnByte`, so that
        the array update and the bit-level function are reasoned about in
        separate, small proofs. */
    method ShowImageColumn(x: u8, y: u8, lo: bv8, hi: bv8, i: u8, j: u8)
      requires Valid()
      modifies buffer
      ensures forall p, c :: 0 <= p < Pages && 0 <= c < Columns ==>
        buffer[p, c] == ImageColumnByte(old(buffer[p, c]), p, c, x, y, lo, hi, i, j)
    {
      OrColumn(x, y, lo, hi, i, j);
    }

    /** The two `|=` of that pass: `lo` into column `x + j` of page
        `y / 8 + i` and `hi` into the page below, as far as they are on the
        screen; no other byte changes. */
    method OrColumn(x: u8, y: u8, lo: bv8, hi: bv8, i: u8, j: u8)
      requires Valid()
      modifies buffer
      ensures x + j < Columns && y / 8 + i < Pages ==>
        buffer[y / 8 + i, x + j] == old(buffer[y / 8 + i, x + j]) | lo
      ensures x + j < Columns && y / 8 + i + 1 < Pages ==>
        buffer[y / 8 + i + 1, x + j] == old(buffer[y / 8 + i + 1, x + j]) | hi
      ensures forall p, c ::
        0 <= p < Pages && 0 <= c < Columns && !(c == x + j && (p == y / 8 + i || p == y / 8 + i + 1)) ==>
        buffer[p, c] == old(buffer[p, c])
    {
      if x + j < Width {
        var page := y / 8;
        if page + i < Pages {
          buffer[page + i, x + j] := buffer[page + i, x + j] | lo;
        }
        if page + i + 1 < Pages {
          buffer[page + i + 1, x + j] := buffer[page + i + 1, x + j] | hi;
        }
      }
    }

    /** `oled_show_char(x, y, ch, size)`: glyph `ch - ' '` of the 6 x 8,
        7 x 12 or 8 x 16 font as an image `size` wide; any other size draws
        nothing. */
    method ShowChar(x: u8, y: u8, ch: u8, size: u8, f: Fonts)
      requires Valid() && ValidFonts(f) && CharDrawable(f, x, y, ch, size)
      modifies buffer
      ensures forall p, c :: 0 <= p < Pages && 0 <= c < Columns ==>
        buffer[p, c] == CharByte(old(buffer[p, c]), p, c, f, x, y, ch, size)
    {
      if size == Font6x8 {
        AsciiGlyphShape(f, size, ch - 32);
        ShowImage(x, y, f.ascii6x8[ch - 32], size, 8);
      } else if size == Font7x12 {
        AsciiGlyphShape(f, size, ch - 32);
        ShowImage(x, y, f.ascii7x12[ch - 32], size, 12);
      } else if size == Font8x16 {
        AsciiGlyphShape(f, size, ch - 32);
        ShowImage(x, y, f.ascii8x16[ch - 32], size, 16);
      }
    }

    /** The two-byte branch of `oled_show_string`: the glyph of the table
        entry the lookup finds, as a 12 x 12 image for size 7 and a 16 x 16
        one for size 8. */
    method ShowChinese(x: u8, y: u8, lead: u8, trail: u8, size: u8, f: Fonts)
      requires Valid() && ValidFonts(f) && UnitDrawable(f, x, y, Double(lead, trail), size)
      modifies buffer
      ensures forall p, c :: 0 <= p < Pages && 0 <= c < Columns ==>
        buffer[p, c] == UnitByte(old(buffer[p, c]), p, c, f, x, y, Double(lead, trail), size)
    {
      var table: seq<Character>;
      var width: u8;
      var height: u8;
      if size == Font7x12 {
        table, width, height := f.chinese12, 12, 12;
      } else {
        table, width, height := f.chinese16, 16, 16;
      }
      var index := LookUp(table, [lead, trail]);
      ChineseGlyphShape(f, size, index);
      ShowImage(x, y, table[index].data, width, height);
    }

    /** One character of `oled_show_string`: `oled_show_char` for one
        byte, the Chinese glyph for two. */
    method ShowUnit(x: u8, y: u8, u: Unit, size: u8, f: Fonts)
      requires Valid() && ValidFonts(f) && UnitDrawable(f, x, y, u, size)
      modifies buffer
      ensures forall p, c :: 0 <= p < Pages && 0 <= c < Columns ==>
        buffer[p, c] == UnitByte(old(buffer[p, c]), p, c, f, x, y, u, size)
    {
      match u
      case Single(ch) => ShowChar(x, y, ch, size, f);
      case Double(lead, trail) => ShowChinese(x, y, lead, trail, size, f);
    }

    /** `oled_show_string(x, y, str, size)`: the string is split into
        one-byte and two-byte characters up to its NUL, or up to a lead byte
        right before it; each is drawn at `x`, which then moves on by the
        character's width as a `uint8_t`. */
    method ShowString(x: u8, y: u8, s: seq<u8>, size: u8, f: Fonts)
      requires Valid() && ValidFonts(f) && Drawable(f, x, y, Units(s), |Units(s)|, size)
      modifies buffer
      ensures ShowsString(old(Snapshot()), f, x, y, Units(s), |Units(s)|, size)
    {
      ghost var start := Snapshot();
      ghost var us := Units(s);
      ghost var n := 0;
      var k := 0;
      var cx := x;
      while k < |s| && s[k] != 0
        invariant k <= |s| && n <= |us| && Units(s[k..]) == us[n..]
        invariant cx == XAfter(x, us, n, size)
        invariant ShowsString(start, f, x, y, us, n, size)
        decreases |s| - k
      {
        var stop, u, next := NextUnit(s, k);
        if stop {
          break;
        }
        DropNext(us, n, u, Units(s[next..]));
        cx := ShowStringUnit(start, f, x, y, us, n, cx, u, size);
        k, n := next, n + 1;
      }
      assert n == |us|;
    }

    /** The buffer holds the first `n` characters of `us` drawn from `x`
        over `start`. */
    ghost predicate ShowsString(start: seq<seq<bv8>>, f: Fonts, x: u8, y: u8, us: seq<Unit>, n: nat, size: u8)
      requires Valid() && ValidFonts(f) && n <= |us| && Drawable(f, x, y, us, n, size)
      requires |start| == Pages && forall p :: 0 <= p < Pages ==> |start[p]| == Columns
      reads this, buffer
    {
      forall p, c :: 0 <= p < Pages && 0 <= c < Columns ==>
        buffer[p, c] == StringByte(start[p][c], p, c, f, x, y, us, n, size)
    }

    /** One pass of the loop of `oled_show_string`: `u`, character `n`
        of `us`, drawn at `cx`; `ncx` is where the next character goes. */
    method ShowStringUnit(ghost start: seq<seq<bv8>>, f: Fonts, x: u8, y: u8, ghost us: seq<Unit>, ghost n: nat,
                          cx: u8, u: Unit, size: u8)
      returns (ncx: u8)
      requires Valid() && ValidFonts(f) && n < |us| && us[n] == u && Drawable(f, x, y, us, n + 1, size)
      requires |start| == Pages && forall p :: 0 <= p < Pages ==> |start[p]| == Columns
      requires cx == XAfter(x, us, n, size) && ShowsString(start, f, x, y, us, n, size)
      modifies buffer
      ensures ncx == XAfter(x, us, n + 1, size)
      ensures ShowsString(start, f, x, y, us, n + 1, size)
    {
      XAfterNext(x, us, n, size);
      ShowUnit(cx, y, u, size, f);
      ncx := (cx + UnitWidth(u, size)) % 0x100;
    }
  }

  /** The head of the loop of `oled_show_string`: the character at byte
      `k`, one byte with the top bit clear or two bytes otherwise, and the
      byte after it; `stop` when a lead byte has no byte after it. */
  method NextUnit(s: seq<u8>, k: nat) returns (stop: bool, u: Unit, next: nat)
    requires k < |s| && s[k] != 0
    ensures stop <==> Units(s[k..]) == []
    ensures !stop ==> k < next <= |s| && Units(s[k..]) == [u] + Units(s[next..])
  {
    UnitsStep(s, k);
    stop, u, next := false, Single(s[k]), k + 1;
    if 0x80 <= s[k] {
      if k + 1 == |s| || s[k + 1] == 0 {
        stop := true;
      } else {
        u, next := Double(s[k], s[k + 1]), k + 2;
      }
    }
  }

  /** The lookup loop of `oled_show_string`: the first table entry whose
      index is empty or equal to `key`. */
  method LookUp(table: seq<Character>, key: seq<u8>) returns (index: nat)
    requires exists j :: 0 <= j < |table| && CString(table[j].index) == []
    ensures index == FindCharacter(table, key, 0)
  {
    index := 0;
    while CString(table[index].index) != []
      invariant index <= FindCharacter(table, key, 0)
      decreases |table| - index
    {
      if CString(table[index].index) == key {
        break;
      }
      index := index + 1;
    }
  }
}
