/** The pixel layout of the SSD1306 framebuffer of `Drivers/HardWare/oled.c`
    and, for each drawing routine, the new value of one framebuffer byte as
    a function of its old value. Bit `k` of byte `[p][c]` is the pixel in
    row `p * 8 + k`, column `c`. The lemmas translate each byte function
    into what it does to pixels. */
module OledPixels {
  import opened Ints

  /** `OLED_PAGES`: the framebuffer's rows of bytes. */
  const Pages: nat := 8
  /** `OLED_LIST`: bytes per page. */
  const Columns: nat := 128
  /** `OLED_WIDTH` */
  const Width: nat := 128
  /** `OLED_HEIGHT` */
  const Height: nat := 64

  /** `0x01 << k` */
  function Bit(k: nat): (m: bv8)
    requires k < 8
  {
    if k == 0 then 0x01 else if k == 1 then 0x02 else if k == 2 then 0x04
    else if k == 3 then 0x08 else if k == 4 then 0x10 else if k == 5 then 0x20
    else if k == 6 then 0x40 else 0x80
  }

  /** Whether bit `k` of a framebuffer byte is set, i.e. the pixel is lit. */
  predicate Lit(b: bv8, k: nat)
    requires k < 8
  {
    b & Bit(k) != 0
  }

  lemma AndNotOr(a: bv8, m: bv8, n: bv8)
    ensures a & !(m | n) == (a & !m) & !n
  {
  }

  lemma XorOr(a: bv8, m: bv8, n: bv8)
    requires m & n == 0
    ensures a ^ (m | n) == (a ^ m) ^ n
  {
  }

  lemma XorAssoc(a: bv8, m: bv8, n: bv8)
    ensures a ^ (m ^ n) == (a ^ m) ^ n
  {
  }

  lemma OrOr(a: bv8, m: bv8, n: bv8)
    ensures a | (m | n) == (a | m) | n
  {
  }

  /** `b | v | s == b | 0 | s | v` */
  lemma OrSwap(b: bv8, v: bv8, s: bv8)
    ensures b | v | s == b | 0 | s | v
  {
  }

  /** `b | 0 | v == b | 0 | 0 | v` */
  lemma OrNothing(b: bv8, v: bv8)
    ensures b | 0 | v == b | 0 | 0 | v
  {
  }

  lemma LitOrOr(a: bv8, b: bv8, c: bv8, k: nat)
    requires k < 8
    ensures Lit(a | b | c, k) <==> Lit(a, k) || Lit(b, k) || Lit(c, k)
  {
    LitOr(a, b, k);
    LitOr(a | b, c, k);
  }

  lemma LitOr(a: bv8, b: bv8, k: nat)
    requires k < 8
    ensures Lit(a | b, k) <==> Lit(a, k) || Lit(b, k)
  {
  }

  lemma LitXor(a: bv8, b: bv8, k: nat)
    requires k < 8
    ensures Lit(a ^ b, k) <==> Lit(a, k) != Lit(b, k)
  {
    var m := Bit(k);
    assert (a ^ b) & m == (a & m) ^ (b & m);
  }

  lemma LitAndNot(a: bv8, b: bv8, k: nat)
    requires k < 8
    ensures Lit(a & !b, k) <==> Lit(a, k) && !Lit(b, k)
  {
  }

  lemma LitBit(j: nat, k: nat)
    requires j < 8 && k < 8
    ensures Lit(Bit(j), k) <==> j == k
  {
  }

  lemma LitNotBit(j: nat, k: nat)
    requires j < 8 && k < 8
    ensures Lit(!Bit(j), k) <==> j != k
  {
  }

  /** Row `r` of page `p` is bit `r % 8`. */
  lemma RowOfPage(r: int, p: nat, k: nat)
    requires k < 8
    ensures 0 <= r && r / 8 == p ==> (r % 8 == k <==> r == p * 8 + k)
    ensures !(0 <= r && r / 8 == p) ==> r != p * 8 + k
  {
  }

  // ---------------------------------------------------------------------
  // Row masks
  // ---------------------------------------------------------------------

  /** The bit of page `p` that holds row `r`, or nothing when row `r` is on
      another page. */
  function RowBit(p: nat, r: int): bv8
  {
    if 0 <= r && r / 8 == p then Bit(r % 8) else 0
  }

  /** `RowBit(p, r)` lights exactly the pixel of row `r`. */
  lemma RowBitLit(p: nat, r: int, k: nat)
    requires k < 8
    ensures Lit(RowBit(p, r), k) <==> r == p * 8 + k
  {
    RowOfPage(r, p, k);
    if 0 <= r && r / 8 == p {
      LitBit(r % 8, k);
    }
  }

  /** The bits of page `p` that hold rows `lo` to `hi - 1`, gathered one row
      at a time as the drawing loops visit them. */
  function RowsMask(p: nat, lo: int, hi: int): bv8
    decreases hi - lo
  {
    if hi <= lo then 0 else RowsMask(p, lo, hi - 1) | RowBit(p, hi - 1)
  }

  /** Bit `k` of `RowsMask(p, lo, hi)` is set exactly when row `p * 8 + k`
      lies in `[lo, hi)`. */
  lemma {:induction false} RowsMaskLit(p: nat, lo: int, hi: int, k: nat)
    requires k < 8
    ensures Lit(RowsMask(p, lo, hi), k) <==> lo <= p * 8 + k < hi
    decreases hi - lo
  {
    if hi > lo {
      RowsMaskLit(p, lo, hi - 1, k);
      LitOr(RowsMask(p, lo, hi - 1), RowBit(p, hi - 1), k);
      RowBitLit(p, hi - 1, k);
    }
  }

  /** Number of rows of `[lo, hi)` on page `p`. */
  function RowsOnPage(p: nat, lo: int, hi: int): nat
    decreases hi - lo
  {
    if hi <= lo then 0
    else RowsOnPage(p, lo, hi - 1) + (if 0 <= hi - 1 && (hi - 1) / 8 == p then 1 else 0)
  }

  /** What `oled_reverse_area` XORs into a byte of page `p` over rows `lo`
      to `hi - 1`: `~(0x01 << k)` truncated to a byte, once per row. */
  function AsWrittenReverseMask(p: nat, lo: int, hi: int): bv8
    decreases hi - lo
  {
    if hi <= lo then 0
    else
      AsWrittenReverseMask(p, lo, hi - 1) ^ AsWrittenRowMask(p, hi - 1)
  }

  /** `~(0x01 << (r % 8))` for a row `r` of page `p`, else nothing. */
  function AsWrittenRowMask(p: nat, r: int): bv8
  {
    if 0 <= r && r / 8 == p then !Bit(r % 8) else 0
  }

  lemma AsWrittenRowMaskLit(p: nat, r: int, k: nat)
    requires k < 8
    ensures Lit(AsWrittenRowMask(p, r), k) <==> 0 <= r && r / 8 == p && r % 8 != k
  {
    if 0 <= r && r / 8 == p {
      LitNotBit(r % 8, k);
    }
  }

  /** The mask of `[lo, i + 1)` is that of `[lo, i)` XOR that of row `i`. */
  lemma AsWrittenReverseMaskSplit(p: nat, lo: int, i: int)
    requires lo <= i
    ensures AsWrittenReverseMask(p, lo, i + 1) == AsWrittenReverseMask(p, lo, i) ^ AsWrittenRowMask(p, i)
    ensures AsWrittenReverseMask(p, i, i + 1) == AsWrittenRowMask(p, i)
  {
    var t := AsWrittenRowMask(p, i);
    assert AsWrittenReverseMask(p, i, i + 1) == AsWrittenReverseMask(p, i, i) ^ t;
    assert 0 ^ t == t;
  }

  /** Bit `k` of `AsWrittenReverseMask(p, lo, hi)`, row by row: each row
      of the page flips every bit but its own. */
  predicate AsWrittenReverseBit(p: nat, lo: int, hi: int, k: nat)
    decreases hi - lo
  {
    if hi <= lo then false
    else
      AsWrittenReverseBit(p, lo, hi - 1, k) !=
      (0 <= hi - 1 && (hi - 1) / 8 == p && (hi - 1) % 8 != k)
  }

  lemma {:induction false} AsWrittenReverseMaskBits(p: nat, lo: int, hi: int, k: nat)
    requires k < 8
    ensures Lit(AsWrittenReverseMask(p, lo, hi), k) == AsWrittenReverseBit(p, lo, hi, k)
    decreases hi - lo
  {
    if hi > lo {
      AsWrittenReverseMaskBits(p, lo, hi - 1, k);
      AsWrittenMaskStep(p, lo, hi - 1, k);
    }
  }

  lemma AsWrittenMaskStep(p: nat, lo: int, r: int, k: nat)
    requires k < 8 && lo <= r
    ensures Lit(AsWrittenReverseMask(p, lo, r + 1), k) ==
      (Lit(AsWrittenReverseMask(p, lo, r), k) != (0 <= r && r / 8 == p && r % 8 != k))
  {
    var prev := AsWrittenReverseMask(p, lo, r);
    var t := AsWrittenRowMask(p, r);
    LitXor(prev, t, k);
    AsWrittenRowMaskLit(p, r, k);
  }

  lemma {:induction false} AsWrittenReverseBitParity(p: nat, lo: int, hi: int, k: nat)
    requires k < 8
    ensures AsWrittenReverseBit(p, lo, hi, k) ==
      ((RowsOnPage(p, lo, hi) % 2 == 1) != (lo <= p * 8 + k < hi))
    decreases hi - lo
  {
    if hi > lo {
      AsWrittenReverseBitParity(p, lo, hi - 1, k);
      RowOfPage(hi - 1, p, k);
    }
  }

  /** Each XOR of `~(0x01 << k)` flips every pixel of the byte except row
      `k`: bit `k` of the accumulated mask is set when the row is outside the
      area and the page holds an odd number of area rows, or the row is
      inside the area and that number is even. */
  lemma AsWrittenReverseMaskLit(p: nat, lo: int, hi: int, k: nat)
    requires k < 8
    ensures Lit(AsWrittenReverseMask(p, lo, hi), k) <==>
      ((RowsOnPage(p, lo, hi) % 2 == 1) != (lo <= p * 8 + k < hi))
  {
    AsWrittenReverseMaskBits(p, lo, hi, k);
    AsWrittenReverseBitParity(p, lo, hi, k);
  }

  // ---------------------------------------------------------------------
  // One byte of the framebuffer after each routine
  // ---------------------------------------------------------------------

  /** `oled_draw_point(x, y)`. */
  function PointByte(b: bv8, p: nat, c: nat, x: u8, y: u8): bv8
  {
    if c == x then b | RowBit(p, y) else b
  }

  /** `oled_clear_area(x, y, w, h)`. */
  function ClearAreaByte(b: bv8, p: nat, c: nat, x: u8, y: u8, w: u8, h: u8): bv8
  {
    if x <= c < x + w then b & !RowsMask(p, y, y + h) else b
  }

  /** `oled_reverse_area(x, y, w, h)` as written. */
  function AsWrittenReverseAreaByte(b: bv8, p: nat, c: nat, x: u8, y: u8, w: u8, h: u8): bv8
  {
    if x <= c < x + w then b ^ AsWrittenReverseMask(p, y, y + h) else b
  }

  /** `oled_reverse_area(x, y, w, h)` inverting each pixel of the area. */
  function ReverseAreaByte(b: bv8, p: nat, c: nat, x: u8, y: u8, w: u8, h: u8): bv8
  {
    if x <= c < x + w then b ^ RowsMask(p, y, y + h) else b
  }

  /** The bottom row of a rectangle, as the `uint8_t` argument
      `y + height - 1` (255 when both are 0). */
  function LastRow(y: u8, h: u8): u8
  {
    (y + h - 1) % 0x100
  }

  /** `oled_draw_rectangle(x, y, w, h, fill)`. */
  function RectangleByte(b: bv8, p: nat, c: nat, x: u8, y: u8, w: u8, h: u8, fill: bool): bv8
  {
    if fill then
      (if x <= c < x + w then b | RowsMask(p, y, y + h) else b)
    else
      b | OutlineEdges(p, c, x, y, w, h) | OutlineSides(p, c, x, y, w, h)
  }

  /** Number of pages `oled_show_image` draws: `(height - 1) / 8 + 1` in C
      arithmetic, so 1 when `height` is 0. */
  function ImagePages(h: u8): nat
  {
    if h == 0 then 1 else (h - 1) / 8 + 1
  }

  /** `a << s` for a shift `s` of 0 to 7, truncated to a byte. */
  function ShiftUp(a: bv8, s: nat): bv8
    requires s < 8
  {
    match s
    case 0 => a
    case 1 => a << 1
    case 2 => a << 2
    case 3 => a << 3
    case 4 => a << 4
    case 5 => a << 5
    case 6 => a << 6
    case 7 => a << 7
  }

  /** `a >> (8 - s)` for a shift `s` of 0 to 7: nothing is left of `a` when
      `s` is 0. */
  function ShiftDown(a: bv8, s: nat): bv8
    requires s < 8
  {
    match s
    case 0 => 0
    case 1 => a >> 7
    case 2 => a >> 6
    case 3 => a >> 5
    case 4 => a >> 4
    case 5 => a >> 3
    case 6 => a >> 2
    case 7 => a >> 1
  }

  /** Image byte `i`, or nothing when `i` is outside the image. */
  function ImageAt(img: seq<bv8>, i: int): bv8
  {
    if 0 <= i < |img| then img[i] else 0
  }

  /** Whether the pass over image page `i` and column `d` is done when the
      loops stand at page `di`, column `dj`. */
  predicate Drawn(i: int, d: int, di: nat, dj: nat)
  {
    0 <= i && (i < di || (i == di && d < dj))
  }

  /** Image byte `[p - y / 8][d]` shifted up by `y % 8` into page `p`, once
      that image page and column are drawn. */
  function ImageLow(p: nat, d: nat, y: u8, img: seq<bv8>, w: u8, di: nat, dj: nat): bv8
  {
    var i := p - y / 8;
    if Drawn(i, d, di, dj) then ShiftUp(ImageAt(img, i * w + d), y % 8) else 0
  }

  /** The spill of image byte `[p - y / 8 - 1][d]` into page `p`, once that
      image page and column are drawn. */
  function ImageSpill(p: nat, d: nat, y: u8, img: seq<bv8>, w: u8, di: nat, dj: nat): bv8
  {
    var i := p - y / 8 - 1;
    if Drawn(i, d, di, dj) then ShiftDown(ImageAt(img, i * w + d), y % 8) else 0
  }

  /** Byte `[p][c]` once `oled_show_image`'s loops, starting from byte `b`,
      have drawn every image page before `di` and the columns before `dj` of
      page `di`: image byte `[i][d]` is ORed into page `y / 8 + i` shifted up
      by `y % 8`, and its spill into the next page. */
  function ImageProgress(b: bv8, p: nat, c: nat, x: u8, y: u8, img: seq<bv8>, w: u8,
                         di: nat, dj: nat): bv8
  {
    if x <= c < x + w then
      b | ImageLow(p, c - x, y, img, w, di, dj) | ImageSpill(p, c - x, y, img, w, di, dj)
    else b
  }

  /** `oled_show_image(x, y, img, w, h)`: the area is cleared, then every
      image page is drawn. */
  function ImageByte(b: bv8, p: nat, c: nat, x: u8, y: u8, img: seq<bv8>, w: u8, h: u8): bv8
  {
    ImageProgress(ClearAreaByte(b, p, c, x, y, w, h), p, c, x, y, img, w, ImagePages(h), 0)
  }

  // ---------------------------------------------------------------------
  // How the drawing loops build an area, one row and one byte at a time
  // ---------------------------------------------------------------------

  /** Row `i` of the page joins the mask of rows `[lo, i)`. */
  lemma RowsMaskNext(p: nat, lo: int, i: int)
    requires lo <= i
    ensures RowsMask(p, lo, i + 1) == RowsMask(p, lo, i) | RowBit(p, i)
    ensures 0 <= i && i / 8 == p ==> RowBit(p, i) == Bit(i % 8) && !Lit(RowsMask(p, lo, i), i % 8)
    ensures !(0 <= i && i / 8 == p) ==> RowBit(p, i) == 0
  {
    if 0 <= i && i / 8 == p {
      RowsMaskLit(p, lo, i, i % 8);
    }
  }

  /** The mask of `[lo, i + 1)` is that of `[lo, i)` and, apart from it,
      the bit of row `i`. */
  lemma RowsMaskSplit(p: nat, lo: int, i: int)
    requires lo <= i
    ensures RowsMask(p, lo, i + 1) == RowsMask(p, lo, i) | RowBit(p, i)
    ensures RowsMask(p, lo, i) & RowBit(p, i) == 0
    ensures RowsMask(p, i, i + 1) == RowBit(p, i)
  {
    RowsMaskNext(p, lo, i);
    RowsMaskNext(p, i, i);
  }

  /** The area loops of `oled_clear_area` and `oled_reverse_area` handle
      one row `i` at a time: doing rows `[y, i)` and then row `i` is doing
      rows `[y, i + 1)`. */
  lemma ClearAreaNextRow(b: bv8, p: nat, c: nat, x: u8, y: u8, w: u8, i: u8)
    requires y <= i < 0xFF
    ensures ClearAreaByte(ClearAreaByte(b, p, c, x, y, w, i - y), p, c, x, i, w, 1) ==
      ClearAreaByte(b, p, c, x, y, w, i - y + 1)
  {
    if x <= c < x + w {
      assert y + (i - y) == i && y + (i - y + 1) == i + 1;
      RowsMaskSplit(p, y, i);
      AndNotOr(b, RowsMask(p, y, i), RowBit(p, i));
    }
  }

  lemma AsWrittenReverseAreaNextRow(b: bv8, p: nat, c: nat, x: u8, y: u8, w: u8, i: u8)
    requires y <= i < 0xFF
    ensures AsWrittenReverseAreaByte(AsWrittenReverseAreaByte(b, p, c, x, y, w, i - y), p, c, x, i, w, 1) ==
      AsWrittenReverseAreaByte(b, p, c, x, y, w, i - y + 1)
  {
    if x <= c < x + w {
      assert y + (i - y) == i && y + (i - y + 1) == i + 1;
      AsWrittenReverseMaskSplit(p, y, i);
      XorAssoc(b, AsWrittenReverseMask(p, y, i), AsWrittenRowMask(p, i));
    }
  }

  lemma ReverseAreaNextRow(b: bv8, p: nat, c: nat, x: u8, y: u8, w: u8, i: u8)
    requires y <= i < 0xFF
    ensures ReverseAreaByte(ReverseAreaByte(b, p, c, x, y, w, i - y), p, c, x, i, w, 1) ==
      ReverseAreaByte(b, p, c, x, y, w, i - y + 1)
  {
    if x <= c < x + w {
      assert y + (i - y) == i && y + (i - y + 1) == i + 1;
      RowsMaskSplit(p, y, i);
      XorOr(b, RowsMask(p, y, i), RowBit(p, i));
    }
  }

  /** Within row `i`, the loop handles one column `j` at a time: byte
      `[i / 8][j]` loses bit `i % 8`, ... */
  lemma ClearAreaColumnHere(b: bv8, p: nat, x: u8, i: u8, j: u8)
    requires x <= j < 0xFF && i / 8 == p
    ensures ClearAreaByte(b, p, j, x, i, j - x + 1, 1) == ClearAreaByte(b, p, j, x, i, j - x, 1) & !Bit(i % 8)
  {
    RowsMaskSplit(p, i, i);
  }

  /** ... and every other byte keeps its value. */
  lemma ClearAreaColumnElsewhere(b: bv8, p: nat, c: nat, x: u8, i: u8, j: u8)
    requires x <= j < 0xFF && !(c == j && i / 8 == p)
    ensures ClearAreaByte(b, p, c, x, i, j - x + 1, 1) == ClearAreaByte(b, p, c, x, i, j - x, 1)
  {
    if c == j {
      RowsMaskSplit(p, i, i);
    }
  }

  lemma AsWrittenReverseAreaColumnHere(b: bv8, p: nat, x: u8, i: u8, j: u8)
    requires x <= j < 0xFF && i / 8 == p
    ensures AsWrittenReverseAreaByte(b, p, j, x, i, j - x + 1, 1) ==
      AsWrittenReverseAreaByte(b, p, j, x, i, j - x, 1) ^ !Bit(i % 8)
  {
    AsWrittenReverseMaskSplit(p, i, i);
  }

  lemma AsWrittenReverseAreaColumnElsewhere(b: bv8, p: nat, c: nat, x: u8, i: u8, j: u8)
    requires x <= j < 0xFF && !(c == j && i / 8 == p)
    ensures AsWrittenReverseAreaByte(b, p, c, x, i, j - x + 1, 1) == AsWrittenReverseAreaByte(b, p, c, x, i, j - x, 1)
  {
    if c == j {
      AsWrittenReverseMaskSplit(p, i, i);
    }
  }

  lemma ReverseAreaColumnHere(b: bv8, p: nat, x: u8, i: u8, j: u8)
    requires x <= j < 0xFF && i / 8 == p
    ensures ReverseAreaByte(b, p, j, x, i, j - x + 1, 1) == ReverseAreaByte(b, p, j, x, i, j - x, 1) ^ Bit(i % 8)
  {
    RowsMaskSplit(p, i, i);
  }

  lemma ReverseAreaColumnElsewhere(b: bv8, p: nat, c: nat, x: u8, i: u8, j: u8)
    requires x <= j < 0xFF && !(c == j && i / 8 == p)
    ensures ReverseAreaByte(b, p, c, x, i, j - x + 1, 1) == ReverseAreaByte(b, p, c, x, i, j - x, 1)
  {
    if c == j {
      RowsMaskSplit(p, i, i);
    }
  }

  /** Byte `[p][c]` while `oled_draw_rectangle`'s filled loops stand at
      column `i`, row `j`. */
  function FillProgress(b: bv8, p: nat, c: nat, x: u8, y: u8, h: u8, i: int, j: int): bv8
  {
    if x <= c < i then b | RowsMask(p, y, y + h)
    else if c == i then b | RowsMask(p, y, j)
    else b
  }

  /** Drawing point `(i, j)` adds row `j` to column `i`. */
  lemma FillStep(b: bv8, p: nat, c: nat, x: u8, y: u8, h: u8, i: u8, j: u8)
    requires x <= i && y <= j
    ensures PointByte(FillProgress(b, p, c, x, y, h, i, j), p, c, i, j) ==
      FillProgress(b, p, c, x, y, h, i, j + 1)
  {
    if c == i {
      RowsMaskNext(p, y, j);
      OrOr(b, RowsMask(p, y, j), RowBit(p, j));
    }
  }

  /** A finished column is the next column's start. */
  lemma FillColumnDone(b: bv8, p: nat, c: nat, x: u8, y: u8, h: u8, i: int)
    requires x <= i
    ensures FillProgress(b, p, c, x, y, h, i, y + h) == FillProgress(b, p, c, x, y, h, i + 1, y)
  {
  }

  /** The last column done, the fill loops have drawn the rectangle. */
  lemma FillDone(b: bv8, p: nat, c: nat, x: u8, y: u8, w: u8, h: u8)
    ensures FillProgress(b, p, c, x, y, h, x + w, y) == RectangleByte(b, p, c, x, y, w, h, true)
  {
    assert RowsMask(p, y, y) == 0;
  }

  /** Byte `[p][c]` once the outline loop over columns has drawn columns
      `[x, i)` of rows `y` and `y + h - 1`. */
  function EdgesProgress(b: bv8, p: nat, c: nat, x: u8, y: u8, h: u8, i: int): bv8
  {
    b | (if x <= c < i then RowBit(p, y) | RowBit(p, LastRow(y, h)) else 0)
  }

  /** Drawing points `(i, y)` and `(i, y + h - 1)` adds column `i` of the
      two edges. */
  lemma EdgesStep(b: bv8, p: nat, c: nat, x: u8, y: u8, h: u8, i: u8)
    requires x <= i
    ensures PointByte(PointByte(EdgesProgress(b, p, c, x, y, h, i), p, c, i, y), p, c, i, LastRow(y, h)) ==
      EdgesProgress(b, p, c, x, y, h, i + 1)
  {
    if c == i {
      OrOr(b, RowBit(p, y), RowBit(p, LastRow(y, h)));
    }
  }

  /** Byte `[p][c]` once the outline loop over rows has drawn rows `[y, i)`
      of columns `x` and `x + w - 1`. */
  function OutlineProgress(b: bv8, p: nat, c: nat, x: u8, y: u8, w: u8, h: u8, i: int): bv8
  {
    b | OutlineEdges(p, c, x, y, w, h) |
      (if c == x || c == LastRow(x, w) then RowsMask(p, y, i) else 0)
  }

  /** The loop over rows starts where the loop over columns ended. */
  lemma OutlineStart(b: bv8, p: nat, c: nat, x: u8, y: u8, w: u8, h: u8)
    ensures EdgesProgress(b, p, c, x, y, h, x + w) == OutlineProgress(b, p, c, x, y, w, h, y)
  {
  }

  /** Drawing points `(x, i)` and `(x + w - 1, i)` adds row `i` of the two
      sides. */
  lemma OutlineStep(b: bv8, p: nat, c: nat, x: u8, y: u8, w: u8, h: u8, i: u8)
    requires y <= i
    ensures PointByte(PointByte(OutlineProgress(b, p, c, x, y, w, h, i), p, c, x, i), p, c, LastRow(x, w), i) ==
      OutlineProgress(b, p, c, x, y, w, h, i + 1)
  {
    if c == x || c == LastRow(x, w) {
      RowsMaskNext(p, y, i);
      var e := b | OutlineEdges(p, c, x, y, w, h);
      OrOr(e, RowsMask(p, y, i), RowBit(p, i));
    }
  }

  /** What drawing image byte `[i][j]` does to byte `[p][c]`: `lo`, the
      byte shifted up, goes into page `y / 8 + i`, and `hi`, its spill, into
      the page below, both at column `x + j`. */
  function ImageColumnByte(b: bv8, p: nat, c: nat, x: u8, y: u8, lo: bv8, hi: bv8, i: nat, j: nat): bv8
  {
    if c == x + j && p == y / 8 + i then b | lo
    else if c == x + j && p == y / 8 + i + 1 then b | hi
    else b
  }

  /** Drawing image byte `[i][j]` after the bytes before it draws the bytes
      up to it. */
  lemma ImageStep(b: bv8, p: nat, c: nat, x: u8, y: u8, img: seq<bv8>, w: u8, i: nat, j: nat)
    requires j < w
    ensures var v := ImageAt(img, i * w + j);
      ImageColumnByte(ImageProgress(b, p, c, x, y, img, w, i, j), p, c, x, y, ShiftUp(v, y % 8), ShiftDown(v, y % 8), i, j) ==
      ImageProgress(b, p, c, x, y, img, w, i, j + 1)
  {
    if c == x + j && p == y / 8 + i {
      ImageStepLow(b, p, x, y, img, w, i, j);
    } else if c == x + j && p == y / 8 + i + 1 {
      ImageStepSpill(b, p, x, y, img, w, i, j);
    } else {
      ImageStepElsewhere(b, p, c, x, y, img, w, i, j);
    }
  }

  /** Image page `i` of `n` pages of width `w` ends within the first
      `n * w` bytes. */
  lemma ImagePageIndex(i: nat, n: nat, w: nat)
    requires i < n
    ensures i * w + w <= n * w
  {
    assert n * w == i * w + w + (n - i - 1) * w;
  }

  /** Drawing the image's low part at page `y / 8 + i`, column `x + j`. */
  lemma ImageStepLow(b: bv8, p: nat, x: u8, y: u8, img: seq<bv8>, w: u8, i: nat, j: nat)
    requires j < w && p == y / 8 + i
    ensures ImageProgress(b, p, x + j, x, y, img, w, i, j + 1) ==
      ImageProgress(b, p, x + j, x, y, img, w, i, j) | ShiftUp(ImageAt(img, i * w + j), y % 8)
  {
    ImageProgressAt(b, p, x, y, img, w, j, i, j);
    ImageProgressAt(b, p, x, y, img, w, j, i, j + 1);
    ImageLowStep(p, y, img, w, i, j);
    OrSwap(b, ImageLow(p, j, y, img, w, i, j + 1), ImageSpill(p, j, y, img, w, i, j));
  }

  /** Byte `[p][x + d]` of the image's columns. */
  lemma ImageProgressAt(b: bv8, p: nat, x: u8, y: u8, img: seq<bv8>, w: u8, d: nat, di: nat, dj: nat)
    requires d < w
    ensures ImageProgress(b, p, x + d, x, y, img, w, di, dj) ==
      b | ImageLow(p, d, y, img, w, di, dj) | ImageSpill(p, d, y, img, w, di, dj)
  {
    assert x + d - x == d;
  }

  lemma ImageLowStep(p: nat, y: u8, img: seq<bv8>, w: u8, i: nat, j: nat)
    requires p == y / 8 + i
    ensures ImageLow(p, j, y, img, w, i, j) == 0
    ensures ImageLow(p, j, y, img, w, i, j + 1) == ShiftUp(ImageAt(img, i * w + j), y % 8)
    ensures ImageSpill(p, j, y, img, w, i, j + 1) == ImageSpill(p, j, y, img, w, i, j)
  {
  }

  /** Drawing the image's spill at page `y / 8 + i + 1`, column `x + j`. */
  lemma ImageStepSpill(b: bv8, p: nat, x: u8, y: u8, img: seq<bv8>, w: u8, i: nat, j: nat)
    requires j < w && p == y / 8 + i + 1
    ensures ImageProgress(b, p, x + j, x, y, img, w, i, j + 1) ==
      ImageProgress(b, p, x + j, x, y, img, w, i, j) | ShiftDown(ImageAt(img, i * w + j), y % 8)
  {
    ImageProgressAt(b, p, x, y, img, w, j, i, j);
    ImageProgressAt(b, p, x, y, img, w, j, i, j + 1);
    ImageSpillStep(p, y, img, w, i, j);
    OrNothing(b, ImageSpill(p, j, y, img, w, i, j + 1));
  }

  lemma ImageSpillStep(p: nat, y: u8, img: seq<bv8>, w: u8, i: nat, j: nat)
    requires p == y / 8 + i + 1
    ensures ImageSpill(p, j, y, img, w, i, j) == 0
    ensures ImageSpill(p, j, y, img, w, i, j + 1) == ShiftDown(ImageAt(img, i * w + j), y % 8)
    ensures ImageLow(p, j, y, img, w, i, j + 1) == 0
    ensures ImageLow(p, j, y, img, w, i, j) == 0
  {
  }

  /** No other byte changes. */
  lemma ImageStepElsewhere(b: bv8, p: nat, c: nat, x: u8, y: u8, img: seq<bv8>, w: u8, i: nat, j: nat)
    requires j < w && !(c == x + j && (p == y / 8 + i || p == y / 8 + i + 1))
    ensures ImageProgress(b, p, c, x, y, img, w, i, j + 1) == ImageProgress(b, p, c, x, y, img, w, i, j)
  {
    if x <= c < x + w {
      assert ImageLow(p, c - x, y, img, w, i, j + 1) == ImageLow(p, c - x, y, img, w, i, j);
      assert ImageSpill(p, c - x, y, img, w, i, j + 1) == ImageSpill(p, c - x, y, img, w, i, j);
    }
  }

  /** A finished image page is the next page's start. */
  lemma ImagePageDone(b: bv8, p: nat, c: nat, x: u8, y: u8, img: seq<bv8>, w: u8, i: nat)
    ensures ImageProgress(b, p, c, x, y, img, w, i, w) == ImageProgress(b, p, c, x, y, img, w, i + 1, 0)
  {
    if x <= c < x + w {
      assert ImageLow(p, c - x, y, img, w, i, w) == ImageLow(p, c - x, y, img, w, i + 1, 0);
      assert ImageSpill(p, c - x, y, img, w, i, w) == ImageSpill(p, c - x, y, img, w, i + 1, 0);
    }
  }

  // ---------------------------------------------------------------------
  // What each routine does to pixels
  // ---------------------------------------------------------------------

  /** Drawing a point lights the pixel at row `y`, column `x` and changes no
      other pixel. */
  lemma PointPixels(b: bv8, p: nat, c: nat, x: u8, y: u8, k: nat)
    requires k < 8
    ensures Lit(PointByte(b, p, c, x, y), k) <==> Lit(b, k) || (c == x && p * 8 + k == y)
  {
    LitOr(b, RowBit(p, y), k);
    RowBitLit(p, y, k);
  }

  /** Clearing an area darkens every pixel of `[x, x + w) x [y, y + h)` and
      leaves every other pixel as it was. */
  lemma ClearAreaPixels(b: bv8, p: nat, c: nat, x: u8, y: u8, w: u8, h: u8, k: nat)
    requires k < 8
    ensures Lit(ClearAreaByte(b, p, c, x, y, w, h), k) <==>
      Lit(b, k) && !(x <= c < x + w && y <= p * 8 + k < y + h)
  {
    if x <= c < x + w {
      RowsMaskLit(p, y, y + h, k);
      LitAndNot(b, RowsMask(p, y, y + h), k);
    }
  }

  /** Reversing an area with the intended per-pixel XOR inverts exactly the
      pixels of `[x, x + w) x [y, y + h)`. */
  lemma ReverseAreaPixels(b: bv8, p: nat, c: nat, x: u8, y: u8, w: u8, h: u8, k: nat)
    requires k < 8
    ensures Lit(ReverseAreaByte(b, p, c, x, y, w, h), k) <==>
      (Lit(b, k) != (x <= c < x + w && y <= p * 8 + k < y + h))
  {
    if x <= c < x + w {
      RowsMaskLit(p, y, y + h, k);
      LitXor(b, RowsMask(p, y, y + h), k);
    }
  }

  /** Reversing an area as written inverts, in each column of the area, the
      pixels of the area when the page holds an even number of area rows,
      and the page's other pixels instead when that number is odd. */
  lemma AsWrittenReverseAreaPixels(b: bv8, p: nat, c: nat, x: u8, y: u8, w: u8, h: u8, k: nat)
    requires k < 8
    ensures Lit(AsWrittenReverseAreaByte(b, p, c, x, y, w, h), k) <==>
      (Lit(b, k) != (x <= c < x + w &&
                     ((RowsOnPage(p, y, y + h) % 2 == 1) != (y <= p * 8 + k < y + h))))
  {
    if x <= c < x + w {
      AsWrittenReverseMaskLit(p, y, y + h, k);
      LitXor(b, AsWrittenReverseMask(p, y, y + h), k);
    }
  }

  /** Reversing the same area twice restores every byte, both as written and
      as intended. */
  lemma ReverseAreaTwice(b: bv8, p: nat, c: nat, x: u8, y: u8, w: u8, h: u8)
    ensures AsWrittenReverseAreaByte(AsWrittenReverseAreaByte(b, p, c, x, y, w, h), p, c, x, y, w, h) == b
    ensures ReverseAreaByte(ReverseAreaByte(b, p, c, x, y, w, h), p, c, x, y, w, h) == b
  {
  }

  /** The smallest area shows the defect: reversing the single pixel at
      (0, 0) of a dark screen lights the seven pixels below it instead. */
  lemma AsWrittenReverseOnePixel()
    ensures AsWrittenReverseAreaByte(0, 0, 0, 0, 0, 1, 1) == 0xFE
    ensures ReverseAreaByte(0, 0, 0, 0, 0, 1, 1) == 0x01
  {
    assert RowsMask(0, 0, 1) == 0x01;
  }

  /** A filled rectangle lights every pixel of `[x, x + w) x [y, y + h)`
      and changes nothing else. */
  lemma FilledRectanglePixels(b: bv8, p: nat, c: nat, x: u8, y: u8, w: u8, h: u8, k: nat)
    requires k < 8
    ensures Lit(RectangleByte(b, p, c, x, y, w, h, true), k) <==>
      Lit(b, k) || (x <= c < x + w && y <= p * 8 + k < y + h)
  {
    if x <= c < x + w {
      RowsMaskLit(p, y, y + h, k);
      LitOr(b, RowsMask(p, y, y + h), k);
    }
  }

  /** Rows `y` and `y + h - 1` of an outline, in columns `[x, x + w)`. */
  function OutlineEdges(p: nat, c: nat, x: u8, y: u8, w: u8, h: u8): bv8
  {
    if x <= c < x + w then RowBit(p, y) | RowBit(p, LastRow(y, h)) else 0
  }

  /** Columns `x` and `x + w - 1` of an outline, in rows `[y, y + h)`. */
  function OutlineSides(p: nat, c: nat, x: u8, y: u8, w: u8, h: u8): bv8
  {
    if c == x || c == LastRow(x, w) then RowsMask(p, y, y + h) else 0
  }

  lemma OutlineEdgesLit(p: nat, c: nat, x: u8, y: u8, w: u8, h: u8, k: nat)
    requires k < 8
    ensures Lit(OutlineEdges(p, c, x, y, w, h), k) <==>
      x <= c < x + w && (p * 8 + k == y || p * 8 + k == LastRow(y, h))
  {
    if x <= c < x + w {
      LitOr(RowBit(p, y), RowBit(p, LastRow(y, h)), k);
      RowBitLit(p, y, k);
      RowBitLit(p, LastRow(y, h), k);
    }
  }

  lemma OutlineSidesLit(p: nat, c: nat, x: u8, y: u8, w: u8, h: u8, k: nat)
    requires k < 8
    ensures Lit(OutlineSides(p, c, x, y, w, h), k) <==>
      (c == x || c == LastRow(x, w)) && y <= p * 8 + k < y + h
  {
    if c == x || c == LastRow(x, w) {
      RowsMaskLit(p, y, y + h, k);
    }
  }

  /** An outlined rectangle lights the pixels of rows `y` and `y + h - 1`
      within columns `[x, x + w)` and of columns `x` and `x + w - 1` within
      rows `[y, y + h)` (each as a `uint8_t`) and changes nothing else. */
  lemma OutlineRectanglePixels(b: bv8, p: nat, c: nat, x: u8, y: u8, w: u8, h: u8, k: nat)
    requires k < 8
    ensures Lit(RectangleByte(b, p, c, x, y, w, h, false), k) <==>
      Lit(b, k) ||
      (x <= c < x + w && (p * 8 + k == y || p * 8 + k == LastRow(y, h))) ||
      ((c == x || c == LastRow(x, w)) && y <= p * 8 + k < y + h)
  {
    var e := OutlineEdges(p, c, x, y, w, h);
    var v := OutlineSides(p, c, x, y, w, h);
    LitOr(b, e, k);
    LitOr(b | e, v, k);
    OutlineEdgesLit(p, c, x, y, w, h, k);
    OutlineSidesLit(p, c, x, y, w, h, k);
  }

  /** Shifting a byte up by `s` moves its bit `k - s` to bit `k`. */
  lemma ShiftUpLit(a: bv8, s: nat, k: nat)
    requires s < 8 && k < 8
    ensures Lit(ShiftUp(a, s), k) <==> k >= s && Lit(a, k - s)
  {
  }

  /** Shifting a byte down by `8 - s` moves its bit `k + 8 - s` to bit `k`. */
  lemma ShiftDownLit(a: bv8, s: nat, k: nat)
    requires s < 8 && k < 8
    ensures Lit(ShiftDown(a, s), k) <==> k < s && Lit(a, k + 8 - s)
  {
  }

  /** Image pixel `(t, d)`: bit `t % 8` of byte `[t / 8][d]`. */
  predicate ImageLit(img: seq<bv8>, w: u8, t: nat, d: nat)
  {
    Lit(ImageAt(img, (t / 8) * w + d), t % 8)
  }

  /** Row `p * 8 + k` lies `t` rows below `y`, on image page `p - y / 8` when
      `k >= y % 8` and on the page before otherwise. */
  lemma ImageRowOffset(p: nat, y: u8, k: nat)
    requires k < 8 && y <= p * 8 + k
    ensures var t := p * 8 + k - y;
      (k >= y % 8 ==> t / 8 == p - y / 8 && t % 8 == k - y % 8) &&
      (k < y % 8 ==> t / 8 == p - y / 8 - 1 && t % 8 == k + 8 - y % 8)
  {
    var t := p * 8 + k - y;
    if k >= y % 8 {
      assert t == (p - y / 8) * 8 + (k - y % 8);
    } else {
      assert t == (p - y / 8 - 1) * 8 + (k + 8 - y % 8);
    }
  }

  lemma ImageLowLit(p: nat, d: nat, y: u8, img: seq<bv8>, w: u8, n: nat, k: nat)
    requires k < 8
    ensures Lit(ImageLow(p, d, y, img, w, n, 0), k) <==>
      k >= y % 8 && y <= p * 8 + k && p - y / 8 < n && ImageLit(img, w, p * 8 + k - y, d)
  {
    var i := p - y / 8;
    if Drawn(i, d, n, 0) {
      ShiftUpLit(ImageAt(img, i * w + d), y % 8, k);
      if k >= y % 8 {
        ImageRowOffset(p, y, k);
      }
    }
  }

  lemma ImageSpillLit(p: nat, d: nat, y: u8, img: seq<bv8>, w: u8, n: nat, k: nat)
    requires k < 8
    ensures Lit(ImageSpill(p, d, y, img, w, n, 0), k) <==>
      k < y % 8 && y <= p * 8 + k && p - y / 8 - 1 < n && ImageLit(img, w, p * 8 + k - y, d)
  {
    var i := p - y / 8 - 1;
    if Drawn(i, d, n, 0) {
      ShiftDownLit(ImageAt(img, i * w + d), y % 8, k);
      if k < y % 8 {
        ImageRowOffset(p, y, k);
      }
    }
  }

  /** The rows of `n` image pages below `y`, split by where they land. */
  lemma ImageRowsSplit(p: nat, y: u8, n: nat, k: nat)
    requires k < 8
    ensures y <= p * 8 + k < y + 8 * n <==>
      (k >= y % 8 && y <= p * 8 + k && p - y / 8 < n) ||
      (k < y % 8 && y <= p * 8 + k && p - y / 8 - 1 < n)
  {
    assert y == y / 8 * 8 + y % 8;
  }

  /** Drawing the image pages ORs image pixel `(t, d)` into the screen pixel
      at row `y + t`, column `x + d`, for every row `t` of the pages drawn;
      every other pixel keeps its value. */
  lemma ImageProgressPixels(b: bv8, p: nat, c: nat, x: u8, y: u8, img: seq<bv8>, w: u8,
                            n: nat, k: nat)
    requires k < 8
    ensures Lit(ImageProgress(b, p, c, x, y, img, w, n, 0), k) <==>
      Lit(b, k) ||
      (x <= c < x + w && y <= p * 8 + k < y + 8 * n && ImageLit(img, w, p * 8 + k - y, c - x))
  {
    if x <= c < x + w {
      var lo := ImageLow(p, c - x, y, img, w, n, 0);
      var hi := ImageSpill(p, c - x, y, img, w, n, 0);
      LitOrOr(b, lo, hi, k);
      ImageColumnLit(p, c - x, y, img, w, n, k);
    }
  }

  /** Column `d` of the image pages drawn lands on page `p` as the image
      pixels of rows `p * 8 + k - y`. */
  lemma ImageColumnLit(p: nat, d: nat, y: u8, img: seq<bv8>, w: u8, n: nat, k: nat)
    requires k < 8
    ensures Lit(ImageLow(p, d, y, img, w, n, 0), k) || Lit(ImageSpill(p, d, y, img, w, n, 0), k) <==>
      y <= p * 8 + k < y + 8 * n && ImageLit(img, w, p * 8 + k - y, d)
  {
    ImageLowLit(p, d, y, img, w, n, k);
    ImageSpillLit(p, d, y, img, w, n, k);
    ImageRowsSplit(p, y, n, k);
  }

  /** Showing an image: inside `[x, x + w) x [y, y + h)` each pixel becomes
      the image's pixel; below that, down to the last image page drawn,
      image pixels are ORed onto the screen without clearing; everything
      else is unchanged. */
  lemma ImagePixels(b: bv8, p: nat, c: nat, x: u8, y: u8, img: seq<bv8>, w: u8, h: u8, k: nat)
    requires k < 8
    ensures var r := p * 8 + k;
      var inColumns := x <= c < x + w;
      (inColumns && y <= r < y + h ==>
        (Lit(ImageByte(b, p, c, x, y, img, w, h), k) <==> ImageLit(img, w, r - y, c - x))) &&
      (inColumns && y + h <= r < y + 8 * ImagePages(h) ==>
        (Lit(ImageByte(b, p, c, x, y, img, w, h), k) <==> Lit(b, k) || ImageLit(img, w, r - y, c - x))) &&
      (!(inColumns && y <= r < y + 8 * ImagePages(h)) ==>
        (Lit(ImageByte(b, p, c, x, y, img, w, h), k) <==> Lit(b, k)))
  {
    ClearAreaPixels(b, p, c, x, y, w, h, k);
    ImageProgressPixels(ClearAreaByte(b, p, c, x, y, w, h), p, c, x, y, img, w, ImagePages(h), k);
  }
}
