/** The text routines of `Drivers/HardWare/oled.c` as values: the font
    tables, how `oled_show_string` splits a byte string into characters,
    where it draws each one, and what drawing them does to one byte of the
    framebuffer. */
module OledText {
  import opened Ints
  import opened OledPixels

  /** `OLED_FONT_6X8`, `OLED_FONT_7X12`, `OLED_FONT_8X16`: a font size is
      the glyph width. */
  const Font6x8: u8 := 6
  const Font7x12: u8 := 7
  const Font8x16: u8 := 8

  // ---------------------------------------------------------------------
  // Font tables
  // ---------------------------------------------------------------------

  /** `OLED_Character_t`: the NUL-terminated GBK code `Index[3]` of a
      Chinese character and its glyph `Data[32]`. */
  datatype Character = Character(index: seq<u8>, data: seq<bv8>)

  /** The glyph tables of `oled_font.h`, which the driver only declares. */
  datatype Fonts = Fonts(
    ascii6x8: seq<seq<bv8>>,
    ascii7x12: seq<seq<bv8>>,
    ascii8x16: seq<seq<bv8>>,
    chinese12: seq<Character>,
    chinese16: seq<Character>)

  /** The bytes `strcmp` compares: those before the first NUL. */
  function CString(a: seq<u8>): (r: seq<u8>)
    ensures r <= a && 0 !in r
    ensures |r| < |a| ==> a[|r|] == 0
  {
    if a == [] || a[0] == 0 then [] else [a[0]] + CString(a[1..])
  }

  /** Entries have the declared array sizes, and an entry with an empty
      index ends the table: the lookup loop of `oled_show_string` stops
      there. */
  predicate ValidTable(t: seq<Character>)
  {
    (forall i :: 0 <= i < |t| ==> |t[i].index| == 3 && |t[i].data| == 32) &&
    exists i :: 0 <= i < |t| && CString(t[i].index) == []
  }

  /** Glyph rows have the declared lengths: 6, 14 and 16 bytes. */
  predicate ValidFonts(f: Fonts)
  {
    (forall i :: 0 <= i < |f.ascii6x8| ==> |f.ascii6x8[i]| == 6) &&
    (forall i :: 0 <= i < |f.ascii7x12| ==> |f.ascii7x12[i]| == 14) &&
    (forall i :: 0 <= i < |f.ascii8x16| ==> |f.ascii8x16[i]| == 16) &&
    ValidTable(f.chinese12) && ValidTable(f.chinese16)
  }

  /** The sizes `oled_show_char` draws. */
  predicate IsAsciiSize(size: u8)
  {
    size == Font6x8 || size == Font7x12 || size == Font8x16
  }

  /** Glyph height of each ASCII font. */
  function AsciiHeight(size: u8): u8
    requires IsAsciiSize(size)
  {
    if size == Font6x8 then 8 else if size == Font7x12 then 12 else 16
  }

  function AsciiTable(f: Fonts, size: u8): seq<seq<bv8>>
    requires IsAsciiSize(size)
  {
    if size == Font6x8 then f.ascii6x8 else if size == Font7x12 then f.ascii7x12 else f.ascii8x16
  }

  /** Every ASCII glyph holds exactly the image pages `oled_show_image`
      reads for a glyph `size` wide and `AsciiHeight(size)` high. */
  lemma AsciiGlyphShape(f: Fonts, size: u8, i: nat)
    requires ValidFonts(f) && IsAsciiSize(size) && i < |AsciiTable(f, size)|
    ensures |AsciiTable(f, size)[i]| == ImagePages(AsciiHeight(size)) * size
  {
  }

  /** The Chinese glyphs drawn in a font size: 12 x 12 for size 7, else
      16 x 16. */
  function ChineseSize(size: u8): u8
  {
    if size == Font7x12 then 12 else 16
  }

  function ChineseTable(f: Fonts, size: u8): seq<Character>
  {
    if size == Font7x12 then f.chinese12 else f.chinese16
  }

  /** Every Chinese glyph holds at least the image pages `oled_show_image`
      reads for a square of side `ChineseSize(size)`. */
  lemma ChineseGlyphShape(f: Fonts, size: u8, i: nat)
    requires ValidFonts(f) && i < |ChineseTable(f, size)|
    ensures ImagePages(ChineseSize(size)) * ChineseSize(size) <= |ChineseTable(f, size)[i].data|
  {
  }

  /** The entry the lookup loop of `oled_show_string` stops at, searching
      from entry `i`: the first whose index is `key` or empty. */
  function FindCharacter(t: seq<Character>, key: seq<u8>, i: nat): (r: nat)
    requires i <= |t| && exists j :: i <= j < |t| && CString(t[j].index) == []
    ensures i <= r < |t|
    ensures CString(t[r].index) == key || CString(t[r].index) == []
    ensures forall j :: i <= j < r ==> CString(t[j].index) != key && CString(t[j].index) != []
    decreases |t| - i
  {
    if CString(t[i].index) == [] || CString(t[i].index) == key then i
    else FindCharacter(t, key, i + 1)
  }

  // ---------------------------------------------------------------------
  // Splitting a string into characters
  // ---------------------------------------------------------------------

  /** A character of a string: one byte with the top bit clear, or a lead
      byte with the top bit set and the byte after it. */
  datatype Unit = Single(ch: u8) | Double(lead: u8, trail: u8)

  predicate WellFormed(u: Unit)
  {
    match u
    case Single(ch) => 0 < ch < 0x80
    case Double(lead, trail) => 0x80 <= lead && trail != 0
  }

  /** The characters `oled_show_string` draws from `s`, which ends at its
      first NUL or, failing that, at its end: a lead byte with nothing
      after it ends the string too. */
  function Units(s: seq<u8>): (r: seq<Unit>)
    ensures forall i :: 0 <= i < |r| ==> WellFormed(r[i])
  {
    if s == [] || s[0] == 0 then []
    else if s[0] < 0x80 then [Single(s[0])] + Units(s[1..])
    else if |s| == 1 || s[1] == 0 then []
    else [Double(s[0], s[1])] + Units(s[2..])
  }

  function UnitBytes(u: Unit): seq<u8>
  {
    match u
    case Single(ch) => [ch]
    case Double(lead, trail) => [lead, trail]
  }

  /** The bytes of a sequence of characters. */
  function Bytes(us: seq<Unit>): seq<u8>
  {
    if us == [] then [] else UnitBytes(us[0]) + Bytes(us[1..])
  }

  /** Splitting the bytes of well-formed characters, followed by a NUL or
      nothing, gives the characters back. */
  lemma {:induction false} UnitsOfBytes(us: seq<Unit>, tail: seq<u8>)
    requires forall i :: 0 <= i < |us| ==> WellFormed(us[i])
    requires tail == [] || tail[0] == 0
    ensures Units(Bytes(us) + tail) == us
  {
    if us != [] {
      var rest := Bytes(us[1..]) + tail;
      UnitsOfBytes(us[1..], tail);
      assert Bytes(us) + tail == UnitBytes(us[0]) + rest;
      match us[0]
      case Single(ch) => UnitsSingle(ch, rest);
      case Double(lead, trail) => UnitsDouble(lead, trail, rest);
    }
  }

  lemma UnitsSingle(ch: u8, rest: seq<u8>)
    requires 0 < ch < 0x80
    ensures Units([ch] + rest) == [Single(ch)] + Units(rest)
  {
    assert ([ch] + rest)[1..] == rest;
  }

  lemma UnitsDouble(lead: u8, trail: u8, rest: seq<u8>)
    requires 0x80 <= lead && trail != 0
    ensures Units([lead, trail] + rest) == [Double(lead, trail)] + Units(rest)
  {
    assert ([lead, trail] + rest)[2..] == rest;
  }

  /** The characters split off are the string's first bytes; what is left
      is empty, starts with a NUL, or is a lead byte followed by a NUL or
      nothing. */
  lemma {:induction false} BytesOfUnits(s: seq<u8>)
    ensures Bytes(Units(s)) <= s
    ensures var rest := s[|Bytes(Units(s))|..];
      rest == [] || rest[0] == 0 || (0x80 <= rest[0] && (|rest| == 1 || rest[1] == 0))
  {
    if s == [] || s[0] == 0 {
    } else if s[0] < 0x80 {
      BytesOfUnits(s[1..]);
      assert Bytes(Units(s)) == [s[0]] + Bytes(Units(s[1..]));
      assert s[|Bytes(Units(s))|..] == s[1..][|Bytes(Units(s[1..]))|..];
    } else if |s| == 1 || s[1] == 0 {
    } else {
      BytesOfUnits(s[2..]);
      assert Bytes(Units(s)) == [s[0], s[1]] + Bytes(Units(s[2..]));
      assert s[|Bytes(Units(s))|..] == s[2..][|Bytes(Units(s[2..]))|..];
    }
  }

  // ---------------------------------------------------------------------
  // Where each character is drawn
  // ---------------------------------------------------------------------

  /** How far `oled_show_string` moves `x` past a character: the font
      size for one byte, the Chinese glyph width for two. */
  function UnitWidth(u: Unit, size: u8): u8
  {
    match u
    case Single(_) => size
    case Double(_, _) => ChineseSize(size)
  }

  /** `x` after the first `n` characters of `us`, advanced as a
      `uint8_t`. */
  function XAfter(x: u8, us: seq<Unit>, n: nat, size: u8): u8
    requires n <= |us|
  {
    if n == 0 then x
    else (XAfter(x, us, n - 1, size) + UnitWidth(us[n - 1], size)) % 0x100
  }

  /** What `oled_show_char(x, y, ch, size)` needs: a glyph for `ch` and
      an area whose `uint8_t` loops end, for the sizes it draws. */
  predicate CharDrawable(f: Fonts, x: u8, y: u8, ch: u8, size: u8)
  {
    IsAsciiSize(size) ==>
      32 <= ch && ch - 32 < |AsciiTable(f, size)| && y + AsciiHeight(size) <= 0xFF && x + size <= 0xFF
  }

  /** What drawing a character needs; a two-byte character needs a
      Chinese font, since any other size leaves the glyph table NULL. */
  predicate UnitDrawable(f: Fonts, x: u8, y: u8, u: Unit, size: u8)
  {
    match u
    case Single(ch) => CharDrawable(f, x, y, ch, size)
    case Double(_, _) =>
      (size == Font7x12 || size == Font8x16) &&
      y + ChineseSize(size) <= 0xFF && x + ChineseSize(size) <= 0xFF
  }

  /** Each of the first `n` characters of `us` can be drawn where it
      falls. */
  predicate Drawable(f: Fonts, x: u8, y: u8, us: seq<Unit>, n: nat, size: u8)
    requires n <= |us|
  {
    forall i :: 0 <= i < n ==> UnitDrawable(f, XAfter(x, us, i, size), y, us[i], size)
  }

  // ---------------------------------------------------------------------
  // What drawing characters does to a byte
  // ---------------------------------------------------------------------

  /** `oled_show_char(x, y, ch, size)`: glyph `ch - ' '` of the font, or
      nothing for another size. */
  function CharByte(b: bv8, p: nat, c: nat, f: Fonts, x: u8, y: u8, ch: u8, size: u8): bv8
    requires CharDrawable(f, x, y, ch, size)
  {
    if IsAsciiSize(size) then ImageByte(b, p, c, x, y, AsciiTable(f, size)[ch - 32], size, AsciiHeight(size))
    else b
  }

  /** A character drawn at `x`: one byte by `oled_show_char`, two bytes by
      `oled_show_image` with the glyph the lookup finds. */
  function UnitByte(b: bv8, p: nat, c: nat, f: Fonts, x: u8, y: u8, u: Unit, size: u8): bv8
    requires ValidFonts(f) && UnitDrawable(f, x, y, u, size)
  {
    match u
    case Single(ch) => CharByte(b, p, c, f, x, y, ch, size)
    case Double(lead, trail) =>
      var t := ChineseTable(f, size);
      ImageByte(b, p, c, x, y, t[FindCharacter(t, [lead, trail], 0)].data, ChineseSize(size), ChineseSize(size))
  }

  /** The first `n` characters of `us` drawn one after the other from
      `x`. */
  function StringByte(b: bv8, p: nat, c: nat, f: Fonts, x: u8, y: u8, us: seq<Unit>, n: nat, size: u8): bv8
    requires ValidFonts(f) && n <= |us| && Drawable(f, x, y, us, n, size)
  {
    if n == 0 then b
    else UnitByte(StringByte(b, p, c, f, x, y, us, n - 1, size), p, c, f, XAfter(x, us, n - 1, size), y, us[n - 1], size)
  }

  /** Inside its box, a character's pixels are the glyph's; below the box,
      down to the glyph's last page, glyph pixels are added; every other
      pixel keeps its value, and a size other than 6, 7 or 8 draws
      nothing. */
  lemma CharPixels(b: bv8, p: nat, c: nat, f: Fonts, x: u8, y: u8, ch: u8, size: u8, k: nat)
    requires CharDrawable(f, x, y, ch, size) && k < 8
    ensures !IsAsciiSize(size) ==> CharByte(b, p, c, f, x, y, ch, size) == b
    ensures IsAsciiSize(size) ==>
      var g := AsciiTable(f, size)[ch - 32];
      var r := p * 8 + k;
      (x <= c < x + size && y <= r < y + AsciiHeight(size) ==>
        (Lit(CharByte(b, p, c, f, x, y, ch, size), k) <==> ImageLit(g, size, r - y, c - x))) &&
      (x <= c < x + size && y + AsciiHeight(size) <= r < y + 8 * ImagePages(AsciiHeight(size)) ==>
        (Lit(CharByte(b, p, c, f, x, y, ch, size), k) <==> Lit(b, k) || ImageLit(g, size, r - y, c - x))) &&
      (!(x <= c < x + size && y <= r < y + 8 * ImagePages(AsciiHeight(size))) ==>
        (Lit(CharByte(b, p, c, f, x, y, ch, size), k) <==> Lit(b, k)))
  {
    if IsAsciiSize(size) {
      ImagePixels(b, p, c, x, y, AsciiTable(f, size)[ch - 32], size, AsciiHeight(size), k);
    }
  }

  /** The string after character `u` is `u` and the string after it. */
  lemma UnitsStep(s: seq<u8>, k: nat)
    requires k < |s| && s[k] != 0
    ensures s[k] < 0x80 ==> Units(s[k..]) == [Single(s[k])] + Units(s[k + 1..])
    ensures 0x80 <= s[k] && k + 1 < |s| && s[k + 1] != 0 ==>
      Units(s[k..]) == [Double(s[k], s[k + 1])] + Units(s[k + 2..])
    ensures 0x80 <= s[k] && (k + 1 == |s| || s[k + 1] == 0) ==> Units(s[k..]) == []
  {
    assert s[k..][1..] == s[k + 1..];
    if k + 1 < |s| {
      assert s[k..][2..] == s[k + 2..];
    }
  }

  /** The characters from `n` on are `u` and then `rest`. */
  lemma DropNext(us: seq<Unit>, n: nat, u: Unit, rest: seq<Unit>)
    requires n <= |us| && us[n..] == [u] + rest
    ensures n < |us| && us[n] == u && us[n + 1..] == rest
  {
    assert us[n..][0] == u;
    assert us[n + 1..] == us[n..][1..];
  }

  /** One character on, `x` has moved by that character's width. */
  lemma XAfterNext(x: u8, us: seq<Unit>, n: nat, size: u8)
    requires n < |us|
    ensures XAfter(x, us, n + 1, size) == (XAfter(x, us, n, size) + UnitWidth(us[n], size)) % 0x100
  {
  }

  /** A byte in none of the first `n` characters' columns. */
  predicate OutsideAll(x: u8, us: seq<Unit>, n: nat, size: u8, c: nat)
    requires n <= |us|
  {
    n == 0 ||
    (OutsideAll(x, us, n - 1, size, c) &&
     var ux := XAfter(x, us, n - 1, size);
     !(ux <= c < ux + UnitWidth(us[n - 1], size)))
  }

  /** Drawing a string changes no byte outside the columns of its
      characters. */
  lemma {:induction false} StringOutside(b: bv8, p: nat, c: nat, f: Fonts, x: u8, y: u8, us: seq<Unit>, n: nat, size: u8)
    requires ValidFonts(f) && n <= |us| && Drawable(f, x, y, us, n, size) && OutsideAll(x, us, n, size, c)
    ensures StringByte(b, p, c, f, x, y, us, n, size) == b
  {
    if n > 0 {
      StringOutside(b, p, c, f, x, y, us, n - 1, size);
      UnitOutside(StringByte(b, p, c, f, x, y, us, n - 1, size), p, c, f, XAfter(x, us, n - 1, size), y, us[n - 1], size);
    }
  }

  /** A character changes no byte outside its columns. */
  lemma UnitOutside(b: bv8, p: nat, c: nat, f: Fonts, x: u8, y: u8, u: Unit, size: u8)
    requires ValidFonts(f) && UnitDrawable(f, x, y, u, size) && !(x <= c < x + UnitWidth(u, size))
    ensures UnitByte(b, p, c, f, x, y, u, size) == b
  {
  }
}
