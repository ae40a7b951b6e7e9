/** Pixels in memory: how a colour, a row of a glyph and a character cell are written at 16, 24 and 32 bits. */
module Raster {
  import opened Blocks

  const CHAR_W := 8
  const CHAR_H := 16
  const SPACE: Byte := 32
  const GREY: Byte := 7

  datatype Rgb = Rgb(r: Byte, g: Byte, b: Byte)

  const BLACK := Rgb(0, 0, 0)

  /** A linear framebuffer: scan lines of `pitch` bytes, the first `width` pixels of each in use. */
  datatype Mode = Mode(bpp: nat, width: nat, height: nat, pitch: nat) {
    function Depth(): nat {
      bpp / 8
    }

    predicate Ok() {
      (bpp == 16 || bpp == 24 || bpp == 32) && width * Depth() <= pitch
    }

    function Cols(): nat {
      width / CHAR_W
    }

    function Rows(): nat {
      height / CHAR_H
    }

    /** The bytes of a cell in each of its scan lines. */
    function CellBytes(): nat {
      CHAR_W * Depth()
    }
  }

  type Lines = seq<seq<Byte>>

  /** The sixteen colours of the text attributes. */
  function Palette(i: nat): Rgb
    requires i < 16
  {
    [Rgb(0, 0, 0), Rgb(0, 0, 175), Rgb(0, 175, 0), Rgb(0, 175, 175),
     Rgb(175, 0, 0), Rgb(175, 0, 175), Rgb(175, 175, 0), Rgb(175, 175, 175),
     Rgb(85, 85, 85), Rgb(85, 85, 255), Rgb(85, 255, 85), Rgb(85, 255, 255),
     Rgb(255, 85, 85), Rgb(255, 85, 255), Rgb(255, 255, 85), Rgb(255, 255, 255)][i]
  }

  /** A pixel as its bytes: blue, green, red, and at 32 bits a fourth, 255; at 16 bits five, six and five bits. */
  function PixelBytes(m: Mode, c: Rgb): (s: seq<Byte>)
    requires m.Ok()
    ensures |s| == m.Depth()
  {
    if m.bpp == 32 then [c.b, c.g, c.r, 255]
    else if m.bpp == 24 then [c.b, c.g, c.r]
    else
      var v := c.r / 8 * 2048 + c.g / 4 * 32 + c.b / 8;
      [v % 256, v / 256]
  }

  type Font = f: seq<seq<Byte>> | |f| == 128 && (forall i :: 0 <= i < 128 ==> |f[i]| == CHAR_H)
                                && (forall k :: 0 <= k < CHAR_H ==> f[SPACE][k] == 0)
    witness seq(128, _ => seq(CHAR_H, _ => 0))

  function Glyph(ch: Byte): Byte {
    if ch > 127 then '?' as int else ch
  }

  /** The colour of one pixel of a character: the attribute's low half where the glyph's bit is set, else its high. */
  function Colour(font: Font, ch: Byte, attr: Byte, dx: nat, dy: nat): Rgb
    requires dx < CHAR_W && dy < CHAR_H
  {
    var mask := font[Glyph(ch)][dy];
    if mask / Power(7 - dx) % 2 == 1 then Palette(attr % 16) else Palette(attr / 16)
  }

  function Power(n: nat): (p: nat)
    ensures p > 0
  {
    if n == 0 then 1 else 2 * Power(n - 1)
  }

  /** The first `n` pixels of scan line `dy` of a character. */
  function GlyphRow(m: Mode, font: Font, ch: Byte, attr: Byte, dy: nat, n: nat): (s: seq<Byte>)
    requires m.Ok() && dy < CHAR_H && n <= CHAR_W
    ensures |s| == n * m.Depth()
  {
    if n == 0 then []
    else
      GlyphRow(m, font, ch, attr, dy, n - 1) + PixelBytes(m, Colour(font, ch, attr, n - 1, dy))
  }

  /** `n` pixels of one colour. */
  function Run(m: Mode, c: Rgb, n: nat): (s: seq<Byte>)
    requires m.Ok()
    ensures |s| == n * m.Depth()
  {
    if n == 0 then [] else Run(m, c, n - 1) + PixelBytes(m, c)
  }

  /** A blank is black: a space on the default attribute is the background's colour throughout. */
  lemma {:induction false} BlankIsBlack(m: Mode, font: Font, dy: nat, n: nat)
    requires m.Ok() && dy < CHAR_H && n <= CHAR_W
    ensures GlyphRow(m, font, SPACE, GREY, dy, n) == Run(m, BLACK, n)
    decreases n
  {
    if n > 0 {
      BlankIsBlack(m, font, dy, n - 1);
      assert font[SPACE][dy] == 0 && 0 / Power(7 - (n - 1)) == 0;
    }
  }

  /** A line with `bytes` stored from `off` on. */
  function Put(line: seq<Byte>, off: nat, bytes: seq<Byte>): (s: seq<Byte>)
    requires off + |bytes| <= |line|
    ensures |s| == |line|
  {
    line[..off] + bytes + line[off + |bytes|..]
  }

  lemma PutReads(line: seq<Byte>, off: nat, bytes: seq<Byte>, lo: nat, hi: nat)
    requires off + |bytes| <= |line| && lo <= hi <= |line| && (hi <= off || off + |bytes| <= lo)
    ensures Put(line, off, bytes)[off..off + |bytes|] == bytes && Put(line, off, bytes)[lo..hi] == line[lo..hi]
  {
  }

  lemma PutTwice(line: seq<Byte>, off: nat, a: seq<Byte>, b: seq<Byte>)
    requires off + |a| + |b| <= |line|
    ensures Put(Put(line, off, a), off + |a|, b) == Put(line, off, a + b)
  {
  }

  ghost predicate Shaped(m: Mode, lines: Lines) {
    forall y :: 0 <= y < |lines| ==> |lines[y]| == m.pitch
  }

  // ---- What the bytes say, pixel by pixel ----

  /** Eight pixels as the font keeps them: the leftmost is the highest bit. */
  function ByteOf(lit: seq<bool>): nat {
    if |lit| == 0 then 0 else 2 * ByteOf(lit[..|lit| - 1]) + if lit[|lit| - 1] then 1 else 0
  }

  /** The bytes of a pixel: blue, green, red, and at 32 bits 255; at 16 bits a word, lowest byte first, with the high
      five bits of red on top, six of green in the middle and five of blue below. */
  predicate HasColour(m: Mode, bytes: seq<Byte>, red: nat, green: nat, blue: nat) {
    && 8 * |bytes| == m.bpp
    && if m.bpp == 16 then
         var v := (bytes[0] as int) + 256 * (bytes[1] as int);
         v / 2048 == red / 8 && v / 32 % 64 == green / 4 && v % 32 == blue / 8
       else
         |bytes| >= 3 && bytes[0] == blue && bytes[1] == green && bytes[2] == red && (m.bpp == 32 ==> bytes[3] == 255)
  }

  /** One of the three parts of a text colour: 175 or nothing, and in the bright half 255 or 85. */
  function Part(colour: nat, bit: nat): nat
    requires bit > 0
  {
    if colour < 8 then 175 * (colour / bit % 2) else 85 + 170 * (colour / bit % 2)
  }

  /** The bytes are those of text colour 0 to 15: bit 2 of it is red, bit 1 green and bit 0 blue. */
  predicate IsColour(m: Mode, bytes: seq<Byte>, colour: nat) {
    HasColour(m, bytes, Part(colour, 4), Part(colour, 2), Part(colour, 1))
  }

  /** Pixel `dx` of a line of a character: the low half of the attribute where the font's line is lit, else the high. */
  ghost predicate PixelIs(m: Mode, bytes: seq<Byte>, mask: nat, attr: Byte, dx: nat)
    requires dx < 8
  {
    exists lit: seq<bool> :: |lit| == 8 && ByteOf(lit) == mask && IsColour(m, bytes, if lit[dx] then attr % 16
                                                                                     else attr / 16)
  }

  /** A byte is lit in one way only. */
  lemma {:induction false} ByteOnce(a: seq<bool>, b: seq<bool>)
    requires |a| == |b| && ByteOf(a) == ByteOf(b)
    ensures a == b
    decreases |a|
  {
    if |a| > 0 {
      var n := |a| - 1;
      ByteOnce(a[..n], b[..n]);
      assert a == a[..n] + [a[n]] && b == b[..n] + [b[n]];
    }
  }

  /** The pixels of a byte. */
  function Bits(x: nat, n: nat): (lit: seq<bool>)
    ensures |lit| == n
  {
    if n == 0 then [] else Bits(x / 2, n - 1) + [x % 2 == 1]
  }

  lemma {:induction false} BitsMake(x: nat, n: nat)
    requires x < Power(n)
    ensures ByteOf(Bits(x, n)) == x
    decreases n
  {
    if n > 0 {
      BitsMake(x / 2, n - 1);
      assert Bits(x, n)[..n - 1] == Bits(x / 2, n - 1);
    }
  }

  lemma Halves(x: nat, k: nat)
    requires k < 7
    ensures x / 2 / Power(k) == x / Power(k + 1)
  {
    assert Power(1) == 2 && Power(2) == 4 && Power(3) == 8 && Power(4) == 16;
    assert Power(5) == 32 && Power(6) == 64 && Power(7) == 128;
    var p := Power(k);
    assert p == 1 || p == 2 || p == 4 || p == 8 || p == 16 || p == 32 || p == 64;
  }

  lemma {:induction false} BitIs(x: nat, n: nat, dx: nat)
    requires dx < n <= 8
    ensures Bits(x, n)[dx] <==> x / Power(n - 1 - dx) % 2 == 1
    decreases n
  {
    if dx < n - 1 {
      BitIs(x / 2, n - 1, dx);
      Halves(x, n - 2 - dx);
    }
  }

  /** Five, six and five bits in a word, and the word in two bytes. */
  lemma Packed(r: nat, g: nat, b: nat)
    requires r < 32 && g < 64 && b < 32
    ensures var v := r * 2048 + g * 32 + b;
            v / 2048 == r && v / 32 % 64 == g && v % 32 == b && v / 256 < 256 && v % 256 + 256 * (v / 256) == v
  {
    var v := r * 2048 + g * 32 + b;
    assert v / 32 == r * 64 + g;
  }

  lemma PixelColour(m: Mode, c: Rgb)
    requires m.Ok()
    ensures HasColour(m, PixelBytes(m, c), c.r, c.g, c.b)
  {
    if m.bpp == 16 {
      Packed(c.r / 8, c.g / 4, c.b / 8);
    }
  }

  lemma PaletteIs(m: Mode, colour: nat)
    requires m.Ok() && colour < 16
    ensures IsColour(m, PixelBytes(m, Palette(colour)), colour)
  {
    hide HasColour, PixelBytes;
    PixelColour(m, Palette(colour));
  }

  /** Every pixel of a character is the one its font and its attribute ask for. */
  lemma GlyphPixel(m: Mode, font: Font, ch: Byte, attr: Byte, dx: nat, dy: nat)
    requires m.Ok() && dx < CHAR_W && dy < CHAR_H
    ensures PixelIs(m, PixelBytes(m, Colour(font, ch, attr, dx, dy)), font[if ch > 127 then 63 else ch][dy], attr, dx)
  {
    hide IsColour, PixelBytes, ByteOf, Palette, Bits;
    var mask: nat := font[Glyph(ch)][dy];
    Powers();
    BitsMake(mask, 8);
    BitIs(mask, 8, dx);
    PaletteIs(m, attr % 16);
    PaletteIs(m, attr / 16);
    var lit := Bits(mask, 8);
    assert |lit| == 8 && ByteOf(lit) == mask;
  }

  lemma Powers()
    ensures Power(8) == 256
  {
  }

  /** Cut out of the front, or the end. */
  lemma Pieces(a: seq<Byte>, b: seq<Byte>, lo: nat, hi: nat)
    requires lo <= hi <= |a|
    ensures (a + b)[lo..hi] == a[lo..hi] && (a + b)[|a|..|a| + |b|] == b
  {
  }

  lemma Within(dx: nat, n: nat, d: nat)
    requires dx < n
    ensures dx * d + d <= n * d
  {
    assert (dx + 1) * d <= n * d;
  }

  /** The bytes of pixel `dx` of a row. */
  lemma {:induction false} RowPixel(m: Mode, font: Font, ch: Byte, attr: Byte, dy: nat, n: nat, dx: nat)
    requires m.Ok() && dy < CHAR_H && dx < n <= CHAR_W
    ensures dx * m.Depth() + m.Depth() <= n * m.Depth()
    ensures GlyphRow(m, font, ch, attr, dy, n)[dx * m.Depth()..dx * m.Depth() + m.Depth()] ==
            PixelBytes(m, Colour(font, ch, attr, dx, dy))
    decreases n
  {
    hide Colour, PixelBytes;
    var d, row := m.Depth(), GlyphRow(m, font, ch, attr, dy, n - 1);
    var last := PixelBytes(m, Colour(font, ch, attr, n - 1, dy));
    Within(dx, n, d);
    if dx < n - 1 {
      RowPixel(m, font, ch, attr, dy, n - 1, dx);
      Pieces(row, last, dx * d, dx * d + d);
    } else {
      Pieces(row, last, 0, 0);
    }
  }

  lemma {:induction false} RunPixel(m: Mode, c: Rgb, n: nat, dx: nat)
    requires m.Ok() && dx < n
    ensures dx * m.Depth() + m.Depth() <= n * m.Depth()
    ensures Run(m, c, n)[dx * m.Depth()..dx * m.Depth() + m.Depth()] == PixelBytes(m, c)
    decreases n
  {
    hide PixelBytes;
    var d, row := m.Depth(), Run(m, c, n - 1);
    Within(dx, n, d);
    if dx < n - 1 {
      RunPixel(m, c, n - 1, dx);
      Pieces(row, PixelBytes(m, c), dx * d, dx * d + d);
    } else {
      Pieces(row, PixelBytes(m, c), 0, 0);
    }
  }
}
