/** The framebuffer console: a grid of characters, the back buffer it is drawn in, and video memory. */
module FbConsole {
  import opened Blocks
  import opened Raster

  const CELL_MAX := 65536

  function CellOffset(m: Mode, col: nat): nat {
    col * m.CellBytes()
  }

  lemma CellFits(m: Mode, col: nat)
    requires m.Ok() && col < m.Cols()
    ensures CellOffset(m, col) + m.CellBytes() <= m.Cols() * m.CellBytes() <= m.width * m.Depth() <= m.pitch
  {
    assert (col + 1) * m.CellBytes() <= m.Cols() * m.CellBytes();
    assert m.Cols() * CHAR_W <= m.width;
    assert m.Cols() * CHAR_W * m.Depth() <= m.width * m.Depth();
  }

  lemma CellsApart(m: Mode, c: nat, d: nat)
    requires c < d
    ensures CellOffset(m, c) + m.CellBytes() <= CellOffset(m, d)
  {
    assert (c + 1) * m.CellBytes() <= d * m.CellBytes();
  }

  /** The sixteen lines of a cell show this character. */
  ghost predicate CellIs(m: Mode, font: Font, lines: Lines, col: nat, row: nat, ch: Byte, attr: Byte)
    requires m.Ok() && Shaped(m, lines) && col < m.Cols()
  {
    && CHAR_H * row + CHAR_H <= |lines|
    && forall dy: nat {:trigger GlyphRow(m, font, ch, attr, dy, CHAR_W)} :: dy < CHAR_H ==>
         CellLine(m, lines[CHAR_H * row + dy], col) == GlyphRow(m, font, ch, attr, dy, CHAR_W)
  }

  function CellLine(m: Mode, line: seq<Byte>, col: nat): (s: seq<Byte>)
    requires m.Ok() && |line| == m.pitch && col < m.Cols()
    ensures |s| == m.CellBytes()
  {
    CellFits(m, col);
    line[CellOffset(m, col)..CellOffset(m, col) + m.CellBytes()]
  }

  /** The lines with one character drawn. */
  ghost predicate Drawn(m: Mode, font: Font, was: Lines, lines: Lines, col: nat, row: nat, n: nat, ch: Byte, attr: Byte)
    requires m.Ok() && Shaped(m, was) && col < m.Cols() && n <= CHAR_H
  {
    && |lines| == |was| && Shaped(m, lines) && CHAR_H * row + n <= |was|
    && forall y :: 0 <= y < |was| ==>
         lines[y] == if CHAR_H * row <= y < CHAR_H * row + n
                     then PutCell(m, was[y], col, GlyphRow(m, font, ch, attr, y - CHAR_H * row, CHAR_W))
                     else was[y]
  }

  function PutCell(m: Mode, line: seq<Byte>, col: nat, bytes: seq<Byte>): (s: seq<Byte>)
    requires m.Ok() && |line| == m.pitch && col < m.Cols() && |bytes| == m.CellBytes()
    ensures |s| == m.pitch
  {
    CellFits(m, col);
    Put(line, CellOffset(m, col), bytes)
  }

  lemma PutCellReads(m: Mode, line: seq<Byte>, col: nat, bytes: seq<Byte>, d: nat)
    requires m.Ok() && |line| == m.pitch && col < m.Cols() && |bytes| == m.CellBytes() && d < m.Cols()
    ensures CellLine(m, PutCell(m, line, col, bytes), d) == if d == col then bytes else CellLine(m, line, d)
  {
    CellFits(m, col);
    CellFits(m, d);
    if d < col {
      CellsApart(m, d, col);
    } else if col < d {
      CellsApart(m, col, d);
    }
    if d != col {
      PutReads(line, CellOffset(m, col), bytes, CellOffset(m, d), CellOffset(m, d) + m.CellBytes());
    } else {
      PutReads(line, CellOffset(m, col), bytes, 0, 0);
    }
  }

  /** Drawing a character shows it, and leaves every other cell as it was. */
  lemma DrawnShows(m: Mode, font: Font, was: Lines, lines: Lines, col: nat, row: nat, ch: Byte, attr: Byte,
                   c: nat, r: nat, x: Byte, a: Byte)
    requires m.Ok() && Shaped(m, was) && col < m.Cols() && c < m.Cols()
    requires Drawn(m, font, was, lines, col, row, CHAR_H, ch, attr)
    requires (c, r) == (col, row) || CellIs(m, font, was, c, r, x, a)
    ensures if (c, r) == (col, row) then CellIs(m, font, lines, c, r, ch, attr) else CellIs(m, font, lines, c, r, x, a)
  {
    hide GlyphRow, PutCell, CellLine;
    forall dy: nat | dy < CHAR_H
      ensures CellLine(m, lines[CHAR_H * r + dy], c) ==
              if (c, r) == (col, row) then GlyphRow(m, font, ch, attr, dy, CHAR_W)
              else GlyphRow(m, font, x, a, dy, CHAR_W)
    {
      var y := CHAR_H * r + dy;
      if r == row {
        assert y - CHAR_H * row == dy;
        PutCellReads(m, was[y], col, GlyphRow(m, font, ch, attr, dy, CHAR_W), c);
      } else {
        assert y < CHAR_H * row || CHAR_H * row + CHAR_H <= y;
        assert lines[y] == was[y];
      }
    }
  }

  /** What the grid has at a column and a row. */
  function At(m: Mode, grid: seq<Byte>, c: nat, r: nat): Byte {
    if r * m.Cols() + c < |grid| then grid[r * m.Cols() + c] else 0
  }

  ghost predicate ShowsCell(m: Mode, font: Font, ch: seq<Byte>, attr: seq<Byte>, lines: Lines, c: nat, r: nat)
    requires m.Ok() && Shaped(m, lines) && c < m.Cols()
  {
    CellIs(m, font, lines, c, r, At(m, ch, c, r), At(m, attr, c, r))
  }

  /** The lines from `y0` on are black across the width. */
  ghost predicate Filled(m: Mode, was: Lines, lines: Lines, y0: nat, h: nat)
    requires m.Ok() && Shaped(m, was)
  {
    && |lines| == |was| && Shaped(m, lines) && y0 + h <= |was|
    && forall y :: 0 <= y < |was| ==>
         lines[y] == if y0 <= y < y0 + h then Put(was[y], 0, Run(m, BLACK, m.width)) else was[y]
  }

  /** The lines of a cell from the last but three up to the n-th in one colour, and nothing else changed. */
  ghost predicate Underlined(m: Mode, was: Lines, lines: Lines, col: nat, row: nat, n: nat, c: Rgb)
    requires m.Ok() && Shaped(m, was) && col < m.Cols()
  {
    && |lines| == |was|
    && forall y :: 0 <= y < |was| ==>
         lines[y] == if CHAR_H * row + CHAR_H - 3 <= y < CHAR_H * row + n
                     then PutCell(m, was[y], col, Run(m, c, CHAR_W))
                     else was[y]
  }

  /** What a cell has after a scroll: the cell below, in the last text row a blank, in the bottom row what it had. */
  function MovedCell(m: Mode, was: seq<Byte>, blank: Byte, c: nat, r: nat): Byte
    requires 3 <= m.Rows()
  {
    if r < m.Rows() - 2 then At(m, was, c, r + 1) else if r == m.Rows() - 2 then blank else At(m, was, c, r)
  }

  /** The grid with its text rows moved up by one. */
  ghost predicate Scrolled(m: Mode, was: seq<Byte>, grid: seq<Byte>, blank: Byte)
    requires 3 <= m.Rows()
  {
    && |grid| == |was|
    && forall c: nat, r: nat :: c < m.Cols() && r < m.Rows() ==> At(m, grid, c, r) == MovedCell(m, was, blank, c, r)
  }

  // ---- Where a pixel is, and what it is ----

  /** The bytes of the pixel in column `x` of a scan line. */
  function PixelAt(m: Mode, line: seq<Byte>, x: nat): (s: seq<Byte>)
    requires m.Ok() && |line| == m.pitch && x < m.width
  {
    assert (x + 1) * (m.bpp / 8) <= m.width * (m.bpp / 8);
    line[x * (m.bpp / 8)..x * (m.bpp / 8) + m.bpp / 8]
  }

  /** One pixel of a character in the font, or of '?' if it has none, on this attribute. */
  ghost predicate ShowsPixel(m: Mode, font: Font, lines: Lines, col: nat, row: nat, ch: Byte, attr: Byte, dx: nat,
                             dy: nat)
    requires m.Ok() && Shaped(m, lines) && dx < 8 && dy < 16
  {
    && 16 * row + dy < |lines| && 8 * col + dx < m.width
    && PixelIs(m, PixelAt(m, lines[16 * row + dy], 8 * col + dx), font[if ch > 127 then 63 else ch][dy], attr, dx)
  }

  /** Pixel by pixel the cell in column `col` and row `row` is this character. */
  ghost predicate ShowsPixels(m: Mode, font: Font, lines: Lines, col: nat, row: nat, ch: Byte, attr: Byte)
    requires m.Ok() && Shaped(m, lines)
  {
    forall dx: nat, dy: nat :: dx < 8 && dy < 16 ==> ShowsPixel(m, font, lines, col, row, ch, attr, dx, dy)
  }

  lemma CellPixel(m: Mode, line: seq<Byte>, col: nat, dx: nat)
    requires m.Ok() && |line| == m.pitch && col < m.Cols() && dx < CHAR_W
    ensures 8 * col + dx < m.width && dx * m.Depth() + m.Depth() <= m.CellBytes()
    ensures PixelAt(m, line, 8 * col + dx) == CellLine(m, line, col)[dx * m.Depth()..dx * m.Depth() + m.Depth()]
  {
    CellFits(m, col);
    var d := m.Depth();
    PixelOffset(col, dx, d);
    Within(dx, CHAR_W, d);
    SliceOf(line, CellOffset(m, col), m.CellBytes(), dx * d, dx * d + d);
  }

  lemma PixelOffset(col: nat, dx: nat, d: nat)
    ensures (8 * col + dx) * d == col * (8 * d) + dx * d
  {
  }

  lemma SliceOf(line: seq<Byte>, off: nat, len: nat, a: nat, b: nat)
    requires off + len <= |line| && a <= b <= len
    ensures line[off..off + len][a..b] == line[off + a..off + b]
  {
    var x, y := line[off..off + len][a..b], line[off + a..off + b];
    assert forall k :: 0 <= k < b - a ==> x[k] == y[k];
  }

  /** A cell that shows a character has every pixel of it. */
  lemma CellPixels(m: Mode, font: Font, lines: Lines, col: nat, row: nat, ch: Byte, attr: Byte)
    requires m.Ok() && Shaped(m, lines) && col < m.Cols() && CellIs(m, font, lines, col, row, ch, attr)
    ensures ShowsPixels(m, font, lines, col, row, ch, attr)
  {
    hide GlyphRow, CellLine, PixelIs, PixelAt, Colour, PixelBytes;
    forall dx: nat, dy: nat | dx < 8 && dy < 16 ensures ShowsPixel(m, font, lines, col, row, ch, attr, dx, dy) {
      CellPixel(m, lines[CHAR_H * row + dy], col, dx);
      RowPixel(m, font, ch, attr, dy, CHAR_W, dx);
      GlyphPixel(m, font, ch, attr, dx, dy);
    }
  }

  /** What was drawn is there pixel by pixel. */
  lemma DrawnPixels(m: Mode, font: Font, was: Lines, lines: Lines, col: nat, row: nat, ch: Byte, attr: Byte)
    requires m.Ok() && Shaped(m, was) && col < m.Cols()
    requires Drawn(m, font, was, lines, col, row, CHAR_H, ch, attr)
    ensures ShowsPixels(m, font, lines, col, row, ch, attr)
  {
    hide CellIs, ShowsPixels;
    DrawnShows(m, font, was, lines, col, row, ch, attr, col, row, ch, attr);
    CellPixels(m, font, lines, col, row, ch, attr);
  }

  ghost predicate HasPixel(m: Mode, lines: Lines, x: nat, y: nat, colour: nat)
    requires m.Ok() && Shaped(m, lines)
  {
    y < |lines| && x < m.width && IsColour(m, PixelAt(m, lines[y], x), colour)
  }

  /** The cursor: every pixel of the last three lines of the cell has the colour of the low half of the attribute. */
  ghost predicate CursorPixels(m: Mode, lines: Lines, col: nat, row: nat, attr: Byte)
    requires m.Ok() && Shaped(m, lines)
  {
    forall x: nat, y: nat :: 8 * col <= x < 8 * col + 8 && 16 * row + 13 <= y < 16 * row + 16 ==>
      HasPixel(m, lines, x, y, attr % 16)
  }

  lemma UnderlinedPixels(m: Mode, was: Lines, lines: Lines, col: nat, row: nat, attr: Byte)
    requires m.Ok() && Shaped(m, was) && Shaped(m, lines) && col < m.Cols() && 16 * row + 16 <= |was|
    requires Underlined(m, was, lines, col, row, CHAR_H, Palette(attr % 16))
    ensures CursorPixels(m, lines, col, row, attr)
  {
    hide CellLine, PixelAt, PixelBytes, Palette, IsColour, PutCell, Run;
    var c := Palette(attr % 16);
    forall x: nat, y: nat | 8 * col <= x < 8 * col + 8 && 16 * row + 13 <= y < 16 * row + 16
      ensures HasPixel(m, lines, x, y, attr % 16)
    {
      CellPixel(m, lines[y], col, x - 8 * col);
      assert |Run(m, c, CHAR_W)| == m.CellBytes();
      PutCellReads(m, was[y], col, Run(m, c, CHAR_W), col);
      RunPixel(m, c, CHAR_W, x - 8 * col);
      PaletteIs(m, attr % 16);
    }
  }

  class Surface {
    var lines: Lines

    /** One scan line of a glyph, pixel by pixel. */
    method RenderLine(m: Mode, font: Font, col: nat, y: nat, ch: Byte, attr: Byte, dy: nat)
      requires m.Ok() && Shaped(m, lines) && col < m.Cols() && y < |lines| && dy < CHAR_H
      modifies this
      ensures lines == old(lines)[y := PutCell(m, old(lines)[y], col, GlyphRow(m, font, ch, attr, dy, CHAR_W))]
    {
      hide GlyphRow, Put, Colour, PixelBytes;
      CellFits(m, col);
      var off := CellOffset(m, col);
      var line := lines[y];
      PutNone(line, off);
      assert GlyphRow(m, font, ch, attr, dy, 0) == [];
      for dx := 0 to CHAR_W
        invariant lines == old(lines) && off + dx * m.Depth() <= off + m.CellBytes()
        invariant line == Put(lines[y], off, GlyphRow(m, font, ch, attr, dy, dx))
      {
        hide GlyphRow, Put, Colour, PixelBytes;
        GlyphStep(m, font, lines[y], off, ch, attr, dy, dx);
        line := Put(line, off + dx * m.Depth(), PixelBytes(m, Colour(font, ch, attr, dx, dy)));
      }
      lines := lines[y := line];
    }

    /** fb_glyph_render_pixels_to() */
    method RenderGlyph(m: Mode, font: Font, col: nat, row: nat, ch: Byte, attr: Byte)
      requires m.Ok() && Shaped(m, lines) && col < m.Cols() && CHAR_H * row + CHAR_H <= |lines|
      modifies this
      ensures Drawn(m, font, old(lines), lines, col, row, CHAR_H, ch, attr)
      ensures ShowsPixels(m, font, lines, col, row, ch, attr)
    {
      hide GlyphRow, PutCell, ShowsPixels;
      for dy := 0 to CHAR_H
        invariant |lines| == |old(lines)| && Drawn(m, font, old(lines), lines, col, row, dy, ch, attr)
      {
        hide GlyphRow, PutCell;
        RenderLine(m, font, col, CHAR_H * row + dy, ch, attr, dy);
      }
      DrawnPixels(m, font, old(lines), lines, col, row, ch, attr);
    }

    /** fb_fill_rect_to(), across the whole width. */
    method FillRows(m: Mode, y0: nat, h: nat)
      requires m.Ok() && Shaped(m, lines) && y0 + h <= |lines|
      modifies this
      ensures Filled(m, old(lines), lines, y0, h)
    {
      hide Run, Put;
      for k := 0 to h
        invariant |lines| == |old(lines)| && Filled(m, old(lines), lines, y0, k)
      {
        hide Run, Put;
        var line := FillLine(m, lines[y0 + k]);
        lines := lines[y0 + k := line];
      }
    }

    static method FillLine(m: Mode, line: seq<Byte>) returns (r: seq<Byte>)
      requires m.Ok() && |line| == m.pitch
      ensures r == Put(line, 0, Run(m, BLACK, m.width)) && |r| == m.pitch
    {
      hide Run, Put, PixelBytes;
      r := line;
      PutNone(line, 0);
      assert Run(m, BLACK, 0) == [];
      for x := 0 to m.width
        invariant x * m.Depth() <= m.width * m.Depth() && |r| == m.pitch
        invariant r == Put(line, 0, Run(m, BLACK, x))
      {
        hide Run, Put, PixelBytes;
        RunStep(m, line, x);
        r := Put(r, x * m.Depth(), PixelBytes(m, BLACK));
      }
    }
  }

  /** The console: the grid, the lines it is drawn in and the lines that show. */
  class Console {
    const m: Mode
    const font: Font
    const vram: Surface
    const back: Surface
    var ch: seq<Byte>
    var attr: seq<Byte>

    /** fb_init(): a black screen and an empty grid. */
    constructor (m: Mode, font: Font, vram: Surface, lines: Lines)
      requires m.Ok() && 3 <= m.Rows() && m.Cols() * m.Rows() <= CELL_MAX
      requires Shaped(m, vram.lines) && |vram.lines| == m.height
      requires Shaped(m, lines) && |lines| == CHAR_H * (m.Rows() - 1)
      modifies vram
      ensures Valid() && this.m == m && this.font == font && this.vram == vram && fresh(back)
      ensures Shows(back.lines)
    {
      this.m, this.font, this.vram := m, font, vram;
      ch := seq(m.Cols() * m.Rows(), _ => SPACE);
      attr := seq(m.Cols() * m.Rows(), _ => GREY);
      back := new Surface;
      new;
      back.lines := lines;
      vram.FillRows(m, 0, m.height);
      ghost var was := back.lines;
      back.FillRows(m, 0, CHAR_H * TextRows());
      forall c: nat, r: nat | c < m.Cols() && r < TextRows()
        ensures At(m, ch, c, r) == SPACE && At(m, attr, c, r) == GREY
      {
        CellIndex(m, c, r);
      }
      BlankShows(m, font, was, back.lines, ch, attr, 0, TextRows());
    }

    /** The rows that scroll: all but the last. */
    function TextRows(): nat {
      if m.Rows() >= 2 then m.Rows() - 1 else m.Rows()
    }

    ghost predicate Valid()
      reads this, vram, back
    {
      && m.Ok() && 3 <= m.Rows() && m.Cols() * m.Rows() <= CELL_MAX && vram != back
      && |ch| == |attr| == m.Cols() * m.Rows()
      && Shaped(m, vram.lines) && CHAR_H * m.Rows() <= |vram.lines|
      && Shaped(m, back.lines) && |back.lines| == CHAR_H * TextRows()
    }

    /** Every cell of the text rows shows in these lines as it is in the grid. */
    ghost predicate Shows(lines: Lines)
      requires Valid() && Shaped(m, lines)
      reads this, vram, back
    {
      forall c: nat, r: nat :: c < m.Cols() && r < TextRows() ==> ShowsCell(m, font, ch, attr, lines, c, r)
    }

    /** fb_blit_cell_vram_from_backbuf() */
    method BlitCell(col: nat, row: nat)
      requires Valid() && col < m.Cols() && row < TextRows()
      modifies vram
      ensures Valid() && back.lines == old(back.lines)
      ensures |vram.lines| == |old(vram.lines)|
      ensures forall y :: 0 <= y < |vram.lines| ==>
                vram.lines[y] == if CHAR_H * row <= y < CHAR_H * row + CHAR_H
                                 then PutCell(m, old(vram.lines)[y], col, CellLine(m, back.lines[y], col))
                                 else old(vram.lines)[y]
    {
      hide PutCell, CellLine;
      for dy := 0 to CHAR_H
        invariant Valid() && back.lines == old(back.lines) && |vram.lines| == |old(vram.lines)|
        invariant forall y :: 0 <= y < |vram.lines| ==>
                    vram.lines[y] == if CHAR_H * row <= y < CHAR_H * row + dy
                                     then PutCell(m, old(vram.lines)[y], col, CellLine(m, back.lines[y], col))
                                     else old(vram.lines)[y]
      {
        hide PutCell, CellLine;
        var y := CHAR_H * row + dy;
        vram.lines := vram.lines[y := PutCell(m, vram.lines[y], col, CellLine(m, back.lines[y], col))];
      }
    }

    /** fb_glyph_render_pixels(): in a text row the character is drawn in the back buffer and copied to the screen. */
    method Render(col: nat, row: nat, x: Byte, a: Byte)
      requires Valid() && col < m.Cols() && row < m.Rows()
      modifies vram, back
      ensures Valid()
      ensures if row < TextRows() then Drawn(m, font, old(back.lines), back.lines, col, row, CHAR_H, x, a)
              else back.lines == old(back.lines)
      ensures Drawn(m, font, old(vram.lines), vram.lines, col, row, CHAR_H, x, a)
    {
      hide GlyphRow, CellLine, PutCell;
      if row < TextRows() {
        back.RenderGlyph(m, font, col, row, x, a);
        ghost var drawn := back.lines;
        BlitCell(col, row);
        BlitShows(m, font, old(back.lines), drawn, old(vram.lines), vram.lines, col, row, x, a);
      } else {
        vram.RenderGlyph(m, font, col, row, x, a);
      }
    }

    /** fb_draw_glyph_vga(): outside the grid nothing happens. */
    method Draw(col: nat, row: nat, x: Byte, a: Byte)
      requires Valid() && Shows(back.lines)
      modifies this, vram, back
      ensures Valid() && Shows(back.lines)
      ensures forall c: nat, r: nat :: c < m.Cols() ==>
                At(m, ch, c, r) == (if (c, r) == (col, row) && row < m.Rows() then x else old(At(m, ch, c, r)))
                && At(m, attr, c, r) == (if (c, r) == (col, row) && row < m.Rows() then a else old(At(m, attr, c, r)))
      ensures if col < m.Cols() && row < m.Rows()
              then Drawn(m, font, old(vram.lines), vram.lines, col, row, CHAR_H, x, a)
                   && ShowsPixels(m, font, vram.lines, col, row, x, a)
              else vram.lines == old(vram.lines)
    {
      hide GlyphRow, CellLine, PutCell, At, ShowsPixels;
      if col < m.Cols() && row < m.Rows() {
        CellIndex(m, col, row);
        var idx := row * m.Cols() + col;
        forall c: nat, r: nat | c < m.Cols()
          ensures At(m, ch[idx := x], c, r) == if (c, r) == (col, row) then x else At(m, ch, c, r)
          ensures At(m, attr[idx := a], c, r) == if (c, r) == (col, row) then a else At(m, attr, c, r)
        {
          AtSet(m, ch, col, row, x, c, r);
          AtSet(m, attr, col, row, a, c, r);
        }
        ch, attr := ch[idx := x], attr[idx := a];
        Render(col, row, x, a);
        DrawnPixels(m, font, old(vram.lines), vram.lines, col, row, x, a);
        forall c: nat, r: nat | c < m.Cols() && r < TextRows()
          ensures ShowsCell(m, font, ch, attr, back.lines, c, r)
        {
          assert ShowsCell(m, font, old(ch), old(attr), old(back.lines), c, r);
          if row < TextRows() {
            DrawnShows(m, font, old(back.lines), back.lines, col, row, x, a,
                       c, r, old(At(m, ch, c, r)), old(At(m, attr, c, r)));
          }
        }
      }
    }

    /** fb_paint_cursor(): the character again, and if lit three lines under it, on the screen only. */
    method Cursor(col: nat, row: nat, lit: bool) returns (ghost plain: Lines)
      requires Valid() && Shows(back.lines)
      modifies vram, back
      ensures Valid() && Shows(back.lines)
      ensures col >= m.Cols() || row >= m.Rows() ==> vram.lines == old(vram.lines)
      ensures col < m.Cols() && row < m.Rows() ==>
                && Shaped(m, plain)
                && Drawn(m, font, old(vram.lines), plain, col, row, CHAR_H, At(m, ch, col, row), At(m, attr, col, row))
                && ShowsPixels(m, font, plain, col, row, At(m, ch, col, row), At(m, attr, col, row))
                && if lit then Underlined(m, plain, vram.lines, col, row, CHAR_H, Palette(At(m, attr, col, row) % 16))
                               && CursorPixels(m, vram.lines, col, row, At(m, attr, col, row))
                   else vram.lines == plain
    {
      hide GlyphRow, CellLine, PutCell, At, Underlined, ShowsPixels, CursorPixels;
      plain := vram.lines;
      if col >= m.Cols() || row >= m.Rows() {
        return;
      }
      CellIndex(m, col, row);
      var idx := row * m.Cols() + col;
      assert ch[idx] == At(m, ch, col, row) && attr[idx] == At(m, attr, col, row) by { AtIs(m, ch, attr, col, row); }
      Render(col, row, ch[idx], attr[idx]);
      plain := vram.lines;
      DrawnPixels(m, font, old(vram.lines), plain, col, row, ch[idx], attr[idx]);
      forall c: nat, r: nat | c < m.Cols() && r < TextRows() ensures ShowsCell(m, font, ch, attr, back.lines, c, r) {
        assert ShowsCell(m, font, ch, attr, old(back.lines), c, r);
        if row < TextRows() {
          DrawnShows(m, font, old(back.lines), back.lines, col, row, ch[idx], attr[idx],
                     c, r, At(m, ch, c, r), At(m, attr, c, r));
        }
      }
      if lit {
        Underline(col, row, Palette(attr[idx] % 16));
        UnderlinedPixels(m, plain, vram.lines, col, row, attr[idx]);
      }
    }

    method Underline(col: nat, row: nat, c: Rgb)
      requires Valid() && col < m.Cols() && row < m.Rows()
      modifies vram
      ensures Valid() && back.lines == old(back.lines)
      ensures Underlined(m, old(vram.lines), vram.lines, col, row, CHAR_H, c)
    {
      for dy := CHAR_H - 3 to CHAR_H
        invariant Valid() && back.lines == old(back.lines)
        invariant Underlined(m, old(vram.lines), vram.lines, col, row, dy, c)
      {
        hide PutCell;
        var y := CHAR_H * row + dy;
        assert |Run(m, c, CHAR_W)| == m.CellBytes();
        vram.lines := vram.lines[y := PutCell(m, vram.lines[y], col, Run(m, c, CHAR_W))];
      }
    }

    /** fb_scroll_cells(): the text rows move up by one and the last of them is blank. */
    method ScrollCells()
      requires Valid()
      modifies `ch, `attr
      ensures Valid() && Scrolled(m, old(ch), ch, SPACE) && Scrolled(m, old(attr), attr, GREY)
    {
      ch := ScrollGrid(m, ch, SPACE);
      attr := ScrollGrid(m, attr, GREY);
    }

    /** fb_backbuf_flush() */
    method Flush()
      requires Valid()
      modifies vram
      ensures Valid() && back.lines == old(back.lines)
      ensures |back.lines| <= |vram.lines| == |old(vram.lines)| && vram.lines[..|back.lines|] == back.lines
    {
      for y := 0 to |back.lines|
        invariant Valid() && back.lines == old(back.lines) && |back.lines| <= |vram.lines| == |old(vram.lines)|
        invariant vram.lines[..y] == back.lines[..y]
      {
        vram.lines := vram.lines[y := back.lines[y]];
      }
    }

    /** fb_scroll_content() with the back buffer: move it up by a row of pixels, blacken the last, copy it all out. */
    method Scroll()
      requires Valid() && Shows(back.lines)
      modifies this, vram, back
      ensures Valid() && Scrolled(m, old(ch), ch, SPACE) && Scrolled(m, old(attr), attr, GREY)
      ensures Shows(back.lines) && Shows(vram.lines)
    {
      hide At, CellIs, MovedCell, ShowsCell, Filled, Scrolled;
      ScrollCells();
      var n := |back.lines|;
      back.lines := back.lines[CHAR_H..] + back.lines[n - CHAR_H..];
      ghost var moved := back.lines;
      back.FillRows(m, n - CHAR_H, CHAR_H);
      GridScrolls(m, font, old(back.lines), moved, back.lines, old(ch), old(attr), ch, attr);
      Flush();
      SameGrid(m, font, ch, attr, back.lines, vram.lines);
    }

    /** fb_scroll_content() without one: every character of the text rows drawn again. */
    method ScrollByRedraw()
      requires Valid()
      modifies this, vram
      ensures Valid() && Scrolled(m, old(ch), ch, SPACE) && Scrolled(m, old(attr), attr, GREY)
      ensures Shows(vram.lines)
    {
      hide At, CellIs, MovedCell, Drawn;
      ScrollCells();
      ghost var c1, a1 := ch, attr;
      for r := 0 to TextRows()
        invariant Valid() && ch == c1 && attr == a1
        invariant forall c: nat, q: nat :: c < m.Cols() && q < r ==> ShowsCell(m, font, ch, attr, vram.lines, c, q)
      {
        hide At, CellIs, MovedCell, Drawn;
        RedrawRow(r);
      }
    }

    method RedrawRow(r: nat)
      requires Valid() && r < TextRows()
      modifies vram
      ensures Valid() && back.lines == old(back.lines)
      ensures forall c: nat, q: nat ::
                c < m.Cols() && (q == r || ShowsCell(m, font, ch, attr, old(vram.lines), c, q)) ==>
                ShowsCell(m, font, ch, attr, vram.lines, c, q)
    {
      hide At, CellIs, Drawn;
      for c := 0 to m.Cols()
        invariant Valid() && back.lines == old(back.lines)
        invariant forall d: nat, q: nat ::
                    d < m.Cols() && ((q == r && d < c) || ShowsCell(m, font, ch, attr, old(vram.lines), d, q)) ==>
                    ShowsCell(m, font, ch, attr, vram.lines, d, q)
      {
        hide At, CellIs, Drawn;
        CellIndex(m, c, r);
        var idx := r * m.Cols() + c;
        assert ch[idx] == At(m, ch, c, r) && attr[idx] == At(m, attr, c, r) by { AtIs(m, ch, attr, c, r); }
        ghost var was := vram.lines;
        vram.RenderGlyph(m, font, c, r, ch[idx], attr[idx]);
        assert Shaped(m, vram.lines) && |vram.lines| == |was| by {
          DrawnShape(m, font, was, vram.lines, c, r, ch[idx], attr[idx]);
        }
        forall d: nat, q: nat | d < m.Cols() && ((d, q) == (c, r) || ShowsCell(m, font, ch, attr, was, d, q))
          ensures ShowsCell(m, font, ch, attr, vram.lines, d, q)
        {
          DrawnShows(m, font, was, vram.lines, c, r, ch[idx], attr[idx], d, q, At(m, ch, d, q), At(m, attr, d, q));
        }
      }
    }

    /** fb_clear_content() */
    method Clear()
      requires Valid()
      modifies this, vram, back
      ensures Valid() && Shows(back.lines) && Shows(vram.lines)
      ensures forall c: nat, r: nat :: c < m.Cols() && r < TextRows() ==>
                At(m, ch, c, r) == SPACE && At(m, attr, c, r) == GREY
    {
      hide At, CellIs;
      ghost var was, screen := back.lines, vram.lines;
      vram.FillRows(m, 0, CHAR_H * TextRows());
      back.FillRows(m, 0, CHAR_H * TextRows());
      var n := m.Cols() * TextRows();
      RowsFit(m, TextRows());
      ch := seq(n, _ => SPACE) + ch[n..];
      attr := seq(n, _ => GREY) + attr[n..];
      forall c: nat, r: nat | c < m.Cols() && r < TextRows()
        ensures At(m, ch, c, r) == SPACE && At(m, attr, c, r) == GREY
      {
        RowStart(m, r);
        RowsOrdered(m, r + 1, TextRows());
        AtRow(m, ch, c, r);
        AtRow(m, attr, c, r);
      }
      BlankShows(m, font, was, back.lines, ch, attr, 0, TextRows());
      BlankShows(m, font, screen, vram.lines, ch, attr, 0, TextRows());
    }
  }

  lemma DrawnShape(m: Mode, font: Font, was: Lines, lines: Lines, col: nat, row: nat, x: Byte, a: Byte)
    requires m.Ok() && Shaped(m, was) && col < m.Cols() && Drawn(m, font, was, lines, col, row, CHAR_H, x, a)
    ensures Shaped(m, lines) && |lines| == |was|
  {
  }

  /** A cell shows the same in lines that begin the same. */
  lemma SameLines(m: Mode, font: Font, back: Lines, lines: Lines, c: nat, r: nat, x: Byte, a: Byte)
    requires m.Ok() && Shaped(m, back) && Shaped(m, lines) && |back| <= |lines| && lines[..|back|] == back
    requires c < m.Cols()
    requires CellIs(m, font, back, c, r, x, a)
    ensures CellIs(m, font, lines, c, r, x, a)
  {
    hide GlyphRow, CellLine;
    assert forall y :: 0 <= y < |back| ==> lines[y] == back[y];
  }

  /** After the move and the blackening, a cell shows what the cell below it showed, or a blank in the last row. */
  lemma ScrollShows(m: Mode, font: Font, was: Lines, moved: Lines, lines: Lines,
                    ch0: seq<Byte>, attr0: seq<Byte>, ch: seq<Byte>, attr: seq<Byte>, c: nat, r: nat)
    requires m.Ok() && 3 <= m.Rows() && Shaped(m, was) && |was| == CHAR_H * (m.Rows() - 1) && c < m.Cols()
    requires r < m.Rows() - 1
    requires moved == was[CHAR_H..] + was[|was| - CHAR_H..] && Shaped(m, moved)
    requires Filled(m, moved, lines, |was| - CHAR_H, CHAR_H)
    requires Scrolled(m, ch0, ch, SPACE) && Scrolled(m, attr0, attr, GREY)
    requires r + 1 < m.Rows() - 1 ==> ShowsCell(m, font, ch0, attr0, was, c, r + 1)
    ensures ShowsCell(m, font, ch, attr, lines, c, r)
  {
    hide GlyphRow, CellLine, Put, Run, At;
    if r < m.Rows() - 2 {
      assert forall y {:trigger lines[y]} :: CHAR_H * r <= y < CHAR_H * r + CHAR_H ==> lines[y] == was[y + CHAR_H];
    } else {
      FilledShows(m, font, moved, lines, |was| - CHAR_H, CHAR_H, c, r);
    }
  }

  lemma GridScrolls(m: Mode, font: Font, was: Lines, moved: Lines, lines: Lines,
                    ch0: seq<Byte>, attr0: seq<Byte>, ch: seq<Byte>, attr: seq<Byte>)
    requires m.Ok() && 3 <= m.Rows() && Shaped(m, was) && |was| == CHAR_H * (m.Rows() - 1)
    requires moved == was[CHAR_H..] + was[|was| - CHAR_H..] && Shaped(m, moved)
    requires Filled(m, moved, lines, |was| - CHAR_H, CHAR_H)
    requires Scrolled(m, ch0, ch, SPACE) && Scrolled(m, attr0, attr, GREY)
    requires forall c: nat, r: nat :: c < m.Cols() && r < m.Rows() - 1 ==> ShowsCell(m, font, ch0, attr0, was, c, r)
    ensures |lines| == |was| && Shaped(m, lines)
    ensures forall c: nat, r: nat :: c < m.Cols() && r < m.Rows() - 1 ==> ShowsCell(m, font, ch, attr, lines, c, r)
  {
    hide ShowsCell, Scrolled;
    forall c: nat, r: nat | c < m.Cols() && r < m.Rows() - 1 ensures ShowsCell(m, font, ch, attr, lines, c, r) {
      var below := r + 1;
      assert below < m.Rows() - 1 ==> ShowsCell(m, font, ch0, attr0, was, c, below);
      ScrollShows(m, font, was, moved, lines, ch0, attr0, ch, attr, c, r);
    }
  }

  lemma SameGrid(m: Mode, font: Font, ch: seq<Byte>, attr: seq<Byte>, back: Lines, lines: Lines)
    requires m.Ok() && Shaped(m, back) && Shaped(m, lines) && |back| <= |lines| && lines[..|back|] == back
    requires forall c: nat, r: nat :: c < m.Cols() && r < m.Rows() - 1 ==> ShowsCell(m, font, ch, attr, back, c, r)
    ensures forall c: nat, r: nat :: c < m.Cols() && r < m.Rows() - 1 ==> ShowsCell(m, font, ch, attr, lines, c, r)
  {
    hide CellIs, At;
    forall c: nat, r: nat | c < m.Cols() && r < m.Rows() - 1 ensures ShowsCell(m, font, ch, attr, lines, c, r) {
      assert ShowsCell(m, font, ch, attr, back, c, r);
      SameLines(m, font, back, lines, c, r, At(m, ch, c, r), At(m, attr, c, r));
    }
  }

  /** Two screens that show the same grid are the same in every cell: the fast scroll is the full redraw. */
  lemma SameScreen(m: Mode, font: Font, ch: seq<Byte>, attr: seq<Byte>, a: Lines, b: Lines, c: nat, r: nat, dy: nat)
    requires m.Ok() && Shaped(m, a) && Shaped(m, b) && c < m.Cols() && dy < CHAR_H
    requires ShowsCell(m, font, ch, attr, a, c, r) && ShowsCell(m, font, ch, attr, b, c, r)
    ensures CHAR_H * r + dy < |a| && CHAR_H * r + dy < |b|
    ensures CellLine(m, a[CHAR_H * r + dy], c) == CellLine(m, b[CHAR_H * r + dy], c)
  {
    hide GlyphRow, CellLine;
    var g := GlyphRow(m, font, At(m, ch, c, r), At(m, attr, c, r), dy, CHAR_W);
  }

  lemma AtIs(m: Mode, ch: seq<Byte>, attr: seq<Byte>, c: nat, r: nat)
    requires r * m.Cols() + c < |ch| == |attr|
    ensures ch[r * m.Cols() + c] == At(m, ch, c, r) && attr[r * m.Cols() + c] == At(m, attr, c, r)
  {
  }

  /** One grid, row by row as the copies go. */
  method ScrollGrid(m: Mode, was: seq<Byte>, blank: Byte) returns (grid: seq<Byte>)
    requires 3 <= m.Rows() && |was| == m.Cols() * m.Rows()
    ensures Scrolled(m, was, grid, blank)
  {
    hide At, RowOf, Scrolled;
    var cols, rows := m.Cols(), m.Rows();
    grid := was;
    var idx := 0;
    RowStart(m, 0);
    for r := 0 to rows - 2
      invariant idx == RowOf(m, r) && MovedUp(was, grid, cols, idx)
    {
      hide At, RowOf, MovedUp, Scrolled;
      RowStart(m, r);
      RowsFit(m, r + 3);
      MoveRow(was, grid, cols, idx);
      grid := grid[..idx] + grid[idx + cols..idx + 2 * cols] + grid[idx + cols..];
      idx := idx + cols;
    }
    RowsFit(m, rows);
    BlankLast(m, was, grid, seq(cols, _ => blank), blank);
    grid := grid[..idx] + seq(cols, _ => blank) + grid[idx + cols..];
  }

  lemma BlankLast(m: Mode, was: seq<Byte>, moved: seq<Byte>, blanks: seq<Byte>, blank: Byte)
    requires 3 <= m.Rows() && |moved| == |was| == m.Cols() * m.Rows()
    requires var idx := RowOf(m, m.Rows() - 2); idx + 2 * m.Cols() == |was| && MovedUp(was, moved, m.Cols(), idx)
    requires |blanks| == m.Cols() && forall i :: 0 <= i < |blanks| ==> blanks[i] == blank
    ensures var idx := RowOf(m, m.Rows() - 2); Scrolled(m, was, moved[..idx] + blanks + moved[idx + m.Cols()..], blank)
  {
    hide At, RowOf, MovedUp;
    var cols, rows, idx := m.Cols(), m.Rows(), RowOf(m, m.Rows() - 2);
    var grid := moved[..idx] + blanks + moved[idx + cols..];
    forall c: nat, r: nat | c < cols && r < rows
      ensures At(m, grid, c, r) == MovedCell(m, was, blank, c, r)
    {
      GridIndex(m, was, moved, grid, blank, c, r);
    }
  }

  /** The index of the first cell of a row. */
  function RowOf(m: Mode, r: nat): nat {
    r * m.Cols()
  }

  lemma RowStart(m: Mode, r: nat)
    ensures RowOf(m, 0) == 0 && RowOf(m, r + 1) == RowOf(m, r) + m.Cols()
  {
  }

  lemma RowsFit(m: Mode, r: nat)
    requires r <= m.Rows()
    ensures RowOf(m, r) <= RowOf(m, m.Rows()) == m.Cols() * m.Rows()
    ensures r >= 2 ==> RowOf(m, r - 2) + 2 * m.Cols() == RowOf(m, r)
    ensures r >= 3 ==> RowOf(m, r - 3) + 3 * m.Cols() == RowOf(m, r)
  {
    assert RowOf(m, r) <= RowOf(m, m.Rows()) == m.Cols() * m.Rows() by { RowsGrow(r, m.Rows(), m.Cols()); }
    hide RowOf;
    if r >= 2 {
      RowStart(m, r - 1);
      RowStart(m, r - 2);
    }
    if r >= 3 {
      RowStart(m, r - 3);
    }
  }

  lemma RowsGrow(a: nat, b: nat, c: nat)
    requires a <= b
    ensures a * c <= b * c == c * b
  {
  }

  /** The cells below `idx` have what was one row further on. */
  ghost predicate MovedUp(was: seq<Byte>, grid: seq<Byte>, cols: nat, idx: nat) {
    && |grid| == |was| && (idx > 0 ==> idx + cols <= |was|)
    && forall i {:trigger grid[i]} :: 0 <= i < |was| ==> grid[i] == if i < idx then was[i + cols] else was[i]
  }

  lemma MoveRow(was: seq<Byte>, grid: seq<Byte>, cols: nat, idx: nat)
    requires MovedUp(was, grid, cols, idx) && idx + 2 * cols <= |was|
    ensures |grid| == |was|
    ensures MovedUp(was, grid[..idx] + grid[idx + cols..idx + 2 * cols] + grid[idx + cols..], cols, idx + cols)
  {
    var next := grid[..idx] + grid[idx + cols..idx + 2 * cols] + grid[idx + cols..];
    assert |next| == |was|;
    forall i | 0 <= i < |was| ensures next[i] == if i < idx + cols then was[i + cols] else was[i] {
      if idx <= i < idx + cols {
        assert next[i] == grid[i + cols];
      } else {
        assert next[i] == grid[i];
      }
    }
  }

  lemma GridIndex(m: Mode, was: seq<Byte>, moved: seq<Byte>, grid: seq<Byte>, blank: Byte, c: nat, r: nat)
    requires 3 <= m.Rows() && c < m.Cols() && r < m.Rows() && |grid| == |moved| == |was| == m.Cols() * m.Rows()
    requires var idx := RowOf(m, m.Rows() - 2);
             && idx + 2 * m.Cols() == |was| && MovedUp(was, moved, m.Cols(), idx)
             && (forall i :: 0 <= i < |was| ==> grid[i] == if idx <= i < idx + m.Cols() then blank else moved[i])
    ensures At(m, grid, c, r) == MovedCell(m, was, blank, c, r)
  {
    hide RowOf, At;
    var rows := m.Rows();
    var idx := RowOf(m, rows - 2);
    var i := RowOf(m, r) + c;
    RowStart(m, r);
    RowStart(m, rows - 2);
    AtRow(m, grid, c, r);
    AtRow(m, was, c, r);
    AtRow(m, was, c, r + 1);
    if r < rows - 2 {
      RowsOrdered(m, r + 1, rows - 2);
      assert grid[i] == was[i + m.Cols()];
    } else if r == rows - 2 {
      assert grid[i] == blank;
    } else {
      assert RowOf(m, rows - 2 + 1) == RowOf(m, r);
      assert idx + m.Cols() <= i < |was|;
      assert grid[i] == moved[i] == was[i];
    }
  }

  lemma RowsOrdered(m: Mode, r: nat, s: nat)
    requires r <= s
    ensures RowOf(m, r) <= RowOf(m, s)
  {
    assert s * m.Cols() == r * m.Cols() + (s - r) * m.Cols();
  }

  lemma AtRow(m: Mode, grid: seq<Byte>, c: nat, r: nat)
    ensures At(m, grid, c, r) == if RowOf(m, r) + c < |grid| then grid[RowOf(m, r) + c] else 0
  {
  }

  /** Copying a cell that was just drawn draws it. */
  lemma BlitShows(m: Mode, font: Font, back: Lines, drawn: Lines, was: Lines, lines: Lines,
                  col: nat, row: nat, x: Byte, a: Byte)
    requires m.Ok() && Shaped(m, back) && Shaped(m, was) && Shaped(m, lines) && col < m.Cols() && |lines| == |was|
    requires Drawn(m, font, back, drawn, col, row, CHAR_H, x, a) && CHAR_H * row + CHAR_H <= |lines|
    requires forall y :: 0 <= y < |lines| ==>
               lines[y] == if CHAR_H * row <= y < CHAR_H * row + CHAR_H && y < |drawn|
                           then PutCell(m, was[y], col, CellLine(m, drawn[y], col))
                           else was[y]
    ensures Drawn(m, font, was, lines, col, row, CHAR_H, x, a)
  {
    hide GlyphRow, CellLine, PutCell;
    forall y | CHAR_H * row <= y < CHAR_H * row + CHAR_H
      ensures CellLine(m, drawn[y], col) == GlyphRow(m, font, x, a, y - CHAR_H * row, CHAR_W)
    {
      PutCellReads(m, back[y], col, GlyphRow(m, font, x, a, y - CHAR_H * row, CHAR_W), col);
    }
    assert Drawn(m, font, was, lines, col, row, CHAR_H, x, a);
  }

  lemma CellIndex(m: Mode, c: nat, r: nat)
    requires c < m.Cols() && r < m.Rows()
    ensures r * m.Cols() + c < m.Cols() * m.Rows()
  {
    assert (r + 1) * m.Cols() <= m.Rows() * m.Cols();
  }

  /** Black rows show blanks. */
  lemma BlankShows(m: Mode, font: Font, was: Lines, lines: Lines, ch: seq<Byte>, attr: seq<Byte>, row: nat, n: nat)
    requires m.Ok() && Shaped(m, was) && Filled(m, was, lines, CHAR_H * row, CHAR_H * n)
    requires forall c: nat, r: nat :: c < m.Cols() && row <= r < row + n ==>
               At(m, ch, c, r) == SPACE && At(m, attr, c, r) == GREY
    ensures Shaped(m, lines)
    ensures forall c: nat, r: nat :: c < m.Cols() && row <= r < row + n ==> ShowsCell(m, font, ch, attr, lines, c, r)
  {
    hide CellIs, At;
    forall c: nat, r: nat | c < m.Cols() && row <= r < row + n ensures ShowsCell(m, font, ch, attr, lines, c, r) {
      FilledShows(m, font, was, lines, CHAR_H * row, CHAR_H * n, c, r);
    }
  }

  /** Different cells have different indices. */
  lemma AtSet(m: Mode, grid: seq<Byte>, col: nat, row: nat, x: Byte, c: nat, r: nat)
    requires col < m.Cols() && c < m.Cols() && row * m.Cols() + col < |grid|
    ensures At(m, grid[row * m.Cols() + col := x], c, r) == if (c, r) == (col, row) then x else At(m, grid, c, r)
  {
    var w := m.Cols();
    if r < row {
      RowsApart(w, r, row, c, col);
    } else if row < r {
      RowsApart(w, row, r, col, c);
    }
  }

  lemma RowsApart(w: nat, r: nat, q: nat, c: nat, d: nat)
    requires r < q && c < w
    ensures r * w + c < q * w + d
  {
    assert (r + 1) * w <= q * w;
  }

  lemma PutNone(line: seq<Byte>, off: nat)
    requires off <= |line|
    ensures Put(line, off, []) == line
  {
  }

  lemma GlyphStep(m: Mode, font: Font, line: seq<Byte>, off: nat, ch: Byte, attr: Byte, dy: nat, dx: nat)
    requires m.Ok() && dy < CHAR_H && dx < CHAR_W && off + m.CellBytes() <= |line|
    ensures var pixel := PixelBytes(m, Colour(font, ch, attr, dx, dy));
            && off + dx * m.Depth() + m.Depth() <= |line|
            && Put(Put(line, off, GlyphRow(m, font, ch, attr, dy, dx)), off + dx * m.Depth(), pixel)
               == Put(line, off, GlyphRow(m, font, ch, attr, dy, dx + 1))
  {
    hide Put, Colour, PixelBytes;
    assert (dx + 1) * m.Depth() <= CHAR_W * m.Depth();
    PutTwice(line, off, GlyphRow(m, font, ch, attr, dy, dx), PixelBytes(m, Colour(font, ch, attr, dx, dy)));
  }

  lemma RunStep(m: Mode, line: seq<Byte>, x: nat)
    requires m.Ok() && |line| == m.pitch && x < m.width
    ensures x * m.Depth() + m.Depth() <= m.width * m.Depth() <= |line|
    ensures var more := Put(line, 0, Run(m, BLACK, x + 1));
            Put(Put(line, 0, Run(m, BLACK, x)), x * m.Depth(), PixelBytes(m, BLACK)) == more
  {
    hide Put, PixelBytes;
    assert (x + 1) * m.Depth() <= m.width * m.Depth();
    PutTwice(line, 0, Run(m, BLACK, x), PixelBytes(m, BLACK));
  }

  /** A line filled with black shows a blank in every cell. */
  lemma FilledLine(m: Mode, font: Font, line: seq<Byte>, col: nat, dy: nat)
    requires m.Ok() && |line| == m.pitch && col < m.Cols() && dy < CHAR_H
    ensures CellLine(m, Put(line, 0, Run(m, BLACK, m.width)), col) == GlyphRow(m, font, SPACE, GREY, dy, CHAR_W)
  {
    hide Run, GlyphRow, Put;
    CellFits(m, col);
    BlankIsBlack(m, font, dy, CHAR_W);
    RunSlice(m, m.width, col * CHAR_W, CHAR_W);
    var off := CellOffset(m, col);
    assert off == col * CHAR_W * m.Depth();
    PutPrefix(line, Run(m, BLACK, m.width), off, off + m.CellBytes());
  }

  lemma PutPrefix(line: seq<Byte>, bytes: seq<Byte>, lo: nat, hi: nat)
    requires lo <= hi <= |bytes| <= |line|
    ensures Put(line, 0, bytes)[lo..hi] == bytes[lo..hi]
  {
  }

  lemma {:induction false} RunSplit(m: Mode, a: nat, b: nat)
    requires m.Ok()
    ensures Run(m, BLACK, a + b) == Run(m, BLACK, a) + Run(m, BLACK, b)
    decreases b
  {
    hide PixelBytes;
    if b > 0 {
      RunSplit(m, a, b - 1);
      assert Run(m, BLACK, a + b) == Run(m, BLACK, a + (b - 1)) + PixelBytes(m, BLACK);
    }
  }

  /** Any stretch of a run of one colour is a run of it. */
  lemma RunSlice(m: Mode, n: nat, x: nat, k: nat)
    requires m.Ok() && x + k <= n
    ensures x * m.Depth() + k * m.Depth() <= n * m.Depth()
    ensures Run(m, BLACK, n)[x * m.Depth()..x * m.Depth() + k * m.Depth()] == Run(m, BLACK, k)
  {
    hide *;
    var a, b, c := Run(m, BLACK, x), Run(m, BLACK, k), Run(m, BLACK, n - (x + k));
    RunSplit(m, x, k);
    RunSplit(m, x + k, n - (x + k));
    assert Run(m, BLACK, n) == a + b + c;
    Middle(a, b, c);
  }

  lemma Middle(a: seq<Byte>, b: seq<Byte>, c: seq<Byte>)
    ensures (a + b + c)[|a|..|a| + |b|] == b
  {
  }

  lemma FilledShows(m: Mode, font: Font, was: Lines, lines: Lines, y0: nat, h: nat, col: nat, row: nat)
    requires m.Ok() && Shaped(m, was) && Filled(m, was, lines, y0, h) && col < m.Cols()
    requires y0 <= CHAR_H * row && CHAR_H * row + CHAR_H <= y0 + h
    ensures CellIs(m, font, lines, col, row, SPACE, GREY)
  {
    hide Run, Put, GlyphRow, CellLine;
    forall dy: nat | dy < CHAR_H
      ensures CellLine(m, lines[CHAR_H * row + dy], col) == GlyphRow(m, font, SPACE, GREY, dy, CHAR_W)
    {
      FilledLine(m, font, was[CHAR_H * row + dy], col, dy);
    }
  }

  // ---- Runs ----

  datatype Call =
    | Draws(col: nat, row: nat, ch: Byte, attr: Byte)
    | Blinks(col: nat, row: nat, lit: bool)
    | Scrolls
    | Clears

  /** Any calls, one after the other: the back buffer is always the rasterised grid, and right after a scroll or a
      clear so is the screen. */
  method Serve(console: Console, calls: seq<Call>)
    requires console.Valid() && console.Shows(console.back.lines)
    modifies console, console.vram, console.back
    ensures console.Valid() && console.Shows(console.back.lines)
    ensures calls != [] && (calls[|calls| - 1].Scrolls? || calls[|calls| - 1].Clears?) ==>
              console.Shows(console.vram.lines)
  {
    hide Console.Shows, Scrolled, Drawn, Underlined, At;
    var n := 0;
    while n < |calls|
      invariant 0 <= n <= |calls| && console.Valid() && console.Shows(console.back.lines)
      invariant n > 0 && (calls[n - 1].Scrolls? || calls[n - 1].Clears?) ==> console.Shows(console.vram.lines)
    {
      hide Console.Shows, Scrolled, Drawn, Underlined, At;
      match calls[n] {
        case Draws(col, row, ch, attr) => console.Draw(col, row, ch, attr);
        case Blinks(col, row, lit) => ghost var plain := console.Cursor(col, row, lit);
        case Scrolls => console.Scroll();
        case Clears => console.Clear();
      }
      n := n + 1;
    }
  }
}
