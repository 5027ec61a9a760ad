/** The codec and the renderer together: the frame rendered from a font's compressed
    tables is a frame of the font. */
module FontOnPanel {
  import opened Arith
  import opened FontTypes
  import opened PackBits
  import opened Pixels
  import opened FontTables
  import opened GlyphDecode
  import opened Picture
  import opened Geometry
  import opened Renderer
  import opened RowCache
  import opened PictureLaws
  import Passes
  import Wobble
  import GlyphCache

  type Word = bv32

  // ------------------------------------------------- scenes that look the same

  /** Two scenes that differ at most in how their glyphs are written down. */
  ghost predicate Alike(s: Scene, s': Scene) {
    s' == s.(glyphs := s'.glyphs) && forall c: Codepoint, bold: bool :: s'.glyphs(c, bold) == s.glyphs(c, bold)
  }

  lemma AlikeWellFormed(s: Scene, s': Scene, cols: nat, rows: nat, fh: nat)
    requires Alike(s, s') && WellFormed(s, cols, rows, fh)
    ensures WellFormed(s', cols, rows, fh)
  {
    forall c, bold ensures |s'.glyphs(c, bold)| == fh {
      assert s'.glyphs(c, bold) == s.glyphs(c, bold);
    }
  }

  lemma AlikeLook(s: Scene, s': Scene, v: View, r: nat, c: nat)
    requires Alike(s, s') && WellFormed(s, v.cols, v.rows, v.g.fh) && r < v.rows && c < v.cols
    ensures WellFormed(s', v.cols, v.rows, v.g.fh)
    ensures LookOf(s, v.fx, v.cols, v.rows, v.g.fh, r, c) == LookOf(s', v.fx, v.cols, v.rows, v.g.fh, r, c)
  {
    hide Finish, ResolveTerminal, ResolveOverlay;
    AlikeWellFormed(s, s', v.cols, v.rows, v.g.fh);
  }

  lemma AlikePixel(s: Scene, s': Scene, v: View, shift: int, x: nat, y: nat)
    requires Alike(s, s') && v.g.fw > 0 && v.g.fh > 0 && WellFormed(s, v.cols, v.rows, v.g.fh)
    ensures WellFormed(s', v.cols, v.rows, v.g.fh)
    ensures PanelPixel(s, v, shift, x, y) == PanelPixel(s', v, shift, x, y)
  {
    AlikeWellFormed(s, s', v.cols, v.rows, v.g.fh);
    hide Alike, LookOf, CellPixel, ClippedPixel, WellFormed;
    if x - shift >= 0 && (x - shift) / v.g.fw < v.cols && y / v.g.fh < v.rows {
      AlikeLook(s, s', v, y / v.g.fh, (x - shift) / v.g.fw);
    }
  }

  lemma AlikeLine(fb: seq<Word>, y: nat, s: Scene, s': Scene, v: View, lut: Wobble.Lut, frame: nat)
    requires Alike(s, s') && v.g.fw > 0 && v.g.fh > 0 && WellFormed(s, v.cols, v.rows, v.g.fh) && frame < 256
    requires BandLine(fb, y, s, v, lut, frame, 0)
    ensures WellFormed(s', v.cols, v.rows, v.g.fh) && BandLine(fb, y, s', v, lut, frame, 0)
  {
    hide Alike, WellFormed, Shift, PanelPixel, LeftOf, RightOf;
    AlikeWellFormed(s, s', v.cols, v.rows, v.g.fh);
    var shift := Shift(v, lut, frame, y);
    forall i | 0 <= i < LINE_WORDS ensures ShowsWord(fb, y, s', v, shift, i, y) {
      assert ShowsWord(fb, y, s, v, shift, i, y);
      AlikePixel(s, s', v, shift, 2 * i, y);
      AlikePixel(s, s', v, shift, 2 * i + 1, y);
    }
  }

  /** A buffer that shows the one shows the other. */
  lemma AlikeFrame(fb: seq<Word>, s: Scene, s': Scene, v: View, lut: Wobble.Lut, frame: nat)
    requires Alike(s, s') && frame < 256 && FrameShows(fb, s, v, lut, frame)
    ensures FrameShows(fb, s', v, lut, frame)
  {
    hide Alike, WellFormed, BandLine;
    AlikeWellFormed(s, s', v.cols, v.rows, v.g.fh);
    forall y | 0 <= y < HEIGHT ensures BandLine(fb, y, s', v, lut, frame, 0) {
      AlikeLine(fb, y, s, s', v, lut, frame);
    }
  }

  // -------------------------------------------------------------- the font

  /** Codepoints that are sprite slots, not font glyphs. */
  predicate IsSlot(c: Codepoint) {
    GlyphCache.IsSprite(GlyphCache.KeyOf(c, false))
  }

  /** The scene with each glyph taken from the font itself, sprite slots aside. */
  function FromFont(s: Scene, font: Font): Scene
    requires QUESTION in font.normal
  {
    s.(glyphs := (c, bold) => if IsSlot(c) then s.glyphs(c, bold) else font.TrueCell(c, bold))
  }

  /** The scene's glyphs are decoded from the tables, sprite slots aside. */
  ghost predicate Decodes(s: Scene, t: Tables)
    requires Decodable(t)
  {
    forall c: Codepoint, bold: bool :: !IsSlot(c) ==> s.glyphs(c, bold) == GlyphCell(t, c, bold)
  }

  /** For tables that hold a font, the decoded scene is the font's: compression, smearing,
      fallback and range merging never show. */
  lemma DecodedIsTheFont(s: Scene, base: Scene, font: Font, t: Tables)
    requires Faithful(font, t) && Decodable(t) && Decodes(s, t) && base == s.(glyphs := base.glyphs)
    requires forall c: Codepoint, bold: bool :: IsSlot(c) ==> base.glyphs(c, bold) == s.glyphs(c, bold)
    ensures Alike(s, FromFont(base, font))
  {
    hide Faithful, Decodable, IsSlot;
    assert QUESTION in font.normal by {
      HasQuestion(font, t);
    }
    forall c: Codepoint, bold: bool ensures FromFont(base, font).glyphs(c, bold) == s.glyphs(c, bold) {
      if !IsSlot(c) {
        EndToEnd(font, t, c, bold);
      }
    }
  }

  lemma HasQuestion(font: Font, t: Tables)
    requires Faithful(font, t)
    ensures QUESTION in font.normal && t.height == font.height
  {
  }

  // --------------------------------------------------------- rendered frames

  /** Glyphs come from the decoded-glyph cache, which hands out uncached decodes. */
  ghost predicate ServedBy(s: Scene, gc: GlyphCache.Cache)
    requires gc.Shape()
    reads gc, gc.spriteRows, gc.spriteActive
  {
    forall c: Codepoint, bold: bool :: s.glyphs(c, bold) == gc.Uncached(GlyphCache.KeyOf(c, bold))
  }

  lemma ServedDecodes(s: Scene, gc: GlyphCache.Cache)
    requires gc.Shape() && ServedBy(s, gc)
    ensures Decodable(gc.tables) && Decodes(s, gc.tables)
  {
    hide GlyphCell, Decodable;
    forall c: Codepoint, bold: bool | !IsSlot(c) ensures s.glyphs(c, bold) == GlyphCell(gc.tables, c, bold) {
      var k := GlyphCache.KeyOf(c, bold);
      assert GlyphCache.CpOf(k) == c && GlyphCache.BoldOf(k) == bold;
      assert s.glyphs(c, bold) == gc.Uncached(k);
    }
  }

  /** A frame of a scene whose glyphs the cache serves is a frame of the font. */
  method DrawServed(p: Panel, gc: GlyphCache.Cache, s: Scene, lut: Wobble.Lut, published: Option<Effects>,
                    ghost font: Font)
    returns (fb: seq<Word>)
    requires p.Valid() && p.Registered() && WellFormed(s, p.cols, p.rows, p.g.fh)
    requires gc.Shape() && Faithful(font, gc.tables) && ServedBy(s, gc)
    modifies p`snap, p`frame, p`age, p`fx, p`cursor, p.cache
    ensures p.Valid() && p.frame < 256 && FrameShows(fb, FromFont(s, font), p.Now(), lut, p.frame)
  {
    hide Faithful, Decodes, Decodable, FrameShows, WellFormed, Alike, FromFont;
    ServedDecodes(s, gc);
    HasQuestion(font, gc.tables);
    DecodedIsTheFont(s, s, font, gc.tables);
    fb := p.RenderFrame(s, lut, published);
    AlikeFrame(fb, s, FromFont(s, font), p.Now(), lut, p.frame);
  }

  /** The scene a decoder of these tables would serve. */
  function FromTables(base: Scene, t: Tables): Scene
    requires Decodable(t)
  {
    base.(glyphs := (c, bold) => if IsSlot(c) then base.glyphs(c, bold) else GlyphCell(t, c, bold))
  }

  lemma FromTablesWellFormed(base: Scene, t: Tables, cols: nat, rows: nat)
    requires Decodable(t) && WellFormed(base, cols, rows, t.height)
    ensures WellFormed(FromTables(base, t), cols, rows, t.height) && Decodes(FromTables(base, t), t)
  {
    hide Decodable, GlyphCell;
    forall c, bold ensures |FromTables(base, t).glyphs(c, bold)| == t.height {
      assert |base.glyphs(c, bold)| == t.height;
    }
  }

  /** From a font to the panel: build the tables, decode the glyphs out of them, render a
      frame. Unless the build is refused, every pixel is the font's. */
  method BuildAndDraw(font: Font, palette: seq<Row>, p: Panel, base: Scene, lut: Wobble.Lut, published: Option<Effects>)
    returns (r: BuildResult, fb: seq<Word>)
    requires font.Valid() && |palette| <= 255 && NoDuplicates(palette) && font.height == p.g.fh
    requires p.Valid() && p.Registered() && WellFormed(base, p.cols, p.rows, p.g.fh)
    modifies p`snap, p`frame, p`age, p`fx, p`cursor, p.cache
    ensures p.Valid() && p.frame < 256
    ensures r.Rejected? ==> Justified(font, palette, r.reason)
    ensures r.Built? ==>
              Faithful(font, r.tables) && QUESTION in font.normal
              && FrameShows(fb, FromFont(base, font), p.Now(), lut, p.frame)
  {
    hide Faithful, Decodes, Decodable, FrameShows, Justified, Font.Valid, WellFormed, Alike, FromFont;
    r := BuildFontData(font, palette);
    fb := [];
    if r.Built? {
      FaithfulIsDecodable(font, r.tables);
      HasQuestion(font, r.tables);
      FromTablesWellFormed(base, r.tables, p.cols, p.rows);
      var s := FromTables(base, r.tables);
      DecodedIsTheFont(s, base, font, r.tables);
      fb := p.RenderFrame(s, lut, published);
      AlikeFrame(fb, s, FromFont(base, font), p.Now(), lut, p.frame);
    }
  }

  /** Sprite slots are the eight codepoints from U+E000. */
  lemma SlotsAre(c: Codepoint)
    ensures IsSlot(c) <==> 0xE000 <= c <= 0xE007
  {
  }

  /** The cell the font has for a codepoint: its true bold cell where bold is asked, the
      codepoint is in the bold subset and there is one, else its normal cell, else '?'. */
  function FontCell(font: Font, cp: Codepoint, bold: bool): Cell
    requires 0x3F in font.normal
  {
    if cp !in font.normal then font.normal[0x3F]
    else if bold && (0x20 <= cp <= 0x7E || 0xA0 <= cp <= 0x17F || 0x400 <= cp <= 0x45F) && cp in font.trueBold
    then font.trueBold[cp]
    else font.normal[cp]
  }

  lemma FontGlyph(s: Scene, font: Font, cp: Codepoint, bold: bool)
    requires 0x3F in font.normal && font.Valid()
    ensures FromFont(s, font) == s.(glyphs := FromFont(s, font).glyphs)
    ensures |FontCell(font, cp, bold)| == font.height
    ensures !(0xE000 <= cp <= 0xE007) ==> FromFont(s, font).glyphs(cp, bold) == FontCell(font, cp, bold)
  {
    hide IsSlot;
    SlotsAre(cp);
    assert !IsSlot(cp) ==> FromFont(s, font).glyphs(cp, bold) == font.TrueCell(cp, bold);
  }

  /** From the font's bitmaps to the panel's pixels: on a frame of the font without effects,
      overlay, cursor or transition, a cell shows the font's own bits for its codepoint, in
      bold its true bold bits, and '?' for a codepoint the font lacks. */
  lemma FontPixel(fb: seq<Word>, s: Scene, font: Font, v: View, lut: Wobble.Lut, frame: nat,
                  r: nat, c: nat, gl: nat, px: nat)
    requires 0x3F in font.normal && frame < 256 && FrameShows(fb, FromFont(s, font), v, lut, frame)
    requires v.fx == Effects(false, 0, false, false) && s.overlay == None && v.cursor.mode == NoCursor
    requires !v.clip.active && font.Valid() && font.height == v.g.fh
    requires r < v.rows && c < v.cols && gl < v.g.fh && px < v.g.fw
    requires c * v.g.fw + px < WIDTH && r * v.g.fh + gl < HEIGHT
    ensures |fb| == HEIGHT * LINE_WORDS && |s.cells| == v.rows && |s.cells[r]| == v.cols
    ensures var t := s.cells[r][c];
            !(0xE000 <= t.cp <= 0xE007) ==>
              && |FontCell(font, t.cp, t.bold)| == v.g.fh
              && PixelAt(fb, c * v.g.fw + px, r * v.g.fh + gl) ==
                 PlainColor(t, FontCell(font, t.cp, t.bold), v.g.fw, v.g.fh, gl, px)
  {
    hide FrameShows, PlainColor, PixelAt, FromFont, FontCell, Font.Valid, WellFormed;
    FontGlyph(s, font, 0x3F, false);
    DivUnique(c * v.g.fw + px, v.g.fw, c, px);
    DivUnique(r * v.g.fh + gl, v.g.fh, r, gl);
    PlainFrame(fb, FromFont(s, font), v, lut, frame, c * v.g.fw + px, r * v.g.fh + gl);
    CellsOf(s, font, v, r);
    FontGlyph(s, font, s.cells[r][c].cp, s.cells[r][c].bold);
  }

  lemma CellsOf(s: Scene, font: Font, v: View, r: nat)
    requires 0x3F in font.normal && WellFormed(FromFont(s, font), v.cols, v.rows, v.g.fh) && r < v.rows
    ensures |s.cells| == v.rows && |s.cells[r]| == v.cols
  {
  }
}
