/** What the panel should show, pixel by pixel and without bands, caches, tables or
    words: the reference the banded renderer is proved against. Colours follow
    resolve_overlay_cell and resolve_terminal_cell (components/display/render_cache.c). */
module Picture {
  import opened FontTypes
  import opened Pixels
  import opened Geometry
  import opened Transitions

  // ---------------------------------------------------------------- inputs

  datatype TermCell = TermCell(cp: Codepoint, fg: Color, bg: Color, bold: bool, underline: bool, reverse: bool)

  /** An accent is an index of the eight-colour overlay palette. */
  type Accent = a: nat | a < 8

  /** cp 0 is transparent; `dim` on a transparent cell is the modal scrim. */
  datatype OverlayCell = OverlayCell(cp: Codepoint, inverse: bool, dim: bool, bright: bool, bold: bool, color: Accent)

  datatype Overlay = Overlay(cols: nat, rows: nat, cells: seq<seq<OverlayCell>>)

  type Glyphs = (Codepoint, bool) -> Cell

  /** Everything the renderer reads but does not own. */
  datatype Scene = Scene(cells: seq<seq<TermCell>>, overlay: Option<Overlay>, ovFg: Color, ovBg: Color, glyphs: Glyphs)

  /** The snapshot fields the renderer uses. */
  datatype Effects = Effects(scanlines: bool, mono: nat, boldPop: bool, wobble: bool)

  datatype CursorMode = NoCursor | Underscore | Block

  datatype Cursor = Cursor(x: int, y: int, mode: CursorMode, blink: nat, visible: bool)

  ghost predicate WellFormed(s: Scene, cols: nat, rows: nat, fh: nat) {
    && |s.cells| == rows && (forall r :: 0 <= r < rows ==> |s.cells[r]| == cols)
    && (s.overlay.Some? ==> OverlayWellFormed(s.overlay.value))
    && forall cp, bold :: |s.glyphs(cp, bold)| == fh
  }

  predicate OverlayWellFormed(o: Overlay) {
    |o.cells| == o.rows && (forall r :: 0 <= r < o.rows ==> |o.cells[r]| == o.cols)
  }

  // --------------------------------------------------------------- colours

  function Rgb565(r: bv16, g: bv16, b: bv16): Color {
    ((r & 0xF8) << 8) | ((g & 0xFC) << 3) | (b >> 3)
  }

  /** Text accents; index 0 stands for the screen's own foreground. */
  function AccentText(color: Accent): Color {
    [0, Rgb565(85, 255, 85), Rgb565(85, 255, 255), Rgb565(255, 85, 255), Rgb565(255, 255, 85),
     Rgb565(255, 85, 85), Rgb565(85, 85, 255), Rgb565(255, 255, 255)][color]
  }

  /** Bar accents. */
  function AccentBar(color: Accent): Color {
    [Rgb565(148, 148, 148), Rgb565(96, 168, 96), Rgb565(80, 160, 168), Rgb565(168, 96, 160), Rgb565(200, 152, 72),
     Rgb565(184, 88, 80), Rgb565(104, 112, 192), Rgb565(255, 255, 255)][color]
  }

  /** How a cell looks before any scanline effect. */
  datatype Look = Look(glyph: Cell, fg: Color, bg: Color, underline: bool)

  datatype Colors = Colors(fg: Color, bg: Color, underline: bool, bold: bool)

  /** Chrome: bars, accents and the focus wash; bold pop never recolours it. */
  function ResolveOverlay(o: OverlayCell, ovFg: Color, ovBg: Color): Colors {
    var bar := AccentBar(o.color);
    var base := if o.inverse then bar else ovBg;
    var fg := if o.inverse then (if 1 <= o.color <= 6 && !o.bright then Tint565(bar) else ovBg)
              else if o.color != 0 then AccentText(o.color) else ovFg;
    Colors(fg, if o.bright then Wash565(base) else base, false, false)
  }

  function ResolveTerminal(t: TermCell, scrim: bool): Colors {
    var fg := if t.reverse then t.bg else t.fg;
    var bg := if t.reverse then t.fg else t.bg;
    Colors(if scrim then Scrim565(fg) else fg, if scrim then Scrim565(bg) else bg, t.underline, t.bold)
  }

  /** Phosphor first, then bold pop. */
  function Finish(fx: Effects, c: Colors, glyph: Cell): Look {
    var fg := if fx.mono != 0 then Mono565(c.fg, fx.mono) else c.fg;
    var bg := if fx.mono != 0 then Mono565(c.bg, fx.mono) else c.bg;
    Look(glyph, if c.bold && fx.boldPop then BoldPop565(fg) else fg, bg, c.underline)
  }

  /** The overlay covers row r and column c only within its own size. */
  function OverlayAt(s: Scene, r: nat, c: nat): (o: Option<OverlayCell>)
    requires s.overlay.Some? ==> OverlayWellFormed(s.overlay.value)
  {
    if s.overlay.Some? && r < s.overlay.value.rows && c < s.overlay.value.cols
    then Some(s.overlay.value.cells[r][c]) else None
  }

  predicate IsBlank(cp: Codepoint) { cp == 0x20 || cp == 0 }

  /** Cell (r, c): the overlay's glyph where it has one, else the terminal's; a blank
      terminal cell shows no glyph whatever the font has for it. */
  function LookOf(s: Scene, fx: Effects, cols: nat, rows: nat, fh: nat, r: nat, c: nat): (l: Look)
    requires WellFormed(s, cols, rows, fh) && r < rows && c < cols
    ensures |l.glyph| == fh
  {
    var o := OverlayAt(s, r, c);
    if o.Some? && o.value.cp != 0 then
      Finish(fx, ResolveOverlay(o.value, s.ovFg, s.ovBg), s.glyphs(o.value.cp, o.value.bold))
    else
      var t := s.cells[r][c];
      var colors := ResolveTerminal(t, o.Some? && o.value.dim);
      Finish(fx, colors, if IsBlank(t.cp) then Blank(fh) else s.glyphs(t.cp, t.bold))
  }

  /** Where the overlay has a glyph, what lies under it does not matter: neither the
      terminal cell, nor bold pop, which must not recolour chrome; nothing is underlined. */
  lemma OverlayHides(s: Scene, under: Scene, fx: Effects, pop: bool, cols: nat, rows: nat, fh: nat, r: nat, c: nat)
    requires WellFormed(s, cols, rows, fh) && WellFormed(under, cols, rows, fh) && r < rows && c < cols
    requires under == s.(cells := under.cells)
    requires OverlayAt(s, r, c).Some? && OverlayAt(s, r, c).value.cp != 0
    ensures LookOf(s, fx, cols, rows, fh, r, c) == LookOf(under, fx.(boldPop := pop), cols, rows, fh, r, c)
    ensures !LookOf(s, fx, cols, rows, fh, r, c).underline
    ensures LookOf(s, fx, cols, rows, fh, r, c).glyph ==
            s.glyphs(OverlayAt(s, r, c).value.cp, OverlayAt(s, r, c).value.bold)
  {
    hide AccentBar, AccentText, Mono565;
  }

  /** Where it has none, the terminal shows through as if there were no overlay, or at half
      brightness under a scrim. */
  lemma OverlayShowsThrough(s: Scene, fx: Effects, cols: nat, rows: nat, fh: nat, r: nat, c: nat)
    requires WellFormed(s, cols, rows, fh) && r < rows && c < cols
    requires OverlayAt(s, r, c).Some? ==> OverlayAt(s, r, c).value.cp == 0
    ensures var o, bare := OverlayAt(s, r, c), s.(overlay := None);
            var l, plain := LookOf(s, fx, cols, rows, fh, r, c), LookOf(bare, fx, cols, rows, fh, r, c);
            && l.glyph == plain.glyph && l.underline == plain.underline == s.cells[r][c].underline
            && (o.None? || !o.value.dim ==> l == plain)
            && (o.Some? && o.value.dim && fx.mono == 0 ==>
                  l.bg == Scrim565(plain.bg)
                  && (!(s.cells[r][c].bold && fx.boldPop) ==> l.fg == Scrim565(plain.fg)))
  {
    hide Mono565, BoldPop565, Scrim565;
  }

  // --------------------------------------------------------------- picture

  /** The cursor is on, and on this cell. */
  predicate CursorOn(cur: Cursor, r: int, c: int) {
    cur.mode != NoCursor && cur.visible && cur.y == r && cur.x == c
  }

  /** The last two lines of a cell: where underlines and the underscore cursor go. */
  predicate FootLine(gl: int, fh: nat) {
    gl >= fh - 2
  }

  predicate CursorLine(cur: Cursor, gl: int, fh: nat) {
    cur.mode == Underscore ==> FootLine(gl, fh)
  }

  /** Pixel px of line gl of a cell, on a scanline that is dimmed or not, under the
      cursor or not. */
  function CellPixel(l: Look, fw: nat, fh: nat, gl: nat, px: nat, dimmed: bool, cursor: bool): Color
    requires |l.glyph| == fh && gl < fh && px < fw
  {
    var lit := Bit(l.glyph[gl], fw - 1 - px) || (l.underline && FootLine(gl, fh));
    var color := if lit then l.fg else l.bg;
    var shaded := if dimmed then Dim565(color) else color;
    if cursor then InvertPixel(shaded) else shaded
  }

  /** What frame to draw: the text grid, the geometry, the snapshot, the cursor. */
  datatype View = View(g: Geom, cols: nat, rows: nat, fx: Effects, cursor: Cursor, clip: Clip)

  /** Pixel (x, y) of the text area, undisplaced. */
  function TextPixel(s: Scene, v: View, x: nat, y: nat): Color
    requires v.g.fw > 0 && v.g.fh > 0
    requires WellFormed(s, v.cols, v.rows, v.g.fh) && x / v.g.fw < v.cols && y / v.g.fh < v.rows
  {
    var r, c := y / v.g.fh, x / v.g.fw;
    CellPixel(LookOf(s, v.fx, v.cols, v.rows, v.g.fh, r, c), v.g.fw, v.g.fh, y % v.g.fh, x % v.g.fw,
              v.fx.scanlines && y % 2 == 1,
              CursorOn(v.cursor, r, c) && CursorLine(v.cursor, y % v.g.fh, v.g.fh))
  }

  /** Pixel (x, y) of the panel when scanline y is displaced by `shift` pixels: the text
      where there is text, black elsewhere, clipped by a running transition. Below the
      text there is only black. */
  function PanelPixel(s: Scene, v: View, shift: int, x: nat, y: nat): Color
    requires v.g.fw > 0 && v.g.fh > 0 && WellFormed(s, v.cols, v.rows, v.g.fh)
  {
    if y / v.g.fh >= v.rows then 0
    else ClippedPixel(v.clip, y,
      if x - shift >= 0 && (x - shift) / v.g.fw < v.cols then TextPixel(s, v, x - shift, y) else 0)
  }

  /** A bright edge line, black outside the window, else the pixel itself. */
  function ClippedPixel(c: Clip, y: int, p: Color): Color {
    if !c.active then p
    else if InEdge(c, y) then c.ecol
    else if Shows(c, y) then p
    else 0
  }

  lemma ClippedParts(c: Clip, y: int, w: Word)
    ensures LeftOf(Clipped(c, y, w)) == ClippedPixel(c, y, LeftOf(w))
    ensures RightOf(Clipped(c, y, w)) == ClippedPixel(c, y, RightOf(w))
  {
    hide LeftOf, RightOf, Pair;
    PairParts(c.ecol, c.ecol);
    BlackParts();
  }

  lemma BlackParts()
    ensures LeftOf(0) == 0 && RightOf(0) == 0
  {
  }
}
