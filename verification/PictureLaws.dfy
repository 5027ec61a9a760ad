/** What the panel shows, read off the scene's own fields and the transitions' own frame
    counts: no law here mentions a resolved cell, a clip window or a blink phase as the
    renderer computes them. */
module PictureLaws {
  import opened Arith
  import opened FontTypes
  import opened Pixels
  import opened Geometry
  import opened Transitions
  import opened Picture
  import opened Renderer
  import Wobble

  // ------------------------------------------------------------------ text

  /** Binary digit fw-1-px of a glyph row: bit fw-1 is the leftmost pixel. */
  predicate Ink(row: Row, fw: nat, px: nat)
    requires px < fw
  {
    row / Pow2(fw - 1 - px) % 2 == 1
  }

  /** What the effects make of a colour on scanline y: phosphor, then bold pop, then the
      dimmed odd scanlines. */
  function Shaded(v: View, p: Color, pop: bool, y: nat): Color {
    var tone := if v.fx.mono != 0 then Mono565(p, v.fx.mono) else p;
    var popped := if pop && v.fx.boldPop then BoldPop565(tone) else tone;
    if v.fx.scanlines && y % 2 == 1 then Dim565(popped) else popped
  }

  /** Is line gl of cell (r, c) under a cursor that is lit? A block covers the cell, an
      underscore its last two lines. */
  predicate UnderCursor(v: View, r: nat, c: nat, gl: nat) {
    && v.cursor.visible && v.cursor.y == r && v.cursor.x == c
    && (v.cursor.mode == Block || (v.cursor.mode == Underscore && gl + 2 >= v.g.fh))
  }

  function Complement(p: Color): Color { p ^ 0xFFFF }

  function Finished(v: View, p: Color, pop: bool, r: nat, c: nat, y: nat): Color
    requires v.g.fh > 0
  {
    if UnderCursor(v, r, c, y % v.g.fh) then Complement(Shaded(v, p, pop, y)) else Shaded(v, p, pop, y)
  }

  /** Does the overlay have a cell over (r, c)? */
  predicate Covered(s: Scene, r: nat, c: nat) {
    s.overlay.Some? && r < s.overlay.value.rows && c < s.overlay.value.cols
  }

  /** One pixel of a resolved cell, by the colour it picks. */
  lemma CellFinished(v: View, k: Colors, glyph: Cell, r: nat, c: nat, y: nat, gl: nat, px: nat)
    requires v.g.fh > 0 && |glyph| == v.g.fh && gl == y % v.g.fh < v.g.fh && px < v.g.fw
    ensures var ink := Ink(glyph[gl], v.g.fw, px) || (k.underline && gl + 2 >= v.g.fh);
            CellPixel(Finish(v.fx, k, glyph), v.g.fw, v.g.fh, gl, px, v.fx.scanlines && y % 2 == 1,
                      CursorOn(v.cursor, r, c) && CursorLine(v.cursor, gl, v.g.fh))
            == Finished(v, if ink then k.fg else k.bg, ink && k.bold, r, c, y)
  {
    hide Ink, InvertPixel, Complement, CursorOn, CursorLine, UnderCursor, Shaded, CellPixel, Finish;
    var ink := Ink(glyph[gl], v.g.fw, px) || (k.underline && gl + 2 >= v.g.fh);
    CursorIsUnder(v, r, c, gl);
    CellShaded(v, k, glyph, y, gl, px);
    InvertIsComplement(Shaded(v, if ink then k.fg else k.bg, ink && k.bold, y));
    CellInverted(Finish(v.fx, k, glyph), v.g.fw, v.g.fh, gl, px, v.fx.scanlines && y % 2 == 1);
  }

  lemma CellShaded(v: View, k: Colors, glyph: Cell, y: nat, gl: nat, px: nat)
    requires |glyph| == v.g.fh && gl < v.g.fh && px < v.g.fw
    ensures var ink := Ink(glyph[gl], v.g.fw, px) || (k.underline && gl + 2 >= v.g.fh);
            |Finish(v.fx, k, glyph).glyph| == v.g.fh
            && CellPixel(Finish(v.fx, k, glyph), v.g.fw, v.g.fh, gl, px, v.fx.scanlines && y % 2 == 1, false)
               == Shaded(v, if ink then k.fg else k.bg, ink && k.bold, y)
  {
    hide Dim565, Mono565, BoldPop565, Bit, Ink, InvertPixel;
    InkIsBit(glyph[gl], v.g.fw, px);
  }

  lemma CellInverted(l: Look, fw: nat, fh: nat, gl: nat, px: nat, dimmed: bool)
    requires |l.glyph| == fh && gl < fh && px < fw
    ensures CellPixel(l, fw, fh, gl, px, dimmed, true) == InvertPixel(CellPixel(l, fw, fh, gl, px, dimmed, false))
  {
    hide Dim565, Bit, InvertPixel;
  }

  lemma InvertIsComplement(p: Color)
    ensures InvertPixel(p) == Complement(p)
  {
  }

  lemma CursorIsUnder(v: View, r: nat, c: nat, gl: nat)
    ensures CursorOn(v.cursor, r, c) && CursorLine(v.cursor, gl, v.g.fh) <==> UnderCursor(v, r, c, gl)
  {
  }

  lemma InkIsBit(row: Row, fw: nat, px: nat)
    requires px < fw
    ensures Ink(row, fw, px) <==> Bit(row, fw - 1 - px)
  {
    BitIsDigit(row, fw - 1 - px);
  }

  /** Where the overlay has no glyph the pixel is the terminal cell's: foreground where the
      glyph or the underline has ink, else background, the two exchanged under reverse and
      both at half brightness under a scrim. Codes 0 and 0x20 have no ink. */
  lemma TerminalPixel(s: Scene, v: View, x: nat, y: nat)
    requires v.g.fw > 0 && v.g.fh > 0
    requires WellFormed(s, v.cols, v.rows, v.g.fh) && x / v.g.fw < v.cols && y / v.g.fh < v.rows
    requires var r, c := y / v.g.fh, x / v.g.fw;
             Covered(s, r, c) ==> s.overlay.value.cells[r][c].cp == 0
    ensures var r, c, gl, px := y / v.g.fh, x / v.g.fw, y % v.g.fh, x % v.g.fw;
            var t := s.cells[r][c];
            var ink := (t.cp != 0 && t.cp != 0x20 && Ink(s.glyphs(t.cp, t.bold)[gl], v.g.fw, px))
                       || (t.underline && gl + 2 >= v.g.fh);
            var plain := if ink != t.reverse then t.fg else t.bg;
            var shown := if Covered(s, r, c) && s.overlay.value.cells[r][c].dim then Scrim565(plain) else plain;
            TextPixel(s, v, x, y) == Finished(v, shown, ink && t.bold, r, c, y)
  {
    hide CellPixel, Finish, Finished, Scrim565, Ink, WellFormed, ResolveOverlay, CursorOn, CursorLine, Blank;
    var r, c, gl, px := y / v.g.fh, x / v.g.fw, y % v.g.fh, x % v.g.fw;
    TerminalCell(s, v, r, c, y, gl, px);
  }

  lemma {:induction false} ShrOfZero(k: nat)
    ensures Shr(0, k) == 0
  {
    if k > 0 {
      ShrOfZero(k - 1);
    }
  }

  lemma BlankHasNoInk(fh: nat, gl: nat, fw: nat, px: nat)
    requires gl < fh && px < fw
    ensures |Blank(fh)| == fh && !Ink(Blank(fh)[gl], fw, px)
  {
    ShrDivides(0, fw - 1 - px);
    ShrOfZero(fw - 1 - px);
  }

  lemma TerminalCell(s: Scene, v: View, r: nat, c: nat, y: nat, gl: nat, px: nat)
    requires v.g.fh > 0 && WellFormed(s, v.cols, v.rows, v.g.fh) && r < v.rows && c < v.cols
    requires gl == y % v.g.fh && px < v.g.fw
    requires Covered(s, r, c) ==> s.overlay.value.cells[r][c].cp == 0
    ensures var t := s.cells[r][c];
            var ink := (t.cp != 0 && t.cp != 0x20 && Ink(s.glyphs(t.cp, t.bold)[gl], v.g.fw, px))
                       || (t.underline && gl + 2 >= v.g.fh);
            var plain := if ink != t.reverse then t.fg else t.bg;
            var shown := if Covered(s, r, c) && s.overlay.value.cells[r][c].dim then Scrim565(plain) else plain;
            CellPixel(LookOf(s, v.fx, v.cols, v.rows, v.g.fh, r, c), v.g.fw, v.g.fh, gl, px,
                      v.fx.scanlines && y % 2 == 1,
                      CursorOn(v.cursor, r, c) && CursorLine(v.cursor, gl, v.g.fh))
            == Finished(v, shown, ink && t.bold, r, c, y)
  {
    hide CellPixel, Finish, Finished, Scrim565, Ink, ResolveOverlay, CursorOn, CursorLine, Blank;
    var t, o := s.cells[r][c], OverlayAt(s, r, c);
    var glyph := if t.cp == 0x20 || t.cp == 0 then Blank(v.g.fh) else s.glyphs(t.cp, t.bold);
    BlankHasNoInk(v.g.fh, gl, v.g.fw, px);
    CellFinished(v, ResolveTerminal(t, o.Some? && o.value.dim), glyph, r, c, y, gl, px);
  }

  lemma OverlayCellPixel(s: Scene, v: View, r: nat, c: nat, y: nat, gl: nat, px: nat)
    requires v.g.fh > 0 && WellFormed(s, v.cols, v.rows, v.g.fh) && r < v.rows && c < v.cols
    requires gl == y % v.g.fh && px < v.g.fw
    requires Covered(s, r, c) && s.overlay.value.cells[r][c].cp != 0
    ensures var o := s.overlay.value.cells[r][c];
            var ground := if o.inverse then AccentBar(o.color) else s.ovBg;
            var text := if !o.inverse then (if o.color == 0 then s.ovFg else AccentText(o.color))
                        else if o.bright || o.color == 0 || o.color == 7 then s.ovBg
                        else Tint565(AccentBar(o.color));
            var shown := if Ink(s.glyphs(o.cp, o.bold)[gl], v.g.fw, px) then text
                         else if o.bright then Wash565(ground) else ground;
            CellPixel(LookOf(s, v.fx, v.cols, v.rows, v.g.fh, r, c), v.g.fw, v.g.fh, gl, px,
                      v.fx.scanlines && y % 2 == 1,
                      CursorOn(v.cursor, r, c) && CursorLine(v.cursor, gl, v.g.fh))
            == Finished(v, shown, false, r, c, y)
  {
    hide CellPixel, Finish, Finished, Ink, AccentBar, AccentText, Tint565, Wash565, CursorOn, CursorLine, Blank,
         ResolveTerminal;
    var o := s.overlay.value.cells[r][c];
    CellFinished(v, ResolveOverlay(o, s.ovFg, s.ovBg), s.glyphs(o.cp, o.bold), r, c, y, gl, px);
  }

  /** Where it has a glyph the pixel is the overlay's. Plain cells: the accent's text
      colour, or the screen's own for accent 0, on the screen's background. Bars: the
      accent's bar under the background's colour, or under the bar's own tint for the six
      hues unless the bar is bright. Bright cells wash the ground toward white. */
  lemma OverlayPixel(s: Scene, v: View, x: nat, y: nat)
    requires v.g.fw > 0 && v.g.fh > 0
    requires WellFormed(s, v.cols, v.rows, v.g.fh) && x / v.g.fw < v.cols && y / v.g.fh < v.rows
    requires Covered(s, y / v.g.fh, x / v.g.fw) && s.overlay.value.cells[y / v.g.fh][x / v.g.fw].cp != 0
    ensures var r, c, gl, px := y / v.g.fh, x / v.g.fw, y % v.g.fh, x % v.g.fw;
            var o := s.overlay.value.cells[r][c];
            var ground := if o.inverse then AccentBar(o.color) else s.ovBg;
            var text := if !o.inverse then (if o.color == 0 then s.ovFg else AccentText(o.color))
                        else if o.bright || o.color == 0 || o.color == 7 then s.ovBg
                        else Tint565(AccentBar(o.color));
            var shown := if Ink(s.glyphs(o.cp, o.bold)[gl], v.g.fw, px) then text
                         else if o.bright then Wash565(ground) else ground;
            TextPixel(s, v, x, y) == Finished(v, shown, false, r, c, y)
  {
    hide CellPixel, Finished, Ink, WellFormed, AccentBar, AccentText, Tint565, Wash565, CursorOn, CursorLine, LookOf;
    OverlayCellPixel(s, v, y / v.g.fh, x / v.g.fw, y, y % v.g.fh, x % v.g.fw);
  }

  /** The accents, channel by channel. */
  lemma AccentsByChannel(a: Accent)
    ensures a > 0 ==>
              && Red(AccentText(a)) == (if a in {3, 4, 5, 7} then 31 else 10)
              && Green(AccentText(a)) == (if a in {1, 2, 4, 7} then 63 else 21)
              && Blue(AccentText(a)) == (if a in {2, 3, 6, 7} then 31 else 10)
    ensures Red(AccentBar(a)) == [18, 12, 10, 21, 25, 23, 13, 31][a]
    ensures Green(AccentBar(a)) == [37, 42, 40, 24, 38, 22, 28, 63][a]
    ensures Blue(AccentBar(a)) == [18, 12, 21, 20, 9, 10, 24, 31][a]
  {
    match a
    case 0 => case 1 => case 2 => case 3 => case 4 => case 5 => case 6 => case 7 =>
  }

  // ---------------------------------------------------------------- frames

  /** Pixel x of scanline y in a frame buffer: two to a word, the left one low. */
  function PixelAt(fb: seq<Word>, x: nat, y: nat): Color
    requires |fb| == HEIGHT * LINE_WORDS && x < WIDTH && y < HEIGHT
  {
    var w := fb[y * LINE_WORDS + x / 2];
    if x % 2 == 0 then (w & 0xFFFF) as bv16 else (w >> 16) as bv16
  }

  /** A drawn frame, pixel by pixel: the text moved by its line's wobble, black beside and
      below it, and what a running transition leaves of it. */
  lemma FramePixel(fb: seq<Word>, s: Scene, v: View, lut: Wobble.Lut, frame: nat, x: nat, y: nat)
    requires frame < 256 && FrameShows(fb, s, v, lut, frame) && x < WIDTH && y < HEIGHT
    ensures |fb| == HEIGHT * LINE_WORDS && v.g.fw > 0 && v.g.fh > 0 && WellFormed(s, v.cols, v.rows, v.g.fh)
    ensures var from := x - (if v.fx.wobble then Wobble.Pixels(lut, frame, y) else 0);
            PixelAt(fb, x, y) ==
            if y / v.g.fh >= v.rows then 0
            else ClippedPixel(v.clip, y, if from >= 0 && from / v.g.fw < v.cols then TextPixel(s, v, from, y) else 0)
  {
    hide WellFormed, TextPixel, ClippedPixel, Wobble.Pixels;
    var i := x / 2;
    assert BandLine(fb, y, s, v, lut, frame, 0);
    assert ShowsWord(fb, y, s, v, Shift(v, lut, frame, y), i, y);
  }

  /** Pixel px of line gl of a terminal cell without effects, its codepoint drawn as `glyph`. */
  function PlainColor(t: TermCell, glyph: Cell, fw: nat, fh: nat, gl: nat, px: nat): Color
    requires |glyph| == fh && gl < fh && px < fw
  {
    var ink := (t.cp != 0 && t.cp != 0x20 && Ink(glyph[gl], fw, px)) || (t.underline && gl + 2 >= fh);
    if ink != t.reverse then t.fg else t.bg
  }

  /** Without effects, overlay, cursor and transition a frame is the terminal's text. */
  lemma PlainFrame(fb: seq<Word>, s: Scene, v: View, lut: Wobble.Lut, frame: nat, x: nat, y: nat)
    requires frame < 256 && FrameShows(fb, s, v, lut, frame) && x < WIDTH && y < HEIGHT
    requires v.fx == Effects(false, 0, false, false) && s.overlay == None && v.cursor.mode == NoCursor
    requires !v.clip.active
    ensures |fb| == HEIGHT * LINE_WORDS && v.g.fw > 0 && v.g.fh > 0 && WellFormed(s, v.cols, v.rows, v.g.fh)
    ensures var r, c, gl, px := y / v.g.fh, x / v.g.fw, y % v.g.fh, x % v.g.fw;
            PixelAt(fb, x, y) == if r >= v.rows || c >= v.cols then 0
                                 else PlainColor(s.cells[r][c], s.glyphs(s.cells[r][c].cp, s.cells[r][c].bold),
                                                 v.g.fw, v.g.fh, gl, px)
  {
    hide FrameShows, TextPixel, WellFormed, Ink, PixelAt;
    FramePixel(fb, s, v, lut, frame, x, y);
    if y / v.g.fh < v.rows && x / v.g.fw < v.cols {
      TerminalPixel(s, v, x, y);
    }
  }

  // ----------------------------------------------------------- transitions

  function Wiped(fx: Fx, frames: nat, n: nat): Fx {
    Run(Run(fx, [CallWipe(frames), Store, Store, Store, Store]), Ticks(n))
  }

  function Collapsed(fx: Fx, frames: nat, n: nat): Fx {
    Run(Run(fx, [CallCollapse(frames), Store, Store, Store, Store]), Ticks(n))
  }

  lemma QuotientAtLeast(x: int, m: nat, q: int)
    requires m > 0
    ensures q <= x / m <==> q * m <= x
  {
    DivMod(x, m);
    if q <= x / m {
      MulMonotone(q, x / m, m);
    } else {
      MulMonotone(x / m + 1, q, m);
      assert (x / m + 1) * m == x / m * m + m;
    }
  }

  /** A wipe of any admitted length, n frames in, whatever ran before it: line y is shown
      once the frames gone by are its share of the wipe, the two lines below those shown
      are cyan, the others black; after its last frame every line is shown. */
  lemma WipeLaw(fx: Fx, frames: nat, n: nat, y: nat, p: Color)
    requires Inv(fx) && fx.arming == Unarmed && 4 <= frames <= 120 && y < 480
    ensures ClippedPixel(Window(Wiped(fx, frames, n)), y, p) ==
            if n >= frames || (y + 1) * frames <= 480 * n then p
            else if (y - 1) * frames <= 480 * n then 0x07FF else 0
    ensures n < frames ==> (Shows(Window(Wiped(fx, frames, n)), y) <==> (y + 1) * frames <= 480 * n)
  {
    hide Run, Ticks, Inv;
    var armed := Run(fx, [CallWipe(frames), Store, Store, Store, Store]);
    RunsItsFrames(fx, true, frames, n);
    RunKeepsInv(fx, [CallWipe(frames), Store, Store, Store, Store]);
    TickDown(armed, n);
    QuotientAtLeast(480 * n, frames, y + 1);
    QuotientAtLeast(480 * n, frames, y - 1);
  }

  /** A collapse of any admitted length, n frames in: line y, at distance d from the middle
      of the panel, is shown while 240 times the frames left, less the last two, is at
      least d for each frame of the whole, less two; the outer two lines of either half
      are white. In the last two frames only the two middle lines are lit. */
  lemma CollapseLaw(fx: Fx, frames: nat, n: nat, y: nat, p: Color)
    requires Inv(fx) && fx.arming == Unarmed && 4 <= frames <= 120 && y < 480
    ensures var d, left := if y < 240 then 240 - y else y - 239, 240 * (frames - 2 - n);
            ClippedPixel(Window(Collapsed(fx, frames, n)), y, p) ==
            if n >= frames then p
            else if n + 2 >= frames then (if d == 1 then 0xFFFF else 0)
            else if d * (frames - 2) > left then 0
            else if (d + 2) * (frames - 2) > left then 0xFFFF
            else p
    ensures var d, left := if y < 240 then 240 - y else y - 239, 240 * (frames - 2 - n);
            n < frames ==> (Shows(Window(Collapsed(fx, frames, n)), y) <==>
                            n + 2 < frames && d * (frames - 2) <= left)
  {
    hide Run, Ticks, Inv;
    var armed := Run(fx, [CallCollapse(frames), Store, Store, Store, Store]);
    RunsItsFrames(fx, false, frames, n);
    RunKeepsInv(fx, [CallCollapse(frames), Store, Store, Store, Store]);
    TickDown(armed, n);
    if n + 2 < frames {
      var d, left := if y < 240 then 240 - y else y - 239, 240 * (frames - 2 - n);
      QuotientAtLeast(left, frames - 2, d);
      QuotientAtLeast(left, frames - 2, d + 2);
      QuotientAtLeast(left, frames - 2, 2);
    }
  }

  // ---------------------------------------------------------------- cursor

  /** The cursor n frame ticks on. */
  function CursorAfter(c: Cursor, n: nat): Cursor {
    if n == 0 then c else CursorTicked(CursorAfter(c, n - 1))
  }

  /** It stays where it is and turns over every fifteen frames. */
  lemma {:induction false} Blinks(c: Cursor, n: nat)
    requires c.blink < 15
    ensures var on := if (c.blink + n) / 15 % 2 == 0 then c.visible else !c.visible;
            CursorAfter(c, n) == Cursor(c.x, c.y, c.mode, (c.blink + n) % 15, on)
  {
    if n > 0 {
      Blinks(c, n - 1);
      NextFrame(c.blink + (n - 1));
    }
  }

  lemma NextFrame(m: nat)
    ensures if m % 15 == 14 then (m + 1) / 15 == m / 15 + 1 && (m + 1) % 15 == 0
            else (m + 1) / 15 == m / 15 && (m + 1) % 15 == m % 15 + 1
    ensures (m / 15 + 1) % 2 == 0 <==> m / 15 % 2 != 0
  {
  }
}
